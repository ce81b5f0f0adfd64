/** Whatever the walk accepts is a clean JSON text within the depth limit. */
module JsonSound {
  import opened JsonGrammar
  import opened JsonLexer
  import opened JsonWalk
  import opened JsonComplete

  lemma StandsJoin(p: seq<bv8>, i: nat, a: seq<bv8>, b: seq<bv8>)
    requires Stands(p, i, a) && Stands(p, i + |a|, b)
    ensures Stands(p, i, a + b)
  {
    assert p[i..i + |a + b|] == p[i..i + |a|] + p[i + |a|..i + |a| + |b|];
  }

  lemma CleanPlus(a: seq<bv8>, b: seq<bv8>)
    requires Clean(a) && Clean(b)
    ensures Clean(a + b)
  {}

  /** A clean piece of the buffer at i. */
  predicate Piece(p: seq<bv8>, i: nat, s: seq<bv8>) { Stands(p, i, s) && Clean(s) }

  lemma PieceJoin(p: seq<bv8>, i: nat, a: seq<bv8>, b: seq<bv8>)
    requires Piece(p, i, a) && Piece(p, i + |a|, b)
    ensures Piece(p, i, a + b)
  {
    StandsJoin(p, i, a, b);
    CleanPlus(a, b);
  }

  lemma OneByte(p: seq<bv8>, i: nat)
    requires i < |p| && p[i] < 0x80 && p[i] != 0x09
    ensures Piece(p, i, [p[i]])
  {}

  /** Skipped whitespace. */
  lemma SkipPiece(p: seq<bv8>, i: nat)
    requires i <= |p|
    ensures var s := p[i..Skip(p, i)]; Piece(p, i, s) && Blanks(s) && i + |s| == Skip(p, i)
  {
    hide Skip;
    SkipStops(p, i);
    var s := p[i..Skip(p, i)];
    forall k | 0 <= k < |s| ensures Blank(s[k]) && s[k] < 0x80 && s[k] != 0x09 { assert Space(p[i + k]); }
  }

  lemma StringPiece(p: seq<bv8>, i: nat)
    requires i < |p| && p[i] == QUOTE && StringEnd(p, i + 1).Some?
    ensures var c := StringEnd(p, i + 1).value;
      var content := p[i + 1..c];
      Content(content) && Piece(p, i, StringText(content)) && i + |StringText(content)| == c + 1
  {
    hide StringEnd, Content;
    StringSound(p, i + 1);
    var c := StringEnd(p, i + 1).value;
    var content := p[i + 1..c];
    hide Stands, Clean;
    OneByte(p, i);
    OneByte(p, c);
    assert Piece(p, i + 1, content) by { Whole(p, i + 1, c); }
    PieceJoin(p, i, [QUOTE], content);
    PieceJoin(p, i, [QUOTE] + content, [QUOTE]);
  }

  lemma Whole(p: seq<bv8>, i: nat, j: nat)
    requires i <= j <= |p| && Clean(p[i..j])
    ensures Piece(p, i, p[i..j])
  {}

  // ---- scalars ---------------------------------------------------------------------

  /** What reading a value at s amounts to. */
  ghost predicate Reads(p: seq<bv8>, s: State, v: Json) {
    && Ready(p, s) && WellFormed(v) && Piece(p, s.i, Text(v)) && Ready(p, Behind(s, v)) && Run(p, s) == Run(p, Behind(s, v))
    && Within(v, WALK_DEPTH - |s.frames|)
  }

  lemma ScalarReads(p: seq<bv8>, s: State, v: Json)
    requires Ready(p, s) && WellFormed(v) && Piece(p, s.i, Text(v)) && !Container(v)
    requires Step(p, s) == Go(Behind(s, v))
    ensures Reads(p, s, v)
  {
    hide Step, Text, Piece;
    RunStep(p, s);
  }

  lemma StringReads(p: seq<bv8>, s: State) returns (v: Json)
    requires Ready(p, s) && s.place == Value && p[s.i] == QUOTE && Run(p, s).Accept?
    ensures Reads(p, s, v)
  {
    hide StringEnd, Content, Piece;
    StepGoes(p, s);
    StringPiece(p, s.i);
    v := JString(p[s.i + 1..StringEnd(p, s.i + 1).value]);
    ScalarReads(p, s, v);
  }

  /** An accepting run takes its next step. */
  lemma StepGoes(p: seq<bv8>, s: State)
    requires Ready(p, s) && Run(p, s).Accept?
    ensures Step(p, s) == Stop(Run(p, s)) || (Step(p, s).Go? && Run(p, s) == Run(p, Step(p, s).state))
  {
    hide Step;
  }

  lemma NumberReads(p: seq<bv8>, s: State) returns (v: Json)
    requires Ready(p, s) && s.place == Value && (Digit(p[s.i]) || p[s.i] == 0x2D) && Run(p, s).Accept?
    ensures Reads(p, s, v)
  {
    hide Number, RunEnd, Text;
    StepGoes(p, s);
    var e := RunEnd(p, s.i + 1);
    var text := p[s.i..e];
    v := JNumber(text);
    NumberText(text);
    NumberClean(text);
    ScalarReads(p, s, v);
  }

  lemma NumberText(text: seq<bv8>)
    ensures Text(JNumber(text)) == text
  {}

  lemma NumberClean(text: seq<bv8>)
    requires Number(text)
    ensures Clean(text)
  {
    hide Number;
    NumberBytes(text);
  }

  lemma LiteralReads(p: seq<bv8>, s: State) returns (v: Json)
    requires Ready(p, s) && s.place == Value && WordAt(p[s.i]).Some? && Run(p, s).Accept?
    ensures Reads(p, s, v)
  {
    hide Text;
    StepGoes(p, s);
    v := JLiteral(WordAt(p[s.i]).value);
    LiteralText(v.word);
    ScalarReads(p, s, v);
  }

  lemma LiteralText(w: Word)
    ensures Text(JLiteral(w)) == WordText(w) && Clean(WordText(w))
  {}

  // ---- containers --------------------------------------------------------------------

  /** Behind a value of an accepted text: whitespace, then a comma or the closer. */
  lemma AfterReads(p: seq<bv8>, s: State)
    requires Ready(p, s) && s.place == After && Run(p, s).Accept?
    ensures var k := Skip(p, s.i);
      && k < |p| && (p[k] == 0x2C || p[k] == Closer(Top(s).isMap))
      && (p[k] == 0x2C ==> Ready(p, State(Next, k + 1, s.frames, s.recs)) && Run(p, s) == Run(p, State(Next, k + 1, s.frames, s.recs)))
      && (p[k] != 0x2C ==> Run(p, s) == Finish(p, s, k))
  {
    hide Skip;
  }

  /** At an element that is not the closer of an empty sequence. */
  predicate AtMember(p: seq<bv8>, s: State) {
    && Ready(p, s) && (s.place == Next || s.place == First)
    && (s.place == First ==> Skip(p, s.i) >= |p| || p[Skip(p, s.i)] != Closer(Top(s).isMap))
  }

  lemma ElementStep(p: seq<bv8>, s: State)
    requires AtMember(p, s) && !Top(s).isMap && Run(p, s).Accept?
    ensures var j := Skip(p, s.i);
      j < |p| && Ready(p, State(Value, j, s.frames, s.recs)) && Run(p, s) == Run(p, State(Value, j, s.frames, s.recs))
  {
    hide Skip;
    RunStep(p, s);
  }

  lemma ElementPiece(p: seq<bv8>, i: nat, e: Element, rest: seq<bv8>)
    requires Piece(p, i, e.before) && Piece(p, i + |e.before|, Text(e.value))
    requires Piece(p, i + |e.before| + |Text(e.value)|, e.after)
    requires Piece(p, i + |ElementText(e)|, rest)
    ensures Piece(p, i, ElementText(e) + rest)
  {
    hide Text, Piece;
    PieceJoin(p, i, e.before, Text(e.value));
    PieceJoin(p, i, e.before + Text(e.value), e.after);
    PieceJoin(p, i, ElementText(e), rest);
  }

  lemma {:induction false} ElementsReads(p: seq<bv8>, s: State) returns (es: seq<Element>)
    requires AtMember(p, s) && !Top(s).isMap && Run(p, s).Accept?
    ensures es != [] && Piece(p, s.i, ElementsText(es) + [0x5D])
    ensures forall k :: 0 <= k < |es| ==> Blanks(es[k].before) && WellFormed(es[k].value) && Blanks(es[k].after)
    ensures forall k :: 0 <= k < |es| ==> Within(es[k].value, WALK_DEPTH - |s.frames|)
    ensures var t := State(After, s.i + |ElementsText(es)|, s.frames, s.recs + ElementRecs(es, s.i, |s.recs|));
      Ready(p, t) && t.i < |p| && Run(p, s) == Finish(p, t, t.i)
    decreases |p| - s.i, 2
  {
    hide Piece, Run, Finish, Ready, ElementsText, ElementText, Text, Recs, WellFormed, Within, Blanks, ElementRecs, Skip;
    ReadyAt(p, s);
    ElementStep(p, s);
    var j := Skip(p, s.i);
    var at := State(Value, j, s.frames, s.recs);
    var v := ValueReads(p, at);
    var t := Behind(at, v);
    ReadsParts(p, at, v);
    AfterReads(p, t);
    ReadyTop(p, t);
    SkipPiece(p, s.i);
    SkipPiece(p, t.i);
    var k := Skip(p, t.i);
    var e := Element(p[s.i..j], v, p[t.i..k]);
    ElementLength(e);
    OneByte(p, k);
    if p[k] == 0x2C {
      var next := State(Next, k + 1, t.frames, t.recs);
      var rest := ElementsReads(p, next);
      es := [e] + rest;
      assert es[1..] == rest;
      ElementsSplit(es);
      PieceJoin(p, k, [0x2C], ElementsText(rest) + [0x5D]);
    } else {
      es := [e];
      assert es[1..] == [];
      ElementsSplit(es);
      FinishAnywhere(p, t, k);
    }
    ElementPiece(p, s.i, e, ElementsRest(es));
    ElementWhole(es);
    ElementRecsStep(es, s.i, |s.recs|, s.recs);
  }

  lemma ElementWhole(es: seq<Element>)
    requires es != []
    ensures ElementsText(es) + [0x5D] == ElementText(es[0]) + ElementsRest(es)
  {
    hide ElementText;
  }

  lemma ReadyAt(p: seq<bv8>, s: State)
    requires AtMember(p, s)
    ensures Ready(p, s) && s.i <= |p| && s.frames != []
  {}

  lemma ReadsParts(p: seq<bv8>, s: State, v: Json)
    requires Reads(p, s, v)
    ensures WellFormed(v) && Piece(p, s.i, Text(v)) && Ready(p, Behind(s, v)) && Run(p, s) == Run(p, Behind(s, v))
    ensures Within(v, WALK_DEPTH - |s.frames|)
  {}

  lemma {:induction false} ValueReads(p: seq<bv8>, s: State) returns (v: Json)
    requires Ready(p, s) && s.place == Value && Run(p, s).Accept?
    ensures Reads(p, s, v)
    decreases |p| - s.i, 1
  {
    hide Run, Reads;
    ValueKind(p, s);
    if p[s.i] == QUOTE {
      v := StringReads(p, s);
    } else if Digit(p[s.i]) || p[s.i] == 0x2D {
      v := NumberReads(p, s);
    } else if WordAt(p[s.i]).Some? {
      v := LiteralReads(p, s);
    } else {
      v := ContainerReads(p, s);
    }
  }

  lemma ValueKind(p: seq<bv8>, s: State)
    requires Ready(p, s) && s.place == Value && Run(p, s).Accept?
    ensures var c := p[s.i];
      c == QUOTE || Digit(c) || c == 0x2D || WordAt(c).Some? || ((c == 0x7B || c == 0x5B) && |s.frames| < WALK_DEPTH)
  {
    StepGoes(p, s);
  }

  lemma {:induction false} ContainerReads(p: seq<bv8>, s: State) returns (v: Json)
    requires Ready(p, s) && s.place == Value && Run(p, s).Accept?
    requires (p[s.i] == 0x7B || p[s.i] == 0x5B) && |s.frames| < WALK_DEPTH
    ensures Reads(p, s, v)
    decreases |p| - s.i, 0
  {
    hide Run, Ready, Piece, Text, InnerText, InnerRecs, Finish, WellFormed, Within, Recs;
    ReadyValue(p, s);
    var isMap := p[s.i] == 0x7B;
    OpenRuns(p, s, isMap);
    ReadyTop(p, Inside(s, isMap));
    v := InsideReads(p, s, isMap);
    ContainerText(v);
    OneByte(p, s.i);
    PieceJoin(p, s.i, [p[s.i]], InnerText(v) + [Closer(isMap)]);
    PieceEnd(p, s.i, Text(v));
    Closes(p, s, v);
  }

  lemma ReadyValue(p: seq<bv8>, s: State)
    requires Ready(p, s) && s.place == Value
    ensures s.i < |p|
  {}

  lemma PieceEnd(p: seq<bv8>, i: nat, s: seq<bv8>)
    requires Piece(p, i, s)
    ensures i + |s| <= |p|
  {}

  /** What was read of the inside of a container that s stands in front of. */
  ghost predicate InsideIs(p: seq<bv8>, s: State, isMap: bool, v: Json)
    requires s.i + 1 <= |p| && Ready(p, Inside(s, isMap))
  {
    && Container(v) && v.JObject? == isMap && WellFormed(v) && |s.frames| < WALK_DEPTH && Within(v, WALK_DEPTH - |s.frames|)
    && Piece(p, s.i + 1, InnerText(v) + [Closer(isMap)])
    && Ready(p, Full(s, v)) && Full(s, v).i < |p|
    && Run(p, Inside(s, isMap)) == Finish(p, Full(s, v), Full(s, v).i)
  }

  lemma EmptyInside(p: seq<bv8>, s: State, isMap: bool) returns (v: Json)
    requires |s.frames| < WALK_DEPTH && s.i + 1 <= |p| && Ready(p, Inside(s, isMap))
    requires Skip(p, s.i + 1) < |p| && p[Skip(p, s.i + 1)] == Closer(isMap)
    ensures InsideIs(p, s, isMap, v)
  {
    hide Run, Finish, Ready, Piece, Skip;
    var t := Inside(s, isMap);
    var j := Skip(p, t.i);
    v := if isMap then JObject(p[t.i..j], []) else JArray(p[t.i..j], []);
    SkipPiece(p, t.i);
    OneByte(p, j);
    PieceJoin(p, t.i, p[t.i..j], [Closer(isMap)]);
    NoInner(v, s.i, |s.recs|);
    EmptyReads(p, t);
  }

  /** The inside of a container of an accepted text. */
  lemma {:induction false} InsideReads(p: seq<bv8>, s: State, isMap: bool) returns (v: Json)
    requires |s.frames| < WALK_DEPTH && s.i + 1 <= |p| && Ready(p, Inside(s, isMap)) && Run(p, Inside(s, isMap)).Accept?
    ensures InsideIs(p, s, isMap, v)
    decreases |p| - (s.i + 1), 3
  {
    hide Run, Finish, Ready, Piece, ElementsText, MembersText, ElementRecs, MemberRecs, Skip;
    var t := Inside(s, isMap);
    var j := Skip(p, t.i);
    if j < |p| && p[j] == Closer(isMap) {
      hide InsideIs;
      v := EmptyInside(p, s, isMap);
    } else if isMap {
      var ms := MembersReads(p, t);
      v := JObject([], ms);
      assert InnerText(v) == MembersText(ms);
    } else {
      var es := ElementsReads(p, t);
      v := JArray([], es);
      assert InnerText(v) == ElementsText(es);
    }
  }

  lemma EmptyReads(p: seq<bv8>, s: State)
    requires Ready(p, s) && s.place == First && Skip(p, s.i) < |p| && p[Skip(p, s.i)] == Closer(Top(s).isMap)
    ensures var t := State(After, Skip(p, s.i), s.frames, s.recs + []);
      Ready(p, t) && Run(p, s) == Finish(p, t, t.i)
  {
    hide Skip;
    assert s.recs + [] == s.recs;
  }

  /** A key in quotes and a colon stand at s, and the walk goes on at the value behind them. */
  ghost predicate KeyThenValue(p: seq<bv8>, s: State)
    requires Ready(p, s)
  {
    var j := Skip(p, s.i);
    && j < |p| && p[j] == QUOTE && StringEnd(p, j + 1).Some?
    && var c := StringEnd(p, j + 1).value;
       var k := Skip(p, c + 1);
    && k < |p| && p[k] == 0x3A
    && var v := State(Value, Skip(p, k + 1), s.frames, s.recs + [Rec(Str, j + 1, c - (j + 1))]);
    Ready(p, v) && Run(p, s) == Run(p, v)
  }

  /** A member's key and colon. */
  lemma MemberReadsStep(p: seq<bv8>, s: State)
    requires AtMember(p, s) && Top(s).isMap && Run(p, s).Accept?
    ensures Ready(p, s) && KeyThenValue(p, s)
  {
    hide Skip, StringEnd;
    StepGoes(p, s);
  }

  /** The pieces up to a member's value. */
  lemma MemberHead(p: seq<bv8>, i: nat, m: Member, rest: seq<bv8>)
    requires Piece(p, i, m.before) && Piece(p, i + |m.before|, StringText(m.key))
    requires Piece(p, i + |m.before| + |m.key| + 2, m.colon) && Piece(p, i + |m.before| + |m.key| + 2 + |m.colon|, [0x3A])
    requires Piece(p, i + |m.before| + |m.key| + 2 + |m.colon| + 1, m.space)
    requires Piece(p, i + ValueOffset(m), rest)
    ensures Piece(p, i, m.before + (StringText(m.key) + (m.colon + ([0x3A] + (m.space + rest)))))
  {
    hide Piece, StringText;
    KeyLength(m.key);
    var a := i + |m.before|;
    var b := a + |m.key| + 2;
    var c := b + |m.colon|;
    PieceJoin(p, c + 1, m.space, rest);
    PieceJoin(p, c, [0x3A], m.space + rest);
    PieceJoin(p, b, m.colon, [0x3A] + (m.space + rest));
    PieceJoin(p, a, StringText(m.key), m.colon + ([0x3A] + (m.space + rest)));
    PieceJoin(p, i, m.before, StringText(m.key) + (m.colon + ([0x3A] + (m.space + rest))));
  }

  /** A member up to its value. */
  lemma KeyReads(p: seq<bv8>, s: State) returns (m: Member, at: State)
    requires AtMember(p, s) && Top(s).isMap && Run(p, s).Accept?
    ensures Blanks(m.before) && Content(m.key) && Blanks(m.colon) && Blanks(m.space)
    ensures at == State(Value, s.i + ValueOffset(m), s.frames, s.recs + [Rec(Str, s.i + |m.before| + 1, |m.key|)])
    ensures Ready(p, at) && Run(p, s) == Run(p, at)
    ensures Piece(p, s.i, m.before) && Piece(p, s.i + |m.before|, StringText(m.key))
    ensures Piece(p, s.i + |m.before| + |m.key| + 2, m.colon) && Piece(p, s.i + |m.before| + |m.key| + 2 + |m.colon|, [0x3A])
    ensures Piece(p, s.i + |m.before| + |m.key| + 2 + |m.colon| + 1, m.space)
  {
    hide Piece, Run, Skip, StringEnd, Content, Ready, Blanks;
    ReadyAt(p, s);
    MemberReadsStep(p, s);
    var j := Skip(p, s.i);
    var c := StringEnd(p, j + 1).value;
    var k := Skip(p, c + 1);
    var v := Skip(p, k + 1);
    m := Member(p[s.i..j], p[j + 1..c], p[c + 1..k], p[k + 1..v], JLiteral(Null), []);
    at := State(Value, v, s.frames, s.recs + [Rec(Str, j + 1, c - (j + 1))]);
    SkipPiece(p, s.i);
    StringPiece(p, j);
    SkipPiece(p, c + 1);
    OneByte(p, k);
    SkipPiece(p, k + 1);
  }

  lemma {:induction false} MembersReads(p: seq<bv8>, s: State) returns (ms: seq<Member>)
    requires AtMember(p, s) && Top(s).isMap && Run(p, s).Accept?
    ensures ms != [] && Piece(p, s.i, MembersText(ms) + [0x7D])
    ensures forall k :: 0 <= k < |ms| ==>
      && Blanks(ms[k].before) && Content(ms[k].key) && Blanks(ms[k].colon)
      && Blanks(ms[k].space) && WellFormed(ms[k].value) && Blanks(ms[k].after)
    ensures forall k :: 0 <= k < |ms| ==> Within(ms[k].value, WALK_DEPTH - |s.frames|)
    ensures var t := State(After, s.i + |MembersText(ms)|, s.frames, s.recs + MemberRecs(ms, s.i, |s.recs|));
      Ready(p, t) && t.i < |p| && Run(p, s) == Finish(p, t, t.i)
    decreases |p| - s.i, 2
  {
    hide Piece, Run, Finish, Ready, MembersText, MemberText, Text, Recs, WellFormed, Within, Blanks, MemberRecs, Skip, Content, StringText;
    ReadyAt(p, s);
    var m, at := KeyReads(p, s);
    ReadyTop(p, at);
    var v := ValueReads(p, at);
    var t := Behind(at, v);
    ReadsParts(p, at, v);
    AfterReads(p, t);
    ReadyTop(p, t);
    SkipPiece(p, t.i);
    var k := Skip(p, t.i);
    m := m.(value := v, after := p[t.i..k]);
    OneByte(p, k);
    if p[k] == 0x2C {
      var next := State(Next, k + 1, t.frames, t.recs);
      var rest := MembersReads(p, next);
      ms := [m] + rest;
      assert ms[1..] == rest;
      PieceJoin(p, k, [0x2C], MembersText(rest) + [0x7D]);
    } else {
      ms := [m];
      assert ms[1..] == [];
      FinishAnywhere(p, t, k);
    }
    MembersSplit(ms);
    var tail := MembersRest(ms);
    PieceJoin(p, t.i, m.after, tail);
    PieceJoin(p, at.i, Text(v), m.after + tail);
    MemberHead(p, s.i, m, Text(v) + (m.after + tail));
    MemberRecsStep(ms, s.i, |s.recs|, s.recs);
  }

  // ---- the walk's verdict ------------------------------------------------------------------

  lemma ClosedText(p: seq<bv8>, s: State, v: Json)
    requires Container(v) && s.frames == [] && Ready(p, Full(s, v)) && Full(s, v).i < |p|
    requires Finish(p, Full(s, v), Full(s, v).i).Accept?
    ensures Skip(p, s.i + |Text(v)|) == |p|
  {
    hide Text, InnerText, InnerRecs, Run;
    ContainerText(v);
  }

  /** Soundness: an accepted buffer is, from its opener on, a clean JSON text within the depth limit. */
  lemma Accepted(p: seq<bv8>, open: nat) returns (v: Json, tail: seq<bv8>)
    requires open < |p| && (p[open] == 0x7B || p[open] == 0x5B) && Walk(p, open).Accept?
    ensures Clean(p[open..]) && IsText(p[open..], v, tail) && Container(v) && Within(v, 256)
  {
    hide Run, Finish, Full, Inside, Text, InnerText, Piece, Skip;
    var s, isMap := State(Value, open, [], [Rec(Doc, 0, 0)]), p[open] == 0x7B;
    Root(p, open, isMap);
    v := InsideReads(p, s, isMap);
    ContainerText(v);
    OneByte(p, open);
    PieceJoin(p, open, [p[open]], InnerText(v) + [Closer(isMap)]);
    ClosedText(p, s, v);
    PieceEnd(p, open, Text(v));
    var e := open + |Text(v)|;
    SkipPiece(p, e);
    tail := p[e..Skip(p, e)];
    PieceJoin(p, open, Text(v), tail);
    PieceAll(p, open, Text(v) + tail);
  }

  lemma PieceAll(p: seq<bv8>, i: nat, s: seq<bv8>)
    requires Piece(p, i, s) && i + |s| == |p|
    ensures p[i..] == s && Clean(s)
  {}

  ghost predicate CleanText(s: seq<bv8>, v: Json, tail: seq<bv8>) {
    Clean(s) && IsText(s, v, tail) && Container(v) && Within(v, 256)
  }

  /**
   * The strict clean walk decides the grammar: it accepts exactly the buffers that are, from the opener on, a JSON
   * text of ASCII bytes without tabs, containers nested at most 256 deep, surrogate escapes in pairs.
   */
  lemma AcceptsExactly(p: seq<bv8>, open: nat)
    requires open < |p| && (p[open] == 0x7B || p[open] == 0x5B)
    ensures Walk(p, open).Accept? <==> exists v, tail :: CleanText(p[open..], v, tail)
  {
    hide Run, Clean, IsText, Within, Text;
    if Walk(p, open).Accept? {
      var v, tail := Accepted(p, open);
      assert CleanText(p[open..], v, tail);
    }
    forall v, tail | CleanText(p[open..], v, tail) ensures Walk(p, open).Accept? { Accepts(p, open, v, tail); }
  }

  /** And the rows are the tree's: any reading of the text gives the same ones. */
  lemma AcceptedRows(p: seq<bv8>, open: nat, v: Json, tail: seq<bv8>)
    requires open < |p| && CleanText(p[open..], v, tail)
    ensures Walk(p, open) == Accept([Rec(Doc, 0, 0)] + Recs(v, open, 1))
  {
    hide Run, Clean, IsText, Within, Text, Recs;
    Accepts(p, open, v, tail);
  }
}
