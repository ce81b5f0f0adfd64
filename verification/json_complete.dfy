/** Every clean JSON text within the depth limit is accepted, with its tree's records. */
module JsonComplete {
  import opened Wrappers
  import opened JsonGrammar
  import opened JsonLexer
  import opened JsonWalk

  /** The bytes of s stand at position i. */
  predicate Stands(p: seq<bv8>, i: nat, s: seq<bv8>) {
    i + |s| <= |p| && p[i..i + |s|] == s
  }

  lemma StandsCut(p: seq<bv8>, i: nat, a: seq<bv8>, b: seq<bv8>)
    requires Stands(p, i, a + b)
    ensures Stands(p, i, a) && Stands(p, i + |a|, b)
  {
    var s := p[i..i + |a + b|];
    assert s[..|a|] == a && s[|a|..] == b;
  }

  lemma StandsRange(p: seq<bv8>, i: nat, s: seq<bv8>)
    requires Stands(p, i, s)
    ensures i + |s| <= |p| && p[i..i + |s|] == s
  {}

  lemma StandsFirst(p: seq<bv8>, i: nat, s: seq<bv8>)
    requires Stands(p, i, s) && s != []
    ensures i < |p| && p[i] == s[0]
  {
    assert p[i] == p[i..i + |s|][0];
  }

  predicate CleanFrom(p: seq<bv8>, i: nat) { forall k :: i <= k < |p| ==> p[k] < 0x80 && p[k] != 0x09 }

  /** What may stand behind a value inside a container. */
  predicate Follows(c: bv8) { Blank(c) || c == 0x2C || c == 0x5D || c == 0x7D }

  lemma SkipStands(p: seq<bv8>, i: nat, s: seq<bv8>)
    requires Stands(p, i, s) && Blanks(s) && CleanFrom(p, i) && (i + |s| < |p| ==> !Space(p[i + |s|]))
    ensures Skip(p, i) == i + |s|
  {
    assert forall k :: 0 <= k < |p[i..]| ==> p[i..][k] == p[i + k];
    SkipBlanks(p, i, |s|);
  }

  lemma CleanSlice(p: seq<bv8>, i: nat, s: seq<bv8>)
    requires Stands(p, i, s) && CleanFrom(p, i)
    ensures Clean(s)
  {
    forall k | 0 <= k < |s| ensures s[k] < 0x80 && s[k] != 0x09 { assert s[k] == p[i + k]; }
  }

  lemma CleanLater(p: seq<bv8>, i: nat, j: nat)
    requires CleanFrom(p, i) && i <= j
    ensures CleanFrom(p, j)
  {}

  /** The state behind a value. */
  function Behind(s: State, v: Json): State {
    State(After, s.i + |Text(v)|, s.frames, s.recs + Recs(v, s.i, |s.recs|))
  }

  lemma RunStep(p: seq<bv8>, s: State)
    requires Ready(p, s)
    ensures Step(p, s).Go? ==> Run(p, s) == Run(p, Step(p, s).state)
  {
    hide Step;
  }

  // ---- scalars ------------------------------------------------------------------

  lemma StringRuns(p: seq<bv8>, s: State, content: seq<bv8>)
    requires Ready(p, s) && s.place == Value && CleanFrom(p, s.i)
    requires Stands(p, s.i, StringText(content)) && Content(content)
    ensures Step(p, s) == Go(Behind(s, JString(content)))
    ensures StringEnd(p, s.i + 1) == Some(s.i + 1 + |content|)
  {
    hide Step, StringEnd, Content, CleanFrom, Stands, StringText, Ready;
    StringStands(p, s.i, content);
    KeyLength(content);
    StandsFirst(p, s.i, StringText(content));
    QuoteFirst(content);
    StringStep(p, s);
  }

  lemma QuoteFirst(content: seq<bv8>)
    ensures StringText(content)[0] == QUOTE
  {}

  lemma StringStep(p: seq<bv8>, s: State)
    requires Ready(p, s) && s.place == Value && p[s.i] == QUOTE && StringEnd(p, s.i + 1).Some?
    ensures var e := StringEnd(p, s.i + 1).value;
      Step(p, s) == Go(State(After, e + 1, s.frames, s.recs + [Rec(Str, s.i + 1, e - (s.i + 1))]))
  {
    hide StringEnd, Number, RunEnd, LiteralEnd;
  }

  lemma StringStands(p: seq<bv8>, i: nat, content: seq<bv8>)
    requires Stands(p, i, StringText(content)) && Content(content) && CleanFrom(p, i)
    ensures StringEnd(p, i + 1) == Some(i + 1 + |content|)
  {
    hide Content, StringEnd, CleanFrom, Stands, Clean;
    assert StringText(content) == [QUOTE] + (content + [QUOTE]);
    CleanLater(p, i, i + 1);
    StandsCut(p, i, [QUOTE], content + [QUOTE]);
    StandsCut(p, i + 1, content, [QUOTE]);
    StandsFirst(p, i + 1 + |content|, [QUOTE]);
    CleanSlice(p, i + 1, content);
    StandsRange(p, i + 1, content);
    StringComplete(p, i + 1, content);
  }

  lemma NumberRuns(p: seq<bv8>, s: State, text: seq<bv8>)
    requires Ready(p, s) && s.place == Value && Stands(p, s.i, text) && Number(text)
    requires s.i + |text| < |p| && Follows(p[s.i + |text|])
    ensures Step(p, s) == Go(Behind(s, JNumber(text)))
  {
    NumberFirst(text);
    NumberBytes(text);
    var e := s.i + |text|;
    forall x | s.i + 1 <= x < e ensures NumberByte(p[x]) { assert p[x] == p[s.i..e][x - s.i]; }
    RunCovers(p, s.i + 1, e);
    StandsFirst(p, s.i, text);
  }

  lemma LiteralRuns(p: seq<bv8>, s: State, w: Word)
    requires Ready(p, s) && s.place == Value && Stands(p, s.i, WordText(w))
    requires s.i + |WordText(w)| < |p| && Follows(p[s.i + |WordText(w)|])
    ensures Step(p, s) == Go(Behind(s, JLiteral(w)))
  {
    StandsFirst(p, s.i, WordText(w));
  }

  // ---- containers -----------------------------------------------------------------

  /** What comes of closing the container at position j. */
  ghost function Finish(p: seq<bv8>, s: State, j: nat): Outcome
    requires Ready(p, s) && j < |p|
  {
    match CloseAt(p, s, j)
    case Stop(o) => o
    case Go(t) => Run(p, t)
  }

  /** Behind a value: the whitespace, then a comma or the closer. */
  lemma AfterRuns(p: seq<bv8>, s: State, blanks: seq<bv8>)
    requires Ready(p, s) && s.place == After && CleanFrom(p, s.i) && Stands(p, s.i, blanks) && Blanks(blanks)
    requires var j := s.i + |blanks|; j < |p| && (p[j] == 0x2C || p[j] == Closer(Top(s).isMap))
    ensures var j := s.i + |blanks|;
      Run(p, s) == if p[j] == 0x2C then Run(p, State(Next, j + 1, s.frames, s.recs)) else Finish(p, s, j)
  {
    hide Skip, Run, Stands, CleanFrom, Blanks, CloseAt, Number, StringEnd;
    AfterBlanks(p, s.i, blanks);
    RunOnce(p, s);
  }

  lemma AfterBlanks(p: seq<bv8>, i: nat, blanks: seq<bv8>)
    requires CleanFrom(p, i) && Stands(p, i, blanks) && Blanks(blanks)
    requires var j := i + |blanks|; j < |p| && (p[j] == 0x2C || p[j] == 0x5D || p[j] == 0x7D)
    ensures Skip(p, i) == i + |blanks|
  {
    SkipStands(p, i, blanks);
  }

  lemma RunOnce(p: seq<bv8>, s: State)
    requires Ready(p, s)
    ensures Run(p, s) == match Step(p, s) case Stop(o) => o case Go(t) => Run(p, t)
  {
    hide Step;
  }

  /** To the value of a sequence's element. */
  lemma ToValue(p: seq<bv8>, s: State, before: seq<bv8>)
    requires Ready(p, s) && (s.place == First || s.place == Next) && !Top(s).isMap
    requires CleanFrom(p, s.i) && Stands(p, s.i, before) && Blanks(before)
    requires var j := s.i + |before|; j < |p| && !Blank(p[j]) && p[j] != 0x5D
    ensures var t := State(Value, s.i + |before|, s.frames, s.recs); Ready(p, t) && Run(p, s) == Run(p, t)
  {
    SkipStands(p, s.i, before);
    RunStep(p, s);
  }

  /** Through a member's key and colon to its value. */
  lemma ToMember(p: seq<bv8>, s: State, m: Member, rest: seq<bv8>)
    requires Ready(p, s) && (s.place == First || s.place == Next) && Top(s).isMap && CleanFrom(p, s.i)
    requires Blanks(m.before) && Content(m.key) && Blanks(m.colon) && Blanks(m.space)
    requires Stands(p, s.i, m.before + (StringText(m.key) + (m.colon + ([0x3A] + (m.space + rest)))))
    requires rest != [] && !Blank(rest[0])
    ensures var t := State(Value, s.i + ValueOffset(m), s.frames, s.recs + [Rec(Str, s.i + |m.before| + 1, |m.key|)]);
      Stands(p, t.i, rest) && Ready(p, t) && Run(p, s) == Run(p, t)
  {
    hide *;
    var t := State(Value, s.i + ValueOffset(m), s.frames, s.recs + [Rec(Str, s.i + |m.before| + 1, |m.key|)]);
    MemberLexemes(p, s.i, m, rest);
    MemberStep(p, s, m);
    RunStep(p, s);
  }

  /** The pieces of a member, found one after the other. */
  lemma MemberLexemes(p: seq<bv8>, i: nat, m: Member, rest: seq<bv8>)
    requires CleanFrom(p, i) && Blanks(m.before) && Content(m.key) && Blanks(m.colon) && Blanks(m.space)
    requires Stands(p, i, m.before + (StringText(m.key) + (m.colon + ([0x3A] + (m.space + rest)))))
    requires rest != [] && !Blank(rest[0])
    ensures Lexed(p, i, m) && Stands(p, i + ValueOffset(m), rest)
  {
    hide Content, StringEnd, Skip, Blanks, CleanFrom, Stands;
    var a := i + |m.before|;
    var b := a + |m.key| + 2;
    var c := b + |m.colon|;
    var tail := [0x3A] + (m.space + rest);
    BlanksThen(p, i, m.before, StringText(m.key) + (m.colon + tail));
    StringThen(p, a, m.key, m.colon + tail);
    BlanksThen(p, b, m.colon, tail);
    StandsCut(p, c, [0x3A], m.space + rest);
    CleanLater(p, c, c + 1);
    BlanksThen(p, c + 1, m.space, rest);
  }

  lemma BlanksThen(p: seq<bv8>, i: nat, blanks: seq<bv8>, rest: seq<bv8>)
    requires CleanFrom(p, i) && Blanks(blanks) && Stands(p, i, blanks + rest) && rest != [] && !Blank(rest[0])
    ensures var j := i + |blanks|;
      Skip(p, i) == j && j < |p| && p[j] == rest[0] && Stands(p, j, rest) && CleanFrom(p, j)
  {
    hide Blanks, CleanFrom, Stands;
    StandsCut(p, i, blanks, rest);
    StandsFirst(p, i + |blanks|, rest);
    SkipStands(p, i, blanks);
    CleanLater(p, i, i + |blanks|);
  }

  lemma StringThen(p: seq<bv8>, a: nat, content: seq<bv8>, rest: seq<bv8>)
    requires CleanFrom(p, a) && Content(content) && Stands(p, a, StringText(content) + rest)
    ensures var b := a + |content| + 2;
      StringEnd(p, a + 1) == Some(b - 1) && Stands(p, b, rest) && CleanFrom(p, b)
  {
    hide Content, CleanFrom, Stands, StringEnd;
    StandsCut(p, a, StringText(content), rest);
    StringStands(p, a, content);
    CleanLater(p, a, a + |content| + 2);
  }

  predicate Lexed(p: seq<bv8>, i: nat, m: Member) {
    var a := i + |m.before|;
    var b := a + |m.key| + 2;
    var c := b + |m.colon|;
    var v := c + 1 + |m.space|;
    && v < |p| && Skip(p, i) == a && p[a] == QUOTE && StringEnd(p, a + 1) == Some(b - 1)
    && Skip(p, b) == c && p[c] == 0x3A && Skip(p, c + 1) == v
  }

  lemma MemberStep(p: seq<bv8>, s: State, m: Member)
    requires Ready(p, s) && (s.place == First || s.place == Next) && Top(s).isMap && Lexed(p, s.i, m)
    ensures Step(p, s) == Go(State(Value, s.i + ValueOffset(m), s.frames, s.recs + [Rec(Str, s.i + |m.before| + 1, |m.key|)]))
  {
    hide StringEnd, Skip;
  }

  // ---- whole values ----------------------------------------------------------------------

  /** What stands behind an element or member that is followed by n more. */
  lemma EndByte(after: seq<bv8>, rest: seq<bv8>)
    requires Blanks(after) && rest != [] && (rest[0] == 0x2C || rest[0] == 0x5D || rest[0] == 0x7D)
    ensures after + rest != [] && Follows((after + rest)[0])
  {}

  /** A value and the whitespace behind it, up to a comma or the closer. */
  lemma {:induction false} ValueAndAfter(p: seq<bv8>, s: State, v: Json, after: seq<bv8>, rest: seq<bv8>)
    requires Ready(p, s) && s.place == Value && CleanFrom(p, s.i) && Stands(p, s.i, Text(v) + (after + rest))
    requires WellFormed(v) && Within(v, WALK_DEPTH - |s.frames|) && Blanks(after) && rest != []
    requires rest[0] == 0x2C || rest[0] == Closer(Top(s).isMap)
    ensures var t, j := Behind(s, v), s.i + |Text(v)| + |after|;
      && Ready(p, t) && j < |p| && Stands(p, j, rest) && CleanFrom(p, j)
      && Run(p, s) == if rest[0] == 0x2C then Run(p, State(Next, j + 1, t.frames, t.recs)) else Finish(p, t, j)
    decreases v, 3
  {
    hide Stands, CleanFrom, WellFormed, Within, Text, Recs, Run, Finish, Blanks, Follows;
    var e := s.i + |Text(v)|;
    StandsCut(p, s.i, Text(v), after + rest);
    EndByte(after, rest);
    StandsFirst(p, e, after + rest);
    ValueRuns(p, s, v);
    CleanLater(p, s.i, e);
    BlanksThen(p, e, after, rest);
    StandsCut(p, e, after, rest);
    AfterRuns(p, Behind(s, v), after);
  }

  lemma {:induction false} ValueRuns(p: seq<bv8>, s: State, v: Json)
    requires Ready(p, s) && s.place == Value && CleanFrom(p, s.i) && Stands(p, s.i, Text(v))
    requires WellFormed(v) && Within(v, WALK_DEPTH - |s.frames|)
    requires var e := s.i + |Text(v)|; e < |p| && Follows(p[e])
    ensures Ready(p, Behind(s, v)) && Run(p, s) == Run(p, Behind(s, v))
    decreases v, 2
  {
    hide Stands, CleanFrom, Number, Content, Run, Ready, Step, Follows, NumKind;
    match v
    case JString(content) => StringRuns(p, s, content); BehindReady(p, s, v); RunStep(p, s);
    case JNumber(text) => NumberRuns(p, s, text); BehindReady(p, s, v); RunStep(p, s);
    case JLiteral(word) => LiteralRuns(p, s, word); BehindReady(p, s, v); RunStep(p, s);
    case JArray(gap, es) => ContainerRuns(p, s, v);
    case JObject(gap, ms) => ContainerRuns(p, s, v);
  }

  lemma BehindReady(p: seq<bv8>, s: State, v: Json)
    requires Ready(p, s) && s.i + |Text(v)| <= |p|
    ensures Ready(p, Behind(s, v))
  {
    hide Text, Recs;
  }

  /** The state just behind a container's opener. */
  function Inside(s: State, isMap: bool): State {
    State(First, s.i + 1, s.frames + [Frame(isMap, |s.recs|)], s.recs + [Rec(OpenKind(isMap), 0, 0)])
  }

  lemma OpenRuns(p: seq<bv8>, s: State, isMap: bool)
    requires Ready(p, s) && s.place == Value && p[s.i] == Opener(isMap) && |s.frames| < WALK_DEPTH
    ensures Ready(p, Inside(s, isMap)) && Run(p, s) == Run(p, Inside(s, isMap))
  {
    hide Run, Number, StringEnd, RunEnd, LiteralEnd, Skip;
    RunStep(p, s);
  }

  /** The records inside a container. */
  function InnerRecs(v: Json, at: nat, base: nat): seq<Rec>
    requires Container(v)
  {
    if v.JArray? then ElementRecs(v.elements, at + 1, base + 1) else MemberRecs(v.members, at + 1, base + 1)
  }

  function InnerText(v: Json): seq<bv8>
    requires Container(v)
  {
    if v.JArray? then v.gap + ElementsText(v.elements) else v.gap + MembersText(v.members)
  }

  lemma ContainerText(v: Json)
    requires Container(v)
    ensures Text(v) == [Opener(v.JObject?)] + (InnerText(v) + [Closer(v.JObject?)])
  {}

  lemma {:induction false} ContainerRuns(p: seq<bv8>, s: State, v: Json)
    requires Container(v) && Ready(p, s) && s.place == Value && CleanFrom(p, s.i) && Stands(p, s.i, Text(v))
    requires WellFormed(v) && Within(v, WALK_DEPTH - |s.frames|) && s.i + |Text(v)| < |p|
    ensures Ready(p, Behind(s, v)) && Run(p, s) == Run(p, Behind(s, v))
    decreases v, 1
  {
    hide Stands, CleanFrom, Run, Ready, WellFormed, Text, InnerText, InnerRecs, Finish;
    var isMap := v.JObject?;
    ContainerText(v);
    StandsCut(p, s.i, [Opener(isMap)], InnerText(v) + [Closer(isMap)]);
    StandsFirst(p, s.i, [Opener(isMap)]);
    CleanLater(p, s.i, s.i + 1);
    ContainerDepth(p, s, v);
    OpenRuns(p, s, isMap);
    var t := Inside(s, isMap);
    InsideRuns(p, s, v);
    StandsCut(p, t.i, InnerText(v), [Closer(isMap)]);
    StandsFirst(p, t.i + |InnerText(v)|, [Closer(isMap)]);
    Closes(p, s, v);
  }

  lemma ContainerDepth(p: seq<bv8>, s: State, v: Json)
    requires Ready(p, s) && Container(v) && Within(v, WALK_DEPTH - |s.frames|)
    ensures |s.frames| < WALK_DEPTH && Inside(s, v.JObject?).frames != []
  {}

  /** The open container with its records, at its closer. */
  function Full(s: State, v: Json): State
    requires Container(v)
  {
    var t := Inside(s, v.JObject?);
    State(After, t.i + |InnerText(v)|, t.frames, t.recs + InnerRecs(v, s.i, |s.recs|))
  }

  /** Closing it leaves exactly the value's records. */
  lemma Closes(p: seq<bv8>, s: State, v: Json)
    requires Container(v) && Ready(p, s) && Ready(p, Full(s, v)) && Full(s, v).i < |p| && s.i + |Text(v)| <= |p|
    ensures Ready(p, Behind(s, v)) && Finish(p, Full(s, v), Full(s, v).i) == Run(p, Behind(s, v))
  {
    hide Text, Recs, InnerRecs, InnerText, Bracketed, Run, Skip, Full, Ready, OpenKind, Behind;
    var f, inner := Full(s, v), InnerRecs(v, s.i, |s.recs|);
    BehindReady(p, s, v);
    BehindIs(s, v);
    FullIs(s, v);
    Patched(s.recs, v.JObject?, inner);
    RecsOf(v, s.i, |s.recs|);
    CloseIs(p, f, s.frames, Frame(v.JObject?, |s.recs|));
    ReadyFrames(p, s);
  }

  lemma ReadyFrames(p: seq<bv8>, s: State)
    requires Ready(p, s)
    ensures s.frames != []
  {}

  lemma BehindIs(s: State, v: Json)
    ensures Behind(s, v) == State(After, s.i + |Text(v)|, s.frames, s.recs + Recs(v, s.i, |s.recs|))
  {}

  lemma FullIs(s: State, v: Json)
    requires Container(v)
    ensures var f := Full(s, v);
      && f.frames == s.frames + [Frame(v.JObject?, |s.recs|)]
      && f.recs == s.recs + [Rec(OpenKind(v.JObject?), 0, 0)] + InnerRecs(v, s.i, |s.recs|)
      && f.i + 1 == s.i + |Text(v)|
  {
    hide Text, InnerRecs, InnerText;
    ContainerText(v);
  }

  /** Closing with the frame f on top. */
  lemma CloseIs(p: seq<bv8>, s: State, frames: seq<Frame>, f: Frame)
    requires Ready(p, s) && s.frames == frames + [f] && s.i < |p|
    ensures f.openAt < |s.recs|
    ensures var recs := s.recs[f.openAt := s.recs[f.openAt].(off := |s.recs|)] + [Rec(Close, f.openAt, 0)];
      CloseAt(p, s, s.i) ==
        if frames == [] then Stop(if Skip(p, s.i + 1) == |p| then Accept(recs) else Reject)
        else Go(State(After, s.i + 1, frames, recs))
  {
    hide Skip;
    assert (frames + [f])[..|frames|] == frames;
    assert Top(s) == f;
  }

  lemma RecsOf(v: Json, at: nat, base: nat)
    requires Container(v)
    ensures Recs(v, at, base) == Bracketed(v.JObject?, InnerRecs(v, at, base), base)
  {}

  lemma Patched(recs: seq<Rec>, isMap: bool, inner: seq<Rec>)
    ensures var r := recs + [Rec(OpenKind(isMap), 0, 0)] + inner;
      r[|recs| := r[|recs|].(off := |r|)] + [Rec(Close, |recs|, 0)] == recs + Bracketed(isMap, inner, |recs|)
  {}

  /** From just inside a container to its closer. */
  lemma {:induction false} InsideRuns(p: seq<bv8>, s: State, v: Json)
    requires Container(v) && |s.frames| < WALK_DEPTH && Ready(p, Inside(s, v.JObject?))
    requires CleanFrom(p, s.i + 1) && Stands(p, s.i + 1, InnerText(v) + [Closer(v.JObject?)])
    requires WellFormed(v) && Within(v, WALK_DEPTH - |s.frames|)
    ensures Ready(p, Full(s, v)) && Full(s, v).i < |p|
    ensures Run(p, Inside(s, v.JObject?)) == Finish(p, Full(s, v), Full(s, v).i)
    decreases v, 0
  {
    hide Stands, CleanFrom, Run, Finish, Ready, ElementsText, MembersText, ElementRecs, MemberRecs;
    var t := Inside(s, v.JObject?);
    if v.JArray? && v.elements != [] {
      assert InnerText(v) == ElementsText(v.elements);
      ElementsRun(p, t, v.elements);
    } else if v.JObject? && v.members != [] {
      assert InnerText(v) == MembersText(v.members);
      MembersRun(p, t, v.members);
    } else {
      NoInner(v, s.i, |s.recs|);
      EmptyRuns(p, t, v.gap);
    }
  }

  lemma NoInner(v: Json, at: nat, base: nat)
    requires Container(v) && (v.JArray? ==> v.elements == []) && (v.JObject? ==> v.members == [])
    ensures InnerText(v) == v.gap && InnerRecs(v, at, base) == []
  {}

  lemma EmptyRuns(p: seq<bv8>, s: State, gap: seq<bv8>)
    requires Ready(p, s) && s.place == First && CleanFrom(p, s.i) && Blanks(gap)
    requires Stands(p, s.i, gap + [Closer(Top(s).isMap)])
    ensures var t := State(After, s.i + |gap|, s.frames, s.recs + []);
      Ready(p, t) && t.i < |p| && Run(p, s) == Finish(p, t, t.i)
  {
    hide Stands, CleanFrom, Blanks;
    BlanksThen(p, s.i, gap, [Closer(Top(s).isMap)]);
    assert s.recs + [] == s.recs;
  }

  /** The comma or closer behind an element, and what follows it. */
  function ElementsRest(es: seq<Element>): seq<bv8>
    requires es != []
  {
    if |es| == 1 then [0x5D] else [0x2C] + (ElementsText(es[1..]) + [0x5D])
  }

  lemma Assoc(a: seq<bv8>, b: seq<bv8>, c: seq<bv8>)
    ensures a + b + c == a + (b + c)
  {}

  lemma ElementsSplit(es: seq<Element>)
    requires es != []
    ensures ElementsText(es) + [0x5D] == es[0].before + (Text(es[0].value) + (es[0].after + ElementsRest(es)))
    ensures |ElementsText(es)| == |ElementText(es[0])| + (if |es| == 1 then 0 else 1 + |ElementsText(es[1..])|)
  {
    hide Text, ElementText;
    var e := es[0];
    var tail := if |es| == 1 then [] else [0x2C] + ElementsText(es[1..]);
    assert ElementsText(es) == ElementText(e) + tail;
    if |es| > 1 { Assoc([0x2C], ElementsText(es[1..]), [0x5D]); }
    Assoc(ElementText(e), tail, [0x5D]);
    ElementParts(e);
    Assoc(e.before + Text(e.value), e.after, ElementsRest(es));
    Assoc(e.before, Text(e.value), e.after + ElementsRest(es));
  }

  lemma ElementParts(e: Element)
    ensures ElementText(e) == e.before + Text(e.value) + e.after
  {}

  /** What the rest of a list of elements starts with, and what stands behind its comma. */
  lemma ElementsRestIs(es: seq<Element>)
    requires es != []
    ensures ElementsRest(es) != [] && ElementsRest(es)[0] == (if |es| == 1 then 0x5D else 0x2C)
    ensures |es| > 1 ==> ElementsRest(es) == [0x2C] + (ElementsText(es[1..]) + [0x5D])
  {
    hide ElementsText;
  }

  lemma {:induction false} ElementsRun(p: seq<bv8>, s: State, es: seq<Element>)
    requires Ready(p, s) && (s.place == First || s.place == Next) && !Top(s).isMap && es != []
    requires CleanFrom(p, s.i) && Stands(p, s.i, ElementsText(es) + [0x5D])
    requires forall k :: 0 <= k < |es| ==> Blanks(es[k].before) && WellFormed(es[k].value) && Blanks(es[k].after)
    requires forall k :: 0 <= k < |es| ==> Within(es[k].value, WALK_DEPTH - |s.frames|)
    ensures var t := State(After, s.i + |ElementsText(es)|, s.frames, s.recs + ElementRecs(es, s.i, |s.recs|));
      Ready(p, t) && t.i < |p| && Run(p, s) == Finish(p, t, t.i)
    decreases es, 0
  {
    hide Stands, CleanFrom, Run, Finish, Ready, ElementsText, ElementText, Text, Recs, WellFormed, Within, Blanks, ElementRecs, ElementsRest, Follows;
    var e, rest := es[0], ElementsRest(es);
    ElementsRestIs(es);
    ElementsSplit(es);
    FirstByte(e.value);
    ReadyTop(p, s);
    ToElement(p, s, e.before, Text(e.value) + (e.after + rest));
    var v := State(Value, s.i + |e.before|, s.frames, s.recs);
    ValueAndAfter(p, v, e.value, e.after, rest);
    var t := Behind(v, e.value);
    ElementRecsStep(es, s.i, |s.recs|, s.recs);
    ElementLength(e);
    if |es| == 1 {
      FinishAnywhere(p, t, t.i + |e.after|);
    } else {
      var next := State(Next, s.i + |ElementText(e)| + 1, t.frames, t.recs);
      ReadyNext(p, t, next);
      StandsCut(p, next.i - 1, [0x2C], ElementsText(es[1..]) + [0x5D]);
      CleanLater(p, next.i - 1, next.i);
      ElementsRun(p, next, es[1..]);
    }
  }

  lemma ElementLength(e: Element)
    ensures |ElementText(e)| == |e.before| + |Text(e.value)| + |e.after|
  {
    hide Text;
  }

  /** To an element's value. */
  lemma ToElement(p: seq<bv8>, s: State, before: seq<bv8>, rest: seq<bv8>)
    requires Ready(p, s) && (s.place == First || s.place == Next) && !Top(s).isMap && CleanFrom(p, s.i)
    requires Blanks(before) && Stands(p, s.i, before + rest) && rest != [] && !Blank(rest[0]) && rest[0] != 0x5D
    ensures var t := State(Value, s.i + |before|, s.frames, s.recs);
      Stands(p, t.i, rest) && CleanFrom(p, t.i) && Ready(p, t) && Run(p, s) == Run(p, t)
  {
    hide Stands, CleanFrom, Run, Blanks;
    BlanksThen(p, s.i, before, rest);
    StandsCut(p, s.i, before, rest);
    ToValue(p, s, before);
  }

  lemma ElementRecsStep(es: seq<Element>, at: nat, base: nat, recs: seq<Rec>)
    requires es != [] && base == |recs|
    ensures var first := Recs(es[0].value, at + |es[0].before|, base);
      && (|es| == 1 ==> ElementRecs(es, at, base) == first)
      && recs + ElementRecs(es, at, base) == recs + first + ElementRecs(es[1..], at + |ElementText(es[0])| + 1, |recs + first|)
  {
    hide Recs, ElementText;
  }

  lemma ReadyTop(p: seq<bv8>, s: State)
    requires Ready(p, s)
    ensures s.i <= |p| && s.frames != []
  {}

  /** Closing does not ask where the walk stood. */
  lemma FinishAnywhere(p: seq<bv8>, s: State, j: nat)
    requires Ready(p, s) && j < |p|
    ensures var t := State(After, j, s.frames, s.recs); Ready(p, t) && Finish(p, s, j) == Finish(p, t, j)
  {
    hide Run;
  }

  lemma ReadyNext(p: seq<bv8>, s: State, t: State)
    requires Ready(p, s) && t.frames == s.frames && t.recs == s.recs && t.place == Next && t.i <= |p|
    ensures Ready(p, t)
  {}

  function MembersRest(ms: seq<Member>): seq<bv8>
    requires ms != []
  {
    if |ms| == 1 then [0x7D] else [0x2C] + (MembersText(ms[1..]) + [0x7D])
  }

  lemma MembersSplit(ms: seq<Member>)
    requires ms != []
    ensures var m := ms[0];
      MembersText(ms) + [0x7D] ==
      m.before + (StringText(m.key) + (m.colon + ([0x3A] + (m.space + (Text(m.value) + (m.after + MembersRest(ms)))))))
    ensures |MembersText(ms)| == |MemberText(ms[0])| + (if |ms| == 1 then 0 else 1 + |MembersText(ms[1..])|)
    ensures |MemberText(ms[0])| == ValueOffset(ms[0]) + |Text(ms[0].value)| + |ms[0].after|
  {
    hide Text, StringText, MemberText;
    var m := ms[0];
    KeyLength(m.key);
    var tail := if |ms| == 1 then [] else [0x2C] + MembersText(ms[1..]);
    assert MembersText(ms) == MemberText(m) + tail;
    if |ms| > 1 { Assoc([0x2C], MembersText(ms[1..]), [0x7D]); }
    Assoc(MemberText(m), tail, [0x7D]);
    MemberRegroup(m, MembersRest(ms));
  }

  lemma KeyLength(key: seq<bv8>)
    ensures |StringText(key)| == |key| + 2
  {}

  lemma MemberRegroup(m: Member, tail: seq<bv8>)
    ensures MemberText(m) + tail ==
      m.before + (StringText(m.key) + (m.colon + ([0x3A] + (m.space + (Text(m.value) + (m.after + tail))))))
    ensures |MemberText(m)| == |m.before| + |StringText(m.key)| + |m.colon| + 1 + |m.space| + |Text(m.value)| + |m.after|
  {
    hide Text, StringText;
    var k, v := StringText(m.key), Text(m.value);
    Assoc(m.before + k + m.colon + [0x3A] + m.space + v, m.after, tail);
    Assoc(m.before + k + m.colon + [0x3A] + m.space, v, m.after + tail);
    Assoc(m.before + k + m.colon + [0x3A], m.space, v + (m.after + tail));
    Assoc(m.before + k + m.colon, [0x3A], m.space + (v + (m.after + tail)));
    Assoc(m.before + k, m.colon, [0x3A] + (m.space + (v + (m.after + tail))));
    Assoc(m.before, k, m.colon + ([0x3A] + (m.space + (v + (m.after + tail)))));
  }

  lemma MembersRestIs(ms: seq<Member>)
    requires ms != []
    ensures MembersRest(ms) != [] && MembersRest(ms)[0] == (if |ms| == 1 then 0x7D else 0x2C)
    ensures |ms| > 1 ==> MembersRest(ms) == [0x2C] + (MembersText(ms[1..]) + [0x7D])
  {
    hide MembersText;
  }

  lemma {:induction false} MembersRun(p: seq<bv8>, s: State, ms: seq<Member>)
    requires Ready(p, s) && (s.place == First || s.place == Next) && Top(s).isMap && ms != []
    requires CleanFrom(p, s.i) && Stands(p, s.i, MembersText(ms) + [0x7D])
    requires forall k :: 0 <= k < |ms| ==>
      && Blanks(ms[k].before) && Content(ms[k].key) && Blanks(ms[k].colon)
      && Blanks(ms[k].space) && WellFormed(ms[k].value) && Blanks(ms[k].after)
    requires forall k :: 0 <= k < |ms| ==> Within(ms[k].value, WALK_DEPTH - |s.frames|)
    ensures var t := State(After, s.i + |MembersText(ms)|, s.frames, s.recs + MemberRecs(ms, s.i, |s.recs|));
      Ready(p, t) && t.i < |p| && Run(p, s) == Finish(p, t, t.i)
    decreases ms, 0
  {
    hide Stands, CleanFrom, Run, Finish, Ready, MembersText, MemberText, Text, Recs, WellFormed, Within, Blanks, MemberRecs, Content, MembersRest, Follows;
    var m, rest := ms[0], MembersRest(ms);
    MembersRestIs(ms);
    MembersSplit(ms);
    FirstByte(m.value);
    ReadyTop(p, s);
    ToMember(p, s, m, Text(m.value) + (m.after + rest));
    var v := State(Value, s.i + ValueOffset(m), s.frames, s.recs + [Rec(Str, s.i + |m.before| + 1, |m.key|)]);
    CleanLater(p, s.i, v.i);
    ValueAndAfter(p, v, m.value, m.after, rest);
    var t := Behind(v, m.value);
    MemberRecsStep(ms, s.i, |s.recs|, s.recs);
    if |ms| == 1 {
      FinishAnywhere(p, t, t.i + |m.after|);
    } else {
      var next := State(Next, s.i + |MemberText(m)| + 1, t.frames, t.recs);
      ReadyNext(p, t, next);
      StandsCut(p, next.i - 1, [0x2C], MembersText(ms[1..]) + [0x7D]);
      CleanLater(p, next.i - 1, next.i);
      MembersRun(p, next, ms[1..]);
    }
  }

  lemma MemberRecsStep(ms: seq<Member>, at: nat, base: nat, recs: seq<Rec>)
    requires ms != [] && base == |recs|
    ensures var m := ms[0];
      var key := [Rec(Str, at + |m.before| + 1, |m.key|)];
      var value := Recs(m.value, at + ValueOffset(m), |recs + key|);
      && recs + MemberRecs(ms, at, base) ==
         recs + key + value + MemberRecs(ms[1..], at + |MemberText(m)| + 1, |recs + key + value|)
      && (|ms| == 1 ==> recs + MemberRecs(ms, at, base) == recs + key + value)
  {
    hide Recs, MemberText;
  }

  /**
   * Completeness: a clean JSON text with a container at its root, nested at most 256 deep, is accepted, and the
   * rows are DOC and the preorder records of its tree.
   */
  lemma Accepts(p: seq<bv8>, open: nat, v: Json, tail: seq<bv8>)
    requires open <= |p| && Clean(p[open..]) && IsText(p[open..], v, tail) && Container(v) && Within(v, WALK_DEPTH)
    ensures open < |p| && Walk(p, open) == Accept([Rec(Doc, 0, 0)] + Recs(v, open, 1))
  {
    hide Text, Recs, Run, InnerText, InnerRecs, CleanFrom, Stands, Finish, Inside, Full;
    ContainerText(v);
    TextStands(p, open, v, tail);
    StandsCut(p, open, Text(v), tail);
    StandsCut(p, open, [Opener(v.JObject?)], InnerText(v) + [Closer(v.JObject?)]);
    StandsFirst(p, open, [Opener(v.JObject?)]);
    CleanLater(p, open, open + 1);
    var outer := State(Value, open, [], [Rec(Doc, 0, 0)]);
    Root(p, open, v.JObject?);
    InsideRuns(p, outer, v);
    StandsCut(p, open + 1, InnerText(v), [Closer(v.JObject?)]);
    CleanLater(p, open, open + |Text(v)|);
    SkipAll(p, open + |Text(v)|, tail);
    RootCloses(p, outer, v);
  }

  lemma TextStands(p: seq<bv8>, open: nat, v: Json, tail: seq<bv8>)
    requires open <= |p| && Clean(p[open..]) && p[open..] == Text(v) + tail
    ensures Stands(p, open, Text(v) + tail) && CleanFrom(p, open) && open + |Text(v) + tail| == |p|
  {
    hide Text;
    forall k | open <= k < |p| ensures p[k] < 0x80 && p[k] != 0x09 { assert p[k] == p[open..][k - open]; }
  }

  lemma SkipAll(p: seq<bv8>, i: nat, tail: seq<bv8>)
    requires Stands(p, i, tail) && Blanks(tail) && CleanFrom(p, i) && i + |tail| == |p|
    ensures Skip(p, i) == |p|
  {
    SkipStands(p, i, tail);
  }

  lemma Root(p: seq<bv8>, open: nat, isMap: bool)
    requires open < |p| && p[open] == Opener(isMap)
    ensures var t := Inside(State(Value, open, [], [Rec(Doc, 0, 0)]), isMap); t == Start(p, open) && Ready(p, t)
  {}

  lemma RootCloses(p: seq<bv8>, s: State, v: Json)
    requires Container(v) && s.frames == [] && Ready(p, Full(s, v)) && Full(s, v).i < |p|
    requires s.i + |Text(v)| <= |p| && Skip(p, s.i + |Text(v)|) == |p|
    ensures Finish(p, Full(s, v), Full(s, v).i) == Accept(s.recs + Recs(v, s.i, |s.recs|))
  {
    hide Text, Recs, InnerRecs, InnerText, Bracketed, Run, Skip, Full, Ready, OpenKind;
    FullIs(s, v);
    Patched(s.recs, v.JObject?, InnerRecs(v, s.i, |s.recs|));
    RecsOf(v, s.i, |s.recs|);
    CloseIs(p, Full(s, v), s.frames, Frame(v.JObject?, |s.recs|));
  }
}
