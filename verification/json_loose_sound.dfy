/** Whatever the reference walk takes is a loose text within the depth limit. */
module JsonLooseSound {
  import opened Wrappers
  import opened JsonGrammar
  import opened JsonLexer
  import opened JsonWalk
  import opened JsonScan
  import opened JsonShape
  import opened JsonLoose
  import opened JsonLooseComplete
  import JsonSound

  lemma Join(p: seq<bv8>, i: nat, a: seq<bv8>, b: seq<bv8>)
    requires Stands(p, i, a) && Stands(p, i + |a|, b)
    ensures Stands(p, i, a + b)
  {
    JsonSound.StandsJoin(p, i, a, b);
  }

  lemma OneByte(p: seq<bv8>, i: nat)
    requires i < |p|
    ensures Stands(p, i, [p[i]])
  {}

  lemma Slice(p: seq<bv8>, i: nat, j: nat)
    requires i <= j <= |p|
    ensures Stands(p, i, p[i..j]) && i + |p[i..j]| == j
  {}

  /** Skipped whitespace. */
  lemma {:induction false} LeadBlank(p: seq<bv8>, i: nat)
    requires i <= |p|
    ensures forall k :: i <= k < Lead(p, i) ==> Blank(p[k])
    decreases |p| - i
  {
    if i < |p| && Blank(p[i]) { LeadBlank(p, i + 1); }
  }

  lemma LeadPiece(p: seq<bv8>, i: nat)
    requires i <= |p|
    ensures var s := p[i..Lead(p, i)]; Stands(p, i, s) && Blanks(s) && i + |s| == Lead(p, i)
    ensures Lead(p, i) < |p| ==> AtToken(p, Lead(p, i))
  {
    hide Lead;
    LeadBlank(p, i);
    LeadAgain(p, i);
  }

  predicate AtToken(p: seq<bv8>, i: nat) { i < |p| && !Blank(p[i]) }

  lemma {:induction false} AnySound(p: seq<bv8>, j: nat)
    requires j <= |p| && AnyEnd(p, j).Some?
    ensures var c := AnyEnd(p, j).value; p[c] == QUOTE && Content(p[j..c])
    decreases |p| - j
  {
    hide CharLength;
    var c := AnyEnd(p, j).value;
    if p[j] != QUOTE {
      var n := CharLength(p[j..]);
      AnySound(p, j + n);
      assert p[j..] == p[j..c] + p[c..];
      CharCut(p[j..c], p[c..], n);
      assert p[j..c][n..] == p[j + n..c];
    }
  }

  lemma StringPiece(p: seq<bv8>, i: nat)
    requires i < |p| && p[i] == QUOTE && AnyEnd(p, i + 1).Some?
    ensures var c := AnyEnd(p, i + 1).value;
      var content := p[i + 1..c];
      Content(content) && Stands(p, i, StringText(content)) && i + |StringText(content)| == c + 1
  {
    hide AnyEnd, Content;
    AnySound(p, i + 1);
    var c := AnyEnd(p, i + 1).value;
    hide Stands;
    OneByte(p, i);
    OneByte(p, c);
    Slice(p, i + 1, c);
    Join(p, i, [QUOTE], p[i + 1..c]);
    Join(p, i, [QUOTE] + p[i + 1..c], [QUOTE]);
  }

  // ---- values ----------------------------------------------------------------------

  /** What reading a value at s amounts to. */
  ghost predicate Reads(p: seq<bv8>, s: Spot, v: Tree, all: bool) {
    && Fit(p, s) && ValuePlace(s.x, v) && Sound(v) && Stands(p, s.i, TreeText(v)) && Under(v, WALK_DEPTH - |s.frames|)
    && Fit(p, Past(s, v)) && RefRun(p, s, all) == RefRun(p, Past(s, v), all)
  }

  /** A value is due at the token at the cursor, and the walk takes the text. */
  predicate ValueDue(p: seq<bv8>, s: Spot, all: bool) {
    && Fit(p, s) && AtToken(p, s.i) && RefRun(p, s, all).Taken?
    && s.x != Colon && s.x != CommaOrClose && (MayClose(s.x) ==> p[s.i] != Closer(Inner(s).isMap)) && (InKey(s.x) ==> p[s.i] != QUOTE)
  }

  lemma ValueGoes(p: seq<bv8>, s: Spot, all: bool)
    requires ValueDue(p, s, all)
    ensures ValueTurn(p, s).Goes? && RefRun(p, s, all) == RefRun(p, ValueTurn(p, s).spot, all)
  {
    hide RefRun, Lead, ValueTurn;
    NotBlankStays(p, s.i);
    TokenRuns(p, s, all);
    ValueStops(p, s);
  }

  /** No value ends the walk with success. */
  lemma ValueStops(p: seq<bv8>, s: Spot)
    requires Fit(p, s) && s.i < |p|
    ensures ValueTurn(p, s).Ends? ==> ValueTurn(p, s).verdict == Refused
  {}

  lemma ScalarReads(p: seq<bv8>, s: Spot, v: Tree, all: bool)
    requires ValueDue(p, s, all) && !v.TBranch? && ValuePlace(s.x, v) && Sound(v) && Stands(p, s.i, TreeText(v))
    requires ValueTurn(p, s) == Goes(Past(s, v))
    ensures Reads(p, s, v, all)
  {
    hide RefRun, Stands, TreeText, TreeRows, LoneWords, ValueTurn, Sound;
    ValueGoes(p, s, all);
  }

  lemma StringReads(p: seq<bv8>, s: Spot, all: bool) returns (v: Tree)
    requires ValueDue(p, s, all) && p[s.i] == QUOTE
    ensures Reads(p, s, v, all)
  {
    hide AnyEnd, Content, Stands, RefRun, Reads;
    ValueGoes(p, s, all);
    StringTurns(p, s);
    StringPiece(p, s.i);
    v := TString(p[s.i + 1..AnyEnd(p, s.i + 1).value]);
    StringRuns(p, s, v);
    ScalarReads(p, s, v, all);
  }

  lemma NumberReads(p: seq<bv8>, s: Spot, all: bool) returns (v: Tree)
    requires ValueDue(p, s, all) && (Digit(p[s.i]) || p[s.i] == 0x2D)
    ensures Reads(p, s, v, all)
  {
    hide Shape, Number, RefRun, IntegerShape, Reads, Fit;
    ValueGoes(p, s, all);
    NumberTurns(p, s);
    ShapeIsNumber(p[s.i..]);
    var n := Shape(p[s.i..]).value.0;
    assert p[s.i..][..n] == p[s.i..s.i + n];
    v := TNumber(p[s.i..s.i + n]);
    Slice(p, s.i, s.i + n);
    ScalarReads(p, s, v, all);
  }

  lemma WordReads(p: seq<bv8>, s: Spot, all: bool) returns (v: Tree)
    requires ValueDue(p, s, all) && WordAt(p[s.i]).Some?
    ensures Reads(p, s, v, all)
  {
    hide RefRun, Reads, Fit;
    ValueGoes(p, s, all);
    v := TWord(WordAt(p[s.i]).value);
    ScalarReads(p, s, v, all);
  }

  /** What may begin a value. */
  lemma ValueKind(p: seq<bv8>, s: Spot, all: bool)
    requires ValueDue(p, s, all)
    ensures var c := p[s.i];
      || c == QUOTE || Digit(c) || c == 0x2D || WordAt(c).Some?
      || ((c == 0x7B || c == 0x5B) && |s.frames| < WALK_DEPTH && (s.x.AnyValue? || s.x.ValueOrClose?))
  {
    hide RefRun;
    ValueGoes(p, s, all);
  }

  lemma {:induction false} ValueReads(p: seq<bv8>, s: Spot, all: bool) returns (v: Tree)
    requires ValueDue(p, s, all)
    ensures Reads(p, s, v, all)
    decreases |p| - s.i, 1
  {
    hide RefRun, Reads, Fit;
    ValueKind(p, s, all);
    if p[s.i] == QUOTE {
      v := StringReads(p, s, all);
    } else if Digit(p[s.i]) || p[s.i] == 0x2D {
      v := NumberReads(p, s, all);
    } else if WordAt(p[s.i]).Some? {
      v := WordReads(p, s, all);
    } else {
      v := BranchReads(p, s, all);
    }
  }

  lemma {:induction false} BranchReads(p: seq<bv8>, s: Spot, all: bool) returns (v: Tree)
    requires ValueDue(p, s, all) && (p[s.i] == 0x7B || p[s.i] == 0x5B) && |s.frames| < WALK_DEPTH && (s.x.AnyValue? || s.x.ValueOrClose?)
    ensures Reads(p, s, v, all)
    decreases |p| - s.i, 0
  {
    hide RefRun, Fit, Stands, TreeText, InnerText, ItemsRows, Finish, Sound, Under, TreeRows, AtCloser, LoneIn, LoneWords;
    var isMap := p[s.i] == 0x7B;
    OpenRuns(p, s, isMap, all);
    v := InsideReads(p, s, isMap, all);
    BranchText(v);
    OneByte(p, s.i);
    Join(p, s.i, [p[s.i]], InnerText(v) + [Closer(isMap)]);
    FirstStands(p, s.i, TreeText(v));
    Closes(p, s, v, all);
  }

  /** What was read of the inside of a container that s stands in front of. */
  ghost predicate InsideIs(p: seq<bv8>, s: Spot, isMap: bool, v: Tree, all: bool)
    requires Fit(p, Opened(s, isMap))
  {
    && v.TBranch? && v.isMap == isMap && Sound(v) && |s.frames| < WALK_DEPTH && Under(v, WALK_DEPTH - |s.frames|)
    && Stands(p, s.i + 1, InnerText(v) + [Closer(isMap)])
    && Fit(p, AtCloser(s, v)) && AtCloser(s, v).i < |p|
    && RefRun(p, Opened(s, isMap), all) == Finish(p, AtCloser(s, v), AtCloser(s, v).i, all)
  }

  lemma {:induction false} InsideReads(p: seq<bv8>, s: Spot, isMap: bool, all: bool) returns (v: Tree)
    requires |s.frames| < WALK_DEPTH && Fit(p, Opened(s, isMap)) && RefRun(p, Opened(s, isMap), all).Taken?
    ensures InsideIs(p, s, isMap, v, all)
    decreases |p| - (s.i + 1), 4
  {
    hide RefRun, Fit, Finish, Stands, ItemsText, ItemsRows, LoneIn, Lead;
    var t := Opened(s, isMap);
    InnerFrame(s, isMap);
    FitFrames(p, t);
    var j := Lead(p, t.i);
    if j < |p| && p[j] == Closer(isMap) {
      v := TBranch(isMap, p[t.i..j], []);
      LeadPiece(p, t.i);
      OneByte(p, j);
      Join(p, t.i, p[t.i..j], [Closer(isMap)]);
      NoItems(isMap, t.i, |t.recs|);
      assert p[t.i..j] + [] == p[t.i..j];
      EmptyRuns(p, t, p[t.i..j], all);
    } else {
      var items := ItemsReads(p, t, isMap, all);
      v := TBranch(isMap, [], items);
      assert [] + ItemsText(items) == ItemsText(items);
    }
  }

  // ---- items ---------------------------------------------------------------------------

  /** In front of an item, not of the closer of an empty container. */
  predicate ItemDue(p: seq<bv8>, s: Spot, isMap: bool, all: bool) {
    && Fit(p, s) && Begins(s.x, isMap) && Inner(s).isMap == isMap && RefRun(p, s, all).Taken?
    && (MayClose(s.x) ==> Lead(p, s.i) >= |p| || p[Lead(p, s.i)] != Closer(isMap))
  }

  /** The whitespace in front of an item's first token. */
  lemma ItemBegins(p: seq<bv8>, s: Spot, isMap: bool, all: bool)
    requires ItemDue(p, s, isMap, all)
    ensures var j := Lead(p, s.i); var u := s.(i := j);
      && AtToken(p, j) && Fit(p, u) && RefRun(p, u, all) == RefRun(p, s, all)
      && Stands(p, s.i, p[s.i..j]) && Blanks(p[s.i..j])
      && (if isMap && p[j] == QUOTE then InKey(s.x) else ValueDue(p, u, all))
  {
    hide Lead, Stands, Blanks;
    LeadPiece(p, s.i);
    SkipRuns(p, s, all);
  }

  /** A member's name and colon. */
  lemma NameReads(p: seq<bv8>, s: Spot, all: bool) returns (n: Name)
    requires Fit(p, s) && InKey(s.x) && AtToken(p, s.i) && p[s.i] == QUOTE && RefRun(p, s, all).Taken?
    ensures NameOk(Some(n)) && Stands(p, s.i, NameText(Some(n)))
    ensures var t := Spot(AnyValue, s.i + |NameText(Some(n))|, s.frames, s.recs + [Rec(Str, s.i + 1, |n.key|)], s.lone);
      ValueDue(p, t, all) && RefRun(p, s, all) == RefRun(p, t, all)
  {
    hide Stands, RefRun, Lead, Blanks, Content, AnyEnd, StringText;
    NotBlankStays(p, s.i);
    TokenRuns(p, s, all);
    StringTurns(p, s);
    StringPiece(p, s.i);
    var c := AnyEnd(p, s.i + 1).value;
    var u := Spot(Colon, c + 1, s.frames, s.recs + [Rec(Str, s.i + 1, c - (s.i + 1))], s.lone);
    var k := ColonReads(p, u, all);
    n := NamePieces(p, s.i, c, k);
  }

  /** The pieces of a member's name: its quotes, the colon and the whitespace around it. */
  lemma NamePieces(p: seq<bv8>, i: nat, c: nat, k: nat) returns (n: Name)
    requires i < c < |p| && p[i] == QUOTE && AnyEnd(p, i + 1) == Some(c) && k == Lead(p, c + 1) < |p| && p[k] == 0x3A
    ensures NameOk(Some(n)) && Stands(p, i, NameText(Some(n)))
    ensures i + |NameText(Some(n))| == Lead(p, k + 1) && |n.key| == c - (i + 1)
  {
    hide Stands, Lead, Blanks, Content, AnyEnd, StringText;
    StringPiece(p, i);
    LeadPiece(p, c + 1);
    OneByte(p, k);
    LeadPiece(p, k + 1);
    n := Name(p[i + 1..c], p[c + 1..k], p[k + 1..Lead(p, k + 1)]);
    Join(p, k, [0x3A], n.space);
    Join(p, c + 1, n.colon, [0x3A] + n.space);
    Join(p, i, StringText(n.key), n.colon + ([0x3A] + n.space));
    NameRegroup(n, []);
    assert n.space + [] == n.space && NameText(Some(n)) + [] == NameText(Some(n));
  }

  lemma ColonReads(p: seq<bv8>, s: Spot, all: bool) returns (k: nat)
    requires Fit(p, s) && s.x == Colon && RefRun(p, s, all).Taken?
    ensures k == Lead(p, s.i) < |p| && p[k] == 0x3A
    ensures var t := Spot(AnyValue, Lead(p, k + 1), s.frames, s.recs, s.lone);
      ValueDue(p, t, all) && RefRun(p, s, all) == RefRun(p, t, all)
  {
    hide RefRun, Lead;
    k := Lead(p, s.i);
    RunsOn(p, s, all);
    TokenRuns(p, s, all);
    ColonRuns(p, s, all);
    var t := Spot(AnyValue, Lead(p, k + 1), s.frames, s.recs, s.lone);
    RunsOn(p, t, all);
    LeadAgain(p, k + 1);
  }

  /** A walk that takes the text finds a next token. */
  lemma RunsOn(p: seq<bv8>, s: Spot, all: bool)
    requires Fit(p, s) && RefRun(p, s, all).Taken?
    ensures Lead(p, s.i) < |p|
  {
    hide Lead, Token;
  }

  /** Behind a value: whitespace, then a comma or the closer. */
  lemma AfterReads(p: seq<bv8>, s: Spot, all: bool)
    requires Fit(p, s) && s.x == CommaOrClose && RefRun(p, s, all).Taken?
    ensures var j := Lead(p, s.i); j < |p| && (p[j] == 0x2C || p[j] == Closer(Inner(s).isMap))
  {
    hide RefRun, Lead;
    RunsOn(p, s, all);
    TokenRuns(p, s, all);
  }

  /** The same with the whitespace as a piece of the text. */
  lemma AfterPiece(p: seq<bv8>, s: Spot, isMap: bool, all: bool) returns (after: seq<bv8>)
    requires Fit(p, s) && s.x == CommaOrClose && Inner(s).isMap == isMap && RefRun(p, s, all).Taken?
    ensures Blanks(after) && Stands(p, s.i, after)
    ensures var j := s.i + |after|;
      && j < |p| && (p[j] == 0x2C || p[j] == Closer(isMap))
      && Fit(p, s.(i := j)) && Fit(p, s.(x := AfterComma(isMap), i := j + 1))
      && RefRun(p, s, all) ==
         if p[j] == 0x2C then RefRun(p, s.(x := AfterComma(isMap), i := j + 1), all) else Finish(p, s.(i := j), j, all)
  {
    hide Stands, RefRun, Lead, Finish, Fit, Blanks;
    FitFrames(p, s);
    AfterReads(p, s, all);
    AfterRuns(p, s, all);
    LeadPiece(p, s.i);
    after := p[s.i..Lead(p, s.i)];
  }

  /** An item up to its value. */
  lemma HeadReads(p: seq<bv8>, s: Spot, isMap: bool, all: bool) returns (it: Item)
    requires ItemDue(p, s, isMap, all)
    ensures Blanks(it.before) && NameOk(it.name) && (it.name.Some? ==> isMap) && Stands(p, s.i, HeadText(it))
    ensures var t := AtValue(s, it); ValueDue(p, t, all) && RefRun(p, s, all) == RefRun(p, t, all) && s.i <= t.i
  {
    hide Stands, RefRun, Lead, Blanks, Content, ValueDue;
    ItemBegins(p, s, isMap, all);
    var j := Lead(p, s.i);
    var u := s.(i := j);
    it := Item(p[s.i..j], None, TWord(Null), []);
    if isMap && p[j] == QUOTE {
      var n := NameReads(p, u, all);
      it := it.(name := Some(n));
      Join(p, s.i, it.before, NameText(it.name));
    } else {
      assert it.before + [] == it.before && s.recs + [] == s.recs;
    }
  }

  lemma ReadsParts(p: seq<bv8>, s: Spot, v: Tree, all: bool)
    requires Reads(p, s, v, all)
    ensures Fit(p, s) && ValuePlace(s.x, v) && Sound(v) && Stands(p, s.i, TreeText(v)) && Under(v, WALK_DEPTH - |s.frames|)
    ensures Fit(p, Past(s, v)) && RefRun(p, s, all) == RefRun(p, Past(s, v), all)
  {}

  /** An item, and what is behind it. */
  lemma {:induction false} ItemReads(p: seq<bv8>, s: Spot, isMap: bool, all: bool) returns (it: Item)
    requires ItemDue(p, s, isMap, all)
    ensures ItemShape(isMap, it) && Sound(it.value) && Under(it.value, WALK_DEPTH - |s.frames|)
    ensures var t, j := Past(AtValue(s, it), it.value), s.i + |ItemText(it)|;
      && Stands(p, s.i, ItemText(it)) && s.i <= j < |p| && (p[j] == 0x2C || p[j] == Closer(isMap))
      && Fit(p, t.(i := j)) && Fit(p, t.(x := AfterComma(isMap), i := j + 1))
      && RefRun(p, s, all) ==
         if p[j] == 0x2C then RefRun(p, t.(x := AfterComma(isMap), i := j + 1), all) else Finish(p, t.(i := j), j, all)
    decreases |p| - s.i, 2
  {
    hide Stands, RefRun, Lead, Finish, Fit, HeadText, TreeText, TreeRows, NameRows, Sound, Under, Blanks, LoneWords, NameOk, Reads, ValueDue;
    it := HeadReads(p, s, isMap, all);
    DueParts(p, AtValue(s, it), all);
    DueItem(p, s, isMap, all);
    var v := ValueReads(p, AtValue(s, it), all);
    ReadsParts(p, AtValue(s, it), v, all);
    var t := Past(AtValue(s, it), v);
    var after := AfterPiece(p, t, isMap, all);
    Join(p, s.i, HeadText(it), TreeText(v));
    Join(p, s.i, HeadText(it) + TreeText(v), after);
    it := SetValue(s, isMap, it, v, after);
  }

  /** The item with its value. */
  lemma SetValue(s: Spot, isMap: bool, it0: Item, v: Tree, after: seq<bv8>) returns (it: Item)
    requires Begins(s.x, isMap) && Blanks(it0.before) && NameOk(it0.name) && (it0.name.Some? ==> isMap) && Blanks(after)
    requires ValuePlace(AtValue(s, it0).x, v)
    ensures it.value == v && it.after == after && ItemShape(isMap, it) && AtValue(s, it) == AtValue(s, it0) && HeadText(it) == HeadText(it0)
    ensures ItemText(it) == HeadText(it0) + TreeText(v) + after
  {
    hide Blanks, NameOk, TreeText, NameText;
    it := it0.(value := v, after := after);
  }

  lemma DueParts(p: seq<bv8>, s: Spot, all: bool)
    requires ValueDue(p, s, all)
    ensures Fit(p, s) && RefRun(p, s, all).Taken?
  {}

  lemma DueItem(p: seq<bv8>, s: Spot, isMap: bool, all: bool)
    requires ItemDue(p, s, isMap, all)
    ensures s.frames != [] && s.i <= |p| && Inner(s).isMap == isMap && Begins(s.x, isMap)
  {}

  lemma {:induction false} ItemsReads(p: seq<bv8>, s: Spot, isMap: bool, all: bool) returns (items: seq<Item>)
    requires ItemDue(p, s, isMap, all)
    ensures items != [] && ItemsSound(isMap, items, WALK_DEPTH - |s.frames|) && Stands(p, s.i, ItemsText(items) + [Closer(isMap)])
    ensures var t := Spot(CommaOrClose, s.i + |ItemsText(items)|, s.frames, s.recs + ItemsRows(items, s.i, |s.recs|),
                          s.lone + LoneIn(isMap, items));
      Fit(p, t) && t.i < |p| && RefRun(p, s, all) == Finish(p, t, t.i, all)
    decreases |p| - s.i, 3
  {
    hide Stands, RefRun, Lead, Finish, Fit, HeadText, ItemText, ItemsText, TreeText, TreeRows, NameRows, Sound, Under, Blanks, LoneWords,
      NameOk, ItemsRows, LoneIn, ItemShape;
    DueItem(p, s, isMap, all);
    var it := ItemReads(p, s, isMap, all);
    var t, j := Past(AtValue(s, it), it.value), s.i + |ItemText(it)|;
    OneByte(p, j);
    if p[j] == 0x2C {
      var next := t.(x := AfterComma(isMap), i := j + 1);
      var rest := ItemsReads(p, next, isMap, all);
      items := [it] + rest;
      assert items[1..] == rest;
      Join(p, j, [0x2C], ItemsText(rest) + [Closer(isMap)]);
    } else {
      items := [it];
      assert items[1..] == [];
    }
    ItemsSplit(items, isMap);
    ItemWhole(it, Rest(items, isMap));
    Join(p, s.i, ItemText(it), Rest(items, isMap));
    ItemPlace(s.x, isMap, it);
    RowsStep(items, s.i, |s.recs|, s.recs);
    LoneStep(items, isMap);
  }

  lemma ItemWhole(it: Item, rest: seq<bv8>)
    ensures HeadText(it) + (TreeText(it.value) + (it.after + rest)) == ItemText(it) + rest
  {
    hide HeadText, TreeText;
  }

  // ---- whole texts -----------------------------------------------------------------------

  /** Soundness: a buffer the walk takes is, from its opener on, a loose text. */
  lemma Accepted(p: seq<bv8>, open: nat, all: bool) returns (v: Tree, tail: seq<bv8>)
    requires open < |p| && (p[open] == 0x7B || p[open] == 0x5B) && RefWalk(p, open, all).Taken?
    ensures LooseText(p[open..], v, tail, all)
  {
    hide RefRun, Finish, TreeText, TreeRows, InnerText, Stands, Lead, Fit, AtCloser, Sound, Under, Blanks, LoneWords;
    var isMap := p[open] == 0x7B;
    RootFits(p, open, isMap);
    v := InsideReads(p, Outside(open), isMap, all);
    BranchText(v);
    OneByte(p, open);
    Join(p, open, [p[open]], InnerText(v) + [Closer(isMap)]);
    FirstStands(p, open, TreeText(v));
    RootCloses(p, open, v, all);
    var e := open + |TreeText(v)|;
    LeadPiece(p, e);
    tail := p[e..];
    TailIs(p, open, TreeText(v));
    if all { assert p[e..Lead(p, e)] == tail; }
  }

  lemma TailIs(p: seq<bv8>, i: nat, s: seq<bv8>)
    requires Stands(p, i, s)
    ensures i + |s| <= |p| && p[i..] == s + p[i + |s|..]
  {}

  /**
   * The reference walk decides the loose grammar: on any bytes it takes exactly the buffers that are, from the opener
   * on, a loose text nested at most 256 deep, and with the tail checked only whitespace is behind it.
   */
  lemma TakesExactly(p: seq<bv8>, open: nat, all: bool)
    requires open < |p| && (p[open] == 0x7B || p[open] == 0x5B)
    ensures RefWalk(p, open, all).Taken? <==> exists v, tail :: LooseText(p[open..], v, tail, all)
  {
    hide RefRun, LooseText;
    if RefWalk(p, open, all).Taken? {
      var v, tail := Accepted(p, open, all);
    }
    forall v, tail | LooseText(p[open..], v, tail, all) ensures RefWalk(p, open, all).Taken? { Accepts(p, open, v, tail, all); }
  }
}
