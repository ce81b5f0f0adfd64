/** Every loose text within the depth limit is taken by the reference walk, with its tree's rows. */
module JsonLooseComplete {
  import opened Wrappers
  import opened JsonGrammar
  import opened JsonLexer
  import opened JsonWalk
  import opened JsonScan
  import opened JsonShape
  import opened JsonLoose
  import JsonComplete

  predicate Stands(p: seq<bv8>, i: nat, s: seq<bv8>) { JsonComplete.Stands(p, i, s) }

  lemma Cut(p: seq<bv8>, i: nat, a: seq<bv8>, b: seq<bv8>)
    requires Stands(p, i, a + b)
    ensures Stands(p, i, a) && Stands(p, i + |a|, b) && i + |a| + |b| <= |p|
  {
    JsonComplete.StandsCut(p, i, a, b);
  }

  lemma FirstStands(p: seq<bv8>, i: nat, s: seq<bv8>)
    requires Stands(p, i, s) && s != []
    ensures i < |p| && p[i] == s[0] && i + |s| <= |p|
  {
    JsonComplete.StandsFirst(p, i, s);
  }

  // ---- whitespace and single tokens --------------------------------------------------

  lemma {:induction false} LeadAgain(p: seq<bv8>, i: nat)
    requires i <= |p|
    ensures Lead(p, Lead(p, i)) == Lead(p, i) && (Lead(p, i) < |p| ==> !Blank(p[Lead(p, i)]))
    decreases |p| - i
  {
    if i < |p| && Blank(p[i]) { LeadAgain(p, i + 1); }
  }

  lemma {:induction false} LeadIs(p: seq<bv8>, i: nat, j: nat)
    requires i <= j <= |p| && (forall k :: i <= k < j ==> Blank(p[k])) && (j < |p| ==> !Blank(p[j]))
    ensures Lead(p, i) == j
    decreases j - i
  {
    if i < j { LeadIs(p, i + 1, j); }
  }

  lemma LeadStands(p: seq<bv8>, i: nat, s: seq<bv8>)
    requires Stands(p, i, s) && Blanks(s) && (i + |s| < |p| ==> !Blank(p[i + |s|]))
    ensures Lead(p, i) == i + |s|
  {
    forall k | i <= k < i + |s| ensures Blank(p[k]) { assert p[k] == s[k - i]; }
    LeadIs(p, i, i + |s|);
  }

  lemma BlanksThen(p: seq<bv8>, i: nat, blanks: seq<bv8>, rest: seq<bv8>)
    requires Stands(p, i, blanks + rest) && Blanks(blanks) && rest != [] && !Blank(rest[0])
    ensures var j := i + |blanks|; Lead(p, i) == j < |p| && p[j] == rest[0] && Stands(p, j, rest) && Stands(p, i, blanks)
  {
    hide Stands, Lead, Blanks;
    Cut(p, i, blanks, rest);
    FirstStands(p, i + |blanks|, rest);
    LeadStands(p, i, blanks);
  }

  /** What a turn comes to. */
  function Ended(p: seq<bv8>, t: Turn, all: bool): Verdict
    requires t.Goes? ==> Fit(p, t.spot)
  {
    match t case Ends(v) => v case Goes(s) => RefRun(p, s, all)
  }

  /** A run takes the token behind the whitespace. */
  lemma TokenRuns(p: seq<bv8>, s: Spot, all: bool)
    requires Fit(p, s) && Lead(p, s.i) < |p|
    ensures var t := s.(i := Lead(p, s.i));
      Fit(p, t) && RefRun(p, s, all) == Ended(p, Token(p, t, all), all) && RefRun(p, t, all) == RefRun(p, s, all)
  {
    hide Token, Lead;
    LeadAgain(p, s.i);
  }

  /** The run that starts behind whitespace is the same. */
  lemma SkipRuns(p: seq<bv8>, s: Spot, all: bool)
    requires Fit(p, s)
    ensures var t := s.(i := Lead(p, s.i)); Fit(p, t) && RefRun(p, s, all) == RefRun(p, t, all)
  {
    hide Token, Lead;
    LeadAgain(p, s.i);
  }

  lemma {:induction false} AnyComplete(p: seq<bv8>, j: nat, s: seq<bv8>)
    requires j + |s| < |p| && p[j..j + |s|] == s && p[j + |s|] == QUOTE && Content(s)
    ensures AnyEnd(p, j) == Some(j + |s|)
    decreases |s|
  {
    hide CharLength;
    if s != [] {
      var n := CharLength(s);
      assert p[j] == s[0];
      NotQuote(s);
      assert p[j..] == s + p[j + |s|..];
      CharExtends(s, p[j + |s|..]);
      assert p[j + n..j + |s|] == s[n..];
      AnyComplete(p, j + n, s[n..]);
    }
  }

  lemma StringStands(p: seq<bv8>, i: nat, content: seq<bv8>)
    requires Stands(p, i, StringText(content)) && Content(content)
    ensures i < |p| && p[i] == QUOTE && AnyEnd(p, i + 1) == Some(i + 1 + |content|)
  {
    hide Content, AnyEnd, Stands;
    assert StringText(content) == [QUOTE] + (content + [QUOTE]);
    FirstStands(p, i, StringText(content));
    Cut(p, i, [QUOTE], content + [QUOTE]);
    Cut(p, i + 1, content, [QUOTE]);
    FirstStands(p, i + 1 + |content|, [QUOTE]);
    Range(p, i + 1, content);
    AnyComplete(p, i + 1, content);
  }

  lemma Range(p: seq<bv8>, i: nat, s: seq<bv8>)
    requires Stands(p, i, s)
    ensures i + |s| <= |p| && p[i..i + |s|] == s
  {}

  // ---- values ------------------------------------------------------------------------

  /** The spot behind a value. */
  function Past(s: Spot, v: Tree): Spot {
    Spot(CommaOrClose, s.i + |TreeText(v)|, s.frames, s.recs + TreeRows(v, s.i, |s.recs|), s.lone + LoneHere(s.x) + LoneWords(v))
  }

  /** In a key place only a literal can stand. */
  predicate ValuePlace(x: Expect, v: Tree) { x.AnyValue? || x.ValueOrClose? || (InKey(x) && v.TWord?) }

  /** What a value's text begins with tells its kind. */
  lemma FirstByte(v: Tree)
    requires Sound(v)
    ensures |TreeText(v)| > 0
    ensures var c := TreeText(v)[0];
      && (v.TString? <==> c == QUOTE) && (v.TBranch? ==> c == Opener(v.isMap)) && (v.TBranch? <==> c == 0x5B || c == 0x7B)
      && (v.TNumber? <==> Digit(c) || c == 0x2D)
      && (v.TWord? <==> WordAt(c).Some?) && (v.TWord? ==> WordAt(c) == Some(v.word))
      && !Blank(c) && !IsCloser(c) && c != 0x2C
  {
    if v.TNumber? { NumberFirst(v.text); }
  }

  lemma NotBlankStays(p: seq<bv8>, i: nat)
    requires i < |p| && !Blank(p[i])
    ensures Lead(p, i) == i
  {}

  lemma PastFits(p: seq<bv8>, s: Spot, v: Tree)
    requires Fit(p, s) && s.i + |TreeText(v)| <= |p|
    ensures Fit(p, Past(s, v))
  {
    hide TreeText, TreeRows;
  }

  lemma StringRuns(p: seq<bv8>, s: Spot, v: Tree)
    requires Fit(p, s) && v.TString? && Sound(v) && Stands(p, s.i, TreeText(v)) && ValuePlace(s.x, v)
    ensures s.i < |p| && ValueTurn(p, s) == Goes(Past(s, v))
  {
    hide AnyEnd, Content, Stands, StringText, Fit;
    StringStands(p, s.i, v.content);
    JsonComplete.KeyLength(v.content);
    StringTurns(p, s);
  }

  lemma StringTurns(p: seq<bv8>, s: Spot)
    requires Fit(p, s) && s.i < |p| && p[s.i] == QUOTE
    ensures ValueTurn(p, s) == StringTurn(p, s)
  {}

  lemma NumberRuns(p: seq<bv8>, s: Spot, v: Tree)
    requires Fit(p, s) && v.TNumber? && Sound(v) && Stands(p, s.i, TreeText(v)) && ValuePlace(s.x, v)
    requires var e := s.i + |TreeText(v)|; e < |p| && JsonComplete.Follows(p[e])
    ensures s.i < |p| && ValueTurn(p, s) == Goes(Past(s, v))
  {
    hide Shape, Number, Fit, IntegerShape;
    FirstByte(v);
    FirstStands(p, s.i, v.text);
    var e := s.i + |v.text|;
    assert p[s.i..] == v.text + p[e..];
    ShapeOfNumber(v.text, p[e..]);
    NumberTurns(p, s);
  }

  lemma NumberTurns(p: seq<bv8>, s: Spot)
    requires Fit(p, s) && s.i < |p| && (Digit(p[s.i]) || p[s.i] == 0x2D)
    ensures ValueTurn(p, s) == NumberTurn(p, s)
  {}

  lemma WordRuns(p: seq<bv8>, s: Spot, v: Tree)
    requires Fit(p, s) && v.TWord? && Stands(p, s.i, TreeText(v)) && ValuePlace(s.x, v)
    requires var e := s.i + |TreeText(v)|; e < |p| && JsonComplete.Follows(p[e])
    ensures s.i < |p| && ValueTurn(p, s) == Goes(Past(s, v))
  {
    hide Fit;
    FirstStands(p, s.i, WordText(v.word));
  }

  // ---- containers ------------------------------------------------------------------------

  /** What comes of closing the innermost container at position j. */
  function Finish(p: seq<bv8>, s: Spot, j: nat, all: bool): Verdict
    requires Fit(p, s) && j < |p|
  {
    Ended(p, Closing(p, s, j, all), all)
  }

  lemma CloserRuns(p: seq<bv8>, s: Spot, all: bool)
    requires Fit(p, s) && MayClose(s.x) && Lead(p, s.i) < |p| && p[Lead(p, s.i)] == Closer(Inner(s).isMap)
    ensures var t := Spot(CommaOrClose, Lead(p, s.i), s.frames, s.recs, s.lone);
      Fit(p, t) && RefRun(p, s, all) == Finish(p, t, t.i, all)
  {
    hide Lead, RefRun;
    TokenRuns(p, s, all);
  }

  function InnerText(v: Tree): seq<bv8>
    requires v.TBranch?
  {
    v.gap + ItemsText(v.items)
  }

  lemma BranchText(v: Tree)
    requires v.TBranch?
    ensures TreeText(v) == [Opener(v.isMap)] + (InnerText(v) + [Closer(v.isMap)])
  {}

  /** The open container with its rows, at its closer. */
  function AtCloser(s: Spot, v: Tree): Spot
    requires v.TBranch?
  {
    var t := Opened(s, v.isMap);
    Spot(CommaOrClose, t.i + |InnerText(v)|, t.frames, t.recs + ItemsRows(v.items, t.i, |t.recs|), t.lone + LoneIn(v.isMap, v.items))
  }

  lemma OpenRuns(p: seq<bv8>, s: Spot, isMap: bool, all: bool)
    requires Fit(p, s) && s.i < |p| && p[s.i] == Opener(isMap) && (s.x.AnyValue? || s.x.ValueOrClose?) && |s.frames| < WALK_DEPTH
    ensures Fit(p, Opened(s, isMap)) && RefRun(p, s, all) == RefRun(p, Opened(s, isMap), all)
  {
    hide RefRun, Lead, NumberTurn, StringTurn, WordTurn;
    NotBlankStays(p, s.i);
    TokenRuns(p, s, all);
  }

  /** Closing it leaves exactly the tree's rows. */
  lemma Closes(p: seq<bv8>, s: Spot, v: Tree, all: bool)
    requires v.TBranch? && Fit(p, s) && !InKey(s.x) && Fit(p, AtCloser(s, v)) && s.i + |TreeText(v)| <= |p|
    ensures AtCloser(s, v).i < |p|
    ensures Fit(p, Past(s, v)) && Finish(p, AtCloser(s, v), AtCloser(s, v).i, all) == RefRun(p, Past(s, v), all)
  {
    hide TreeText, TreeRows, ItemsRows, InnerText, Bracketed, RefRun, Lead, AtCloser, Fit, OpenKind, LoneIn, LoneWords;
    PastFits(p, s, v);
    AtCloserIs(s, v);
    JsonComplete.Patched(s.recs, v.isMap, ItemsRows(v.items, s.i + 1, |s.recs| + 1));
    ClosingIs(p, AtCloser(s, v), s.frames, Frame(v.isMap, |s.recs|), all);
    FitFrames(p, s);
    BranchIs(v, s.i, |s.recs|);
  }

  lemma FitFrames(p: seq<bv8>, s: Spot)
    requires Fit(p, s)
    ensures s.frames != [] && s.i <= |p|
  {}

  lemma BranchIs(v: Tree, at: nat, base: nat)
    requires v.TBranch?
    ensures TreeRows(v, at, base) == Bracketed(v.isMap, ItemsRows(v.items, at + 1, base + 1), base)
    ensures LoneWords(v) == LoneIn(v.isMap, v.items)
  {}

  lemma AtCloserIs(s: Spot, v: Tree)
    requires v.TBranch?
    ensures var f := AtCloser(s, v);
      && f.frames == s.frames + [Frame(v.isMap, |s.recs|)]
      && f.recs == s.recs + [Rec(OpenKind(v.isMap), 0, 0)] + ItemsRows(v.items, s.i + 1, |s.recs| + 1)
      && f.i + 1 == s.i + |TreeText(v)| && f.lone == s.lone + LoneIn(v.isMap, v.items)
  {
    hide TreeText, ItemsRows, InnerText, LoneIn;
    BranchText(v);
  }

  lemma ClosingIs(p: seq<bv8>, s: Spot, frames: seq<Frame>, f: Frame, all: bool)
    requires Fit(p, s) && s.frames == frames + [f] && s.i < |p|
    ensures f.openAt < |s.recs|
    ensures var recs := s.recs[f.openAt := s.recs[f.openAt].(off := |s.recs|)] + [Rec(Close, f.openAt, 0)];
      Closing(p, s, s.i, all) ==
        if frames == [] then Ends(if all && Lead(p, s.i + 1) != |p| then Refused else Taken(recs, s.lone))
        else Goes(Spot(CommaOrClose, s.i + 1, frames, recs, s.lone))
  {
    hide Lead;
    assert (frames + [f])[..|frames|] == frames;
    assert Inner(s) == f;
  }

  // ---- items -----------------------------------------------------------------------------

  /** An item of a container may stand here. */
  predicate Begins(x: Expect, isMap: bool) { if isMap then InKey(x) else x.AnyValue? || x.ValueOrClose? }

  /** The rest of a text behind an item. */
  function Rest(items: seq<Item>, isMap: bool): seq<bv8>
    requires items != []
  {
    if |items| == 1 then [Closer(isMap)] else [0x2C] + (ItemsText(items[1..]) + [Closer(isMap)])
  }

  lemma RestIs(items: seq<Item>, isMap: bool)
    requires items != []
    ensures Rest(items, isMap) != [] && Rest(items, isMap)[0] == (if |items| == 1 then Closer(isMap) else 0x2C)
    ensures |items| > 1 ==> Rest(items, isMap) == [0x2C] + (ItemsText(items[1..]) + [Closer(isMap)])
    ensures |items| == 1 ==> Rest(items, isMap) == [Closer(isMap)]
  {
    hide ItemsText;
  }

  lemma ItemsSplit(items: seq<Item>, isMap: bool)
    requires items != []
    ensures ItemsText(items) + [Closer(isMap)] == HeadText(items[0]) + (TreeText(items[0].value) + (items[0].after + Rest(items, isMap)))
    ensures |ItemsText(items)| == |ItemText(items[0])| + (if |items| == 1 then 0 else 1 + |ItemsText(items[1..])|)
    ensures |ItemText(items[0])| == |HeadText(items[0])| + |TreeText(items[0].value)| + |items[0].after|
  {
    hide TreeText, ItemText, HeadText;
    var it := items[0];
    var tail := if |items| == 1 then [] else [0x2C] + ItemsText(items[1..]);
    assert ItemsText(items) == ItemText(it) + tail;
    if |items| > 1 { JsonComplete.Assoc([0x2C], ItemsText(items[1..]), [Closer(isMap)]); }
    JsonComplete.Assoc(ItemText(it), tail, [Closer(isMap)]);
    ItemParts(it);
    JsonComplete.Assoc(HeadText(it) + TreeText(it.value), it.after, Rest(items, isMap));
    JsonComplete.Assoc(HeadText(it), TreeText(it.value), it.after + Rest(items, isMap));
  }

  lemma ItemParts(it: Item)
    ensures ItemText(it) == HeadText(it) + TreeText(it.value) + it.after
    ensures |ItemText(it)| == |HeadText(it)| + |TreeText(it.value)| + |it.after|
  {
    hide TreeText, HeadText;
  }

  lemma RowsStep(items: seq<Item>, at: nat, base: nat, recs: seq<Rec>)
    requires items != [] && base == |recs|
    ensures var it := items[0];
      var name := NameRows(it.name, at + |it.before|);
      var value := TreeRows(it.value, at + |HeadText(it)|, |recs + name|);
      && recs + ItemsRows(items, at, base) ==
         recs + name + value + ItemsRows(items[1..], at + |ItemText(it)| + 1, |recs + name + value|)
      && (|items| == 1 ==> recs + ItemsRows(items, at, base) == recs + name + value)
  {
    hide TreeRows, ItemText, HeadText, NameRows;
  }

  lemma LoneStep(items: seq<Item>, isMap: bool)
    requires items != []
    ensures LoneIn(isMap, items) == (if Lone(isMap, items[0]) then 1 else 0) + LoneWords(items[0].value) + LoneIn(isMap, items[1..])
    ensures |items| == 1 ==> LoneIn(isMap, items[1..]) == 0
  {
    hide LoneWords;
  }

  /** In front of an item's value. */
  function AtValue(s: Spot, it: Item): Spot {
    Spot(if it.name.Some? then AnyValue else s.x, s.i + |HeadText(it)|, s.frames, s.recs + NameRows(it.name, s.i + |it.before|), s.lone)
  }

  /** A member's name and colon. */
  lemma NameRuns(p: seq<bv8>, s: Spot, n: Name, rest: seq<bv8>, all: bool)
    requires Fit(p, s) && InKey(s.x) && NameOk(Some(n)) && Stands(p, s.i, NameText(Some(n)) + rest) && rest != [] && !Blank(rest[0])
    ensures var t := Spot(AnyValue, s.i + |NameText(Some(n))|, s.frames, s.recs + [Rec(Str, s.i + 1, |n.key|)], s.lone);
      Stands(p, t.i, rest) && Fit(p, t) && RefRun(p, s, all) == RefRun(p, t, all)
  {
    hide Stands, RefRun, Lead, Blanks, Content, AnyEnd, StringText, Fit, Token;
    NameRegroup(n, rest);
    var tail := [0x3A] + (n.space + rest);
    Cut(p, s.i, StringText(n.key), n.colon + tail);
    var a := s.i + |n.key| + 2;
    BlanksThen(p, a, n.colon, tail);
    var b := a + |n.colon|;
    Cut(p, b, [0x3A], n.space + rest);
    BlanksThen(p, b + 1, n.space, rest);
    KeyRuns(p, s, n.key, all);
    ColonRuns(p, Spot(Colon, a, s.frames, s.recs + [Rec(Str, s.i + 1, |n.key|)], s.lone), all);
  }

  lemma NameRegroup(n: Name, rest: seq<bv8>)
    ensures NameText(Some(n)) + rest == StringText(n.key) + (n.colon + ([0x3A] + (n.space + rest)))
    ensures |NameText(Some(n))| == |n.key| + 2 + |n.colon| + 1 + |n.space| && |StringText(n.key)| == |n.key| + 2
  {
    JsonComplete.KeyLength(n.key);
    hide StringText;
    var k := StringText(n.key);
    JsonComplete.Assoc(k + n.colon + [0x3A], n.space, rest);
    JsonComplete.Assoc(k + n.colon, [0x3A], n.space + rest);
    JsonComplete.Assoc(k, n.colon, [0x3A] + (n.space + rest));
  }

  lemma KeyRuns(p: seq<bv8>, s: Spot, key: seq<bv8>, all: bool)
    requires Fit(p, s) && InKey(s.x) && Content(key) && Stands(p, s.i, StringText(key))
    ensures var t := Spot(Colon, s.i + |key| + 2, s.frames, s.recs + [Rec(Str, s.i + 1, |key|)], s.lone);
      Fit(p, t) && RefRun(p, s, all) == RefRun(p, t, all)
  {
    hide RefRun, Lead, Content, AnyEnd, Stands, StringText;
    StringStands(p, s.i, key);
    NotBlankStays(p, s.i);
    TokenRuns(p, s, all);
    StringTurns(p, s);
  }

  /** The colon, and the whitespace behind it. */
  lemma ColonRuns(p: seq<bv8>, s: Spot, all: bool)
    requires Fit(p, s) && s.x == Colon && Lead(p, s.i) < |p| && p[Lead(p, s.i)] == 0x3A
    ensures var v := Lead(p, Lead(p, s.i) + 1);
      var t := Spot(AnyValue, v, s.frames, s.recs, s.lone); Fit(p, t) && RefRun(p, s, all) == RefRun(p, t, all)
  {
    hide RefRun, Lead;
    TokenRuns(p, s, all);
    SkipRuns(p, Spot(AnyValue, Lead(p, s.i) + 1, s.frames, s.recs, s.lone), all);
  }

  lemma HeadRuns(p: seq<bv8>, s: Spot, isMap: bool, it: Item, rest: seq<bv8>, all: bool)
    requires Fit(p, s) && Begins(s.x, isMap) && ItemShape(isMap, it)
    requires Stands(p, s.i, HeadText(it) + rest) && rest != [] && !Blank(rest[0])
    ensures var t := AtValue(s, it); Stands(p, t.i, rest) && Fit(p, t) && RefRun(p, s, all) == RefRun(p, t, all)
  {
    hide Stands, RefRun, Lead, Blanks, NameOk, Fit;
    NameStarts(it.name, rest);
    JsonComplete.Assoc(it.before, NameText(it.name), rest);
    BlanksThen(p, s.i, it.before, NameText(it.name) + rest);
    SkipRuns(p, s, all);
    var u := s.(i := s.i + |it.before|);
    if it.name.Some? {
      NameRuns(p, u, it.name.value, rest, all);
    } else {
      assert s.recs + [] == s.recs;
    }
  }

  lemma NameStarts(name: Option<Name>, rest: seq<bv8>)
    requires rest != [] && !Blank(rest[0])
    ensures NameText(name) + rest != [] && !Blank((NameText(name) + rest)[0])
    ensures name == None ==> NameText(name) + rest == rest && NameText(name) == []
  {
    if name.Some? { assert NameText(name)[0] == QUOTE; }
  }

  /** A value and the whitespace behind it, up to a comma or the closer. */
  lemma {:induction false} ValueAndAfter(p: seq<bv8>, s: Spot, v: Tree, after: seq<bv8>, rest: seq<bv8>, all: bool)
    requires Fit(p, s) && ValuePlace(s.x, v) && Stands(p, s.i, TreeText(v) + (after + rest))
    requires Sound(v) && Under(v, WALK_DEPTH - |s.frames|) && Blanks(after) && rest != []
    requires rest[0] == 0x2C || rest[0] == Closer(Inner(s).isMap)
    ensures var t, j := Past(s, v), s.i + |TreeText(v)| + |after|;
      && j < |p| && Stands(p, j, rest) && Fit(p, t.(i := j))
      && RefRun(p, s, all) ==
         if rest[0] == 0x2C then Ended(p, Goes(t.(x := AfterComma(Inner(s).isMap), i := j + 1)), all) else Finish(p, t.(i := j), j, all)
    decreases v, 3
  {
    hide Stands, Sound, Under, TreeText, TreeRows, RefRun, Finish, Blanks, JsonComplete.Follows, Lead, LoneWords, Fit;
    var e := s.i + |TreeText(v)|;
    Cut(p, s.i, TreeText(v), after + rest);
    JsonComplete.EndByte(after, rest);
    FirstStands(p, e, after + rest);
    ValueRuns(p, s, v, all);
    BlanksThen(p, e, after, rest);
    AfterRuns(p, Past(s, v), all);
  }

  /** Behind a value: a comma, or the closer. */
  lemma AfterRuns(p: seq<bv8>, s: Spot, all: bool)
    requires Fit(p, s) && s.x == CommaOrClose && Lead(p, s.i) < |p|
    requires p[Lead(p, s.i)] == 0x2C || p[Lead(p, s.i)] == Closer(Inner(s).isMap)
    ensures var j := Lead(p, s.i);
      && Fit(p, s.(i := j)) && Fit(p, s.(x := AfterComma(Inner(s).isMap), i := j + 1))
      && RefRun(p, s, all) ==
         if p[j] == 0x2C then RefRun(p, s.(x := AfterComma(Inner(s).isMap), i := j + 1), all) else Finish(p, s.(i := j), j, all)
  {
    hide RefRun, Lead;
    TokenRuns(p, s, all);
  }

  lemma {:induction false} ValueRuns(p: seq<bv8>, s: Spot, v: Tree, all: bool)
    requires Fit(p, s) && ValuePlace(s.x, v) && Stands(p, s.i, TreeText(v)) && Sound(v) && Under(v, WALK_DEPTH - |s.frames|)
    requires var e := s.i + |TreeText(v)|; e < |p| && JsonComplete.Follows(p[e])
    ensures Fit(p, Past(s, v)) && RefRun(p, s, all) == RefRun(p, Past(s, v), all)
    decreases v, 2
  {
    hide Stands, RefRun, Lead, TreeRows, TreeText, Sound, Fit, JsonComplete.Follows, LoneWords, ValueTurn, Under;
    if v.TBranch? {
      BranchRuns(p, s, v, all);
    } else {
      PastFits(p, s, v);
      if v.TString? { StringRuns(p, s, v); } else if v.TNumber? { NumberRuns(p, s, v); } else { WordRuns(p, s, v); }
      ScalarRuns(p, s, v, all);
    }
  }

  lemma ScalarRuns(p: seq<bv8>, s: Spot, v: Tree, all: bool)
    requires Fit(p, s) && ValuePlace(s.x, v) && Stands(p, s.i, TreeText(v)) && Sound(v)
    requires s.i < |p| && ValueTurn(p, s) == Goes(Past(s, v)) && Fit(p, Past(s, v))
    ensures RefRun(p, s, all) == RefRun(p, Past(s, v), all)
  {
    hide RefRun, Lead, Stands, TreeText, TreeRows, LoneWords, ValueTurn, Sound;
    FirstByte(v);
    FirstStands(p, s.i, TreeText(v));
    NotBlankStays(p, s.i);
    TokenRuns(p, s, all);
  }

  lemma {:induction false} BranchRuns(p: seq<bv8>, s: Spot, v: Tree, all: bool)
    requires v.TBranch? && Fit(p, s) && ValuePlace(s.x, v) && Stands(p, s.i, TreeText(v)) && Sound(v)
    requires Under(v, WALK_DEPTH - |s.frames|) && s.i + |TreeText(v)| < |p|
    ensures Fit(p, Past(s, v)) && RefRun(p, s, all) == RefRun(p, Past(s, v), all)
    decreases v, 1
  {
    hide Stands, RefRun, Lead, Fit, Sound, TreeText, InnerText, Finish, TreeRows, ItemsRows, LoneIn;
    BranchText(v);
    Cut(p, s.i, [Opener(v.isMap)], InnerText(v) + [Closer(v.isMap)]);
    FirstStands(p, s.i, [Opener(v.isMap)]);
    BranchDepth(s, v);
    OpenRuns(p, s, v.isMap, all);
    InsideRuns(p, s, v, all);
    Closes(p, s, v, all);
  }

  lemma BranchDepth(s: Spot, v: Tree)
    requires v.TBranch? && |s.frames| <= WALK_DEPTH && Under(v, WALK_DEPTH - |s.frames|)
    ensures |s.frames| < WALK_DEPTH
  {}

  /** From just inside a container to its closer. */
  lemma {:induction false} InsideRuns(p: seq<bv8>, s: Spot, v: Tree, all: bool)
    requires v.TBranch? && |s.frames| < WALK_DEPTH && Fit(p, Opened(s, v.isMap))
    requires Stands(p, s.i + 1, InnerText(v) + [Closer(v.isMap)]) && Sound(v) && Under(v, WALK_DEPTH - |s.frames|)
    ensures Fit(p, AtCloser(s, v)) && AtCloser(s, v).i < |p|
    ensures RefRun(p, Opened(s, v.isMap), all) == Finish(p, AtCloser(s, v), AtCloser(s, v).i, all)
    decreases v, 0
  {
    hide Stands, RefRun, Lead, Finish, Fit, ItemsText, ItemsRows, LoneIn;
    var t := Opened(s, v.isMap);
    InnerFrame(s, v.isMap);
    if v.items != [] {
      assert v.gap + ItemsText(v.items) == ItemsText(v.items);
      ItemsRun(p, t, v.isMap, v.items, all);
    } else {
      NoItems(v.isMap, t.i, |t.recs|);
      EmptyRuns(p, t, v.gap, all);
    }
  }

  lemma InnerFrame(s: Spot, isMap: bool)
    ensures var t := Opened(s, isMap); t.frames != [] && Inner(t).isMap == isMap && Begins(t.x, isMap) && |t.frames| == |s.frames| + 1
  {}

  lemma NoItems(isMap: bool, at: nat, base: nat)
    ensures ItemsText([]) == [] && ItemsRows([], at, base) == [] && LoneIn(isMap, []) == 0
  {}

  lemma EmptyRuns(p: seq<bv8>, s: Spot, gap: seq<bv8>, all: bool)
    requires Fit(p, s) && MayClose(s.x) && Blanks(gap) && Stands(p, s.i, gap + [] + [Closer(Inner(s).isMap)])
    ensures var t := Spot(CommaOrClose, s.i + |gap + []|, s.frames, s.recs + [], s.lone + 0);
      Fit(p, t) && t.i < |p| && RefRun(p, s, all) == Finish(p, t, t.i, all)
  {
    hide Stands, RefRun, Lead, Blanks, Fit, Finish;
    FitFrames(p, s);
    assert gap + [] == gap;
    BlanksThen(p, s.i, gap, [Closer(Inner(s).isMap)]);
    assert s.recs + [] == s.recs;
    CloserRuns(p, s, all);
  }

  ghost predicate ItemsSound(isMap: bool, items: seq<Item>, d: nat) {
    forall k :: 0 <= k < |items| ==> ItemShape(isMap, items[k]) && Sound(items[k].value) && Under(items[k].value, d)
  }

  /** One item, up to the comma or the closer behind it. */
  lemma {:induction false} ItemRuns(p: seq<bv8>, s: Spot, isMap: bool, it: Item, rest: seq<bv8>, all: bool)
    requires Fit(p, s) && Begins(s.x, isMap) && Inner(s).isMap == isMap && rest != [] && (rest[0] == 0x2C || rest[0] == Closer(isMap))
    requires Stands(p, s.i, HeadText(it) + (TreeText(it.value) + (it.after + rest)))
    requires ItemShape(isMap, it) && Sound(it.value) && Under(it.value, WALK_DEPTH - |s.frames|)
    ensures var t, j := Past(AtValue(s, it), it.value), s.i + |HeadText(it)| + |TreeText(it.value)| + |it.after|;
      && j < |p| && Stands(p, j, rest) && Fit(p, t.(i := j))
      && RefRun(p, s, all) ==
         if rest[0] == 0x2C then Ended(p, Goes(t.(x := AfterComma(isMap), i := j + 1)), all) else Finish(p, t.(i := j), j, all)
    decreases it, 4
  {
    hide Stands, RefRun, Lead, Finish, Fit, HeadText, TreeText, TreeRows, NameRows, Sound, Under, Blanks, LoneWords, NameOk;
    FirstByte(it.value);
    HeadRuns(p, s, isMap, it, TreeText(it.value) + (it.after + rest), all);
    ItemPlace(s.x, isMap, it);
    ValueAndAfter(p, AtValue(s, it), it.value, it.after, rest, all);
  }

  lemma {:induction false} ItemsRun(p: seq<bv8>, s: Spot, isMap: bool, items: seq<Item>, all: bool)
    requires Fit(p, s) && Begins(s.x, isMap) && Inner(s).isMap == isMap && items != []
    requires Stands(p, s.i, ItemsText(items) + [Closer(isMap)]) && ItemsSound(isMap, items, WALK_DEPTH - |s.frames|)
    ensures var t := Spot(CommaOrClose, s.i + |ItemsText(items)|, s.frames, s.recs + ItemsRows(items, s.i, |s.recs|),
                          s.lone + LoneIn(isMap, items));
      Fit(p, t) && t.i < |p| && RefRun(p, s, all) == Finish(p, t, t.i, all)
    decreases items, 0
  {
    hide Stands, RefRun, Lead, Finish, Fit, ItemsText, ItemText, HeadText, TreeText, TreeRows, NameRows, Sound, Under, Blanks, ItemsRows,
      Rest, LoneIn, LoneWords, JsonComplete.Follows, NameOk;
    var it, rest := items[0], Rest(items, isMap);
    RestIs(items, isMap);
    ItemsSplit(items, isMap);
    ItemRuns(p, s, isMap, it, rest, all);
    ItemPlace(s.x, isMap, it);
    var t := Past(AtValue(s, it), it.value);
    RowsStep(items, s.i, |s.recs|, s.recs);
    LoneStep(items, isMap);
    if |items| > 1 {
      var next := t.(x := AfterComma(isMap), i := s.i + |ItemText(it)| + 1);
      CommaFits(p, t.(i := next.i - 1), next);
      Cut(p, next.i - 1, [0x2C], ItemsText(items[1..]) + [Closer(isMap)]);
      ItemsRun(p, next, isMap, items[1..], all);
    }
  }

  lemma ItemPlace(x: Expect, isMap: bool, it: Item)
    requires Begins(x, isMap) && ItemShape(isMap, it)
    ensures ValuePlace(if it.name.Some? then AnyValue else x, it.value)
    ensures LoneHere(if it.name.Some? then AnyValue else x) == if Lone(isMap, it) then 1 else 0
  {}

  lemma CommaFits(p: seq<bv8>, s: Spot, t: Spot)
    requires Fit(p, s) && s.i < |p| && t == s.(x := AfterComma(Inner(s).isMap), i := s.i + 1)
    ensures Fit(p, t) && Inner(t) == Inner(s) && Begins(t.x, Inner(s).isMap)
  {}

  // ---- whole texts -----------------------------------------------------------------------

  lemma RootFits(p: seq<bv8>, open: nat, isMap: bool)
    requires open < |p|
    ensures Fit(p, Opened(Outside(open), isMap))
  {}

  /** The root's closer. */
  lemma RootCloses(p: seq<bv8>, open: nat, v: Tree, all: bool)
    requires v.TBranch? && Fit(p, AtCloser(Outside(open), v)) && open + |TreeText(v)| <= |p|
    ensures var f, e := AtCloser(Outside(open), v), open + |TreeText(v)|;
      && f.i < |p| && Finish(p, f, f.i, all) ==
         if all && Lead(p, e) != |p| then Refused else Taken([Rec(Doc, 0, 0)] + TreeRows(v, open, 1), LoneWords(v))
  {
    hide TreeText, TreeRows, ItemsRows, InnerText, Bracketed, RefRun, Lead, AtCloser, Fit, OpenKind, LoneIn, LoneWords;
    var s := Outside(open);
    AtCloserIs(s, v);
    JsonComplete.Patched(s.recs, v.isMap, ItemsRows(v.items, s.i + 1, |s.recs| + 1));
    ClosingIs(p, AtCloser(s, v), s.frames, Frame(v.isMap, |s.recs|), all);
    BranchIs(v, s.i, |s.recs|);
  }

  /** Completeness: a loose text is taken, and the rows are DOC and the preorder rows of its tree. */
  lemma Accepts(p: seq<bv8>, open: nat, v: Tree, tail: seq<bv8>, all: bool)
    requires open <= |p| && LooseText(p[open..], v, tail, all)
    ensures open < |p| && p[open] == Opener(v.isMap)
    ensures RefWalk(p, open, all) == Taken([Rec(Doc, 0, 0)] + TreeRows(v, open, 1), LoneWords(v))
  {
    hide TreeText, TreeRows, RefRun, Lead, InnerText, ItemsRows, Stands, Finish, Fit, AtCloser, LoneIn, LoneWords, Sound, Under, Blanks;
    Whole(p, open, TreeText(v) + tail);
    Cut(p, open, TreeText(v), tail);
    BranchText(v);
    Cut(p, open, [Opener(v.isMap)], InnerText(v) + [Closer(v.isMap)]);
    FirstStands(p, open, [Opener(v.isMap)]);
    var s := Outside(open);
    RootFits(p, open, v.isMap);
    InsideRuns(p, s, v, all);
    if all { LeadStands(p, open + |TreeText(v)|, tail); }
    RootCloses(p, open, v, all);
  }

  lemma Whole(p: seq<bv8>, i: nat, s: seq<bv8>)
    requires i <= |p| && p[i..] == s
    ensures Stands(p, i, s) && i + |s| == |p|
  {}
}
