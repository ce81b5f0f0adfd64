/**
 * tape_walk, the reference walk, as a pushdown machine over any bytes, and the texts it is about: JSON texts in which
 * a member of an object is a pair or a lone literal.
 */
module JsonLoose {
  import opened Wrappers
  import opened JsonGrammar
  import opened JsonLexer
  import opened JsonWalk
  import JsonScan
  import JsonShape

  // ---- trees ---------------------------------------------------------------------

  datatype Tree =
    | TString(content: seq<bv8>)
    | TNumber(text: seq<bv8>)
    | TWord(word: Word)
    | TBranch(isMap: bool, gap: seq<bv8>, items: seq<Item>)

  /** A member's name up to its value. */
  datatype Name = Name(key: seq<bv8>, colon: seq<bv8>, space: seq<bv8>)

  /** What stands between the commas: in an array a value, in an object a pair or a lone literal. */
  datatype Item = Item(before: seq<bv8>, name: Option<Name>, value: Tree, after: seq<bv8>)

  function NameText(name: Option<Name>): seq<bv8> {
    match name
    case None => []
    case Some(n) => StringText(n.key) + n.colon + [0x3A] + n.space
  }

  function HeadText(it: Item): seq<bv8> { it.before + NameText(it.name) }

  function TreeText(v: Tree): seq<bv8>
    decreases v, 0
  {
    match v
    case TString(content) => StringText(content)
    case TNumber(text) => text
    case TWord(word) => WordText(word)
    case TBranch(isMap, gap, items) => [Opener(isMap)] + gap + ItemsText(items) + [Closer(isMap)]
  }

  function ItemText(it: Item): seq<bv8>
    decreases it, 0
  {
    HeadText(it) + TreeText(it.value) + it.after
  }

  function ItemsText(items: seq<Item>): seq<bv8>
    decreases items, 0
  {
    if items == [] then []
    else ItemText(items[0]) + (if |items| == 1 then [] else [0x2C] + ItemsText(items[1..]))
  }

  predicate NameOk(name: Option<Name>) {
    name.Some? ==> Content(name.value.key) && Blanks(name.value.colon) && Blanks(name.value.space)
  }

  /** A literal stands where an object's member should. */
  predicate Lone(isMap: bool, it: Item) { isMap && it.name.None? }

  predicate ItemShape(isMap: bool, it: Item) {
    && Blanks(it.before) && NameOk(it.name) && Blanks(it.after)
    && (it.name.Some? ==> isMap) && (Lone(isMap, it) ==> it.value.TWord?)
  }

  ghost predicate Sound(v: Tree)
    decreases v
  {
    match v
    case TString(content) => Content(content)
    case TNumber(text) => Number(text)
    case TWord(word) => true
    case TBranch(isMap, gap, items) =>
      && Blanks(gap) && (items != [] ==> gap == [])
      && forall k :: 0 <= k < |items| ==> ItemShape(isMap, items[k]) && Sound(items[k].value)
  }

  /** Containers nest at most d deep. */
  predicate Under(v: Tree, d: nat)
    decreases v
  {
    v.TBranch? ==> d > 0 && forall k :: 0 <= k < |v.items| ==> Under(v.items[k].value, d - 1)
  }

  /** How many literals stand alone in objects, at any depth. */
  function LoneWords(v: Tree): nat
    decreases v, 0
  {
    if v.TBranch? then LoneIn(v.isMap, v.items) else 0
  }

  function LoneIn(isMap: bool, items: seq<Item>): nat
    decreases items, 0
  {
    if items == [] then 0
    else (if Lone(isMap, items[0]) then 1 else 0) + LoneWords(items[0].value) + LoneIn(isMap, items[1..])
  }

  /** A loose text: a container within the depth limit and what is behind it, whitespace when the tail is checked. */
  ghost predicate LooseText(s: seq<bv8>, v: Tree, tail: seq<bv8>, checkTail: bool) {
    Sound(v) && v.TBranch? && Under(v, 256) && s == TreeText(v) + tail && (checkTail ==> Blanks(tail))
  }

  // ---- rows ----------------------------------------------------------------------------

  function NameRows(name: Option<Name>, at: nat): seq<Rec> {
    if name.Some? then [Rec(Str, at + 1, |name.value.key|)] else []
  }

  /** The preorder rows of a tree whose text starts at position at, the first at row base. */
  function TreeRows(v: Tree, at: nat, base: nat): seq<Rec>
    decreases v, 0
  {
    match v
    case TString(content) => [Rec(Str, at + 1, |content|)]
    case TNumber(text) => [Rec(NumKind(text), at, |text|)]
    case TWord(word) => [Rec(WordKind(word), at, |WordText(word)|)]
    case TBranch(isMap, gap, items) => Bracketed(isMap, ItemsRows(items, at + 1, base + 1), base)
  }

  function ItemsRows(items: seq<Item>, at: nat, base: nat): seq<Rec>
    decreases items, 0
  {
    if items == [] then []
    else
      var it := items[0];
      var name := NameRows(it.name, at + |it.before|);
      var first := name + TreeRows(it.value, at + |HeadText(it)|, base + |name|);
      first + ItemsRows(items[1..], at + |ItemText(it)| + 1, base + |first|)
  }

  // ---- the machine -----------------------------------------------------------------------

  /** What may come next. */
  datatype Expect = ValueOrClose | KeyOrClose | AnyValue | Key | Colon | CommaOrClose

  /** Where the walk is. The program does not count the lone literals. */
  datatype Spot = Spot(x: Expect, i: nat, frames: seq<Frame>, recs: seq<Rec>, lone: nat)

  datatype Verdict = Taken(recs: seq<Rec>, lone: nat) | Refused

  datatype Turn = Goes(spot: Spot) | Ends(verdict: Verdict)

  function Inner(s: Spot): Frame
    requires s.frames != []
  {
    s.frames[|s.frames| - 1]
  }

  predicate InKey(x: Expect) { x.Key? || x.KeyOrClose? }

  predicate MayClose(x: Expect) { x.ValueOrClose? || x.KeyOrClose? || x.CommaOrClose? }

  predicate Fit(p: seq<bv8>, s: Spot) {
    && s.i <= |p| && 0 < |s.frames| <= WALK_DEPTH
    && (forall d :: 0 <= d < |s.frames| ==> s.frames[d].openAt < |s.recs|)
    && (InKey(s.x) || s.x.Colon? ==> Inner(s).isMap) && (s.x.ValueOrClose? ==> !Inner(s).isMap)
  }

  function AfterComma(isMap: bool): Expect { if isMap then Key else AnyValue }

  function AfterOpener(isMap: bool): Expect { if isMap then KeyOrClose else ValueOrClose }

  predicate IsCloser(c: bv8) { c == 0x5D || c == 0x7D }

  function LoneHere(x: Expect): nat { if InKey(x) then 1 else 0 }

  /** The closer of the innermost container at position j. */
  function Closing(p: seq<bv8>, s: Spot, j: nat, checkTail: bool): (t: Turn)
    requires Fit(p, s) && j < |p|
    ensures t.Goes? ==> Fit(p, t.spot) && t.spot.i == j + 1
  {
    var o := Inner(s).openAt;
    var recs := s.recs[o := s.recs[o].(off := |s.recs|)] + [Rec(Close, o, 0)];
    var frames := s.frames[..|s.frames| - 1];
    if frames == [] then Ends(if checkTail && Lead(p, j + 1) != |p| then Refused else Taken(recs, s.lone))
    else Goes(Spot(CommaOrClose, j + 1, frames, recs, s.lone))
  }

  /** A row behind which the walk stands at position next. */
  function Put(s: Spot, rec: Rec, next: nat, x: Expect): Turn { Goes(Spot(x, next, s.frames, s.recs + [rec], s.lone)) }

  function NumberTurn(p: seq<bv8>, s: Spot): (t: Turn)
    requires Fit(p, s) && s.i < |p|
    ensures t.Goes? ==> Fit(p, t.spot) && t.spot.i > s.i
  {
    if InKey(s.x) then Ends(Refused)
    else
      match JsonShape.Shape(p[s.i..])
      case None => Ends(Refused)
      case Some((n, isFloat)) => Put(s, Rec(if isFloat then FloatNum else IntNum, s.i, n), s.i + n, CommaOrClose)
  }

  function StringTurn(p: seq<bv8>, s: Spot): (t: Turn)
    requires Fit(p, s) && s.i < |p|
    ensures t.Goes? ==> Fit(p, t.spot) && t.spot.i > s.i
  {
    match JsonScan.AnyEnd(p, s.i + 1)
    case None => Ends(Refused)
    case Some(e) => Put(s, Rec(Str, s.i + 1, e - (s.i + 1)), e + 1, if InKey(s.x) then Colon else CommaOrClose)
  }

  /** Whether a key is due is not asked. */
  function WordTurn(p: seq<bv8>, s: Spot): (t: Turn)
    requires Fit(p, s) && s.i < |p| && WordAt(p[s.i]).Some?
    ensures t.Goes? ==> Fit(p, t.spot) && t.spot.i > s.i
  {
    match LiteralEnd(p, s.i)
    case None => Ends(Refused)
    case Some(e) =>
      Goes(Spot(CommaOrClose, e, s.frames, s.recs + [Rec(WordKind(WordAt(p[s.i]).value), s.i, e - s.i)], s.lone + LoneHere(s.x)))
  }

  function OpenTurn(p: seq<bv8>, s: Spot, isMap: bool): (t: Turn)
    requires Fit(p, s) && s.i < |p|
    ensures t.Goes? ==> Fit(p, t.spot) && t.spot.i > s.i
  {
    if |s.frames| >= WALK_DEPTH || InKey(s.x) then Ends(Refused)
    else Goes(Opened(s, isMap))
  }

  /** Just behind a container's opener. */
  function Opened(s: Spot, isMap: bool): Spot {
    Spot(AfterOpener(isMap), s.i + 1, s.frames + [Frame(isMap, |s.recs|)], s.recs + [Rec(OpenKind(isMap), 0, 0)], s.lone)
  }

  function ValueTurn(p: seq<bv8>, s: Spot): (t: Turn)
    requires Fit(p, s) && s.i < |p|
    ensures t.Goes? ==> Fit(p, t.spot) && t.spot.i > s.i
  {
    var c := p[s.i];
    if Digit(c) || c == 0x2D then NumberTurn(p, s)
    else if c == QUOTE then StringTurn(p, s)
    else if c == 0x7B || c == 0x5B then OpenTurn(p, s, c == 0x7B)
    else if WordAt(c).Some? then WordTurn(p, s)
    else Ends(Refused)
  }

  /** The token at the cursor. */
  function Token(p: seq<bv8>, s: Spot, checkTail: bool): (t: Turn)
    requires Fit(p, s) && s.i < |p|
    ensures t.Goes? ==> Fit(p, t.spot) && t.spot.i > s.i
  {
    var c := p[s.i];
    if s.x == Colon then if c == 0x3A then Goes(s.(x := AnyValue, i := s.i + 1)) else Ends(Refused)
    else if s.x == CommaOrClose && c == 0x2C then Goes(s.(x := AfterComma(Inner(s).isMap), i := s.i + 1))
    else if IsCloser(c) then if c == Closer(Inner(s).isMap) && MayClose(s.x) then Closing(p, s, s.i, checkTail) else Ends(Refused)
    else if s.x == CommaOrClose then Ends(Refused)
    else ValueTurn(p, s)
  }

  function RefStep(p: seq<bv8>, s: Spot, checkTail: bool): (t: Turn)
    requires Fit(p, s)
    ensures t.Goes? ==> Fit(p, t.spot) && t.spot.i > s.i
  {
    var j := Lead(p, s.i);
    if j >= |p| then Ends(Refused) else Token(p, s.(i := j), checkTail)
  }

  function RefRun(p: seq<bv8>, s: Spot, checkTail: bool): Verdict
    requires Fit(p, s)
    decreases |p| - s.i
  {
    match RefStep(p, s, checkTail)
    case Ends(v) => v
    case Goes(t) => RefRun(p, t, checkTail)
  }

  /** In front of the root's opener. */
  function Outside(open: nat): Spot { Spot(AnyValue, open, [], [Rec(Doc, 0, 0)], 0) }

  /** The walk from the opener at position open. */
  function RefWalk(p: seq<bv8>, open: nat, checkTail: bool): Verdict
    requires open < |p|
  {
    RefRun(p, Opened(Outside(open), p[open] == 0x7B), checkTail)
  }
}
