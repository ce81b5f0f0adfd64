/**
 * The rows of a tape against the bytes alone: they are the tokens of the text, one behind the other, with nothing but
 * whitespace, commas and colons between, and each row's kind is told by its token's bytes.
 */
module JsonTokens {
  import opened Wrappers
  import opened JsonGrammar
  import opened JsonLexer
  import opened JsonWalk
  import opened JsonLoose
  import JsonComplete
  import JsonLooseComplete
  import JsonLooseSound
  import JsonStrict

  predicate GapByte(c: bv8) { c == 0x20 || c == 0x09 || c == 0x0A || c == 0x0D || c == 0x2C || c == 0x3A }

  /** The first byte of a token at or behind i. */
  function GapEnd(p: seq<bv8>, i: nat, to: nat): (j: nat)
    requires i <= to <= |p|
    ensures i <= j <= to
    decreases |p| - i
  {
    if i < to && GapByte(p[i]) then GapEnd(p, i + 1, to) else i
  }

  function Unsigned(s: seq<bv8>): seq<bv8> { if s != [] && s[0] == 0x2D then s[1..] else s }

  /** An optional minus and digits. */
  predicate MinusDigits(s: seq<bv8>) { Unsigned(s) != [] && forall k :: 0 <= k < |Unsigned(s)| ==> 0x30 <= Unsigned(s)[k] <= 0x39 }

  /** What may stand in a number. */
  predicate NumberChars(s: seq<bv8>) {
    forall k :: 0 <= k < |s| ==> 0x30 <= s[k] <= 0x39 || s[k] == 0x2D || s[k] == 0x2B || s[k] == 0x2E || s[k] == 0x65 || s[k] == 0x45
  }

  /** Row r is the word s at position i. */
  predicate WordRow(p: seq<bv8>, r: Rec, i: nat, s: seq<bv8>) { r.off == i && r.len == |s| && i + |s| <= |p| && p[i..i + |s|] == s }

  /** Row r is the token that starts at position i. */
  predicate Token(p: seq<bv8>, r: Rec, i: nat)
    requires i < |p|
  {
    var c := p[i];
    if c == 0x7B then r.kind == MapOpen && r.len == 0
    else if c == 0x5B then r.kind == SeqOpen && r.len == 0
    else if c == 0x7D || c == 0x5D then r.kind == Close && r.len == 0
    else if c == 0x22 then r.kind == Str && r.off == i + 1 && i + 1 + r.len < |p| && p[i + 1 + r.len] == 0x22
    else if c == 0x6E then r.kind == Nil && WordRow(p, r, i, [0x6E, 0x75, 0x6C, 0x6C])
    else if c == 0x74 then r.kind == Yes && WordRow(p, r, i, [0x74, 0x72, 0x75, 0x65])
    else if c == 0x66 then r.kind == No && WordRow(p, r, i, [0x66, 0x61, 0x6C, 0x73, 0x65])
    else
      && r.off == i && 0 < r.len && i + r.len <= |p|
      && NumberChars(p[i..i + r.len]) && (i + r.len < |p| ==> !NumberChars([p[i + r.len]]))
      && r.kind == if MinusDigits(p[i..i + r.len]) then IntNum else FloatNum
  }

  function TokenEnd(r: Rec, i: nat): nat {
    if r.kind == Str then i + r.len + 2 else if r.kind == MapOpen || r.kind == SeqOpen || r.kind == Close then i + 1 else i + r.len
  }

  /** Directly behind a string only a closer may stand. */
  predicate Apart(p: seq<bv8>, i: nat)
    requires i < |p|
  {
    0 < i && p[i - 1] == 0x22 ==> p[i] == 0x7D || p[i] == 0x5D
  }

  /** The rows are the tokens from position from up to position to, all of them, in order. */
  predicate Tiles(p: seq<bv8>, rows: seq<Rec>, from: nat, to: nat)
    requires from <= to <= |p|
    decreases |rows|
  {
    var i := GapEnd(p, from, to);
    if rows == [] then i == to
    else
      && i < to && Apart(p, i) && Token(p, rows[0], i) && i < TokenEnd(rows[0], i) <= to
      && Tiles(p, rows[1..], TokenEnd(rows[0], i), to)
  }

  // ---- joining ---------------------------------------------------------------------

  predicate Gap(p: seq<bv8>, i: nat, j: nat) { i <= j <= |p| && forall k :: i <= k < j ==> GapByte(p[k]) }

  lemma {:induction false} GapPasses(p: seq<bv8>, i: nat, j: nat, to: nat)
    requires Gap(p, i, j) && j <= to <= |p|
    ensures GapEnd(p, i, to) == GapEnd(p, j, to)
    decreases j - i
  {
    hide GapByte;
    if i < j { GapPasses(p, i + 1, j, to); }
  }

  /** The bound is only looked at when nothing but gaps comes before it. */
  lemma {:induction false} GapBound(p: seq<bv8>, i: nat, mid: nat, to: nat)
    requires i <= mid <= to <= |p|
    ensures GapEnd(p, i, mid) < mid ==> GapEnd(p, i, to) == GapEnd(p, i, mid)
    ensures GapEnd(p, i, mid) == mid ==> Gap(p, i, mid)
    decreases mid - i
  {
    hide GapByte;
    if i < mid && GapByte(p[i]) { GapBound(p, i + 1, mid, to); }
  }

  lemma {:induction false} TilesJoin(p: seq<bv8>, a: seq<Rec>, b: seq<Rec>, from: nat, mid: nat, to: nat)
    requires from <= mid <= to <= |p| && Tiles(p, a, from, mid) && Tiles(p, b, mid, to)
    ensures Tiles(p, a + b, from, to)
    decreases |a|
  {
    hide Token, TokenEnd, GapEnd, Gap, Apart;
    GapBound(p, from, mid, to);
    if a == [] {
      assert a + b == b;
      GapPasses(p, from, mid, to);
    } else {
      assert (a + b)[0] == a[0] && (a + b)[1..] == a[1..] + b;
      TilesJoin(p, a[1..], b, TokenEnd(a[0], GapEnd(p, from, mid)), mid, to);
    }
  }

  lemma GapTiles(p: seq<bv8>, i: nat, j: nat)
    requires Gap(p, i, j)
    ensures Tiles(p, [], i, j)
  {
    hide GapByte;
    GapPasses(p, i, j, j);
  }

  lemma TokenTiles(p: seq<bv8>, r: Rec, i: nat)
    requires i < |p| && !GapByte(p[i]) && Apart(p, i) && Token(p, r, i) && i < TokenEnd(r, i) <= |p|
    ensures Tiles(p, [r], i, TokenEnd(r, i))
  {
    hide Token, TokenEnd, GapByte, Apart;
    assert [r][1..] == [];
  }

  lemma BlanksGap(p: seq<bv8>, i: nat, s: seq<bv8>)
    requires JsonComplete.Stands(p, i, s) && Blanks(s)
    ensures Gap(p, i, i + |s|)
  {
    forall k | i <= k < i + |s| ensures GapByte(p[k]) { assert p[k] == s[k - i]; }
  }

  lemma GapJoin(p: seq<bv8>, i: nat, j: nat, k: nat)
    requires Gap(p, i, j) && Gap(p, j, k)
    ensures Gap(p, i, k)
  {}

  lemma OneGap(p: seq<bv8>, i: nat)
    requires i < |p| && GapByte(p[i])
    ensures Gap(p, i, i + 1)
  {}

  /** No quote stands directly in front. */
  predicate Free(p: seq<bv8>, i: nat) { 0 < i <= |p| ==> p[i - 1] != 0x22 }

  lemma GapFrees(p: seq<bv8>, i: nat, j: nat)
    requires Gap(p, i, j) && (i == j ==> Free(p, i))
    ensures Free(p, j)
  {
    if i < j { assert GapByte(p[j - 1]); }
  }

  lemma FollowsEnds(c: bv8)
    requires JsonComplete.Follows(c)
    ensures !NumberChars([c])
  {
    assert [c][0] == c;
  }

  lemma DigitsFirst(s: seq<bv8>)
    requires MinusDigits(s)
    ensures s != [] && (s[0] == 0x2D || 0x30 <= s[0] <= 0x39)
  {}

  // ---- the tokens of a tree -----------------------------------------------------------

  lemma StringTiles(p: seq<bv8>, content: seq<bv8>, at: nat)
    requires JsonComplete.Stands(p, at, StringText(content)) && Free(p, at)
    ensures at + |content| + 2 <= |p| && Tiles(p, [Rec(Str, at + 1, |content|)], at, at + |content| + 2)
  {
    hide Tiles, JsonComplete.Stands, Free, Token;
    StringToken(p, content, at);
    TokenTiles(p, Rec(Str, at + 1, |content|), at);
  }

  lemma StringToken(p: seq<bv8>, content: seq<bv8>, at: nat)
    requires JsonComplete.Stands(p, at, StringText(content)) && Free(p, at)
    ensures at + |content| + 2 <= |p| && !GapByte(p[at]) && Apart(p, at) && Token(p, Rec(Str, at + 1, |content|), at)
  {
    hide JsonComplete.Stands;
    assert StringText(content) == [QUOTE] + (content + [QUOTE]);
    JsonLooseComplete.Cut(p, at, [QUOTE], content + [QUOTE]);
    JsonLooseComplete.Cut(p, at + 1, content, [QUOTE]);
    JsonLooseComplete.FirstStands(p, at, [QUOTE]);
    JsonLooseComplete.FirstStands(p, at + 1 + |content|, [QUOTE]);
  }

  lemma WordTiles(p: seq<bv8>, word: Word, at: nat)
    requires JsonComplete.Stands(p, at, WordText(word)) && Free(p, at)
    ensures var n := |WordText(word)|; at + n <= |p| && Tiles(p, [Rec(WordKind(word), at, n)], at, at + n)
  {
    var s := WordText(word);
    JsonComplete.StandsRange(p, at, s);
    assert p[at] == s[0];
    TokenTiles(p, Rec(WordKind(word), at, |s|), at);
  }

  /** No fraction and no exponent: an optional minus and digits. */
  lemma IntegerIsDigits(s: seq<bv8>)
    requires Number(s)
    ensures s != [] && NumberChars(s) && (NumKind(s) == if MinusDigits(s) then IntNum else FloatNum)
  {
    hide Number, MinusDigits;
    NumberBytes(s);
    NumberFirst(s);
    Behind(s);
    if IntegerShape(s) { ShapeDigits(s); }
    if MinusDigits(s) { DigitsShape(s); }
  }

  /** Behind a minus a digit comes. */
  lemma Behind(s: seq<bv8>)
    requires Number(s)
    ensures s != [] && s[0] == 0x2D ==> |s| > 1
  {
    var minus, whole, frac, exp :| NumberParts(minus, whole, frac, exp) && s == minus + whole + frac + exp;
    hide Fraction, Exponent;
    if s[0] == 0x2D && minus == [] { assert s[0] == whole[0]; }
  }

  lemma ShapeDigits(s: seq<bv8>)
    requires s != [] && IntegerShape(s) && (Digit(s[0]) || (s[0] == 0x2D && |s| > 1))
    ensures MinusDigits(s)
  {
    var d := Unsigned(s);
    forall k | 0 <= k < |d| ensures 0x30 <= d[k] <= 0x39 {
      if s[0] == 0x2D { assert d[k] == s[k + 1]; } else if k > 0 { assert Digit(s[k]); }
    }
  }

  lemma DigitsShape(s: seq<bv8>)
    requires s != [] && MinusDigits(s)
    ensures IntegerShape(s)
  {
    var d := Unsigned(s);
    forall k | 1 <= k < |s| ensures Digit(s[k]) {
      if s[0] == 0x2D { assert s[k] == d[k - 1]; } else { assert s[k] == d[k]; }
    }
  }

  lemma NumberTiles(p: seq<bv8>, text: seq<bv8>, at: nat)
    requires Number(text) && JsonComplete.Stands(p, at, text) && Free(p, at)
    requires at + |text| < |p| ==> JsonComplete.Follows(p[at + |text|])
    ensures at + |text| <= |p| && Tiles(p, [Rec(NumKind(text), at, |text|)], at, at + |text|)
  {
    hide Number, NumKind, MinusDigits, IntegerShape;
    JsonComplete.StandsRange(p, at, text);
    IntegerIsDigits(text);
    NumberFirst(text);
    assert p[at] == text[0];
    var r := Rec(NumKind(text), at, |text|);
    assert p[at..at + |text|] == text;
    if at + |text| < |p| { FollowsEnds(p[at + |text|]); }
    hide NumberChars, JsonComplete.Follows, JsonComplete.Stands;
    TokenTiles(p, r, at);
  }

  /** A value, with what stands behind it. */
  lemma {:induction false} TreeTiles(p: seq<bv8>, v: Tree, at: nat, base: nat)
    requires Sound(v) && JsonComplete.Stands(p, at, TreeText(v)) && Free(p, at)
    requires at + |TreeText(v)| < |p| && !v.TBranch? ==> JsonComplete.Follows(p[at + |TreeText(v)|])
    ensures at + |TreeText(v)| <= |p| && Tiles(p, TreeRows(v, at, base), at, at + |TreeText(v)|)
    decreases v, 1
  {
    hide Tiles, Number, Content, JsonComplete.Stands, JsonComplete.Follows, ItemsText, ItemsRows, Bracketed, NumKind;
    match v
    case TString(content) => JsonComplete.KeyLength(content); StringTiles(p, content, at);
    case TNumber(text) => NumberTiles(p, text, at);
    case TWord(word) => WordTiles(p, word, at);
    case TBranch(isMap, gap, items) => BranchTiles(p, v, at, base);
  }

  lemma {:induction false} BranchTiles(p: seq<bv8>, v: Tree, at: nat, base: nat)
    requires v.TBranch? && Sound(v) && JsonComplete.Stands(p, at, TreeText(v)) && Free(p, at)
    ensures at + |TreeText(v)| <= |p| && Tiles(p, TreeRows(v, at, base), at, at + |TreeText(v)|)
    decreases v, 0
  {
    hide Tiles, JsonComplete.Stands, ItemsText, ItemsRows, TreeText, JsonLooseComplete.InnerText, Blanks, Gap;
    var inner := ItemsRows(v.items, at + 1, base + 1);
    var open, close := Rec(OpenKind(v.isMap), base + 1 + |inner|, 0), Rec(Close, base, 0);
    JsonLooseComplete.BranchText(v);
    var text := JsonLooseComplete.InnerText(v);
    JsonLooseComplete.Cut(p, at, [Opener(v.isMap)], text + [Closer(v.isMap)]);
    JsonLooseComplete.Cut(p, at + 1, text, [Closer(v.isMap)]);
    JsonLooseComplete.FirstStands(p, at, [Opener(v.isMap)]);
    JsonLooseComplete.FirstStands(p, at + 1 + |text|, [Closer(v.isMap)]);
    BracketTiles(p, v.isMap, open, close, at, at + 1 + |text|);
    InnerTiles(p, v, at, base);
    TilesJoin(p, [open], inner, at, at + 1, at + 1 + |text|);
    TilesJoin(p, [open] + inner, [close], at, at + 1 + |text|, at + 1 + |text| + 1);
    assert TreeRows(v, at, base) == [open] + inner + [close];
  }

  lemma BracketTiles(p: seq<bv8>, isMap: bool, open: Rec, close: Rec, i: nat, j: nat)
    requires i < |p| && j < |p| && p[i] == Opener(isMap) && p[j] == Closer(isMap) && Free(p, i)
    requires open.kind == OpenKind(isMap) && open.len == 0 && close.kind == Close && close.len == 0
    ensures Tiles(p, [open], i, i + 1) && Tiles(p, [close], j, j + 1)
  {
    TokenTiles(p, open, i);
    TokenTiles(p, close, j);
  }

  lemma {:induction false} InnerTiles(p: seq<bv8>, v: Tree, at: nat, base: nat)
    requires v.TBranch? && Sound(v)
    requires JsonComplete.Stands(p, at + 1, JsonLooseComplete.InnerText(v) + [Closer(v.isMap)]) && Free(p, at + 1)
    ensures var n := |JsonLooseComplete.InnerText(v)|;
      at + 1 + n <= |p| && Tiles(p, ItemsRows(v.items, at + 1, base + 1), at + 1, at + 1 + n)
    decreases v.items, 3
  {
    hide Tiles, JsonComplete.Stands, ItemsText, ItemsRows, TreeText, Gap;
    if v.items == [] {
      JsonLooseComplete.NoItems(v.isMap, at + 1, base + 1);
      assert v.gap + [] == v.gap;
      JsonLooseComplete.Cut(p, at + 1, v.gap, [Closer(v.isMap)]);
      BlanksGap(p, at + 1, v.gap);
      GapTiles(p, at + 1, at + 1 + |v.gap|);
    } else {
      assert v.gap + ItemsText(v.items) == ItemsText(v.items);
      JsonLooseComplete.Cut(p, at + 1, ItemsText(v.items), [Closer(v.isMap)]);
      ItemsTiles(p, v.isMap, v.items, at + 1, base + 1);
    }
  }

  /** Between a key and its value are only a colon and whitespace. */
  lemma ColonGap(p: seq<bv8>, n: Name, a: nat)
    requires Blanks(n.colon) && Blanks(n.space) && JsonComplete.Stands(p, a, n.colon + ([0x3A] + n.space))
    ensures Gap(p, a, a + |n.colon| + 1 + |n.space|)
  {
    hide JsonComplete.Stands, Blanks, Gap;
    JsonLooseComplete.Cut(p, a, n.colon, [0x3A] + n.space);
    BlanksGap(p, a, n.colon);
    var b := a + |n.colon|;
    JsonLooseComplete.Cut(p, b, [0x3A], n.space);
    JsonLooseComplete.FirstStands(p, b, [0x3A]);
    OneGap(p, b);
    BlanksGap(p, b + 1, n.space);
    GapJoin(p, a, b, b + 1);
    GapJoin(p, a, b + 1, b + 1 + |n.space|);
  }

  lemma NameTiles(p: seq<bv8>, name: Option<Name>, at: nat)
    requires NameOk(name) && JsonComplete.Stands(p, at, NameText(name)) && Free(p, at)
    ensures at + |NameText(name)| <= |p| && Free(p, at + |NameText(name)|) && Tiles(p, NameRows(name, at), at, at + |NameText(name)|)
  {
    hide Tiles, JsonComplete.Stands, Content, Blanks, Gap, Free;
    if name.None? {
      JsonLooseComplete.Range(p, at, []);
      EmptyGap(p, at);
      GapTiles(p, at, at);
    } else {
      KeyTiles(p, name.value, at);
    }
  }

  lemma KeyTiles(p: seq<bv8>, n: Name, at: nat)
    requires NameOk(Some(n)) && JsonComplete.Stands(p, at, NameText(Some(n))) && Free(p, at)
    ensures var end := at + |NameText(Some(n))|;
      end <= |p| && Free(p, end) && Tiles(p, NameRows(Some(n), at), at, end)
  {
    hide Tiles, JsonComplete.Stands, Content, Blanks, Gap, Free, StringText;
    JsonLooseComplete.NameRegroup(n, []);
    assert NameText(Some(n)) + [] == NameText(Some(n)) && n.space + [] == n.space;
    JsonLooseComplete.Cut(p, at, StringText(n.key), n.colon + ([0x3A] + n.space));
    StringTiles(p, n.key, at);
    JsonComplete.KeyLength(n.key);
    var a := at + |n.key| + 2;
    var end := a + |n.colon| + 1 + |n.space|;
    ColonGap(p, n, a);
    GapFrees(p, a, end);
    GapTiles(p, a, end);
    TilesJoin(p, [Rec(Str, at + 1, |n.key|)], [], at, a, end);
    assert [Rec(Str, at + 1, |n.key|)] + [] == NameRows(Some(n), at);
  }

  lemma EmptyGap(p: seq<bv8>, i: nat)
    requires i <= |p|
    ensures Gap(p, i, i)
  {}

  /** One item up to the comma or the closer behind it. */
  lemma {:induction false} ItemTiles(p: seq<bv8>, isMap: bool, it: Item, rest: seq<bv8>, at: nat, base: nat)
    requires ItemShape(isMap, it) && Sound(it.value) && Free(p, at)
    requires JsonComplete.Stands(p, at, HeadText(it) + (TreeText(it.value) + (it.after + rest)))
    requires rest != [] && (rest[0] == 0x2C || IsCloser(rest[0]))
    ensures var name := NameRows(it.name, at + |it.before|);
      var e := at + |ItemText(it)|;
      && JsonComplete.Stands(p, e, rest) && e < |p| && p[e] == rest[0]
      && Tiles(p, name + TreeRows(it.value, at + |HeadText(it)|, base + |name|), at, e)
    decreases it, 2
  {
    hide Tiles, JsonComplete.Stands, TreeText, TreeRows, Sound, Blanks, NameOk, NameText, NameRows, JsonComplete.Follows, Gap;
    var v, a := it.value, at + |it.before|;
    var h := at + |HeadText(it)|;
    var e := h + |TreeText(v)|;
    JsonLooseComplete.ItemParts(it);
    JsonLooseComplete.Cut(p, at, HeadText(it), TreeText(v) + (it.after + rest));
    JsonLooseComplete.Cut(p, at, it.before, NameText(it.name));
    JsonLooseComplete.Cut(p, h, TreeText(v), it.after + rest);
    JsonComplete.EndByte(it.after, rest);
    JsonLooseComplete.FirstStands(p, e, it.after + rest);
    JsonLooseComplete.Cut(p, e, it.after, rest);
    JsonLooseComplete.FirstStands(p, e + |it.after|, rest);
    var name := NameRows(it.name, a);
    BlanksGap(p, at, it.before);
    GapFrees(p, at, a);
    GapTiles(p, at, a);
    NameTiles(p, it.name, a);
    TilesJoin(p, [], name, at, a, h);
    assert [] + name == name;
    TreeTiles(p, v, h, base + |name|);
    TilesJoin(p, name, TreeRows(v, h, base + |name|), at, h, e);
    BlanksGap(p, e, it.after);
    GapTiles(p, e, e + |it.after|);
    var rows := name + TreeRows(v, h, base + |name|);
    TilesJoin(p, rows, [], at, e, e + |it.after|);
    assert rows + [] == rows;
  }

  lemma {:induction false} ItemsTiles(p: seq<bv8>, isMap: bool, items: seq<Item>, at: nat, base: nat)
    requires items != [] && JsonComplete.Stands(p, at, ItemsText(items) + [Closer(isMap)]) && Free(p, at)
    requires forall k :: 0 <= k < |items| ==> ItemShape(isMap, items[k]) && Sound(items[k].value)
    ensures at + |ItemsText(items)| <= |p| && Tiles(p, ItemsRows(items, at, base), at, at + |ItemsText(items)|)
    decreases items, 2
  {
    hide Tiles, JsonComplete.Stands, ItemsText, ItemsRows, TreeText, TreeRows, HeadText, ItemText, Sound, ItemShape, JsonLooseComplete.Rest,
      NameRows, Gap;
    var it := items[0];
    var name := NameRows(it.name, at + |it.before|);
    var first := name + TreeRows(it.value, at + |HeadText(it)|, base + |name|);
    var e := at + |ItemText(it)|;
    JsonLooseComplete.ItemsSplit(items, isMap);
    JsonLooseComplete.RestIs(items, isMap);
    ItemTiles(p, isMap, it, JsonLooseComplete.Rest(items, isMap), at, base);
    RowsFirst(items, at, base);
    if |items| > 1 {
      JsonLooseComplete.Cut(p, e, [0x2C], ItemsText(items[1..]) + [Closer(isMap)]);
      OneGap(p, e);
      GapFrees(p, e, e + 1);
      GapTiles(p, e, e + 1);
      ItemsTiles(p, isMap, items[1..], e + 1, base + |first|);
      var to := e + 1 + |ItemsText(items[1..])|;
      TilesJoin(p, first, [], at, e, e + 1);
      TilesJoin(p, first + [], ItemsRows(items[1..], e + 1, base + |first|), at, e + 1, to);
      assert first + [] == first;
    }
  }

  lemma RowsFirst(items: seq<Item>, at: nat, base: nat)
    requires items != []
    ensures var it := items[0];
      var name := NameRows(it.name, at + |it.before|);
      var first := name + TreeRows(it.value, at + |HeadText(it)|, base + |name|);
      && ItemsRows(items, at, base) == first + ItemsRows(items[1..], at + |ItemText(it)| + 1, base + |first|)
      && (|items| == 1 ==> ItemsRows(items, at, base) == first)
  {
    hide TreeRows, ItemText, HeadText, NameRows;
  }

  // ---- the rows of a text ----------------------------------------------------------------

  /** DOC, and behind it the tokens from the opener to the end of the bytes. */
  predicate RowsSpell(p: seq<bv8>, open: nat, rows: seq<Rec>) {
    open <= |p| && rows != [] && rows[0] == Rec(Doc, 0, 0) && Tiles(p, rows[1..], open, |p|)
  }

  /** The rows of a loose text with whitespace behind it are its tokens. */
  lemma LooseSpells(p: seq<bv8>, open: nat, v: Tree, tail: seq<bv8>)
    requires open <= |p| && LooseText(p[open..], v, tail, true) && Free(p, open)
    ensures RowsSpell(p, open, [Rec(Doc, 0, 0)] + TreeRows(v, open, 1))
  {
    hide Tiles, TreeText, TreeRows, Sound, Under, Blanks, JsonComplete.Stands, Gap;
    JsonLooseComplete.Whole(p, open, TreeText(v) + tail);
    JsonLooseComplete.Cut(p, open, TreeText(v), tail);
    TreeTiles(p, v, open, 1);
    var e := open + |TreeText(v)|;
    BlanksGap(p, e, tail);
    GapTiles(p, e, |p|);
    var rows := TreeRows(v, open, 1);
    TilesJoin(p, rows, [], open, e, |p|);
    assert rows + [] == rows && ([Rec(Doc, 0, 0)] + rows)[1..] == rows;
  }

  lemma {:induction false} LeadFreeFrom(p: seq<bv8>, i: nat)
    requires i <= |p| && Free(p, i)
    ensures Free(p, Lead(p, i))
    decreases |p| - i
  {
    if i < |p| && Blank(p[i]) { LeadFreeFrom(p, i + 1); }
  }

  lemma LeadFree(p: seq<bv8>)
    ensures Free(p, Lead(p, 0))
  {
    LeadFreeFrom(p, 0);
  }

  /** The reference walk and the fused walk: what they take is tokenized by their rows. */
  lemma WalksSpell(p: seq<bv8>, open: nat)
    requires open < |p| && (p[open] == 0x7B || p[open] == 0x5B) && Free(p, open)
    ensures RefWalk(p, open, true).Taken? ==> RowsSpell(p, open, RefWalk(p, open, true).recs)
    ensures Walk(p, open).Accept? ==> RowsSpell(p, open, Walk(p, open).recs)
  {
    hide RefRun, Run, LooseText, TreeRows, RowsSpell;
    JsonStrict.WalksAgreeExactly(p, open);
    if RefWalk(p, open, true).Taken? {
      var v, tail := JsonLooseSound.Accepted(p, open, true);
      JsonLooseComplete.Accepts(p, open, v, tail, true);
      LooseSpells(p, open, v, tail);
    }
  }

  // ---- what a row's kind says --------------------------------------------------------------

  predicate Scalar(k: Kind) { k != Doc && k != SeqOpen && k != MapOpen && k != Close }

  /** The row's bytes, and whether a quote stands in front of them. */
  predicate Inside(p: seq<bv8>, r: Rec) { r.off + r.len <= |p| && 0 < r.off }

  function Bytes(p: seq<bv8>, r: Rec): seq<bv8>
    requires Inside(p, r)
  {
    p[r.off..r.off + r.len]
  }

  predicate Quoted(p: seq<bv8>, r: Rec)
    requires Inside(p, r)
  {
    p[r.off - 1] == 0x22
  }

  /** The kind of a scalar's row, told by its bytes. */
  predicate KindTold(p: seq<bv8>, r: Rec) {
    Scalar(r.kind) ==>
      && Inside(p, r)
      && (r.kind == Str <==> Quoted(p, r))
      && (r.kind == Nil <==> !Quoted(p, r) && Bytes(p, r) == [0x6E, 0x75, 0x6C, 0x6C])
      && (r.kind == Yes <==> !Quoted(p, r) && Bytes(p, r) == [0x74, 0x72, 0x75, 0x65])
      && (r.kind == No <==> !Quoted(p, r) && Bytes(p, r) == [0x66, 0x61, 0x6C, 0x73, 0x65])
      && (r.kind == IntNum <==> !Quoted(p, r) && MinusDigits(Bytes(p, r)))
  }

  lemma TokenTold(p: seq<bv8>, r: Rec, i: nat)
    requires 0 < i < |p| && Token(p, r, i) && Apart(p, i)
    ensures KindTold(p, r)
  {
    hide MinusDigits, NumberChars;
    if Scalar(r.kind) && p[i] != 0x22 {
      assert Bytes(p, r)[0] == p[i];
      if MinusDigits(Bytes(p, r)) { DigitsFirst(Bytes(p, r)); }
    }
  }

  lemma {:induction false} TilesTold(p: seq<bv8>, rows: seq<Rec>, from: nat, to: nat)
    requires from <= to <= |p| && Tiles(p, rows, from, to) && (from == 0 ==> rows != [] && !Scalar(rows[0].kind))
    ensures forall k :: 0 <= k < |rows| ==> KindTold(p, rows[k])
    decreases |rows|
  {
    hide Token, KindTold, GapEnd, Apart;
    if rows != [] {
      var i := GapEnd(p, from, to);
      if Scalar(rows[0].kind) { TokenTold(p, rows[0], i); } else { NotTold(p, rows[0]); }
      TilesTold(p, rows[1..], TokenEnd(rows[0], i), to);
      forall k | 0 <= k < |rows| ensures KindTold(p, rows[k]) {
        if k > 0 { assert rows[k] == rows[1..][k - 1]; }
      }
    }
  }

  lemma NotTold(p: seq<bv8>, r: Rec)
    requires !Scalar(r.kind)
    ensures KindTold(p, r)
  {}
  /** Every row behind DOC is told by its bytes. */
  lemma RowsTold(p: seq<bv8>, open: nat, rows: seq<Rec>)
    requires RowsSpell(p, open, rows) && open < |p| && (p[open] == 0x7B || p[open] == 0x5B)
    ensures forall k :: 0 <= k < |rows| ==> KindTold(p, rows[k])
  {
    hide Tiles, KindTold;
    FirstRow(p, rows[1..], open);
    TilesTold(p, rows[1..], open, |p|);
    NotTold(p, rows[0]);
    forall k | 0 <= k < |rows| ensures KindTold(p, rows[k]) {
      if k > 0 { assert rows[k] == rows[1..][k - 1]; }
    }
  }

  lemma FirstRow(p: seq<bv8>, rows: seq<Rec>, open: nat)
    requires open < |p| && Tiles(p, rows, open, |p|) && (p[open] == 0x7B || p[open] == 0x5B)
    ensures rows != [] && !Scalar(rows[0].kind)
  {
    assert GapEnd(p, open, |p|) == open;
  }
}
