/**
 * What separates the reference walk from strict JSON: literals alone in objects. Without them a loose tree is a JSON
 * value, and on clean bytes the two walks agree exactly.
 */
module JsonStrict {
  import opened Wrappers
  import opened JsonGrammar
  import opened JsonWalk
  import opened JsonLoose
  import JsonComplete
  import JsonLooseComplete
  import JsonLooseSound
  import JsonSound

  // ---- JSON values as loose trees --------------------------------------------------------

  function Loosen(v: Json): Tree
    decreases v, 0
  {
    match v
    case JString(content) => TString(content)
    case JNumber(text) => TNumber(text)
    case JLiteral(word) => TWord(word)
    case JArray(gap, es) => TBranch(false, gap, LooseElements(es))
    case JObject(gap, ms) => TBranch(true, gap, LooseMembers(ms))
  }

  function ItemOf(e: Element): Item
    decreases e, 0
  {
    Item(e.before, None, Loosen(e.value), e.after)
  }

  function PairOf(m: Member): Item
    decreases m, 0
  {
    Item(m.before, Some(Name(m.key, m.colon, m.space)), Loosen(m.value), m.after)
  }

  function LooseElements(es: seq<Element>): (items: seq<Item>)
    ensures |items| == |es|
    decreases es, 0
  {
    if es == [] then []
    else [ItemOf(es[0])] + LooseElements(es[1..])
  }

  function LooseMembers(ms: seq<Member>): (items: seq<Item>)
    ensures |items| == |ms|
    decreases ms, 0
  {
    if ms == [] then []
    else [PairOf(ms[0])] + LooseMembers(ms[1..])
  }

  ghost predicate ElementOk(e: Element, d: nat) {
    Blanks(e.before) && WellFormed(e.value) && Blanks(e.after) && Within(e.value, d)
  }

  ghost predicate MemberOk(m: Member, d: nat) {
    && Blanks(m.before) && Content(m.key) && Blanks(m.colon) && Blanks(m.space) && WellFormed(m.value) && Blanks(m.after)
    && Within(m.value, d)
  }

  ghost predicate ItemOk(isMap: bool, it: Item, d: nat) { ItemShape(isMap, it) && Sound(it.value) && Under(it.value, d) }

  /** A JSON value is a loose tree with its text and rows, and no literal stands alone in it. */
  lemma {:induction false} Loosened(v: Json, d: nat, at: nat, base: nat)
    requires WellFormed(v) && Within(v, d)
    ensures Sound(Loosen(v)) && Under(Loosen(v), d) && LoneWords(Loosen(v)) == 0
    ensures TreeText(Loosen(v)) == Text(v) && TreeRows(Loosen(v), at, base) == Recs(v, at, base)
    decreases v, 1
  {
    hide LooseElements, LooseMembers, ItemsText, ElementsText, MembersText, ItemsRows, ElementRecs, MemberRecs, Bracketed, Number, Content,
      Blanks, NameOk, Lone;
    match v
    case JString(content) =>
    case JNumber(text) =>
    case JLiteral(word) =>
    case JArray(gap, es) =>
      assert forall k :: 0 <= k < |es| ==> ElementOk(es[k], d - 1);
      ElementsLoosened(es, d - 1, at + 1, base + 1);
      assert forall k :: 0 <= k < |LooseElements(es)| ==> ItemOk(false, LooseElements(es)[k], d - 1);
    case JObject(gap, ms) =>
      assert forall k :: 0 <= k < |ms| ==> MemberOk(ms[k], d - 1);
      MembersLoosened(ms, d - 1, at + 1, base + 1);
      assert forall k :: 0 <= k < |LooseMembers(ms)| ==> ItemOk(true, LooseMembers(ms)[k], d - 1);
  }

  /** A list of elements from its first one. */
  lemma ElementsCons(es: seq<Element>, at: nat, base: nat)
    requires es != []
    ensures ElementsText(es) == ElementText(es[0]) + (if es[1..] == [] then [] else [0x2C] + ElementsText(es[1..]))
    ensures LooseElements(es) == [ItemOf(es[0])] + LooseElements(es[1..])
    ensures var value := Recs(es[0].value, at + |es[0].before|, base);
      ElementRecs(es, at, base) == value + ElementRecs(es[1..], at + |ElementText(es[0])| + 1, base + |value|)
  {
    hide ElementText, Recs, ItemOf;
  }

  lemma NoElements(at: nat, base: nat)
    ensures ElementsText([]) == [] && ElementRecs([], at, base) == [] && LooseElements([]) == []
  {}

  lemma ElementValue(e: Element, d: nat)
    requires ElementOk(e, d)
    ensures WellFormed(e.value) && Within(e.value, d)
  {}

  lemma {:induction false} ElementsLoosened(es: seq<Element>, d: nat, at: nat, base: nat)
    requires forall k :: 0 <= k < |es| ==> ElementOk(es[k], d)
    ensures var items := LooseElements(es);
      && (forall k :: 0 <= k < |items| ==> ItemOk(false, items[k], d)) && LoneIn(false, items) == 0
      && ItemsText(items) == ElementsText(es) && ItemsRows(items, at, base) == ElementRecs(es, at, base)
    decreases es, 1
  {
    hide Recs, TreeRows, Text, TreeText, Sound, WellFormed, Under, Within, LoneWords, Blanks, ElementText, ItemText, HeadText, NameRows,
      ItemOk, Lone, ItemOf, ItemsText, ItemsRows, LoneIn, ElementsText, ElementRecs, ElementOk;
    NoItems(at, base);
    NoElements(at, base);
    if es != [] {
      var e := es[0];
      ElementValue(e, d);
      Loosened(e.value, d, at + |e.before|, base);
      ElementsLoosened(es[1..], d, at + |ElementText(e)| + 1, base + |Recs(e.value, at + |e.before|, base)|);
      ElementItem(e, d);
      ElementsCons(es, at, base);
      ItemsCons(false, ItemOf(e), LooseElements(es[1..]), at, base);
    }
  }

  lemma NoItems(at: nat, base: nat)
    ensures ItemsText([]) == [] && ItemsRows([], at, base) == [] && LoneIn(false, []) == LoneIn(true, []) == 0
  {}

  /** A list of items from its first one. */
  lemma ItemsCons(isMap: bool, it: Item, rest: seq<Item>, at: nat, base: nat)
    ensures ItemsText([it] + rest) == ItemText(it) + (if rest == [] then [] else [0x2C] + ItemsText(rest))
    ensures LoneIn(isMap, [it] + rest) == (if Lone(isMap, it) then 1 else 0) + LoneWords(it.value) + LoneIn(isMap, rest)
    ensures var name := NameRows(it.name, at + |it.before|);
      var first := name + TreeRows(it.value, at + |HeadText(it)|, base + |name|);
      ItemsRows([it] + rest, at, base) == first + ItemsRows(rest, at + |ItemText(it)| + 1, base + |first|)
  {
    hide ItemText, HeadText, NameRows, TreeRows, Lone, LoneWords, ItemsText, ItemsRows, LoneIn;
    var items := [it] + rest;
    assert items[0] == it && items[1..] == rest;
    ItemsStep(isMap, items, at, base);
  }

  lemma ItemsStep(isMap: bool, items: seq<Item>, at: nat, base: nat)
    requires items != []
    ensures ItemsText(items) == ItemText(items[0]) + (if |items| == 1 then [] else [0x2C] + ItemsText(items[1..]))
    ensures LoneIn(isMap, items) == (if Lone(isMap, items[0]) then 1 else 0) + LoneWords(items[0].value) + LoneIn(isMap, items[1..])
    ensures var it := items[0];
      var name := NameRows(it.name, at + |it.before|);
      var first := name + TreeRows(it.value, at + |HeadText(it)|, base + |name|);
      ItemsRows(items, at, base) == first + ItemsRows(items[1..], at + |ItemText(it)| + 1, base + |first|)
  {
    hide ItemText, HeadText, NameRows, TreeRows, Lone, LoneWords;
  }

  lemma ElementItem(e: Element, d: nat)
    requires ElementOk(e, d) && Sound(Loosen(e.value)) && Under(Loosen(e.value), d) && TreeText(Loosen(e.value)) == Text(e.value)
    ensures |HeadText(ItemOf(e))| == |e.before| && ItemText(ItemOf(e)) == ElementText(e)
    ensures ItemOk(false, ItemOf(e), d) && !Lone(false, ItemOf(e)) && ItemOf(e).value == Loosen(e.value)
    ensures forall at: nat :: NameRows(ItemOf(e).name, at) == []
  {
    hide TreeText, Text, Sound, WellFormed, Under, Within, Blanks;
    assert e.before + [] == e.before;
  }

  lemma MemberItem(m: Member, d: nat)
    requires MemberOk(m, d) && Sound(Loosen(m.value)) && Under(Loosen(m.value), d) && TreeText(Loosen(m.value)) == Text(m.value)
    ensures |HeadText(PairOf(m))| == ValueOffset(m) && ItemText(PairOf(m)) == MemberText(m)
    ensures ItemOk(true, PairOf(m), d) && !Lone(true, PairOf(m)) && PairOf(m).value == Loosen(m.value)
    ensures PairOf(m).before == m.before && forall at: nat :: NameRows(PairOf(m).name, at) == [Rec(Str, at + 1, |m.key|)]
  {
    hide TreeText, Text, StringText, Sound, WellFormed, Under, Within, Blanks, Content;
    var it := PairOf(m);
    assert |StringText(m.key)| == |m.key| + 2 by { JsonComplete.KeyLength(m.key); }
    JsonComplete.Assoc(m.before, StringText(m.key) + m.colon + [0x3A], m.space);
    JsonComplete.Assoc(m.before, StringText(m.key) + m.colon, [0x3A]);
    JsonComplete.Assoc(m.before, StringText(m.key), m.colon);
    assert HeadText(it) == m.before + StringText(m.key) + m.colon + [0x3A] + m.space;
  }

  lemma NoMembers(at: nat, base: nat)
    ensures MembersText([]) == [] && MemberRecs([], at, base) == [] && LooseMembers([]) == []
  {}

  lemma MemberValue(m: Member, d: nat)
    requires MemberOk(m, d)
    ensures WellFormed(m.value) && Within(m.value, d)
  {}

  /** A list of members from its first one. */
  lemma MembersCons(ms: seq<Member>, at: nat, base: nat)
    requires ms != []
    ensures MembersText(ms) == MemberText(ms[0]) + (if ms[1..] == [] then [] else [0x2C] + MembersText(ms[1..]))
    ensures LooseMembers(ms) == [PairOf(ms[0])] + LooseMembers(ms[1..])
    ensures var m := ms[0];
      var value := Recs(m.value, at + ValueOffset(m), base + 1);
      MemberRecs(ms, at, base) ==
        [Rec(Str, at + |m.before| + 1, |m.key|)] + value + MemberRecs(ms[1..], at + |MemberText(m)| + 1, base + 1 + |value|)
  {
    hide MemberText, Recs, PairOf, ValueOffset;
  }

  lemma {:induction false} MembersLoosened(ms: seq<Member>, d: nat, at: nat, base: nat)
    requires forall k :: 0 <= k < |ms| ==> MemberOk(ms[k], d)
    ensures var items := LooseMembers(ms);
      && (forall k :: 0 <= k < |items| ==> ItemOk(true, items[k], d)) && LoneIn(true, items) == 0
      && ItemsText(items) == MembersText(ms) && ItemsRows(items, at, base) == MemberRecs(ms, at, base)
    decreases ms, 1
  {
    hide Recs, TreeRows, Text, TreeText, Sound, WellFormed, Under, Within, LoneWords, Blanks, Content, MemberText, ItemText, HeadText, NameRows,
      ItemOk, Lone, PairOf, ValueOffset, ItemsText, ItemsRows, LoneIn, MembersText, MemberRecs, MemberOk;
    NoItems(at, base);
    NoMembers(at, base);
    if ms != [] {
      var m := ms[0];
      MemberValue(m, d);
      Loosened(m.value, d, at + ValueOffset(m), base + 1);
      MembersLoosened(ms[1..], d, at + |MemberText(m)| + 1, base + 1 + |Recs(m.value, at + ValueOffset(m), base + 1)|);
      MemberItem(m, d);
      MembersCons(ms, at, base);
      ItemsCons(true, PairOf(m), LooseMembers(ms[1..]), at, base);
    }
  }

  /** A loose tree in which no literal stands alone is a JSON value. */
  lemma {:induction false} Tightened(t: Tree, d: nat) returns (v: Json)
    requires Sound(t) && Under(t, d) && LoneWords(t) == 0
    ensures WellFormed(v) && Within(v, d) && Loosen(v) == t
    decreases t, 1
  {
    hide Number, Content, Blanks, NameOk, Lone, LooseElements, LooseMembers;
    match t
    case TString(content) => v := JString(content);
    case TNumber(text) => v := JNumber(text);
    case TWord(word) => v := JLiteral(word);
    case TBranch(isMap, gap, items) =>
      assert forall k :: 0 <= k < |items| ==> ItemOk(isMap, items[k], d - 1);
      if isMap {
        var ms := MembersTightened(items, d - 1);
        v := JObject(gap, ms);
        assert forall k :: 0 <= k < |ms| ==> MemberOk(ms[k], d - 1);
      } else {
        var es := ElementsTightened(items, d - 1);
        v := JArray(gap, es);
        assert forall k :: 0 <= k < |es| ==> ElementOk(es[k], d - 1);
      }
  }

  lemma {:induction false} ElementsTightened(items: seq<Item>, d: nat) returns (es: seq<Element>)
    requires LoneIn(false, items) == 0 && forall k :: 0 <= k < |items| ==> ItemOk(false, items[k], d)
    ensures |es| == |items| && LooseElements(es) == items && forall k :: 0 <= k < |es| ==> ElementOk(es[k], d)
    decreases items, 1
  {
    hide Sound, Under, WellFormed, Within, Blanks, LoneWords, Loosen;
    es := [];
    if items != [] {
      var it := items[0];
      assert ItemOk(false, it, d);
      var v := Tightened(it.value, d);
      var rest := ElementsTightened(items[1..], d);
      es := [Element(it.before, v, it.after)] + rest;
      assert es[1..] == rest;
    }
  }

  lemma {:induction false} MembersTightened(items: seq<Item>, d: nat) returns (ms: seq<Member>)
    requires LoneIn(true, items) == 0 && forall k :: 0 <= k < |items| ==> ItemOk(true, items[k], d)
    ensures |ms| == |items| && LooseMembers(ms) == items && forall k :: 0 <= k < |ms| ==> MemberOk(ms[k], d)
    decreases items, 1
  {
    hide Sound, Under, WellFormed, Within, Blanks, LoneWords, Loosen, Content;
    ms := [];
    if items != [] {
      var it := items[0];
      assert ItemOk(true, it, d);
      var v := Tightened(it.value, d);
      var rest := MembersTightened(items[1..], d);
      var n := it.name.value;
      ms := [Member(it.before, n.key, n.colon, n.space, v, it.after)] + rest;
      assert ms[1..] == rest;
    }
  }

  // ---- the two walks -----------------------------------------------------------------------

  /** A strict text on any bytes: RFC 8259, a container at its root, nested at most 256 deep. */
  ghost predicate StrictText(s: seq<bv8>, v: Json, tail: seq<bv8>) { IsText(s, v, tail) && Container(v) && Within(v, 256) }

  lemma StrictIsLoose(s: seq<bv8>, v: Json, tail: seq<bv8>, open: nat)
    requires StrictText(s, v, tail)
    ensures LooseText(s, Loosen(v), tail, true) && LoneWords(Loosen(v)) == 0 && TreeRows(Loosen(v), open, 1) == Recs(v, open, 1)
  {
    hide WellFormed, Within, Text, Sound, Under, TreeText, Recs, TreeRows, LoneWords;
    Loosened(v, WALK_DEPTH, open, 1);
  }

  /** On any bytes: the reference walk meets no lone literal exactly in the strict texts it takes, and takes them all. */
  lemma StrictExactly(p: seq<bv8>, open: nat)
    requires open < |p| && (p[open] == 0x7B || p[open] == 0x5B)
    ensures RefWalk(p, open, true).Taken? && RefWalk(p, open, true).lone == 0 <==> exists v, tail :: StrictText(p[open..], v, tail)
    ensures forall v, tail :: StrictText(p[open..], v, tail) ==> RefWalk(p, open, true) == Taken([Rec(Doc, 0, 0)] + Recs(v, open, 1), 0)
  {
    hide RefRun, StrictText, LooseText, Recs, TreeRows, LoneWords;
    forall v, tail | StrictText(p[open..], v, tail)
      ensures RefWalk(p, open, true) == Taken([Rec(Doc, 0, 0)] + Recs(v, open, 1), 0)
    {
      StrictIsLoose(p[open..], v, tail, open);
      JsonLooseComplete.Accepts(p, open, Loosen(v), tail, true);
    }
    if RefWalk(p, open, true).Taken? && RefWalk(p, open, true).lone == 0 {
      var t, tail := JsonLooseSound.Accepted(p, open, true);
      JsonLooseComplete.Accepts(p, open, t, tail, true);
      var v := StrictTree(p[open..], t, tail);
    }
  }

  lemma StrictTree(s: seq<bv8>, t: Tree, tail: seq<bv8>) returns (v: Json)
    requires LooseText(s, t, tail, true) && LoneWords(t) == 0
    ensures StrictText(s, v, tail)
  {
    hide WellFormed, Within, Text, Sound, Under, TreeText, LoneWords;
    v := Tightened(t, WALK_DEPTH);
    Loosened(v, WALK_DEPTH, 0, 0);
  }

  /** Some reading of the text as a loose text, and none in which a literal stands alone in an object. */
  ghost predicate NoLone(s: seq<bv8>) {
    && (exists v, tail :: LooseText(s, v, tail, true))
    && (forall v, tail :: LooseText(s, v, tail, true) ==> LoneWords(v) == 0)
  }

  /**
   * The fused walk accepts exactly the ASCII texts without tabs that the reference walk takes and in which no literal
   * stands alone in an object, whichever reading of the text is asked; the rows are then the same.
   */
  lemma WalksAgreeExactly(p: seq<bv8>, open: nat)
    requires open < |p| && (p[open] == 0x7B || p[open] == 0x5B)
    ensures Walk(p, open).Accept? <==> Clean(p[open..]) && RefWalk(p, open, true).Taken? && RefWalk(p, open, true).lone == 0
    ensures Walk(p, open).Accept? <==> Clean(p[open..]) && NoLone(p[open..])
    ensures Walk(p, open).Accept? ==> RefWalk(p, open, true) == Taken(Walk(p, open).recs, 0)
  {
    hide RefRun, Run, StrictText, LooseText, Recs, TreeRows, LoneWords, Clean;
    StrictExactly(p, open);
    JsonSound.AcceptsExactly(p, open);
    forall v, tail ensures JsonSound.CleanText(p[open..], v, tail) <==> Clean(p[open..]) && StrictText(p[open..], v, tail) {
      StrictClean(p[open..], v, tail);
    }
    if Walk(p, open).Accept? {
      var v, tail :| JsonSound.CleanText(p[open..], v, tail);
      JsonSound.AcceptedRows(p, open, v, tail);
    }
    NoLoneExactly(p, open);
  }

  /** The readings agree on the literals that stand alone. */
  lemma NoLoneExactly(p: seq<bv8>, open: nat)
    requires open < |p| && (p[open] == 0x7B || p[open] == 0x5B)
    ensures NoLone(p[open..]) <==> RefWalk(p, open, true).Taken? && RefWalk(p, open, true).lone == 0
  {
    hide RefRun, LooseText, TreeRows, LoneWords;
    JsonLooseSound.TakesExactly(p, open, true);
    forall v, tail | LooseText(p[open..], v, tail, true) ensures LoneWords(v) == RefWalk(p, open, true).lone {
      JsonLooseComplete.Accepts(p, open, v, tail, true);
    }
  }

  lemma StrictClean(s: seq<bv8>, v: Json, tail: seq<bv8>)
    ensures JsonSound.CleanText(s, v, tail) <==> Clean(s) && StrictText(s, v, tail)
  {}

  /** `{true}`. */
  const LONE_TRUE: seq<bv8> := [0x7B, 0x74, 0x72, 0x75, 0x65, 0x7D]

  /** Its tree. */
  const LONE_TREE: Tree := TBranch(true, [], [Item([], None, TWord(True), [])])

  lemma LoneTree()
    ensures LooseText(LONE_TRUE, LONE_TREE, [], true) && LoneWords(LONE_TREE) == 1
  {
    var it := LONE_TREE.items[0];
    assert LONE_TREE.items == [it] && [it][1..] == [];
    assert ItemText(it) == TRUE_TEXT;
    assert ItemsText([it]) == TRUE_TEXT;
    assert LONE_TRUE == TreeText(LONE_TREE) + [];
    assert Sound(it.value) && Under(it.value, WALK_DEPTH - 1);
  }

  lemma LoneTreeRows()
    ensures [Rec(Doc, 0, 0)] + TreeRows(LONE_TREE, 0, 1) == [Rec(Doc, 0, 0), Rec(MapOpen, 3, 0), Rec(Yes, 1, 4), Rec(Close, 1, 0)]
  {
    var it := LONE_TREE.items[0];
    assert LONE_TREE.items == [it] && [it][1..] == [];
    assert TreeRows(it.value, 1, 2) == [Rec(Yes, 1, 4)];
    assert ItemsRows([it], 1, 2) == [Rec(Yes, 1, 4)];
  }

  /** The reference walk takes it, as an object whose one member is a literal; the fused walk rejects it. */
  lemma LoneTrue()
    ensures RefWalk(LONE_TRUE, 0, true) == Taken([Rec(Doc, 0, 0), Rec(MapOpen, 3, 0), Rec(Yes, 1, 4), Rec(Close, 1, 0)], 1)
    ensures Walk(LONE_TRUE, 0) == Reject
  {
    hide RefRun, Run, LooseText, TreeRows, LoneWords;
    LoneTree();
    LoneTreeRows();
    assert LONE_TRUE[0..] == LONE_TRUE;
    JsonLooseComplete.Accepts(LONE_TRUE, 0, LONE_TREE, [], true);
    WalksAgreeExactly(LONE_TRUE, 0);
  }
}
