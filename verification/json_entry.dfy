/** yeptris_parse_json_tape on a container: the fused walk, then, for printable ASCII, the reference walk. */
module JsonEntry {
  import opened Wrappers
  import opened JsonGrammar
  import opened JsonLexer
  import opened JsonWalk
  import JsonLinks
  import opened JsonLoose
  import JsonLooseComplete
  import JsonLooseSound
  import JsonReference
  import JsonScan
  import JsonSound
  import opened JsonStrict
  import JsonTape
  import JsonTokens

  // ---- the links of a loose tree's rows -----------------------------------------------

  lemma {:induction false} TreeLinked(v: Tree, at: nat, base: nat)
    ensures JsonLinks.Linked(TreeRows(v, at, base), base)
    decreases v, 0
  {
    hide JsonLinks.Linked;
    match v
    case TString(content) => JsonLinks.OneLinked(Rec(Str, at + 1, |content|), base);
    case TNumber(text) => JsonLinks.OneLinked(Rec(NumKind(text), at, |text|), base);
    case TWord(word) => JsonLinks.OneLinked(Rec(WordKind(word), at, |WordText(word)|), base);
    case TBranch(isMap, gap, items) =>
      ItemsLinked(items, at + 1, base + 1);
      JsonLinks.BracketLinked(isMap, ItemsRows(items, at + 1, base + 1), base);
  }

  lemma NameLinked(name: Option<Name>, at: nat, base: nat)
    ensures JsonLinks.Linked(NameRows(name, at), base)
  {
    hide JsonLinks.Linked;
    if name.Some? { JsonLinks.OneLinked(Rec(Str, at + 1, |name.value.key|), base); } else { JsonLinks.NoneLinked(base); }
  }

  lemma {:induction false} ItemsLinked(items: seq<Item>, at: nat, base: nat)
    ensures JsonLinks.Linked(ItemsRows(items, at, base), base)
    decreases items, 0
  {
    hide JsonLinks.Linked, TreeRows, ItemText, HeadText, NameRows;
    if items == [] {
      JsonLinks.NoneLinked(base);
    } else {
      var it := items[0];
      var name := NameRows(it.name, at + |it.before|);
      var value := TreeRows(it.value, at + |HeadText(it)|, base + |name|);
      NameLinked(it.name, at + |it.before|, base);
      TreeLinked(it.value, at + |HeadText(it)|, base + |name|);
      JsonLinks.LinkedJoin(name, value, base);
      ItemsLinked(items[1..], at + |ItemText(it)| + 1, base + |name + value|);
      JsonLinks.LinkedJoin(name + value, ItemsRows(items[1..], at + |ItemText(it)| + 1, base + |name + value|), base);
    }
  }

  // ---- the entry ------------------------------------------------------------------------

  predicate Printable(c: bv8) { 0x20 <= c <= 0x7E || c == 0x09 || c == 0x0A || c == 0x0D }

  predicate Ungated(p: seq<bv8>) { forall k :: 0 <= k < |p| ==> Printable(p[k]) }

  /** The gate scan. */
  method GateScan(p: seq<bv8>) returns (gated: bool)
    ensures gated <==> !Ungated(p)
  {
    var i := 0;
    while i < |p|
      invariant i <= |p| && forall k :: 0 <= k < i ==> Printable(p[k])
    {
      var c := p[i];
      if !((c >= 0x20 && c <= 0x7E) || c == 0x09 || c == 0x0A || c == 0x0D) {
        return true;
      }
      i := i + 1;
    }
    return false;
  }

  /** Whitespace, then a loose text. */
  ghost predicate LooseTape(p: seq<bv8>, v: Tree, tail: seq<bv8>) { LooseText(p[Lead(p, 0)..], v, tail, true) }

  ghost predicate StrictTape(p: seq<bv8>, v: Json, tail: seq<bv8>) { StrictText(p[Lead(p, 0)..], v, tail) }

  /** What the entry returns success for by one of its two walks. */
  ghost predicate EntryTakes(p: seq<bv8>) {
    || (exists v, tail :: JsonLinks.TapeText(p, v, tail))
    || (Ungated(p) && exists v, tail :: LooseTape(p, v, tail))
  }

  /**
   * yeptris_parse_json_tape through its two walks: it takes the clean texts, and of printable ASCII every loose text;
   * the columns are DOC and the preorder rows of the tree, whatever the reading, and they are the tokens of the bytes.
   */
  method ParseTape(p: seq<bv8>) returns (ok: bool, w: JsonTape.Walker)
    ensures fresh(w) && w.p == p && !w.packed && w.Sized()
    ensures ok <==> EntryTakes(p)
    ensures ok ==> forall v, tail :: LooseTape(p, v, tail) ==> w.Rows() == [Rec(Doc, 0, 0)] + TreeRows(v, Lead(p, 0), 1)
    ensures ok ==> JsonLinks.Linked(w.Rows(), 0)
    ensures ok ==> JsonTokens.RowsSpell(p, Lead(p, 0), w.Rows()) && forall k :: 0 <= k < w.count ==> JsonTokens.KindTold(p, w.Rows()[k])
  {
    hide Run, RefRun, Walk, JsonLinks.TapeText, LooseTape, Recs, JsonLinks.Linked, Lead, RefWalk, Ungated, JsonTokens.RowsSpell, JsonTokens.KindTold;
    w := new JsonTape.Walker(p, false);
    var off := JsonScan.SkipLead(p, 0);
    ok := false;
    TapeFirst(p);
    if off < |p| && (p[off] == 0x7B || p[off] == 0x5B) {
      EntryExactly(p, off);
      ok := w.Columns(off);
      if ok {
        return;
      }
      var gated := GateScan(p);
      if !gated {
        w := new JsonTape.Walker(p, false);
        ok := JsonReference.TapeWalk(w, off, true);
      }
    }
  }

  lemma TapeFirst(p: seq<bv8>)
    ensures EntryTakes(p) ==> Lead(p, 0) < |p| && (p[Lead(p, 0)] == 0x7B || p[Lead(p, 0)] == 0x5B)
  {
    hide JsonLinks.TapeText, LooseText, Lead;
    JsonLinks.TapeFirst(p);
    forall v, tail | LooseTape(p, v, tail) ensures Lead(p, 0) < |p| && (p[Lead(p, 0)] == 0x7B || p[Lead(p, 0)] == 0x5B) {
      JsonLooseComplete.Accepts(p, Lead(p, 0), v, tail, true);
    }
  }

  /** The two walks, and the rows of either. */
  lemma EntryExactly(p: seq<bv8>, off: nat)
    requires off == Lead(p, 0) < |p| && (p[off] == 0x7B || p[off] == 0x5B)
    ensures EntryTakes(p) <==> Walk(p, off).Accept? || (Ungated(p) && RefWalk(p, off, true).Taken?)
    ensures forall v, tail :: LooseTape(p, v, tail) ==>
      RefWalk(p, off, true).Taken? && RefWalk(p, off, true).recs == [Rec(Doc, 0, 0)] + TreeRows(v, off, 1)
    ensures Walk(p, off).Accept? ==> RefWalk(p, off, true) == Taken(Walk(p, off).recs, 0)
    ensures RefWalk(p, off, true).Taken? ==>
      && JsonLinks.Linked(RefWalk(p, off, true).recs, 0) && JsonTokens.RowsSpell(p, off, RefWalk(p, off, true).recs)
      && forall k :: 0 <= k < |RefWalk(p, off, true).recs| ==> JsonTokens.KindTold(p, RefWalk(p, off, true).recs[k])
  {
    hide RefRun, Run, RefWalk, Walk, JsonLinks.TapeText, LooseText, Lead, TreeRows, JsonLinks.Linked, JsonTokens.RowsSpell, JsonTokens.KindTold;
    JsonLinks.TapeExactly(p, off);
    JsonLooseSound.TakesExactly(p, off, true);
    WalksAgreeExactly(p, off);
    forall v, tail | LooseTape(p, v, tail)
      ensures RefWalk(p, off, true).Taken? && RefWalk(p, off, true).recs == [Rec(Doc, 0, 0)] + TreeRows(v, off, 1)
    {
      JsonLooseComplete.Accepts(p, off, v, tail, true);
    }
    if RefWalk(p, off, true).Taken? {
      JsonTokens.LeadFree(p);
      JsonTokens.WalksSpell(p, off);
      JsonTokens.RowsTold(p, off, RefWalk(p, off, true).recs);
      var v, tail :| LooseText(p[off..], v, tail, true);
      assert LooseTape(p, v, tail);
      JsonLinks.OneLinked(Rec(Doc, 0, 0), 0);
      TreeLinked(v, off, 1);
      JsonLinks.LinkedJoin([Rec(Doc, 0, 0)], TreeRows(v, off, 1), 0);
    }
  }

  /**
   * The header promises strict JSON. What the entry takes is strict exactly when no reading of it has a literal alone
   * in an object.
   */
  lemma TakenIsStrictExactly(p: seq<bv8>)
    requires EntryTakes(p)
    ensures (exists v, tail :: StrictTape(p, v, tail)) <==> forall v, tail :: LooseTape(p, v, tail) ==> LoneWords(v) == 0
  {
    hide RefRun, Run, RefWalk, Walk, JsonLinks.TapeText, LooseText, StrictText, Lead, LoneWords, Recs;
    var off := Lead(p, 0);
    TapeFirst(p);
    EntryExactly(p, off);
    StrictExactly(p, off);
    NoLoneExactly(p, off);
    JsonLooseSound.TakesExactly(p, off, true);
    forall v, tail ensures StrictTape(p, v, tail) <==> StrictText(p[off..], v, tail) {}
    forall v, tail ensures LooseTape(p, v, tail) <==> LooseText(p[off..], v, tail, true) {}
  }

  /** `{true}` is printable, taken, and no strict text. */
  lemma EntryTakesLoneTrue()
    ensures EntryTakes(LONE_TRUE) && !exists v, tail :: StrictTape(LONE_TRUE, v, tail)
  {
    hide RefRun, Run, LooseText, StrictText, JsonLinks.TapeText;
    LoneTree();
    assert Lead(LONE_TRUE, 0) == 0 && LONE_TRUE[0..] == LONE_TRUE;
    assert LooseTape(LONE_TRUE, LONE_TREE, []);
    TakenIsStrictExactly(LONE_TRUE);
  }
}
