/** The links of accepted columns, and the record route that runs the walk. */
module JsonLinks {
  import opened JsonGrammar
  import opened JsonLexer
  import opened JsonWalk
  import JsonScan
  import JsonSound
  import JsonTape
  import opened JsonRecord
  import opened JsonKeys
  import JsonLongKey

  /** The opener at x points at a closer in these rows that points back. */
  predicate OpenOk(r: seq<Rec>, base: nat, x: nat)
    requires x < |r|
  {
    Opens(r[x].kind) ==> base + x < r[x].off < base + |r| && r[r[x].off - base] == Rec(Close, base + x, 0)
  }

  predicate CloseOk(r: seq<Rec>, base: nat, x: nat)
    requires x < |r|
  {
    r[x].kind == Close ==> base <= r[x].off < base + x && Opens(r[r[x].off - base].kind) && r[r[x].off - base].off == base + x
  }

  /** A container opened inside another closes inside it. */
  predicate NestOk(r: seq<Rec>, base: nat, x: nat, y: nat)
    requires x < |r| && y < |r|
  {
    x < y && Opens(r[x].kind) && Opens(r[y].kind) && base + y < r[x].off ==> r[y].off < r[x].off
  }

  /** Rows base onwards: openers and closers point at each other, inside these rows, and never cross. */
  predicate Linked(r: seq<Rec>, base: nat) {
    && (forall x :: 0 <= x < |r| ==> OpenOk(r, base, x) && CloseOk(r, base, x))
    && (forall x, y :: 0 <= x < |r| && 0 <= y < |r| ==> NestOk(r, base, x, y))
  }

  lemma OpenShift(a: seq<Rec>, b: seq<Rec>, c: seq<Rec>, base: nat, x: nat)
    requires x < |b| && OpenOk(b, base + |a|, x) && CloseOk(b, base + |a|, x)
    ensures OpenOk(a + b + c, base, |a| + x) && CloseOk(a + b + c, base, |a| + x)
  {
    var r := a + b + c;
    assert r[|a| + x] == b[x];
    if Opens(b[x].kind) { assert r[b[x].off - base] == b[b[x].off - base - |a|]; }
    if b[x].kind == Close { assert r[b[x].off - base] == b[b[x].off - base - |a|]; }
  }

  lemma NestShift(a: seq<Rec>, b: seq<Rec>, c: seq<Rec>, base: nat, x: nat, y: nat)
    requires x < |b| && y < |b| && NestOk(b, base + |a|, x, y)
    ensures NestOk(a + b + c, base, |a| + x, |a| + y)
  {
    assert (a + b + c)[|a| + x] == b[x] && (a + b + c)[|a| + y] == b[y];
  }

  lemma LinkedJoin(a: seq<Rec>, b: seq<Rec>, base: nat)
    requires Linked(a, base) && Linked(b, base + |a|)
    ensures Linked(a + b, base)
  {
    hide OpenOk, CloseOk, NestOk;
    var r := a + b;
    assert r == [] + a + b && r == a + b + [];
    forall x | 0 <= x < |r| ensures OpenOk(r, base, x) && CloseOk(r, base, x) {
      if x < |a| { OpenShift([], a, b, base, x); } else { OpenShift(a, b, [], base, x - |a|); }
    }
    forall x, y | 0 <= x < |r| && 0 <= y < |r| ensures NestOk(r, base, x, y) {
      if x < |a| && y < |a| { NestShift([], a, b, base, x, y); }
      else if x >= |a| && y >= |a| { NestShift(a, b, [], base, x - |a|, y - |a|); }
      else { NestApart(a, b, base, x, y); }
    }
  }

  /** Containers of different parts are disjoint. */
  lemma NestApart(a: seq<Rec>, b: seq<Rec>, base: nat, x: nat, y: nat)
    requires x < |a + b| && y < |a + b| && (x < |a|) != (y < |a|) && (x < |a| ==> OpenOk(a, base, x))
    ensures NestOk(a + b, base, x, y)
  {}

  lemma BracketLinked(isMap: bool, inner: seq<Rec>, base: nat)
    requires Linked(inner, base + 1)
    ensures Linked(Bracketed(isMap, inner, base), base)
  {
    hide OpenOk, CloseOk, NestOk;
    var r, open, close := Bracketed(isMap, inner, base), [Rec(OpenKind(isMap), base + 1 + |inner|, 0)], [Rec(Close, base, 0)];
    assert r == open + inner + close;
    forall x | 0 <= x < |r| ensures OpenOk(r, base, x) && CloseOk(r, base, x) {
      if 0 < x < |r| - 1 { OpenShift(open, inner, close, base, x - 1); } else { BracketEnds(isMap, inner, base, x); }
    }
    forall x, y | 0 <= x < |r| && 0 <= y < |r| ensures NestOk(r, base, x, y) {
      if 0 < x < |r| - 1 && 0 < y < |r| - 1 { NestShift(open, inner, close, base, x - 1, y - 1); }
      else {
        if 0 < y < |r| - 1 { assert OpenOk(inner, base + 1, y - 1); }
        BracketNest(isMap, inner, base, x, y);
      }
    }
  }

  lemma BracketEnds(isMap: bool, inner: seq<Rec>, base: nat, x: nat)
    requires x == 0 || x == |inner| + 1
    ensures var r := Bracketed(isMap, inner, base); OpenOk(r, base, x) && CloseOk(r, base, x)
  {}

  lemma BracketNest(isMap: bool, inner: seq<Rec>, base: nat, x: nat, y: nat)
    requires x <= |inner| + 1 && y <= |inner| + 1 && (x == 0 || x == |inner| + 1 || y == 0 || y == |inner| + 1)
    requires 0 < y <= |inner| ==> OpenOk(inner, base + 1, y - 1)
    ensures NestOk(Bracketed(isMap, inner, base), base, x, y)
  {
    var r := Bracketed(isMap, inner, base);
    if 0 < y <= |inner| { assert r[y] == inner[y - 1]; }
  }

  lemma {:induction false} RecsLinked(v: Json, at: nat, base: nat)
    ensures Linked(Recs(v, at, base), base)
    decreases v, 0
  {
    hide Linked;
    match v
    case JString(content) => OneLinked(Rec(Str, at + 1, |content|), base);
    case JNumber(text) => OneLinked(Rec(NumKind(text), at, |text|), base);
    case JLiteral(word) => OneLinked(Rec(WordKind(word), at, |WordText(word)|), base);
    case JArray(gap, es) =>
      ElementsLinked(es, at + 1, base + 1);
      BracketLinked(false, ElementRecs(es, at + 1, base + 1), base);
    case JObject(gap, ms) =>
      MembersLinked(ms, at + 1, base + 1);
      BracketLinked(true, MemberRecs(ms, at + 1, base + 1), base);
  }

  lemma OneLinked(r: Rec, base: nat)
    requires !Opens(r.kind) && r.kind != Close
    ensures Linked([r], base)
  {}

  lemma NoneLinked(base: nat)
    ensures Linked([], base)
  {}

  lemma {:induction false} ElementsLinked(es: seq<Element>, at: nat, base: nat)
    ensures Linked(ElementRecs(es, at, base), base)
    decreases es, 0
  {
    hide Linked, Recs, ElementText;
    if es == [] {
      NoneLinked(base);
    } else {
      var first := Recs(es[0].value, at + |es[0].before|, base);
      RecsLinked(es[0].value, at + |es[0].before|, base);
      ElementsLinked(es[1..], at + |ElementText(es[0])| + 1, base + |first|);
      LinkedJoin(first, ElementRecs(es[1..], at + |ElementText(es[0])| + 1, base + |first|), base);
    }
  }

  lemma {:induction false} MembersLinked(ms: seq<Member>, at: nat, base: nat)
    ensures Linked(MemberRecs(ms, at, base), base)
    decreases ms, 0
  {
    hide Linked, Recs, MemberText;
    if ms == [] {
      NoneLinked(base);
    } else {
      var m := ms[0];
      var key, value := [Rec(Str, at + |m.before| + 1, |m.key|)], Recs(m.value, at + ValueOffset(m), base + 1);
      OneLinked(key[0], base);
      RecsLinked(m.value, at + ValueOffset(m), base + 1);
      LinkedJoin(key, value, base);
      MembersLinked(ms[1..], at + |MemberText(m)| + 1, base + |key + value|);
      LinkedJoin(key + value, MemberRecs(ms[1..], at + |MemberText(m)| + 1, base + |key + value|), base);
    }
  }

  /** In accepted columns the offsets of openers and closers are mutually inverse and properly nested. */
  lemma AcceptedLinked(p: seq<bv8>, open: nat)
    requires open < |p| && (p[open] == 0x7B || p[open] == 0x5B) && Walk(p, open).Accept?
    ensures Linked(Walk(p, open).recs, 0)
  {
    hide Linked, Run, Recs;
    var v, tail := JsonSound.Accepted(p, open);
    JsonSound.AcceptedRows(p, open, v, tail);
    OneLinked(Rec(Doc, 0, 0), 0);
    RecsLinked(v, open, 1);
    LinkedJoin([Rec(Doc, 0, 0)], Recs(v, open, 1), 0);
  }

  ghost predicate TapeText(p: seq<bv8>, v: Json, tail: seq<bv8>) {
    JsonSound.CleanText(p[Lead(p, 0)..], v, tail)
  }

  /**
   * The fast route of yeptris_parse_json up to its document: the walk into words, the long-key verdict, and the
   * columns out of the words. It accepts what the columns walk accepts; the columns are DOC and the preorder rows of
   * the tree exactly when no token is 2^24 bytes or longer, and then the verdict is that some member of the tree has
   * a name past the limit.
   */
  method ParseRecords(p: seq<bv8>) returns (ok: bool, long: bool, w: JsonTape.Walker)
    ensures fresh(w) && w.p == p && w.Sized()
    ensures ok <==> exists v, tail :: TapeText(p, v, tail)
    ensures ok ==> forall v, tail :: TapeText(p, v, tail) ==>
      var rows := [Rec(Doc, 0, 0)] + Recs(v, Lead(p, 0), 1);
      && w.Rows() == AllThrough(rows) && (w.Rows() == rows <==> Short(rows))
      && (Short(rows) ==> (long <==> JsonLongKey.LongMember(v)))
  {
    hide Run, JsonSound.CleanText, Recs, LongKey, Stops, CleanSpans, AllThrough, Short;
    w := new JsonTape.Walker(p, true);
    var off := JsonScan.SkipLead(p, 0);
    ok, long := false, false;
    TapeFirst(p);
    if off < |p| && (p[off] == 0x7B || p[off] == 0x5B) {
      TapeExactly(p, off);
      ok, long := w.FusedColumns(off);
      forall v, tail | TapeText(p, v, tail)
        ensures Walk(p, off) == Accept([Rec(Doc, 0, 0)] + Recs(v, off, 1))
        ensures ok ==> Short([Rec(Doc, 0, 0)] + Recs(v, off, 1)) ==> (long <==> JsonLongKey.LongMember(v))
      {
        JsonSound.AcceptedRows(p, off, v, tail);
        if ok && Short([Rec(Doc, 0, 0)] + Recs(v, off, 1)) { JsonLongKey.LongKeyIsMember(p, v, off); }
      }
    }
  }

  lemma TapeFirst(p: seq<bv8>)
    ensures (exists v, tail :: TapeText(p, v, tail)) ==>
      Lead(p, 0) < |p| && (p[Lead(p, 0)] == 0x7B || p[Lead(p, 0)] == 0x5B)
  {
    hide JsonSound.CleanText;
    forall v, tail | TapeText(p, v, tail) ensures Lead(p, 0) < |p| && (p[Lead(p, 0)] == 0x7B || p[Lead(p, 0)] == 0x5B) {
      TextFirst(p, Lead(p, 0), v, tail);
    }
  }

  lemma TapeExactly(p: seq<bv8>, off: nat)
    requires off == Lead(p, 0) < |p| && (p[off] == 0x7B || p[off] == 0x5B)
    ensures Walk(p, off).Accept? <==> exists v, tail :: TapeText(p, v, tail)
  {
    hide Run, JsonSound.CleanText;
    JsonSound.AcceptsExactly(p, off);
    if Walk(p, off).Accept? {
      var v, tail :| JsonSound.CleanText(p[off..], v, tail);
      assert TapeText(p, v, tail);
    }
  }

  lemma TextFirst(p: seq<bv8>, off: nat, v: Json, tail: seq<bv8>)
    requires off <= |p| && JsonSound.CleanText(p[off..], v, tail)
    ensures off < |p| && (p[off] == 0x7B || p[off] == 0x5B)
  {
    hide Clean, Within, WellFormed;
    FirstByte(v);
    assert p[off..][0] == Text(v)[0];
  }
}
