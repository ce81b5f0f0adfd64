/** The long-key verdict in terms of the text: some object, at any depth, has a member name past the limit. */
module JsonLongKey {
  import opened Wrappers
  import opened JsonGrammar
  import opened JsonLexer
  import opened JsonWalk
  import opened JsonRecord
  import opened JsonKeys

  predicate LongName(key: seq<bv8>) { |key| > 1022 }

  /** Some member of an object in v has a long name. */
  predicate LongMember(v: Json)
    decreases v, 0
  {
    match v
    case JArray(_, es) => LongInElements(es)
    case JObject(_, ms) => LongInMembers(ms)
    case _ => false
  }

  predicate LongInElements(es: seq<Element>)
    decreases es, 0
  {
    es != [] && (LongMember(es[0].value) || LongInElements(es[1..]))
  }

  predicate LongInMembers(ms: seq<Member>)
    decreases ms, 0
  {
    ms != [] && (LongName(ms[0].key) || LongMember(ms[0].value) || LongInMembers(ms[1..]))
  }

  // ---- rows read from the front -------------------------------------------------------------

  predicate Big(r: Rec) { r.kind == Str && r.len + QUOTES > KEY_LIMIT }

  function Fold(st: seq<Slot>, rows: seq<Rec>): (r: seq<Slot>)
    requires st != []
    ensures r != []
    decreases |rows|
  {
    if rows == [] then st else Fold(Turn(st, rows[0].kind), rows[1..])
  }

  /** Among the rows behind st some key is big. */
  predicate Finds(st: seq<Slot>, rows: seq<Rec>)
    requires st != []
    decreases |rows|
  {
    rows != [] && ((AtKey(st, rows[0].kind) && Big(rows[0])) || Finds(Turn(st, rows[0].kind), rows[1..]))
  }

  lemma {:induction false} Joined(st: seq<Slot>, a: seq<Rec>, b: seq<Rec>)
    requires st != []
    ensures Fold(st, a + b) == Fold(Fold(st, a), b)
    ensures Finds(st, a + b) <==> Finds(st, a) || Finds(Fold(st, a), b)
    decreases |a|
  {
    hide Turn, AtKey, Big;
    if a == [] {
      assert a + b == b;
    } else {
      assert (a + b)[0] == a[0] && (a + b)[1..] == a[1..] + b;
      Joined(Turn(st, a[0].kind), a[1..], b);
    }
  }

  lemma OneRow(st: seq<Slot>, r: Rec)
    requires st != []
    ensures Fold(st, [r]) == Turn(st, r.kind) && (Finds(st, [r]) <==> AtKey(st, r.kind) && Big(r))
  {
    hide Turn, AtKey, Big;
    assert [r][1..] == [];
  }

  /** A value may stand here: not in a key place. */
  predicate ValuePlace(st: seq<Slot>) { st != [] && (st[|st| - 1].isMap ==> st[|st| - 1].valueNext) }

  lemma Bracket(st: seq<Slot>, isMap: bool, inner: seq<Rec>, base: nat)
    requires ValuePlace(st)
    requires Fold(Toggle(st) + [Slot(isMap, false)], inner) == Toggle(st) + [Slot(isMap, false)]
    ensures Fold(st, Bracketed(isMap, inner, base)) == Toggle(st)
    ensures Finds(st, Bracketed(isMap, inner, base)) <==> Finds(Toggle(st) + [Slot(isMap, false)], inner)
  {
    hide Fold, Finds;
    var open, close, st1 := Rec(OpenKind(isMap), base + 1 + |inner|, 0), Rec(Close, base, 0), Toggle(st) + [Slot(isMap, false)];
    assert Bracketed(isMap, inner, base) == [open] + inner + [close];
    Joined(st, [open] + inner, [close]);
    Joined(st, [open], inner);
    OneRow(st, open);
    OneRow(st1, close);
  }

  lemma {:induction false} ValueKeys(v: Json, at: nat, base: nat, st: seq<Slot>)
    requires ValuePlace(st)
    ensures Fold(st, Recs(v, at, base)) == Toggle(st) && (Finds(st, Recs(v, at, base)) <==> LongMember(v))
    decreases v, 1
  {
    hide Fold, Finds, ElementRecs, MemberRecs, Bracketed;
    match v
    case JString(content) => OneRow(st, Rec(Str, at + 1, |content|));
    case JNumber(text) => OneRow(st, Rec(NumKind(text), at, |text|));
    case JLiteral(word) => OneRow(st, Rec(WordKind(word), at, |WordText(word)|));
    case JArray(gap, es) =>
      ElementsKeys(es, at + 1, base + 1, Toggle(st) + [Slot(false, false)]);
      Bracket(st, false, ElementRecs(es, at + 1, base + 1), base);
    case JObject(gap, ms) =>
      MembersKeys(ms, at + 1, base + 1, Toggle(st) + [Slot(true, false)]);
      Bracket(st, true, MemberRecs(ms, at + 1, base + 1), base);
  }

  lemma Nothing(st: seq<Slot>)
    requires st != []
    ensures Fold(st, []) == st && !Finds(st, [])
  {
  }

  lemma {:induction false} ElementsKeys(es: seq<Element>, at: nat, base: nat, st: seq<Slot>)
    requires st != [] && !st[|st| - 1].isMap
    ensures Fold(st, ElementRecs(es, at, base)) == st && (Finds(st, ElementRecs(es, at, base)) <==> LongInElements(es))
    decreases es, 1
  {
    hide Fold, Finds, Recs, LongMember, ElementText;
    Nothing(st);
    if es != [] {
      var first := Recs(es[0].value, at + |es[0].before|, base);
      ValueKeys(es[0].value, at + |es[0].before|, base, st);
      ElementsKeys(es[1..], at + |ElementText(es[0])| + 1, base + |first|, st);
      Joined(st, first, ElementRecs(es[1..], at + |ElementText(es[0])| + 1, base + |first|));
    }
  }

  lemma {:induction false} MembersKeys(ms: seq<Member>, at: nat, base: nat, st: seq<Slot>)
    requires st != [] && st[|st| - 1] == Slot(true, false)
    ensures Fold(st, MemberRecs(ms, at, base)) == st && (Finds(st, MemberRecs(ms, at, base)) <==> LongInMembers(ms))
    decreases ms, 1
  {
    hide Fold, Finds, Recs, LongMember, MemberText;
    Nothing(st);
    if ms != [] {
      var m := ms[0];
      var key, value := Rec(Str, at + |m.before| + 1, |m.key|), Recs(m.value, at + ValueOffset(m), base + 1);
      var inside := Toggle(st);
      OneRow(st, key);
      ValueKeys(m.value, at + ValueOffset(m), base + 1, inside);
      assert Toggle(inside) == st;
      Joined(st, [key], value);
      MembersKeys(ms[1..], at + |MemberText(m)| + 1, base + |[key] + value|, st);
      Joined(st, [key] + value, MemberRecs(ms[1..], at + |MemberText(m)| + 1, base + |[key] + value|));
    }
  }

  // ---- rows read from the back -----------------------------------------------------------------

  predicate BigKeyAt(rows: seq<Rec>, k: nat) { KeyRow(rows, k) && Big(rows[k]) }

  lemma {:induction false} FindsFrom(rows: seq<Rec>, k: nat)
    requires 1 <= k <= |rows|
    ensures Finds(Slots(rows[..k]), rows[k..]) <==> exists j :: k <= j < |rows| && BigKeyAt(rows, j)
    decreases |rows| - k
  {
    hide Slots, Turn, AtKey, Big;
    if k < |rows| {
      FindsFrom(rows, k + 1);
      SlotsNext(rows, k);
      assert rows[k..][0] == rows[k] && rows[k..][1..] == rows[k + 1..];
      var st := Slots(rows[..k]);
      assert Finds(st, rows[k..]) <==> (AtKey(st, rows[k].kind) && Big(rows[k])) || Finds(Slots(rows[..k + 1]), rows[k + 1..]);
      assert BigKeyAt(rows, k) <==> AtKey(st, rows[k].kind) && Big(rows[k]);
    }
  }

  lemma CleanTooLong(p: seq<bv8>, r: Rec)
    requires r.len < TWO_24 && (r.kind == Str ==> CleanSpan(p, r))
    ensures TooLong(p, r) <==> Big(r)
  {
    ThroughExactly(r);
    if r.kind == Str {
      CleanIsAscii(p, r);
      if Candidate(r) { AsciiTooLong(p, r); }
    }
  }

  /** On the rows of a text the verdict is that some member has a long name. */
  lemma LongKeyIsMember(p: seq<bv8>, v: Json, open: nat)
    requires CleanSpans(p, [Rec(Doc, 0, 0)] + Recs(v, open, 1)) && Short([Rec(Doc, 0, 0)] + Recs(v, open, 1))
    ensures LongKey(p, [Rec(Doc, 0, 0)] + Recs(v, open, 1)) <==> LongMember(v)
  {
    hide Recs, Slots, KeyRow, Big, TooLong, CleanSpan, Fold, Finds;
    var rows := [Rec(Doc, 0, 0)] + Recs(v, open, 1);
    forall k | 0 <= k < |rows| ensures LongKeyAt(p, rows, k) <==> BigKeyAt(rows, k) { CleanTooLong(p, rows[k]); }
    FindsFrom(rows, 1);
    NoStopFirst(p, rows);
    assert rows[1..] == Recs(v, open, 1);
    ValueKeys(v, open, 1, [BASE]);
    NoKeyFirst(rows);
    if LongKey(p, rows) {
      var k :| 0 <= k < |rows| && LongKeyAt(p, rows, k);
      assert BigKeyAt(rows, k) && k != 0;
    }
    if LongMember(v) {
      var k :| 1 <= k < |rows| && BigKeyAt(rows, k);
      assert LongKeyAt(p, rows, k);
    }
  }

  lemma NoKeyFirst(rows: seq<Rec>)
    ensures !KeyRow(rows, 0)
  {
  }
}
