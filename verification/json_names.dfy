/**
 * The two long-key verdicts in terms of a text on any bytes: the one noted while the tape is written looks at the first
 * name over the limit in bytes, the one found by walking the tape again at every name.
 */
module JsonNames {
  import opened Wrappers
  import opened JsonGrammar
  import opened JsonLexer
  import opened JsonWalk
  import opened JsonRecord
  import opened JsonKeys
  import opened JsonLongKey
  import opened JsonComplete

  // ---- the names of a text ----------------------------------------------------------

  /** The member names of a value, in the order of the text. */
  function Names(v: Json): seq<seq<bv8>>
    decreases v, 0
  {
    match v
    case JArray(_, es) => ElementNames(es)
    case JObject(_, ms) => MemberNames(ms)
    case _ => []
  }

  function ElementNames(es: seq<Element>): seq<seq<bv8>>
    decreases es, 0
  {
    if es == [] then [] else Names(es[0].value) + ElementNames(es[1..])
  }

  function MemberNames(ms: seq<Member>): seq<seq<bv8>>
    decreases ms, 0
  {
    if ms == [] then [] else [ms[0].key] + Names(ms[0].value) + MemberNames(ms[1..])
  }

  /** Over the limit in bytes. */
  predicate Wide(name: seq<bv8>) { |name| > 1022 }

  /** Over the limit in characters. */
  predicate Over(name: seq<bv8>) { Chars(name) > 1022 }

  /** Name j is over the limit in bytes only, stands in front of every name that is over it in characters, and there is one. */
  predicate Hides(names: seq<seq<bv8>>, j: nat) {
    && j < |names| && Wide(names[j]) && (forall i :: 0 <= i <= j ==> !Over(names[i]))
    && exists k :: j < k < |names| && Over(names[k])
  }

  // ---- the key rows, from the front ----------------------------------------------------

  function KeysIn(st: seq<Slot>, rows: seq<Rec>): seq<Rec>
    requires st != []
    decreases |rows|
  {
    if rows == [] then []
    else (if AtKey(st, rows[0].kind) then [rows[0]] else []) + KeysIn(Turn(st, rows[0].kind), rows[1..])
  }

  lemma {:induction false} KeysJoin(st: seq<Slot>, a: seq<Rec>, b: seq<Rec>)
    requires st != []
    ensures KeysIn(st, a + b) == KeysIn(st, a) + KeysIn(Fold(st, a), b)
    decreases |a|
  {
    hide Turn, AtKey;
    if a == [] {
      assert a + b == b;
    } else {
      assert (a + b)[0] == a[0] && (a + b)[1..] == a[1..] + b;
      var next, first := Turn(st, a[0].kind), if AtKey(st, a[0].kind) then [a[0]] else [];
      KeysJoin(next, a[1..], b);
      RowsAssoc(first, KeysIn(next, a[1..]), KeysIn(Fold(next, a[1..]), b));
    }
  }

  lemma RowsAssoc(a: seq<Rec>, b: seq<Rec>, c: seq<Rec>)
    ensures a + (b + c) == a + b + c
  {}

  lemma OneKey(st: seq<Slot>, r: Rec)
    requires st != []
    ensures KeysIn(st, [r]) == (if AtKey(st, r.kind) then [r] else []) && Fold(st, [r]) == Turn(st, r.kind)
  {
    hide Turn, AtKey;
    assert [r][1..] == [];
  }

  lemma NoKeys(st: seq<Slot>)
    requires st != []
    ensures KeysIn(st, []) == [] && Fold(st, []) == st
  {}

  // ---- the keys of a tree's rows are its names --------------------------------------------

  /** Row r is the string whose content stands there. */
  predicate Spells(p: seq<bv8>, r: Rec, name: seq<bv8>) { r.kind == Str && r.len == |name| && Stands(p, r.off, name) }

  predicate AllSpell(p: seq<bv8>, keys: seq<Rec>, names: seq<seq<bv8>>) {
    |keys| == |names| && forall k :: 0 <= k < |keys| ==> Spells(p, keys[k], names[k])
  }

  lemma SpellJoin(p: seq<bv8>, a: seq<Rec>, b: seq<Rec>, x: seq<seq<bv8>>, y: seq<seq<bv8>>)
    requires AllSpell(p, a, x) && AllSpell(p, b, y)
    ensures AllSpell(p, a + b, x + y)
  {
    hide Spells;
  }

  /** A value's rows take its place, and their keys are its names. */
  ghost predicate NamesStand(p: seq<bv8>, st: seq<Slot>, rows: seq<Rec>, after: seq<Slot>, names: seq<seq<bv8>>)
    requires st != []
  {
    Fold(st, rows) == after && AllSpell(p, KeysIn(st, rows), names)
  }

  lemma Continues(p: seq<bv8>, st: seq<Slot>, a: seq<Rec>, mid: seq<Slot>, x: seq<seq<bv8>>, b: seq<Rec>, after: seq<Slot>, y: seq<seq<bv8>>)
    requires st != [] && mid != [] && NamesStand(p, st, a, mid, x) && NamesStand(p, mid, b, after, y)
    ensures NamesStand(p, st, a + b, after, x + y)
  {
    hide AllSpell, KeysIn, Fold;
    Joined(st, a, b);
    KeysJoin(st, a, b);
    SpellJoin(p, KeysIn(st, a), KeysIn(mid, b), x, y);
  }

  /** A scalar where a value may stand. */
  lemma ScalarNames(p: seq<bv8>, st: seq<Slot>, r: Rec)
    requires ValuePlace(st) && !Opens(r.kind) && r.kind != Close
    ensures NamesStand(p, st, [r], Toggle(st), [])
  {
    OneKey(st, r);
  }

  lemma KeyNames(p: seq<bv8>, st: seq<Slot>, r: Rec, name: seq<bv8>)
    requires st != [] && st[|st| - 1] == Slot(true, false) && Spells(p, r, name)
    ensures NamesStand(p, st, [r], Toggle(st), [name])
  {
    hide Spells;
    IsString(p, r, name);
    OneKey(st, r);
  }

  lemma IsString(p: seq<bv8>, r: Rec, name: seq<bv8>)
    requires Spells(p, r, name)
    ensures r.kind == Str
  {}

  lemma NothingNames(p: seq<bv8>, st: seq<Slot>)
    requires st != []
    ensures NamesStand(p, st, [], st, [])
  {
    NoKeys(st);
  }

  /** The slots inside a container that opens where a value may stand. */
  function Entered(st: seq<Slot>, isMap: bool): (r: seq<Slot>)
    requires st != []
    ensures r != []
  {
    Toggle(st) + [Slot(isMap, false)]
  }

  lemma BracketNames(p: seq<bv8>, st: seq<Slot>, isMap: bool, inner: seq<Rec>, base: nat, names: seq<seq<bv8>>)
    requires ValuePlace(st)
    requires NamesStand(p, Entered(st, isMap), inner, Entered(st, isMap), names)
    ensures NamesStand(p, st, Bracketed(isMap, inner, base), Toggle(st), names)
  {
    hide AllSpell;
    var open, close := Rec(OpenKind(isMap), base + 1 + |inner|, 0), Rec(Close, base, 0);
    var inside := Entered(st, isMap);
    assert Bracketed(isMap, inner, base) == ([open] + inner) + [close];
    hide Fold, KeysIn;
    OpenNames(p, st, isMap, open);
    CloseNames(p, Toggle(st), isMap, close);
    Continues(p, st, [open], inside, [], inner, inside, names);
    Continues(p, st, [open] + inner, inside, [] + names, [close], Toggle(st), []);
    assert [] + names + [] == names;
  }

  lemma OpenNames(p: seq<bv8>, st: seq<Slot>, isMap: bool, open: Rec)
    requires ValuePlace(st) && open.kind == OpenKind(isMap)
    ensures NamesStand(p, st, [open], Entered(st, isMap), [])
  {
    OneKey(st, open);
  }

  lemma CloseNames(p: seq<bv8>, st: seq<Slot>, isMap: bool, close: Rec)
    requires st != [] && close.kind == Close
    ensures NamesStand(p, st + [Slot(isMap, false)], [close], st, [])
  {
    var inside := st + [Slot(isMap, false)];
    OneKey(inside, close);
    assert inside[..|st|] == st;
  }

  lemma {:induction false} ValueNames(p: seq<bv8>, v: Json, at: nat, base: nat, st: seq<Slot>)
    requires ValuePlace(st) && Stands(p, at, Text(v)) && WellFormed(v)
    ensures NamesStand(p, st, Recs(v, at, base), Toggle(st), Names(v))
    decreases v, 1
  {
    hide NamesStand, ElementRecs, MemberRecs, ElementsText, MembersText, Bracketed, ElementNames, MemberNames, Stands, Number, Content, Blanks;
    match v
    case JString(content) => ScalarNames(p, st, Rec(Str, at + 1, |content|));
    case JNumber(text) => ScalarNames(p, st, Rec(NumKind(text), at, |text|));
    case JLiteral(word) => ScalarNames(p, st, Rec(WordKind(word), at, |WordText(word)|));
    case JArray(gap, es) =>
      InnerStands(p, at, v);
      ElementsNames(p, es, at + 1, base + 1, Entered(st, false));
      BracketNames(p, st, false, ElementRecs(es, at + 1, base + 1), base, ElementNames(es));
    case JObject(gap, ms) =>
      InnerStands(p, at, v);
      MembersNames(p, ms, at + 1, base + 1, Entered(st, true));
      BracketNames(p, st, true, MemberRecs(ms, at + 1, base + 1), base, MemberNames(ms));
  }

  lemma InnerStands(p: seq<bv8>, at: nat, v: Json)
    requires Stands(p, at, Text(v)) && WellFormed(v) && Container(v)
    ensures v.JArray? && v.elements != [] ==> Stands(p, at + 1, ElementsText(v.elements) + [0x5D])
    ensures v.JObject? && v.members != [] ==> Stands(p, at + 1, MembersText(v.members) + [0x7D])
  {
    hide Text, Stands, ElementsText, MembersText;
    ContainerText(v);
    StandsCut(p, at, [Opener(v.JObject?)], InnerText(v) + [Closer(v.JObject?)]);
    if v.JArray? && v.elements != [] { assert InnerText(v) == ElementsText(v.elements); }
    if v.JObject? && v.members != [] { assert InnerText(v) == MembersText(v.members); }
  }

  lemma {:induction false} ElementsNames(p: seq<bv8>, es: seq<Element>, at: nat, base: nat, st: seq<Slot>)
    requires st != [] && !st[|st| - 1].isMap && (es != [] ==> Stands(p, at, ElementsText(es) + [0x5D]))
    requires forall k :: 0 <= k < |es| ==> WellFormed(es[k].value)
    ensures NamesStand(p, st, ElementRecs(es, at, base), st, ElementNames(es))
    decreases es, 1
  {
    hide NamesStand, Recs, Names, ElementText, ElementsText, Text, Stands, WellFormed;
    NothingNames(p, st);
    if es != [] {
      var e := es[0];
      var first := Recs(e.value, at + |e.before|, base);
      ElementStands(p, at, es);
      ValueNames(p, e.value, at + |e.before|, base, st);
      ElementsNames(p, es[1..], at + |ElementText(e)| + 1, base + |first|, st);
      Continues(p, st, first, st, Names(e.value), ElementRecs(es[1..], at + |ElementText(e)| + 1, base + |first|), st, ElementNames(es[1..]));
    }
  }

  lemma ElementStands(p: seq<bv8>, at: nat, es: seq<Element>)
    requires es != [] && Stands(p, at, ElementsText(es) + [0x5D])
    ensures Stands(p, at + |es[0].before|, Text(es[0].value))
    ensures es[1..] != [] ==> Stands(p, at + |ElementText(es[0])| + 1, ElementsText(es[1..]) + [0x5D])
  {
    hide Text, Stands, ElementText, ElementsText, ElementsRest;
    var e := es[0];
    ElementsSplit(es);
    ElementsRestIs(es);
    ElementLength(e);
    StandsCut(p, at, e.before, Text(e.value) + (e.after + ElementsRest(es)));
    StandsCut(p, at + |e.before|, Text(e.value), e.after + ElementsRest(es));
    StandsCut(p, at + |e.before| + |Text(e.value)|, e.after, ElementsRest(es));
    if |es| > 1 { StandsCut(p, at + |ElementText(e)|, [0x2C], ElementsText(es[1..]) + [0x5D]); }
  }

  lemma {:induction false} MembersNames(p: seq<bv8>, ms: seq<Member>, at: nat, base: nat, st: seq<Slot>)
    requires st != [] && st[|st| - 1] == Slot(true, false) && (ms != [] ==> Stands(p, at, MembersText(ms) + [0x7D]))
    requires forall k :: 0 <= k < |ms| ==> WellFormed(ms[k].value)
    ensures NamesStand(p, st, MemberRecs(ms, at, base), st, MemberNames(ms))
    decreases ms, 1
  {
    hide NamesStand, Recs, Names, MemberText, MembersText, Text, Stands, WellFormed, ValueOffset;
    NothingNames(p, st);
    if ms != [] {
      var m := ms[0];
      var key, value := Rec(Str, at + |m.before| + 1, |m.key|), Recs(m.value, at + ValueOffset(m), base + 1);
      var inside, rest := Toggle(st), MemberRecs(ms[1..], at + |MemberText(m)| + 1, base + |[key] + value|);
      MemberStands(p, at, ms);
      KeyNames(p, st, key, m.key);
      ValueNames(p, m.value, at + ValueOffset(m), base + 1, inside);
      assert Toggle(inside) == st;
      MembersNames(p, ms[1..], at + |MemberText(m)| + 1, base + |[key] + value|, st);
      Continues(p, st, [key], inside, [m.key], value, st, Names(m.value));
      Continues(p, st, [key] + value, st, [m.key] + Names(m.value), rest, st, MemberNames(ms[1..]));
    }
  }

  /** A member's name and what stands behind its colon. */
  lemma HeadStands(p: seq<bv8>, at: nat, m: Member, rest: seq<bv8>)
    requires Stands(p, at, m.before + (StringText(m.key) + (m.colon + ([0x3A] + (m.space + rest)))))
    ensures Stands(p, at + |m.before| + 1, m.key) && Stands(p, at + ValueOffset(m), rest)
  {
    hide Stands, StringText;
    KeyLength(m.key);
    var a := at + |m.before|;
    var b := a + |m.key| + 2;
    StandsCut(p, at, m.before, StringText(m.key) + (m.colon + ([0x3A] + (m.space + rest))));
    StandsCut(p, a, StringText(m.key), m.colon + ([0x3A] + (m.space + rest)));
    KeyStands(p, a, m.key);
    StandsCut(p, b, m.colon, [0x3A] + (m.space + rest));
    StandsCut(p, b + |m.colon|, [0x3A], m.space + rest);
    StandsCut(p, b + |m.colon| + 1, m.space, rest);
  }

  lemma MemberStands(p: seq<bv8>, at: nat, ms: seq<Member>)
    requires ms != [] && Stands(p, at, MembersText(ms) + [0x7D])
    ensures var m := ms[0];
      && Spells(p, Rec(Str, at + |m.before| + 1, |m.key|), m.key) && Stands(p, at + ValueOffset(m), Text(m.value))
      && (ms[1..] != [] ==> Stands(p, at + |MemberText(m)| + 1, MembersText(ms[1..]) + [0x7D]))
  {
    hide Text, Stands, MemberText, MembersText, MembersRest, StringText, ValueOffset;
    var m := ms[0];
    MembersSplit(ms);
    MembersRestIs(ms);
    HeadStands(p, at, m, Text(m.value) + (m.after + MembersRest(ms)));
    var v := at + ValueOffset(m);
    StandsCut(p, v, Text(m.value), m.after + MembersRest(ms));
    StandsCut(p, v + |Text(m.value)|, m.after, MembersRest(ms));
    if |ms| > 1 { StandsCut(p, at + |MemberText(m)|, [0x2C], MembersText(ms[1..]) + [0x7D]); }
  }

  lemma KeyStands(p: seq<bv8>, i: nat, key: seq<bv8>)
    requires Stands(p, i, StringText(key))
    ensures Stands(p, i + 1, key)
  {
    hide Stands;
    assert StringText(key) == [QUOTE] + (key + [QUOTE]);
    StandsCut(p, i, [QUOTE], key + [QUOTE]);
    StandsCut(p, i + 1, key, [QUOTE]);
  }

  // ---- the two verdicts on a list of keys ----------------------------------------------------

  /** The first candidate decides. */
  function KeyVerdict(p: seq<bv8>, keys: seq<Rec>): Option<bool>
    decreases |keys|
  {
    if keys == [] then None
    else if KeyVerdict(p, keys[..|keys| - 1]).Some? then KeyVerdict(p, keys[..|keys| - 1])
    else if Candidate(keys[|keys| - 1]) then Some(TooLong(p, keys[|keys| - 1])) else None
  }

  /** The noted verdict is the one on the key rows in front of the last row, or on the last. */
  lemma {:induction false} VerdictOfKeys(p: seq<bv8>, rows: seq<Rec>)
    requires rows != []
    ensures Verdict(p, rows) == KeyVerdict(p, KeysIn([BASE], rows[1..])) && Slots(rows) == Fold([BASE], rows[1..])
    ensures LongKey(p, rows) <==> exists k :: 0 <= k < |KeysIn([BASE], rows[1..])| && TooLong(p, KeysIn([BASE], rows[1..])[k])
    decreases |rows|
  {
    hide Turn, AtKey, Candidate, TooLong, KeysIn, Fold;
    var n := |rows| - 1;
    if n == 0 {
      NoKeys([BASE]);
      OneRowVerdict(p, rows);
    } else {
      var front, r := rows[..n], rows[n];
      VerdictOfKeys(p, front);
      assert rows[1..] == front[1..] + [r];
      KeysJoin([BASE], front[1..], [r]);
      Joined([BASE], front[1..], [r]);
      OneKey(Fold([BASE], front[1..]), r);
      LastRow(p, rows);
      var keys := KeysIn([BASE], front[1..]);
      if AtKey(Slots(front), r.kind) {
        assert (keys + [r])[..|keys|] == keys;
        assert (keys + [r])[|keys|] == r;
        assert forall k :: 0 <= k < |keys| ==> (keys + [r])[k] == keys[k];
      } else {
        assert keys + [] == keys;
      }
    }
  }

  lemma OneRowVerdict(p: seq<bv8>, rows: seq<Rec>)
    requires |rows| == 1
    ensures Verdict(p, rows) == None && Slots(rows) == [BASE] && !LongKey(p, rows)
  {
    assert rows[..0] == [];
  }

  lemma LastRow(p: seq<bv8>, rows: seq<Rec>)
    requires |rows| > 1
    ensures var n := |rows| - 1;
      var front, r := rows[..n], rows[n];
      && Slots(rows) == Turn(Slots(front), r.kind)
      && (LongKey(p, rows) <==> LongKey(p, front) || (AtKey(Slots(front), r.kind) && TooLong(p, r)))
      && Verdict(p, rows) ==
         if Verdict(p, front).Some? then Verdict(p, front)
         else if AtKey(Slots(front), r.kind) && Candidate(r) then Some(TooLong(p, r)) else None
  {
    hide Slots, AtKey, Candidate, TooLong;
    var n := |rows| - 1;
    var front := rows[..n];
    SlotsNext(rows, n);
    assert rows[..n + 1] == rows;
    forall k | 0 <= k < n ensures LongKeyAt(p, front, k) <==> LongKeyAt(p, rows, k) { KeyRowPrefix(rows, n, k); }
    if LongKey(p, rows) {
      var k :| 0 <= k < |rows| && LongKeyAt(p, rows, k);
      if k < n { assert LongKeyAt(p, front, k); }
    }
    if LongKey(p, front) {
      var k :| 0 <= k < n && LongKeyAt(p, front, k);
      assert LongKeyAt(p, rows, k);
    }
    if AtKey(Slots(front), rows[n].kind) && TooLong(p, rows[n]) { assert LongKeyAt(p, rows, n); }
  }

  /** What the first wide name says. */
  function NotedName(names: seq<seq<bv8>>): Option<bool>
    decreases |names|
  {
    if names == [] then None
    else if NotedName(names[..|names| - 1]).Some? then NotedName(names[..|names| - 1])
    else if Wide(names[|names| - 1]) then Some(Over(names[|names| - 1])) else None
  }

  lemma SpellsLong(p: seq<bv8>, r: Rec, name: seq<bv8>)
    requires Spells(p, r, name) && r.len < TWO_24
    ensures (Candidate(r) <==> Wide(name)) && (TooLong(p, r) <==> Over(name))
  {
    ThroughExactly(r);
    StandsRange(p, r.off, name);
  }

  predicate AllShort(names: seq<seq<bv8>>) { forall k :: 0 <= k < |names| ==> |names[k]| < TWO_24 }

  lemma {:induction false} NotedNames(p: seq<bv8>, keys: seq<Rec>, names: seq<seq<bv8>>)
    requires AllSpell(p, keys, names) && AllShort(names)
    ensures KeyVerdict(p, keys) == NotedName(names)
    ensures (exists k :: 0 <= k < |keys| && TooLong(p, keys[k])) <==> exists k :: 0 <= k < |names| && Over(names[k])
    decreases |keys|
  {
    hide Candidate, TooLong, Wide, Over;
    forall k | 0 <= k < |keys| ensures (Candidate(keys[k]) <==> Wide(names[k])) && (TooLong(p, keys[k]) <==> Over(names[k])) {
      assert |names[k]| < TWO_24 && Spells(p, keys[k], names[k]);
      SpellsLong(p, keys[k], names[k]);
    }
    if keys != [] {
      var n := |keys| - 1;
      assert AllSpell(p, keys[..n], names[..n]);
      NotedNames(p, keys[..n], names[..n]);
    }
  }

  lemma OverIsWide(name: seq<bv8>)
    ensures Over(name) ==> Wide(name)
  {}

  /** The noted verdict is the first wide name's. */
  lemma {:induction false} NotedIsFirst(names: seq<seq<bv8>>)
    ensures NotedName(names).None? ==> forall k :: 0 <= k < |names| ==> !Wide(names[k])
    ensures NotedName(names).Some? ==>
      exists k :: 0 <= k < |names| && Wide(names[k]) && (forall i :: 0 <= i < k ==> !Wide(names[i])) && NotedName(names) == Some(Over(names[k]))
    decreases |names|
  {
    hide Wide, Over;
    if names != [] {
      var n := |names| - 1;
      NotedIsFirst(names[..n]);
      assert forall k :: 0 <= k < n ==> names[..n][k] == names[k];
    }
  }

  lemma NamesDiffer(names: seq<seq<bv8>>)
    ensures (NotedName(names) == Some(true)) != (exists k :: 0 <= k < |names| && Over(names[k])) <==> exists j :: Hides(names, j)
  {
    hide Wide, Over;
    NotedIsFirst(names);
    forall k | 0 <= k < |names| ensures Over(names[k]) ==> Wide(names[k]) { OverIsWide(names[k]); }
    if NotedName(names).Some? {
      var f :| 0 <= f < |names| && Wide(names[f]) && (forall i :: 0 <= i < f ==> !Wide(names[i])) && NotedName(names) == Some(Over(names[f]));
      if !Over(names[f]) && exists k :: 0 <= k < |names| && Over(names[k]) {
        var k :| 0 <= k < |names| && Over(names[k]);
        assert k > f;
        assert Hides(names, f);
      }
    }
  }

  // ---- on a text ---------------------------------------------------------------------------

  lemma NamesShort(p: seq<bv8>, v: Json, open: nat)
    requires Stands(p, open, Text(v)) && WellFormed(v) && Short([Rec(Doc, 0, 0)] + Recs(v, open, 1))
    ensures AllSpell(p, KeysIn([BASE], Recs(v, open, 1)), Names(v)) && AllShort(Names(v))
  {
    hide Recs, Names, Text, Stands, WellFormed, KeysIn;
    var rows := Recs(v, open, 1);
    ValueNames(p, v, open, 1, [BASE]);
    assert forall k :: 0 <= k < |rows| ==> rows[k] == ([Rec(Doc, 0, 0)] + rows)[k + 1];
    KeysAmong([BASE], rows);
    forall k | 0 <= k < |Names(v)| ensures |Names(v)[k]| < TWO_24 { assert Spells(p, KeysIn([BASE], rows)[k], Names(v)[k]); }
  }

  /** Key rows are among the rows. */
  lemma {:induction false} KeysAmong(st: seq<Slot>, rows: seq<Rec>)
    requires st != [] && Short(rows)
    ensures Short(KeysIn(st, rows))
    decreases |rows|
  {
    hide Turn, AtKey;
    if rows != [] { KeysAmong(Turn(st, rows[0].kind), rows[1..]); }
  }

  /**
   * On any text whose tokens are below 2^24 bytes: walking the tape again finds a long key exactly when some name is
   * over the limit in characters, and the verdict noted on the way differs from that exactly when a name that is over
   * it in bytes only stands in front of all of those.
   */
  lemma VerdictsDifferExactly(p: seq<bv8>, v: Json, tail: seq<bv8>, open: nat)
    requires open <= |p| && IsText(p[open..], v, tail) && Short([Rec(Doc, 0, 0)] + Recs(v, open, 1))
    ensures var rows := [Rec(Doc, 0, 0)] + Recs(v, open, 1);
      && (LongKey(p, rows) <==> exists k :: 0 <= k < |Names(v)| && Over(Names(v)[k]))
      && ((Verdict(p, rows) == Some(true)) != LongKey(p, rows) <==> exists j :: Hides(Names(v), j))
  {
    hide Recs, Names, Text, WellFormed, KeysIn, Slots, Fold, Over, Hides, TooLong, Short;
    var rows := [Rec(Doc, 0, 0)] + Recs(v, open, 1);
    TextAt(p, open, v, tail);
    NamesShort(p, v, open);
    assert rows[1..] == Recs(v, open, 1);
    VerdictOfKeys(p, rows);
    NotedNames(p, KeysIn([BASE], rows[1..]), Names(v));
    NamesDiffer(Names(v));
  }

  lemma TextAt(p: seq<bv8>, open: nat, v: Json, tail: seq<bv8>)
    requires open <= |p| && p[open..] == Text(v) + tail
    ensures Stands(p, open, Text(v))
  {
    hide Text;
    assert p[open..][..|Text(v)|] == Text(v);
  }

  /** Two-byte characters. */
  function TwoByte(n: nat): (s: seq<bv8>)
    ensures |s| == 2 * n
  {
    seq(2 * n, k => if k % 2 == 0 then 0xC3 else 0xA9)
  }

  lemma {:induction false} TwoByteChars(n: nat)
    ensures Chars(TwoByte(n)) == n
  {
    if n > 0 {
      var s := TwoByte(n);
      assert s[..2 * n - 1][..2 * n - 2] == TwoByte(n - 1);
      TwoByteChars(n - 1);
      assert !Starts(0xA9) && Starts(0xC3);
    }
  }
  /** No quote, no backslash and no control. */
  predicate Unescaped(s: seq<bv8>) { forall k :: 0 <= k < |s| ==> s[k] >= 0x20 && s[k] != QUOTE && s[k] != BACKSLASH }

  lemma {:induction false} UnescapedContent(s: seq<bv8>)
    requires Unescaped(s)
    ensures Content(s)
    decreases |s|
  {
    if s != [] { UnescapedContent(s[1..]); }
  }

  function Letters(n: nat): (s: seq<bv8>)
    ensures |s| == n
  {
    seq(n, _ => 0x61)
  }

  function NullMember(key: seq<bv8>): Member { Member([], key, [], [], JLiteral(Null), []) }

  /** An object of two names. */
  function TwoNames(a: seq<bv8>, b: seq<bv8>): Json { JObject([], [NullMember(a), NullMember(b)]) }

  lemma TwoNamesAre(a: seq<bv8>, b: seq<bv8>)
    ensures Names(TwoNames(a, b)) == [a, b]
  {
    var ms := TwoNames(a, b).members;
    assert ms[1..] == [ms[1]] && ms[1..][1..] == [];
    assert Names(JLiteral(Null)) == [] && MemberNames([]) == [];
    assert MemberNames(ms[1..]) == [b] + [] + [];
    assert MemberNames(ms) == [a] + [] + MemberNames(ms[1..]);
  }

  lemma TwoNamesOk(a: seq<bv8>, b: seq<bv8>)
    requires Unescaped(a) && Unescaped(b)
    ensures WellFormed(TwoNames(a, b))
  {
    UnescapedContent(a);
    UnescapedContent(b);
    hide Content, Unescaped;
    var ms := TwoNames(a, b).members;
    assert WellFormed(JLiteral(Null));
    forall k | 0 <= k < |ms| ensures WellFormed(ms[k].value) && Content(ms[k].key) {}
  }

  lemma TwoNamesShort(a: seq<bv8>, b: seq<bv8>)
    requires |a| < TWO_24 && |b| < TWO_24
    ensures Short([Rec(Doc, 0, 0)] + Recs(TwoNames(a, b), 0, 1))
  {
    hide MemberRecs, MemberText, NullMember, Short;
    var ms := TwoNames(a, b).members;
    NullShort(a, [ms[1]], 1, 2);
    NullShort(b, [], 1 + |MemberText(ms[0])| + 1, 4);
    assert ms == [ms[0]] + [ms[1]] && [ms[1]] == [ms[1]] + [];
    NoRows(1 + |MemberText(ms[0])| + 1 + |MemberText(ms[1])| + 1, 6);
    OuterShort(ms);
  }

  lemma NoRows(at: nat, base: nat)
    ensures Short(MemberRecs([], at, base))
  {}

  lemma OuterShort(ms: seq<Member>)
    requires Short(MemberRecs(ms, 1, 2))
    ensures Short([Rec(Doc, 0, 0)] + Recs(JObject([], ms), 0, 1))
  {
    hide MemberRecs;
  }

  lemma NullShort(key: seq<bv8>, rest: seq<Member>, at: nat, base: nat)
    requires |key| < TWO_24
    ensures var ms := [NullMember(key)] + rest;
      Short(MemberRecs(ms, at, base)) <==> Short(MemberRecs(rest, at + |MemberText(NullMember(key))| + 1, base + 2))
  {
    hide MemberText;
    var ms := [NullMember(key)] + rest;
    assert ms[0] == NullMember(key) && ms[1..] == rest;
    var more := MemberRecs(rest, at + |MemberText(NullMember(key))| + 1, base + 2);
    var first := [Rec(Str, at + 1, |key|), Rec(Nil, at + ValueOffset(ms[0]), 4)];
    assert MemberRecs(ms, at, base) == first + more;
    ShortJoin(first, more);
  }

  lemma ShortJoin(a: seq<Rec>, b: seq<Rec>)
    ensures Short(a + b) <==> Short(a) && Short(b)
  {
    if Short(a + b) {
      forall k | 0 <= k < |a| ensures a[k].len < TWO_24 { assert (a + b)[k] == a[k]; }
      forall k | 0 <= k < |b| ensures b[k].len < TWO_24 { assert (a + b)[|a| + k] == b[k]; }
    }
  }

  /**
   * The noted verdict can be wrong: with a first name of 600 characters in 1200 bytes and a second of 1100 letters it
   * says that no name is too long, and the second is.
   */
  lemma HiddenKey()
    ensures var v := TwoNames(TwoByte(600), Letters(1100));
      var rows := [Rec(Doc, 0, 0)] + Recs(v, 0, 1);
      IsText(Text(v), v, []) && Verdict(Text(v), rows) != Some(true) && LongKey(Text(v), rows)
  {
    hide Recs, Names, Text, WellFormed, Verdict, LongKey, Over, Short, TwoNames;
    var a, b := TwoByte(600), Letters(1100);
    var v := TwoNames(a, b);
    var p := Text(v);
    TwoNamesOk(a, b);
    TwoNamesShort(a, b);
    TwoNamesAre(a, b);
    FirstHides();
    assert p == p + [] && p[0..] == p;
    VerdictsDifferExactly(p, v, [], 0);
    assert Hides(Names(v), 0);
    assert Over(Names(v)[1]);
  }

  lemma FirstHides()
    ensures Hides([TwoByte(600), Letters(1100)], 0) && Over(Letters(1100))
  {
    TwoByteChars(600);
    AsciiChars(Letters(1100));
    assert Over([TwoByte(600), Letters(1100)][1]);
  }
}
