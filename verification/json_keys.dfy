/** Which rows of a tape are map keys, and whether one of them is too long to be written as a simple key. */
module JsonKeys {
  import opened Wrappers
  import opened JsonGrammar
  import opened JsonLexer
  import opened JsonWalk
  import opened JsonRecord

  /** YEP_MAX_SIMPLE_KEY, and the quotes the span leaves out. */
  const KEY_LIMIT: nat := 1024
  const QUOTES: nat := 2

  // ---- key slots ---------------------------------------------------------------------------

  /** One open container: whether it is a map, and whether a value comes next there. */
  datatype Slot = Slot(isMap: bool, valueNext: bool)

  /** Under the root. */
  const BASE: Slot := Slot(false, false)

  predicate Opens(k: Kind) { k.SeqOpen? || k.MapOpen? }

  /** The innermost map's slot changes sides. */
  function Toggle(st: seq<Slot>): (r: seq<Slot>)
    requires st != []
    ensures |r| == |st|
  {
    var t := |st| - 1;
    if st[t].isMap then st[t := Slot(true, !st[t].valueNext)] else st
  }

  /** The slots behind one more row. */
  function Turn(st: seq<Slot>, k: Kind): (r: seq<Slot>)
    requires st != []
    ensures r != []
  {
    if Opens(k) then Toggle(st) + [Slot(k.MapOpen?, false)]
    else if k.Close? then (if |st| > 1 then st[..|st| - 1] else st)
    else Toggle(st)
  }

  /** The slots behind the rows; the first row is the document's. */
  function Slots(rows: seq<Rec>): (r: seq<Slot>)
    ensures r != []
    decreases |rows|
  {
    if |rows| <= 1 then [BASE] else Turn(Slots(rows[..|rows| - 1]), rows[|rows| - 1].kind)
  }

  predicate AtKey(st: seq<Slot>, k: Kind)
    requires st != []
  {
    !Opens(k) && !k.Close? && st[|st| - 1].isMap && !st[|st| - 1].valueNext
  }

  /** Row k is a scalar in a map's key place. */
  predicate KeyRow(rows: seq<Rec>, k: nat) {
    0 < k < |rows| && AtKey(Slots(rows[..k]), rows[k].kind)
  }

  // ---- long keys ------------------------------------------------------------------------------

  /** A byte that starts a character. */
  predicate Starts(c: bv8) { c & 0xC0 != 0x80 }

  /** yep_simple_key_chars. */
  function Chars(s: seq<bv8>): (n: nat)
    ensures n <= |s|
  {
    if s == [] then 0 else Chars(s[..|s| - 1]) + (if Starts(s[|s| - 1]) then 1 else 0)
  }

  /** By its bytes the key may be over the limit. */
  predicate Candidate(r: Rec) { Through(r).kind == Str && Through(r).len + QUOTES > KEY_LIMIT }

  predicate InRange(p: seq<bv8>, r: Rec) { Through(r).off + Through(r).len <= |p| }

  /** By its characters it is. */
  predicate TooLong(p: seq<bv8>, r: Rec) {
    var u := Through(r);
    Candidate(r) && InRange(p, r) && Chars(p[u.off..u.off + u.len]) + QUOTES > KEY_LIMIT
  }

  predicate LongKeyAt(p: seq<bv8>, rows: seq<Rec>, k: nat) { KeyRow(rows, k) && TooLong(p, rows[k]) }

  /** What the walk over a finished tape looks for: some key is too long. */
  predicate LongKey(p: seq<bv8>, rows: seq<Rec>) { exists k :: 0 <= k < |rows| && LongKeyAt(p, rows, k) }

  /** What the walk that writes the tape notes: whether the first candidate is too long. */
  function Verdict(p: seq<bv8>, rows: seq<Rec>): Option<bool>
    decreases |rows|
  {
    if rows == [] then None
    else
      var k := |rows| - 1;
      var before := Verdict(p, rows[..k]);
      if before.Some? then before
      else if KeyRow(rows, k) && Candidate(rows[k]) then Some(TooLong(p, rows[k]))
      else None
  }

  /** Row k is the first candidate. */
  predicate FirstCandidate(rows: seq<Rec>, k: nat) {
    KeyRow(rows, k) && Candidate(rows[k]) && forall j :: 0 <= j < k && KeyRow(rows, j) ==> !Candidate(rows[j])
  }

  lemma KeyRowPrefix(rows: seq<Rec>, n: nat, k: nat)
    requires k < n <= |rows|
    ensures KeyRow(rows[..n], k) <==> KeyRow(rows, k)
  {
    assert rows[..n][..k] == rows[..k];
  }

  /** The verdict is the first candidate's. */
  lemma {:induction false} VerdictIsFirst(p: seq<bv8>, rows: seq<Rec>)
    ensures Verdict(p, rows).None? ==> forall k :: 0 <= k < |rows| && KeyRow(rows, k) ==> !Candidate(rows[k])
    ensures Verdict(p, rows).Some? ==>
      exists k :: 0 <= k < |rows| && FirstCandidate(rows, k) && Verdict(p, rows) == Some(TooLong(p, rows[k]))
    decreases |rows|
  {
    hide KeyRow, Candidate, TooLong;
    if rows != [] {
      var n := |rows| - 1;
      VerdictIsFirst(p, rows[..n]);
      forall k | 0 <= k < n ensures KeyRow(rows[..n], k) <==> KeyRow(rows, k) { KeyRowPrefix(rows, n, k); }
      if Verdict(p, rows[..n]).Some? {
        var k :| 0 <= k < n && FirstCandidate(rows[..n], k) && Verdict(p, rows[..n]) == Some(TooLong(p, rows[..n][k]));
        forall j | 0 <= j < k && KeyRow(rows, j) ensures !Candidate(rows[j]) {
          assert KeyRow(rows[..n], j) && rows[..n][j] == rows[j];
        }
        assert FirstCandidate(rows, k);
      } else {
        forall k | 0 <= k < n && KeyRow(rows, k) ensures !Candidate(rows[k]) {
          assert KeyRow(rows[..n], k) && rows[..n][k] == rows[k];
        }
        if KeyRow(rows, n) && Candidate(rows[n]) { assert FirstCandidate(rows, n); }
      }
    }
  }

  // ---- where every byte is a character -----------------------------------------------------------

  lemma {:induction false} AsciiChars(s: seq<bv8>)
    requires forall i :: 0 <= i < |s| ==> s[i] < 0x80
    ensures Chars(s) == |s|
  {
    if s != [] {
      AsciiChars(s[..|s| - 1]);
      AsciiStarts(s[|s| - 1]);
    }
  }

  lemma AsciiStarts(c: bv8)
    requires c < 0x80
    ensures Starts(c)
  {}

  predicate Ascii(p: seq<bv8>, rows: seq<Rec>) {
    forall k :: 0 <= k < |rows| && Candidate(rows[k]) ==> InRange(p, rows[k]) && AsciiSpan(p, rows[k])
  }

  predicate AsciiSpan(p: seq<bv8>, r: Rec) {
    var u := Through(r);
    forall i :: u.off <= i < u.off + u.len && i < |p| ==> p[i] < 0x80
  }

  /** Where the keys are ASCII the walks agree. */
  lemma AsciiAgrees(p: seq<bv8>, rows: seq<Rec>)
    requires Ascii(p, rows)
    ensures (Verdict(p, rows) == Some(true)) == LongKey(p, rows)
  {
    hide KeyRow, Candidate, Through;
    forall k | 0 <= k < |rows| && Candidate(rows[k]) ensures TooLong(p, rows[k]) { AsciiTooLong(p, rows[k]); }
    VerdictIsFirst(p, rows);
    if Verdict(p, rows).Some? {
      var k :| 0 <= k < |rows| && FirstCandidate(rows, k) && Verdict(p, rows) == Some(TooLong(p, rows[k]));
      assert LongKeyAt(p, rows, k);
    }
  }

  lemma AsciiTooLong(p: seq<bv8>, r: Rec)
    requires Candidate(r) && InRange(p, r) && AsciiSpan(p, r)
    ensures TooLong(p, r)
  {
    var u := Through(r);
    AsciiChars(p[u.off..u.off + u.len]);
  }

  // ---- the walk over a finished tape ---------------------------------------------------------

  /** The scratch stack holds 256 containers above the root. */
  const SCRATCH: nat := 256

  /** Row k opens a container deeper than the scratch stack. */
  predicate TooDeepAt(rows: seq<Rec>, k: nat) {
    0 < k < |rows| && Opens(rows[k].kind) && |Slots(rows[..k])| > SCRATCH
  }

  /** Row k ends the search. */
  predicate Stops(p: seq<bv8>, rows: seq<Rec>, k: nat) { TooDeepAt(rows, k) || LongKeyAt(p, rows, k) }

  lemma SlotsNext(rows: seq<Rec>, k: nat)
    requires 0 < k < |rows|
    ensures Slots(rows[..k + 1]) == Turn(Slots(rows[..k]), rows[k].kind)
  {
    assert rows[..k + 1][..k] == rows[..k];
  }

  lemma NoStopFirst(p: seq<bv8>, rows: seq<Rec>)
    ensures !Stops(p, rows, 0)
    ensures rows != [] ==> Slots(rows[..1]) == [BASE]
  {
  }

  /** One row of the search: whether it ends there. */
  lemma StopHere(p: seq<bv8>, rows: seq<Rec>, k: nat)
    requires 0 < k < |rows|
    ensures var st, r := Slots(rows[..k]), rows[k];
      Stops(p, rows, k) <==> if Opens(r.kind) then |st| > SCRATCH else AtKey(st, r.kind) && TooLong(p, r)
  {
    hide Slots, TooLong;
  }

  // ---- kept while the tape is written ---------------------------------------------------------

  /** The slots of open containers: only the innermost may have its value next. */
  function SlotsOf(frames: seq<Frame>, atValue: bool): (r: seq<Slot>)
    ensures |r| == |frames| + 1
  {
    [BASE] + seq(|frames|, d requires 0 <= d < |frames| => Slot(frames[d].isMap, d == |frames| - 1 && atValue && frames[d].isMap))
  }

  /** Each open container's row is still an opener without a length. */
  predicate Openers(rows: seq<Rec>, frames: seq<Frame>) {
    forall d :: 0 <= d < |frames| ==>
      frames[d].openAt < |rows| && rows[frames[d].openAt].kind == OpenKind(frames[d].isMap) && rows[frames[d].openAt].len == 0
  }

  predicate CleanSpan(p: seq<bv8>, r: Rec) { r.off + r.len <= |p| && Clean(p[r.off..r.off + r.len]) }

  predicate CleanSpans(p: seq<bv8>, rows: seq<Rec>) {
    forall k :: 0 <= k < |rows| && rows[k].kind == Str ==> CleanSpan(p, rows[k])
  }

  predicate Shallow(rows: seq<Rec>) { forall k :: 0 <= k < |rows| ==> !TooDeepAt(rows, k) }

  /** Where the walk stands among the keys, and what it has noted of them. */
  predicate Noted(p: seq<bv8>, rows: seq<Rec>, frames: seq<Frame>, atValue: bool, note: Option<bool>) {
    && rows != [] && Slots(rows) == SlotsOf(frames, atValue) && Verdict(p, rows) == note && Openers(rows, frames)
    && CleanSpans(p, rows) && Shallow(rows)
  }

  lemma StartNoted(p: seq<bv8>, keyed: bool)
    ensures Noted(p, [Rec(Doc, 0, 0), Rec(OpenKind(keyed), 0, 0)], [Frame(keyed, 1)], false, None)
  {
    var rows := [Rec(Doc, 0, 0), Rec(OpenKind(keyed), 0, 0)];
    assert rows[..1] == [rows[0]] && rows[..1][..0] == [];
    assert Slots(rows) == Turn([BASE], OpenKind(keyed));
    assert Verdict(p, rows[..1]) == None;
    assert |Slots(rows[..1])| == 1;
  }

  /** One more row. */
  lemma MoreRows(p: seq<bv8>, rows: seq<Rec>, frames: seq<Frame>, r: Rec)
    requires rows != [] && Openers(rows, frames) && CleanSpans(p, rows) && (r.kind == Str ==> CleanSpan(p, r))
    requires Shallow(rows) && (Opens(r.kind) ==> |Slots(rows)| <= SCRATCH)
    ensures Slots(rows + [r]) == Turn(Slots(rows), r.kind)
    ensures Openers(rows + [r], frames) && CleanSpans(p, rows + [r]) && Shallow(rows + [r])
    ensures KeyRow(rows + [r], |rows|) <==> AtKey(Slots(rows), r.kind)
    ensures Verdict(p, rows + [r]) ==
      if Verdict(p, rows).Some? then Verdict(p, rows)
      else if AtKey(Slots(rows), r.kind) && Candidate(r) then Some(TooLong(p, r)) else None
  {
    hide Slots, AtKey, Candidate, TooLong, CleanSpan;
    assert (rows + [r])[..|rows|] == rows;
    SlotsLast(rows, r);
    forall k | 0 <= k < |rows| + 1 ensures !TooDeepAt(rows + [r], k) {
      if k < |rows| {
        assert (rows + [r])[..k] == rows[..k];
        assert !TooDeepAt(rows, k);
      }
    }
  }

  lemma SlotsLast(rows: seq<Rec>, r: Rec)
    requires rows != []
    ensures Slots(rows + [r]) == Turn(Slots(rows), r.kind)
  {
    assert (rows + [r])[..|rows|] == rows;
  }

  /** How the slots of open containers turn. */
  lemma SlotsTurn(frames: seq<Frame>, k: Kind)
    requires frames != []
    ensures !Opens(k) && !k.Close? ==> Turn(SlotsOf(frames, true), k) == SlotsOf(frames, false) && !AtKey(SlotsOf(frames, true), k)
    ensures !Opens(k) && !k.Close? && frames[|frames| - 1].isMap ==>
      Turn(SlotsOf(frames, false), k) == SlotsOf(frames, true) && AtKey(SlotsOf(frames, false), k)
    ensures !frames[|frames| - 1].isMap ==> SlotsOf(frames, true) == SlotsOf(frames, false)
  {
    assert Toggle(SlotsOf(frames, true)) == SlotsOf(frames, false);
    if frames[|frames| - 1].isMap { assert Toggle(SlotsOf(frames, false)) == SlotsOf(frames, true); }
    else { assert SlotsOf(frames, true) == SlotsOf(frames, false); }
  }

  lemma SlotsEnter(frames: seq<Frame>, keyed: bool, at: nat)
    requires frames != []
    ensures Turn(SlotsOf(frames, true), OpenKind(keyed)) == SlotsOf(frames + [Frame(keyed, at)], false)
  {
    assert Toggle(SlotsOf(frames, true)) + [Slot(keyed, false)] == SlotsOf(frames + [Frame(keyed, at)], false);
  }

  lemma ScalarNoted(p: seq<bv8>, rows: seq<Rec>, frames: seq<Frame>, note: Option<bool>, r: Rec)
    requires Noted(p, rows, frames, true, note) && !Opens(r.kind) && !r.kind.Close? && (r.kind == Str ==> CleanSpan(p, r)) && frames != []
    ensures Noted(p, rows + [r], frames, false, note)
  {
    hide Slots, Verdict, Openers, CleanSpans, CleanSpan, Candidate, TooLong, Shallow, Turn, SlotsOf, AtKey, KeyRow;
    SlotsTurn(frames, r.kind);
    MoreRows(p, rows, frames, r);
  }

  lemma KeyNoted(p: seq<bv8>, rows: seq<Rec>, frames: seq<Frame>, note: Option<bool>, r: Rec)
    requires Noted(p, rows, frames, false, note) && r.kind == Str && CleanSpan(p, r) && frames != [] && frames[|frames| - 1].isMap
    ensures Noted(p, rows + [r], frames, true, if note.Some? then note else if Candidate(r) then Some(TooLong(p, r)) else None)
  {
    hide Slots, Verdict, Openers, CleanSpans, CleanSpan, Candidate, TooLong, Shallow, Turn, SlotsOf, AtKey, KeyRow;
    SlotsTurn(frames, r.kind);
    MoreRows(p, rows, frames, r);
  }

  lemma ElementNoted(p: seq<bv8>, rows: seq<Rec>, frames: seq<Frame>, note: Option<bool>)
    requires Noted(p, rows, frames, false, note) && frames != [] && !frames[|frames| - 1].isMap
    ensures Noted(p, rows, frames, true, note)
  {
    hide Slots, Verdict, Openers, CleanSpans, Shallow, SlotsOf;
    SlotsTurn(frames, Nil);
  }

  lemma PushNoted(p: seq<bv8>, rows: seq<Rec>, frames: seq<Frame>, note: Option<bool>, keyed: bool)
    requires Noted(p, rows, frames, true, note) && 0 < |frames| < SCRATCH
    ensures Noted(p, rows + [Rec(OpenKind(keyed), 0, 0)], frames + [Frame(keyed, |rows|)], false, note)
  {
    hide Slots, Verdict, CleanSpans, Shallow, Turn, SlotsOf, KeyRow;
    var r := Rec(OpenKind(keyed), 0, 0);
    SlotsEnter(frames, keyed, |rows|);
    MoreRows(p, rows, frames, r);
  }

  /** The rows with the link of opener o patched. */
  function Relinked(rows: seq<Rec>, o: nat, off: nat): (r: seq<Rec>)
    requires o < |rows|
    ensures |r| == |rows|
  {
    rows[o := rows[o].(off := off)]
  }

  lemma RelinkedFront(rows: seq<Rec>, o: nat, off: nat)
    requires o < |rows|
    ensures var n := |rows| - 1; Relinked(rows, o, off)[..n] == if o < n then Relinked(rows[..n], o, off) else rows[..n]
  {
  }

  /** Patching an opener's link moves no slot. */
  lemma {:induction false} SlotsStay(rows: seq<Rec>, o: nat, off: nat)
    requires o < |rows|
    ensures Slots(Relinked(rows, o, off)) == Slots(rows)
    decreases |rows|
  {
    hide Turn;
    RelinkedFront(rows, o, off);
    if o < |rows| - 1 { SlotsStay(rows[..|rows| - 1], o, off); }
  }

  /** Nor a key. */
  lemma {:induction false} VerdictStays(p: seq<bv8>, rows: seq<Rec>, o: nat, off: nat)
    requires o < |rows| && Opens(rows[o].kind)
    ensures Verdict(p, Relinked(rows, o, off)) == Verdict(p, rows)
    decreases |rows|
  {
    hide Candidate, TooLong, KeyRow, Relinked;
    var t, n := Relinked(rows, o, off), |rows| - 1;
    RelinkedFront(rows, o, off);
    RelinkedAt(rows, o, off, n);
    if o < n {
      VerdictStays(p, rows[..n], o, off);
      SlotsStay(rows[..n], o, off);
      KeyRowIs(rows, n);
      KeyRowIs(t, n);
    } else {
      NoKeyThere(rows, n);
      NoKeyThere(t, n);
    }
  }

  lemma ShallowStays(rows: seq<Rec>, o: nat, off: nat)
    requires o < |rows| && Shallow(rows)
    ensures Shallow(Relinked(rows, o, off))
  {
    hide Slots, Relinked;
    var t := Relinked(rows, o, off);
    forall k | 0 <= k < |t| ensures !TooDeepAt(t, k) {
      assert !TooDeepAt(rows, k);
      RelinkedAt(rows, o, off, k);
      RelinkedTo(rows, o, off, k);
      if o < k { SlotsStay(rows[..k], o, off); }
    }
  }

  lemma RelinkedTo(rows: seq<Rec>, o: nat, off: nat, k: nat)
    requires o < |rows| && k <= |rows|
    ensures Relinked(rows, o, off)[..k] == if o < k then Relinked(rows[..k], o, off) else rows[..k]
  {
  }

  lemma RelinkedAt(rows: seq<Rec>, o: nat, off: nat, k: nat)
    requires o < |rows| && k < |rows|
    ensures Relinked(rows, o, off)[k] == if k == o then rows[o].(off := off) else rows[k]
  {
  }

  lemma KeyRowIs(rows: seq<Rec>, k: nat)
    requires k < |rows|
    ensures KeyRow(rows, k) <==> 0 < k && AtKey(Slots(rows[..k]), rows[k].kind)
  {
  }

  lemma NoKeyThere(rows: seq<Rec>, k: nat)
    requires k < |rows| && Opens(rows[k].kind)
    ensures !KeyRow(rows, k)
  {
  }

  lemma CloseNoted(p: seq<bv8>, rows: seq<Rec>, frames: seq<Frame>, note: Option<bool>)
    requires Noted(p, rows, frames, false, note) && frames != []
    ensures frames[|frames| - 1].openAt < |rows|
    ensures var o := frames[|frames| - 1].openAt;
      Noted(p, rows[o := rows[o].(off := |rows|)] + [Rec(Close, o, 0)], frames[..|frames| - 1], false, note)
  {
    hide Slots, Verdict, CleanSpan;
    var o := frames[|frames| - 1].openAt;
    var t, below := rows[o := rows[o].(off := |rows|)], frames[..|frames| - 1];
    SlotsStay(rows, o, |rows|);
    VerdictStays(p, rows, o, |rows|);
    ShallowStays(rows, o, |rows|);
    MoreRows(p, t, below, Rec(Close, o, 0));
    assert SlotsOf(frames, false)[..|frames|] == SlotsOf(below, false);
  }

  /** What was noted at the end is what walking the tape again finds. */
  lemma NotedIsFound(p: seq<bv8>, rows: seq<Rec>, frames: seq<Frame>, atValue: bool, note: Option<bool>)
    requires Noted(p, rows, frames, atValue, note)
    ensures (note == Some(true)) == LongKey(p, rows)
    ensures LongKey(p, rows) <==> exists k :: 0 <= k < |rows| && Stops(p, rows, k)
  {
    NoStopButKeys(p, rows);
    hide Slots, Verdict, Openers, LongKey, Shallow, Stops;
    forall k | 0 <= k < |rows| && Candidate(rows[k]) ensures InRange(p, rows[k]) && AsciiSpan(p, rows[k]) {
      CleanIsAscii(p, rows[k]);
    }
    AsciiAgrees(p, rows);
  }

  lemma NoStopButKeys(p: seq<bv8>, rows: seq<Rec>)
    requires Shallow(rows)
    ensures LongKey(p, rows) <==> exists k :: 0 <= k < |rows| && Stops(p, rows, k)
  {
    hide TooDeepAt, LongKeyAt;
    if LongKey(p, rows) {
      var k :| 0 <= k < |rows| && LongKeyAt(p, rows, k);
      assert Stops(p, rows, k);
    }
    if k :| 0 <= k < |rows| && Stops(p, rows, k) { assert LongKeyAt(p, rows, k); }
  }

  lemma {:induction false} OrGrows(a: nat, b: nat)
    ensures Or(a, b) >= a
  {
    if a != 0 && b != 0 { OrGrows(a / 2, b / 2); }
  }

  lemma CleanIsAscii(p: seq<bv8>, r: Rec)
    requires r.kind == Str && CleanSpan(p, r)
    ensures InRange(p, r) && AsciiSpan(p, r)
  {
    var u := Through(r);
    OrGrows(r.off, r.len / TWO_24);
    assert u.off + u.len <= r.off + r.len;
    forall i | u.off <= i < u.off + u.len ensures p[i] < 0x80 {
      assert p[i] == p[r.off..r.off + r.len][i - r.off];
    }
  }
}
