/** The scans of the tape walk as the program runs them, each proved against its lexeme. */
module JsonScan {
  import opened Wrappers
  import opened JsonGrammar
  import opened JsonLexer
  import Swar
  import Words

  /** LWS, on the clean route. */
  method SkipSpaces(p: seq<bv8>, start: nat) returns (i: nat)
    requires start <= |p|
    ensures i == Skip(p, start)
  {
    i := start;
    while i < |p| && (p[i] == 0x20 || p[i] == 0x0A || p[i] == 0x0D)
      invariant start <= i <= |p| && Skip(p, start) == Skip(p, i)
    {
      i := i + 1;
    }
  }

  /** The same with tabs: in front of the root, and on the reference walk. */
  method SkipLead(p: seq<bv8>, start: nat) returns (i: nat)
    requires start <= |p|
    ensures i == Lead(p, start)
  {
    i := start;
    while i < |p| && (p[i] == 0x20 || p[i] == 0x09 || p[i] == 0x0A || p[i] == 0x0D)
      invariant start <= i <= |p| && Lead(p, start) == Lead(p, i)
    {
      i := i + 1;
    }
  }

  // ---- strings ------------------------------------------------------------------------

  /** The closing quote when any byte from 0x20 on may stand in the string: what the string kernel decides. */
  function AnyEnd(p: seq<bv8>, j: nat): (r: Option<nat>)
    requires j <= |p|
    ensures r.Some? ==> j <= r.value < |p|
    decreases |p| - j
  {
    if j >= |p| then None
    else if p[j] == QUOTE then Some(j)
    else
      var n := CharLength(p[j..]);
      if n == 0 then None else AnyEnd(p, j + n)
  }

  predicate Swept(p: seq<bv8>, i: nat, j: nat)
    requires j <= |p|
  {
    forall x :: i <= x < j ==> Swar.Swept(p[x])
  }

  predicate PlainRun(p: seq<bv8>, i: nat, j: nat)
    requires j <= |p|
  {
    forall x :: i <= x < j ==> Swar.Plain(p[x])
  }

  lemma PlainOne(p: seq<bv8>, j: nat)
    requires j < |p| && Swar.Plain(p[j])
    ensures StringEnd(p, j) == StringEnd(p, j + 1)
  {}

  /** Plain bytes are passed over. */
  lemma {:induction false} PlainSkips(p: seq<bv8>, j: nat, m: nat)
    requires j <= m <= |p| && PlainRun(p, j, m)
    ensures StringEnd(p, j) == StringEnd(p, m)
    decreases m - j
  {
    hide StringEnd, Swar.Plain;
    if j < m {
      PlainOne(p, j);
      PlainSkips(p, j + 1, m);
    }
  }

  lemma BadStops(p: seq<bv8>, j: nat)
    requires j < |p| && !Swar.Swept(p[j])
    ensures StringEnd(p, j) == None
  {}

  /** The strict reading is the kernel's, when no byte up to the close is a control or beyond ASCII. */
  lemma {:induction false} CleanEnd(p: seq<bv8>, j: nat)
    requires j <= |p|
    ensures StringEnd(p, j).Some? ==> AnyEnd(p, j) == StringEnd(p, j)
    ensures AnyEnd(p, j).Some? ==>
      (StringEnd(p, j) == AnyEnd(p, j) <==> Swept(p, j, AnyEnd(p, j).value)) && (StringEnd(p, j).None? || StringEnd(p, j) == AnyEnd(p, j))
    decreases |p| - j
  {
    hide CharLength;
    if j < |p| && p[j] != QUOTE {
      var n := CharLength(p[j..]);
      if n > 0 {
        CleanEnd(p, j + n);
        if p[j] < 0x80 {
          CharSwept(p, j);
          SweptSplit(p, j, n);
        }
      }
    }
  }

  lemma SweptSplit(p: seq<bv8>, j: nat, n: nat)
    requires j + n <= |p| && Swept(p, j, j + n)
    ensures forall c :: j + n <= c <= |p| ==> (Swept(p, j, c) <==> Swept(p, j + n, c))
  {
    hide Swar.Swept;
    forall c | j + n <= c <= |p| ensures Swept(p, j, c) <==> Swept(p, j + n, c) {}
  }

  lemma CharSwept(p: seq<bv8>, j: nat)
    requires j < |p| && CharLength(p[j..]) > 0 && p[j] < 0x80
    ensures Swept(p, j, j + CharLength(p[j..]))
  {
    hide CharLength;
    var n := CharLength(p[j..]);
    CharBytes(p[j..]);
    forall x | j <= x < j + n ensures Swar.Swept(p[x]) { assert p[x] == p[j..][x - j]; }
  }

  lemma CharBytes(s: seq<bv8>)
    requires CharLength(s) > 0 && s[0] < 0x80
    ensures forall k :: 0 <= k < CharLength(s) ==> 0x20 <= s[k] < 0x80
  {
    hide Hex4Value;
    var n := CharLength(s);
    forall k | 0 <= k < n ensures 0x20 <= s[k] < 0x80 {
      if 2 <= k < 6 { assert s[k] == s[2..][k - 2]; }
      if 8 <= k < 12 { assert s[k] == s[8..][k - 8]; }
    }
  }

  /** quote_scan, scalar: the first quote not behind a backslash, and whether a backslash was met. */
  method QuoteScan(p: seq<bv8>, j: nat) returns (r: Option<nat>, esc: bool)
    requires j <= |p|
    ensures r.Some? && !esc ==> j <= r.value < |p| && p[r.value] == QUOTE && NoStops(p, j, r.value)
  {
    esc := false;
    var i := j;
    while i < |p|
      invariant j <= i && (!esc ==> i <= |p| && NoStops(p, j, i))
    {
      if p[i] == BACKSLASH {
        esc := true;
        i := i + 2;
      } else if p[i] == QUOTE {
        return Some(i), esc;
      } else {
        i := i + 1;
      }
    }
    r := None;
  }

  predicate NoStops(p: seq<bv8>, i: nat, j: nat)
    requires j <= |p|
  {
    forall x :: i <= x < j ==> p[x] != QUOTE && p[x] != BACKSLASH
  }

  /** qbc_find, scalar: the first quote, backslash or control. */
  method QbcFind(p: seq<bv8>, j: nat) returns (r: Option<nat>)
    requires j <= |p|
    ensures r.Some? ==> j <= r.value < |p| && Stop(p[r.value]) && NoStop(p, j, r.value)
    ensures r.None? ==> NoStop(p, j, |p|)
  {
    var i := j;
    while i < |p|
      invariant j <= i <= |p| && NoStop(p, j, i)
    {
      if p[i] == QUOTE || p[i] == BACKSLASH || p[i] < 0x20 {
        return Some(i);
      }
      i := i + 1;
    }
    r := None;
  }

  predicate Stop(c: bv8) { c == QUOTE || c == BACKSLASH || c < 0x20 }

  predicate NoStop(p: seq<bv8>, i: nat, j: nat)
    requires j <= |p|
  {
    forall x :: i <= x < j ==> !Stop(p[x])
  }

  lemma {:induction false} AnySkips(p: seq<bv8>, j: nat, m: nat)
    requires j <= m <= |p| && NoStop(p, j, m)
    ensures AnyEnd(p, j) == AnyEnd(p, m)
    decreases m - j
  {
    hide AnyEnd, Stop;
    if j < m {
      AnyOne(p, j);
      AnySkips(p, j + 1, m);
    }
  }

  lemma AnyOne(p: seq<bv8>, j: nat)
    requires j < |p| && !Stop(p[j])
    ensures AnyEnd(p, j) == AnyEnd(p, j + 1)
  {}

  /** Four hex digits at position h, as a number; None when one is missing. */
  method HexAt(p: seq<bv8>, h: nat) returns (cp: Option<nat>)
    requires h <= |p|
    ensures cp == if Hex4(p[h..]) then Some(Hex4Value(p[h..])) else None
  {
    hide HexValue;
    ghost var s := p[h..];
    if h + 4 > |p| || !HexDigit(p[h]) || !HexDigit(p[h + 1]) || !HexDigit(p[h + 2]) || !HexDigit(p[h + 3]) {
      assert |s| >= 4 ==> s[0] == p[h] && s[1] == p[h + 1] && s[2] == p[h + 2] && s[3] == p[h + 3];
      return None;
    }
    assert s[0] == p[h] && s[1] == p[h + 1] && s[2] == p[h + 2] && s[3] == p[h + 3];
    var v := HexValue(p[h]);
    v := v * 16 + HexValue(p[h + 1]);
    v := v * 16 + HexValue(p[h + 2]);
    v := v * 16 + HexValue(p[h + 3]);
    return Some(v);
  }

  /** yep_json_escape: where the escape at position at ends. A pair needs one more byte behind it. */
  method Escape(p: seq<bv8>, at: nat) returns (next: Option<nat>)
    requires at < |p| && p[at] == BACKSLASH
    ensures next.Some? ==> at < next.value <= |p| && AnyEnd(p, at) == AnyEnd(p, next.value)
    ensures next.None? ==> AnyEnd(p, at) == None
  {
    hide Hex4, Hex4Value;
    ghost var s := p[at..];
    if at + 1 >= |p| {
      return None;
    }
    var e2 := p[at + 1];
    assert s[1] == e2;
    if e2 == 0x75 {
      assert s[2..] == p[at + 2..];
      var cp := HexAt(p, at + 2);
      if cp == None {
        return None;
      }
      if 0xD800 <= cp.value <= 0xDBFF {
        if at + 12 >= |p| || p[at + 6] != BACKSLASH || p[at + 7] != 0x75 {
          if at + 12 == |p| { PairAtEnd(p, at); }
          return None;
        }
        assert s[6] == p[at + 6] && s[7] == p[at + 7] && s[8..] == p[at + 8..];
        var lo := HexAt(p, at + 8);
        if lo == None || lo.value < 0xDC00 || lo.value > 0xDFFF {
          return None;
        }
        return Some(at + 12);
      }
      if 0xDC00 <= cp.value <= 0xDFFF {
        return None;
      }
      HexRoom(p, at + 2);
      return Some(at + 6);
    }
    if e2 != 0x22 && e2 != 0x5C && e2 != 0x2F && e2 != 0x62 && e2 != 0x66 && e2 != 0x6E && e2 != 0x72 && e2 != 0x74 {
      return None;
    }
    return Some(at + 2);
  }

  lemma HexRoom(p: seq<bv8>, h: nat)
    requires h <= |p| && Hex4(p[h..])
    ensures h + 4 <= |p|
  {}

  /** A pair that ends the buffer leaves the string open. */
  lemma PairAtEnd(p: seq<bv8>, at: nat)
    requires at + 12 == |p| && p[at] == BACKSLASH
    requires p[at + 1] == 0x75 && Hex4(p[at + 2..]) && 0xD800 <= Hex4Value(p[at + 2..]) <= 0xDBFF
    ensures AnyEnd(p, at) == None
  {
    hide Hex4, Hex4Value;
    assert p[at..][2..] == p[at + 2..];
    assert p[at..][1] == p[at + 1];
  }

  /** yep_json_string from the quote at position i: the closing quote. */
  method JsonString(p: seq<bv8>, i: nat) returns (close: Option<nat>)
    requires i < |p|
    ensures close == AnyEnd(p, i + 1)
  {
    hide AnyEnd;
    var j := i + 1;
    var lim := if |p| - j > 8 then 8 else |p| - j;
    var w := 0;
    while w < lim
      invariant w <= lim && NoStop(p, j, j + w)
    {
      var c := p[j + w];
      if c == QUOTE {
        AnySkips(p, j, j + w);
        AnyQuote(p, j + w);
        return Some(j + w);
      }
      if c == BACKSLASH || c < 0x20 {
        break;
      }
      w := w + 1;
    }
    while true
      invariant i < j <= |p| && AnyEnd(p, j) == AnyEnd(p, i + 1)
      decreases |p| - j
    {
      var r := QbcFind(p, j);
      if r == None {
        AnySkips(p, j, |p|);
        AnyQuote(p, |p|);
        return None;
      }
      var at := r.value;
      AnySkips(p, j, at);
      AnyQuote(p, at);
      if p[at] == QUOTE {
        return Some(at);
      }
      if p[at] != BACKSLASH {
        return None;
      }
      var next := Escape(p, at);
      if next == None {
        return None;
      }
      j := next.value;
    }
  }

  lemma AnyQuote(p: seq<bv8>, j: nat)
    requires j <= |p|
    ensures j == |p| ==> AnyEnd(p, j) == None
    ensures j < |p| && p[j] == QUOTE ==> AnyEnd(p, j) == Some(j)
    ensures j < |p| && p[j] < 0x20 ==> AnyEnd(p, j) == None
  {}

  /** The c0 and non-ASCII sweep over [j, close): eight bytes a word, then one by one. */
  method Sweep(p: seq<bv8>, j: nat, close: nat) returns (ok: bool)
    requires j <= close <= |p|
    ensures ok <==> Swept(p, j, close)
  {
    hide Swar.Swept, Swar.SweepFlags, Swar.Load;
    var b := j;
    while b < close
      invariant j <= b <= close && Swept(p, j, b)
    {
      if close - b >= 8 {
        ghost var lane := Swar.SweepWord(p, b);
        if Swar.SweepFlags(Swar.Load(p, b)) != 0 {
          assert !Swar.Swept(p[b + lane]);
          return false;
        }
        b := b + 8;
      } else {
        if SweptByte(p, b) {
          return false;
        }
        b := b + 1;
      }
    }
    ok := true;
  }

  predicate SweptByte(p: seq<bv8>, b: nat)
    requires b < |p|
    ensures SweptByte(p, b) <==> !Swar.Swept(p[b])
  {
    p[b] < 0x20 || p[b] >= 0x80
  }

  /** One SWAR round of the string arm at position b: the close in these eight bytes, or whether all are plain. */
  method Round(p: seq<bv8>, b: nat) returns (close: Option<nat>, plain: bool)
    requires b + 8 <= |p|
    ensures close.Some? ==> b <= close.value < b + 8 && p[close.value] == QUOTE && PlainRun(p, b, close.value)
    ensures plain ==> close.None? && PlainRun(p, b, b + 8)
  {
    hide Swar.Plain, Swar.Closing, Swar.Quiet, Swar.CloseLane, Swar.Load;
    var w := Swar.Load(p, b);
    if Swar.Closing(w) {
      Swar.FirstQuote(p, b);
      return Some(b + Swar.CloseLane(w)), false;
    }
    plain := Swar.Quiet(w);
    if plain { Swar.NoFlags(p, b); }
    close := None;
  }

  /** LSTR_SCAN on the clean route, positioned at the quote p[i]: the closing quote, exactly as the grammar has it. */
  method ScanString(p: seq<bv8>, i: nat) returns (close: Option<nat>)
    requires i < |p|
    ensures close == StringEnd(p, i + 1)
  {
    hide StringEnd, Swar.Plain, Swar.Swept, AnyEnd;
    var j := i + 1;
    if j + 8 <= |p| {
      var found, plain := Round(p, j);
      if found.Some? {
        ClosesAt(p, j, found.value);
        return found;
      }
      if plain {
        var nr := (|p| - j) / 8;
        if nr > 4 {
          nr := 4;
        }
        var r := 1;
        while r < nr
          invariant 1 <= r && j + 8 * nr <= |p| && (r <= nr ==> PlainRun(p, j, j + 8 * r))
        {
          found, plain := Round(p, j + 8 * r);
          if found.Some? {
            ClosesAt(p, j, found.value);
            return found;
          }
          if !plain {
            break;
          }
          r := r + 1;
        }
      }
    }
    var q, esc := QuoteScan(p, j);
    if q.Some? && !esc {
      var ok := Sweep(p, j, q.value);
      if !ok {
        SweepRejects(p, j, q.value);
        return None;
      }
      PlainFrom(p, j, q.value);
      ClosesAt(p, j, q.value);
      return q;
    }
    var cl := JsonString(p, i);
    CleanEnd(p, j);
    if cl == None {
      return None;
    }
    var b := i + 1;
    while b < cl.value
      invariant j <= b <= cl.value && Swept(p, j, b)
    {
      if SweptByte(p, b) {
        return None;
      }
      b := b + 1;
    }
    return cl;
  }

  lemma ClosesAt(p: seq<bv8>, j: nat, c: nat)
    requires j <= c < |p| && p[c] == QUOTE && PlainRun(p, j, c)
    ensures StringEnd(p, j) == Some(c)
  {
    PlainSkips(p, j, c);
  }

  lemma PlainFrom(p: seq<bv8>, j: nat, c: nat)
    requires j <= c <= |p| && Swept(p, j, c) && NoStops(p, j, c)
    ensures PlainRun(p, j, c)
  {}

  /** A bad byte before the first quote, with no escape in between, ends the string badly. */
  lemma {:induction false} SweepRejects(p: seq<bv8>, j: nat, c: nat)
    requires j <= c < |p| && !Swept(p, j, c) && NoStops(p, j, c)
    ensures StringEnd(p, j) == None
    decreases c - j
  {
    hide StringEnd, Swar.Swept;
    if Swar.Swept(p[j]) {
      SweepRejects(p, j + 1, c);
      PlainHere(p, j);
      PlainOne(p, j);
    } else {
      BadStops(p, j);
    }
  }

  lemma PlainHere(p: seq<bv8>, j: nat)
    requires j < |p| && Swar.Swept(p[j]) && p[j] != QUOTE && p[j] != BACKSLASH
    ensures Swar.Plain(p[j])
  {}
}
