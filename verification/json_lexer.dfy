/** The lexemes as the tape walk finds them in a clean buffer, and that they are exactly the grammar's. */
module JsonLexer {
  import opened Wrappers
  import opened JsonGrammar

  predicate Space(c: bv8) { c == 0x20 || c == 0x0A || c == 0x0D }

  /** LWS: the first byte at or after i that is no space or line break. */
  function Skip(p: seq<bv8>, i: nat): (j: nat)
    requires i <= |p|
    ensures i <= j <= |p|
    decreases |p| - i
  {
    if i < |p| && Space(p[i]) then Skip(p, i + 1) else i
  }

  /** Any whitespace, tabs too. */
  function Lead(p: seq<bv8>, i: nat): (j: nat)
    requires i <= |p|
    ensures i <= j <= |p|
    decreases |p| - i
  {
    if i < |p| && Blank(p[i]) then Lead(p, i + 1) else i
  }

  lemma {:induction false} SkipStops(p: seq<bv8>, i: nat)
    requires i <= |p|
    ensures Skip(p, i) < |p| ==> !Space(p[Skip(p, i)])
    ensures forall k :: i <= k < Skip(p, i) ==> Space(p[k])
    decreases |p| - i
  {
    if i < |p| && Space(p[i]) { SkipStops(p, i + 1); }
  }

  /** Whitespace in a clean buffer is skipped exactly. */
  lemma {:induction false} SkipBlanks(p: seq<bv8>, i: nat, n: nat)
    requires i + n <= |p| && Clean(p[i..]) && Blanks(p[i..i + n]) && (i + n < |p| ==> !Space(p[i + n]))
    ensures Skip(p, i) == i + n
    decreases n
  {
    if n > 0 {
      assert p[i] == p[i..i + n][0] && p[i] == p[i..][0];
      assert p[i + 1..i + 1 + (n - 1)] == p[i..i + n][1..] && p[i + 1..] == p[i..][1..];
      SkipBlanks(p, i + 1, n - 1);
    }
  }

  // ---- strings --------------------------------------------------------------------

  /** The closing quote of the string whose content starts at j: ASCII characters and escapes up to it. */
  function StringEnd(p: seq<bv8>, j: nat): (r: Option<nat>)
    requires j <= |p|
    ensures r.Some? ==> j <= r.value < |p|
    decreases |p| - j
  {
    if j >= |p| then None
    else if p[j] == QUOTE then Some(j)
    else if p[j] >= 0x80 then None
    else
      var n := CharLength(p[j..]);
      if n == 0 then None else StringEnd(p, j + n)
  }

  /** Bytes inside an escape are ASCII. */
  lemma EscapeClean(s: seq<bv8>)
    requires CharLength(s) > 1
    ensures Clean(s[..CharLength(s)])
  {
    hide Hex4Value;
    var n := CharLength(s);
    forall k | 0 <= k < n ensures s[k] < 0x80 && s[k] != 0x09 {
      if 2 <= k < 6 { assert s[k] == s[2..][k - 2]; }
      if 8 <= k < 12 { assert s[k] == s[8..][k - 8]; }
    }
  }

  lemma {:induction false} StringSound(p: seq<bv8>, j: nat)
    requires j <= |p| && StringEnd(p, j).Some?
    ensures var c := StringEnd(p, j).value; p[c] == QUOTE && Content(p[j..c]) && Clean(p[j..c])
    decreases |p| - j
  {
    hide CharLength;
    var c := StringEnd(p, j).value;
    if p[j] != QUOTE {
      var n := CharLength(p[j..]);
      StringSound(p, j + n);
      PlainClean(p[j..]);
      assert p[j..] == p[j..c] + p[c..];
      CharCut(p[j..c], p[c..], n);
      assert p[j..c][n..] == p[j + n..c];
      assert p[j..c] == p[j..][..n] + p[j + n..c];
      CleanJoin(p[j..][..n], p[j + n..c]);
    }
  }

  lemma PlainClean(s: seq<bv8>)
    requires CharLength(s) > 0 && s[0] < 0x80
    ensures Clean(s[..CharLength(s)])
  {
    if CharLength(s) > 1 { EscapeClean(s); }
  }

  lemma CleanJoin(a: seq<bv8>, b: seq<bv8>)
    requires Clean(a) && Clean(b)
    ensures Clean(a + b)
  {}

  /** A character is determined by its own bytes. */
  lemma CharCut(s: seq<bv8>, t: seq<bv8>, n: nat)
    requires CharLength(s + t) == n > 0 && n <= |s|
    ensures CharLength(s) == n
  {
    hide Hex4, Hex4Value, UnicodeEscape;
    assert (s + t)[0] == s[0];
    if s[0] == BACKSLASH {
      assert (s + t)[1] == s[1];
      if s[1] == 0x75 { UnicodeCut(s, t); }
    }
  }

  lemma UnicodeCut(s: seq<bv8>, t: seq<bv8>)
    requires |s| >= 2 && 0 < UnicodeEscape(s + t) <= |s|
    ensures UnicodeEscape(s) == UnicodeEscape(s + t)
  {
    hide Hex4Value;
    assert (s + t)[2..] == s[2..] + t;
    HexCut(s[2..], t);
    if UnicodeEscape(s + t) == 12 {
      assert (s + t)[8..] == s[8..] + t;
      HexCut(s[8..], t);
    }
  }

  lemma HexCut(s: seq<bv8>, t: seq<bv8>)
    requires |s| >= 4 && Hex4(s + t)
    ensures Hex4(s) && Hex4Value(s) == Hex4Value(s + t)
  {
    hide HexDigit, HexValue;
    assert forall k :: 0 <= k < 4 ==> (s + t)[k] == s[k];
  }

  lemma {:induction false} StringComplete(p: seq<bv8>, j: nat, s: seq<bv8>)
    requires j + |s| < |p| && p[j..j + |s|] == s && p[j + |s|] == QUOTE && Content(s) && Clean(s)
    ensures StringEnd(p, j) == Some(j + |s|)
    decreases |s|
  {
    hide CharLength;
    if s != [] {
      var n := CharLength(s);
      assert p[j] == s[0];
      NotQuote(s);
      assert p[j..] == s + p[j + |s|..];
      CharExtends(s, p[j + |s|..]);
      assert p[j + n..j + |s|] == s[n..];
      StringComplete(p, j + n, s[n..]);
    }
  }

  lemma NotQuote(s: seq<bv8>)
    requires CharLength(s) > 0
    ensures s[0] != QUOTE
  {}

  // ---- numbers -------------------------------------------------------------------------

  predicate NumberByte(c: bv8) { Digit(c) || c == 0x2D || c == 0x2B || c == 0x2E || c == 0x65 || c == 0x45 }

  /** The end of the run of number bytes from k on. */
  function RunEnd(p: seq<bv8>, k: nat): (e: nat)
    requires k <= |p|
    ensures k <= e <= |p|
    decreases |p| - k
  {
    if k < |p| && NumberByte(p[k]) then RunEnd(p, k + 1) else k
  }

  /** Digits only behind the first byte: integer text. */
  predicate IntegerShape(s: seq<bv8>) { forall k :: 1 <= k < |s| ==> Digit(s[k]) }

  lemma NumberBytes(s: seq<bv8>)
    requires Number(s)
    ensures forall k :: 0 <= k < |s| ==> NumberByte(s[k])
  {
    var minus, whole, frac, exp :| NumberParts(minus, whole, frac, exp) && s == minus + whole + frac + exp;
    ExponentBytes(exp);
    forall k | 0 <= k < |frac| ensures NumberByte(frac[k]) {
      if k > 0 { assert Digit(frac[1..][k - 1]); }
    }
    forall k | 0 <= k < |s| ensures NumberByte(s[k]) {
      var m, w, f := |minus|, |whole|, |frac|;
      if k >= m + w + f { assert s[k] == exp[k - m - w - f]; } else if k >= m + w { assert s[k] == frac[k - m - w]; }
      else if k >= m { assert s[k] == whole[k - m]; } else { assert s[k] == minus[k]; }
    }
  }

  lemma ExponentBytes(s: seq<bv8>)
    requires Exponent(s)
    ensures forall k :: 0 <= k < |s| ==> NumberByte(s[k])
  {
    if s != [] {
      var e: nat :| e <= |s| - 1 && ExponentAt(s[1..], e);
      forall k | 0 <= k < |s| ensures NumberByte(s[k]) {
        if k > 0 {
          assert s[k] == s[1..][k - 1];
          if k - 1 < e { assert s[k] == s[1..][..e][k - 1]; } else { assert s[k] == s[1..][e..][k - 1 - e]; }
        }
      }
    }
  }

  lemma {:induction false} RunCovers(p: seq<bv8>, k: nat, e: nat)
    requires k <= e <= |p| && (forall x :: k <= x < e ==> NumberByte(p[x])) && (e < |p| ==> !NumberByte(p[e]))
    ensures RunEnd(p, k) == e
    decreases e - k
  {
    if k < e { RunCovers(p, k + 1, e); }
  }

  // ---- literals --------------------------------------------------------------------------

  /** The bytes that may follow a literal. */
  predicate Delimiter(c: bv8) { Blank(c) || c == 0x2C || c == 0x5D || c == 0x7D || c == 0x3A }

  function WordAt(c: bv8): Option<Word> {
    if c == 0x74 then Some(True) else if c == 0x66 then Some(False) else if c == 0x6E then Some(Null) else None
  }

  /** The literal at i and its end: the word itself, then the end or a delimiter. */
  function LiteralEnd(p: seq<bv8>, i: nat): (r: Option<nat>)
    requires i < |p| && WordAt(p[i]).Some?
    ensures r.Some? ==> i < r.value <= |p|
  {
    var w := WordText(WordAt(p[i]).value);
    if i + |w| > |p| || p[i..i + |w|] != w then None
    else if i + |w| < |p| && !Delimiter(p[i + |w|]) then None
    else Some(i + |w|)
  }
}
