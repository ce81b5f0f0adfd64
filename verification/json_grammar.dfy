/** JSON texts as RFC 8259 writes them: lexemes, concrete syntax trees, and the bytes a tree spells. */
module JsonGrammar {
  const QUOTE: bv8 := 0x22
  const BACKSLASH: bv8 := 0x5C

  // ---- bytes (sections 2, 6 and 7) ----------------------------------------------

  predicate Blank(c: bv8) { c == 0x20 || c == 0x09 || c == 0x0A || c == 0x0D }

  predicate Blanks(s: seq<bv8>) { forall k :: 0 <= k < |s| ==> Blank(s[k]) }

  predicate Digit(c: bv8) { 0x30 <= c <= 0x39 }

  predicate Digits(s: seq<bv8>) { forall k :: 0 <= k < |s| ==> Digit(s[k]) }

  predicate HexDigit(c: bv8) { Digit(c) || 0x41 <= c <= 0x46 || 0x61 <= c <= 0x66 }

  function HexValue(c: bv8): nat
    requires HexDigit(c)
  {
    if Digit(c) then (c - 0x30) as nat else if c <= 0x46 then (c - 0x41) as nat + 10 else (c - 0x61) as nat + 10
  }

  predicate Hex4(s: seq<bv8>) { |s| >= 4 && HexDigit(s[0]) && HexDigit(s[1]) && HexDigit(s[2]) && HexDigit(s[3]) }

  function Hex4Value(s: seq<bv8>): nat
    requires Hex4(s)
  {
    HexValue(s[0]) * 4096 + HexValue(s[1]) * 256 + HexValue(s[2]) * 16 + HexValue(s[3])
  }

  // ---- strings (section 7) ----------------------------------------------------------

  predicate ShortEscape(c: bv8) {
    c == 0x22 || c == 0x5C || c == 0x2F || c == 0x62 || c == 0x66 || c == 0x6E || c == 0x72 || c == 0x74
  }

  /** The length of the \u escape s starts with, 0 for none; the halves of a surrogate pair come together. */
  function UnicodeEscape(s: seq<bv8>): (n: nat)
    requires |s| >= 2
    ensures n <= |s| && (n == 0 || n == 6 || n == 12)
  {
    if !Hex4(s[2..]) then 0
    else
      var cp := Hex4Value(s[2..]);
      if 0xD800 <= cp <= 0xDBFF then
        if |s| >= 12 && s[6] == BACKSLASH && s[7] == 0x75 && Hex4(s[8..]) && 0xDC00 <= Hex4Value(s[8..]) <= 0xDFFF then 12
        else 0
      else if 0xDC00 <= cp <= 0xDFFF then 0
      else 6
  }

  /** The length of the character s starts with inside a string, 0 for none. */
  function CharLength(s: seq<bv8>): (n: nat)
    ensures n <= |s|
  {
    if s == [] || s[0] == QUOTE || s[0] < 0x20 then 0
    else if s[0] != BACKSLASH then 1
    else if |s| < 2 then 0
    else if s[1] == 0x75 then UnicodeEscape(s)
    else if ShortEscape(s[1]) then 2 else 0
  }

  /** What may stand between the quotes. */
  predicate Content(s: seq<bv8>)
    decreases |s|
  {
    s == [] || (CharLength(s) > 0 && Content(s[CharLength(s)..]))
  }

  // ---- numbers (section 6) -----------------------------------------------------------

  predicate Minus(s: seq<bv8>) { s == [] || s == [0x2D] }

  predicate Integer(s: seq<bv8>) { s != [] && Digits(s) && (|s| == 1 || s[0] != 0x30) }

  predicate Fraction(s: seq<bv8>) { s == [] || (|s| > 1 && s[0] == 0x2E && Digits(s[1..])) }

  predicate Sign(s: seq<bv8>) { s == [] || s == [0x2B] || s == [0x2D] }

  predicate Exponent(s: seq<bv8>) {
    s == [] || ((s[0] == 0x65 || s[0] == 0x45) && exists k: nat :: k <= |s| - 1 && ExponentAt(s[1..], k))
  }

  predicate ExponentAt(s: seq<bv8>, k: nat)
    requires k <= |s|
  {
    Sign(s[..k]) && k < |s| && Digits(s[k..])
  }

  predicate NumberParts(minus: seq<bv8>, whole: seq<bv8>, frac: seq<bv8>, exp: seq<bv8>) {
    Minus(minus) && Integer(whole) && Fraction(frac) && Exponent(exp)
  }

  ghost predicate Number(s: seq<bv8>) {
    exists minus, whole, frac, exp :: NumberParts(minus, whole, frac, exp) && s == minus + whole + frac + exp
  }

  // ---- trees and the bytes they spell (sections 2 to 5) ----------------------------------

  datatype Word = True | False | Null

  datatype Json =
    | JString(content: seq<bv8>)
    | JNumber(text: seq<bv8>)
    | JLiteral(word: Word)
    | JArray(gap: seq<bv8>, elements: seq<Element>)
    | JObject(gap: seq<bv8>, members: seq<Member>)

  /** A value with the whitespace around it. */
  datatype Element = Element(before: seq<bv8>, value: Json, after: seq<bv8>)

  datatype Member = Member(before: seq<bv8>, key: seq<bv8>, colon: seq<bv8>, space: seq<bv8>, value: Json, after: seq<bv8>)

  const TRUE_TEXT: seq<bv8> := [0x74, 0x72, 0x75, 0x65]
  const FALSE_TEXT: seq<bv8> := [0x66, 0x61, 0x6C, 0x73, 0x65]
  const NULL_TEXT: seq<bv8> := [0x6E, 0x75, 0x6C, 0x6C]

  function WordText(w: Word): seq<bv8> {
    match w case True => TRUE_TEXT case False => FALSE_TEXT case Null => NULL_TEXT
  }

  function StringText(content: seq<bv8>): seq<bv8> { [QUOTE] + content + [QUOTE] }

  function Text(v: Json): (s: seq<bv8>)
    decreases v, 0
  {
    match v
    case JString(content) => StringText(content)
    case JNumber(text) => text
    case JLiteral(word) => WordText(word)
    case JArray(gap, es) => [0x5B] + gap + ElementsText(es) + [0x5D]
    case JObject(gap, ms) => [0x7B] + gap + MembersText(ms) + [0x7D]
  }

  function ElementText(e: Element): seq<bv8>
    decreases e, 0
  {
    e.before + Text(e.value) + e.after
  }

  /** Elements between commas. */
  function ElementsText(es: seq<Element>): seq<bv8>
    decreases es, 0
  {
    if es == [] then []
    else ElementText(es[0]) + (if |es| == 1 then [] else [0x2C] + ElementsText(es[1..]))
  }

  function MemberText(m: Member): seq<bv8>
    decreases m, 0
  {
    m.before + StringText(m.key) + m.colon + [0x3A] + m.space + Text(m.value) + m.after
  }

  function MembersText(ms: seq<Member>): seq<bv8>
    decreases ms, 0
  {
    if ms == [] then []
    else MemberText(ms[0]) + (if |ms| == 1 then [] else [0x2C] + MembersText(ms[1..]))
  }

  ghost predicate WellFormed(v: Json)
    decreases v
  {
    match v
    case JString(content) => Content(content)
    case JNumber(text) => Number(text)
    case JLiteral(word) => true
    case JArray(gap, es) =>
      && Blanks(gap) && (es != [] ==> gap == [])
      && forall k :: 0 <= k < |es| ==> Blanks(es[k].before) && WellFormed(es[k].value) && Blanks(es[k].after)
    case JObject(gap, ms) =>
      && Blanks(gap) && (ms != [] ==> gap == [])
      && forall k :: 0 <= k < |ms| ==>
           && Blanks(ms[k].before) && Content(ms[k].key) && Blanks(ms[k].colon)
           && Blanks(ms[k].space) && WellFormed(ms[k].value) && Blanks(ms[k].after)
  }

  /** Containers nest at most d deep. */
  predicate Within(v: Json, d: nat)
    decreases v
  {
    match v
    case JArray(_, es) => d > 0 && forall k :: 0 <= k < |es| ==> Within(es[k].value, d - 1)
    case JObject(_, ms) => d > 0 && forall k :: 0 <= k < |ms| ==> Within(ms[k].value, d - 1)
    case _ => true
  }

  predicate Container(v: Json) { v.JArray? || v.JObject? }

  /** A text: the value and the whitespace behind it. Whitespace in front is skipped by the caller. */
  ghost predicate IsText(s: seq<bv8>, v: Json, tail: seq<bv8>) {
    WellFormed(v) && Blanks(tail) && s == Text(v) + tail
  }

  /** The bytes of the clean route: ASCII without tabs. */
  predicate Clean(s: seq<bv8>) { forall k :: 0 <= k < |s| ==> s[k] < 0x80 && s[k] != 0x09 }

  // ---- facts about lexemes -------------------------------------------------------------------

  lemma HexSlice(s: seq<bv8>, t: seq<bv8>, k: nat)
    requires k <= |s| && Hex4(s[k..])
    ensures Hex4((s + t)[k..]) && Hex4Value((s + t)[k..]) == Hex4Value(s[k..])
  {
    assert (s + t)[k..] == s[k..] + t;
  }

  /** A complete character stays that character whatever follows. */
  lemma CharExtends(s: seq<bv8>, t: seq<bv8>)
    requires CharLength(s) > 0
    ensures CharLength(s + t) == CharLength(s)
  {
    hide Hex4, Hex4Value, UnicodeEscape;
    if s[0] == BACKSLASH && s[1] == 0x75 { UnicodeExtends(s, t); }
  }

  lemma UnicodeExtends(s: seq<bv8>, t: seq<bv8>)
    requires |s| >= 2 && UnicodeEscape(s) > 0
    ensures UnicodeEscape(s + t) == UnicodeEscape(s)
  {
    hide Hex4, Hex4Value;
    HexSlice(s, t, 2);
    if UnicodeEscape(s) == 12 { HexSlice(s, t, 8); }
  }

  /** What a value's text begins with tells its kind. */
  lemma FirstByte(v: Json)
    requires WellFormed(v)
    ensures |Text(v)| > 0
    ensures var c := Text(v)[0];
      && (v.JString? <==> c == QUOTE) && (v.JArray? <==> c == 0x5B) && (v.JObject? <==> c == 0x7B)
      && (v.JNumber? <==> Digit(c) || c == 0x2D)
      && (v.JLiteral? <==> c == 0x74 || c == 0x66 || c == 0x6E)
      && !Blank(c) && c != 0x5D && c != 0x7D && c != 0x2C
  {
    if v.JNumber? { NumberFirst(v.text); }
  }

  lemma NumberFirst(s: seq<bv8>)
    requires Number(s)
    ensures s != [] && (Digit(s[0]) || s[0] == 0x2D)
  {
    var minus, whole, frac, exp :| NumberParts(minus, whole, frac, exp) && s == minus + whole + frac + exp;
    if minus == [] { assert s[0] == whole[0]; } else { assert s[0] == minus[0]; }
  }
}
