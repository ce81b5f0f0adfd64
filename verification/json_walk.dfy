/**
 * The columns walk as a pushdown machine, and its specification: a clean buffer is accepted exactly when it is a
 * JSON text, with the preorder records of its tree.
 */
module JsonWalk {
  import opened Wrappers
  import opened JsonGrammar
  import opened JsonLexer

  /** YEP_JSON_WALK_DEPTH. */
  const WALK_DEPTH: nat := 256

  datatype Kind = Doc | SeqOpen | MapOpen | Close | Nil | Yes | No | IntNum | FloatNum | Str

  /** One row of the three columns. */
  datatype Rec = Rec(kind: Kind, off: nat, len: nat)

  datatype Frame = Frame(isMap: bool, openAt: nat)

  /** Where in its container the walk stands: before the first member, before a later one, at a value, behind one. */
  datatype Place = First | Next | Value | After

  datatype State = State(place: Place, i: nat, frames: seq<Frame>, recs: seq<Rec>)

  datatype Outcome = Accept(recs: seq<Rec>) | Reject

  datatype Move = Go(state: State) | Stop(outcome: Outcome)

  predicate Ready(p: seq<bv8>, s: State) {
    && s.i <= |p| && (s.place == Value ==> s.i < |p|)
    && 0 < |s.frames| <= WALK_DEPTH
    && forall d :: 0 <= d < |s.frames| ==> s.frames[d].openAt < |s.recs|
  }

  function Top(s: State): Frame
    requires s.frames != []
  {
    s.frames[|s.frames| - 1]
  }

  function Opener(isMap: bool): bv8 { if isMap then 0x7B else 0x5B }

  function Closer(isMap: bool): bv8 { if isMap then 0x7D else 0x5D }

  function OpenKind(isMap: bool): Kind { if isMap then MapOpen else SeqOpen }

  function NumKind(text: seq<bv8>): Kind { if IntegerShape(text) then IntNum else FloatNum }

  function WordKind(w: Word): Kind { match w case True => Yes case False => No case Null => Nil }

  // ---- one step ------------------------------------------------------------------

  /** LCLOSE at position j: the links of the pair are set, the frame is gone. */
  function CloseAt(p: seq<bv8>, s: State, j: nat): (m: Move)
    requires Ready(p, s) && j < |p|
    ensures m.Go? ==> Ready(p, m.state) && m.state.i > j
  {
    var o := Top(s).openAt;
    var recs := s.recs[o := s.recs[o].(off := |s.recs|)] + [Rec(Close, o, 0)];
    var frames := s.frames[..|s.frames| - 1];
    if frames == [] then Stop(if Skip(p, j + 1) == |p| then Accept(recs) else Reject)
    else Go(State(After, j + 1, frames, recs))
  }

  /** A member at position j: in a map its key and the colon first. */
  function Member(p: seq<bv8>, s: State, j: nat): (m: Move)
    requires Ready(p, s) && s.i <= j < |p|
    ensures m.Go? ==> Ready(p, m.state) && m.state.i >= j && m.state.place == Value
  {
    if !Top(s).isMap then Go(State(Value, j, s.frames, s.recs))
    else if p[j] != QUOTE || StringEnd(p, j + 1).None? then Stop(Reject)
    else
      var c := StringEnd(p, j + 1).value;
      var k := Skip(p, c + 1);
      if k >= |p| || p[k] != 0x3A then Stop(Reject)
      else
        var v := Skip(p, k + 1);
        if v >= |p| then Stop(Reject)
        else Go(State(Value, v, s.frames, s.recs + [Rec(Str, j + 1, c - (j + 1))]))
  }

  function Scalar(s: State, rec: Rec, next: nat): Move {
    Go(State(After, next, s.frames, s.recs + [rec]))
  }

  /** A value at position i: a string, a number, a literal or a container's opener. */
  ghost function ValueAt(p: seq<bv8>, s: State): (m: Move)
    requires Ready(p, s) && s.i < |p|
    ensures m.Go? ==> Ready(p, m.state) && m.state.i > s.i
  {
    var i, c := s.i, p[s.i];
    if c == QUOTE then
      match StringEnd(p, i + 1)
      case None => Stop(Reject)
      case Some(e) => Scalar(s, Rec(Str, i + 1, e - (i + 1)), e + 1)
    else if Digit(c) || c == 0x2D then
      var e := RunEnd(p, i + 1);
      if Number(p[i..e]) then Scalar(s, Rec(NumKind(p[i..e]), i, e - i), e) else Stop(Reject)
    else if WordAt(c).Some? then
      match LiteralEnd(p, i)
      case None => Stop(Reject)
      case Some(e) => Scalar(s, Rec(WordKind(WordAt(c).value), i, e - i), e)
    else if (c == 0x7B || c == 0x5B) && |s.frames| < WALK_DEPTH then
      Go(State(First, i + 1, s.frames + [Frame(c == 0x7B, |s.recs|)], s.recs + [Rec(OpenKind(c == 0x7B), 0, 0)]))
    else Stop(Reject)
  }

  ghost function Step(p: seq<bv8>, s: State): (m: Move)
    requires Ready(p, s)
    ensures m.Go? ==> Ready(p, m.state) && m.state.i >= s.i
    ensures m.Go? && m.state.i == s.i ==> s.place != Value && m.state.place == Value
  {
    if s.place == Value then ValueAt(p, s)
    else
      var j := Skip(p, s.i);
      if j >= |p| then Stop(Reject)
      else if s.place == After then
        if p[j] == 0x2C then Go(State(Next, j + 1, s.frames, s.recs))
        else if p[j] == Closer(Top(s).isMap) then CloseAt(p, s, j)
        else Stop(Reject)
      else if s.place == First && p[j] == Closer(Top(s).isMap) then CloseAt(p, s, j)
      else Member(p, s, j)
  }

  ghost function Run(p: seq<bv8>, s: State): Outcome
    requires Ready(p, s)
    decreases |p| - s.i, if s.place == Value then 0 else 1
  {
    match Step(p, s)
    case Stop(o) => o
    case Go(t) => Run(p, t)
  }

  /** The walk from the opener at position open. */
  function Start(p: seq<bv8>, open: nat): State
    requires open < |p|
  {
    State(First, open + 1, [Frame(p[open] == 0x7B, 1)], [Rec(Doc, 0, 0), Rec(OpenKind(p[open] == 0x7B), 0, 0)])
  }

  ghost function Walk(p: seq<bv8>, open: nat): Outcome
    requires open < |p|
  {
    Run(p, Start(p, open))
  }

  // ---- the records of a tree ----------------------------------------------------------

  /** The preorder records of a value whose text starts at position at, the first at row base. */
  function Recs(v: Json, at: nat, base: nat): (r: seq<Rec>)
    ensures |r| > 0
    decreases v, 0
  {
    match v
    case JString(content) => [Rec(Str, at + 1, |content|)]
    case JNumber(text) => [Rec(NumKind(text), at, |text|)]
    case JLiteral(word) => [Rec(WordKind(word), at, |WordText(word)|)]
    case JArray(gap, es) => Bracketed(false, ElementRecs(es, at + 1, base + 1), base)
    case JObject(gap, ms) => Bracketed(true, MemberRecs(ms, at + 1, base + 1), base)
  }

  /** A container's rows: its two ends point at each other. */
  function Bracketed(isMap: bool, inner: seq<Rec>, base: nat): (r: seq<Rec>)
    ensures |r| == |inner| + 2
  {
    [Rec(OpenKind(isMap), base + 1 + |inner|, 0)] + inner + [Rec(Close, base, 0)]
  }

  function ElementRecs(es: seq<Element>, at: nat, base: nat): seq<Rec>
    decreases es, 0
  {
    if es == [] then []
    else
      var first := Recs(es[0].value, at + |es[0].before|, base);
      first + ElementRecs(es[1..], at + |ElementText(es[0])| + 1, base + |first|)
  }

  /** Where a member's value starts. */
  function ValueOffset(m: Member): nat { |m.before| + |m.key| + 2 + |m.colon| + 1 + |m.space| }

  function MemberRecs(ms: seq<Member>, at: nat, base: nat): seq<Rec>
    decreases ms, 0
  {
    if ms == [] then []
    else
      var m := ms[0];
      var first := [Rec(Str, at + |m.before| + 1, |m.key|)] + Recs(m.value, at + ValueOffset(m), base + 1);
      first + MemberRecs(ms[1..], at + |MemberText(m)| + 1, base + |first|)
  }
}
