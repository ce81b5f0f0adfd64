/** tape_walk as the program runs it: one loop over tokens, proved to compute the reference machine, verdict and rows. */
module JsonReference {
  import opened Wrappers
  import opened JsonGrammar
  import opened JsonLexer
  import opened JsonWalk
  import opened JsonScan
  import opened JsonNumber
  import opened JsonLoose
  import JsonLooseComplete
  import JsonShape
  import JsonTape

  // ---- the walker against the machine --------------------------------------------------

  /** The columns and the cursor are in order. */
  ghost predicate Held(w: JsonTape.Walker)
    reads w, w.kinds, w.offs, w.lens, w.words, w.openAt, w.isMap
  {
    w.Sized() && w.Stored() && !w.packed && w.i <= |w.p| && w.count <= w.i + 1
  }

  ghost function Now(w: JsonTape.Walker, x: Expect, lone: nat): Spot
    requires w.Sized()
    reads w, w.openAt, w.isMap
  {
    Spot(x, w.i, w.Frames(), w.rows, lone)
  }

  /** The machine, resumed where the walker stands, comes to out. */
  ghost predicate On(w: JsonTape.Walker, x: Expect, lone: nat, all: bool, out: Verdict)
    reads w, w.kinds, w.offs, w.lens, w.words, w.openAt, w.isMap
  {
    Held(w) && Fit(w.p, Now(w, x, lone)) && RefRun(w.p, Now(w, x, lone), all) == out
  }

  /** And a token is at the cursor. */
  ghost predicate Facing(w: JsonTape.Walker, x: Expect, lone: nat, all: bool, out: Verdict)
    reads w, w.kinds, w.offs, w.lens, w.words, w.openAt, w.isMap
  {
    On(w, x, lone, all, out) && w.i < |w.p| && !Blank(w.p[w.i])
  }

  lemma FacingToken(w: JsonTape.Walker, x: Expect, lone: nat, all: bool, out: Verdict)
    requires Facing(w, x, lone, all, out)
    ensures out == JsonLooseComplete.Ended(w.p, Token(w.p, Now(w, x, lone), all), all)
  {
    hide RefRun, Token, Fit;
    JsonLooseComplete.NotBlankStays(w.p, w.i);
    JsonLooseComplete.TokenRuns(w.p, Now(w, x, lone), all);
  }

  lemma TopFrame(w: JsonTape.Walker, x: Expect, lone: nat)
    requires w.Sized() && Fit(w.p, Now(w, x, lone))
    ensures w.depth > 0 && Inner(Now(w, x, lone)) == Frame(w.isMap[w.depth - 1], w.openAt[w.depth - 1]) && w.openAt[w.depth - 1] < w.count
  {
    assert w.Frames()[w.depth - 1] == Frame(w.isMap[w.depth - 1], w.openAt[w.depth - 1]);
  }

  // ---- the tokens -----------------------------------------------------------------------

  /** tape_inline_punct. */
  method InlinePunct(w: JsonTape.Walker, want: bv8) returns (hit: bool)
    requires w.i <= |w.p|
    modifies w`i
    ensures var j := Lead(w.p, old(w.i)); (hit <==> j < |w.p| && w.p[j] == want) && w.i == if hit then j + 1 else j
    ensures old(w.i) <= w.i <= |w.p|
  {
    var j := SkipLead(w.p, w.i);
    hit := j < |w.p| && w.p[j] == want;
    w.i := if hit then j + 1 else j;
  }

  /** Behind a value: the comma, if it is next, goes with it. */
  method TakeComma(w: JsonTape.Walker, ghost lone: nat, ghost all: bool, ghost out: Verdict) returns (x: Expect)
    requires On(w, CommaOrClose, lone, all, out)
    modifies w`i
    ensures On(w, x, lone, all, out) && w.i >= old(w.i)
  {
    hide RefRun, Lead, Fit;
    ghost var s := Now(w, CommaOrClose, lone);
    TopFrame(w, CommaOrClose, lone);
    JsonLooseComplete.SkipRuns(w.p, s, all);
    var hit := InlinePunct(w, 0x2C);
    x := CommaOrClose;
    if hit {
      JsonLooseComplete.AfterRuns(w.p, s, all);
      x := if w.isMap[w.depth - 1] then Key else AnyValue;
      assert Now(w, x, lone) == s.(x := x, i := w.i);
    } else {
      assert Now(w, x, lone) == s.(i := w.i);
    }
  }

  /** Behind a key: the colon, if it is next, goes with it. */
  method TakeColon(w: JsonTape.Walker, ghost lone: nat, ghost all: bool, ghost out: Verdict) returns (x: Expect)
    requires On(w, Colon, lone, all, out)
    modifies w`i
    ensures On(w, x, lone, all, out) && w.i >= old(w.i)
  {
    hide RefRun, Lead, Fit;
    ghost var s := Now(w, Colon, lone);
    JsonLooseComplete.SkipRuns(w.p, s, all);
    var hit := InlinePunct(w, 0x3A);
    x := Colon;
    if hit {
      ColonGoes(w.p, s, all);
      x := AnyValue;
      assert Now(w, x, lone) == s.(x := x, i := w.i);
    } else {
      assert Now(w, x, lone) == s.(i := w.i);
    }
  }

  lemma ColonGoes(p: seq<bv8>, s: Spot, all: bool)
    requires Fit(p, s) && s.x == Colon && Lead(p, s.i) < |p| && p[Lead(p, s.i)] == 0x3A
    ensures var t := s.(x := AnyValue, i := Lead(p, s.i) + 1); Fit(p, t) && RefRun(p, s, all) == RefRun(p, t, all)
  {
    hide RefRun, Lead;
    JsonLooseComplete.TokenRuns(p, s, all);
  }

  /** One scalar's row, and the cursor behind it. */
  method PutScalar(w: JsonTape.Walker, x0: Expect, kind: Kind, off: nat, len: nat, e: nat, x: Expect, ghost lone: nat,
                   ghost more: nat, ghost all: bool, ghost out: Verdict)
    requires Facing(w, x0, lone, all, out)
    requires Token(w.p, Now(w, x0, lone), all) == Goes(Spot(x, e, w.Frames(), w.rows + [Rec(kind, off, len)], more)) && e > w.i
    modifies w`i, w`count, w`rows, w.kinds, w.offs, w.lens, w.words
    ensures On(w, x, more, all, out) && w.i == e
  {
    hide RefRun, Token;
    FacingToken(w, x0, lone, all, out);
    ghost var s := Token(w.p, Now(w, x0, lone), all).spot;
    w.PutRow(kind, off, len);
    w.i := e;
    assert Now(w, x, more) == s;
  }

  lemma NumberToken(p: seq<bv8>, s: Spot, all: bool)
    requires Fit(p, s) && s.i < |p| && (Digit(p[s.i]) || p[s.i] == 0x2D) && s.x != Colon && s.x != CommaOrClose
    ensures Token(p, s, all) == NumberTurn(p, s)
  {}

  lemma StringToken(p: seq<bv8>, s: Spot, all: bool)
    requires Fit(p, s) && s.i < |p| && p[s.i] == QUOTE && s.x != Colon && s.x != CommaOrClose
    ensures Token(p, s, all) == StringTurn(p, s)
  {}

  lemma WordToken(p: seq<bv8>, s: Spot, all: bool)
    requires Fit(p, s) && s.i < |p| && WordAt(p[s.i]).Some? && s.x != Colon && s.x != CommaOrClose
    ensures Token(p, s, all) == WordTurn(p, s)
  {}

  method NumberArm(w: JsonTape.Walker, x0: Expect, ghost lone: nat, ghost all: bool, ghost out: Verdict) returns (ok: bool, x: Expect)
    requires Facing(w, x0, lone, all, out) && x0 != Colon && x0 != CommaOrClose && (Digit(w.p[w.i]) || w.p[w.i] == 0x2D)
    modifies w`i, w`count, w`rows, w.kinds, w.offs, w.lens, w.words
    ensures if ok then On(w, x, lone, all, out) && w.i > old(w.i) else w.Sized() && out == Refused
  {
    hide RefRun, Token, Fit, JsonShape.Shape;
    FacingToken(w, x0, lone, all, out);
    NumberToken(w.p, Now(w, x0, lone), all);
    x := x0;
    if x0 == Key || x0 == KeyOrClose {
      return false, x;
    }
    var shape := JsonShape.NumberShape(w.p, w.i);
    if shape == None {
      return false, x;
    }
    var n := shape.value.0;
    PutScalar(w, x0, if shape.value.1 then FloatNum else IntNum, w.i, n, w.i + n, CommaOrClose, lone, lone, all, out);
    x := TakeComma(w, lone, all, out);
    ok := true;
  }

  /** A string, or in a key place a key. */
  method StringArm(w: JsonTape.Walker, x0: Expect, ghost lone: nat, ghost all: bool, ghost out: Verdict) returns (ok: bool, x: Expect)
    requires Facing(w, x0, lone, all, out) && x0 != Colon && x0 != CommaOrClose && w.p[w.i] == QUOTE
    modifies w`i, w`count, w`rows, w.kinds, w.offs, w.lens, w.words
    ensures if ok then On(w, x, lone, all, out) && w.i > old(w.i) else w.Sized() && out == Refused
  {
    hide RefRun, Token, Fit, AnyEnd;
    FacingToken(w, x0, lone, all, out);
    StringToken(w.p, Now(w, x0, lone), all);
    x := x0;
    var close := JsonString(w.p, w.i);
    if close == None {
      return false, x;
    }
    var keyed := x0 == Key || x0 == KeyOrClose;
    PutScalar(w, x0, Str, w.i + 1, close.value - (w.i + 1), close.value + 1, if keyed then Colon else CommaOrClose, lone, lone, all, out);
    if keyed {
      x := TakeColon(w, lone, all, out);
    } else {
      x := TakeComma(w, lone, all, out);
    }
    ok := true;
  }

  /** A literal: in a key place too. */
  method WordArm(w: JsonTape.Walker, x0: Expect, ghost lone: nat, ghost all: bool, ghost out: Verdict)
    returns (ok: bool, x: Expect, ghost more: nat)
    requires Facing(w, x0, lone, all, out) && x0 != Colon && x0 != CommaOrClose && WordAt(w.p[w.i]).Some?
    modifies w`i, w`count, w`rows, w.kinds, w.offs, w.lens, w.words
    ensures if ok then On(w, x, more, all, out) && w.i > old(w.i) else w.Sized() && out == Refused
  {
    hide RefRun, Token, Fit, LiteralEnd;
    FacingToken(w, x0, lone, all, out);
    WordToken(w.p, Now(w, x0, lone), all);
    x, more := x0, lone + LoneHere(x0);
    var c := w.p[w.i];
    var e := ScanLiteral(w.p, w.i);
    if e == None {
      return false, x, more;
    }
    PutScalar(w, x0, if c == 0x6E then Nil else if c == 0x74 then Yes else No, w.i, e.value - w.i, e.value, CommaOrClose, lone, more, all, out);
    x := TakeComma(w, more, all, out);
    ok := true;
  }

  method OpenArm(w: JsonTape.Walker, x0: Expect, ghost lone: nat, ghost all: bool, ghost out: Verdict) returns (ok: bool, x: Expect)
    requires Facing(w, x0, lone, all, out) && x0 != Colon && x0 != CommaOrClose && (w.p[w.i] == 0x7B || w.p[w.i] == 0x5B)
    modifies w, w.kinds, w.offs, w.lens, w.words, w.openAt, w.isMap
    ensures if ok then On(w, x, lone, all, out) && w.i > old(w.i) else w.Sized() && out == Refused
  {
    hide RefRun, Token, Fit;
    var keyed := w.p[w.i] == 0x7B;
    FacingToken(w, x0, lone, all, out);
    TopFrame(w, x0, lone);
    OpenToken(w.p, Now(w, x0, lone), all);
    x := x0;
    if w.depth >= WALK_DEPTH {
      return false, x;
    }
    if x0 == Key || x0 == KeyOrClose {
      return false, x;
    }
    ghost var t := Opened(Now(w, x0, lone), keyed);
    ghost var outer := w.Frames();
    w.isMap[w.depth] := keyed;
    w.openAt[w.depth] := w.count;
    assert w.Frames() == outer;
    w.PutRow(OpenKind(keyed), 0, 0);
    w.depth := w.depth + 1;
    w.i := w.i + 1;
    assert w.Frames() == outer + [Frame(keyed, w.count - 1)];
    x := if keyed then KeyOrClose else ValueOrClose;
    assert Now(w, x, lone) == t;
    ok := true;
  }

  lemma OpenToken(p: seq<bv8>, s: Spot, all: bool)
    requires Fit(p, s) && s.i < |p| && (p[s.i] == 0x7B || p[s.i] == 0x5B) && s.x != Colon && s.x != CommaOrClose
    ensures Token(p, s, all) == OpenTurn(p, s, p[s.i] == 0x7B)
  {}

  datatype Pace = Going | Done | Failed

  /** What is left when the root has closed. */
  ghost predicate Left(w: JsonTape.Walker, lone: nat, all: bool, out: Verdict)
    reads w
  {
    w.i <= |w.p| && out == if all && Lead(w.p, w.i) != |w.p| then Refused else Taken(w.rows, lone)
  }

  /** How far the walk is. */
  ghost predicate At(w: JsonTape.Walker, pace: Pace, x: Expect, lone: nat, all: bool, out: Verdict)
    reads w, w.kinds, w.offs, w.lens, w.words, w.openAt, w.isMap
  {
    match pace
    case Going => On(w, x, lone, all, out)
    case Done => Held(w) && Left(w, lone, all, out)
    case Failed => w.Sized() && out == Refused
  }

  /** A closer: where one may stand, and the container's own, its row, the opener's link, the frame. */
  method CloseArm(w: JsonTape.Walker, x0: Expect, ghost lone: nat, ghost all: bool, ghost out: Verdict) returns (pace: Pace)
    requires Facing(w, x0, lone, all, out) && x0 != Colon && IsCloser(w.p[w.i])
    modifies w, w.kinds, w.offs, w.lens, w.words
    ensures At(w, pace, CommaOrClose, lone, all, out) && (pace != Failed ==> w.i > old(w.i))
  {
    hide RefRun, Token, Lead, Fit;
    FacingToken(w, x0, lone, all, out);
    TopFrame(w, x0, lone);
    ghost var s := Now(w, x0, lone);
    CloseToken(w.p, s, all);
    if w.isMap[w.depth - 1] != (w.p[w.i] == 0x7D) || !(x0 == ValueOrClose || x0 == KeyOrClose || x0 == CommaOrClose) {
      return Failed;
    }
    ghost var below := w.Frames()[..w.depth - 1];
    w.PutPair(w.openAt[w.depth - 1]);
    w.i := w.i + 1;
    w.depth := w.depth - 1;
    assert w.Frames() == below;
    pace := if w.depth == 0 then Done else Going;
  }

  lemma CloseToken(p: seq<bv8>, s: Spot, all: bool)
    requires Fit(p, s) && s.i < |p| && IsCloser(p[s.i]) && s.x != Colon
    ensures Token(p, s, all) == if p[s.i] == Closer(Inner(s).isMap) && MayClose(s.x) then Closing(p, s, s.i, all) else Ends(Refused)
  {}

  /** Where a value or a key is due. */
  method ValueArm(w: JsonTape.Walker, x0: Expect, ghost lone: nat, ghost all: bool, ghost out: Verdict)
    returns (ok: bool, x: Expect, ghost more: nat)
    requires Facing(w, x0, lone, all, out) && x0 != Colon && x0 != CommaOrClose && !IsCloser(w.p[w.i])
    modifies w, w.kinds, w.offs, w.lens, w.words, w.openAt, w.isMap
    ensures if ok then On(w, x, more, all, out) && w.i > old(w.i) else w.Sized() && out == Refused
  {
    hide RefRun, Token, On;
    x, more := x0, lone;
    var c := w.p[w.i];
    if 0x30 <= c <= 0x39 || c == 0x2D {
      ok, x := NumberArm(w, x0, lone, all, out);
    } else if c == QUOTE {
      ok, x := StringArm(w, x0, lone, all, out);
    } else if c == 0x7B || c == 0x5B {
      ok, x := OpenArm(w, x0, lone, all, out);
    } else if c == 0x74 || c == 0x66 || c == 0x6E {
      ok, x, more := WordArm(w, x0, lone, all, out);
    } else {
      NoToken(w, x0, lone, all, out);
      ok := false;
    }
  }

  lemma NoToken(w: JsonTape.Walker, x: Expect, lone: nat, all: bool, out: Verdict)
    requires Facing(w, x, lone, all, out) && x != Colon && !IsCloser(w.p[w.i]) && (x == CommaOrClose ==> w.p[w.i] != 0x2C)
    requires var c := w.p[w.i];
      x == CommaOrClose || (!Digit(c) && c != 0x2D && c != QUOTE && c != 0x7B && c != 0x5B && c != 0x74 && c != 0x66 && c != 0x6E)
    ensures w.Sized() && out == Refused
  {
    hide RefRun;
    FacingToken(w, x, lone, all, out);
  }

  /** One token; the punctuation states come first. */
  method NextToken(w: JsonTape.Walker, x0: Expect, ghost lone: nat, ghost all: bool, ghost out: Verdict)
    returns (pace: Pace, x: Expect, ghost more: nat)
    requires Facing(w, x0, lone, all, out)
    modifies w, w.kinds, w.offs, w.lens, w.words, w.openAt, w.isMap
    ensures At(w, pace, x, more, all, out) && (pace != Failed ==> w.i > old(w.i))
  {
    hide RefRun, Token, Fit;
    x, more := x0, lone;
    var c := w.p[w.i];
    var ok := true;
    if x0 == Colon {
      ok := PunctToken(w, x0, 0x3A, AnyValue, lone, all, out);
      x := AnyValue;
    } else if x0 == CommaOrClose && c == 0x2C {
      TopFrame(w, x0, lone);
      x := if w.isMap[w.depth - 1] then Key else AnyValue;
      ok := PunctToken(w, x0, 0x2C, x, lone, all, out);
    } else if c == 0x5D || c == 0x7D {
      pace := CloseArm(w, x0, lone, all, out);
      x := CommaOrClose;
      return;
    } else if x0 == CommaOrClose {
      NoToken(w, x0, lone, all, out);
      ok := false;
    } else {
      ok, x, more := ValueArm(w, x0, lone, all, out);
    }
    pace := if ok then Going else Failed;
  }

  /** The colon that is due, or a comma behind a value. */
  method PunctToken(w: JsonTape.Walker, x0: Expect, want: bv8, x: Expect, ghost lone: nat, ghost all: bool, ghost out: Verdict)
    returns (ok: bool)
    requires Facing(w, x0, lone, all, out)
    requires (x0 == Colon && want == 0x3A && x == AnyValue)
          || (x0 == CommaOrClose && want == 0x2C == w.p[w.i] && x == AfterComma(Inner(Now(w, x0, lone)).isMap))
    modifies w`i
    ensures if ok then On(w, x, lone, all, out) && w.i > old(w.i) else w.Sized() && out == Refused
  {
    hide RefRun;
    FacingToken(w, x0, lone, all, out);
    ghost var s := Now(w, x0, lone);
    if w.p[w.i] != want {
      return false;
    }
    w.i := w.i + 1;
    assert Now(w, x, lone) == s.(x := x, i := w.i);
    ok := true;
  }

  /** The root's frame. */
  method Root(w: JsonTape.Walker, open: nat, keyed: bool)
    requires w.Arrays() && !w.packed && open < |w.p|
    modifies w, w.openAt, w.isMap
    ensures w.Sized() && w.Stored() && w.i == open + 1 && w.count == 0 && w.rows == [] && w.Frames() == [Frame(keyed, 1)]
  {
    w.i, w.count, w.depth, w.rows := open + 1, 0, 1, [];
    w.isMap[0] := keyed;
    w.openAt[0] := 1;
  }

  /** The columns in front of the loop. */
  method Begin(w: JsonTape.Walker, open: nat, ghost all: bool) returns (x: Expect)
    requires w.Arrays() && !w.packed && open < |w.p| && (w.p[open] == 0x7B || w.p[open] == 0x5B)
    modifies w, w.kinds, w.offs, w.lens, w.words, w.openAt, w.isMap
    ensures On(w, x, 0, all, RefWalk(w.p, open, all))
  {
    hide RefRun, Fit;
    var keyed := w.p[open] == 0x7B;
    Root(w, open, keyed);
    w.PutRow(Doc, 0, 0);
    w.PutRow(OpenKind(keyed), 0, 0);
    assert w.rows == [Rec(Doc, 0, 0), Rec(OpenKind(keyed), 0, 0)];
    x := if keyed then KeyOrClose else ValueOrClose;
    JsonLooseComplete.RootFits(w.p, open, keyed);
    assert Now(w, x, 0) == Opened(Outside(open), keyed);
  }

  /** tape_walk from the opener at position open: the machine's verdict, and its rows in the columns. */
  method TapeWalk(w: JsonTape.Walker, open: nat, checkTail: bool) returns (ok: bool)
    requires w.Arrays() && !w.packed && open < |w.p| && (w.p[open] == 0x7B || w.p[open] == 0x5B)
    modifies w, w.kinds, w.offs, w.lens, w.words, w.openAt, w.isMap
    ensures w.Sized()
    ensures ok <==> RefWalk(w.p, open, checkTail).Taken?
    ensures ok ==> w.Rows() == RefWalk(w.p, open, checkTail).recs
  {
    hide RefRun, RefWalk, Lead, Fit;
    var x := Begin(w, open, checkTail);
    ghost var out, lone := RefWalk(w.p, open, checkTail), 0;
    var pace := Going;
    while pace == Going
      invariant At(w, pace, x, lone, checkTail, out)
      decreases pace == Going, if pace == Going then |w.p| - w.i else 0
    {
      GoesOn(w, x, lone, checkTail, out);
      w.i := SkipLead(w.p, w.i);
      if w.i >= |w.p| {
        return false;
      }
      pace, x, lone := NextToken(w, x, lone, checkTail, out);
    }
    if pace == Failed {
      return false;
    }
    var tail := SkipLead(w.p, w.i);
    assert w.Rows() == w.rows;
    ok := !checkTail || tail == |w.p|;
  }

  /** Whitespace on the way changes nothing; at the end of the bytes the text is refused. */
  lemma GoesOn(w: JsonTape.Walker, x: Expect, lone: nat, all: bool, out: Verdict)
    requires On(w, x, lone, all, out)
    ensures w.i <= |w.p|
    ensures var s := Now(w, x, lone).(i := Lead(w.p, w.i));
      Fit(w.p, s) && RefRun(w.p, s, all) == out && (s.i >= |w.p| ==> out == Refused) && (s.i < |w.p| ==> !Blank(w.p[s.i])) && s.i >= w.i
  {
    hide Lead, Token;
    JsonLooseComplete.LeadAgain(w.p, w.i);
    JsonLooseComplete.SkipRuns(w.p, Now(w, x, lone), all);
  }
}
