/**
 * The two tape walks as the program runs them: one loop over labelled regions that back-patches each opener when its
 * container closes. They differ in what a row is stored as, three columns or one word, and the walk over words also
 * notes whether a key is too long.
 */
module JsonTape {
  import opened Wrappers
  import opened JsonGrammar
  import opened JsonLexer
  import opened JsonWalk
  import opened JsonScan
  import opened JsonNumber
  import opened JsonRecord
  import opened JsonKeys

  /** The region the loop is in; a map's value and a sequence's share one, as do the two kinds of the others. */
  datatype Region = AtFirst | AtNext | AtValue | Behind | Done | Rejected

  function PlaceOf(r: Region): Place
    requires r != Done && r != Rejected
  {
    match r case AtFirst => First case AtNext => Next case AtValue => Value case Behind => After
  }

  class Walker {
    const p: seq<bv8>
    /** _rec_primary: the words carry the rows. */
    const packed: bool
    const kinds: array<Kind>
    const offs: array<nat>
    const lens: array<nat>
    const words: array<nat>
    const openAt: array<nat>
    const isMap: array<bool>
    var i: nat
    var count: nat
    var depth: nat
    var longKnown: bool
    var longKey: bool
    /** The rows put so far, links patched. */
    ghost var rows: seq<Rec>
    /** The verdict on the keys so far. */
    ghost var note: Option<bool>

    /** tape_carve: len + 2 rows. */
    constructor (p: seq<bv8>, packed: bool)
      ensures this.p == p && this.packed == packed && Arrays()
      ensures fresh(kinds) && fresh(offs) && fresh(lens) && fresh(words) && fresh(openAt) && fresh(isMap)
      ensures count == 0 && depth == 0 && i == 0 && rows == [] && note == None && !longKnown
    {
      this.p, this.packed := p, packed;
      kinds := new Kind[|p| + 2](_ => Doc);
      offs := new nat[|p| + 2](_ => 0);
      lens := new nat[|p| + 2](_ => 0);
      words := new nat[|p| + 2](_ => 0);
      openAt := new nat[WALK_DEPTH](_ => 0);
      isMap := new bool[WALK_DEPTH](_ => false);
      i, count, depth, longKnown, longKey, rows, note := 0, 0, 0, false, false, [], None;
    }

    predicate Arrays() {
      && kinds.Length == offs.Length == lens.Length == words.Length == |p| + 2 && openAt.Length == isMap.Length == WALK_DEPTH
      && offs != lens && offs != openAt && lens != openAt && words != offs && words != lens && words != openAt
    }

    ghost predicate Sized()
      reads `count, `depth, `rows
    {
      Arrays() && count <= |p| + 2 && depth <= WALK_DEPTH && |rows| == count
    }

    /** The rows are in the words, or in the columns. */
    ghost predicate Stored()
      reads `count, `rows, kinds, offs, lens, words
    {
      && Arrays() && |rows| == count <= |p| + 2
      && if packed then InWords() else InColumns()
    }

    ghost predicate InWords()
      requires Arrays() && |rows| == count <= |p| + 2
      reads `count, `rows, words
    {
      forall k :: 0 <= k < count ==> words[k] == Pack(rows[k])
    }

    ghost predicate InColumns()
      requires Arrays() && |rows| == count <= |p| + 2
      reads `count, `rows, kinds, offs, lens
    {
      forall k :: 0 <= k < count ==> Rec(kinds[k], offs[k], lens[k]) == rows[k]
    }

    /** What the columns hold. */
    ghost function Rows(): (r: seq<Rec>)
      requires Sized()
      reads `count, `depth, `rows, kinds, offs, lens
      ensures |r| == count
    {
      seq(count, k requires 0 <= k < |p| + 2 && Arrays() reads kinds, offs, lens => Rec(kinds[k], offs[k], lens[k]))
    }

    /** The open containers. */
    ghost function Frames(): (f: seq<Frame>)
      requires Sized()
      reads `count, `depth, `rows, openAt, isMap
      ensures |f| == depth
    {
      seq(depth, d requires 0 <= d < WALK_DEPTH && Arrays() reads openAt, isMap => Frame(isMap[d], openAt[d]))
    }

    /** The rows are stored, and the keys among them noted. */
    ghost predicate Kept(atValue: bool)
      reads this, kinds, offs, lens, words, openAt, isMap
    {
      && Sized() && Stored() && Noted(p, rows, Frames(), atValue, note)
      && (packed ==> note == if longKnown then Some(longKey) else None)
    }

    ghost function At(r: Region): State
      requires Sized() && r != Done && r != Rejected
      reads this, openAt, isMap
    {
      State(PlaceOf(r), i, Frames(), rows)
    }

    method PutRow(kind: Kind, off: nat, len: nat)
      requires Sized() && Stored() && count <= |p|
      modifies `count, `rows, kinds, offs, lens, words
      ensures Sized() && Stored() && count == old(count) + 1 && rows == old(rows) + [Rec(kind, off, len)]
      ensures Frames() == old(Frames())
    {
      hide Pack;
      if packed {
        words[count] := Pack(Rec(kind, off, len));
      } else {
        kinds[count] := kind;
        offs[count] := off;
        lens[count] := len;
      }
      rows := rows + [Rec(kind, off, len)];
      count := count + 1;
    }

    /** LPUSH past its depth check. */
    method Push(keyed: bool)
      requires Kept(true) && count <= |p| && 0 < depth < WALK_DEPTH
      modifies this, kinds, offs, lens, words, openAt, isMap
      ensures Kept(false) && i == old(i) + 1 && count == old(count) + 1
      ensures Frames() == old(Frames()) + [Frame(keyed, |old(rows)|)]
      ensures rows == old(rows) + [Rec(OpenKind(keyed), 0, 0)]
    {
      hide Noted, Pack, Stored;
      ghost var outer := Frames();
      ghost var more, inner := rows + [Rec(OpenKind(keyed), 0, 0)], outer + [Frame(keyed, |rows|)];
      PushNoted(p, rows, outer, note, keyed);
      assert Noted(p, more, inner, false, note);
      isMap[depth] := keyed;
      openAt[depth] := count;
      assert Frames() == outer;
      PutRow(OpenKind(keyed), 0, 0);
      depth := depth + 1;
      i := i + 1;
      assert rows == more && Frames() == inner;
    }

    /** LCLOSE: the closer's row points at the opener's, and the opener's is patched to point back. */
    method Close()
      requires Kept(false) && count <= |p| && depth > 0
      modifies this, kinds, offs, lens, words
      ensures Kept(false) && i == old(i) + 1 && count == old(count) + 1 && Frames() == old(Frames())[..old(depth) - 1]
      ensures var o := old(openAt[depth - 1]);
        o < |old(rows)| && rows == old(rows)[o := old(rows)[o].(off := |old(rows)|)] + [Rec(JsonWalk.Close, o, 0)]
    {
      hide Noted, Pack, Stored;
      CloseNoted(p, rows, Frames(), note);
      OpenerRow(p, rows, Frames(), note);
      var lo := openAt[depth - 1];
      assert Frames()[depth - 1].openAt == lo;
      ghost var below := Frames()[..depth - 1];
      PutPair(lo);
      i := i + 1;
      depth := depth - 1;
      assert Frames() == below;
    }

    /** The closer's row, and the opener's link. */
    method PutPair(lo: nat)
      requires Sized() && Stored() && count <= |p| && lo < count && (packed ==> rows[lo].len == 0)
      modifies `count, `rows, kinds, offs, lens, words
      ensures Sized() && Stored() && count == old(count) + 1 && Frames() == old(Frames())
      ensures rows == old(rows)[lo := old(rows)[lo].(off := |old(rows)|)] + [Rec(JsonWalk.Close, lo, 0)]
    {
      hide Pack;
      if packed {
        words[count] := Pack(Rec(JsonWalk.Close, lo, 0));
        PatchedIs(rows[lo], count);
        words[lo] := Patched(words[lo], count);
      } else {
        kinds[count] := JsonWalk.Close;
        offs[count] := lo;
        lens[count] := 0;
        offs[lo] := count;
      }
      rows := rows[lo := rows[lo].(off := count)] + [Rec(JsonWalk.Close, lo, 0)];
      count := count + 1;
    }

    /** Behind a key's row: the first key that may be too long decides. */
    method NoteKey()
      requires Sized() && Stored() && packed && rows != [] && (note == if longKnown then Some(longKey) else None)
      requires rows[|rows| - 1].kind == Str && CleanSpan(p, rows[|rows| - 1])
      modifies `longKnown, `longKey
      ensures var r := rows[|rows| - 1];
        (if longKnown then Some(longKey) else None) == if note.Some? then note else if Candidate(r) then Some(TooLong(p, r)) else None
    {
      hide Pack;
      ghost var r := rows[|rows| - 1];
      UnpackPack(r);
      CleanIsAscii(p, r);
      var word := words[count - 1];
      assert Unpack(word) == Through(r);
      var kl := word / 256 % TWO_24;
      if kl + QUOTES > KEY_LIMIT && !longKnown {
        longKnown := true;
        var n := CountChars(p, word / TWO_32, kl);
        longKey := n + QUOTES > KEY_LIMIT;
      }
    }

    /** The walk, resumed in region r, comes to whole. */
    ghost predicate On(r: Region, whole: Outcome)
      reads this, kinds, offs, lens, words, openAt, isMap
    {
      match r
      case Rejected => Sized() && whole == Reject
      case Done => Kept(false) && whole == Accept(rows)
      case _ => Kept(r == AtValue) && Ready(p, At(r)) && Run(p, At(r)) == whole && count <= i + 1
    }

    /** The walker holds s, but for the cursor. */
    ghost predicate Holds(s: State)
      reads this, kinds, offs, lens, words, openAt, isMap
    {
      Kept(false) && Frames() == s.frames && rows == s.recs && Ready(p, s) && s.i <= i && count <= i + 1
    }

    /** A closer at the cursor. */
    method CloseTop(ghost s: State, ghost whole: Outcome) returns (r: Region)
      requires Holds(s) && i < |p| && whole == Settles(p, CloseAt(p, s, i))
      modifies this, kinds, offs, lens, words
      ensures On(r, whole) && (r != Rejected ==> i > old(i)) && (r == Behind || r == Done || r == Rejected)
    {
      hide Run, Skip, Noted, Stored;
      ReadyTop(p, s);
      assert Frames()[depth - 1] == Top(s);
      Close();
      if depth == 0 {
        i := SkipSpaces(p, i);
        if i != |p| {
          return Rejected;
        }
        return Done;
      }
      return Behind;
    }

    /** A map key, up to its closing quote, and the verdict on it. */
    method PutKey(close: nat)
      requires Kept(false) && 0 < depth && isMap[depth - 1] && i < |p| && count <= |p| && StringEnd(p, i + 1) == Some(close)
      modifies `i, `count, `rows, `longKnown, `longKey, `note, kinds, offs, lens, words
      ensures Kept(true) && i == close + 1 && count == old(count) + 1 && Frames() == old(Frames())
      ensures rows == old(rows) + [Rec(Str, old(i) + 1, close - (old(i) + 1))]
    {
      hide StringEnd, Noted, Stored, CleanSpan, Candidate, TooLong;
      assert Frames()[depth - 1].isMap;
      ghost var r := Rec(Str, i + 1, close - (i + 1));
      SpanIsClean(p, i + 1);
      KeyNoted(p, rows, Frames(), note, r);
      PutRow(Str, i + 1, close - (i + 1));
      i := close + 1;
      if packed {
        NoteKey();
      }
      note := if note.Some? then note else if Candidate(r) then Some(TooLong(p, r)) else None;
    }

    /** A member at the cursor: in a map, its key and the colon. */
    method MemberAt(ghost s: State, ghost whole: Outcome) returns (r: Region)
      requires Holds(s) && i < |p| && whole == Settles(p, JsonWalk.Member(p, s, i))
      modifies this, kinds, offs, lens, words
      ensures On(r, whole) && (r == AtValue || r == Rejected) && i >= old(i)
    {
      hide Run, Skip, StringEnd, Noted, Stored;
      ReadyTop(p, s);
      assert Frames()[depth - 1] == Top(s);
      if !isMap[depth - 1] {
        ElementNoted(p, rows, Frames(), note);
        return AtValue;
      }
      if p[i] != QUOTE {
        return Rejected;
      }
      var c := ScanString(p, i);
      if c == None {
        return Rejected;
      }
      PutKey(c.value);
      var ok := Colon();
      return if ok then AtValue else Rejected;
    }

    /** lmap1 and lseq1, lmap and lseq: before a member; only right behind an opener may the closer stand. */
    method MemberRegion(first: bool, ghost whole: Outcome) returns (r: Region)
      requires On(if first then AtFirst else AtNext, whole)
      modifies this, kinds, offs, lens, words
      ensures On(r, whole) && (r == AtValue ==> i >= old(i)) && (r == Behind ==> i > old(i)) && r != AtFirst && r != AtNext
    {
      hide Run, Skip, JsonWalk.Member, CloseAt, Noted, Stored;
      ghost var s := At(if first then AtFirst else AtNext);
      RunSettles(p, s);
      ReadyTop(p, s);
      assert Frames()[depth - 1] == Top(s);
      SkipRange(p, i);
      i := SkipSpaces(p, i);
      if i >= |p| {
        return Rejected;
      }
      if first && p[i] == (if isMap[depth - 1] then 0x7D else 0x5D) {
        r := CloseTop(s, whole);
      } else {
        r := MemberAt(s, whole);
      }
    }

    /** A comma at the cursor, behind a value. */
    method Comma(ghost s: State, ghost whole: Outcome)
      requires Holds(s) && s.place == After && i == Skip(p, s.i) && i < |p| && p[i] == 0x2C && Run(p, s) == whole
      modifies `i
      ensures On(AtNext, whole) && i == old(i) + 1
    {
      hide Run, Skip, JsonWalk.Member, CloseAt, Noted, Stored;
      RunSettles(p, s);
      i := i + 1;
      assert At(AtNext) == State(Next, i, s.frames, s.recs);
    }

    /** lmapafter and lseqafter: behind a value. */
    method BehindRegion(ghost whole: Outcome) returns (r: Region)
      requires On(Behind, whole)
      modifies this, kinds, offs, lens, words
      ensures On(r, whole) && (r != Rejected ==> i > old(i))
    {
      hide Run, Skip, JsonWalk.Member, CloseAt, Noted, Stored;
      ghost var s := At(Behind);
      RunSettles(p, s);
      ReadyTop(p, s);
      assert Frames()[depth - 1] == Top(s);
      SkipRange(p, i);
      SkipHere(p, i);
      if i < |p| && p[i] == 0x2C {
        Comma(s, whole);
        return AtNext;
      }
      i := SkipSpaces(p, i);
      if i >= |p| {
        return Rejected;
      }
      if p[i] == 0x2C {
        Comma(s, whole);
        return AtNext;
      }
      if p[i] == (if isMap[depth - 1] then 0x7D else 0x5D) {
        r := CloseTop(s, whole);
        return;
      }
      return Rejected;
    }

    /** One scalar's row and the cursor behind it. */
    method ScalarRow(kind: Kind, off: nat, len: nat, next: nat, ghost whole: Outcome)
      requires On(AtValue, whole) && i < next <= |p| && Step(p, At(AtValue)) == Scalar(At(AtValue), Rec(kind, off, len), next)
      requires !Opens(kind) && !kind.Close? && (kind == Str ==> CleanSpan(p, Rec(kind, off, len)))
      modifies `i, `count, `rows, kinds, offs, lens, words
      ensures On(Behind, whole) && i == next
    {
      hide Run, Step, Noted, Stored, CleanSpan;
      RunSettles(p, At(AtValue));
      ScalarNoted(p, rows, Frames(), note, Rec(kind, off, len));
      PutRow(kind, off, len);
      i := next;
    }

    method StringArm(ghost whole: Outcome) returns (r: Region)
      requires On(AtValue, whole) && p[i] == QUOTE
      modifies `i, `count, `rows, kinds, offs, lens, words
      ensures On(r, whole) && (r == Behind ==> i > old(i)) && (r == Behind || r == Rejected)
    {
      hide Run, StringEnd, Noted, Stored, CleanSpan;
      RunSettles(p, At(AtValue));
      var e := ScanString(p, i);
      if e == None {
        return Rejected;
      }
      SpanIsClean(p, i + 1);
      ScalarRow(Str, i + 1, e.value - (i + 1), e.value + 1, whole);
      return Behind;
    }

    method NumberArm(ghost whole: Outcome) returns (r: Region)
      requires On(AtValue, whole) && (Digit(p[i]) || p[i] == 0x2D)
      modifies `i, `count, `rows, kinds, offs, lens, words
      ensures On(r, whole) && (r == Behind ==> i > old(i)) && (r == Behind || r == Rejected)
    {
      hide Run, Number, RunEnd, Noted, Stored;
      RunSettles(p, At(AtValue));
      var ok, k, isInt := ScanNumber(p, i);
      if !ok {
        return Rejected;
      }
      ScalarRow(if isInt then IntNum else FloatNum, i, k - i, k, whole);
      return Behind;
    }

    method LiteralArm(ghost whole: Outcome) returns (r: Region)
      requires On(AtValue, whole) && WordAt(p[i]).Some?
      modifies `i, `count, `rows, kinds, offs, lens, words
      ensures On(r, whole) && (r == Behind ==> i > old(i)) && (r == Behind || r == Rejected)
    {
      hide Run, LiteralEnd, Noted, Stored;
      RunSettles(p, At(AtValue));
      var c := p[i];
      var e := ScanLiteral(p, i);
      if e == None {
        return Rejected;
      }
      ScalarRow(if c == 0x6E then Nil else if c == 0x74 then Yes else No, i, e.value - i, e.value, whole);
      return Behind;
    }

    /** lmapval and lseqval: at a value's first byte. */
    method ValueRegion(ghost whole: Outcome) returns (r: Region)
      requires On(AtValue, whole)
      modifies this, kinds, offs, lens, words, openAt, isMap
      ensures On(r, whole) && (r != Rejected ==> i > old(i)) && r != AtValue && r != Done
    {
      hide Run, Skip, StringEnd, Number, RunEnd, LiteralEnd, Noted, Stored;
      ghost var s := At(AtValue);
      RunSettles(p, s);
      var c := p[i];
      if c == QUOTE {
        r := StringArm(whole);
      } else if 0x30 <= c <= 0x39 || c == 0x2D {
        r := NumberArm(whole);
      } else if c == 0x74 || c == 0x66 || c == 0x6E {
        r := LiteralArm(whole);
      } else if c == 0x7B || c == 0x5B {
        if depth >= WALK_DEPTH {
          return Rejected;
        }
        Push(c == 0x7B);
        return AtFirst;
      } else {
        return Rejected;
      }
    }

    /** The two rows in front of the loop. */
    method Begin(open: nat)
      requires Arrays() && open < |p| && (p[open] == 0x7B || p[open] == 0x5B)
      modifies this, kinds, offs, lens, words, openAt, isMap
      ensures Kept(false) && At(AtFirst) == Start(p, open) && count <= i + 1
    {
      hide Noted, Stored;
      var keyed := p[open] == 0x7B;
      i, count, depth, longKnown, longKey, rows, note := open + 1, 0, 1, false, false, [], None;
      isMap[0] := keyed;
      openAt[0] := 1;
      assert Frames() == [Frame(keyed, 1)];
      NothingStored();
      PutRow(Doc, 0, 0);
      PutRow(OpenKind(keyed), 0, 0);
      StartNoted(p, keyed);
      assert rows == [Rec(Doc, 0, 0), Rec(OpenKind(keyed), 0, 0)];
    }

    /**
     * The fused walk with strict numbers on the clean route, from the opener at position open: into columns as
     * yep_tape_walk_columns_fused, into words as yep_tape_walk_lenient_fused.
     */
    method Fused(open: nat) returns (ok: bool)
      requires Arrays() && open < |p| && (p[open] == 0x7B || p[open] == 0x5B)
      modifies this, kinds, offs, lens, words, openAt, isMap
      ensures Sized() && (ok ==> Stored()) && Walk(p, open) == if ok then Accept(rows) else Reject
      ensures packed && ok ==>
        && longKnown && longKey == LongKey(p, rows) && CleanSpans(p, rows)
        && (LongKey(p, rows) <==> exists k :: 0 <= k < |rows| && Stops(p, rows, k))
    {
      hide Run, Step, Skip, Noted, Stored, LongKey, Stops, CleanSpans;
      Begin(open);
      ghost var whole := Walk(p, open);
      var r := AtFirst;
      while r != Done && r != Rejected
        invariant On(r, whole)
        decreases r != Done && r != Rejected, |p| - i, r != AtValue
      {
        OnRange(r, whole);
        if r == AtFirst {
          r := MemberRegion(true, whole);
        } else if r == AtNext {
          r := MemberRegion(false, whole);
        } else if r == AtValue {
          r := ValueRegion(whole);
        } else {
          r := BehindRegion(whole);
        }
        if r != Done && r != Rejected { OnRange(r, whole); }
      }
      ok := r == Done;
      if ok {
        NotedIsFound(p, rows, Frames(), false, note);
        NotedClean(p, rows, Frames(), note);
        if packed {
          if !longKnown {
            longKey := false;
          }
          longKnown := true;
        }
      }
    }

    lemma NothingStored()
      requires Sized() && count == 0
      ensures Stored()
    {}

    /** yep_tape_walk_columns_fused. */
    method Columns(open: nat) returns (ok: bool)
      requires Arrays() && !packed && open < |p| && (p[open] == 0x7B || p[open] == 0x5B)
      modifies this, kinds, offs, lens, words, openAt, isMap
      ensures Sized() && Walk(p, open) == if ok then Accept(Rows()) else Reject
    {
      hide Run, Step, Skip;
      ok := Fused(open);
      assert ok ==> Rows() == rows;
    }

    /**
     * yeptris_tape_columns: the columns out of the words. A row comes back as it was put unless its token is 2^24
     * bytes or longer.
     */
    method Materialize()
      requires Sized() && packed && Stored()
      modifies kinds, offs, lens
      ensures Sized() && Stored() && Rows() == AllThrough(rows)
    {
      hide Pack, Unpack, Through;
      for k := 0 to count
        invariant Sized() && Stored()
        invariant forall j :: 0 <= j < k ==> Rec(kinds[j], offs[j], lens[j]) == Through(rows[j])
      {
        ghost var r := rows[k];
        UnpackPack(r);
        var u := Unpack(words[k]);
        lens[k] := u.len;
        offs[k] := u.off;
        kinds[k] := u.kind;
      }
    }

    /**
     * The walk into words, the verdict on the keys and the columns out of the words, as the strict parse runs them: it
     * accepts what the columns walk accepts, and gives the same columns exactly when no token is 2^24 bytes or longer.
     * The verdict the walk noted is what searching the finished tape would find.
     */
    method FusedColumns(open: nat) returns (ok: bool, long: bool)
      requires Arrays() && packed && open < |p| && (p[open] == 0x7B || p[open] == 0x5B)
      modifies this, kinds, offs, lens, words, openAt, isMap
      ensures Sized() && (ok <==> Walk(p, open).Accept?)
      ensures ok ==> Rows() == AllThrough(Walk(p, open).recs)
      ensures ok ==> (Rows() == Walk(p, open).recs <==> Short(Walk(p, open).recs))
      ensures ok ==> CleanSpans(p, Walk(p, open).recs) && long == LongKey(p, Walk(p, open).recs)
    {
      hide Run, Step, Skip, Stored, LongKey, Stops, CleanSpans, AllThrough, Short;
      ok := Fused(open);
      long := false;
      if ok {
        long := LongSimpleKey();
        Materialize();
        RowsThroughExactly(rows);
      }
    }

    /**
     * yep_tape_long_simple_key where no verdict is known: it walks the words with a slot for each open container, and
     * stops at the first key that is too long or container too deep.
     */
    method SearchKeys() returns (long: bool)
      requires Sized() && packed && Stored() && CleanSpans(p, rows)
      ensures long <==> exists k :: 0 <= k < |rows| && Stops(p, rows, k)
    {
      hide Pack, Unpack, Slots, Stops, TooLong, Turn, Toggle;
      NoStopFirst(p, rows);
      var st := [BASE];
      var k := 1;
      while k < count
        invariant 1 <= k && (k <= count ==> st == Slots(rows[..k]))
        invariant forall j :: 0 <= j < k && j < count ==> !Stops(p, rows, j)
      {
        UnpackPack(rows[k]);
        var u := Unpack(words[k]);
        StopHere(p, rows, k);
        if Opens(u.kind) {
          if |st| > SCRATCH {
            return true;
          }
        } else if AtKey(st, u.kind) {
          var tooLong := IsTooLong(u, rows[k]);
          if tooLong {
            return true;
          }
        }
        SlotsNext(rows, k);
        st := Turn(st, u.kind);
        k := k + 1;
      }
      long := false;
    }

    /** The test on one key: a string whose characters and quotes pass the limit. */
    method IsTooLong(u: Rec, ghost r: Rec) returns (long: bool)
      requires u == Through(r) && (r.kind == Str ==> CleanSpan(p, r))
      ensures long == TooLong(p, r)
    {
      long := false;
      if u.kind == Str && u.len + QUOTES > KEY_LIMIT {
        CleanIsAscii(p, r);
        var n := CountChars(p, u.off, u.len);
        long := n + QUOTES > KEY_LIMIT;
      }
    }

    /** yep_tape_long_simple_key: the verdict noted by the walk, or the search. */
    method LongSimpleKey() returns (long: bool)
      requires Sized() && packed && Stored() && CleanSpans(p, rows)
      ensures longKnown ==> long == longKey
      ensures !longKnown ==> (long <==> exists k :: 0 <= k < |rows| && Stops(p, rows, k))
    {
      if longKnown {
        return longKey;
      }
      long := SearchKeys();
    }

    lemma OnRange(r: Region, whole: Outcome)
      requires On(r, whole) && r != Done && r != Rejected
      ensures i <= |p| && (r == AtValue ==> i < |p|)
    {}

    /** Behind a key: the colon and the whitespace around it, to the value's first byte. */
    method Colon() returns (ok: bool)
      requires i <= |p|
      modifies `i
      ensures var k := Skip(p, old(i));
        && (ok <==> k < |p| && p[k] == 0x3A && Skip(p, k + 1) < |p|)
        && (ok ==> i == Skip(p, k + 1))
      ensures i >= old(i)
    {
      hide Skip;
      SkipHere(p, i);
      if i < |p| && p[i] == 0x3A {
        i := i + 1;
        if i < |p| {
          SkipHere(p, i);
          var v := p[i];
          if v != 0x20 && v != 0x0A && v != 0x0D {
            return true;
          }
        }
        i := SkipSpaces(p, i);
        return i < |p|;
      }
      i := SkipSpaces(p, i);
      if i >= |p| || p[i] != 0x3A {
        return false;
      }
      i := i + 1;
      i := SkipSpaces(p, i);
      return i < |p|;
    }
  }

  /** What a move comes to. */
  ghost function Settles(p: seq<bv8>, m: Move): Outcome
    requires m.Go? ==> Ready(p, m.state)
  {
    match m case Stop(o) => o case Go(t) => Run(p, t)
  }

  lemma ReadyTop(p: seq<bv8>, s: State)
    requires Ready(p, s)
    ensures s.frames != [] && Top(s).openAt < |s.recs| && |s.frames| <= WALK_DEPTH
  {}

  lemma RunSettles(p: seq<bv8>, s: State)
    requires Ready(p, s)
    ensures Run(p, s) == Settles(p, Step(p, s))
  {
    hide Step;
  }

  lemma SkipRange(p: seq<bv8>, i: nat)
    requires i <= |p|
    ensures i <= Skip(p, i) <= |p|
  {}

  lemma SkipHere(p: seq<bv8>, i: nat)
    requires i <= |p|
    ensures i == |p| || !Space(p[i]) ==> Skip(p, i) == i
  {}

  /** The content of a string is clean. */
  lemma SpanIsClean(p: seq<bv8>, j: nat)
    requires j <= |p| && StringEnd(p, j).Some?
    ensures CleanSpan(p, Rec(Str, j, StringEnd(p, j).value - j))
  {
    hide StringEnd;
    StringSound(p, j);
  }

  lemma NotedClean(p: seq<bv8>, rows: seq<Rec>, frames: seq<Frame>, note: Option<bool>)
    requires Noted(p, rows, frames, false, note)
    ensures CleanSpans(p, rows)
  {}

  lemma OpenerRow(p: seq<bv8>, rows: seq<Rec>, frames: seq<Frame>, note: Option<bool>)
    requires Noted(p, rows, frames, false, note) && frames != []
    ensures var o := frames[|frames| - 1].openAt; o < |rows| && rows[o].len == 0
  {}

  /** yep_simple_key_chars. */
  method CountChars(p: seq<bv8>, at: nat, n: nat) returns (chars: nat)
    requires at + n <= |p|
    ensures chars == Chars(p[at..at + n])
  {
    chars := 0;
    for k := 0 to n
      invariant chars == Chars(p[at..at + k])
    {
      assert p[at..at + k + 1][..k] == p[at..at + k];
      if p[at + k] & 0xC0 != 0x80 {
        chars := chars + 1;
      }
    }
  }
}
