/** The Marshal writer: value records to one Marshal 4.8 stream. */
module MarshalWrite {
  import opened Bytes
  import opened MarshalNumber

  // ---- records --------------------------------------------------------------------

  datatype Kind = Doc | Null | Bool | Int | Float | Str | Timestamp | SeqOpen | MapOpen | Close | Alias | Anchor

  type int64 = x: int | INT64_MIN <= x < -INT64_MIN

  /**
   * One value record. b is the truth of a boolean and the plain flag of the other scalars; p is an integer's
   * value or a double's pattern; repr is how the float kernel spells a float's double.
   */
  datatype Record = Record(kind: Kind, text: seq<byte>, b: bool, isKey: bool, binary: bool, p: int64, repr: seq<byte>)

  predicate Storable(r: Record) { |r.text| < 0x1_0000_0000 && |r.repr| < 40 }

  predicate AllStorable(recs: seq<Record>) {
    |recs| < 0x1_0000_0000 && forall i :: 0 <= i < |recs| ==> Storable(recs[i])
  }

  predicate IsOpen(r: Record) { r.kind.SeqOpen? || r.kind.MapOpen? }

  /** The containers opened before record i. */
  function Opens(recs: seq<Record>, i: nat): (n: nat)
    requires i <= |recs|
    ensures n <= i
  {
    if i == 0 then 0 else Opens(recs, i - 1) + if IsOpen(recs[i - 1]) then 1 else 0
  }

  lemma {:induction false} OpensMono(recs: seq<Record>, i: nat, j: nat)
    requires i <= j <= |recs|
    ensures Opens(recs, i) <= Opens(recs, j)
  {
    if i < j { OpensMono(recs, i, j - 1); }
  }

  // ---- the state --------------------------------------------------------------------

  /** What an anchor stands for: nothing yet, a registered object, or a scalar to write again. */
  datatype Target = Pending | Object(id: nat) | Copy(rec: Record)
  datatype Binding = Binding(name: seq<byte>, target: Target)
  datatype Last = Registered(id: nat) | Immediate
  datatype State = State(nreg: nat, anchors: seq<Binding>, openSeq: nat, last: Last)

  predicate Sound(st: State) {
    && st.nreg < 0x1_0000_0000
    && (st.last.Registered? ==> st.last.id < st.nreg)
    && forall k :: 0 <= k < |st.anchors| ==> TargetSound(st.anchors[k].target, st.nreg)
  }

  predicate TargetSound(t: Target, nreg: nat) {
    match t
    case Pending => true
    case Object(id) => id < nreg
    case Copy(rec) => Storable(rec)
  }

  /** The newest binding of a name. */
  function Find(anchors: seq<Binding>, name: seq<byte>): (t: Target)
    ensures t.Pending? || exists k :: 0 <= k < |anchors| && anchors[k].target == t
  {
    if anchors == [] then Pending
    else
      var last := |anchors| - 1;
      if anchors[last].name == name then anchors[last].target else Find(anchors[..last], name)
  }

  // ---- scalars ------------------------------------------------------------------------

  const STRING_TAIL: seq<byte> := [0x06, 0x3A, 0x06, 0x45, 0x54]

  function StrBytes(text: seq<byte>): seq<byte>
    requires |text| < 0x1_0000_0000
  {
    [0x49, 0x22] + LongBytes(|text|) + text + STRING_TAIL
  }

  function SymBytes(name: seq<byte>): seq<byte>
    requires |name| < 0x1_0000_0000
  {
    [0x3A] + LongBytes(|name|) + name
  }

  function FloatBytes(repr: seq<byte>): seq<byte>
    requires |repr| < 40
  {
    [0x66] + LongBytes(|repr|) + repr
  }

  /** sym_scan. */
  predicate SymbolText(p: seq<byte>) { |p| > 1 && p[0] == 0x3A && p[1] != 0x3A }

  /** float_text_ok. */
  predicate FloatText(compat: bool, p: seq<byte>) {
    !compat || (p != [] && (p[0] == 0x2E || 0x2E in p || 0x3A in p))
  }

  predicate BignumText(r: Record) { r.b && 18 < |r.text| < 1300 && PsychInt(r.text) }

  /** The value of a text psych_int_text accepts. */
  function BignumValue(text: seq<byte>): (v: nat)
    requires PsychInt(text) && |text| < 1300
    ensures LimbCount(v) <= 271
  {
    BodyDigits(text);
    var v := TextValue(Body(text));
    DigitsFit(v, |Body(text)|);
    v
  }

  lemma BodyDigits(text: seq<byte>)
    requires PsychInt(text)
    ensures var b := Body(text); forall i :: 0 <= i < |b| ==> IsDigit(b[i]) || IsSeparator(b[i])
  {
    var b := Body(text);
    forall i | 0 <= i < |b| ensures IsDigit(b[i]) || IsSeparator(b[i]) { assert DigitAt(b, i); }
  }

  predicate Negative(text: seq<byte>) { text != [] && text[0] == 0x2D }

  datatype Written = Written(bytes: seq<byte>, st: State) | Refused

  function Register(bytes: seq<byte>, st: State): Written {
    Written(bytes, st.(nreg := st.nreg + 1, last := Registered(st.nreg)))
  }

  function Plain(bytes: seq<byte>, st: State): Written { Written(bytes, st.(last := Immediate)) }

  /** What writing a scalar can change: at most one registration. */
  predicate OneStep(before: State, after: State) {
    && after.anchors == before.anchors && after.openSeq == before.openSeq
    && ((after.nreg == before.nreg && after.last.Immediate?)
        || (after.nreg == before.nreg + 1 && after.last == Registered(before.nreg)))
  }

  /** e_scalar. */
  function WriteScalar(r: Record, compat: bool, st: State): (w: Written)
    requires Storable(r)
    ensures w.Written? ==> OneStep(st, w.st)
  {
    match r.kind
    case Null => Plain([0x30], st)
    case Bool => if |r.text| == 1 then Register(StrBytes(r.text), st) else Plain([if r.b then 0x54 else 0x46], st)
    case Int => Plain(IntBytes(r.p), st)
    case Float => Register(if FloatText(compat, r.text) then FloatBytes(r.repr) else StrBytes(r.text), st)
    case Str =>
      if BignumText(r) then Plain(BignumBytes(Negative(r.text), BignumValue(r.text)), st)
      else if r.b && SymbolText(r.text) then Plain(SymBytes(r.text[1..]), st)
      else Register(StrBytes(r.text), st)
    case _ => Written.Refused
  }

  /** e_alias. */
  function WriteAlias(name: seq<byte>, compat: bool, st: State): (w: Written)
    requires Sound(st)
    ensures w.Written? ==> OneStep(st, w.st)
  {
    match Find(st.anchors, name)
    case Pending => Written.Refused
    case Object(id) => Plain([0x40] + LongBytes(id), st)
    case Copy(rec) => WriteScalar(rec, compat, st)
  }

  // ---- values ------------------------------------------------------------------------------

  datatype Emitted = Emitted(bytes: seq<byte>, next: nat, st: State) | Failed

  /** What the anchor stands for once its value is written. */
  function Bound(st: State, k: nat, value: Record): (r: State)
    requires k < |st.anchors|
  {
    var t := if st.last.Registered? then Object(st.last.id) else Copy(value);
    st.(anchors := st.anchors[k := st.anchors[k].(target := t)], last := Immediate)
  }

  function Announce(st: State, name: seq<byte>): State {
    st.(anchors := st.anchors + [Binding(name, Pending)])
  }

  /** The state a record's writing may start in. */
  predicate At(recs: seq<Record>, i: nat, st: State) {
    i <= |recs| && Sound(st) && st.openSeq == Opens(recs, i) && st.nreg <= i
  }

  lemma StepKeepsAt(recs: seq<Record>, i: nat, before: State, after: State)
    requires i < |recs| < 0x1_0000_0000 && At(recs, i, before) && !IsOpen(recs[i]) && OneStep(before, after)
    ensures At(recs, i + 1, after)
  {
  }

  lemma AnnounceKeepsAt(recs: seq<Record>, i: nat, st: State, name: seq<byte>)
    requires i < |recs| < 0x1_0000_0000 && At(recs, i, st) && !IsOpen(recs[i])
    ensures At(recs, i + 1, Announce(st, name))
  {
  }

  lemma EnterKeepsAt(recs: seq<Record>, i: nat, st: State)
    requires i < |recs| < 0x1_0000_0000 && At(recs, i, st) && IsOpen(recs[i])
    ensures At(recs, i + 1, Enter(st))
  {
  }

  lemma LeaveKeepsAt(recs: seq<Record>, j: nat, st: State, id: nat)
    requires j < |recs| && At(recs, j, st) && !IsOpen(recs[j]) && id < st.nreg
    ensures At(recs, j + 1, st.(last := Registered(id)))
  {
  }

  lemma BoundKeepsAt(recs: seq<Record>, i: nat, st: State, k: nat, value: Record)
    requires At(recs, i, st) && k < |st.anchors| && Storable(value)
    ensures At(recs, i, Bound(st, k, value))
  {
  }

  predicate Counted(recs: seq<Record>, counts: seq<nat>) {
    AllStorable(recs) && |counts| == Opens(recs, |recs|) && forall k :: 0 <= k < |counts| ==> counts[k] < 0x1_0000_0000
  }

  function Prefix(bytes: seq<byte>, e: Emitted): Emitted {
    match e
    case Emitted(rest, next, st) => Emitted(bytes + rest, next, st)
    case Failed => Failed
  }

  /** e_value: an anchor binds once the value behind it is written. */
  function WriteValue(recs: seq<Record>, counts: seq<nat>, compat: bool, i: nat, st: State): (e: Emitted)
    requires Counted(recs, counts) && i < |recs| && At(recs, i, st)
    ensures e.Emitted? ==> i < e.next <= |recs| && At(recs, e.next, e.st) && Grown(st, e.st)
    decreases |recs| - i, 1
  {
    if !recs[i].kind.Anchor? then WriteBody(recs, counts, compat, i, st)
    else if i + 1 == |recs| then Failed
    else
      AnnounceKeepsAt(recs, i, st, recs[i].text);
      match WriteValue(recs, counts, compat, i + 1, Announce(st, recs[i].text))
      case Failed => Failed
      case Emitted(bytes, next, s) =>
        BoundKeepsAt(recs, next, s, |st.anchors|, recs[i + 1]);
        Emitted(bytes, next, Bound(s, |st.anchors|, recs[i + 1]))
  }

  function Bracket(k: Kind): byte { if k.SeqOpen? then 0x5B else 0x7B }

  predicate Grown(before: State, after: State) { |before.anchors| <= |after.anchors| && before.nreg <= after.nreg }

  function Enter(st: State): State { st.(nreg := st.nreg + 1, openSeq := st.openSeq + 1) }

  /** e_body. */
  function WriteBody(recs: seq<Record>, counts: seq<nat>, compat: bool, i: nat, st: State): (e: Emitted)
    requires Counted(recs, counts) && i < |recs| && At(recs, i, st)
    ensures e.Emitted? ==> i < e.next <= |recs| && At(recs, e.next, e.st) && Grown(st, e.st)
    decreases |recs| - i, 0
  {
    var r := recs[i];
    if IsOpen(r) then
      OpensMono(recs, i + 1, |recs|);
      EnterKeepsAt(recs, i, st);
      match WriteElements(recs, counts, compat, i + 1, Enter(st))
      case Failed => Failed
      case Emitted(bytes, j, s) =>
        LeaveKeepsAt(recs, j, s, st.nreg);
        Emitted([Bracket(r.kind)] + LongBytes(counts[st.openSeq]) + bytes, j + 1, s.(last := Registered(st.nreg)))
    else
      match if r.kind.Alias? then WriteAlias(r.text, compat, st) else WriteScalar(r, compat, st)
      case Refused => Failed
      case Written(bytes, s) =>
        StepKeepsAt(recs, i, st, s);
        Emitted(bytes, i + 1, s)
  }

  /** The values up to the record that closes the container; next is that record. */
  function WriteElements(recs: seq<Record>, counts: seq<nat>, compat: bool, i: nat, st: State): (e: Emitted)
    requires Counted(recs, counts) && At(recs, i, st)
    ensures e.Emitted? ==> i <= e.next < |recs| && recs[e.next].kind.Close? && At(recs, e.next, e.st)
    ensures e.Emitted? ==> Grown(st, e.st)
    decreases |recs| - i, 2
  {
    if i == |recs| then Failed
    else if recs[i].kind.Close? then Emitted([], i, st)
    else
      match WriteValue(recs, counts, compat, i, st)
      case Failed => Failed
      case Emitted(bytes, next, s) => Prefix(bytes, WriteElements(recs, counts, compat, next, s))
  }

  // ---- the counts the openings announce ----------------------------------------------------

  datatype Slot = Slot(index: nat, isMap: bool)
  datatype Tally = Tally(stack: seq<Slot>, counts: seq<nat>)

  /** The record is an element, or the key of a pair, of the innermost open container. */
  function Credit(t: Tally, r: Record): Tally {
    if t.stack == [] then t
    else
      var top := t.stack[|t.stack| - 1];
      if (top.isMap && !r.isKey) || top.index >= |t.counts| then t
      else t.(counts := t.counts[top.index := t.counts[top.index] + 1])
  }

  function TallyStep(t: Tally, r: Record): Tally {
    match r.kind
    case SeqOpen | MapOpen =>
      var c := Credit(t, r);
      Tally(c.stack + [Slot(|c.counts|, r.kind.MapOpen?)], c.counts + [0])
    case Close => if t.stack == [] then t else t.(stack := t.stack[..|t.stack| - 1])
    case Anchor | Doc => t
    case _ => Credit(t, r)
  }

  /** The counting pass over the records from i on. */
  function Tallied(recs: seq<Record>, i: nat, t: Tally): Tally
    requires i <= |recs|
    decreases |recs| - i
  {
    if i == |recs| then t else Tallied(recs, i + 1, TallyStep(t, recs[i]))
  }

  function Counts(recs: seq<Record>): seq<nat> { Tallied(recs, 0, Tally([], [])).counts }

  predicate MergeKey(r: Record) { r.isKey && r.text == [0x3C, 0x3C] }

  /** The records the host walk has to take: timestamps, binary strings, merge keys. */
  predicate Rejected(r: Record) {
    r.kind.Timestamp? || (r.kind.Str? && (r.binary || MergeKey(r)))
  }

  predicate AnyRejected(recs: seq<Record>) { exists i :: 0 <= i < |recs| && Rejected(recs[i]) }

  predicate TallyInside(t: Tally) {
    forall k :: 0 <= k < |t.stack| ==> t.stack[k].index < |t.counts|
  }

  lemma {:induction false} TallyShape(recs: seq<Record>, i: nat, t: Tally)
    requires i <= |recs| && TallyInside(t) && |t.counts| == Opens(recs, i)
    requires forall k :: 0 <= k < |t.counts| ==> t.counts[k] <= i
    ensures var c := Tallied(recs, i, t).counts;
      |c| == Opens(recs, |recs|) && forall k :: 0 <= k < |c| ==> c[k] <= |recs|
    decreases |recs| - i
  {
    if i < |recs| { TallyShape(recs, i + 1, TallyStep(t, recs[i])); }
  }

  lemma CountsFit(recs: seq<Record>)
    requires AllStorable(recs)
    ensures Counted(recs, Counts(recs))
  {
    TallyShape(recs, 0, Tally([], []));
  }

  // ---- one node -----------------------------------------------------------------------------

  const START: State := State(0, [], 0, Immediate)

  datatype Stream = Stream(bytes: seq<byte>) | Unsupported

  /** yeptris_marshal_node on the records of one tree. */
  function Marshal(recs: seq<Record>, compat: bool): Stream
    requires AllStorable(recs) && recs != []
  {
    CountsFit(recs);
    if AnyRejected(recs) then Unsupported
    else
      match WriteValue(recs, Counts(recs), compat, 0, START)
      case Failed => Unsupported
      case Emitted(bytes, _, _) => Stream([0x04, 0x08] + bytes)
  }
}
