/**
  The reorder buffer (verilog/ROB.sv): a circular buffer of D entries with wrap
  bits, four-wide dispatch and retire, and a register that remembers the oldest
  mispredicted branch. One clock edge is one call of Next.

  D is the length of the entry sequence; every statement holds for all D that
  are a multiple of four and at least eight, which includes every power of two
  from eight upwards.
 */
module Rob {
  import opened Ring

  datatype Exception = NO_ERROR | HALTED_ON_WFI | ILLEGAL_INST

  // What the buffer remembers of an instruction from dispatch to retirement.
  datatype Uop = Uop(pc: nat, arn: nat, prn: nat, prev: nat, branch: bool, exc: Exception)

  datatype Entry = Entry(op: Uop, complete: bool, misp: bool, valid: bool)

  // A reorder-buffer tag: the wrap bit above the index.
  datatype Tag = Tag(bit: bool, idx: nat)

  // One dispatch lane; nop is set for the NOP encoding, which never issues.
  datatype Lane = Lane(valid: bool, op: Uop, nop: bool)

  datatype Writeback = Writeback(valid: bool, tag: Tag)

  datatype Input = Input(
    flush: bool,              // pipe_flush
    dispatch: seq<Lane>,      // four lanes
    wb: seq<Writeback>,       // seven broadcast lanes
    brMisp: bool,             // writeback_br_misp, about lane 5
    redirect: nat             // writeback_redirect_pc
  )

  datatype State = State(
    entry: seq<Entry>,
    head: nat, tail: nat,
    headBit: bool, tailBit: bool,
    brMisp: bool, mispTag: Tag, redirect: nat
  )

  // One retirement lane.
  datatype Retire = Retire(valid: bool, op: Uop, misp: bool, redirect: nat)

  const NO_UOP := Uop(0, 0, 0, 0, false, NO_ERROR)
  const EMPTY_ENTRY := Entry(NO_UOP, false, false, false)

  ghost predicate WfInput(inp: Input) {
    |inp.dispatch| == 4 && |inp.wb| == 7
  }

  // The pointer and buffer shapes every state of the hardware has.
  ghost predicate Wf(s: State) {
    && |s.entry| >= 8 && |s.entry| % 4 == 0
    && s.head < |s.entry| && s.tail < |s.entry|
  }

  // ---------------------------------------------------------------- wires

  function At(s: State, k: nat): Entry
    requires Wf(s) && k < 4
  {
    s.entry[Slot(s.head, k, |s.entry|)]
  }

  // Branches among the first k + 1 entries from the head.
  function BranchSum(s: State, k: nat): nat
    requires Wf(s) && k < 4
  {
    (if At(s, k).op.branch then 1 else 0) + (if k == 0 then 0 else BranchSum(s, k - 1))
  }

  predicate RetireEn(s: State, k: nat)
    requires Wf(s) && k < 4
    decreases k, 0
  {
    && (k > 0 ==> RetireEn(s, k - 1) && !FlushEn(s, k - 1))
    && At(s, k).valid && At(s, k).complete
    && (k > 0 ==> BranchSum(s, k) <= 1)
  }

  predicate FlushEn(s: State, k: nat)
    requires Wf(s) && k < 4
    decreases k, 1
  {
    RetireEn(s, k) && (At(s, k).misp || At(s, k).op.exc != NO_ERROR)
  }

  function RetireCount(s: State): (n: nat)
    requires Wf(s)
    ensures n <= 4
  {
    (if RetireEn(s, 0) then 1 else 0) + (if RetireEn(s, 1) then 1 else 0) +
    (if RetireEn(s, 2) then 1 else 0) + (if RetireEn(s, 3) then 1 else 0)
  }

  function RetirePkt(s: State): (r: seq<Retire>)
    requires Wf(s)
    ensures |r| == 4
  {
    seq(4, k requires 0 <= k < 4 => Retire(RetireEn(s, k), At(s, k).op, At(s, k).misp, s.redirect))
  }

  function LaneCount(lanes: seq<Lane>): (n: nat)
    ensures n <= |lanes|
  {
    if lanes == [] then 0
    else LaneCount(lanes[..|lanes| - 1]) + (if lanes[|lanes| - 1].valid then 1 else 0)
  }

  // Both overflow wires: the pointer is in the last group of four and its
  // successor has a clear top bit.
  predicate Overflow(ptr: nat, next: nat, d: nat) {
    ptr / 4 == d / 4 - 1 && next < d / 2
  }

  function NextPtr(ptr: nat, cnt: nat, d: nat): (p: nat)
    requires d >= 8 && ptr < d && cnt <= 4
    ensures p < d
  {
    Slot(ptr, cnt, d)
  }

  function NextBit(bit: bool, ptr: nat, cnt: nat, d: nat): bool
    requires d >= 8 && ptr < d && cnt <= 4
  {
    if Overflow(ptr, NextPtr(ptr, cnt, d), d) then !bit else bit
  }

  // Distance the ready logic computes between the two pointers after this edge.
  function Space(s: State, inp: Input): int
    requires Wf(s) && WfInput(inp)
  {
    var d := |s.entry|;
    var h, t := NextPtr(s.head, RetireCount(s), d), NextPtr(s.tail, LaneCount(inp.dispatch), d);
    if NextBit(s.headBit, s.head, RetireCount(s), d) == NextBit(s.tailBit, s.tail, LaneCount(inp.dispatch), d)
    then h + d - t else h - t
  }

  // dispatch_pkt_ready[k]
  predicate Ready(s: State, inp: Input, k: nat)
    requires Wf(s) && WfInput(inp)
  {
    !s.brMisp && Space(s, inp) > k
  }

  // The tag dispatch_pkt_resp gives to the lane that takes slot tail + k.
  function DispatchTag(s: State, inp: Input, k: nat): Tag
    requires Wf(s) && WfInput(inp) && k < 4
  {
    var d := |s.entry|;
    var i := Slot(s.tail, k, d);
    Tag(if Overflow(s.tail, NextPtr(s.tail, LaneCount(inp.dispatch), d), d) && i < 4 then !s.tailBit else s.tailBit, i)
  }

  // The comparison that lets a later-reported misprediction replace the held one.
  predicate OlderTag(a: Tag, b: Tag) {
    (b.bit == a.bit && a.idx < b.idx) || (b.bit != a.bit && a.idx > b.idx)
  }

  // ------------------------------------------------------------ the edge

  function NewEntry(l: Lane): Entry {
    Entry(l.op, l.nop || l.op.exc != NO_ERROR, false, true)
  }

  function NewEntries(lanes: seq<Lane>): (es: seq<Entry>)
    ensures |es| == LaneCount(lanes)
    ensures forall k :: 0 <= k < |es| ==> es[k].valid && !es[k].misp
  {
    if lanes == [] then []
    else NewEntries(lanes[..|lanes| - 1]) + (if lanes[|lanes| - 1].valid then [NewEntry(lanes[|lanes| - 1])] else [])
  }

  predicate Broadcast(inp: Input, i: nat)
    requires WfInput(inp)
  {
    exists w | 0 <= w < 7 :: inp.wb[w].valid && inp.wb[w].tag.idx == i
  }

  // Effect of the broadcasts of one cycle on the entry in slot i.
  function Mark(e: Entry, i: nat, inp: Input): Entry
    requires WfInput(inp)
  {
    if e.valid && !e.complete
    then e.(complete := Broadcast(inp, i), misp := inp.wb[5].valid && inp.wb[5].tag.idx == i && inp.brMisp)
    else e
  }

  function NextEntry(s: State, inp: Input, i: nat): Entry
    requires Wf(s) && WfInput(inp) && i < |s.entry|
  {
    var d := |s.entry|;
    if Off(s.tail, i, d) < LaneCount(inp.dispatch) then NewEntries(inp.dispatch)[Off(s.tail, i, d)]
    else if Off(s.head, i, d) < RetireCount(s) then Mark(s.entry[i], i, inp).(valid := false)
    else Mark(s.entry[i], i, inp)
  }

  // misp_rob and redirect_pc when no flush clears them.
  predicate TakesMisp(s: State, inp: Input)
    requires WfInput(inp)
  {
    && (exists w | 0 <= w < 7 :: inp.wb[w].valid)
    && inp.brMisp
    && (s.brMisp ==> OlderTag(inp.wb[5].tag, s.mispTag))
  }

  function Reset(d: nat): State {
    State(seq(d, i => EMPTY_ENTRY), 0, 0, false, false, false, Tag(false, 0), 0)
  }

  function Next(s: State, inp: Input): (s': State)
    requires Wf(s) && WfInput(inp)
    ensures Wf(s') && |s'.entry| == |s.entry|
  {
    var d := |s.entry|;
    if inp.flush then Reset(d)
    else
      var r, n := RetireCount(s), LaneCount(inp.dispatch);
      State(
        seq(d, i requires 0 <= i < d => NextEntry(s, inp, i)),
        NextPtr(s.head, r, d), NextPtr(s.tail, n, d),
        NextBit(s.headBit, s.head, r, d), NextBit(s.tailBit, s.tail, n, d),
        s.brMisp || TakesMisp(s, inp),
        if TakesMisp(s, inp) then inp.wb[5].tag else s.mispTag,
        if TakesMisp(s, inp) then inp.redirect else s.redirect)
  }
}
