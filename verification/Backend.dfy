/**
  The back end's rename, dispatch, retire and recovery path (verilog/backend.sv
  with verilog/decode_rename.sv): the pipeline registers between the tables and
  the reorder buffer, the readiness conjunction, and the flush that is followed
  one cycle later by the rebuild of the free list and the speculative map.
 */
module Backend {
  import R = Rob
  import opened Rename
  import opened Ledger
  import F = RobFifo
  import Psel

  datatype State = State(
    free: seq<bool>,          // free_list
    rat: seq<nat>,            // rat
    arch: seq<nat>,           // arch_rat
    ren: seq<R.Lane>,         // pipe_rename_pkt
    rob: R.State,
    ret: seq<R.Retire>,       // pipe_retire_pkt
    recov: bool,              // recov_arch_st
    sysExc: bool              // sys_exception
  )

  datatype Input = Input(
    fetch: seq<Dec>,          // decoded fetch group, four lanes
    ptabReady: bool,          // the branch prediction table has room
    rsReady: bool,            // both reservation stations report 1111
    lsqReady: bool,           // dispatch_lsq_pkt_ready
    wb: seq<R.Writeback>,     // the seven broadcast lanes
    brMisp: bool,             // cdb_branch_misp
    redirect: nat             // cdb_redirect_pc
  )

  ghost predicate WfInput(inp: Input) {
    |inp.fetch| == 4 && |inp.wb| == 7
  }

  ghost predicate Wf(s: State) {
    && |s.ren| == 4 && |s.ret| == 4
    && |s.arch| > 0 && |s.rat| == |s.arch| && |s.free| > 0
    && R.Wf(s.rob)
  }

  // ---------------------------------------------------------------- wires

  predicate RetireException(s: State) {
    exists k | 0 <= k < |s.ret| :: s.ret[k].valid && s.ret[k].op.exc != R.NO_ERROR
  }

  predicate RetireMisp(s: State) {
    exists k | 0 <= k < |s.ret| :: s.ret[k].valid && s.ret[k].misp
  }

  predicate Flush(s: State) {
    RetireMisp(s) || RetireException(s)
  }

  function RobInput(s: State, inp: Input): (ri: R.Input)
    requires Wf(s) && WfInput(inp)
    ensures R.WfInput(ri) && ri.dispatch == s.ren && ri.flush == Flush(s)
  {
    R.Input(Flush(s), s.ren, inp.wb, inp.brMisp, inp.redirect)
  }

  // rename_pkt_ready == 1111
  predicate RenameReady(s: State, inp: Input)
    requires Wf(s) && WfInput(inp)
  {
    && !s.sysExc && !RetireException(s) && inp.lsqReady && inp.rsReady
    && (forall k | 0 <= k < 4 :: R.Ready(s.rob, RobInput(s, inp), k))
  }

  // The group the decoder sees.
  function Decoded(inp: Input): (ds: seq<Dec>)
    requires WfInput(inp)
    ensures |ds| == 4
  {
    if inp.ptabReady then inp.fetch else [NO_DEC, NO_DEC, NO_DEC, NO_DEC]
  }

  function Grants(s: State): (gs: seq<Psel.Grant>)
    ensures |gs| == 4
  {
    Psel.Grants(Forwarded(s.free, s.ret))
  }

  const NO_LANES := [NO_LANE, NO_LANE, NO_LANE, NO_LANE]
  const NO_RETIRES := [NO_RETIRE, NO_RETIRE, NO_RETIRE, NO_RETIRE]

  // ------------------------------------------------------------ the edge

  ghost predicate GroupOk(s: State, inp: Input)
    requires WfInput(inp)
  {
    forall k | 0 <= k < 4 :: WfDec(inp.fetch[k], |s.rat|)
  }

  function Next(s: State, inp: Input): (s': State)
    requires Wf(s) && WfInput(inp) && GroupOk(s, inp)
    ensures Wf(s')
    ensures |s'.free| == |s.free| && |s'.arch| == |s.arch| && |s'.rob.entry| == |s.rob.entry|
  {
    var dec, gs, ready := Decoded(inp), Grants(s), RenameReady(s, inp);
    State(
      if s.recov then Rebuild(s.arch, |s.free|) else NextFree(s.free, s.ret, dec, gs, ready),
      if s.recov then s.arch else if ready then NextRat(s.rat, dec, gs) else s.rat,
      NextArch(s.arch, s.ret),
      if !Flush(s) && ready then RenamedLanes(s.rat, dec, gs) else NO_LANES,
      R.Next(s.rob, RobInput(s, inp)),
      if Flush(s) then NO_RETIRES else R.RetirePkt(s.rob),
      Flush(s),
      s.sysExc || RetireException(s))
  }

  function Reset(d: nat, p: nat, a: nat): State {
    State(
      seq(p, i => i != 0), seq(a, i => 0), seq(a, i => 0),
      NO_LANES, R.Reset(d), NO_RETIRES, false, false)
  }

  // What the surroundings owe the back end: decoded lanes are well formed, a
  // misprediction is reported by a lane that writes back, and the front end
  // sends nothing in the recovery cycle.
  ghost predicate EnvOk(s: State, inp: Input) {
    && WfInput(inp) && GroupOk(s, inp)
    && (inp.brMisp ==> inp.wb[5].valid)
    && (s.recov ==> forall k | 0 <= k < 4 :: !inp.fetch[k].valid)
  }

  // ------------------------------------------------------------ invariant

  function WindowOps(w: seq<R.Entry>): (us: seq<R.Uop>)
    ensures |us| == |w|
    ensures forall k | 0 <= k < |w| :: us[k] == w[k].op
  {
    seq(|w|, k requires 0 <= k < |w| => w[k].op)
  }

  // Everything between rename and commit, oldest first: the retire register,
  // the reorder buffer, the rename register.
  function Younger(s: State): (us: seq<R.Uop>)
    requires Wf(s) && F.Inv(s.rob)
  {
    WindowOps(F.Window(s.rob)) + Ops(s.ren)
  }

  function Inflight(s: State): (us: seq<R.Uop>)
    requires Wf(s) && F.Inv(s.rob)
  {
    RetOps(s.ret) + Younger(s)
  }

  // The buffer has room for the group waiting in the rename register.
  ghost predicate Roomy(s: State)
    requires Wf(s) && F.Inv(s.rob)
  {
    F.Count(s.rob) + R.LaneCount(s.ren) <= |s.rob.entry|
  }

  // A misprediction in the buffer or in the retire register is on record.
  ghost predicate MispOnRecord(s: State)
    requires Wf(s)
  {
    && (RetireMisp(s) ==> s.rob.brMisp)
    && (forall i | 0 <= i < |s.rob.entry| :: s.rob.entry[i].valid && s.rob.entry[i].misp ==> s.rob.brMisp)
  }

  // A PRF with this many registers never runs dry: the architectural state, a
  // full reorder buffer, and one group of four.
  ghost predicate Sized(s: State)
    requires Wf(s)
  {
    |s.free| >= |s.arch| + |s.rob.entry| + 4
  }

  ghost predicate Inv(s: State) {
    && Wf(s) && F.Inv(s.rob) && Roomy(s) && MispOnRecord(s)
    && (s.recov ==>
        && MapOk(s.arch, |s.free|) && Inflight(s) == [] && !s.rob.brMisp
        && s.ret == NO_RETIRES)
    && (!s.recov ==>
        && Balanced(s.arch, Inflight(s), s.free)
        && InRange(Inflight(s), |s.arch|)
        && s.rat == Fold(s.arch, Inflight(s)))
  }
}
