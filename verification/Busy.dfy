/**
  Operand readiness (verilog/busy_table.sv, source lookup of verilog/rat.sv):
  a busy bit marks exactly the registers whose writer is in flight and has not
  broadcast, and a source is reported ready exactly when its value exists, is on
  a broadcast lane in this cycle, or is the hardwired zero.
 */
module Busy {
  import R = Rob
  import Ring
  import opened Rename
  import opened Ledger
  import F = RobFifo
  import Psel
  import opened Backend
  import opened Conservation
  import opened BackendRuns

  // The destination register on each of the seven broadcast lanes.
  ghost predicate WfPrns(prns: seq<nat>) {
    |prns| == 7
  }

  predicate Carries(inp: Input, prns: seq<nat>, p: nat)
    requires |inp.wb| == 7 && |prns| == 7
  {
    exists w | 0 <= w < 7 :: inp.wb[w].valid && prns[w] == p
  }

  // The clocked block: sets by the rename lanes first, then clears by the
  // broadcasts, which therefore win; the flush input is the recovery cycle.
  function NextBusy(busy: seq<bool>, recov: bool, dec: seq<Dec>, gs: seq<Psel.Grant>, ready: bool,
                    inp: Input, prns: seq<nat>): (b: seq<bool>)
    requires |dec| == |gs| && |inp.wb| == 7 && |prns| == 7
    ensures |b| == |busy|
  {
    seq(|busy|, p requires 0 <= p < |busy| =>
      !recov && !Carries(inp, prns, p) && (busy[p] || (ready && TakenNow(dec, gs, p))))
  }

  // A live instruction that will write p and has not broadcast.
  ghost predicate Pending(s: State, p: nat)
    requires Wf(s) && F.Inv(s.rob)
  {
    p != 0 && (PendingInRob(s.rob, p) || Writes(Ops(s.ren), p))
  }

  ghost predicate PendingInRob(s: R.State, p: nat)
    requires F.Inv(s)
  {
    PendingIn(F.Window(s), p)
  }

  ghost predicate PendingIn(w: seq<R.Entry>, p: nat) {
    exists k :: 0 <= k < |w| && PendingAt(w[k], p)
  }

  lemma PendingConcat(v: seq<R.Entry>, w: seq<R.Entry>, p: nat)
    ensures PendingIn(v + w, p) <==> PendingIn(v, p) || PendingIn(w, p)
  {
    forall k | 0 <= k < |v| && PendingAt(v[k], p)
      ensures PendingIn(v + w, p)
    {
      assert PendingAt((v + w)[k], p);
    }
    forall k | 0 <= k < |w| && PendingAt(w[k], p)
      ensures PendingIn(v + w, p)
    {
      assert PendingAt((v + w)[|v| + k], p);
    }
  }

  ghost predicate Writes(us: seq<R.Uop>, p: nat) {
    exists u :: u in us && u.prn == p
  }

  predicate PendingAt(e: R.Entry, p: nat) {
    !e.complete && e.op.prn == p
  }

  // Instructions that are complete on arrival have no destination.
  ghost predicate QuietLanes(ren: seq<R.Lane>) {
    forall k | 0 <= k < |ren| :: ren[k].valid && (ren[k].nop || ren[k].op.exc != R.NO_ERROR) ==> ren[k].op.prn == 0
  }

  // What the functional units owe: a broadcast names a live instruction by its
  // slot and carries that instruction's destination. A load may be answered, and
  // broadcast, twice, the second time as late as in the cycle in which it stands
  // in the retire register, its slot empty again, so long as its register is not
  // handed out again in that very cycle.
  ghost predicate BroadcastsLive(s: State, inp: Input, prns: seq<nat>)
    requires Wf(s) && F.Inv(s.rob) && WfInput(inp) && WfPrns(prns)
  {
    forall w | 0 <= w < 7 && inp.wb[w].valid ::
      NamesLive(s.rob, inp.wb[w].tag.idx, prns[w]) || NamesRetiring(s, inp, inp.wb[w].tag.idx, prns[w])
  }

  ghost predicate NamesLive(s: R.State, idx: nat, p: nat)
    requires F.Inv(s)
  {
    exists k :: 0 <= k < F.Count(s) && Ring.Slot(s.head, k, |s.entry|) == idx && F.Window(s)[k].op.prn == p
  }

  ghost predicate NamesRetiring(s: State, inp: Input, idx: nat, p: nat)
    requires Wf(s) && WfInput(inp)
  {
    (idx < |s.rob.entry| ==> !s.rob.entry[idx].valid) && Writes(RetOps(s.ret), p) && !HandedOut(s, inp, p)
  }

  // Register p is given to the group renamed in this cycle.
  predicate HandedOut(s: State, inp: Input, p: nat)
    requires Wf(s) && WfInput(inp)
  {
    RenameReady(s, inp) && TakenNow(Decoded(inp), Grants(s), p)
  }

  ghost predicate BusyInv(s: State, busy: seq<bool>)
    requires Inv(s)
  {
    && |busy| == |s.free| && QuietLanes(s.ren)
    && (!s.recov ==> forall p | 0 <= p < |busy| :: busy[p] <==> Pending(s, p))
  }

  // A live slot is broadcast exactly when its register is on a lane.
  lemma MarkedPending(s: State, inp: Input, prns: seq<nat>, k: nat, p: nat)
    requires Inv(s) && WfInput(inp) && WfPrns(prns) && BroadcastsLive(s, inp, prns)
    requires k < F.Count(s.rob) && PendingAt(F.Window(s.rob)[k], p) && p != 0 && !s.recov
    ensures F.Marked(s.rob, RobInput(s, inp))[k].op.prn == p
    ensures PendingAt(F.Marked(s.rob, RobInput(s, inp))[k], p) <==> !Carries(inp, prns, p)
  {
    var ri, i := RobInput(s, inp), Ring.Slot(s.rob.head, k, |s.rob.entry|);
    if Carries(inp, prns, p) {
      var w :| 0 <= w < 7 && inp.wb[w].valid && prns[w] == p;
      assert NamesLive(s.rob, inp.wb[w].tag.idx, p) by {
        RetiringNotYounger(s, k, p);
      }
      var j :| 0 <= j < F.Count(s.rob) && Ring.Slot(s.rob.head, j, |s.rob.entry|) == inp.wb[w].tag.idx
        && F.Window(s.rob)[j].op.prn == p;
      OneWriter(s, j, k, p);
      assert R.Broadcast(ri, i);
    }
    if R.Broadcast(ri, i) {
      NamedIsCarried(s, inp, prns, k, p);
    }
  }

  // A broadcast that names a live slot carries the register of that slot.
  lemma NamedIsCarried(s: State, inp: Input, prns: seq<nat>, k: nat, p: nat)
    requires Wf(s) && F.Inv(s.rob) && WfInput(inp) && WfPrns(prns) && BroadcastsLive(s, inp, prns)
    requires k < F.Count(s.rob) && F.Window(s.rob)[k].op.prn == p
    requires R.Broadcast(RobInput(s, inp), Ring.Slot(s.rob.head, k, |s.rob.entry|))
    ensures Carries(inp, prns, p)
  {
    var i := Ring.Slot(s.rob.head, k, |s.rob.entry|);
    var w :| 0 <= w < 7 && inp.wb[w].valid && inp.wb[w].tag.idx == i;
    assert s.rob.entry[i].valid && NamesLive(s.rob, i, prns[w]);
    var j :| 0 <= j < F.Count(s.rob) && Ring.Slot(s.rob.head, j, |s.rob.entry|) == i && F.Window(s.rob)[j].op.prn == prns[w];
  }

  // No two instructions in flight have the same register.
  lemma FlightOneEach(s: State)
    requires Inv(s) && !s.recov
    ensures OneEach(RetOps(s.ret) + Younger(s))
  {
    HeldOneEach(s.arch, Inflight(s));
  }

  // An instruction in the retire register shares its register with nobody
  // younger.
  lemma RetiringNotYounger(s: State, k: nat, p: nat)
    requires Inv(s) && !s.recov && p != 0
    requires k < |Younger(s)| && Younger(s)[k].prn == p
    ensures !Writes(RetOps(s.ret), p)
  {
    FlightOneEach(s);
    OneEachParts(RetOps(s.ret), Younger(s));
  }

  lemma YoungerOneEach(s: State)
    requires Inv(s) && !s.recov
    ensures OneEach(WindowOps(F.Window(s.rob)) + Ops(s.ren))
  {
    FlightOneEach(s);
    OneEachParts(RetOps(s.ret), Younger(s));
  }

  // Two instructions of the window never write the same register.
  lemma OneWriter(s: State, j: nat, k: nat, p: nat)
    requires Inv(s) && !s.recov && p != 0
    requires j < F.Count(s.rob) && k < F.Count(s.rob)
    requires F.Window(s.rob)[j].op.prn == p && F.Window(s.rob)[k].op.prn == p
    ensures j == k
  {
    var w := WindowOps(F.Window(s.rob));
    YoungerOneEach(s);
    OneEachParts(w, Ops(s.ren));
    assert w[j].prn == w[k].prn;
  }

  // The destinations of the window are held, so they are not handed out.
  lemma WriterNotGranted(s: State, inp: Input, k: nat, p: nat)
    requires Inv(s) && EnvOk(s, inp) && !s.recov && Sized(s) && RenameReady(s, inp) && p != 0
    requires k < |Younger(s)| && Younger(s)[k].prn == p
    ensures !TakenNow(Decoded(inp), Grants(s), p)
  {
    hide Decoded, Grants;
    RetireBalances(s);
    NeverStarves(s, inp);
    var h := Held(NextArch(s.arch, s.ret), Younger(s));
    assert h[|s.arch| + k] == p;
  }

  lemma NewOpsTaken(s: State, inp: Input, p: nat)
    requires Inv(s) && EnvOk(s, inp) && !s.recov && Sized(s) && !Flush(s) && p != 0
    ensures Writes(NewOps(s, inp), p) <==> HandedOut(s, inp, p)
  {
    hide Grants, Inflight;
    if RenameReady(s, inp) {
      NeverStarves(s, inp);
      var dec, gs := Decoded(inp), Grants(s);
      var ls := RenamedLanes(s.rat, dec, gs);
      if TakenNow(dec, gs, p) {
        var k :| 0 <= k < 4 && gs[k] == Psel.Some(p) && Takes(dec, k);
        assert ls[k].op in NewOps(s, inp);
      }
    }
  }

  lemma ArrivingPending(ren: seq<R.Lane>, p: nat)
    requires QuietLanes(ren) && p != 0
    ensures PendingIn(R.NewEntries(ren), p) <==> Writes(Ops(ren), p)
  {
    forall k | 0 <= k < R.LaneCount(ren)
      ensures R.NewEntries(ren)[k].op == Ops(ren)[k]
      ensures Ops(ren)[k].prn == p ==> !R.NewEntries(ren)[k].complete
    {
      EntriesAreOps(ren, k);
      QuietEntries(ren, k);
    }
    if Writes(Ops(ren), p) {
      var u :| u in Ops(ren) && u.prn == p;
      var k :| 0 <= k < |Ops(ren)| && Ops(ren)[k] == u;
      assert PendingAt(R.NewEntries(ren)[k], p);
    }
  }

  lemma {:induction false} QuietEntries(ren: seq<R.Lane>, k: nat)
    requires QuietLanes(ren) && k < R.LaneCount(ren)
    ensures R.NewEntries(ren)[k].complete ==> R.NewEntries(ren)[k].op.prn == 0
  {
    var n := |ren| - 1;
    if k < R.LaneCount(ren[..n]) {
      QuietEntries(ren[..n], k);
    }
  }

  lemma RetiringComplete(s: R.State, k: nat)
    requires F.Inv(s) && k < F.Count(s) && !F.Window(s)[k].complete
    ensures R.RetireCount(s) <= k
  {
    F.RetireWithinWindow(s);
  }

  lemma StillPending(s: State, inp: Input, prns: seq<nat>, p: nat)
    requires Inv(s) && EnvOk(s, inp) && !s.recov && p != 0
    requires WfPrns(prns) && BroadcastsLive(s, inp, prns)
    requires PendingInRob(s.rob, p) && !Carries(inp, prns, p) && R.RetireCount(s.rob) <= F.Count(s.rob)
    ensures PendingIn(F.Marked(s.rob, RobInput(s, inp))[R.RetireCount(s.rob)..], p)
  {
    hide RobInput, BroadcastsLive, NamesRetiring, InRange;
    var r, w, m := R.RetireCount(s.rob), F.Window(s.rob), F.Marked(s.rob, RobInput(s, inp));
    var k :| 0 <= k < |w| && PendingAt(w[k], p);
    MarkedPending(s, inp, prns, k, p);
    RetiringComplete(s.rob, k);
    assert PendingAt(m[r..][k - r], p);
  }

  lemma WasPending(s: State, inp: Input, prns: seq<nat>, p: nat, k: nat)
    requires Inv(s) && EnvOk(s, inp) && !s.recov && p != 0
    requires WfPrns(prns) && BroadcastsLive(s, inp, prns)
    requires k < F.Count(s.rob) && PendingAt(F.Marked(s.rob, RobInput(s, inp))[k], p)
    ensures PendingInRob(s.rob, p) && !Carries(inp, prns, p)
  {
    var w := F.Window(s.rob);
    assert PendingAt(w[k], p);
    MarkedPending(s, inp, prns, k, p);
  }

  lemma StayingPending(s: State, inp: Input, prns: seq<nat>, p: nat)
    requires Inv(s) && EnvOk(s, inp) && !s.recov && p != 0
    requires WfPrns(prns) && BroadcastsLive(s, inp, prns)
    ensures R.RetireCount(s.rob) <= F.Count(s.rob)
    ensures PendingIn(F.Marked(s.rob, RobInput(s, inp))[R.RetireCount(s.rob)..], p) <==>
      PendingInRob(s.rob, p) && !Carries(inp, prns, p)
  {
    var r, m := R.RetireCount(s.rob), F.Marked(s.rob, RobInput(s, inp));
    F.RetireWithinWindow(s.rob);
    hide Inv, EnvOk, BroadcastsLive, Carries, F.Marked, RobInput;
    if PendingInRob(s.rob, p) && !Carries(inp, prns, p) {
      StillPending(s, inp, prns, p);
    }
    if PendingIn(m[r..], p) {
      var k :| 0 <= k < |m[r..]| && PendingAt(m[r..][k], p);
      WasPending(s, inp, prns, p, r + k);
    }
  }

  // After the edge, the window's pending instructions are the old ones without
  // a broadcast, and those arriving from the rename register.
  lemma PendingInRobNext(s: State, inp: Input, prns: seq<nat>, p: nat)
    requires Inv(s) && EnvOk(s, inp) && !s.recov && !Flush(s) && p != 0 && QuietLanes(s.ren)
    requires WfPrns(prns) && BroadcastsLive(s, inp, prns)
    ensures F.Inv(Next(s, inp).rob)
    ensures PendingInRob(Next(s, inp).rob, p) <==>
      (PendingInRob(s.rob, p) && !Carries(inp, prns, p)) || Writes(Ops(s.ren), p)
  {
    var ri := RobInput(s, inp);
    F.StepRefinesFifo(s.rob, ri);
    ArrivingPending(s.ren, p);
    StayingPending(s, inp, prns, p);
    PendingConcat(F.Marked(s.rob, ri)[R.RetireCount(s.rob)..], R.NewEntries(s.ren), p);
  }

  lemma QuietNext(s: State, inp: Input)
    requires Wf(s) && WfInput(inp) && GroupOk(s, inp)
    ensures QuietLanes(Next(s, inp).ren)
  {
  }

  lemma ZeroNeverTaken(s: State, inp: Input)
    requires Inv(s) && EnvOk(s, inp) && !s.recov && Sized(s)
    ensures !HandedOut(s, inp, 0)
  {
    if RenameReady(s, inp) {
      NeverStarves(s, inp);
    }
  }

  lemma BusyStepNonzero(s: State, inp: Input, prns: seq<nat>, busy: seq<bool>, p: nat)
    requires Inv(s) && EnvOk(s, inp) && Sized(s) && BusyInv(s, busy) && !s.recov && !Flush(s)
    requires WfPrns(prns) && BroadcastsLive(s, inp, prns) && 0 < p < |busy| && F.Inv(Next(s, inp).rob)
    ensures NextBusy(busy, s.recov, Decoded(inp), Grants(s), RenameReady(s, inp), inp, prns)[p] <==> Pending(Next(s, inp), p)
  {
    hide Decoded, Grants, Next, RenameReady;
    NextRenameOps(s, inp);
    PendingInRobNext(s, inp, prns, p);
    NewOpsTaken(s, inp, p);
    if Carries(inp, prns, p) {
      CarriedIsGone(s, inp, prns, p);
    }
  }

  lemma BusyStep(s: State, inp: Input, prns: seq<nat>, busy: seq<bool>, p: nat)
    requires Inv(s) && EnvOk(s, inp) && Sized(s) && BusyInv(s, busy) && !s.recov && !Flush(s)
    requires WfPrns(prns) && BroadcastsLive(s, inp, prns) && p < |busy|
    ensures F.Inv(Next(s, inp).rob)
    ensures NextBusy(busy, s.recov, Decoded(inp), Grants(s), RenameReady(s, inp), inp, prns)[p] <==> Pending(Next(s, inp), p)
  {
    StepKeepsRoom(s, inp);
    if p == 0 {
      ZeroNeverTaken(s, inp);
    } else {
      BusyStepNonzero(s, inp, prns, busy, p);
    }
  }

  // A register on a broadcast lane belongs to an instruction of the window or
  // of the retire register.
  lemma CarriedWriter(s: State, inp: Input, prns: seq<nat>, p: nat) returns (k: nat)
    requires Inv(s) && WfInput(inp)
    requires WfPrns(prns) && BroadcastsLive(s, inp, prns) && Carries(inp, prns, p)
    requires !(Writes(RetOps(s.ret), p) && !HandedOut(s, inp, p))
    ensures k < F.Count(s.rob) && F.Window(s.rob)[k].op.prn == p && Younger(s)[k].prn == p
  {
    var w :| 0 <= w < 7 && inp.wb[w].valid && prns[w] == p;
    assert NamesLive(s.rob, inp.wb[w].tag.idx, p);
    k :| 0 <= k < F.Count(s.rob) && Ring.Slot(s.rob.head, k, |s.rob.entry|) == inp.wb[w].tag.idx
      && F.Window(s.rob)[k].op.prn == p;
  }

  lemma NotAlsoWaiting(s: State, k: nat, p: nat)
    requires Inv(s) && !s.recov && p != 0
    requires k < F.Count(s.rob) && F.Window(s.rob)[k].op.prn == p
    ensures !Writes(Ops(s.ren), p)
  {
    var w := WindowOps(F.Window(s.rob));
    YoungerOneEach(s);
    OneEachParts(w, Ops(s.ren));
    assert w[k].prn == p;
  }

  lemma RetiringNotWaiting(s: State, p: nat)
    requires Inv(s) && !s.recov && p != 0 && Writes(RetOps(s.ret), p)
    ensures !Writes(Ops(s.ren), p)
  {
    forall u | u in Ops(s.ren)
      ensures u.prn != p
    {
      assert u in Younger(s);
      var k :| 0 <= k < |Younger(s)| && Younger(s)[k] == u;
      if u.prn == p {
        RetiringNotYounger(s, k, p);
      }
    }
  }

  // It has no other writer, waiting or arriving.
  lemma CarriedIsGone(s: State, inp: Input, prns: seq<nat>, p: nat)
    requires Inv(s) && EnvOk(s, inp) && Sized(s) && !s.recov && p != 0
    requires WfPrns(prns) && BroadcastsLive(s, inp, prns) && Carries(inp, prns, p)
    ensures !Writes(Ops(s.ren), p)
    ensures !HandedOut(s, inp, p)
  {
    if Writes(RetOps(s.ret), p) && !HandedOut(s, inp, p) {
      RetiringNotWaiting(s, p);
    } else {
      var k := CarriedWriter(s, inp, prns, p);
      NotAlsoWaiting(s, k, p);
      if RenameReady(s, inp) {
        WriterNotGranted(s, inp, k, p);
      }
    }
  }

  // Why a late broadcast must not meet its register being handed out: the
  // clears come last, so the new writer would not be marked.
  lemma LateBroadcastIff(s: State, inp: Input, prns: seq<nat>, busy: seq<bool>, p: nat)
    requires Inv(s) && EnvOk(s, inp) && Sized(s) && !s.recov && !Flush(s) && WfPrns(prns)
    requires 0 < p < |busy| && Carries(inp, prns, p) && Writes(RetOps(s.ret), p)
    ensures Inv(Next(s, inp))
    ensures (NextBusy(busy, s.recov, Decoded(inp), Grants(s), RenameReady(s, inp), inp, prns)[p] <==> Pending(Next(s, inp), p))
      <==> !HandedOut(s, inp, p)
  {
    StepKeepsInv(s, inp);
    NewOpsTaken(s, inp, p);
    NextRenameOps(s, inp);
    WindowFromYounger(s, inp);
    LateNotInWindow(s, R.RetireCount(s.rob), F.Window(Next(s, inp).rob), p);
  }

  lemma TailOf(w: seq<R.Uop>, r: nat, n: seq<R.Uop>)
    requires r <= |w|
    ensures (w + n)[r..] == w[r..] + n
  {
  }

  // The next window consists of instructions that are younger than the retire
  // register now.
  lemma WindowFromYounger(s: State, inp: Input)
    requires Wf(s) && WfInput(inp) && F.Inv(s.rob) && Roomy(s) && !Flush(s)
    ensures F.Inv(R.Next(s.rob, RobInput(s, inp))) && R.RetireCount(s.rob) <= |Younger(s)|
    ensures WindowOps(F.Window(R.Next(s.rob, RobInput(s, inp)))) == Younger(s)[R.RetireCount(s.rob)..]
  {
    WindowOpsNext(s.rob, RobInput(s, inp));
    TailOf(WindowOps(F.Window(s.rob)), R.RetireCount(s.rob), Ops(s.ren));
  }

  lemma LateNotInWindow(s: State, r: nat, w: seq<R.Entry>, p: nat)
    requires Inv(s) && !s.recov && p != 0 && Writes(RetOps(s.ret), p)
    requires r <= |Younger(s)| && WindowOps(w) == Younger(s)[r..]
    ensures !PendingIn(w, p)
  {
    forall k | 0 <= k < |w|
      ensures w[k].op.prn != p
    {
      assert WindowOps(w)[k] == Younger(s)[r..][k];
      if w[k].op.prn == p {
        RetiringNotYounger(s, r + k, p);
      }
    }
  }

  lemma AllBusyStep(s: State, inp: Input, prns: seq<nat>, busy: seq<bool>)
    requires Inv(s) && EnvOk(s, inp) && Sized(s) && BusyInv(s, busy) && !s.recov && !Flush(s)
    requires WfPrns(prns) && BroadcastsLive(s, inp, prns)
    ensures Inv(Next(s, inp))
    ensures forall p | 0 <= p < |busy| ::
      NextBusy(busy, s.recov, Decoded(inp), Grants(s), RenameReady(s, inp), inp, prns)[p] <==> Pending(Next(s, inp), p)
  {
    StepKeepsInv(s, inp);
    forall p | 0 <= p < |busy|
      ensures NextBusy(busy, s.recov, Decoded(inp), Grants(s), RenameReady(s, inp), inp, prns)[p] <==> Pending(Next(s, inp), p)
    {
      BusyStep(s, inp, prns, busy, p);
    }
  }

  lemma BusyAfterRecovery(s: State, inp: Input)
    requires Inv(s) && EnvOk(s, inp) && s.recov
    ensures Inv(Next(s, inp)) && !Next(s, inp).recov
    ensures forall p: nat :: !Pending(Next(s, inp), p)
  {
    RecoveryStep(s, inp);
    NothingPending(Next(s, inp));
  }

  // The busy table tells the truth in every state outside recovery.
  lemma BusyInvStep(s: State, inp: Input, prns: seq<nat>, busy: seq<bool>, busy': seq<bool>)
    requires Inv(s) && EnvOk(s, inp) && Sized(s) && BusyInv(s, busy)
    requires WfPrns(prns) && BroadcastsLive(s, inp, prns)
    requires busy' == NextBusy(busy, s.recov, Decoded(inp), Grants(s), RenameReady(s, inp), inp, prns)
    ensures Inv(Next(s, inp)) && BusyInv(Next(s, inp), busy')
  {
    QuietNext(s, inp);
    if s.recov {
      BusyAfterRecovery(s, inp);
    } else if Flush(s) {
      FlushStep(s, inp);
    } else {
      AllBusyStep(s, inp, prns, busy);
    }
  }

  lemma NothingPending(s: State)
    requires Inv(s) && Inflight(s) == []
    ensures forall p: nat :: !Pending(s, p)
  {
    assert |Younger(s)| == 0;
  }

  // ------------------------------------------------------------- sources

  // next_pr_src: the youngest elder lane below j that writes src, else the map.
  function SourceFrom(rat: seq<nat>, dec: seq<Dec>, gs: seq<Psel.Grant>, src: nat, j: nat): nat
    requires |dec| == |gs| && j <= |dec| && src < |rat|
  {
    if j == 0 then rat[src]
    else if dec[j - 1].rd && src == dec[j - 1].arn then Dest(dec, gs, j - 1)
    else SourceFrom(rat, dec, gs, src, j - 1)
  }

  // A source is looked up in the map that all elder instructions leave, those
  // of its own group included.
  lemma {:induction false} SourceIsProgramOrder(rat: seq<nat>, dec: seq<Dec>, gs: seq<Psel.Grant>, f: seq<bool>, src: nat, k: nat)
    requires WfGroup(dec, gs, |rat|) && k <= |dec| && Granted(gs, f) && rat[0] == 0 && src < |rat|
    ensures InRange(OpsBelow(rat, dec, gs, k), |rat|)
    ensures SourceFrom(rat, dec, gs, src, k) == Fold(rat, OpsBelow(rat, dec, gs, k))[src]
  {
    RatIsFold(rat, dec, gs, f, k);
    SourceIsRat(rat, dec, gs, f, src, k);
  }

  lemma {:induction false} SourceIsRat(rat: seq<nat>, dec: seq<Dec>, gs: seq<Psel.Grant>, f: seq<bool>, src: nat, k: nat)
    requires WfGroup(dec, gs, |rat|) && k <= |dec| && Granted(gs, f) && rat[0] == 0 && src < |rat|
    ensures SourceFrom(rat, dec, gs, src, k) == RatAt(rat, dec, gs, k, src)
  {
    if k > 0 {
      SourceIsRat(rat, dec, gs, f, src, k - 1);
      if src == 0 {
        ZeroUnmoved(rat, dec, gs, k);
      }
    }
  }

  lemma {:induction false} ZeroUnmoved(rat: seq<nat>, dec: seq<Dec>, gs: seq<Psel.Grant>, k: nat)
    requires |dec| == |gs| && k <= |dec| && |rat| > 0
    ensures RatAt(rat, dec, gs, k, 0) == rat[0]
  {
    if k > 0 {
      ZeroUnmoved(rat, dec, gs, k - 1);
    }
  }

  // pr_src_data_ready of lane k for the physical source p.
  predicate DataReady(busy: seq<bool>, inp: Input, prns: seq<nat>, dec: seq<Dec>, gs: seq<Psel.Grant>,
                      ready: bool, k: nat, p: nat)
    requires |dec| == |gs| && k <= |dec| && |inp.wb| == 7 && |prns| == 7 && p < |busy|
  {
    && (!busy[p] || Carries(inp, prns, p))
    && !(exists j | 0 <= j < k :: gs[j] == Psel.Some(p) && Takes(dec, j) && ready)
  }

  lemma ElderWrites(rat: seq<nat>, dec: seq<Dec>, gs: seq<Psel.Grant>, f: seq<bool>, k: nat, p: nat)
    requires WfGroup(dec, gs, |rat|) && k <= |dec| && Granted(gs, f) && p != 0
    ensures Writes(OpsBelow(rat, dec, gs, k), p) <==> exists j :: 0 <= j < k && gs[j] == Psel.Some(p) && Takes(dec, j)
  {
    var ls := RenamedLanes(rat, dec, gs);
    if Writes(OpsBelow(rat, dec, gs, k), p) {
      var u :| u in OpsBelow(rat, dec, gs, k) && u.prn == p;
      var j :| 0 <= j < |ls[..k]| && ls[..k][j].valid && ls[..k][j].op == u;
      assert gs[j] == Psel.Some(p) && Takes(dec, j);
    }
    if exists j :: 0 <= j < k && gs[j] == Psel.Some(p) && Takes(dec, j) {
      var j :| 0 <= j < k && gs[j] == Psel.Some(p) && Takes(dec, j);
      assert ls[..k][j].op in OpsBelow(rat, dec, gs, k);
    }
  }

  // Every state of a run, with the busy table beside the back end.
  ghost predicate BusyRun(tr: seq<State>, ins: seq<Input>, prns: seq<seq<nat>>, busys: seq<seq<bool>>, p: nat)
    requires |tr| == |ins| + 1
  {
    && |prns| == |ins| && |busys| == |tr|
    && busys[0] == seq(p, i => false)
    && (forall t | 0 <= t < |ins| :: BusyStepAt(tr, ins, prns, busys, t))
  }

  ghost predicate BusyStepAt(tr: seq<State>, ins: seq<Input>, prns: seq<seq<nat>>, busys: seq<seq<bool>>, t: nat)
    requires t < |ins| && |tr| == |ins| + 1 && |prns| == |ins| && |busys| == |tr|
  {
    && Wf(tr[t]) && WfInput(ins[t]) && WfPrns(prns[t])
    && (F.Inv(tr[t].rob) ==> BroadcastsLive(tr[t], ins[t], prns[t]))
    && busys[t + 1] == NextBusy(busys[t], tr[t].recov, Decoded(ins[t]), Grants(tr[t]),
                                RenameReady(tr[t], ins[t]), ins[t], prns[t])
  }

  lemma BusyParts(tr: seq<State>, ins: seq<Input>, prns: seq<seq<nat>>, busys: seq<seq<bool>>, p: nat, t: nat,
                  s: State, inp: Input, q: seq<nat>, busy: seq<bool>, busy': seq<bool>)
    requires |tr| == |ins| + 1 && BusyRun(tr, ins, prns, busys, p) && t < |ins|
    requires s == tr[t] && inp == ins[t] && q == prns[t] && busy == busys[t] && busy' == busys[t + 1]
    ensures Wf(s) && WfInput(inp) && WfPrns(q) && (F.Inv(s.rob) ==> BroadcastsLive(s, inp, q))
    ensures busy' == NextBusy(busy, s.recov, Decoded(inp), Grants(s), RenameReady(s, inp), inp, q)
  {
    assert BusyStepAt(tr, ins, prns, busys, t);
  }

  lemma BusyInRun(tr: seq<State>, ins: seq<Input>, prns: seq<seq<nat>>, busys: seq<seq<bool>>,
                  d: nat, p: nat, a: nat, t: nat,
                  s: State, inp: Input, s': State, q: seq<nat>, busy: seq<bool>, busy': seq<bool>)
    requires Run(tr, ins, d, p, a) && BusyRun(tr, ins, prns, busys, p) && t < |ins|
    requires s == tr[t] && inp == ins[t] && s' == tr[t + 1]
    requires q == prns[t] && busy == busys[t] && busy' == busys[t + 1]
    requires Inv(s) && BusyInv(s, busy)
    ensures Inv(s') && BusyInv(s', busy')
  {
    StepParts(tr, ins, d, p, a, t, s, inp, s');
    BusyParts(tr, ins, prns, busys, p, t, s, inp, q, busy, busy');
    BusyInvStep(s, inp, q, busy, busy');
  }

  lemma BusyAtReset(d: nat, p: nat, a: nat, s: State, busy: seq<bool>)
    requires d >= 8 && d % 4 == 0 && p > 0 && a > 0 && s == Reset(d, p, a) && busy == seq(p, i => false)
    ensures Inv(s) && BusyInv(s, busy)
  {
    ResetInv(d, p, a);
    NothingPending(s);
  }

  lemma {:induction false} RunKeepsBusy(tr: seq<State>, ins: seq<Input>, prns: seq<seq<nat>>, busys: seq<seq<bool>>,
                                        d: nat, p: nat, a: nat, t: nat)
    requires Run(tr, ins, d, p, a) && BusyRun(tr, ins, prns, busys, p) && t <= |ins|
    ensures Inv(tr[t]) && BusyInv(tr[t], busys[t])
  {
    if t == 0 {
      BusyAtReset(d, p, a, tr[0], busys[0]);
    } else {
      RunKeepsBusy(tr, ins, prns, busys, d, p, a, t - 1);
      BusyInRun(tr, ins, prns, busys, d, p, a, t - 1, tr[t - 1], ins[t - 1], tr[t], prns[t - 1], busys[t - 1], busys[t]);
    }
  }

  // In every reachable state, a lane of an accepted group is told its source is
  // ready exactly when no elder writer of that register, in flight or in the
  // group, is still without a broadcast at the end of this cycle.
  lemma ReadyExactly(tr: seq<State>, ins: seq<Input>, prns: seq<seq<nat>>, busys: seq<seq<bool>>,
                     d: nat, p: nat, a: nat, t: nat, k: nat, src: nat)
    requires Run(tr, ins, d, p, a) && BusyRun(tr, ins, prns, busys, p) && t < |ins| && !tr[t].recov
    requires StepAt(tr, ins, t) && RenameReady(tr[t], ins[t]) && k < 4 && src < a
    requires BusyStepAt(tr, ins, prns, busys, t)
    ensures Inv(tr[t]) && |tr[t].rat| == a && |busys[t]| == p
    ensures WfGroup(Decoded(ins[t]), Grants(tr[t]), a)
    ensures var s, dec, gs := tr[t], Decoded(ins[t]), Grants(tr[t]);
      var q := SourceFrom(s.rat, dec, gs, src, k);
      && q < p
      && (DataReady(busys[t], ins[t], prns[t], dec, gs, true, k, q) <==>
            (Pending(s, q) ==> Carries(ins[t], prns[t], q)) && !(q != 0 && Writes(OpsBelow(s.rat, dec, gs, k), q)))
  {
    hide Decoded, Grants, Inv, BusyStepAt;
    RunKeepsInv(tr, ins, d, p, a, t);
    RunKeepsBusy(tr, ins, prns, busys, d, p, a, t);
    var s, dec, gs := tr[t], Decoded(ins[t]), Grants(tr[t]);
    NeverStarves(s, ins[t]);
    DecodedOk(s, ins[t]);
    SourceInRange(s, dec, gs, src, k);
    var q := SourceFrom(s.rat, dec, gs, src, k);
    if q != 0 {
      ElderWrites(s.rat, dec, gs, Forwarded(s.free, s.ret), k, q);
    }
  }

  lemma {:induction false} SourceInRange(s: State, dec: seq<Dec>, gs: seq<Psel.Grant>, src: nat, k: nat)
    requires Inv(s) && !s.recov && WfGroup(dec, gs, |s.rat|) && Granted(gs, Forwarded(s.free, s.ret))
    requires k <= |dec| && src < |s.rat|
    ensures SourceFrom(s.rat, dec, gs, src, k) < |s.free|
  {
    if k > 0 {
      SourceInRange(s, dec, gs, src, k - 1);
    } else {
      FoldInHeld(s.arch, Inflight(s), src);
    }
  }

  // Every register the map can name is held by somebody.
  lemma {:induction false} FoldInHeld(m: seq<nat>, us: seq<R.Uop>, i: nat)
    requires InRange(us, |m|) && i < |m|
    ensures Fold(m, us)[i] in Held(m, us)
    decreases us
  {
    hide Prns;
    if us == [] {
      assert Held(m, us)[i] == m[i];
    } else {
      FoldInHeld(Apply(m, us[0]), us[1..], i);
      var q := Fold(m, us)[i];
      var h', h := Held(Apply(m, us[0]), us[1..]), Held(m, us);
      var j :| 0 <= j < |h'| && h'[j] == q;
      if j < |m| && j == us[0].arn && j != 0 {
        assert h[|m|] == q;
      } else {
        assert h[if j < |m| then j else j + 1] == q;
      }
    }
  }
}
