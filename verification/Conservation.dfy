/**
  Conservation of physical registers, the capacity bound, and recovery, over
  every step of the back end.
 */
module Conservation {
  import R = Rob
  import opened Rename
  import opened Ledger
  import F = RobFifo
  import Psel
  import opened Backend

  // ------------------------------------------- the reorder buffer's share

  lemma RetireLane(s: R.State, k: nat)
    requires F.Inv(s) && k < 4
    ensures R.RetireCount(s) <= F.Count(s)
    ensures R.RetirePkt(s)[k].valid <==> k < R.RetireCount(s)
    ensures k < R.RetireCount(s) ==> R.RetirePkt(s)[k].op == WindowOps(F.Window(s))[k]
  {
    F.RetireWithinWindow(s);
  }

  // The first lanes of a packet whose valid lanes carry the front of us.
  lemma {:induction false} PrefixOps(ret: seq<R.Retire>, us: seq<R.Uop>, r: nat, k: nat)
    requires r <= |us| && k <= |ret|
    requires forall j: nat | j < |ret| :: (ret[j].valid <==> j < r) && (j < r ==> ret[j].op == us[j])
    ensures RetOps(ret[..k]) == us[..if k < r then k else r]
  {
    if k > 0 {
      PrefixOps(ret, us, r, k - 1);
      RetOpsLane(ret, k);
    }
  }

  // The retirement lanes carry the oldest instructions of the window.
  lemma RetirePktOps(s: R.State)
    requires F.Inv(s)
    ensures R.RetireCount(s) <= F.Count(s)
    ensures RetOps(R.RetirePkt(s)) == WindowOps(F.Window(s))[..R.RetireCount(s)]
  {
    forall j: nat | j < 4
      ensures R.RetirePkt(s)[j].valid <==> j < R.RetireCount(s)
      ensures j < R.RetireCount(s) ==> R.RetirePkt(s)[j].op == WindowOps(F.Window(s))[j]
    {
      RetireLane(s, j);
    }
    F.RetireWithinWindow(s);
    PrefixOps(R.RetirePkt(s), WindowOps(F.Window(s)), R.RetireCount(s), 4);
    assert R.RetirePkt(s)[..4] == R.RetirePkt(s);
  }

  lemma WindowOpsNext(s: R.State, inp: R.Input)
    requires F.Inv(s) && R.WfInput(inp) && !inp.flush
    requires F.Count(s) + R.LaneCount(inp.dispatch) <= |s.entry|
    ensures F.Inv(R.Next(s, inp)) && R.RetireCount(s) <= F.Count(s)
    ensures WindowOps(F.Window(R.Next(s, inp))) == WindowOps(F.Window(s))[R.RetireCount(s)..] + Ops(inp.dispatch)
  {
    F.StepRefinesFifo(s, inp);
    QueueOps(F.Marked(s, inp), R.RetireCount(s), R.NewEntries(inp.dispatch));
    MarkedOps(s, inp);
    NewEntryOps(inp.dispatch);
  }

  lemma NewEntryOps(lanes: seq<R.Lane>)
    ensures WindowOps(R.NewEntries(lanes)) == Ops(lanes)
  {
    forall k | 0 <= k < R.LaneCount(lanes)
      ensures R.NewEntries(lanes)[k].op == Ops(lanes)[k]
    {
      EntriesAreOps(lanes, k);
    }
  }

  lemma QueueOps(w: seq<R.Entry>, r: nat, n: seq<R.Entry>)
    requires r <= |w|
    ensures WindowOps(w[r..] + n) == WindowOps(w)[r..] + WindowOps(n)
  {
  }

  lemma MarkedOps(s: R.State, inp: R.Input)
    requires F.Inv(s) && R.WfInput(inp)
    ensures WindowOps(F.Marked(s, inp)) == WindowOps(F.Window(s))
  {
  }

  // ---------------------------------------------- retirement and renaming

  // Committing the retire register leaves a balanced ledger, and it is the one
  // the free list forwards to the selector in the same cycle.
  lemma RetireBalances(s: State)
    requires Inv(s) && !s.recov
    ensures InRange(RetOps(s.ret), |s.arch|)
    ensures NextArch(s.arch, s.ret) == Fold(s.arch, RetOps(s.ret))
    ensures Balanced(NextArch(s.arch, s.ret), Younger(s), Forwarded(s.free, s.ret))
    ensures InRange(Younger(s), |s.arch|)
    ensures s.rat == Fold(NextArch(s.arch, s.ret), Younger(s))
  {
    assert forall u | u in RetOps(s.ret) :: u in Inflight(s);
    assert forall u | u in Younger(s) :: u in Inflight(s);
    NextArchIsFold(s.arch, s.ret);
    ForwardedIsRelease(s.free, s.ret);
    CommitAll(s.arch, RetOps(s.ret), Younger(s), s.free);
    FoldConcat(s.arch, RetOps(s.ret), Younger(s));
  }

  lemma ReadyMeansNoFlush(s: State, inp: Input)
    requires Inv(s) && WfInput(inp) && RenameReady(s, inp)
    ensures !Flush(s) && !s.rob.brMisp
  {
    assert R.Ready(s.rob, RobInput(s, inp), 0);
  }

  // Capacity: whatever the past of the machine, an accepted group finds at
  // least |PRF| - |ARF| - |ROB| free registers.
  lemma RoomWhenReady(s: State, inp: Input)
    requires Inv(s) && !s.recov && WfInput(inp) && RenameReady(s, inp)
    ensures |Psel.Requests(Forwarded(s.free, s.ret))| >= |s.free| - |s.arch| - |s.rob.entry|
  {
    var ri := RobInput(s, inp);
    ReadyMeansNoFlush(s, inp);
    RetireBalances(s);
    FreeAtLeast(NextArch(s.arch, s.ret), Younger(s), Forwarded(s.free, s.ret));
    assert Psel.Requests(Forwarded(s.free, s.ret)) == Free(Forwarded(s.free, s.ret));
    assert R.Ready(s.rob, ri, 3);
    F.ReadyCredit(s.rob, ri, 3);
    F.NextCount(s.rob, ri);
  }

  // Rename never starves: with the extra group of registers every lane of an
  // accepted group is granted a register of its own.
  lemma NeverStarves(s: State, inp: Input)
    requires Inv(s) && !s.recov && Sized(s) && WfInput(inp) && RenameReady(s, inp)
    ensures Granted(Grants(s), Forwarded(s.free, s.ret))
  {
    var f, gs := Forwarded(s.free, s.ret), Grants(s);
    RoomWhenReady(s, inp);
    RetireBalances(s);
    Psel.GrantsAll(f);
    Psel.GrantsDistinct(f);
    forall k | 0 <= k < 4
      ensures gs[k].Some? && 0 < gs[k].idx < |f| && f[gs[k].idx]
    {
      assert gs[k].idx in Psel.Requests(f);
    }
  }

  lemma DecodedOk(s: State, inp: Input)
    requires Wf(s) && WfInput(inp) && GroupOk(s, inp)
    ensures WfGroup(Decoded(inp), Grants(s), |s.rat|)
  {
  }

  function NewOps(s: State, inp: Input): (us: seq<R.Uop>)
    requires Wf(s) && WfInput(inp) && GroupOk(s, inp)
  {
    if !Flush(s) && RenameReady(s, inp) then Ops(RenamedLanes(s.rat, Decoded(inp), Grants(s))) else []
  }

  lemma NoLanesNoOps()
    ensures Ops(NO_LANES) == [] && R.LaneCount(NO_LANES) == 0 && RetOps(NO_RETIRES) == []
  {
    assert forall k | 0 <= k < 4 :: !NO_LANES[k].valid && !NO_RETIRES[k].valid;
    if Ops(NO_LANES) != [] {
      assert Ops(NO_LANES)[0] in Ops(NO_LANES);
    }
    if RetOps(NO_RETIRES) != [] {
      assert RetOps(NO_RETIRES)[0] in RetOps(NO_RETIRES);
    }
  }

  lemma NextRenameOps(s: State, inp: Input)
    requires Wf(s) && WfInput(inp) && GroupOk(s, inp)
    ensures Ops(Next(s, inp).ren) == NewOps(s, inp)
    ensures R.LaneCount(Next(s, inp).ren) == |NewOps(s, inp)|
  {
    NoLanesNoOps();
  }

  lemma RenameRegister(s: State, inp: Input)
    requires Wf(s) && WfInput(inp) && GroupOk(s, inp)
    ensures WfGroup(Decoded(inp), Grants(s), |s.rat|)
    ensures !Flush(s) && RenameReady(s, inp) ==> Next(s, inp).ren == RenamedLanes(s.rat, Decoded(inp), Grants(s))
    ensures !RenameReady(s, inp) ==> Next(s, inp).ren == NO_LANES
  {
  }

  lemma Regroup(w: seq<R.Uop>, r: nat, b: seq<R.Uop>, c: seq<R.Uop>)
    requires r <= |w|
    ensures w[..r] + ((w[r..] + b) + c) == (w + b) + c
  {
  }

  // Program order: the flight loses what commits and gains what is renamed.
  lemma InflightNext(s: State, inp: Input)
    requires Inv(s) && EnvOk(s, inp) && !Flush(s)
    ensures F.Inv(Next(s, inp).rob)
    ensures Inflight(Next(s, inp)) == Younger(s) + NewOps(s, inp)
  {
    RetirePktOps(s.rob);
    WindowOpsNext(s.rob, RobInput(s, inp));
    NextRenameOps(s, inp);
    Regroup(WindowOps(F.Window(s.rob)), R.RetireCount(s.rob), Ops(s.ren), NewOps(s, inp));
  }

  // A group that is accepted finds a register for every lane.
  ghost predicate Supplied(s: State, inp: Input)
    requires Wf(s) && WfInput(inp)
  {
    RenameReady(s, inp) ==> Granted(Grants(s), Forwarded(s.free, s.ret))
  }

  // A rename that is accepted takes fresh registers and leaves the map it
  // should; one that is refused changes nothing.
  lemma RenameBalances(s: State, inp: Input)
    requires Inv(s) && EnvOk(s, inp) && !s.recov && !Flush(s) && Supplied(s, inp)
    ensures InRange(Younger(s) + NewOps(s, inp), |s.arch|)
    ensures Balanced(NextArch(s.arch, s.ret), Younger(s) + NewOps(s, inp), Next(s, inp).free)
    ensures Next(s, inp).rat == Fold(NextArch(s.arch, s.ret), Younger(s) + NewOps(s, inp))
  {
    hide Decoded, Grants;
    var m, y, f := NextArch(s.arch, s.ret), Younger(s), Forwarded(s.free, s.ret);
    var dec, gs := Decoded(inp), Grants(s);
    RetireBalances(s);
    DecodedOk(s, inp);
    if RenameReady(s, inp) {
      GroupAccepted(m, y, f, s.rat, dec, gs);
      NextFreeIsTake(s.free, s.ret, s.rat, dec, gs);
    } else {
      NextFreeIdle(s.free, s.ret, dec, gs);
      assert y + [] == y;
    }
  }

  lemma GroupAccepted(m: seq<nat>, y: seq<R.Uop>, f: seq<bool>, rat: seq<nat>, dec: seq<Dec>, gs: seq<Psel.Grant>)
    requires Balanced(m, y, f) && InRange(y, |m|) && rat == Fold(m, y)
    requires WfGroup(dec, gs, |rat|) && Granted(gs, f)
    ensures var us := Ops(RenamedLanes(rat, dec, gs));
      && Balanced(m, y + us, TakeAll(f, us))
      && InRange(y + us, |m|)
      && NextRat(rat, dec, gs) == Fold(m, y + us)
  {
    var us := Ops(RenamedLanes(rat, dec, gs));
    assert RenamedLanes(rat, dec, gs)[..|dec|] == RenamedLanes(rat, dec, gs);
    FoldKeepsZero(m, y);
    GroupIsFresh(rat, dec, gs, f, |dec|);
    RenameAll(m, y, us, f);
    RatIsFold(rat, dec, gs, f, |dec|);
    FoldConcat(m, y, us);
  }

  // ------------------------------------------------------------ the step

  lemma StepKeepsRoom(s: State, inp: Input)
    requires Inv(s) && EnvOk(s, inp) && !Flush(s)
    ensures F.Inv(Next(s, inp).rob) && Roomy(Next(s, inp))
  {
    var ri := RobInput(s, inp);
    F.StepKeepsInv(s.rob, ri);
    F.NextCount(s.rob, ri);
    F.RetireWithinWindow(s.rob);
    NextRenameOps(s, inp);
    if RenameReady(s, inp) {
      assert R.Ready(s.rob, ri, 3);
      F.ReadyCredit(s.rob, ri, 3);
      assert R.LaneCount(Next(s, inp).ren) <= 4;
    }
  }

  lemma RetiredOnRecord(s: State, inp: Input, s': State)
    requires Inv(s) && EnvOk(s, inp) && !Flush(s) && s' == Next(s, inp)
    ensures RetireMisp(s') ==> s'.rob.brMisp
  {
    hide EnvOk, Inflight, Balanced, F.Inv;
    if RetireMisp(s') {
      var k :| 0 <= k < |s'.ret| && s'.ret[k].valid && s'.ret[k].misp;
      assert R.At(s.rob, k).valid && R.At(s.rob, k).misp;
    }
  }

  lemma EntryOnRecord(s: State, inp: Input, i: nat)
    requires Inv(s) && EnvOk(s, inp) && !Flush(s) && i < |s.rob.entry|
    ensures var e := R.NextEntry(s.rob, RobInput(s, inp), i);
      e.valid && e.misp ==> s.rob.brMisp || R.TakesMisp(s.rob, RobInput(s, inp))
  {
  }

  lemma StepKeepsRecord(s: State, inp: Input)
    requires Inv(s) && EnvOk(s, inp) && !Flush(s)
    ensures MispOnRecord(Next(s, inp))
  {
    RetiredOnRecord(s, inp, Next(s, inp));
    forall i | 0 <= i < |s.rob.entry|
      ensures var e := R.Next(s.rob, RobInput(s, inp)).entry[i];
        e.valid && e.misp ==> s.rob.brMisp || R.TakesMisp(s.rob, RobInput(s, inp))
    {
      EntryOnRecord(s, inp, i);
    }
  }

  // Any step that does not follow a flush: the ledger stays balanced.
  lemma OrdinaryStep(s: State, inp: Input)
    requires Inv(s) && EnvOk(s, inp) && Supplied(s, inp) && !s.recov && !Flush(s)
    ensures Inv(Next(s, inp))
  {
    StepKeepsRoom(s, inp);
    StepKeepsRecord(s, inp);
    InflightNext(s, inp);
    RenameBalances(s, inp);
  }

  lemma FlushEmptiesFlight(s: State, inp: Input)
    requires Inv(s) && EnvOk(s, inp) && Flush(s)
    ensures F.Inv(Next(s, inp).rob) && !Next(s, inp).rob.brMisp
    ensures Inflight(Next(s, inp)) == [] && Roomy(Next(s, inp)) && MispOnRecord(Next(s, inp))
  {
    hide Flush, RetOps, R.Wf;
    F.FlushEmpties(s.rob, RobInput(s, inp));
    NoLanesNoOps();
  }

  lemma FlushFindsLedger(s: State)
    requires Inv(s) && Flush(s)
    ensures !s.recov && InRange(RetOps(s.ret), |s.arch|)
    ensures NextArch(s.arch, s.ret) == Fold(s.arch, RetOps(s.ret))
    ensures MapOk(NextArch(s.arch, s.ret), |s.free|)
  {
    assert !s.recov by {
      NoLanesNoOps();
    }
    RetireBalances(s);
    BalancedMapOk(NextArch(s.arch, s.ret), Younger(s), Forwarded(s.free, s.ret));
  }

  // The cycle of the flush: the retire register still commits, everything
  // younger is dropped.
  lemma FlushStep(s: State, inp: Input)
    requires Inv(s) && EnvOk(s, inp) && Flush(s)
    ensures Inv(Next(s, inp)) && Next(s, inp).recov
    ensures InRange(RetOps(s.ret), |s.arch|)
    ensures Next(s, inp).arch == Fold(s.arch, RetOps(s.ret))
    ensures Inflight(Next(s, inp)) == []
  {
    FlushFindsLedger(s);
    FlushEmptiesFlight(s, inp);
  }

  // The recovery cycle: both tables are rebuilt from the committed map.
  lemma RecoveryStep(s: State, inp: Input)
    requires Inv(s) && EnvOk(s, inp) && s.recov
    ensures Inv(Next(s, inp)) && !Next(s, inp).recov
    ensures Next(s, inp).arch == s.arch && Next(s, inp).rat == s.arch
    ensures Inflight(Next(s, inp)) == []
  {
    var s' := Next(s, inp);
    NoLanesNoOps();
    assert !Flush(s);
    assert NextArch(s.arch, s.ret) == s.arch by {
      NextArchIsFold(s.arch, s.ret);
    }
    NothingDecoded(s, inp);
    StepKeepsRoom(s, inp);
    StepKeepsRecord(s, inp);
    InflightNext(s, inp);
    assert NewOps(s, inp) == [];
    RebuildBalances(s.arch, |s.free|);
  }

  lemma NothingDecoded(s: State, inp: Input)
    requires Inv(s) && EnvOk(s, inp) && s.recov
    ensures NewOps(s, inp) == []
  {
    if NewOps(s, inp) != [] {
      var u := SomeMember(NewOps(s, inp));
    }
  }

  lemma SomeMember(us: seq<R.Uop>) returns (u: R.Uop)
    requires us != []
    ensures u in us
  {
    u := us[0];
  }

  lemma StepKeepsInv(s: State, inp: Input)
    requires Inv(s) && EnvOk(s, inp) && Sized(s)
    ensures Inv(Next(s, inp)) && Sized(Next(s, inp))
  {
    if s.recov {
      RecoveryStep(s, inp);
    } else if Flush(s) {
      FlushStep(s, inp);
    } else {
      if RenameReady(s, inp) {
        NeverStarves(s, inp);
      }
      OrdinaryStep(s, inp);
    }
  }

  lemma ResetInv(d: nat, p: nat, a: nat)
    requires d >= 8 && d % 4 == 0 && p > 0 && a > 0
    ensures Inv(Reset(d, p, a)) && Inflight(Reset(d, p, a)) == []
  {
    NoLanesNoOps();
    var s := Reset(d, p, a);
    assert Inflight(s) == [];
    assert Held(s.arch, []) == s.arch;
  }
}
