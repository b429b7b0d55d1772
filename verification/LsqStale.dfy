/**
  One run of the queues, from reset, in which a load writes back stale data.
 */
module LsqStale {
  import opened Lsq
  import opened LsqQueue
  import opened LsqOrder
  import opened LsqFresh
  import opened LsqRuns
  import Select

  const QUIET := Input(false, [Other, Other, Other, Other], NoExec, [NoRet, NoRet, NoRet, NoRet], false, false, false, 0, true)

  // Two stores and a younger load are dispatched; the older store and the load
  // execute, to one word; the younger store executes in the cycle in which the
  // cache does not accept the load's request.
  function StaleInput(k: nat): Input {
    if k == 0 then QUIET.(lanes := [Store, Store, Load, Other])
    else if k == 1 then QUIET.(exec := ExecStore(0, 0, 2))
    else if k == 2 then QUIET.(exec := ExecLoad(0, 0, 2))
    else if k == 3 then QUIET.(exec := ExecStore(1, 0, 2))
    else QUIET
  }

  lemma FourLanes(l: seq<Op>)
    requires |l| == 4
    ensures Stores(l[..2]) == (if l[0].Store? then 1 else 0) + (if l[1].Store? then 1 else 0)
    ensures Stores(l) == Stores(l[..2]) + (if l[2].Store? then 1 else 0) + (if l[3].Store? then 1 else 0)
    ensures Loads(l[..2]) == (if l[0].Load? then 1 else 0) + (if l[1].Load? then 1 else 0)
    ensures Loads(l) == Loads(l[..2]) + (if l[2].Load? then 1 else 0) + (if l[3].Load? then 1 else 0)
    ensures Loads(l[..3]) == Loads(l[..2]) + (if l[2].Load? then 1 else 0)
  {
    assert l[..3][..2] == l[..2] && l[..2][..1] == l[..1] && l[..1][..0] == [];
    assert Stores(l[..1]) == (if l[0].Store? then 1 else 0);
    assert Loads(l[..1]) == (if l[0].Load? then 1 else 0);
    assert Stores(l[..3]) == Stores(l[..2]) + (if l[2].Store? then 1 else 0);
  }

  lemma NoRetirement(j: nat)
    ensures RetLoads(QUIET.ret) == 0 && RetStores(QUIET.ret) == 0
    ensures forall k | 0 <= k <= 4 :: RetLoads(QUIET.ret[..k]) == 0 && RetStores(QUIET.ret[..k]) == 0
    ensures forall k :: !RetiresStore(StaleInput(k), j) && !RetiresLoad(StaleInput(k), j)
  {
    var r := QUIET.ret;
    assert r[..4] == r && r[..3][..2] == r[..2] && r[..2][..1] == r[..1] && r[..1][..0] == [];
    assert RetLoads(r[..1]) == 0 && RetStores(r[..1]) == 0;
    assert RetLoads(r[..2]) == 0 && RetStores(r[..2]) == 0;
    assert RetLoads(r[..3]) == 0 && RetStores(r[..3]) == 0;
  }

  // What matters of the state after each of the first four edges.
  ghost predicate StoresAfter(stq: seq<St>, k: nat) {
    && |stq| == 8 && (forall j | 0 <= j < 8 :: !stq[j].retired)
    && stq[0] == St(true, 0, if k >= 2 then 2 else 0, k >= 2, k >= 2, false)
    && stq[1] == St(true, 0, if k >= 4 then 2 else 0, k >= 4, k >= 4, false)
  }

  ghost predicate LoadsAfter(ldq: seq<Ld>, k: nat) {
    && |ldq| == 8 && (forall i | 1 <= i < 8 :: !ldq[i].addrValid)
    && ldq[0] == Ld(true, 0, if k >= 3 then 2 else 0, k >= 3, false, false, false, false, false, 0, {0, 1}, 1)
  }

  ghost predicate After(s: State, k: nat) {
    && Wf(s) && StoresAfter(s.stq, k) && LoadsAfter(s.ldq, k)
    && s.fireLd.valid == (k >= 3) && (k >= 3 ==> s.fireLd == FireLd(true, 0, 0, 2, {0, 1}, 1))
    && s.fwd.valid == (k >= 4) && (k >= 4 ==> s.fwd.ldq == 0) && !s.fwd.sleep
    && !s.fireSt.valid
    && s.lHead == Ptr(0, false) && s.lTail == Ptr(1, false)
    && s.sHead == Ptr(0, false) && s.sTail == Ptr(2, false) && s.sRet == Ptr(0, false)
  }

  // The empty queues, as far as the first edge looks at them.
  ghost predicate EmptyQueues(s: State) {
    && Wf(s) && |s.ldq| == 8 && StqInv(s) && StCount(s) == 0
    && (forall i | 0 <= i < 8 :: s.ldq[i] == EMPTY_LD && s.stq[i] == EMPTY_ST)
    && !s.fireLd.valid && !s.fireSt.valid && !s.fwd.valid && !s.fwd.sleep
    && s.lHead == Ptr(0, false) && s.lTail == Ptr(0, false)
    && s.sHead == Ptr(0, false) && s.sTail == Ptr(0, false) && s.sRet == Ptr(0, false)
  }

  ghost predicate FirstGroup(inp: Input) {
    && !inp.flush && |inp.lanes| == 4 && inp.lanes[..2] == [Store, Store] && inp.lanes[2] == Load && inp.lanes[3] == Other
    && inp.exec == NoExec && inp.ret == QUIET.ret && !inp.dcValid
  }

  lemma FirstStores(s: State, inp: Input)
    requires EmptyQueues(s) && FirstGroup(inp)
    ensures StoresAfter(NextStq(s, inp), 1)
  {
    FourLanes(inp.lanes);
    forall j | 0 <= j < 8
      ensures !NextStq(s, inp)[j].retired
    {
      assert !RetiresStore(inp, j);
    }
  }

  lemma FirstLoadMask(s: State, inp: Input)
    requires EmptyQueues(s) && FirstGroup(inp)
    ensures Loads(inp.lanes) == 1 && LoadLane(inp.lanes, 0) == 2
    ensures LaneMask(s, inp.lanes, 2) == {0, 1}
    ensures LaneYoungest(s, inp.lanes, 2) == 1
  {
    FourLanes(inp.lanes);
    LaneMaskIs(s, inp.lanes, 2);
    LaneYoungestIs(s, inp.lanes, 2);
    assert FirstSlots(0, 2, 8) == {0, 1};
  }

  lemma FirstLoads(s: State, inp: Input)
    requires EmptyQueues(s) && FirstGroup(inp)
    ensures LoadsAfter(NextLdq(s, inp, false), 1)
  {
    FirstLoadMask(s, inp);
    assert !RetiresLoad(inp, 0);
  }

  lemma FirstRequests(s: State, inp: Input)
    requires EmptyQueues(s) && FirstGroup(inp)
    ensures !NextFireLd(s, inp, false).valid && !NextFireSt(s, inp).valid
    ensures !NextFwd(s, inp).valid && !NextFwd(s, inp).sleep
  {
    assert !Select.Any(Matches(s));
    var i := Select.Pick(false, Wakeups(s, inp), 0);
    assert s.ldq[i] == EMPTY_LD;
  }

  lemma FirstEdge(s: State, inp: Input)
    requires EmptyQueues(s) && FirstGroup(inp)
    ensures After(Next(s, inp, false), 1)
  {
    FirstStores(s, inp);
    FirstLoads(s, inp);
    FirstRequests(s, inp);
    FourLanes(inp.lanes);
    NoRetirement(0);
  }

  lemma OnlyOlderMatches(s: State)
    requires After(s, 3)
    ensures FwdIdx(s) == 0 && Select.Any(Matches(s)) && !Conflict(s)
  {
    assert Matches(s)[0];
    forall j | 0 <= j < 8
      ensures Matches(s)[j] ==> j == 0
    {
    }
    Select.YoungestIsLastInRing(Matches(s), 0, 2, 1);
  }

  lemma Forwarded(s: State, k: nat)
    requires 1 <= k <= 3 && After(s, k)
    ensures var f := NextFwd(s, StaleInput(k)); f.valid == (k == 3) && !f.sleep && (k == 3 ==> f.ldq == 0)
  {
    if k == 3 {
      OnlyOlderMatches(s);
    } else {
      assert !Select.Any(Matches(s));
    }
  }

  lemma Requested(s: State, k: nat)
    requires 1 <= k <= 3 && After(s, k)
    ensures var f := NextFireLd(s, StaleInput(k), false);
      f.valid == (k >= 2) && (k >= 2 ==> f == FireLd(true, 0, 0, 2, {0, 1}, 1))
  {
    if k >= 2 {
      assert Wakeups(s, StaleInput(k))[0];
      assert Select.Any(Wakeups(s, StaleInput(k)));
    }
  }

  lemma LaterStores(s: State, k: nat)
    requires 1 <= k <= 3 && After(s, k)
    ensures StoresAfter(NextStq(s, StaleInput(k)), k + 1)
  {
    FourLanes(QUIET.lanes);
    forall j | 0 <= j < 8
      ensures !NextStq(s, StaleInput(k))[j].retired
    {
      NoRetirement(j);
    }
  }

  lemma LaterLoads(s: State, k: nat)
    requires 1 <= k <= 3 && After(s, k)
    ensures LoadsAfter(NextLdq(s, StaleInput(k), false), k + 1)
  {
    FourLanes(QUIET.lanes);
    NoRetirement(0);
    var l, w := s.ldq[0], WireOf(s, StaleInput(k), false, 0);
    assert !w.alloc && !w.stFire && !w.viol && !w.sleep && !w.retire && !w.fwdData && !w.dcData && !w.accept && !w.wb;
  }

  lemma LaterEdge(s: State, k: nat)
    requires 1 <= k <= 3 && After(s, k)
    ensures After(Next(s, StaleInput(k), false), k + 1)
  {
    LaterStores(s, k);
    LaterLoads(s, k);
    Forwarded(s, k);
    Requested(s, k);
    FourLanes(QUIET.lanes);
    NoRetirement(0);
  }

  lemma ObligedAfter(s: State, k: nat)
    requires 1 <= k <= 4 && After(s, k)
    ensures Obliged(s, StaleInput(k))
  {
    NoRetirement(0);
    FourLanes(QUIET.lanes);
  }

  lemma ObligedAtReset(s: State, inp: Input)
    requires EmptyQueues(s) && FirstGroup(inp)
    ensures Obliged(s, inp)
  {
    NoRetirement(0);
  }

  lemma ResetIsEmpty(s: State, inp: Input)
    requires s == Reset(8) && inp == StaleInput(0)
    ensures EmptyQueues(s) && FirstGroup(inp)
  {
    ResetQueues(8);
  }

  lemma WritebackAfter(s: State)
    requires After(s, 4)
    ensures FwdAccept(s, 0) && WritesBack(s, StaleInput(4), false, 0)
  {
    assert WbRequests(s, StaleInput(4))[0];
    assert Select.Any(WbRequests(s, StaleInput(4)));
  }

  lemma OverlookedAfter(s: State)
    requires After(s, 3)
    ensures Overlooked(s, StaleInput(3))
  {
  }

  ghost predicate StaleAt(s: State, k: nat) {
    if k == 0 then s == Reset(8) else k <= 4 ==> After(s, k)
  }

  lemma StaleEdge(s: State, k: nat)
    requires k <= 4 && StaleAt(s, k)
    ensures Wf(s) && Obliged(s, StaleInput(k)) && StaleAt(Next(s, StaleInput(k), false), k + 1)
    ensures k == 3 ==> Overlooked(s, StaleInput(k))
  {
    if k == 0 {
      ResetIsEmpty(s, StaleInput(k));
      ObligedAtReset(s, StaleInput(k));
      FirstEdge(s, StaleInput(k));
    } else {
      ObligedAfter(s, k);
      if k < 4 {
        LaterEdge(s, k);
      }
      if k == 3 {
        OverlookedAfter(s);
      }
    }
  }

  lemma NoCredit(tr: seq<State>, ins: seq<Input>, k: nat)
    requires k <= 4 && |ins| == k && |tr| == k + 2
    ensures WfInput(StaleInput(k)) && Credit(tr, ins + [StaleInput(k)], k)
  {
    FourLanes(QUIET.lanes);
  }

  ghost predicate StaleSoFar(tr: seq<State>, ts: seq<Track>, ins: seq<Input>) {
    && |ins| <= 5 && Run(tr, ts, ins, false, 8)
    && (forall k | 0 <= k < |ins| :: ins[k] == StaleInput(k))
    && (forall k | 0 <= k <= |ins| :: StaleAt(tr[k], k))
    && (|ins| >= 4 ==> ts[4].missing)
  }

  lemma Grown(tr: seq<State>, ts: seq<Track>, ins: seq<Input>, s': State, t': Track)
    requires StaleSoFar(tr, ts, ins) && |ins| < 5
    requires Run(tr + [s'], ts + [t'], ins + [StaleInput(|ins|)], false, 8)
    requires StaleAt(s', |ins| + 1) && (|ins| == 3 ==> t'.missing)
    ensures StaleSoFar(tr + [s'], ts + [t'], ins + [StaleInput(|ins|)])
  {
  }

  lemma Grow(tr: seq<State>, ts: seq<Track>, ins: seq<Input>) returns (s': State, t': Track)
    requires StaleSoFar(tr, ts, ins) && |ins| < 5
    ensures StaleSoFar(tr + [s'], ts + [t'], ins + [StaleInput(|ins|)])
  {
    hide StaleAt;
    var k := |ins|;
    assert StaleAt(tr[k], k);
    StaleEdge(tr[k], k);
    NoCredit(tr + [tr[k]], ins, k);
    s', t' := ExtendRun(tr, ts, ins, false, 8, StaleInput(k));
    Grown(tr, ts, ins, s', t');
  }

  lemma {:induction false} StalePrefix(n: nat) returns (tr: seq<State>, ts: seq<Track>, ins: seq<Input>)
    requires n <= 5
    ensures |ins| == n && StaleSoFar(tr, ts, ins)
  {
    if n == 0 {
      tr, ts, ins := [Reset(8)], [StartTrack(8)], [];
    } else {
      var r, u, i := StalePrefix(n - 1);
      var s', t' := Grow(r, u, i);
      tr, ts, ins := r + [s'], u + [t'], i + [StaleInput(n - 1)];
    }
  }

  // The run is a run, and the load writes back what the older store left.
  lemma StaleRun() returns (tr: seq<State>, ts: seq<Track>, ins: seq<Input>)
    ensures Run(tr, ts, ins, false, 8) && |ins| == 5
    ensures Wf(tr[4]) && |tr[4].ldq| == 8 && WfTrack(ts[4], 8)
    ensures WritesBack(tr[4], ins[4], false, 0) && !FreshWriteback(tr[4], ts[4], 0)
  {
    tr, ts, ins := StalePrefix(5);
    assert StaleAt(tr[4], 4);
    WritebackAfter(tr[4]);
    WritebacksInRuns(tr, ts, ins, false, 8, 4, 0);
  }
}
