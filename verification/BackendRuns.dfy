/**
  Whole runs of the back end from reset: conservation in every state, and precise
  recovery against the log of committed instructions.
 */
module BackendRuns {
  import R = Rob
  import opened Rename
  import opened Ledger
  import F = RobFifo
  import opened Backend
  import opened Conservation

  // The states of the machine, edge by edge from reset, under inputs that
  // respect what the surroundings owe it.
  ghost predicate Steps(tr: seq<State>, ins: seq<Input>, d: nat, p: nat, a: nat) {
    && d >= 8 && d % 4 == 0 && a > 0 && p > 0
    && |tr| == |ins| + 1
    && tr[0] == Reset(d, p, a)
    && (forall t | 0 <= t < |ins| :: StepAt(tr, ins, t))
  }

  // A run: the register file has the size the header comment asks for.
  ghost predicate Run(tr: seq<State>, ins: seq<Input>, d: nat, p: nat, a: nat) {
    Steps(tr, ins, d, p, a) && p >= a + d + 4
  }

  ghost predicate StepAt(tr: seq<State>, ins: seq<Input>, t: nat)
    requires t < |ins| && |tr| == |ins| + 1
  {
    Wf(tr[t]) && EnvOk(tr[t], ins[t]) && tr[t + 1] == Next(tr[t], ins[t])
  }

  lemma {:induction false} RunKeepsInv(tr: seq<State>, ins: seq<Input>, d: nat, p: nat, a: nat, t: nat)
    requires Run(tr, ins, d, p, a) && t <= |ins|
    ensures Inv(tr[t]) && Sized(tr[t])
    ensures |tr[t].free| == p && |tr[t].arch| == a && |tr[t].rob.entry| == d
  {
    hide Inv, Next;
    if t == 0 {
      ResetInv(d, p, a);
    } else {
      RunKeepsInv(tr, ins, d, p, a, t - 1);
      assert StepAt(tr, ins, t - 1);
      StepKeepsInv(tr[t - 1], ins[t - 1]);
    }
  }

  // One step of a run, by its parts.
  lemma StepParts(tr: seq<State>, ins: seq<Input>, d: nat, p: nat, a: nat, t: nat, s: State, inp: Input, s': State)
    requires Run(tr, ins, d, p, a) && t < |ins| && s == tr[t] && inp == ins[t] && s' == tr[t + 1]
    ensures Inv(s) && Sized(s) && EnvOk(s, inp) && s' == Next(s, inp)
  {
    RunKeepsInv(tr, ins, d, p, a, t);
    assert StepAt(tr, ins, t);
  }

  // ---------------------------------------------------------- conservation

  // How many places hold register p: the free list, the committed map, the
  // instructions in flight.
  ghost function Holders(s: State, p: nat): nat
    requires Inv(s) && p < |s.free|
  {
    (if s.free[p] then 1 else 0) + multiset(s.arch)[p] + multiset(Prns(Inflight(s)))[p]
  }

  lemma {:induction false} NoDupCount(h: seq<nat>, p: nat)
    requires NoDup(h) && p != 0
    ensures multiset(h)[p] == if p in h then 1 else 0
  {
    if h != [] {
      assert h == [h[0]] + h[1..];
      assert forall i, j | 0 <= i < j < |h[1..]| :: h[1..][i] == h[i + 1] && h[1..][j] == h[j + 1];
      NoDupCount(h[1..], p);
    }
  }

  // In every reachable state outside recovery each nonzero physical register
  // is in exactly one place, and register 0 is never free.
  lemma RegistersConserved(tr: seq<State>, ins: seq<Input>, d: nat, p: nat, a: nat, t: nat)
    requires Run(tr, ins, d, p, a) && t <= |ins| && !tr[t].recov
    ensures Inv(tr[t]) && |tr[t].free| == p
    ensures forall q | 0 < q < p :: Holders(tr[t], q) == 1
    ensures !tr[t].free[0]
  {
    RunKeepsInv(tr, ins, d, p, a, t);
    var s := tr[t];
    forall q | 0 < q < p
      ensures Holders(s, q) == 1
    {
      var h := Held(s.arch, Inflight(s));
      NoDupCount(h, q);
      assert multiset(h) == multiset(s.arch) + multiset(Prns(Inflight(s)));
    }
  }

  // Rename never starves: an accepted group always finds four distinct free
  // registers, none of them register 0.
  lemma AcceptedGroupsAreGranted(tr: seq<State>, ins: seq<Input>, d: nat, p: nat, a: nat, t: nat)
    requires Run(tr, ins, d, p, a) && t < |ins| && !tr[t].recov
    requires StepAt(tr, ins, t) && RenameReady(tr[t], ins[t])
    ensures Granted(Grants(tr[t]), Forwarded(tr[t].free, tr[t].ret))
  {
    RunKeepsInv(tr, ins, d, p, a, t);
    NeverStarves(tr[t], ins[t]);
  }

  lemma RetiringMispOnRecord(s: State, k: nat)
    requires Wf(s) && MispOnRecord(s) && k < 4 && R.RetirePkt(s.rob)[k].valid && R.RetirePkt(s.rob)[k].misp
    ensures s.rob.brMisp
  {
    assert R.At(s.rob, k).valid && R.At(s.rob, k).misp;
  }

  // The packet registers of the next state.
  lemma NextPackets(s: State, inp: Input)
    requires Wf(s) && WfInput(inp) && GroupOk(s, inp)
    ensures Next(s, inp).ret == if Flush(s) then NO_RETIRES else R.RetirePkt(s.rob)
    ensures !RenameReady(s, inp) ==> Next(s, inp).ren == NO_LANES
  {
  }

  lemma HeldMispStopsRename(s: State, inp: Input)
    requires Wf(s) && WfInput(inp) && s.rob.brMisp
    ensures !RenameReady(s, inp)
  {
    assert !R.Ready(s.rob, RobInput(s, inp), 0);
  }

  lemma MispStopsRename(s: State, inp: Input, s': State)
    requires Inv(s) && EnvOk(s, inp) && s' == Next(s, inp) && |s'.ret| == 4 && RetireMisp(s')
    ensures s'.ren == NO_LANES
  {
    hide Next, Flush, RenameReady, R.RetirePkt, Balanced, Inflight;
    NextPackets(s, inp);
    var k :| 0 <= k < 4 && s'.ret[k].valid && s'.ret[k].misp;
    RetiringMispOnRecord(s, k);
    HeldMispStopsRename(s, inp);
  }

  // In the cycle of a misprediction's flush no group waits to be dispatched.
  lemma MispFlushFindsNoGroup(tr: seq<State>, ins: seq<Input>, d: nat, p: nat, a: nat, t: nat, s: State)
    requires Run(tr, ins, d, p, a) && t <= |ins| && s == tr[t] && |s.ret| == 4 && RetireMisp(s)
    ensures s.ren == NO_LANES
  {
    hide Next, Wf;
    if t == 0 {
      assert s.ren == NO_LANES;
    } else {
      RunKeepsInv(tr, ins, d, p, a, t - 1);
      assert StepAt(tr, ins, t - 1);
      MispStopsRename(tr[t - 1], ins[t - 1], s);
    }
  }

  lemma ExceptionStopsRename(s: State, inp: Input)
    requires Wf(s) && WfInput(inp) && GroupOk(s, inp) && (s.sysExc || RetireException(s))
    ensures Next(s, inp).sysExc && Next(s, inp).ren == NO_LANES
  {
  }

  // A group dispatched in the cycle of a flush is the last one for good: the
  // flush is an exception's, and that stops renaming.
  lemma {:induction false} GroupInFlushIsLast(tr: seq<State>, ins: seq<Input>, d: nat, p: nat, a: nat, t: nat, u: nat)
    requires Run(tr, ins, d, p, a) && t < u <= |ins| && Flush(tr[t]) && tr[t].ren != NO_LANES
    ensures tr[u].sysExc && tr[u].ren == NO_LANES
  {
    assert StepAt(tr, ins, u - 1);
    if u == t + 1 {
      if RetireMisp(tr[t]) {
        MispFlushFindsNoGroup(tr, ins, d, p, a, t, tr[t]);
      }
    } else {
      GroupInFlushIsLast(tr, ins, d, p, a, t, u - 1);
    }
    ExceptionStopsRename(tr[u - 1], ins[u - 1]);
  }

  // ------------------------------------------------------ precise recovery

  // Everything that passed the retire register before edge t, oldest first.
  function Committed(tr: seq<State>, t: nat): (us: seq<R.Uop>)
    requires t <= |tr|
  {
    if t == 0 then [] else Committed(tr, t - 1) + RetOps(tr[t - 1].ret)
  }

  // The instruction stream the machine stands for: committed, then in flight.
  ghost function Program(tr: seq<State>, t: nat): (us: seq<R.Uop>)
    requires t < |tr| && Inv(tr[t])
  {
    Committed(tr, t) + Inflight(tr[t])
  }

  function Zeros(a: nat): (m: seq<nat>)
    ensures |m| == a
  {
    seq(a, i => 0)
  }

  // The committed map is the fold of the log, in every state.
  lemma {:induction false} ArchIsLogFold(tr: seq<State>, ins: seq<Input>, d: nat, p: nat, a: nat, t: nat)
    requires Run(tr, ins, d, p, a) && t <= |ins|
    ensures InRange(Committed(tr, t), a)
    ensures tr[t].arch == Fold(Zeros(a), Committed(tr, t))
  {
    if t > 0 {
      ArchIsLogFold(tr, ins, d, p, a, t - 1);
      RunKeepsInv(tr, ins, d, p, a, t - 1);
      assert StepAt(tr, ins, t - 1);
      ArchStep(tr[t - 1], ins[t - 1]);
      FoldConcat(Zeros(a), Committed(tr, t - 1), RetOps(tr[t - 1].ret));
    }
  }

  lemma ArchStep(s: State, inp: Input)
    requires Inv(s) && EnvOk(s, inp)
    ensures InRange(RetOps(s.ret), |s.arch|)
    ensures Next(s, inp).arch == Fold(s.arch, RetOps(s.ret))
  {
    if s.recov {
      NoLanesNoOps();
      NextArchIsFold(s.arch, s.ret);
    } else {
      RetireBalances(s);
    }
  }

  // The retire register: valid lanes are a prefix and only its last one may
  // call for a flush.
  ghost predicate RetShape(ret: seq<R.Retire>) {
    && |ret| == 4
    && (forall j, k | 0 <= j < k < 4 && ret[k].valid :: ret[j].valid && !Flags(ret[j]))
  }

  predicate Flags(l: R.Retire) {
    l.misp || l.op.exc != R.NO_ERROR
  }

  lemma RetirePktShape(s: R.State)
    requires F.Inv(s)
    ensures RetShape(R.RetirePkt(s))
  {
    hide Inv, R.RetireEn;
    forall j, k | 0 <= j < k < 4 && R.RetireEn(s, k)
      ensures R.RetireEn(s, j) && !R.FlushEn(s, j)
    {
      F.RetireChain(s, j, k);
    }
  }

  lemma RetShapeNext(s: State, inp: Input)
    requires Inv(s) && EnvOk(s, inp)
    ensures RetShape(Next(s, inp).ret)
  {
    hide EnvOk, Inflight, Roomy;
    RetirePktShape(s.rob);
  }

  lemma RunKeepsShape(tr: seq<State>, ins: seq<Input>, d: nat, p: nat, a: nat, t: nat)
    requires Run(tr, ins, d, p, a) && t <= |ins|
    ensures RetShape(tr[t].ret)
  {
    hide EnvOk, Next;
    if t > 0 {
      RunKeepsInv(tr, ins, d, p, a, t - 1);
      assert StepAt(tr, ins, t - 1);
      RetShapeNext(tr[t - 1], ins[t - 1]);
    }
  }

  // Between flushes the stream only grows at the young end.
  lemma ProgramGrows(tr: seq<State>, ins: seq<Input>, d: nat, p: nat, a: nat, t: nat)
    requires Run(tr, ins, d, p, a) && t < |ins| && !Flush(tr[t])
    ensures Inv(tr[t]) && Inv(tr[t + 1]) && EnvOk(tr[t], ins[t])
    ensures Program(tr, t + 1) == Program(tr, t) + NewOps(tr[t], ins[t])
  {
    RunKeepsInv(tr, ins, d, p, a, t);
    RunKeepsInv(tr, ins, d, p, a, t + 1);
    assert StepAt(tr, ins, t);
    InflightNext(tr[t], ins[t]);
    Regrouped(Committed(tr, t), RetOps(tr[t].ret), Younger(tr[t]), NewOps(tr[t], ins[t]));
  }

  lemma Regrouped(c: seq<R.Uop>, r: seq<R.Uop>, y: seq<R.Uop>, n: seq<R.Uop>)
    ensures (c + r) + (y + n) == (c + (r + y)) + n
  {
  }

  // The position in the stream just behind the flushing instruction.
  ghost function Cut(tr: seq<State>, t: nat): nat
    requires t < |tr|
  {
    |Committed(tr, t)| + |RetOps(tr[t].ret)|
  }

  lemma {:induction false} RetOpsOfPrefix(ret: seq<R.Retire>, n: nat)
    requires n <= |ret| && forall k | 0 <= k < |ret| :: ret[k].valid <==> k < n
    ensures |RetOps(ret)| == n && forall k | 0 <= k < n :: RetOps(ret)[k] == ret[k].op
  {
    if ret != [] {
      var m := |ret| - 1;
      RetOpsOfPrefix(ret[..m], if n <= m then n else m);
    }
  }

  // Precise recovery. When the flush is raised at edge t, the instruction that
  // raised it is the last one kept, none of the kept ones before it in the
  // retire register asked for a flush, and at the two following edges the
  // stream is exactly the part up to it: the committed map in the recovery
  // cycle, and then both maps and the free list, are those of that prefix.
  lemma PreciseRecovery(tr: seq<State>, ins: seq<Input>, d: nat, p: nat, a: nat, t: nat)
    requires Run(tr, ins, d, p, a) && t + 2 <= |ins| && Flush(tr[t])
    ensures Inv(tr[t]) && Inv(tr[t + 1]) && Inv(tr[t + 2])
    ensures 0 < |RetOps(tr[t].ret)| <= 4 && Cut(tr, t) <= |Program(tr, t)|
    ensures var n := |RetOps(tr[t].ret)|;
      && (forall k | 0 <= k < n :: tr[t].ret[k].valid && Program(tr, t)[|Committed(tr, t)| + k] == tr[t].ret[k].op)
      && (forall k | 0 <= k < n :: Flags(tr[t].ret[k]) <==> k == n - 1)
    ensures var kept := Program(tr, t)[..Cut(tr, t)];
      && InRange(kept, a)
      && tr[t + 1].recov && Program(tr, t + 1) == kept && tr[t + 1].arch == Fold(Zeros(a), kept)
      && !tr[t + 2].recov && Program(tr, t + 2) == kept && tr[t + 2].arch == Fold(Zeros(a), kept)
      && tr[t + 2].rat == tr[t + 2].arch
      && tr[t + 2].free == Rebuild(Fold(Zeros(a), kept), p)
  {
    hide Flush, Inv, Flags, RetOps, Inflight, Zeros, Fold;
    RunKeepsInv(tr, ins, d, p, a, t);
    RunKeepsInv(tr, ins, d, p, a, t + 1);
    RunKeepsInv(tr, ins, d, p, a, t + 2);
    assert StepAt(tr, ins, t) && StepAt(tr, ins, t + 1);
    FlushStep(tr[t], ins[t]);
    RecoveryStep(tr[t + 1], ins[t + 1]);
    NoLanesNoOps();
    FlushingLane(tr, ins, d, p, a, t);
    ArchIsLogFold(tr, ins, d, p, a, t + 1);
    ArchIsLogFold(tr, ins, d, p, a, t + 2);
    assert Committed(tr, t + 2) == Committed(tr, t + 1) + [];
    KeptIsCommitted(tr, t);
  }

  lemma KeptIsCommitted(tr: seq<State>, t: nat)
    requires t + 1 < |tr| && Inv(tr[t])
    ensures Cut(tr, t) <= |Program(tr, t)|
    ensures Program(tr, t)[..Cut(tr, t)] == Committed(tr, t + 1)
    ensures forall k | 0 <= k < |RetOps(tr[t].ret)| :: Program(tr, t)[|Committed(tr, t)| + k] == RetOps(tr[t].ret)[k]
  {
  }

  lemma FlushingLane(tr: seq<State>, ins: seq<Input>, d: nat, p: nat, a: nat, t: nat)
    requires Run(tr, ins, d, p, a) && t <= |ins| && Flush(tr[t])
    ensures |tr[t].ret| == 4
    ensures var n := |RetOps(tr[t].ret)|;
      && 0 < n <= 4
      && (forall k | 0 <= k < n :: tr[t].ret[k].valid && RetOps(tr[t].ret)[k] == tr[t].ret[k].op)
      && (forall k | 0 <= k < n :: Flags(tr[t].ret[k]) <==> k == n - 1)
  {
    RunKeepsShape(tr, ins, d, p, a, t);
    var ret := tr[t].ret;
    var k :| 0 <= k < 4 && ret[k].valid && Flags(ret[k]);
    assert forall j | 0 <= j < 4 :: ret[j].valid <==> j < k + 1;
    RetOpsOfPrefix(ret, k + 1);
  }
}
