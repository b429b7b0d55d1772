/**
  Whole runs of the load and store queues, from reset, under any behaviour of the
  core that meets its obligations: what holds in every reachable state.
 */
module LsqRuns {
  import opened Lsq
  import opened LsqQueue
  import opened LsqSafety
  import opened LsqOrder
  import opened LsqFresh

  // A group enters only after a cycle in which the ready wire was high; the
  // empty queues need no such credit.
  ghost predicate Credit(tr: seq<State>, ins: seq<Input>, t: nat)
    requires t < |ins| && |tr| == |ins| + 1 && WfInput(ins[t])
  {
    Loads(ins[t].lanes) + Stores(ins[t].lanes) > 0 && t > 0 ==>
      Wf(tr[t - 1]) && WfInput(ins[t - 1]) && Ready(tr[t - 1], ins[t - 1])
  }

  ghost predicate StepAt(tr: seq<State>, ts: seq<Track>, ins: seq<Input>, oldestFirst: bool, t: nat)
    requires t < |ins| && |tr| == |ins| + 1 && |ts| == |ins| + 1
  {
    && Wf(tr[t]) && Obliged(tr[t], ins[t]) && Credit(tr, ins, t)
    && tr[t + 1] == Next(tr[t], ins[t], oldestFirst)
    && WfTrack(ts[t], |tr[t].ldq|) && TrackStep(tr[t], ins[t], ts[t], ts[t + 1])
  }

  ghost predicate Run(tr: seq<State>, ts: seq<Track>, ins: seq<Input>, oldestFirst: bool, d: nat) {
    && d >= 8 && d % 2 == 0
    && |tr| == |ins| + 1 && |ts| == |ins| + 1
    && tr[0] == Reset(d) && ts[0] == StartTrack(d)
    && (forall t | 0 <= t < |ins| :: StepAt(tr, ts, ins, oldestFirst, t))
  }

  lemma {:induction false} RunKeepsInv(tr: seq<State>, ts: seq<Track>, ins: seq<Input>, oldestFirst: bool, d: nat, t: nat)
    requires Run(tr, ts, ins, oldestFirst, d) && t <= |ins|
    ensures Inv(tr[t], ts[t]) && |tr[t].ldq| == d
    ensures t < |ins| ==> EnvOk(tr[t], ins[t])
  {
    hide Loads, Next, Wf;
    if t == 0 {
      ResetInv(d);
      ResetQueues(d);
      assert t < |ins| ==> StepAt(tr, ts, ins, oldestFirst, t);
    } else {
      RunKeepsInv(tr, ts, ins, oldestFirst, d, t - 1);
      assert StepAt(tr, ts, ins, oldestFirst, t - 1);
      InvStep(tr[t - 1], ins[t - 1], oldestFirst, ts[t - 1], ts[t]);
      if t < |ins| {
        assert StepAt(tr, ts, ins, oldestFirst, t);
        if Loads(ins[t].lanes) + Stores(ins[t].lanes) > 0 {
          ReadyCredit(tr[t - 1], ins[t - 1], oldestFirst);
        }
      }
    }
  }

  // The assertions on retirement hold in every run.
  lemma NoMarkedLoadRetires(tr: seq<State>, ts: seq<Track>, ins: seq<Input>, oldestFirst: bool, d: nat, t: nat, i: nat)
    requires Run(tr, ts, ins, oldestFirst, d) && t < |ins| && i < d && RetiresLoad(ins[t], i)
    ensures |tr[t].ldq| == d && !tr[t].ldq[i].orderFail && tr[t].ldq[i].dataValid
  {
    RunKeepsInv(tr, ts, ins, oldestFirst, d, t);
    RetiringIsClean(tr[t], ins[t], oldestFirst, i);
  }

  // In every reachable state a live load's mask is the set of unfired stores
  // dispatched before it.
  lemma MasksInRuns(tr: seq<State>, ts: seq<Track>, ins: seq<Input>, oldestFirst: bool, d: nat, t: nat, i: nat)
    requires Run(tr, ts, ins, oldestFirst, d) && t <= |ins| && i < d
    ensures |tr[t].ldq| == d && Wf(tr[t]) && |ts[t].hi| == d
    ensures tr[t].ldq[i].valid ==> forall j: nat ::
      j in tr[t].ldq[i].mask <==> j < d && tr[t].stq[j].valid && Number(tr[t], ts[t].base, j) < ts[t].hi[i]
  {
    RunKeepsInv(tr, ts, ins, oldestFirst, d, t);
    MasksAreLive(tr[t], ts[t].base, ts[t].hi);
    if tr[t].ldq[i].valid {
      forall j: nat | j < d
        ensures j in tr[t].ldq[i].mask <==> tr[t].stq[j].valid && Number(tr[t], ts[t].base, j) < ts[t].hi[i]
      {
        MaskIsOlderStores(tr[t], ts[t].base, ts[t].hi, i, j);
      }
    }
  }

  // In every reachable state a sleeping entry names a store that has not fired.
  lemma SleepersInRuns(tr: seq<State>, ts: seq<Track>, ins: seq<Input>, oldestFirst: bool, d: nat, t: nat, i: nat)
    requires Run(tr, ts, ins, oldestFirst, d) && t <= |ins| && i < d
    ensures |tr[t].ldq| == d && |tr[t].stq| == d
    ensures tr[t].ldq[i].sleep ==> tr[t].ldq[i].fwdStq < d && tr[t].stq[tr[t].ldq[i].fwdStq].valid
  {
    RunKeepsInv(tr, ts, ins, oldestFirst, d, t);
    var s, l := tr[t], tr[t].ldq[i];
    if l.sleep {
      assert SleepOk(l, s.sHead.idx, StCount(s), |s.stq|);
      assert StoreOk(s.stq[l.fwdStq], StOff(s, l.fwdStq), RetCount(s), StCount(s));
    }
  }

  // Data that a load writes back took into account every older store to its
  // word, unfired at its dispatch, that matters.
  ghost predicate FreshWriteback(s: State, t: Track, i: nat)
    requires i < |s.ldq| && WfTrack(t, |s.ldq|)
  {
    forall n: nat | t.lo[i] <= n < t.hi[i] ::
      && n in t.known
      && (t.known[n].word == Word(s.ldq[i].addr) ==> t.known[n].time < Chosen(s, t, i))
  }

  lemma WritebacksInRuns(tr: seq<State>, ts: seq<Track>, ins: seq<Input>, oldestFirst: bool, d: nat, t: nat, i: nat)
    requires Run(tr, ts, ins, oldestFirst, d) && t < |ins| && i < d
    requires Wf(tr[t]) && |tr[t].ldq| == d && WritesBack(tr[t], ins[t], oldestFirst, i)
    ensures WfTrack(ts[t], d)
    ensures FreshWriteback(tr[t], ts[t], i) <==> !Stale(tr[t], ts[t], i)
  {
    RunKeepsInv(tr, ts, ins, oldestFirst, d, t);
    WritebackFreshIff(tr[t], ins[t], oldestFirst, ts[t], i);
  }

  // ------------------------------------------------------- when none is stale

  ghost predicate NothingMissed(t: Track) {
    !t.missing && forall i | 0 <= i < |t.missed| :: !t.missed[i]
  }

  lemma {:induction false} NothingMissedInRuns(tr: seq<State>, ts: seq<Track>, ins: seq<Input>, oldestFirst: bool, d: nat, t: nat)
    requires Run(tr, ts, ins, oldestFirst, d) && t <= |ins|
    requires forall u | 0 <= u < t :: Wf(tr[u]) && !Overlooked(tr[u], ins[u])
    ensures NothingMissed(ts[t])
  {
    if t > 0 {
      NothingMissedInRuns(tr, ts, ins, oldestFirst, d, t - 1);
      assert StepAt(tr, ts, ins, oldestFirst, t - 1);
    }
  }

  // While the data cache accepts the pending load request in every cycle in
  // which a store executes, no load ever writes back stale data.
  lemma PromptCacheIsFresh(tr: seq<State>, ts: seq<Track>, ins: seq<Input>, oldestFirst: bool, d: nat, t: nat, i: nat)
    requires Run(tr, ts, ins, oldestFirst, d) && t < |ins| && i < d
    requires forall u | 0 <= u < t :: tr[u].fireLd.valid && ins[u].exec.ExecStore? ==> ins[u].ldReady
    requires Wf(tr[t]) && |tr[t].ldq| == d && WritesBack(tr[t], ins[t], oldestFirst, i)
    ensures WfTrack(ts[t], d) && FreshWriteback(tr[t], ts[t], i)
  {
    forall u | 0 <= u < t
      ensures Wf(tr[u]) && !Overlooked(tr[u], ins[u])
    {
      assert StepAt(tr, ts, ins, oldestFirst, u);
    }
    NothingMissedInRuns(tr, ts, ins, oldestFirst, d, t);
    WritebacksInRuns(tr, ts, ins, oldestFirst, d, t, i);
  }

  lemma StepsStay(tr: seq<State>, ts: seq<Track>, ins: seq<Input>, oldestFirst: bool, t: nat, s': State, t': Track, inp: Input)
    requires |tr| == |ins| + 1 && |ts| == |ins| + 1 && t < |ins| && StepAt(tr, ts, ins, oldestFirst, t)
    ensures StepAt(tr + [s'], ts + [t'], ins + [inp], oldestFirst, t)
  {
  }

  // A run goes on with any further step that meets the obligations.
  lemma ExtendRun(tr: seq<State>, ts: seq<Track>, ins: seq<Input>, oldestFirst: bool, d: nat, inp: Input)
      returns (s': State, t': Track)
    requires Run(tr, ts, ins, oldestFirst, d) && Wf(tr[|ins|]) && Obliged(tr[|ins|], inp)
    requires Credit(tr + [tr[|ins|]], ins + [inp], |ins|)
    ensures s' == Next(tr[|ins|], inp, oldestFirst)
    ensures WfTrack(ts[|ins|], |tr[|ins|].ldq|) && TrackStep(tr[|ins|], inp, ts[|ins|], t')
    ensures Run(tr + [s'], ts + [t'], ins + [inp], oldestFirst, d)
  {
    var n := |ins|;
    RunKeepsInv(tr, ts, ins, oldestFirst, d, n);
    s', t' := Next(tr[n], inp, oldestFirst), NextTrack(tr[n], inp, ts[n]);
    forall t | 0 <= t <= n
      ensures StepAt(tr + [s'], ts + [t'], ins + [inp], oldestFirst, t)
    {
      if t < n {
        StepsStay(tr, ts, ins, oldestFirst, t, s', t', inp);
      }
    }
  }
}
