/**
  The redirect target over whole runs of the back end: fetch restarts where the
  retiring branch itself was found to go.
 */
module BackendRedirect {
  import R = Rob
  import F = RobFifo
  import O = RobOrder
  import opened Backend
  import opened Conservation
  import opened BackendRuns

  // The bookkeeping of RobOrder beside a run.
  ghost predicate Ordered(tr: seq<State>, ins: seq<Input>, os: seq<O.Order>)
    requires |tr| == |ins| + 1
  {
    && |os| == |tr|
    && os[0] == O.Order(0, map[], 0)
    && (forall t | 0 <= t < |ins| :: OrderStep(tr, ins, os, t))
  }

  // Here the branch unit also keeps its side: it reports live branches, once.
  ghost predicate OrderStep(tr: seq<State>, ins: seq<Input>, os: seq<O.Order>, t: nat)
    requires t < |ins| && |tr| == |ins| + 1 && |os| == |tr|
  {
    && Wf(tr[t]) && WfInput(ins[t])
    && (O.SeqInv(tr[t].rob, os[t].base) ==>
          && O.ReportsLive(tr[t].rob, RobInput(tr[t], ins[t]), os[t].base)
          && os[t + 1] == O.NextOrder(tr[t].rob, RobInput(tr[t], ins[t]), os[t]))
  }

  ghost predicate OrderInv(s: State, o: O.Order)
    requires Wf(s)
  {
    O.MispInv(s.rob, o) && (O.Draining(s.rob, o) ==> Flush(s))
  }

  lemma OrderInvStep(s: State, inp: Input, o: O.Order, s': State, o': O.Order)
    requires Inv(s) && EnvOk(s, inp) && OrderInv(s, o)
    requires O.ReportsLive(s.rob, RobInput(s, inp), o.base)
    requires s' == Next(s, inp) && o' == O.NextOrder(s.rob, RobInput(s, inp), o)
    ensures OrderInv(s', o')
  {
    var ri := RobInput(s, inp);
    if Flush(s) {
      F.FlushEmpties(s.rob, ri);
      ResetOrder(s.rob, ri);
    } else {
      O.StepKeepsMisp(s.rob, ri, o);
      if O.Draining(R.Next(s.rob, ri), O.NextOrder(s.rob, ri, o)) {
        var k := O.DrainingRetires(s.rob, ri, o);
        assert Next(s, inp).ret[k].valid && Next(s, inp).ret[k].misp;
      }
    }
  }

  lemma ResetOrder(s: R.State, ri: R.Input)
    requires R.Wf(s) && R.WfInput(ri) && ri.flush
    ensures O.MispInv(R.Next(s, ri), O.Order(0, map[], 0))
  {
    F.FlushEmpties(s, ri);
  }

  lemma OrderParts(tr: seq<State>, ins: seq<Input>, os: seq<O.Order>, t: nat, s: State, inp: Input, o: O.Order, o': O.Order)
    requires |tr| == |ins| + 1 && Ordered(tr, ins, os) && t < |ins|
    requires s == tr[t] && inp == ins[t] && o == os[t] && o' == os[t + 1]
    requires Wf(s) && WfInput(inp) && O.SeqInv(s.rob, o.base)
    ensures O.ReportsLive(s.rob, RobInput(s, inp), o.base) && o' == O.NextOrder(s.rob, RobInput(s, inp), o)
  {
    assert OrderStep(tr, ins, os, t);
  }

  lemma OrderInRun(tr: seq<State>, ins: seq<Input>, os: seq<O.Order>, d: nat, p: nat, a: nat, t: nat,
                   s: State, inp: Input, s': State, o: O.Order, o': O.Order)
    requires Run(tr, ins, d, p, a) && Ordered(tr, ins, os) && t < |ins|
    requires s == tr[t] && inp == ins[t] && s' == tr[t + 1] && o == os[t] && o' == os[t + 1]
    requires Wf(s) && OrderInv(s, o)
    ensures Wf(s') && OrderInv(s', o')
  {
    StepParts(tr, ins, d, p, a, t, s, inp, s');
    OrderParts(tr, ins, os, t, s, inp, o, o');
    OrderInvStep(s, inp, o, s', o');
  }

  lemma {:induction false} OrderAlongRun(tr: seq<State>, ins: seq<Input>, os: seq<O.Order>, d: nat, p: nat, a: nat, t: nat)
    requires Run(tr, ins, d, p, a) && Ordered(tr, ins, os) && t <= |ins|
    ensures Wf(tr[t]) && OrderInv(tr[t], os[t])
  {
    if t == 0 {
      ResetOrdered(d, p, a);
    } else {
      OrderAlongRun(tr, ins, os, d, p, a, t - 1);
      OrderInRun(tr, ins, os, d, p, a, t - 1, tr[t - 1], ins[t - 1], tr[t], os[t - 1], os[t]);
    }
  }

  lemma RunKeepsOrder(tr: seq<State>, ins: seq<Input>, os: seq<O.Order>, d: nat, p: nat, a: nat, t: nat)
    requires Run(tr, ins, d, p, a) && Ordered(tr, ins, os) && t <= |ins|
    ensures Inv(tr[t]) && OrderInv(tr[t], os[t])
  {
    RunKeepsInv(tr, ins, d, p, a, t);
    OrderAlongRun(tr, ins, os, d, p, a, t);
  }

  lemma ResetOrdered(d: nat, p: nat, a: nat)
    requires d >= 8 && d % 4 == 0 && p > 0 && a > 0
    ensures OrderInv(Reset(d, p, a), O.Order(0, map[], 0))
  {
    ResetInv(d, p, a);
  }

  // retire_redirect_pc: the first lane with a misprediction.
  function RedirectPc(ret: seq<R.Retire>): nat {
    if ret == [] then 0
    else if ret[0].valid && ret[0].misp then ret[0].redirect
    else RedirectPc(ret[1..])
  }

  lemma {:induction false} RedirectPcAt(ret: seq<R.Retire>, k: nat)
    requires k < |ret| && ret[k].valid && ret[k].misp
    requires forall j | 0 <= j < k :: !(ret[j].valid && ret[j].misp)
    ensures RedirectPc(ret) == ret[k].redirect
  {
    if k > 0 {
      RedirectPcAt(ret[1..], k - 1);
    }
  }

  // A valid lane of the retire register came from that lane of the buffer.
  lemma LaneFromBuffer(s: State, inp: Input, k: nat)
    requires Inv(s) && EnvOk(s, inp) && k < 4 && Next(s, inp).ret[k].valid
    ensures !Flush(s) && Next(s, inp).ret[k] == R.RetirePkt(s.rob)[k] && k < R.RetireCount(s.rob)
  {
    hide EnvOk, Flush, R.RetireCount, Inflight;
    F.RetireWithinWindow(s.rob);
  }

  // No held misprediction is draining while a branch retires with one.
  lemma OwnTarget(s: State, o: O.Order, k: nat)
    requires Inv(s) && OrderInv(s, o) && !Flush(s)
    requires k < R.RetireCount(s.rob) && R.RetirePkt(s.rob)[k].misp
    ensures o.base + k in o.target && R.RetirePkt(s.rob)[k].redirect == o.target[o.base + k]
  {
    O.RedirectIsOwnTarget(s.rob, o, k);
  }

  lemma OneStepTarget(s: State, inp: Input, o: O.Order, k: nat, ret: seq<R.Retire>)
    requires Inv(s) && EnvOk(s, inp) && OrderInv(s, o) && ret == Next(s, inp).ret && RetShape(ret)
    requires k < 4 && ret[k].valid && ret[k].misp
    ensures o.base + k in o.target && RedirectPc(ret) == o.target[o.base + k]
  {
    LaneFromBuffer(s, inp, k);
    OwnTarget(s, o, k);
    assert forall j | 0 <= j < k :: !Flags(ret[j]);
    RedirectPcAt(ret, k);
  }

  lemma StepFacts(tr: seq<State>, ins: seq<Input>, os: seq<O.Order>, d: nat, p: nat, a: nat, t: nat,
                  s: State, inp: Input, o: O.Order, ret: seq<R.Retire>)
    requires Run(tr, ins, d, p, a) && Ordered(tr, ins, os) && t < |ins|
    requires s == tr[t] && inp == ins[t] && o == os[t] && ret == tr[t + 1].ret
    ensures Inv(s) && EnvOk(s, inp) && OrderInv(s, o) && ret == Next(s, inp).ret && RetShape(ret)
  {
    RunKeepsOrder(tr, ins, os, d, p, a, t);
    RunKeepsShape(tr, ins, d, p, a, t + 1);
    assert StepAt(tr, ins, t);
  }

  lemma TargetInRun(tr: seq<State>, ins: seq<Input>, os: seq<O.Order>, d: nat, p: nat, a: nat, t: nat,
                    s: State, inp: Input, o: O.Order, ret: seq<R.Retire>, k: nat)
    requires Run(tr, ins, d, p, a) && Ordered(tr, ins, os) && t < |ins|
    requires s == tr[t] && inp == ins[t] && o == os[t] && ret == tr[t + 1].ret
    requires k < 4 && |ret| == 4 && ret[k].valid && ret[k].misp
    ensures o.base + k in o.target && RedirectPc(ret) == o.target[o.base + k]
  {
    StepFacts(tr, ins, os, d, p, a, t, s, inp, o, ret);
    OneStepTarget(s, inp, o, k, ret);
  }

  // Whenever a misprediction flushes the machine, fetch restarts at the target
  // that was reported for that very branch, in whatever order younger and older
  // mispredictions were reported before it retired.
  lemma FetchRestartsAtOwnTarget(tr: seq<State>, ins: seq<Input>, os: seq<O.Order>, d: nat, p: nat, a: nat, t: nat, k: nat)
    requires Run(tr, ins, d, p, a) && Ordered(tr, ins, os) && 0 < t <= |ins|
    requires k < 4 && |tr[t].ret| == 4 && tr[t].ret[k].valid && tr[t].ret[k].misp
    ensures os[t - 1].base + k in os[t - 1].target
    ensures RedirectPc(tr[t].ret) == os[t - 1].target[os[t - 1].base + k]
  {
    TargetInRun(tr, ins, os, d, p, a, t - 1, tr[t - 1], ins[t - 1], os[t - 1], tr[t].ret, k);
  }
}
