/**
  What the back end takes in and what makes it flush: a fetch group is accepted
  exactly when every consumer has room, the instruction stream is what was
  fetched, and recovery follows exactly the retirement of an instruction that was
  mispredicted or raises an exception.
 */
module BackendProgress {
  import R = Rob
  import F = RobFifo
  import G = RobProgress
  import Psel
  import opened Rename
  import opened Ledger
  import opened Backend
  import opened Conservation
  import opened BackendRuns

  // -------------------------------------------------------------- acceptance

  // Every consumer has room, and nothing that retires calls for a flush.
  ghost predicate CanAccept(s: State, inp: Input)
    requires Wf(s) && WfInput(inp)
  {
    && inp.rsReady && inp.lsqReady && !s.sysExc && !s.rob.brMisp
    && (forall k | 0 <= k < 4 :: s.ret[k].valid ==> !s.ret[k].misp && s.ret[k].op.exc == R.NO_ERROR)
  }

  // Four slots are left in the buffer after this edge.
  ghost predicate LeavesRoom(s: State, inp: Input)
    requires Wf(s) && WfInput(inp) && F.Inv(R.Next(s.rob, RobInput(s, inp)))
  {
    F.Count(R.Next(s.rob, RobInput(s, inp))) + 4 <= |s.rob.entry|
  }

  lemma NextBuffer(s: State, inp: Input)
    requires Inv(s) && WfInput(inp)
    ensures F.Inv(R.Next(s.rob, RobInput(s, inp)))
  {
    if Flush(s) {
      F.FlushEmpties(s.rob, RobInput(s, inp));
    } else {
      F.StepKeepsInv(s.rob, RobInput(s, inp));
    }
  }

  lemma FlushIffFlagged(s: State)
    requires Wf(s)
    ensures Flush(s) <==> exists k :: 0 <= k < 4 && s.ret[k].valid && (s.ret[k].misp || s.ret[k].op.exc != R.NO_ERROR)
  {
  }

  lemma ReadyIff(s: State, inp: Input)
    requires Inv(s) && WfInput(inp)
    ensures F.Inv(R.Next(s.rob, RobInput(s, inp)))
    ensures RenameReady(s, inp) <==> CanAccept(s, inp) && LeavesRoom(s, inp)
  {
    hide Flush, RobInput, R.Next, F.Inv, Inflight;
    var ri := RobInput(s, inp);
    NextBuffer(s, inp);
    FlushIffFlagged(s);
    if !Flush(s) {
      forall k | 0 <= k < 4
        ensures R.Ready(s.rob, ri, k) <==> !s.rob.brMisp && F.Count(R.Next(s.rob, ri)) + k + 1 <= |s.rob.entry|
      {
        F.ReadyCredit(s.rob, ri, k);
      }
      assert R.Ready(s.rob, ri, 3) <==> !s.rob.brMisp && LeavesRoom(s, inp);
    } else {
      assert R.Ready(s.rob, ri, 0) ==> !s.rob.brMisp;
    }
  }

  ghost predicate Arrives(s: State) {
    exists k :: 0 <= k < |s.ren| && s.ren[k].valid
  }

  lemma ArrivesWhenReady(s: State, inp: Input)
    requires Wf(s) && EnvOk(s, inp)
    ensures Arrives(Next(s, inp)) <==>
      !Flush(s) && RenameReady(s, inp) && inp.ptabReady && exists k :: 0 <= k < 4 && inp.fetch[k].valid
  {
    hide Grants, RenameReady;
    NextPackets(s, inp);
    RenameRegister(s, inp);
    LanesFollow(s, inp);
    hide Next, RenameReady, Flush, RenamedLanes, Grants;
    if !Flush(s) && RenameReady(s, inp) {
      var ls := RenamedLanes(s.rat, Decoded(inp), Grants(s));
      assert Next(s, inp).ren == ls;
      if exists k :: 0 <= k < 4 && Decoded(inp)[k].valid {
        var k :| 0 <= k < 4 && Decoded(inp)[k].valid;
        assert ls[k].valid;
      }
    }
  }

  lemma LanesFollow(s: State, inp: Input)
    requires Wf(s) && EnvOk(s, inp) && WfGroup(Decoded(inp), Grants(s), |s.rat|)
    ensures forall k | 0 <= k < 4 :: RenamedLanes(s.rat, Decoded(inp), Grants(s))[k].valid == Decoded(inp)[k].valid
  {
  }

  // A group is in the rename register after the edge exactly if there is one,
  // the prediction table, the reservation stations and the memory queues have
  // room, four slots of the buffer stay free, and there is no exception, no
  // flush and no held misprediction.
  lemma AcceptedIff(s: State, inp: Input)
    requires Inv(s) && EnvOk(s, inp)
    ensures F.Inv(R.Next(s.rob, RobInput(s, inp)))
    ensures Arrives(Next(s, inp)) <==>
      && inp.ptabReady && CanAccept(s, inp) && LeavesRoom(s, inp)
      && exists k :: 0 <= k < 4 && inp.fetch[k].valid
  {
    ReadyIff(s, inp);
    FlushIffFlagged(s);
    ArrivesWhenReady(s, inp);
  }

  // Each lane of an accepted group is the decoded one.
  lemma LanesCarryFetch(s: State, inp: Input, k: nat)
    requires Wf(s) && EnvOk(s, inp) && Arrives(Next(s, inp)) && k < 4
    ensures Next(s, inp).ren[k].valid == inp.fetch[k].valid && Next(s, inp).ren[k].nop == inp.fetch[k].nop
    ensures var u, l := Next(s, inp).ren[k].op, inp.fetch[k];
      u.pc == l.pc && u.arn == l.arn && u.branch == l.branch && u.exc == l.exc
  {
    ArrivesWhenReady(s, inp);
    RenameRegister(s, inp);
  }

  lemma IdleTables(s: State, inp: Input)
    requires Wf(s) && EnvOk(s, inp) && !s.recov
    requires !RenameReady(s, inp) || !inp.ptabReady
    ensures Next(s, inp).rat == s.rat && Next(s, inp).free == Forwarded(s.free, s.ret)
  {
    assert !inp.ptabReady ==> forall k | 0 <= k < 4 :: !Takes(Decoded(inp), k);
    if RenameReady(s, inp) {
      IdleRat(s.rat, Decoded(inp), Grants(s), 4);
    }
  }

  lemma {:induction false} IdleRat(rat: seq<nat>, dec: seq<Dec>, gs: seq<Psel.Grant>, k: nat)
    requires |dec| == |gs| && k <= |dec| && forall j | 0 <= j < |dec| :: !Takes(dec, j)
    ensures RatAfter(rat, dec, gs, k) == rat
  {
    if k > 0 {
      IdleRat(rat, dec, gs, k - 1);
      assert forall i | 0 <= i < |rat| :: RatAfter(rat, dec, gs, k)[i] == RatAfter(rat, dec, gs, k - 1)[i];
    }
  }

  // No register is handed out and no mapping moves otherwise.
  lemma TablesMoveOnlyFor(s: State, inp: Input)
    requires Inv(s) && EnvOk(s, inp) && !s.recov
    requires Next(s, inp).rat != s.rat || Next(s, inp).free != Forwarded(s.free, s.ret)
    ensures F.Inv(R.Next(s.rob, RobInput(s, inp)))
    ensures inp.ptabReady && CanAccept(s, inp) && LeavesRoom(s, inp)
  {
    ReadyIff(s, inp);
    if !RenameReady(s, inp) || !inp.ptabReady {
      IdleTables(s, inp);
    }
  }

  lemma AcceptedInRuns(tr: seq<State>, ins: seq<Input>, d: nat, p: nat, a: nat, t: nat)
    requires Run(tr, ins, d, p, a) && t < |ins|
    ensures Inv(tr[t]) && EnvOk(tr[t], ins[t]) && F.Inv(tr[t + 1].rob)
    ensures Arrives(tr[t + 1]) <==>
      && ins[t].ptabReady && CanAccept(tr[t], ins[t]) && F.Count(tr[t + 1].rob) + 4 <= d
      && exists k :: 0 <= k < 4 && ins[t].fetch[k].valid
    ensures !tr[t].recov && (tr[t + 1].rat != tr[t].rat || tr[t + 1].free != Forwarded(tr[t].free, tr[t].ret)) ==>
      ins[t].ptabReady && CanAccept(tr[t], ins[t]) && F.Count(tr[t + 1].rob) + 4 <= d
  {
    RunKeepsInv(tr, ins, d, p, a, t);
    assert StepAt(tr, ins, t);
    AcceptedIff(tr[t], ins[t]);
    if !tr[t].recov && (tr[t + 1].rat != tr[t].rat || tr[t + 1].free != Forwarded(tr[t].free, tr[t].ret)) {
      TablesMoveOnlyFor(tr[t], ins[t]);
    }
  }

  // ------------------------------------------------------------- the stream

  // What an instruction keeps of its decoded lane.
  datatype Image = Image(pc: nat, arn: nat, branch: bool, exc: R.Exception)

  function Fetched(ds: seq<Dec>): (r: seq<Image>) {
    if ds == [] then []
    else
      var n := |ds| - 1;
      Fetched(ds[..n]) + (if ds[n].valid then [Image(ds[n].pc, ds[n].arn, ds[n].branch, ds[n].exc)] else [])
  }

  function Images(us: seq<R.Uop>): (r: seq<Image>)
    ensures |r| == |us|
    ensures forall k | 0 <= k < |us| :: r[k] == Image(us[k].pc, us[k].arn, us[k].branch, us[k].exc)
  {
    seq(|us|, k requires 0 <= k < |us| => Image(us[k].pc, us[k].arn, us[k].branch, us[k].exc))
  }

  lemma {:induction false} RenamedImages(rat: seq<nat>, dec: seq<Dec>, gs: seq<Psel.Grant>, k: nat)
    requires WfGroup(dec, gs, |rat|) && k <= |dec|
    ensures Images(OpsBelow(rat, dec, gs, k)) == Fetched(dec[..k])
  {
    if k > 0 {
      RenamedImages(rat, dec, gs, k - 1);
      OpsBelowStep(rat, dec, gs, k - 1);
      assert dec[..k][..k - 1] == dec[..k - 1];
    } else {
      assert OpsBelow(rat, dec, gs, 0) == [];
    }
  }

  lemma {:induction false} NothingFetched(ds: seq<Dec>)
    requires forall k | 0 <= k < |ds| :: !ds[k].valid
    ensures Fetched(ds) == []
  {
    if ds != [] {
      NothingFetched(ds[..|ds| - 1]);
    }
  }

  lemma GroupImages(s: State, inp: Input)
    requires Wf(s) && EnvOk(s, inp)
    ensures Images(NewOps(s, inp)) == if !Flush(s) && RenameReady(s, inp) then Fetched(Decoded(inp)) else []
  {
    if !Flush(s) && RenameReady(s, inp) {
      DecodedOk(s, inp);
      var dec, gs := Decoded(inp), Grants(s);
      RenamedImages(s.rat, dec, gs, 4);
      assert dec[..4] == dec && RenamedLanes(s.rat, dec, gs)[..4] == RenamedLanes(s.rat, dec, gs);
    }
  }

  // The new instructions are the valid lanes of the accepted group, in order.
  lemma NewOpsFetched(s: State, inp: Input)
    requires Inv(s) && EnvOk(s, inp)
    ensures Images(NewOps(s, inp)) == if Arrives(Next(s, inp)) then Fetched(inp.fetch) else []
  {
    hide Flush, Next, Fetched, NewOps;
    ArrivesWhenReady(s, inp);
    GroupImages(s, inp);
    if !Flush(s) && RenameReady(s, inp) {
      if !inp.ptabReady {
        NothingFetched(Decoded(inp));
      } else if !(exists k :: 0 <= k < 4 && inp.fetch[k].valid) {
        NothingFetched(inp.fetch);
      }
    }
  }

  lemma ImagesConcat(us: seq<R.Uop>, vs: seq<R.Uop>)
    ensures Images(us + vs) == Images(us) + Images(vs)
  {
  }

  // Between flushes the instruction stream grows by exactly the groups that are
  // accepted, as they were decoded.
  lemma ProgramIsFetched(tr: seq<State>, ins: seq<Input>, d: nat, p: nat, a: nat, t: nat)
    requires Run(tr, ins, d, p, a) && t < |ins| && !Flush(tr[t])
    ensures Inv(tr[t]) && Inv(tr[t + 1])
    ensures Images(Program(tr, t + 1)) ==
      Images(Program(tr, t)) + if Arrives(tr[t + 1]) then Fetched(ins[t].fetch) else []
  {
    ProgramGrows(tr, ins, d, p, a, t);
    assert StepAt(tr, ins, t);
    NewOpsFetched(tr[t], ins[t]);
    ImagesConcat(Program(tr, t), NewOps(tr[t], ins[t]));
  }

  // --------------------------------------------------------------- recovery

  // Recovery follows exactly the cycle in which the retire register holds a
  // mispredicted instruction or one with an exception.
  lemma RecoversIff(tr: seq<State>, ins: seq<Input>, d: nat, p: nat, a: nat, t: nat)
    requires Run(tr, ins, d, p, a) && t < |ins|
    ensures |tr[t].ret| == 4
    ensures tr[t + 1].recov <==>
      exists k :: 0 <= k < 4 && tr[t].ret[k].valid && (tr[t].ret[k].misp || tr[t].ret[k].op.exc != R.NO_ERROR)
  {
    RunKeepsInv(tr, ins, d, p, a, t);
    assert StepAt(tr, ins, t);
    FlushIffFlagged(tr[t]);
  }

  function Buffers(tr: seq<State>): (ss: seq<R.State>)
    ensures |ss| == |tr|
    ensures forall t | 0 <= t < |tr| :: ss[t] == tr[t].rob
  {
    seq(|tr|, t requires 0 <= t < |tr| => tr[t].rob)
  }

  function BufferInputs(tr: seq<State>, ins: seq<Input>): (bs: seq<R.Input>)
    requires |ins| <= |tr| && forall t | 0 <= t < |ins| :: Wf(tr[t]) && WfInput(ins[t])
    ensures |bs| == |ins|
    ensures forall t | 0 <= t < |ins| :: bs[t] == RobInput(tr[t], ins[t])
  {
    seq(|ins|, t requires 0 <= t < |ins| => RobInput(tr[t], ins[t]))
  }

  // The reorder buffer of a run is a buffer run, so what RobProgress says of
  // live instructions holds in it.
  lemma BuffersRun(tr: seq<State>, ins: seq<Input>, d: nat, p: nat, a: nat)
    requires Run(tr, ins, d, p, a)
    ensures forall t | 0 <= t < |ins| :: Wf(tr[t]) && WfInput(ins[t])
    ensures G.BufferRun(Buffers(tr), BufferInputs(tr, ins))
  {
    forall t | 0 <= t < |ins|
      ensures Wf(tr[t]) && WfInput(ins[t])
    {
      assert StepAt(tr, ins, t);
    }
    forall t | 0 <= t <= |ins|
      ensures F.Inv(tr[t].rob)
    {
      RunKeepsInv(tr, ins, d, p, a, t);
    }
    forall t | 0 <= t < |ins|
      ensures G.BufferStep(Buffers(tr), BufferInputs(tr, ins), t)
    {
      RunKeepsInv(tr, ins, d, p, a, t);
      assert StepAt(tr, ins, t);
    }
  }

  // An instruction that reaches the front of the buffer, and needs no execution
  // or has been broadcast, is in the retire register one edge later; if its
  // broadcast reported a misprediction, or it raises an exception, the machine
  // recovers another edge later.
  lemma FrontCommits(tr: seq<State>, ins: seq<Input>, d: nat, p: nat, a: nat, e: nat, j: nat, t: nat, i: nat)
    requires Run(tr, ins, d, p, a) && t + 1 < |ins|
    requires forall u | 0 <= u < |ins| :: Wf(tr[u]) && WfInput(ins[u])
    requires G.BufferRun(Buffers(tr), BufferInputs(tr, ins)) && G.Lives(Buffers(tr), BufferInputs(tr, ins), e, j, t, i)
    requires tr[t].rob.head == i && !Flush(tr[t]) && e < |ins| && |tr[e].ren| == 4
    requires G.NeedsNoExecution(tr[e].ren[j]) || G.Heard(BufferInputs(tr, ins), e, t, i)
    ensures |tr[t + 1].ret| == 4 && tr[t + 1].ret[0].valid && tr[t + 1].ret[0].op == tr[e].ren[j].op
    ensures tr[e].ren[j].op.exc != R.NO_ERROR || (!tr[e].ren[j].nop && G.FirstReports(BufferInputs(tr, ins), e, t, i)) ==>
      tr[t + 2].recov
  {
    hide Run, G.BufferRun, G.Lives, G.Heard, G.FirstReports, BufferInputs, Buffers, Flush, Wf, R.RetirePkt;
    FrontRetires(tr, ins, d, p, a, e, j, t, i);
    NextRetireRegister(tr, ins, d, p, a, t);
    RecoversIff(tr, ins, d, p, a, t + 1);
  }

  lemma FrontRetires(tr: seq<State>, ins: seq<Input>, d: nat, p: nat, a: nat, e: nat, j: nat, t: nat, i: nat)
    requires Run(tr, ins, d, p, a) && t < |ins|
    requires forall u | 0 <= u < |ins| :: Wf(tr[u]) && WfInput(ins[u])
    requires G.BufferRun(Buffers(tr), BufferInputs(tr, ins)) && G.Lives(Buffers(tr), BufferInputs(tr, ins), e, j, t, i)
    requires tr[t].rob.head == i && e < |ins| && |tr[e].ren| == 4
    ensures var l, r := tr[e].ren[j], R.RetirePkt(tr[t].rob)[0];
      && (r.valid <==> G.NeedsNoExecution(l) || G.Heard(BufferInputs(tr, ins), e, t, i))
      && (r.valid ==> r.op == l.op && (r.misp <==> !G.NeedsNoExecution(l) && G.FirstReports(BufferInputs(tr, ins), e, t, i)))
  {
    hide Run, BufferInputs, Buffers;
    assert BufferInputs(tr, ins)[e] == RobInput(tr[e], ins[e]);
    G.FrontInstruction(Buffers(tr), BufferInputs(tr, ins), e, j, t, i);
  }

  lemma NextRetireRegister(tr: seq<State>, ins: seq<Input>, d: nat, p: nat, a: nat, t: nat)
    requires Run(tr, ins, d, p, a) && t < |ins| && Wf(tr[t]) && !Flush(tr[t])
    ensures tr[t + 1].ret == R.RetirePkt(tr[t].rob)
  {
    assert StepAt(tr, ins, t);
    NextPackets(tr[t], ins[t]);
  }
}
