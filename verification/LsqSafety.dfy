/**
  Safety of speculative loads without reference to time: a load marked for
  replay is neither fired nor holding data, it cannot have written back, and so
  no retiring load carries the mark, which is what the assertions at
  verilog/ldq.sv:683-686 claim.
 */
module LsqSafety {
  import opened Lsq
  import opened LsqQueue
  import opened Ring
  import Select

  // One load entry; resolved says every older unfired store has its address.
  ghost predicate LoadSafe(l: Ld, resolved: bool) {
    && (l.addrValid || l.dataValid || l.writebacked || l.fired || l.orderFail ==> l.valid)
    && (l.fired ==> l.addrValid && !l.orderFail)
    && (l.dataValid ==> l.addrValid && !l.orderFail)
    && (l.writebacked ==> l.dataValid && resolved)
  }

  // The registered load request names a load that waits for data, and it still
  // knows that load's address and unfired older stores.
  ghost predicate FireInv(s: State)
    requires Wf(s)
  {
    s.fireLd.valid ==>
      var l := s.ldq[s.fireLd.tag];
      && l.valid && l.addrValid && !l.dataValid && !l.writebacked && !l.fired
      && s.fireLd.addr == l.addr && s.fireLd.size == l.size && s.fireLd.youngest == l.youngest
      && (forall j :: 0 <= j < |s.stq| && s.stq[j].valid ==> (j in s.fireLd.mask <==> j in l.mask))
  }

  ghost predicate FwdInv(s: State)
    requires Wf(s)
  {
    s.fwd.valid || s.fwd.sleep ==> s.ldq[s.fwd.ldq].valid && s.ldq[s.fwd.ldq].addrValid
  }

  ghost predicate LoadsSafe(s: State) {
    forall i | 0 <= i < |s.ldq| :: LoadSafe(s.ldq[i], Resolved(s, i))
  }

  ghost predicate Core(s: State) {
    StqInv(s) && LdqInv(s) && LoadsSafe(s) && FireInv(s) && FwdInv(s)
  }

  // --------------------------------------------------------- one load entry

  // What the wires of a cycle owe one entry.
  ghost predicate WireOk(l: Ld, w: Wire, resolved: bool) {
    && (w.viol ==> !resolved && l.addrValid)
    && (w.retire ==> l.valid && l.writebacked)
    && (w.alloc ==> !l.valid)
    && (w.exec ==> l.valid && !l.addrValid)
    && (w.refire ==> l.valid && l.addrValid && !l.dataValid && !l.writebacked && !l.fired)
    && (w.accept ==> w.refire)
    && (w.fwdData ==> l.valid && l.addrValid && !l.orderFail)
    && (w.dcData ==> l.fired && !w.kill)
    && (w.wb ==> resolved && (l.dataValid || w.fwdData || w.dcData))
  }

  lemma EntryStaysSafe(l: Ld, w: Wire, resolved: bool, resolved': bool)
    requires LoadSafe(l, resolved) && WireOk(l, w, resolved)
    requires resolved && l.valid && !w.retire ==> resolved'
    ensures LoadSafe(NextLd(l, w), resolved')
  {
  }

  lemma ViolationUnresolved(s: State, inp: Input, i: nat)
    requires Core(s) && EnvOk(s, inp) && i < |s.ldq| && Hits(s, inp, i)
    ensures !Resolved(s, i) && s.ldq[i].valid
  {
    assert LoadSafe(s.ldq[i], Resolved(s, i));
  }

  lemma WiresOk(s: State, inp: Input, oldestFirst: bool, i: nat)
    requires Core(s) && EnvOk(s, inp) && i < |s.ldq|
    ensures WireOk(s.ldq[i], WireOf(s, inp, oldestFirst, i), Resolved(s, i))
  {
    LoadSlotStep(s, inp, i);
    LoadsLeaveInOrder(s, inp, i);
    if Violation(s, inp, i) {
      ViolationUnresolved(s, inp, i);
    }
  }

  // ------------------------------------------------------------ whole queue

  // An address stays known until its store fires and leaves every mask.
  lemma ResolvedStays(s: State, inp: Input, oldestFirst: bool, i: nat)
    requires Core(s) && EnvOk(s, inp) && !inp.flush && i < |s.ldq|
    requires Resolved(s, i) && s.ldq[i].valid && !RetiresLoad(inp, i)
    ensures Resolved(Next(s, inp, oldestFirst), i)
  {
    var s' := Next(s, inp, oldestFirst);
    LoadSlotStep(s, inp, i);
    forall j | j in s'.ldq[i].mask
      ensures j < |s'.stq| && s'.stq[j].addrValid && s'.stq[j].valid
    {
      assert j in s.ldq[i].mask && s.stq[j].valid && s.stq[j].addrValid;
      assert s'.stq[j] == NextSt(s, inp, j);
    }
  }

  lemma LoadsStaySafe(s: State, inp: Input, oldestFirst: bool)
    requires Core(s) && EnvOk(s, inp)
    ensures LoadsSafe(Next(s, inp, oldestFirst))
  {
    hide RetiresLoad, NextFwd;
    var s' := Next(s, inp, oldestFirst);
    forall i | 0 <= i < |s.ldq|
      ensures LoadSafe(s'.ldq[i], Resolved(s', i))
    {
      if !inp.flush {
        WiresOk(s, inp, oldestFirst, i);
        if Resolved(s, i) && s.ldq[i].valid && !RetiresLoad(inp, i) {
          ResolvedStays(s, inp, oldestFirst, i);
        }
        EntryStaysSafe(s.ldq[i], WireOf(s, inp, oldestFirst, i), Resolved(s, i), Resolved(s', i));
      }
    }
  }

  // A load chosen to fire reaches the request register still waiting.
  lemma ChosenEntry(l: Ld, w: Wire, resolved: bool)
    requires LoadSafe(l, resolved) && WireOk(l, w, resolved)
    requires (l.addrValid || w.exec) && !l.dataValid && !l.fired && !w.accept && !w.fwdData
    ensures var l' := NextLd(l, w);
      && l.valid && !w.retire && !w.alloc && !w.wb
      && l'.valid && l'.addrValid && !l'.dataValid && !l'.writebacked && !l'.fired
      && l'.addr == (if l.addrValid then l.addr else w.eAddr) && l'.size == (if l.addrValid then l.size else w.eSize)
      && l'.youngest == l.youngest
      && l'.mask == l.mask - (if w.stFire then {w.stTag} else {})
  {
  }

  lemma FiredSlotIsFree(s: State, inp: Input, j: nat)
    requires StqInv(s) && LdqInv(s) && EnvOk(s, inp) && j < |s.stq|
    ensures StFire(s, inp) && j == s.fireSt.tag ==> !NextSt(s, inp, j).valid
  {
  }

  lemma NewStoreNotMasked(s: State, inp: Input, j: nat)
    requires StqInv(s) && LdqInv(s) && EnvOk(s, inp) && j < |s.stq|
    ensures NextSt(s, inp, j).valid ==> s.stq[j].valid || Off(s.sTail.idx, j, |s.stq|) < Stores(inp.lanes)
  {
  }

  // No load's mask names a free store slot.
  ghost predicate MasksLive(s: State) {
    forall i, j :: 0 <= i < |s.ldq| && j in s.ldq[i].mask ==> j < |s.stq| && s.stq[j].valid
  }

  lemma FireStep(s: State, inp: Input, oldestFirst: bool)
    requires Core(s) && EnvOk(s, inp) && MasksLive(s)
    ensures FireInv(Next(s, inp, oldestFirst))
  {
    var s' := Next(s, inp, oldestFirst);
    var i := s'.fireLd.tag;
    if s'.fireLd.valid {
      assert Wakeup(s, inp, i);
      WiresOk(s, inp, oldestFirst, i);
      var w := WireOf(s, inp, oldestFirst, i);
      assert LoadSafe(s.ldq[i], Resolved(s, i));
      ChosenEntry(s.ldq[i], w, Resolved(s, i));
      assert s'.ldq[i] == NextLd(s.ldq[i], w);
      forall j | 0 <= j < |s.stq| && s'.stq[j].valid
        ensures j in s'.fireLd.mask <==> j in s'.ldq[i].mask
      {
        assert s'.stq[j] == NextSt(s, inp, j);
        FiredSlotIsFree(s, inp, j);
      }
    }
  }

  lemma RequestSurvives(s: State, inp: Input, oldestFirst: bool)
    requires Core(s) && EnvOk(s, inp) && !inp.flush && s.fireLd.valid
    ensures var s', i := Next(s, inp, oldestFirst), s.fireLd.tag;
      s'.ldq[i].valid && s'.ldq[i].addrValid && !RetiresLoad(inp, i)
  {
    var i := s.fireLd.tag;
    LoadsLeaveInOrder(s, inp, i);
    assert Next(s, inp, oldestFirst).ldq[i] == NextLd(s.ldq[i], WireOf(s, inp, oldestFirst, i));
  }

  lemma FwdStep(s: State, inp: Input, oldestFirst: bool)
    requires Core(s) && EnvOk(s, inp)
    ensures FwdInv(Next(s, inp, oldestFirst))
  {
    var s' := Next(s, inp, oldestFirst);
    if s'.fwd.valid || s'.fwd.sleep {
      assert Select.Any(Matches(s)) && s.fireLd.valid;
      RequestSurvives(s, inp, oldestFirst);
    }
  }

  lemma CoreStep(s: State, inp: Input, oldestFirst: bool)
    requires Core(s) && EnvOk(s, inp) && MasksLive(s)
    ensures Core(Next(s, inp, oldestFirst))
  {
    StqStep(s, inp, oldestFirst);
    LdqStep(s, inp, oldestFirst);
    LoadsStaySafe(s, inp, oldestFirst);
    FireStep(s, inp, oldestFirst);
    FwdStep(s, inp, oldestFirst);
  }

  lemma ResetCore(d: nat)
    requires d >= 8 && d % 2 == 0
    ensures Core(Reset(d)) && MasksLive(Reset(d))
  {
    ResetQueues(d);
  }

  // ---------------------------------------------------------------- results

  // The four assertions: a retiring load is not marked for replay, nor does the
  // same edge mark it.
  lemma RetiringIsClean(s: State, inp: Input, oldestFirst: bool, i: nat)
    requires Core(s) && EnvOk(s, inp) && i < |s.ldq| && RetiresLoad(inp, i)
    ensures !s.ldq[i].orderFail && !Violation(s, inp, i)
    ensures s.ldq[i].dataValid && Resolved(s, i)
    ensures !Next(s, inp, oldestFirst).ldq[i].orderFail
  {
    LoadsLeaveInOrder(s, inp, i);
    if Violation(s, inp, i) {
      ViolationUnresolved(s, inp, i);
    }
  }

  // A load that has written back, or does so now, is beyond any violation.
  lemma WrittenBackIsFinal(s: State, inp: Input, oldestFirst: bool, i: nat)
    requires Core(s) && EnvOk(s, inp) && i < |s.ldq|
    requires s.ldq[i].writebacked || WritesBack(s, inp, oldestFirst, i)
    ensures !Hits(s, inp, i)
  {
    if Hits(s, inp, i) {
      ViolationUnresolved(s, inp, i);
    }
  }

  // The queue's other assertions: loads that execute, are requested, doze, get
  // data or write back are in the queue, and data belongs to a known address.
  lemma NamedLoadsAreLive(s: State, inp: Input, oldestFirst: bool, i: nat)
    requires Core(s) && EnvOk(s, inp) && i < |s.ldq|
    requires
      || (inp.exec.ExecLoad? && inp.exec.tag == i)
      || (i == s.fwd.ldq && (s.fwd.valid || s.fwd.sleep))
      || (i == s.fireLd.tag && s.fireLd.valid)
      || DcAccept(s, inp, i)
      || s.ldq[i].dataValid
      || WritesBack(s, inp, oldestFirst, i)
    ensures s.ldq[i].valid
    ensures s.ldq[i].dataValid ==> s.ldq[i].addrValid
  {
    assert LoadSafe(s.ldq[i], Resolved(s, i));
  }
}
