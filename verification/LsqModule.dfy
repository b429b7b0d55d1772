/**
  The load and store queues as registers updated in place: the clocked blocks
  assign entry by entry and the later of two assignments stands. One call of
  Posedge is one step of the transition function.
 */
module LsqModule {
  import opened Lsq
  import opened Ring
  import Select

  // The clocked block of one load entry, in its own order.
  method ClockLd(before: Ld, w: Wire) returns (l: Ld)
    ensures l == NextLd(before, w)
  {
    var valid, mask, youngest := before.valid, before.mask, before.youngest;
    var addr, size, addrValid := before.addr, before.size, before.addrValid;
    if w.alloc {
      mask, youngest, valid := w.aMask, w.aYoungest, true;
    }
    if w.exec {
      size, addr, addrValid := w.eSize, w.eAddr, true;
    }
    if w.stFire {
      mask := mask - {w.stTag};
    }
    var sleep, fwdStq := before.sleep, before.fwdStq;
    if w.viol {
      sleep := false;
    } else if w.sleep {
      if w.stFire && w.stTag == w.fwdStq {
        sleep := false;
      } else {
        sleep, fwdStq := true, w.fwdStq;
      }
    } else if before.fwdStq == w.stTag && w.stFire {
      sleep := false;
    }
    var orderFail := before.orderFail;
    if w.viol {
      orderFail := true;
    } else if w.refire && !w.kill {
      orderFail := false;
    }
    var fired := before.fired;
    if w.viol {
      fired := false;
    } else if w.accept {
      fired := !w.kill;
    } else if w.sleep {
      fired := false;
    }
    var dataValid := before.dataValid;
    if w.viol {
      dataValid := false;
    } else if w.fwdData {
      dataValid := true;
    } else if w.dcData {
      dataValid := true;
    }
    var writebacked := before.writebacked || w.wb;
    if w.retire {
      addrValid, mask, fired, dataValid, writebacked, valid := false, {}, false, false, false, false;
    }
    l := Ld(valid, addr, size, addrValid, dataValid, writebacked, fired, orderFail, sleep, fwdStq, mask, youngest);
  }

  // The clocked block of one store entry.
  method ClockSt(before: St, flush: bool, alloc: bool, exec: bool, addr: nat, size: nat, retire: bool, fire: bool)
      returns (e: St)
    ensures e == StEntry(before, flush, alloc, exec, addr, size, retire, fire)
  {
    e := before;
    if flush && before.valid && !before.retired && !retire {
      e := e.(valid := false, addrValid := false, dataValid := false, retired := false);
    } else {
      if alloc {
        e := e.(valid := true);
      }
      if exec {
        e := e.(addr := addr, addrValid := true);
        e := e.(size := size, dataValid := true);
      }
      if retire {
        e := e.(retired := true);
      }
      if fire {
        e := e.(addrValid := false, dataValid := false, retired := false, valid := false);
      }
    }
  }

  class LoadStoreQueue {
    const oldestFirst: bool
    const ldq: array<Ld>
    const stq: array<St>
    var lHead: Ptr
    var lTail: Ptr
    var sHead: Ptr
    var sTail: Ptr
    var sRet: Ptr
    var fireLd: FireLd
    var fireSt: FireSt
    var fwd: Fwd

    function Value(): State
      reads this, ldq, stq
    {
      State(ldq[..], lHead, lTail, stq[..], sHead, sTail, sRet, fireLd, fireSt, fwd)
    }

    ghost predicate Valid()
      reads this, ldq, stq
    {
      Wf(Value())
    }

    constructor (d: nat, oldestFirst: bool)
      requires d >= 8 && d % 2 == 0
      ensures Valid() && fresh(ldq) && fresh(stq) && this.oldestFirst == oldestFirst
      ensures Value() == Reset(d)
    {
      this.oldestFirst := oldestFirst;
      ldq := new Ld[d](_ => EMPTY_LD);
      stq := new St[d](_ => EMPTY_ST);
      lHead, lTail := Ptr(0, false), Ptr(0, false);
      sHead, sTail, sRet := Ptr(0, false), Ptr(0, false), Ptr(0, false);
      fireLd, fireSt, fwd := FireLd(false, 0, 0, 0, {}, 0), FireSt(false, 0), Fwd(false, false, 0, 0);
      new;
      assert ldq[..] == Reset(d).ldq && stq[..] == Reset(d).stq;
    }

    // The selection loop of the configured build.
    method Choose(v: seq<bool>, head: nat) returns (i: nat)
      requires head < |v|
      ensures i == Select.Pick(oldestFirst, v, head)
    {
      if oldestFirst {
        i := Select.OldestIndex(v, head);
      } else {
        i := Select.LowestIndex(v);
      }
    }

    method ClockLoads(s: State, inp: Input)
      requires Valid() && s == Value() && WfInput(inp)
      modifies ldq
      ensures ldq[..] == NextLdq(s, inp, oldestFirst)
    {
      var i := 0;
      while i < ldq.Length
        invariant 0 <= i <= ldq.Length
        invariant forall k | 0 <= k < i :: ldq[k] == NextLdq(s, inp, oldestFirst)[k]
        invariant forall k | i <= k < ldq.Length :: ldq[k] == s.ldq[k]
      {
        if inp.flush {
          ldq[i] := Cleared(ldq[i]);
        } else {
          ldq[i] := ClockLd(ldq[i], WireOf(s, inp, oldestFirst, i));
        }
        i := i + 1;
      }
    }

    method ClockStores(s: State, inp: Input)
      requires Wf(s) && stq[..] == s.stq && WfInput(inp)
      modifies stq
      ensures stq[..] == NextStq(s, inp)
    {
      var j := 0;
      while j < stq.Length
        invariant 0 <= j <= stq.Length
        invariant forall k | 0 <= k < j :: stq[k] == NextStq(s, inp)[k]
        invariant forall k | j <= k < stq.Length :: stq[k] == s.stq[k]
      {
        stq[j] := ClockSt(stq[j], inp.flush,
                          Off(s.sTail.idx, j, stq.Length) < Stores(inp.lanes),
                          inp.exec.ExecStore? && inp.exec.tag == j,
                          if inp.exec.NoExec? then 0 else inp.exec.addr,
                          if inp.exec.NoExec? then 0 else inp.exec.size,
                          RetiresStore(inp, j),
                          j == s.sHead.idx && StFire(s, inp));
        j := j + 1;
      }
    }

    // The forwarding answer, by the scan over the doubled match vector.
    method Answer(s: State, inp: Input) returns (f: Fwd)
      requires Wf(s)
      ensures f == NextFwd(s, inp)
    {
      var found, j := Select.YoungestIndex(Matches(s), s.fireLd.youngest);
      var covers := Covers(s.stq[j].addr, s.stq[j].size, s.fireLd.addr, s.fireLd.size);
      var conflict := found && !covers;
      if inp.flush {
        f := Fwd(false, false, 0, 0);
      } else {
        f := Fwd(s.stq[j].dataValid && found && !conflict,
                 conflict && !(StFire(s, inp) && s.fireSt.tag == j),
                 s.fireLd.tag, j);
      }
    }

    // The request register.
    method Request(s: State, inp: Input) returns (f: FireLd)
      requires Wf(s)
      ensures f == NextFireLd(s, inp, oldestFirst)
    {
      var i := Choose(Wakeups(s, inp), s.lHead.idx);
      var l := s.ldq[i];
      var addr, size := 0, 0;
      if l.addrValid {
        addr, size := l.addr, l.size;
      } else if !inp.exec.NoExec? {
        addr, size := inp.exec.addr, inp.exec.size;
      }
      f := FireLd(!inp.flush && Wakeup(s, inp, i), i, addr, size, l.mask, l.youngest);
    }

    method Pointers(s: State, inp: Input)
      requires Wf(s) && WfInput(inp)
      modifies `lHead, `lTail, `sHead, `sTail, `sRet
      ensures lHead == (if inp.flush then Ptr(0, false) else NextLdHead(s, inp))
      ensures lTail == (if inp.flush then Ptr(0, false) else NextLdTail(s, inp))
      ensures sHead == NextStHead(s, inp) && sTail == NextStTail(s, inp) && sRet == NextRet(s, inp)
    {
      var d := |s.ldq|;
      if inp.flush {
        lHead, lTail := Ptr(0, false), Ptr(0, false);
      } else {
        lHead, lTail := Advance(s.lHead, RetLoads(inp.ret), d), Advance(s.lTail, Loads(inp.lanes), d);
      }
      sRet := Advance(s.sRet, RetStores(inp.ret), d);
      sHead := Advance(s.sHead, if StFire(s, inp) then 1 else 0, d);
      sTail := Advance(s.sTail, Stores(inp.lanes), d);
      if inp.flush {
        if s.sHead == sRet {
          sHead, sTail := s.sHead, s.sHead;
        } else {
          sTail := sRet;
        }
      }
    }

    method Posedge(inp: Input)
      requires Valid() && WfInput(inp)
      modifies this, ldq, stq
      ensures Valid() && Value() == Next(old(Value()), inp, oldestFirst)
    {
      var s := Value();
      var answer := Answer(s, inp);
      var request := Request(s, inp);
      ClockLoads(s, inp);
      ClockStores(s, inp);
      Pointers(s, inp);
      fwd, fireLd, fireSt := answer, request, NextFireSt(s, inp);
      assert Value() == Next(s, inp, oldestFirst);
    }
  }
}
