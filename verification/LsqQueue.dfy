/**
  The two queues as circular windows. The load queue holds the loads between its
  pointers; the store queue holds the stores between head and tail, a retired
  prefix of which survives a flush. The contract of the surrounding core is
  stated here, once.
 */
module LsqQueue {
  import opened Lsq
  import opened Ring

  ghost predicate PtrOrder(h: Ptr, t: Ptr) {
    if h.bit == t.bit then h.idx <= t.idx else t.idx <= h.idx
  }

  // Entries from h up to t.
  function Count(h: Ptr, t: Ptr, d: nat): (n: int)
    ensures n == d - Free(h, t, d)
  {
    if h.bit == t.bit then t.idx - h.idx else t.idx + d - h.idx
  }

  function LdCount(s: State): int {
    Count(s.lHead, s.lTail, |s.ldq|)
  }

  function StCount(s: State): int {
    Count(s.sHead, s.sTail, |s.stq|)
  }

  // Retired stores that have not fired.
  function RetCount(s: State): int {
    Count(s.sHead, s.sRet, |s.stq|)
  }

  // How far store slot j is from the oldest unfired store.
  function StOff(s: State, j: nat): (k: nat)
    requires Wf(s) && j < |s.stq|
    ensures k < |s.stq|
  {
    Off(s.sHead.idx, j, |s.stq|)
  }

  function LdOff(s: State, i: nat): (k: nat)
    requires Wf(s) && i < |s.ldq|
    ensures k < |s.ldq|
  {
    Off(s.lHead.idx, i, |s.ldq|)
  }

  // One store slot against its place in the window. Outside the window it is
  // free, or an orphan that no pointer reaches: the flush moves the tail back
  // but does not stop a group that arrives in the same cycle.
  ghost predicate StoreOk(e: St, off: nat, retired: int, count: int) {
    && (off < count ==> e.valid)
    && (e.retired <==> off < retired)
    && (e.addrValid ==> e.valid && off < count)
    && (e.retired ==> e.addrValid)
  }

  ghost predicate StoresOk(stq: seq<St>, head: nat, retired: int, count: int) {
    head < |stq| && (forall j | 0 <= j < |stq| :: StoreOk(stq[j], Off(head, j, |stq|), retired, count))
  }

  ghost predicate StqInv(s: State) {
    && Wf(s) && PtrOrder(s.sHead, s.sTail) && PtrOrder(s.sHead, s.sRet)
    && RetCount(s) <= StCount(s)
    && StoresOk(s.stq, s.sHead.idx, RetCount(s), StCount(s))
    && (s.fireSt.valid ==> s.fireSt.tag == s.sHead.idx && RetCount(s) > 0)
  }

  ghost predicate LdqInv(s: State) {
    && Wf(s) && PtrOrder(s.lHead, s.lTail)
    && (forall i | 0 <= i < |s.ldq| :: s.ldq[i].valid <==> LdOff(s, i) < LdCount(s))
  }

  ghost predicate Orphaned(s: State)
    requires Wf(s)
  {
    exists j: nat :: j < |s.stq| && s.stq[j].valid && StOff(s, j) >= StCount(s)
  }

  // ----------------------------------------- what the core owes the queues

  ghost predicate Room(s: State) {
    LdCount(s) + 4 <= |s.ldq| && StCount(s) + 4 <= |s.stq|
  }

  // Loads and stores retire in the order in which they were dispatched, loads
  // written back and stores executed.
  ghost predicate RetOk(s: State, ret: seq<Ret>, k: nat)
    requires Wf(s) && |ret| == 4 && k < 4
  {
    match ret[k]
    case NoRet => true
    case RetLoad(t) => t == Slot(s.lHead.idx, RetLoads(ret[..k]), |s.ldq|) && s.ldq[t].writebacked
    case RetStore(t) => t == Slot(s.sRet.idx, RetStores(ret[..k]), |s.stq|) && s.stq[t].addrValid
  }

  // A load or store executes once, while it is in its queue.
  ghost predicate ExecOk(s: State, e: Exec)
    requires Wf(s)
  {
    match e
    case NoExec => true
    case ExecLoad(i, _, _) => i < |s.ldq| && s.ldq[i].valid && !s.ldq[i].addrValid
    case ExecStore(j, _, _) => j < |s.stq| && StOff(s, j) < StCount(s) && !s.stq[j].addrValid
  }

  // Everything the core owes in one cycle but the room for a dispatched group.
  // A group may be dispatched in the cycle of a flush, but then it is the last.
  ghost predicate Obliged(s: State, inp: Input)
    requires Wf(s)
  {
    && WfInput(inp)
    && (Loads(inp.lanes) + Stores(inp.lanes) > 0 ==> !Orphaned(s))
    && ExecOk(s, inp.exec)
    && RetLoads(inp.ret) <= |s.ldq| - Free(s.lHead, s.lTail, |s.ldq|)
    && RetStores(inp.ret) <= |s.stq| - Free(s.sRet, s.sTail, |s.stq|)
    && (forall k: nat | k < 4 :: RetOk(s, inp.ret, k))
    && (inp.dcValid ==> inp.dcTag < |s.ldq| && (Kill(s, inp, inp.dcTag) || s.ldq[inp.dcTag].fired))
  }

  ghost predicate EnvOk(s: State, inp: Input)
    requires Wf(s)
  {
    Obliged(s, inp) && (Loads(inp.lanes) + Stores(inp.lanes) > 0 ==> Room(s))
  }

  // -------------------------------------------------------------- pointers

  lemma AdvanceCount(h: Ptr, t: Ptr, a: nat, b: nat, d: nat)
    requires d >= 8 && d % 2 == 0 && h.idx < d && t.idx < d && PtrOrder(h, t)
    requires a <= 4 && b <= 4 && a <= Count(h, t, d) <= d - b
    ensures PtrOrder(Advance(h, a, d), Advance(t, b, d))
    ensures Count(Advance(h, a, d), Advance(t, b, d), d) == Count(h, t, d) - a + b
  {
  }

  // The slots behind the tail continue the numbering from the head.
  lemma BehindTail(h: Ptr, t: Ptr, d: nat, n: nat, j: nat)
    requires h.idx < d && t.idx < d && j < d && PtrOrder(h, t) && Count(h, t, d) + n <= d
    ensures var c, o := Count(h, t, d), Off(h.idx, j, d);
      && (Off(t.idx, j, d) < n <==> c <= o < c + n)
      && (c <= o < c + n ==> Off(t.idx, j, d) == o - c)
  {
  }

  lemma MovedHead(h: nat, a: nat, d: nat, j: nat)
    requires h < d && j < d && a <= d && d > 0
    ensures Off(Slot(h, a, d), j, d) == if Off(h, j, d) >= a then Off(h, j, d) - a else Off(h, j, d) + d - a
  {
  }

  lemma RetireBounds(s: State, inp: Input)
    requires StqInv(s) && LdqInv(s) && Obliged(s, inp)
    ensures RetLoads(inp.ret) <= LdCount(s) && RetCount(s) + RetStores(inp.ret) <= StCount(s)
  {
  }

  lemma {:induction false} RetiringLoads(s: State, ret: seq<Ret>, n: nat, i: nat)
    requires Wf(s) && |ret| == 4 && n <= 4 && i < |s.ldq|
    requires forall k: nat | k < 4 :: RetOk(s, ret, k)
    ensures RetiresLoadBelow(ret, n, i) <==> LdOff(s, i) < RetLoads(ret[..n])
  {
    if n > 0 {
      RetiringLoads(s, ret, n - 1, i);
      assert ret[..n][..n - 1] == ret[..n - 1];
      assert RetOk(s, ret, n - 1);
    }
  }

  lemma {:induction false} RetiringStores(s: State, ret: seq<Ret>, n: nat, j: nat)
    requires Wf(s) && |ret| == 4 && n <= 4 && j < |s.stq|
    requires forall k: nat | k < 4 :: RetOk(s, ret, k)
    ensures RetiresStoreBelow(ret, n, j) <==> Off(s.sRet.idx, j, |s.stq|) < RetStores(ret[..n])
  {
    if n > 0 {
      RetiringStores(s, ret, n - 1, j);
      assert ret[..n][..n - 1] == ret[..n - 1];
      assert RetOk(s, ret, n - 1);
    }
  }

  ghost predicate RetiresLoadBelow(ret: seq<Ret>, n: nat, i: nat)
    requires n <= |ret|
  {
    exists k | 0 <= k < n :: ret[k] == RetLoad(i)
  }

  ghost predicate RetiresStoreBelow(ret: seq<Ret>, n: nat, j: nat)
    requires n <= |ret|
  {
    exists k | 0 <= k < n :: ret[k] == RetStore(j)
  }

  // Exactly the oldest loads leave, and they had been written back.
  lemma LoadsLeaveInOrder(s: State, inp: Input, i: nat)
    requires StqInv(s) && LdqInv(s) && EnvOk(s, inp) && i < |s.ldq|
    ensures RetiresLoad(inp, i) <==> LdOff(s, i) < RetLoads(inp.ret)
    ensures RetiresLoad(inp, i) ==> s.ldq[i].writebacked && s.ldq[i].valid
  {
    RetiringLoads(s, inp.ret, 4, i);
    assert inp.ret[..4] == inp.ret;
    if RetiresLoad(inp, i) {
      var k :| 0 <= k < 4 && inp.ret[k] == RetLoad(i);
      assert RetOk(s, inp.ret, k);
    }
  }

  lemma StoresRetireInOrder(s: State, inp: Input, j: nat)
    requires StqInv(s) && LdqInv(s) && EnvOk(s, inp) && j < |s.stq|
    ensures RetiresStore(inp, j) <==> RetCount(s) <= StOff(s, j) < RetCount(s) + RetStores(inp.ret)
    ensures RetiresStore(inp, j) ==> s.stq[j].addrValid
  {
    RetireBounds(s, inp);
    RetiringStores(s, inp.ret, 4, j);
    assert inp.ret[..4] == inp.ret;
    BehindTail(s.sHead, s.sRet, |s.stq|, RetStores(inp.ret), j);
    if RetiresStore(inp, j) {
      var k :| 0 <= k < 4 && inp.ret[k] == RetStore(j);
      assert RetOk(s, inp.ret, k);
    }
  }

  // ------------------------------------------------------------ store queue

  function Fired(s: State, inp: Input): (n: nat)
    ensures n <= 1
  {
    if StFire(s, inp) then 1 else 0
  }

  lemma RetPointers(s: State, inp: Input)
    requires StqInv(s) && LdqInv(s) && EnvOk(s, inp)
    ensures Fired(s, inp) <= RetCount(s) && NextStHead(s, inp) == Advance(s.sHead, Fired(s, inp), |s.stq|)
    ensures PtrOrder(NextStHead(s, inp), NextRet(s, inp))
    ensures Count(NextStHead(s, inp), NextRet(s, inp), |s.stq|) == RetCount(s) + RetStores(inp.ret) - Fired(s, inp)
  {
    hide LdqInv, StoresOk;
    RetireBounds(s, inp);
    AdvanceCount(s.sHead, s.sRet, Fired(s, inp), RetStores(inp.ret), |s.stq|);
    AdvanceCount(s.sHead, s.sRet, 0, RetStores(inp.ret), |s.stq|);
  }

  lemma StPointers(s: State, inp: Input)
    requires StqInv(s) && LdqInv(s) && EnvOk(s, inp)
    ensures NextStHead(s, inp) == Advance(s.sHead, Fired(s, inp), |s.stq|)
    ensures var h, t, r := NextStHead(s, inp), NextStTail(s, inp), NextRet(s, inp);
      && Fired(s, inp) <= RetCount(s)
      && PtrOrder(h, t) && PtrOrder(h, r)
      && Count(h, r, |s.stq|) == RetCount(s) + RetStores(inp.ret) - Fired(s, inp)
      && Count(h, t, |s.stq|) ==
           if inp.flush then RetCount(s) + RetStores(inp.ret) - Fired(s, inp)
           else StCount(s) + Stores(inp.lanes) - Fired(s, inp)
  {
    RetPointers(s, inp);
    hide LdqInv, StoresOk;
    AdvanceCount(s.sHead, s.sTail, Fired(s, inp), Stores(inp.lanes), |s.stq|);
  }

  // The place of a store after an edge on which f fired, r retired and n came.
  ghost function Moved(off: nat, f: nat, d: nat): int {
    if off >= f then off - f else off + d - f
  }

  lemma StoreEntryStep(e: St, flush: bool, alloc: bool, exec: bool, addr: nat, size: nat, retire: bool, fire: bool,
                       off: nat, retired: int, count: int, f: nat, r: nat, n: nat, d: nat)
    requires StoreOk(e, off, retired, count) && off < d && count + n <= d && f <= 1 && f <= retired && retired + r <= count
    requires fire <==> f == 1 && off == 0
    requires alloc <==> count <= off < count + n
    requires retire <==> retired <= off < retired + r
    requires retire ==> e.addrValid
    requires exec ==> off < count && !e.addrValid
    requires n > 0 ==> (e.valid ==> off < count)
    ensures Moved(off, f, d) >= 0
    ensures StoreOk(StEntry(e, flush, alloc, exec, addr, size, retire, fire),
                    Moved(off, f, d), retired + r - f, if flush then retired + r - f else count + n - f)
  {
  }

  // Which of the four events of a cycle meet slot j, by its place.
  lemma StoreEvents(s: State, inp: Input, j: nat)
    requires StqInv(s) && LdqInv(s) && EnvOk(s, inp) && j < |s.stq|
    ensures (j == s.sHead.idx && StFire(s, inp)) <==> Fired(s, inp) == 1 && StOff(s, j) == 0
    ensures Off(s.sTail.idx, j, |s.stq|) < Stores(inp.lanes) <==> StCount(s) <= StOff(s, j) < StCount(s) + Stores(inp.lanes)
    ensures RetiresStore(inp, j) <==> RetCount(s) <= StOff(s, j) < RetCount(s) + RetStores(inp.ret)
    ensures RetiresStore(inp, j) ==> s.stq[j].addrValid
    ensures StCount(s) + Stores(inp.lanes) <= |s.stq| && Fired(s, inp) <= RetCount(s)
  {
    StPointers(s, inp);
    RetireBounds(s, inp);
    StoresRetireInOrder(s, inp, j);
    BehindTail(s.sHead, s.sTail, |s.stq|, Stores(inp.lanes), j);
  }

  // What slot j and the events of the cycle owe each other.
  lemma SlotFacts(s: State, inp: Input, j: nat)
    requires StqInv(s) && LdqInv(s) && EnvOk(s, inp) && j < |s.stq|
    ensures StoreOk(s.stq[j], StOff(s, j), RetCount(s), StCount(s))
    ensures RetCount(s) + RetStores(inp.ret) <= StCount(s)
    ensures inp.exec.ExecStore? && inp.exec.tag == j ==> StOff(s, j) < StCount(s) && !s.stq[j].addrValid
    ensures Stores(inp.lanes) > 0 && s.stq[j].valid ==> StOff(s, j) < StCount(s)
  {
    RetireBounds(s, inp);
  }

  lemma StoreSlotStep(s: State, inp: Input, j: nat)
    requires StqInv(s) && LdqInv(s) && EnvOk(s, inp) && j < |s.stq|
    ensures var f, r, n := Fired(s, inp), RetStores(inp.ret), Stores(inp.lanes);
      && Moved(StOff(s, j), f, |s.stq|) >= 0
      && StoreOk(NextSt(s, inp, j), Moved(StOff(s, j), f, |s.stq|), RetCount(s) + r - f,
                 if inp.flush then RetCount(s) + r - f else StCount(s) + n - f)
  {
    hide LdqInv, StoresOk, Obliged, StoreOk, Moved, StCount, RetCount, StOff, Off;
    StoreEvents(s, inp, j);
    SlotFacts(s, inp, j);
    StoreEntryStep(s.stq[j], inp.flush,
            Off(s.sTail.idx, j, |s.stq|) < Stores(inp.lanes),
            inp.exec.ExecStore? && inp.exec.tag == j,
            if inp.exec.NoExec? then 0 else inp.exec.addr,
            if inp.exec.NoExec? then 0 else inp.exec.size,
            RetiresStore(inp, j),
            j == s.sHead.idx && StFire(s, inp),
            StOff(s, j), RetCount(s), StCount(s), Fired(s, inp), RetStores(inp.ret), Stores(inp.lanes), |s.stq|);
  }

  lemma NextStores(s: State, inp: Input)
    requires StqInv(s) && LdqInv(s) && EnvOk(s, inp)
    ensures var f, r, n := Fired(s, inp), RetStores(inp.ret), Stores(inp.lanes);
      StoresOk(NextStq(s, inp), Slot(s.sHead.idx, f, |s.stq|), RetCount(s) + r - f,
                  if inp.flush then RetCount(s) + r - f else StCount(s) + n - f)
  {
    hide RetStores, Stores, LdqInv;
    forall j | 0 <= j < |s.stq|
      ensures var f, r, n := Fired(s, inp), RetStores(inp.ret), Stores(inp.lanes);
        StoreOk(NextStq(s, inp)[j], Off(Slot(s.sHead.idx, f, |s.stq|), j, |s.stq|), RetCount(s) + r - f,
                   if inp.flush then RetCount(s) + r - f else StCount(s) + n - f)
    {
      StoreSlotStep(s, inp, j);
      MovedHead(s.sHead.idx, Fired(s, inp), |s.stq|, j);
    }
  }

  // The request register never names anything but the head of the queue.
  lemma NextRequest(s: State, inp: Input)
    requires StqInv(s) && LdqInv(s) && EnvOk(s, inp) && NextFireSt(s, inp).valid
    ensures Fired(s, inp) == 0 && RetCount(s) > 0
  {
    var j :| 0 <= j < |s.stq| && s.stq[j].valid && s.stq[j].retired;
    assert StoreOk(s.stq[j], StOff(s, j), RetCount(s), StCount(s));
  }

  // The store side of the next state.
  lemma StoreSide(s: State, inp: Input, oldestFirst: bool)
    requires Wf(s) && WfInput(inp)
    ensures var s' := Next(s, inp, oldestFirst);
      && Wf(s') && s'.stq == NextStq(s, inp) && s'.fireSt == NextFireSt(s, inp)
      && s'.sHead == NextStHead(s, inp) && s'.sTail == NextStTail(s, inp) && s'.sRet == NextRet(s, inp)
  {
  }

  lemma StqFrom(s: State)
    requires Wf(s) && PtrOrder(s.sHead, s.sTail) && PtrOrder(s.sHead, s.sRet) && RetCount(s) <= StCount(s)
    requires StoresOk(s.stq, s.sHead.idx, RetCount(s), StCount(s))
    requires s.fireSt.valid ==> s.fireSt.tag == s.sHead.idx && RetCount(s) > 0
    ensures StqInv(s)
  {
  }

  lemma StqStep(s: State, inp: Input, oldestFirst: bool)
    requires StqInv(s) && LdqInv(s) && EnvOk(s, inp)
    ensures StqInv(Next(s, inp, oldestFirst))
  {
    hide StqInv, StoresOk, Next, NextStHead, NextStTail, NextRet, NextStq;
    StoreSide(s, inp, oldestFirst);
    StPointers(s, inp);
    RetireBounds(s, inp);
    NextStores(s, inp);
    if NextFireSt(s, inp).valid {
      NextRequest(s, inp);
    }
    StqFrom(Next(s, inp, oldestFirst));
  }

  // While there is no orphan the valid slots are exactly the window.
  lemma WindowIsValid(s: State, j: nat)
    requires StqInv(s) && !Orphaned(s) && j < |s.stq|
    ensures s.stq[j].valid <==> StOff(s, j) < StCount(s)
  {
    assert StoreOk(s.stq[j], StOff(s, j), RetCount(s), StCount(s));
  }

  // An orphan comes only from a group dispatched in the cycle of a flush, and
  // goes with the next flush.
  lemma OrphansFromFlush(s: State, inp: Input, oldestFirst: bool)
    requires StqInv(s) && LdqInv(s) && EnvOk(s, inp)
    ensures StqInv(Next(s, inp, oldestFirst))
    ensures Orphaned(Next(s, inp, oldestFirst)) ==> if inp.flush then Stores(inp.lanes) > 0 else Orphaned(s)
  {
    var s' := Next(s, inp, oldestFirst);
    StqStep(s, inp, oldestFirst);
    if Orphaned(s') {
      var j: nat :| j < |s'.stq| && s'.stq[j].valid && StOff(s', j) >= StCount(s');
      NextPlace(s, inp, oldestFirst, j);
      OrphanSlot(s, inp, j);
    }
  }

  lemma NextPlace(s: State, inp: Input, oldestFirst: bool, j: nat)
    requires StqInv(s) && LdqInv(s) && EnvOk(s, inp) && j < |s.stq|
    ensures var s', f, r, n := Next(s, inp, oldestFirst), Fired(s, inp), RetStores(inp.ret), Stores(inp.lanes);
      && s'.stq[j] == NextSt(s, inp, j)
      && StOff(s', j) == Moved(StOff(s, j), f, |s.stq|)
      && StCount(s') == if inp.flush then RetCount(s) + r - f else StCount(s) + n - f
  {
    hide Stores, StqInv, NextLdq;
    StPointers(s, inp);
    MovedHead(s.sHead.idx, Fired(s, inp), |s.stq|, j);
  }

  // Where the valid slot outside the next window comes from.
  lemma OrphanSlot(s: State, inp: Input, j: nat)
    requires StqInv(s) && LdqInv(s) && EnvOk(s, inp) && j < |s.stq| && NextSt(s, inp, j).valid
    ensures var f, r, n := Fired(s, inp), RetStores(inp.ret), Stores(inp.lanes);
      Moved(StOff(s, j), f, |s.stq|) >= (if inp.flush then RetCount(s) + r - f else StCount(s) + n - f) ==>
      if inp.flush then n > 0 else s.stq[j].valid && StOff(s, j) >= StCount(s)
  {
    StoreEvents(s, inp, j);
    RetireBounds(s, inp);
    assert StoreOk(s.stq[j], StOff(s, j), RetCount(s), StCount(s));
  }

  // ------------------------------------------------------------- load queue

  lemma LdPointers(s: State, inp: Input)
    requires StqInv(s) && LdqInv(s) && EnvOk(s, inp)
    ensures var h, t := NextLdHead(s, inp), NextLdTail(s, inp);
      && PtrOrder(h, t)
      && Count(h, t, |s.ldq|) == LdCount(s) + Loads(inp.lanes) - RetLoads(inp.ret)
  {
    RetireBounds(s, inp);
    AdvanceCount(s.lHead, s.lTail, RetLoads(inp.ret), Loads(inp.lanes), |s.ldq|);
  }

  // A slot is handed out only while it is free and kept until its load leaves.
  lemma LoadSlotStep(s: State, inp: Input, i: nat)
    requires StqInv(s) && LdqInv(s) && EnvOk(s, inp) && i < |s.ldq|
    ensures Off(s.lTail.idx, i, |s.ldq|) < Loads(inp.lanes) ==> !s.ldq[i].valid && !RetiresLoad(inp, i)
    ensures var h, t := NextLdHead(s, inp), NextLdTail(s, inp);
      && PtrOrder(h, t)
      && (!RetiresLoad(inp, i) && (s.ldq[i].valid || Off(s.lTail.idx, i, |s.ldq|) < Loads(inp.lanes)) <==>
            Off(h.idx, i, |s.ldq|) < Count(h, t, |s.ldq|))
  {
    LdPointers(s, inp);
    LoadsLeaveInOrder(s, inp, i);
    MovedHead(s.lHead.idx, RetLoads(inp.ret), |s.ldq|, i);
    BehindTail(s.lHead, s.lTail, |s.ldq|, Loads(inp.lanes), i);
  }

  lemma LdqStep(s: State, inp: Input, oldestFirst: bool)
    requires StqInv(s) && LdqInv(s) && EnvOk(s, inp)
    ensures LdqInv(Next(s, inp, oldestFirst))
  {
    var s' := Next(s, inp, oldestFirst);
    LdPointers(s, inp);
    forall i | 0 <= i < |s.ldq|
      ensures s'.ldq[i].valid <==> LdOff(s', i) < LdCount(s')
    {
      LoadSlotStep(s, inp, i);
    }
  }

  // The ready wire promises room for a whole group one edge later, and without
  // a flush it is high whenever there will be.
  lemma ReadyCredit(s: State, inp: Input, oldestFirst: bool)
    requires StqInv(s) && LdqInv(s) && EnvOk(s, inp)
    ensures StqInv(Next(s, inp, oldestFirst)) && LdqInv(Next(s, inp, oldestFirst))
    ensures Ready(s, inp) ==> Room(Next(s, inp, oldestFirst))
    ensures !inp.flush && Room(Next(s, inp, oldestFirst)) ==> Ready(s, inp)
  {
    StqStep(s, inp, oldestFirst);
    LdqStep(s, inp, oldestFirst);
    LdPointers(s, inp);
    StPointers(s, inp);
  }

  lemma ResetQueues(d: nat)
    requires d >= 8 && d % 2 == 0
    ensures StqInv(Reset(d)) && LdqInv(Reset(d)) && Room(Reset(d))
  {
  }
}
