/**
  The load and store queues (verilog/lsq.sv over verilog/ldq.sv and
  verilog/stq.sv): loads go to the data cache before older store addresses are
  known; a violation check, kills, sleeping and refiring repair the result. One
  clock edge is one call of Next. Both queues have the same depth D, the length
  of both entry sequences; every statement holds for all even D from eight
  upwards. Data words are left out, addresses and sizes are kept.
 */
module Lsq {
  import opened Ring
  import Select

  datatype Ld = Ld(
    valid: bool,
    addr: nat, size: nat, addrValid: bool,
    dataValid: bool, writebacked: bool, fired: bool, orderFail: bool,
    sleep: bool, fwdStq: nat,
    mask: set<nat>, youngest: nat
  )

  datatype St = St(valid: bool, addr: nat, size: nat, addrValid: bool, dataValid: bool, retired: bool)

  // A queue pointer and its wrap bit.
  datatype Ptr = Ptr(idx: nat, bit: bool)

  // The registered load request, store request and forwarding answer.
  datatype FireLd = FireLd(valid: bool, tag: nat, addr: nat, size: nat, mask: set<nat>, youngest: nat)
  datatype FireSt = FireSt(valid: bool, tag: nat)
  datatype Fwd = Fwd(valid: bool, sleep: bool, ldq: nat, stq: nat)

  datatype State = State(
    ldq: seq<Ld>, lHead: Ptr, lTail: Ptr,
    stq: seq<St>, sHead: Ptr, sTail: Ptr, sRet: Ptr,
    fireLd: FireLd, fireSt: FireSt, fwd: Fwd
  )

  // A dispatch lane: neither memory operation, a load or a store.
  datatype Op = Other | Load | Store

  // The execute packet carries one address: a load's or a store's.
  datatype Exec = NoExec | ExecLoad(tag: nat, addr: nat, size: nat) | ExecStore(tag: nat, addr: nat, size: nat)

  datatype Ret = NoRet | RetLoad(tag: nat) | RetStore(tag: nat)

  datatype Input = Input(
    flush: bool,
    lanes: seq<Op>, exec: Exec, ret: seq<Ret>,
    stReady: bool, ldReady: bool,          // fire_st_ready, fire_ld_ready
    dcValid: bool, dcTag: nat,             // dcache_valid, dcache_ldq_tag
    wbReady: bool
  )

  ghost predicate Wf(s: State) {
    var d := |s.ldq|;
    && d >= 8 && d % 2 == 0 && |s.stq| == d
    && s.lHead.idx < d && s.lTail.idx < d
    && s.sHead.idx < d && s.sTail.idx < d && s.sRet.idx < d
    && s.fireLd.tag < d && s.fireSt.tag < d && s.fwd.ldq < d && s.fwd.stq < d
  }

  ghost predicate WfInput(inp: Input) {
    |inp.lanes| == 4 && |inp.ret| == 4
  }

  // ------------------------------------------------------------- pointers

  function Advance(p: Ptr, cnt: nat, d: nat): (q: Ptr)
    requires d >= 8 && p.idx < d && cnt <= 4
    ensures q.idx < d
  {
    var i := Slot(p.idx, cnt, d);
    Ptr(i, if p.idx >= d / 2 && i < d / 2 then !p.bit else p.bit)
  }

  function Loads(lanes: seq<Op>): (n: nat)
    ensures n <= |lanes|
  {
    if lanes == [] then 0 else Loads(lanes[..|lanes| - 1]) + (if lanes[|lanes| - 1].Load? then 1 else 0)
  }

  function Stores(lanes: seq<Op>): (n: nat)
    ensures n <= |lanes|
  {
    if lanes == [] then 0 else Stores(lanes[..|lanes| - 1]) + (if lanes[|lanes| - 1].Store? then 1 else 0)
  }

  function RetLoads(ret: seq<Ret>): (n: nat)
    ensures n <= |ret|
  {
    if ret == [] then 0 else RetLoads(ret[..|ret| - 1]) + (if ret[|ret| - 1].RetLoad? then 1 else 0)
  }

  function RetStores(ret: seq<Ret>): (n: nat)
    ensures n <= |ret|
  {
    if ret == [] then 0 else RetStores(ret[..|ret| - 1]) + (if ret[|ret| - 1].RetStore? then 1 else 0)
  }

  // Entries between two pointers as the ready logic computes them, negated.
  function Free(h: Ptr, t: Ptr, d: nat): int {
    if h.bit == t.bit then h.idx + d - t.idx else h.idx - t.idx
  }

  // ------------------------------------------------------ store-side wires

  predicate StFire(s: State, inp: Input) {
    s.fireSt.valid && inp.stReady
  }

  function NextRet(s: State, inp: Input): Ptr
    requires Wf(s) && WfInput(inp)
  {
    Advance(s.sRet, RetStores(inp.ret), |s.stq|)
  }

  function NextStHead(s: State, inp: Input): Ptr
    requires Wf(s) && WfInput(inp)
  {
    if inp.flush && s.sHead == NextRet(s, inp) then s.sHead
    else Advance(s.sHead, if StFire(s, inp) then 1 else 0, |s.stq|)
  }

  function NextStTail(s: State, inp: Input): Ptr
    requires Wf(s) && WfInput(inp)
  {
    if inp.flush then (if s.sHead == NextRet(s, inp) then s.sHead else NextRet(s, inp))
    else Advance(s.sTail, Stores(inp.lanes), |s.stq|)
  }

  function NextLdHead(s: State, inp: Input): Ptr
    requires Wf(s) && WfInput(inp)
  {
    Advance(s.lHead, RetLoads(inp.ret), |s.ldq|)
  }

  function NextLdTail(s: State, inp: Input): Ptr
    requires Wf(s) && WfInput(inp)
  {
    Advance(s.lTail, Loads(inp.lanes), |s.ldq|)
  }

  // dispatch_pkt_ready
  predicate Ready(s: State, inp: Input)
    requires Wf(s) && WfInput(inp)
  {
    && Free(NextStHead(s, inp), NextStTail(s, inp), |s.stq|) >= 4
    && Free(NextLdHead(s, inp), NextLdTail(s, inp), |s.ldq|) >= 4
  }

  // dispatch_st_mask: every allocated store slot.
  function ValidStores(s: State): set<nat> {
    set j: nat | j < |s.stq| && s.stq[j].valid
  }

  function Prev(i: nat, d: nat): nat
    requires i < d
  {
    if i == 0 then d - 1 else i - 1
  }

  // dispatch_st_youngest
  function BaseYoungest(s: State): nat
    requires Wf(s)
  {
    if s.sHead == s.sTail then s.sTail.idx else Prev(s.sTail.idx, |s.stq|)
  }

  // dispatch_ldq_st_youngest[k]
  function LaneYoungest(s: State, lanes: seq<Op>, k: nat): (y: nat)
    requires Wf(s) && |lanes| == 4 && k < 4
    ensures y < |s.stq|
  {
    var d := |s.stq|;
    if k == 0 then BaseYoungest(s)
    else
      var sum := Slot(BaseYoungest(s), Stores(lanes[..k]), d);
      if ValidStores(s) != {} then sum else Prev(sum, d)
  }

  // dispatch_ldq_st_mask[k]
  function LaneMask(s: State, lanes: seq<Op>, k: nat): (m: set<nat>)
    requires Wf(s) && |lanes| == 4 && k < 4
  {
    if k == 0 then ValidStores(s)
    else if lanes[k - 1].Store? then LaneMask(s, lanes, k - 1) + {LaneYoungest(s, lanes, k)}
    else LaneMask(s, lanes, k - 1)
  }

  // ------------------------------------------------------- load-side wires

  function Word(addr: nat): nat {
    addr / 4
  }

  predicate Accept(s: State, inp: Input) {
    s.fireLd.valid && inp.ldReady
  }

  predicate FwdFor(s: State, i: nat) {
    s.fwd.valid && i == s.fwd.ldq
  }

  // A store that executes now and is older than load i, to the same word.
  predicate Hits(s: State, inp: Input, i: nat)
    requires i < |s.ldq|
  {
    && inp.exec.ExecStore?
    && Word(s.ldq[i].addr) == Word(inp.exec.addr) && s.ldq[i].addrValid
    && inp.exec.tag in s.ldq[i].mask
  }

  // st_ld_violation_N[i]
  predicate Violation(s: State, inp: Input, i: nat)
    requires i < |s.ldq|
  {
    && Hits(s, inp, i)
    && (s.ldq[i].dataValid || FwdFor(s, i) || s.ldq[i].fired || (Accept(s, inp) && i == s.fireLd.tag))
  }

  // fire_ld_kill[i]
  predicate Kill(s: State, inp: Input, i: nat)
    requires i < |s.ldq|
  {
    || (i == s.fwd.ldq && (s.fwd.valid || s.fwd.sleep))
    || (Violation(s, inp, i) && !s.ldq[i].dataValid)
  }

  // ld_wakeup_N[i]
  predicate Wakeup(s: State, inp: Input, i: nat)
    requires i < |s.ldq|
  {
    && (s.ldq[i].addrValid || (inp.exec.ExecLoad? && i == inp.exec.tag))
    && !s.ldq[i].dataValid && !s.ldq[i].sleep
    && !(s.ldq[i].fired || (Accept(s, inp) && i == s.fireLd.tag))
    && !(FwdFor(s, i) && !s.ldq[i].orderFail)
  }

  predicate FwdAccept(s: State, i: nat)
    requires i < |s.ldq|
  {
    FwdFor(s, i) && !s.ldq[i].orderFail
  }

  predicate DcAccept(s: State, inp: Input, i: nat)
    requires i < |s.ldq|
  {
    inp.dcValid && i == inp.dcTag && !Kill(s, inp, i)
  }

  // Every older unfired store of load i has its address.
  predicate Resolved(s: State, i: nat)
    requires i < |s.ldq|
  {
    forall j <- s.ldq[i].mask :: j < |s.stq| && s.stq[j].addrValid && s.stq[j].valid
  }

  // ld_writeback_N[i]
  predicate WbRequest(s: State, inp: Input, i: nat)
    requires i < |s.ldq|
  {
    && Resolved(s, i)
    && ((s.ldq[i].dataValid && !s.ldq[i].writebacked) || FwdAccept(s, i) || DcAccept(s, inp, i))
  }

  function Wakeups(s: State, inp: Input): (v: seq<bool>)
    ensures |v| == |s.ldq|
  {
    seq(|s.ldq|, i requires 0 <= i < |s.ldq| => Wakeup(s, inp, i))
  }

  function WbRequests(s: State, inp: Input): (v: seq<bool>)
    ensures |v| == |s.ldq|
  {
    seq(|s.ldq|, i requires 0 <= i < |s.ldq| => WbRequest(s, inp, i))
  }

  // writeback_ldq_idx while writeback_valid and writeback_ready are high.
  predicate WritesBack(s: State, inp: Input, oldestFirst: bool, i: nat)
    requires Wf(s) && i < |s.ldq|
  {
    inp.wbReady && WbRequest(s, inp, i) && i == Select.Pick(oldestFirst, WbRequests(s, inp), s.lHead.idx)
  }

  // ----------------------------------------------------------- forwarding

  // Distance from the first to the last byte of an access.
  function Extra(size: nat): nat {
    if size % 4 == 0 then 0 else if size % 4 == 1 then 1 else 3
  }

  // Last byte lane of an access, in two bits.
  function LastLane(addr: nat, size: nat): nat {
    (addr % 4 + Extra(size)) % 4
  }

  // The negation of addr_conflict for a matching store.
  predicate Covers(stAddr: nat, stSize: nat, ldAddr: nat, ldSize: nat) {
    ldAddr % 4 >= stAddr % 4 && LastLane(ldAddr, ldSize) <= LastLane(stAddr, stSize)
  }

  predicate Match(s: State, j: nat)
    requires j < |s.stq|
  {
    && Word(s.fireLd.addr) == Word(s.stq[j].addr)
    && j in s.fireLd.mask && s.fireLd.valid
    && s.stq[j].addrValid && s.stq[j].valid
  }

  function Matches(s: State): (v: seq<bool>)
    ensures |v| == |s.stq|
  {
    seq(|s.stq|, j requires 0 <= j < |s.stq| => Match(s, j))
  }

  function FwdIdx(s: State): (j: nat)
    requires Wf(s)
    ensures j < |s.stq|
  {
    Select.Youngest(Matches(s), s.fireLd.youngest)
  }

  predicate Conflict(s: State)
    requires Wf(s)
  {
    var st := s.stq[FwdIdx(s)];
    Select.Any(Matches(s)) && !Covers(st.addr, st.size, s.fireLd.addr, s.fireLd.size)
  }

  function NextFwd(s: State, inp: Input): Fwd
    requires Wf(s)
  {
    if inp.flush then Fwd(false, false, 0, 0)
    else Fwd(
      s.stq[FwdIdx(s)].dataValid && Select.Any(Matches(s)) && !Conflict(s),
      Conflict(s) && !(StFire(s, inp) && s.fireSt.tag == FwdIdx(s)),
      s.fireLd.tag, FwdIdx(s))
  }

  // ------------------------------------------------------------- the edge

  function NextFireLd(s: State, inp: Input, oldestFirst: bool): (f: FireLd)
    requires Wf(s)
    ensures f.tag < |s.ldq|
  {
    var i := Select.Pick(oldestFirst, Wakeups(s, inp), s.lHead.idx);
    var l := s.ldq[i];
    var addr := if l.addrValid then l.addr else if inp.exec.NoExec? then 0 else inp.exec.addr;
    var size := if l.addrValid then l.size else if inp.exec.NoExec? then 0 else inp.exec.size;
    FireLd(!inp.flush && Wakeup(s, inp, i), i, addr, size, l.mask, l.youngest)
  }

  function NextFireSt(s: State, inp: Input): FireSt {
    FireSt(!inp.flush && !StFire(s, inp) && (exists j | 0 <= j < |s.stq| :: s.stq[j].valid && s.stq[j].retired), s.sHead.idx)
  }

  predicate RetiresStore(inp: Input, j: nat) {
    exists k | 0 <= k < |inp.ret| :: inp.ret[k] == RetStore(j)
  }

  predicate RetiresLoad(inp: Input, i: nat) {
    exists k | 0 <= k < |inp.ret| :: inp.ret[k] == RetLoad(i)
  }

  // One store entry over one edge.
  function StEntry(e: St, flush: bool, alloc: bool, exec: bool, addr: nat, size: nat, retire: bool, fire: bool): St {
    if flush && e.valid && !e.retired && !retire then
      e.(valid := false, addrValid := false, dataValid := false, retired := false)
    else
      St(!fire && (e.valid || alloc),
         if exec then addr else e.addr,
         if exec then size else e.size,
         !fire && (e.addrValid || exec),
         !fire && (e.dataValid || exec),
         !fire && (e.retired || retire))
  }

  function NextSt(s: State, inp: Input, j: nat): St
    requires Wf(s) && WfInput(inp) && j < |s.stq|
  {
    StEntry(s.stq[j], inp.flush,
            Off(s.sTail.idx, j, |s.stq|) < Stores(inp.lanes),
            inp.exec.ExecStore? && inp.exec.tag == j,
            if inp.exec.NoExec? then 0 else inp.exec.addr,
            if inp.exec.NoExec? then 0 else inp.exec.size,
            RetiresStore(inp, j),
            j == s.sHead.idx && StFire(s, inp))
  }

  // The lane that holds the (n + 1)-th load of the group.
  function LoadLane(lanes: seq<Op>, n: nat): (k: nat)
    requires n < Loads(lanes)
    ensures k < |lanes| && lanes[k].Load? && Loads(lanes[..k]) == n
  {
    var m := |lanes| - 1;
    if n < Loads(lanes[..m]) then
      var k := LoadLane(lanes[..m], n);
      assert lanes[..m][..k] == lanes[..k];
      k
    else m
  }

  // Everything one load entry sees of a cycle.
  datatype Wire = Wire(
    alloc: bool, aMask: set<nat>, aYoungest: nat,
    exec: bool, eAddr: nat, eSize: nat,
    stFire: bool, stTag: nat,
    viol: bool, sleep: bool, fwdStq: nat,
    refire: bool, accept: bool, kill: bool,
    fwdData: bool, dcData: bool, wb: bool, retire: bool
  )

  function WireOf(s: State, inp: Input, oldestFirst: bool, i: nat): Wire
    requires Wf(s) && WfInput(inp) && i < |s.ldq|
  {
    var o := Off(s.lTail.idx, i, |s.ldq|);
    var alloc := o < Loads(inp.lanes);
    Wire(
      alloc,
      if alloc then LaneMask(s, inp.lanes, LoadLane(inp.lanes, o)) else {},
      if alloc then LaneYoungest(s, inp.lanes, LoadLane(inp.lanes, o)) else 0,
      inp.exec.ExecLoad? && i == inp.exec.tag,
      if inp.exec.NoExec? then 0 else inp.exec.addr,
      if inp.exec.NoExec? then 0 else inp.exec.size,
      StFire(s, inp), s.fireSt.tag,
      Violation(s, inp, i),
      s.fwd.sleep && i == s.fwd.ldq, s.fwd.stq,
      s.fireLd.valid && i == s.fireLd.tag,
      Accept(s, inp) && i == s.fireLd.tag,
      Kill(s, inp, i),
      FwdAccept(s, i), DcAccept(s, inp, i),
      WritesBack(s, inp, oldestFirst, i),
      RetiresLoad(inp, i))
  }

  // One load entry over one edge without a flush; where the clocked block
  // assigns a field twice the later assignment stands.
  function NextLd(l: Ld, w: Wire): Ld {
    var doze := w.sleep && !(w.stFire && w.stTag == w.fwdStq);
    Ld(
      !w.retire && (l.valid || w.alloc),
      if w.exec then w.eAddr else l.addr,
      if w.exec then w.eSize else l.size,
      !w.retire && (l.addrValid || w.exec),
      !w.retire && !w.viol && (l.dataValid || w.fwdData || w.dcData),
      !w.retire && (l.writebacked || w.wb),
      !w.retire && !w.viol && (if w.accept then !w.kill else if w.sleep then false else l.fired),
      if w.viol then true else if w.refire && !w.kill then false else l.orderFail,
      if w.viol then false else if w.sleep then doze else if w.stFire && w.stTag == l.fwdStq then false else l.sleep,
      if !w.viol && doze then w.fwdStq else l.fwdStq,
      if w.retire then {} else (if w.alloc then w.aMask else l.mask) - (if w.stFire then {w.stTag} else {}),
      if w.alloc then w.aYoungest else l.youngest)
  }

  function Cleared(l: Ld): Ld {
    Ld(false, l.addr, l.size, false, false, false, false, false, false, 0, {}, 0)
  }

  function NextLdq(s: State, inp: Input, oldestFirst: bool): (q: seq<Ld>)
    requires Wf(s) && WfInput(inp)
    ensures |q| == |s.ldq|
  {
    seq(|s.ldq|, i requires 0 <= i < |s.ldq| =>
      if inp.flush then Cleared(s.ldq[i]) else NextLd(s.ldq[i], WireOf(s, inp, oldestFirst, i)))
  }

  function NextStq(s: State, inp: Input): (q: seq<St>)
    requires Wf(s) && WfInput(inp)
    ensures |q| == |s.stq|
  {
    seq(|s.stq|, j requires 0 <= j < |s.stq| => NextSt(s, inp, j))
  }

  function Next(s: State, inp: Input, oldestFirst: bool): (s': State)
    requires Wf(s) && WfInput(inp)
    ensures Wf(s') && |s'.ldq| == |s.ldq|
  {
    State(
      NextLdq(s, inp, oldestFirst),
      if inp.flush then Ptr(0, false) else NextLdHead(s, inp),
      if inp.flush then Ptr(0, false) else NextLdTail(s, inp),
      NextStq(s, inp), NextStHead(s, inp), NextStTail(s, inp), NextRet(s, inp),
      NextFireLd(s, inp, oldestFirst), NextFireSt(s, inp), NextFwd(s, inp))
  }

  const EMPTY_LD := Ld(false, 0, 0, false, false, false, false, false, false, 0, {}, 0)
  const EMPTY_ST := St(false, 0, 0, false, false, false)

  function Reset(d: nat): State {
    State(seq(d, i => EMPTY_LD), Ptr(0, false), Ptr(0, false),
          seq(d, j => EMPTY_ST), Ptr(0, false), Ptr(0, false), Ptr(0, false),
          FireLd(false, 0, 0, 0, {}, 0), FireSt(false, 0), Fwd(false, false, 0, 0))
  }
}
