/**
  The slots answered to the lanes of a dispatched group: the case tables of
  dispatch_resp, one row for each pattern of valid lanes, against the slots that
  the entries really take.
 */
module LsqDispatch {
  import opened Lsq
  import opened LsqQueue
  import opened LsqOrder
  import opened Ring

  // dispatch_resp, the same table in both queues; v[k] is dispatch_valid[k].
  function DispatchResp(v: seq<bool>, tail: nat, d: nat): (r: seq<nat>)
    requires |v| == 4 && d >= 8 && tail < d
    ensures |r| == 4
  {
    var p0, p1, p2, p3 := tail, Slot(tail, 1, d), Slot(tail, 2, d), Slot(tail, 3, d);
    match (v[3], v[2], v[1], v[0])
    case (false, false, false, true) => [p0, 0, 0, 0]
    case (false, false, true, false) => [0, p0, 0, 0]
    case (false, true, false, false) => [0, 0, p0, 0]
    case (true, false, false, false) => [0, 0, 0, p0]
    case (false, false, true, true) => [p0, p1, 0, 0]
    case (false, true, false, true) => [p0, 0, p1, 0]
    case (true, false, false, true) => [p0, 0, 0, p1]
    case (false, true, true, false) => [0, p0, p1, 0]
    case (true, false, true, false) => [0, p0, 0, p1]
    case (true, true, false, false) => [0, 0, p0, p1]
    case (false, true, true, true) => [p0, p1, p2, 0]
    case (true, false, true, true) => [p0, p1, 0, p2]
    case (true, true, false, true) => [p0, 0, p1, p2]
    case (true, true, true, false) => [0, p0, p1, p2]
    case (true, true, true, true) => [p0, p1, p2, p3]
    case (false, false, false, false) => [0, 0, 0, 0]
  }

  function LoadValid(lanes: seq<Op>): (v: seq<bool>)
    ensures |v| == |lanes|
  {
    seq(|lanes|, k requires 0 <= k < |lanes| => lanes[k].Load?)
  }

  function StoreValid(lanes: seq<Op>): (v: seq<bool>)
    ensures |v| == |lanes|
  {
    seq(|lanes|, k requires 0 <= k < |lanes| => lanes[k].Store?)
  }

  // Valid lanes below lane k.
  function Below(v: seq<bool>, k: nat): (n: nat)
    requires k <= |v|
    ensures n <= k
  {
    if k == 0 then 0 else Below(v, k - 1) + (if v[k - 1] then 1 else 0)
  }

  lemma RespIsTail(v: seq<bool>, tail: nat, d: nat, k: nat)
    requires |v| == 4 && d >= 8 && tail < d && k < 4 && v[k]
    ensures DispatchResp(v, tail, d)[k] == Slot(tail, Below(v, k), d)
  {
    assert Below(v, 1) == if v[0] then 1 else 0;
    assert Below(v, 2) == Below(v, 1) + if v[1] then 1 else 0;
    assert Below(v, 3) == Below(v, 2) + if v[2] then 1 else 0;
  }

  lemma {:induction false} LoadsBelow(lanes: seq<Op>, k: nat)
    requires k <= |lanes|
    ensures Below(LoadValid(lanes), k) == Loads(lanes[..k])
  {
    if k > 0 {
      LoadsBelow(lanes, k - 1);
      assert lanes[..k][..k - 1] == lanes[..k - 1];
    }
  }

  lemma {:induction false} StoresBelowLane(lanes: seq<Op>, k: nat)
    requires k <= |lanes|
    ensures Below(StoreValid(lanes), k) == Stores(lanes[..k])
  {
    if k > 0 {
      StoresBelowLane(lanes, k - 1);
      StoresSnoc(lanes, k);
    }
  }

  lemma {:induction false} LoadLaneOf(lanes: seq<Op>, k: nat)
    requires k < |lanes| && lanes[k].Load?
    ensures Loads(lanes[..k]) < Loads(lanes) && LoadLane(lanes, Loads(lanes[..k])) == k
    decreases |lanes|
  {
    var m := |lanes| - 1;
    if k < m {
      LoadLaneOf(lanes[..m], k);
      assert lanes[..m][..k] == lanes[..k];
    }
  }

  lemma {:induction false} StoreLaneOf(lanes: seq<Op>, k: nat)
    requires k < |lanes| && lanes[k].Store?
    ensures Stores(lanes[..k]) < Stores(lanes)
    decreases |lanes|
  {
    var m := |lanes| - 1;
    if k < m {
      StoreLaneOf(lanes[..m], k);
      assert lanes[..m][..k] == lanes[..k];
    }
  }

  // The load queue slot answered to a load's lane is the one that is allocated
  // with that lane's mask and youngest store.
  lemma LoadRespIsAllocated(s: State, inp: Input, oldestFirst: bool, k: nat)
    requires Wf(s) && WfInput(inp) && k < 4 && inp.lanes[k].Load?
    ensures var j := DispatchResp(LoadValid(inp.lanes), s.lTail.idx, |s.ldq|)[k];
      && j < |s.ldq|
      && var w := WireOf(s, inp, oldestFirst, j);
         w.alloc && w.aMask == LaneMask(s, inp.lanes, k) && w.aYoungest == LaneYoungest(s, inp.lanes, k)
  {
    RespIsTail(LoadValid(inp.lanes), s.lTail.idx, |s.ldq|, k);
    LoadsBelow(inp.lanes, k);
    LoadLaneOf(inp.lanes, k);
    SlotOff(s.lTail.idx, Loads(inp.lanes[..k]), |s.ldq|);
  }

  lemma SlotOff(ptr: nat, k: nat, d: nat)
    requires ptr < d && k < d
    ensures Off(ptr, Slot(ptr, k, d), d) == k
  {
  }

  // The store queue slot answered to a store's lane is free, is allocated, and
  // gets the number that the lane has in program order.
  lemma StoreRespIsAllocated(s: State, inp: Input, oldestFirst: bool, base: nat, k: nat)
    requires StqInv(s) && LdqInv(s) && EnvOk(s, inp) && !inp.flush && k < 4 && inp.lanes[k].Store?
    ensures var j := DispatchResp(StoreValid(inp.lanes), s.sTail.idx, |s.stq|)[k];
      && j < |s.stq| && !s.stq[j].valid && NextSt(s, inp, j).valid
      && Number(Next(s, inp, oldestFirst), base + Fired(s, inp), j) == NextNumber(s, base, inp.lanes, k)
  {
    hide Next;
    RespIsTail(StoreValid(inp.lanes), s.sTail.idx, |s.stq|, k);
    StoresBelowLane(inp.lanes, k);
    StoreLaneOf(inp.lanes, k);
    SlotOff(s.sTail.idx, Stores(inp.lanes[..k]), |s.stq|);
    var j := Slot(s.sTail.idx, Stores(inp.lanes[..k]), |s.stq|);
    NumberAtDispatch(s, inp, base, j);
    NumberAfterIs(s, inp, oldestFirst, base, j);
    StoreEvents(s, inp, j);
  }
}
