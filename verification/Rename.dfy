/**
  The rename tables: speculative map (verilog/rat.sv), free list
  (verilog/free_list.sv) and committed map (verilog/arch_rat.sv), as next-state
  functions that follow the wires and the order of the clocked assignments. Each
  is then shown to make the matching move in the ledger.
 */
module Rename {
  import opened Rob
  import opened Ledger
  import Psel

  // A decoded instruction in one lane. rd is set when the destination select
  // says "rd"; the decoder gives arn 0 otherwise, and selects no destination in
  // an invalid lane (verilog/decoder.sv).
  datatype Dec = Dec(valid: bool, rd: bool, arn: nat, src1: nat, src2: nat, use1: bool, use2: bool,
                     pc: nat, branch: bool, exc: Exception, nop: bool)

  const NO_DEC := Dec(false, false, 0, 0, 0, false, false, 0, false, NO_ERROR, false)
  const NO_LANE := Lane(false, NO_UOP, false)
  const NO_RETIRE := Retire(false, NO_UOP, false, 0)

  ghost predicate WfDec(l: Dec, a: nat) {
    && l.arn < a && l.src1 < a && l.src2 < a
    && (!l.rd ==> l.arn == 0)
    && (!l.valid ==> !l.rd)
    && (l.nop || l.exc != NO_ERROR ==> l.arn == 0)
  }

  // The four lanes share one selector with four lines.
  ghost predicate WfGroup(dec: seq<Dec>, gs: seq<Psel.Grant>, a: nat) {
    && |dec| == |gs| && a > 0
    && (forall k | 0 <= k < |dec| :: WfDec(dec[k], a))
  }

  // ---------------------------------------------------------- retirement

  function RetOps(ret: seq<Retire>): (us: seq<Uop>)
    ensures |us| <= |ret|
    ensures forall u :: u in us <==> exists k :: 0 <= k < |ret| && ret[k].valid && ret[k].op == u
  {
    if ret == [] then []
    else
      var n := |ret| - 1;
      var front := RetOps(ret[..n]);
      assert forall k | 0 <= k < n :: ret[..n][k] == ret[k];
      front + (if ret[n].valid then [ret[n].op] else [])
  }

  // arch_rat: the last valid lane that names register i wins.
  function ArchAt(arch: seq<nat>, ret: seq<Retire>, k: nat, i: nat): nat
    requires k <= |ret| && i < |arch|
  {
    if k == 0 then arch[i]
    else if ret[k - 1].valid && i == ret[k - 1].op.arn && i != 0 then ret[k - 1].op.prn
    else ArchAt(arch, ret, k - 1, i)
  }

  function NextArch(arch: seq<nat>, ret: seq<Retire>): (arch': seq<nat>)
    ensures |arch'| == |arch|
  {
    seq(|arch|, i requires 0 <= i < |arch| => ArchAt(arch, ret, |ret|, i))
  }

  function ArchAfter(arch: seq<nat>, ret: seq<Retire>, k: nat): (m: seq<nat>)
    requires k <= |ret|
    ensures |m| == |arch|
  {
    seq(|arch|, i requires 0 <= i < |arch| => ArchAt(arch, ret, k, i))
  }

  lemma ArchLane(arch: seq<nat>, ret: seq<Retire>, k: nat)
    requires 0 < k <= |ret| && (ret[k - 1].valid ==> ret[k - 1].op.arn < |arch|)
    ensures ArchAfter(arch, ret, k) ==
      if ret[k - 1].valid then Apply(ArchAfter(arch, ret, k - 1), ret[k - 1].op) else ArchAfter(arch, ret, k - 1)
  {
  }

  lemma RetOpsLane(ret: seq<Retire>, k: nat)
    requires 0 < k <= |ret|
    ensures RetOps(ret[..k]) == if ret[k - 1].valid then RetOps(ret[..k - 1]) + [ret[k - 1].op] else RetOps(ret[..k - 1])
    ensures ret[k - 1].valid ==> ret[k - 1].op in RetOps(ret[..k])
    ensures forall u | u in RetOps(ret[..k - 1]) :: u in RetOps(ret[..k])
  {
    assert ret[..k][..k - 1] == ret[..k - 1];
  }

  lemma {:induction false} ArchIsFold(arch: seq<nat>, ret: seq<Retire>, k: nat)
    requires k <= |ret| && InRange(RetOps(ret[..k]), |arch|)
    ensures ArchAfter(arch, ret, k) == Fold(arch, RetOps(ret[..k]))
  {
    if k == 0 {
      assert ArchAfter(arch, ret, 0) == arch;
    } else {
      hide RetOps, ArchAfter, ArchAt;
      RetOpsLane(ret, k);
      ArchIsFold(arch, ret, k - 1);
      ArchLane(arch, ret, k);
      if ret[k - 1].valid {
        FoldSnoc(arch, RetOps(ret[..k - 1]), ret[k - 1].op);
      }
    }
  }

  // The committed map moves by exactly the retiring instructions, in order.
  lemma NextArchIsFold(arch: seq<nat>, ret: seq<Retire>)
    requires InRange(RetOps(ret), |arch|)
    ensures NextArch(arch, ret) == Fold(arch, RetOps(ret))
  {
    assert ret[..|ret|] == ret && NextArch(arch, ret) == ArchAfter(arch, ret, |ret|);
    ArchIsFold(arch, ret, |ret|);
  }

  predicate Returns(ret: seq<Retire>, p: nat) {
    p != 0 && exists k | 0 <= k < |ret| :: ret[k].valid && ret[k].op.prev == p
  }

  // free_list_retire_fwd
  function Forwarded(free: seq<bool>, ret: seq<Retire>): (f: seq<bool>)
    ensures |f| == |free|
  {
    seq(|free|, p requires 0 <= p < |free| => free[p] || Returns(ret, p))
  }

  lemma {:induction false} ReleaseAllAt(free: seq<bool>, us: seq<Uop>, p: nat)
    requires p < |free|
    ensures ReleaseAll(free, us)[p] <==> free[p] || (p != 0 && exists u :: u in us && u.prev == p)
    decreases us
  {
    if us != [] {
      ReleaseAllAt(Release(free, us[0].prev), us[1..], p);
      assert forall u :: u in us <==> u == us[0] || u in us[1..];
      assert us[0] in us;
    }
  }

  lemma ForwardedIsRelease(free: seq<bool>, ret: seq<Retire>)
    ensures Forwarded(free, ret) == ReleaseAll(free, RetOps(ret))
  {
    var us := RetOps(ret);
    forall p | 0 <= p < |free|
      ensures Forwarded(free, ret)[p] == ReleaseAll(free, us)[p]
    {
      ReleaseAllAt(free, us, p);
      if Returns(ret, p) {
        var k :| 0 <= k < |ret| && ret[k].valid && ret[k].op.prev == p;
        assert ret[k].op in us;
      }
    }
  }

  // -------------------------------------------------------------- rename

  predicate HasDest(l: Dec) {
    l.rd && l.arn != 0
  }

  function Prn(g: Psel.Grant): nat {
    if g.Some? then g.idx else 0
  }

  // next_pr_dest
  function Dest(dec: seq<Dec>, gs: seq<Psel.Grant>, k: nat): nat
    requires |dec| == |gs| && k < |dec|
  {
    if HasDest(dec[k]) then Prn(gs[k]) else 0
  }

  // next_pr_dest_prev: the youngest elder lane below j with the same
  // destination, else the map.
  function PrevFrom(rat: seq<nat>, dec: seq<Dec>, gs: seq<Psel.Grant>, k: nat, j: nat): nat
    requires |dec| == |gs| && j <= k < |dec| && dec[k].arn < |rat|
  {
    if !dec[k].rd then 0
    else if j == 0 then rat[dec[k].arn]
    else if dec[j - 1].rd && dec[k].arn == dec[j - 1].arn then Dest(dec, gs, j - 1)
    else PrevFrom(rat, dec, gs, k, j - 1)
  }

  function RenamedOp(rat: seq<nat>, dec: seq<Dec>, gs: seq<Psel.Grant>, k: nat): Uop
    requires |dec| == |gs| && k < |dec| && dec[k].arn < |rat|
  {
    Uop(dec[k].pc, dec[k].arn, Dest(dec, gs, k), PrevFrom(rat, dec, gs, k, k), dec[k].branch, dec[k].exc)
  }

  function RenamedLanes(rat: seq<nat>, dec: seq<Dec>, gs: seq<Psel.Grant>): (ls: seq<Lane>)
    requires WfGroup(dec, gs, |rat|)
    ensures |ls| == |dec|
  {
    seq(|dec|, k requires 0 <= k < |dec| => Lane(dec[k].valid, RenamedOp(rat, dec, gs, k), dec[k].nop))
  }

  // free_prn_ready under a fully ready back end.
  predicate Takes(dec: seq<Dec>, k: nat)
    requires k < |dec|
  {
    HasDest(dec[k]) && dec[k].valid
  }

  // rat: the last lane that takes a register for i wins.
  function RatAt(rat: seq<nat>, dec: seq<Dec>, gs: seq<Psel.Grant>, k: nat, i: nat): nat
    requires |dec| == |gs| && k <= |dec| && i < |rat|
  {
    if k == 0 then rat[i]
    else if gs[k - 1].Some? && Takes(dec, k - 1) && i == dec[k - 1].arn then gs[k - 1].idx
    else RatAt(rat, dec, gs, k - 1, i)
  }

  function RatAfter(rat: seq<nat>, dec: seq<Dec>, gs: seq<Psel.Grant>, k: nat): (r: seq<nat>)
    requires |dec| == |gs| && k <= |dec|
    ensures |r| == |rat|
  {
    seq(|rat|, i requires 0 <= i < |rat| => RatAt(rat, dec, gs, k, i))
  }

  function NextRat(rat: seq<nat>, dec: seq<Dec>, gs: seq<Psel.Grant>): (r: seq<nat>)
    requires |dec| == |gs|
    ensures |r| == |rat|
  {
    RatAfter(rat, dec, gs, |dec|)
  }

  predicate TakenNow(dec: seq<Dec>, gs: seq<Psel.Grant>, p: nat)
    requires |dec| == |gs|
  {
    exists k | 0 <= k < |dec| :: gs[k] == Psel.Some(p) && Takes(dec, k)
  }

  // The free list's clocked block outside recovery: the grants are the last
  // assignments, so they win over a register that comes back this cycle.
  function NextFree(free: seq<bool>, ret: seq<Retire>, dec: seq<Dec>, gs: seq<Psel.Grant>, ready: bool): (f: seq<bool>)
    requires |dec| == |gs|
    ensures |f| == |free|
  {
    seq(|free|, p requires 0 <= p < |free| =>
      if ready && TakenNow(dec, gs, p) then false else if Returns(ret, p) then true else free[p])
  }

  // ------------------------------------------------- rename is ledger moves

  function Ops(lanes: seq<Lane>): (us: seq<Uop>)
    ensures |us| == LaneCount(lanes)
    ensures forall u :: u in us <==> exists k :: 0 <= k < |lanes| && lanes[k].valid && lanes[k].op == u
  {
    if lanes == [] then []
    else
      var n := |lanes| - 1;
      var front := Ops(lanes[..n]);
      assert forall k | 0 <= k < n :: lanes[..n][k] == lanes[k];
      front + (if lanes[n].valid then [lanes[n].op] else [])
  }

  lemma {:induction false} EntriesAreOps(lanes: seq<Lane>, k: nat)
    requires k < LaneCount(lanes)
    ensures NewEntries(lanes)[k].op == Ops(lanes)[k]
  {
    var n := |lanes| - 1;
    if k < LaneCount(lanes[..n]) {
      EntriesAreOps(lanes[..n], k);
    }
  }

  // What the tables rely on when a group is accepted: distinct free registers,
  // one for every lane.
  ghost predicate Granted(gs: seq<Psel.Grant>, f: seq<bool>) {
    && (forall k | 0 <= k < |gs| :: gs[k].Some? && 0 < gs[k].idx < |f| && f[gs[k].idx])
    && (forall j, k | 0 <= j < k < |gs| :: gs[j] != gs[k])
  }

  lemma {:induction false} TakeAllAt(free: seq<bool>, us: seq<Uop>, p: nat)
    requires p < |free|
    ensures TakeAll(free, us)[p] <==> free[p] && forall u | u in us :: u.prn == 0 || u.prn != p
    decreases us
  {
    if us != [] {
      TakeAllAt(TakeOne(free, us[0]), us[1..], p);
      assert forall u :: u in us <==> u == us[0] || u in us[1..];
    }
  }

  lemma {:induction false} FreshAppend(m: seq<nat>, us: seq<Uop>, f: seq<bool>, u: Uop)
    requires InRange(us, |m|) && FreshFrom(m, us, f)
    requires Renamed(Fold(m, us), u)
    requires u.prn != 0 ==> u.prn < |f| && TakeAll(f, us)[u.prn]
    ensures FreshFrom(m, us + [u], f)
    decreases us
  {
    if us == [] {
      assert us + [u] == [u];
    } else {
      assert (us + [u])[1..] == us[1..] + [u];
      FreshAppend(Apply(m, us[0]), us[1..], TakeOne(f, us[0]), u);
    }
  }

  // The lanes below k, renamed.
  function OpsBelow(rat: seq<nat>, dec: seq<Dec>, gs: seq<Psel.Grant>, k: nat): (us: seq<Uop>)
    requires WfGroup(dec, gs, |rat|) && k <= |dec|
  {
    Ops(RenamedLanes(rat, dec, gs)[..k])
  }

  lemma OpsBelowStep(rat: seq<nat>, dec: seq<Dec>, gs: seq<Psel.Grant>, k: nat)
    requires WfGroup(dec, gs, |rat|) && k < |dec|
    ensures OpsBelow(rat, dec, gs, k + 1) ==
      if dec[k].valid then OpsBelow(rat, dec, gs, k) + [RenamedOp(rat, dec, gs, k)] else OpsBelow(rat, dec, gs, k)
  {
    var ls := RenamedLanes(rat, dec, gs);
    assert ls[..k + 1][..k] == ls[..k];
  }

  lemma OpsBelowInRange(rat: seq<nat>, dec: seq<Dec>, gs: seq<Psel.Grant>, k: nat)
    requires WfGroup(dec, gs, |rat|) && k <= |dec|
    ensures InRange(OpsBelow(rat, dec, gs, k), |rat|)
  {
  }

  lemma RatStep(rat: seq<nat>, dec: seq<Dec>, gs: seq<Psel.Grant>, f: seq<bool>, k: nat)
    requires WfGroup(dec, gs, |rat|) && k < |dec| && Granted(gs, f)
    ensures RatAfter(rat, dec, gs, k + 1) ==
      if dec[k].valid then Apply(RatAfter(rat, dec, gs, k), RenamedOp(rat, dec, gs, k)) else RatAfter(rat, dec, gs, k)
  {
  }

  // The speculative map after k lanes is the map those instructions leave.
  lemma {:induction false} RatIsFold(rat: seq<nat>, dec: seq<Dec>, gs: seq<Psel.Grant>, f: seq<bool>, k: nat)
    requires WfGroup(dec, gs, |rat|) && k <= |dec| && Granted(gs, f)
    ensures InRange(OpsBelow(rat, dec, gs, k), |rat|)
    ensures RatAfter(rat, dec, gs, k) == Fold(rat, OpsBelow(rat, dec, gs, k))
  {
    OpsBelowInRange(rat, dec, gs, k);
    if k == 0 {
      assert OpsBelow(rat, dec, gs, 0) == [];
      assert RatAfter(rat, dec, gs, 0) == rat;
    } else {
      var us, u := OpsBelow(rat, dec, gs, k - 1), RenamedOp(rat, dec, gs, k - 1);
      RatIsFold(rat, dec, gs, f, k - 1);
      OpsBelowStep(rat, dec, gs, k - 1);
      RatStep(rat, dec, gs, f, k - 1);
      FoldSnoc(rat, us, u);
    }
  }

  // The intra-group check finds what the map would say after the elder lanes.
  lemma {:induction false} PrevIsRat(rat: seq<nat>, dec: seq<Dec>, gs: seq<Psel.Grant>, f: seq<bool>, k: nat, j: nat)
    requires WfGroup(dec, gs, |rat|) && j <= k < |dec| && Granted(gs, f)
    requires HasDest(dec[k])
    ensures PrevFrom(rat, dec, gs, k, j) == RatAt(rat, dec, gs, j, dec[k].arn)
  {
    if j > 0 {
      PrevIsRat(rat, dec, gs, f, k, j - 1);
    }
  }

  lemma ZeroStays(rat: seq<nat>, dec: seq<Dec>, gs: seq<Psel.Grant>, k: nat, j: nat)
    requires WfGroup(dec, gs, |rat|) && j <= k < |dec| && rat[0] == 0
    requires dec[k].arn == 0
    ensures PrevFrom(rat, dec, gs, k, j) == 0
  {
  }

  ghost predicate FromGrants(us: seq<Uop>, gs: seq<Psel.Grant>, k: nat)
    requires k <= |gs|
  {
    forall u | u in us :: u.prn == 0 || Psel.Some(u.prn) in gs[..k]
  }

  // Lane k, after its elders us, is well renamed and its register is untaken.
  lemma LaneIsFresh(rat: seq<nat>, dec: seq<Dec>, gs: seq<Psel.Grant>, f: seq<bool>, k: nat)
    requires WfGroup(dec, gs, |rat|) && k < |dec| && Granted(gs, f) && rat[0] == 0
    requires InRange(OpsBelow(rat, dec, gs, k), |rat|)
    requires FromGrants(OpsBelow(rat, dec, gs, k), gs, k)
    ensures var us, u := OpsBelow(rat, dec, gs, k), RenamedOp(rat, dec, gs, k);
      && Renamed(Fold(rat, us), u)
      && (u.prn != 0 ==> u.prn < |f| && TakeAll(f, us)[u.prn] && gs[k] == Psel.Some(u.prn))
  {
    var us, u := OpsBelow(rat, dec, gs, k), RenamedOp(rat, dec, gs, k);
    RatIsFold(rat, dec, gs, f, k);
    if HasDest(dec[k]) {
      PrevIsRat(rat, dec, gs, f, k, k);
      assert u.prev == RatAfter(rat, dec, gs, k)[u.arn];
      TakeAllAt(f, us, u.prn);
    } else {
      ZeroStays(rat, dec, gs, k, k);
    }
  }

  lemma {:induction false} GroupIsFresh(rat: seq<nat>, dec: seq<Dec>, gs: seq<Psel.Grant>, f: seq<bool>, k: nat)
    requires WfGroup(dec, gs, |rat|) && k <= |dec| && Granted(gs, f) && rat[0] == 0
    ensures FreshFrom(rat, OpsBelow(rat, dec, gs, k), f)
    ensures FromGrants(OpsBelow(rat, dec, gs, k), gs, k)
  {
    if k == 0 {
      assert OpsBelow(rat, dec, gs, 0) == [];
    } else {
      var us, u := OpsBelow(rat, dec, gs, k - 1), RenamedOp(rat, dec, gs, k - 1);
      OpsBelowStep(rat, dec, gs, k - 1);
      GroupIsFresh(rat, dec, gs, f, k - 1);
      OpsBelowInRange(rat, dec, gs, k - 1);
      LaneIsFresh(rat, dec, gs, f, k - 1);
      FreshAppend(rat, us, f, u);
      GrantsGrow(us, u, gs, k - 1);
    }
  }

  lemma GrantsGrow(us: seq<Uop>, u: Uop, gs: seq<Psel.Grant>, k: nat)
    requires k < |gs| && FromGrants(us, gs, k)
    requires u.prn == 0 || gs[k] == Psel.Some(u.prn)
    ensures FromGrants(us, gs, k + 1) && FromGrants(us + [u], gs, k + 1)
  {
    assert gs[..k + 1] == gs[..k] + [gs[k]];
  }

  // An accepted group leaves the free list as the ledger says.
  lemma NextFreeIsTake(free: seq<bool>, ret: seq<Retire>, rat: seq<nat>, dec: seq<Dec>, gs: seq<Psel.Grant>)
    requires WfGroup(dec, gs, |rat|) && Granted(gs, Forwarded(free, ret))
    ensures NextFree(free, ret, dec, gs, true) == TakeAll(Forwarded(free, ret), Ops(RenamedLanes(rat, dec, gs)))
  {
    var us := Ops(RenamedLanes(rat, dec, gs));
    forall p | 0 <= p < |free|
      ensures NextFree(free, ret, dec, gs, true)[p] == TakeAll(Forwarded(free, ret), us)[p]
    {
      TakeAllAt(Forwarded(free, ret), us, p);
      if TakenNow(dec, gs, p) {
        var k :| 0 <= k < |dec| && gs[k] == Psel.Some(p) && Takes(dec, k);
        assert RenamedLanes(rat, dec, gs)[k].op in us;
      }
    }
  }

  lemma NextFreeIdle(free: seq<bool>, ret: seq<Retire>, dec: seq<Dec>, gs: seq<Psel.Grant>)
    requires |dec| == |gs|
    ensures NextFree(free, ret, dec, gs, false) == Forwarded(free, ret)
  {
  }
}
