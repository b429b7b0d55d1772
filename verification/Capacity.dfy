/**
  The capacity bound is tight: with one physical register fewer than the
  committed map, a full reorder buffer and one group need, some run reaches a
  group that is accepted although a lane with a destination gets no register.
  The run first names every architectural register, then fills the buffer, and
  then retires four instructions while four new ones are accepted.
 */
module Capacity {
  import R = Rob
  import Ring
  import opened Rename
  import opened Ledger
  import F = RobFifo
  import Psel
  import opened Backend
  import opened Conservation
  import opened BackendRuns

  // An accepted group in which a lane that needs a register gets none.
  predicate Starves(s: State, inp: Input)
    requires Wf(s) && WfInput(inp)
  {
    !s.recov && RenameReady(s, inp) && exists k | 0 <= k < 4 :: Takes(Decoded(inp), k) && Grants(s)[k].None?
  }

  lemma FewGrants(req: seq<bool>)
    requires |Psel.Requests(req)| < 4
    ensures exists k :: 0 <= k < 4 && Psel.Grants(req)[k].None?
  {
    var gs := Psel.Grants(req);
    if forall k | 0 <= k < 4 :: gs[k].Some? {
      Psel.GrantsDistinct(req);
      var four := {gs[0].idx, gs[1].idx, gs[2].idx, gs[3].idx};
      assert |four| == 4;
      Psel.SubsetSize(four, Psel.Requests(req));
    }
  }

  lemma NoSupplyStarves(s: State, inp: Input)
    requires Inv(s) && !s.recov && WfInput(inp) && !Supplied(s, inp)
    requires forall k | 0 <= k < 4 :: Takes(Decoded(inp), k)
    ensures Starves(s, inp)
  {
    var f := Forwarded(s.free, s.ret);
    RetireBalances(s);
    Psel.GrantsDistinct(f);
    if forall k | 0 <= k < 4 :: Grants(s)[k].Some? {
      forall k | 0 <= k < 4
        ensures 0 < Grants(s)[k].idx < |f| && f[Grants(s)[k].idx]
      {
        assert Grants(s)[k].idx in Psel.Requests(f);
      }
    }
  }

  // ---------------------------------------------------------------- counting

  lemma {:induction false} ElemsExact(h: seq<nat>)
    requires forall i, j | 0 <= i < j < |h| :: h[i] != h[j]
    ensures |Elems(h)| == |h|
  {
    if h != [] {
      assert forall i | 0 <= i < |h[1..]| :: h[1..][i] == h[i + 1];
      ElemsExact(h[1..]);
      assert Elems(h) == Elems(h[1..]) + {h[0]};
    }
  }

  // With every architectural register named and a destination in every
  // instruction, the ledger leaves exactly this many registers free.
  lemma FreeExact(m: seq<nat>, us: seq<R.Uop>, free: seq<bool>)
    requires Balanced(m, us, free)
    requires forall i | 0 < i < |m| :: m[i] != 0
    requires forall u | u in us :: u.prn != 0
    ensures |Free(free)| == |free| - |m| - |us|
  {
    hide UpTo;
    var h, all := Held(m, us), UpTo(|free|);
    forall i, j | 0 <= i < j < |h|
      ensures h[i] != h[j]
    {
      assert j >= |m| ==> us[j - |m|] in us;
    }
    ElemsExact(h);
    assert m[0] == h[0];
    assert all == Free(free) + Elems(h);
    assert Free(free) !! Elems(h);
  }

  // Writers of one register move its entry, off zero, and no other.
  lemma {:induction false} FoldSame(m: seq<nat>, us: seq<R.Uop>, x: nat)
    requires 0 < x < |m| && us != [] && InRange(us, |m|)
    requires forall u | u in us :: u.arn == x && u.prn != 0
    ensures Fold(m, us)[x] != 0
    ensures forall i | 0 <= i < |m| && i != x :: Fold(m, us)[i] == m[i]
    decreases us
  {
    var m' := Apply(m, us[0]);
    assert us[0] in us && m' == m[x := us[0].prn];
    if us[1..] != [] {
      FoldSame(m', us[1..], x);
    }
  }

  // ------------------------------------------------------------- calm states

  predicate PlainOp(u: R.Uop) {
    u.prn != 0 && !u.branch && u.exc == R.NO_ERROR
  }

  predicate PlainEntry(e: R.Entry) {
    !e.misp && PlainOp(e.op)
  }

  // Every instruction writes a register, none is a branch, none goes wrong.
  ghost predicate Calm(s: State) {
    && Inv(s) && !s.recov && !s.sysExc && !s.rob.brMisp
    && (forall e | e in F.Window(s.rob) :: PlainEntry(e))
    && (forall k | 0 <= k < 4 :: s.ren[k].valid ==> PlainOp(s.ren[k].op) && !s.ren[k].nop)
    && (forall k | 0 <= k < 4 :: s.ret[k].valid ==> PlainOp(s.ret[k].op) && !s.ret[k].misp)
  }

  // A cycle that fetches nothing or four writers of one register.
  function Writer(x: nat): Dec {
    Dec(true, true, x, 0, 0, false, false, 0, false, R.NO_ERROR, false)
  }

  function Silent(): (wb: seq<R.Writeback>)
    ensures |wb| == 7
  {
    seq(7, w => R.Writeback(false, R.Tag(false, 0)))
  }

  function Fetch(x: nat): Input {
    Input([Writer(x), Writer(x), Writer(x), Writer(x)], true, true, true, Silent(), false, 0)
  }

  function Wait(): Input {
    Input([NO_DEC, NO_DEC, NO_DEC, NO_DEC], true, true, false, Silent(), false, 0)
  }

  // The four oldest instructions complete.
  function Finish(s: R.State): Input
    requires R.Wf(s)
  {
    Wait().(wb := seq(7, w requires 0 <= w < 7 =>
      if w < 4 then R.Writeback(true, R.Tag(false, Ring.Slot(s.head, w, |s.entry|))) else R.Writeback(false, R.Tag(false, 0))))
  }

  ghost predicate Driven(s: State, inp: Input) {
    && WfInput(inp) && inp.ptabReady && !inp.brMisp
    && (inp.lsqReady ==> inp.rsReady && exists x :: 0 < x < |s.arch| && inp.fetch == Fetch(x).fetch)
    && (!inp.lsqReady ==> inp.fetch == Wait().fetch)
  }

  lemma DrivenEnv(s: State, inp: Input)
    requires Calm(s) && Driven(s, inp)
    ensures EnvOk(s, inp) && !Flush(s) && Decoded(inp) == inp.fetch
    ensures RenameReady(s, inp) ==> inp.lsqReady && forall k | 0 <= k < 4 :: Takes(inp.fetch, k)
  {
  }

  lemma RenamedPlain(rat: seq<nat>, dec: seq<Dec>, gs: seq<Psel.Grant>, f: seq<bool>, x: nat, k: nat)
    requires WfGroup(dec, gs, |rat|) && Granted(gs, f) && x != 0 && k < |dec| && dec[k] == Writer(x)
    ensures var l := RenamedLanes(rat, dec, gs)[k]; l.valid && l.op.arn == x && PlainOp(l.op) && !l.nop
  {
  }

  // What a driven cycle leaves in the rename register.
  lemma RenamePlain(s: State, inp: Input, k: nat)
    requires Wf(s) && WfInput(inp) && GroupOk(s, inp) && k < 4 && !Flush(s) && Supplied(s, inp)
    requires RenameReady(s, inp) ==> exists x :: 0 < x < |s.arch| && Decoded(inp) == Fetch(x).fetch
    ensures var l := Next(s, inp).ren[k]; l.valid ==> PlainOp(l.op) && !l.nop
  {
    hide Flush, Next;
    RenameRegister(s, inp);
    if RenameReady(s, inp) {
      var x :| 0 < x < |s.arch| && Decoded(inp) == Fetch(x).fetch;
      RenamedPlain(s.rat, Decoded(inp), Grants(s), Forwarded(s.free, s.ret), x, k);
    }
  }

  lemma RetirePlain(s: R.State, k: nat)
    requires F.Inv(s) && k < 4 && R.RetirePkt(s)[k].valid
    requires forall e | e in F.Window(s) :: PlainEntry(e)
    ensures PlainOp(R.RetirePkt(s)[k].op) && !R.RetirePkt(s)[k].misp
  {
    F.RetireWithinWindow(s);
    assert F.Window(s)[k] in F.Window(s);
  }

  lemma MarkedPlain(s: R.State, inp: R.Input, k: nat)
    requires F.Inv(s) && R.WfInput(inp) && !inp.brMisp && k < F.Count(s)
    requires forall e | e in F.Window(s) :: PlainEntry(e)
    ensures PlainEntry(F.Marked(s, inp)[k])
  {
    assert F.Window(s)[k] in F.Window(s);
  }

  lemma {:induction false} NewPlain(lanes: seq<R.Lane>, k: nat)
    requires k < R.LaneCount(lanes)
    requires forall j | 0 <= j < |lanes| :: lanes[j].valid ==> PlainOp(lanes[j].op) && !lanes[j].nop
    ensures PlainEntry(R.NewEntries(lanes)[k]) && !R.NewEntries(lanes)[k].complete
    decreases |lanes|
  {
    var n := |lanes| - 1;
    if k < R.LaneCount(lanes[..n]) {
      NewPlain(lanes[..n], k);
    }
  }

  lemma WindowPlain(s: State, inp: Input)
    requires Calm(s) && Driven(s, inp)
    ensures F.Inv(R.Next(s.rob, RobInput(s, inp)))
    ensures forall e | e in F.Window(R.Next(s.rob, RobInput(s, inp))) :: PlainEntry(e)
  {
    DrivenEnv(s, inp);
    var ri, r := RobInput(s, inp), R.RetireCount(s.rob);
    F.StepRefinesFifo(s.rob, ri);
    forall k | 0 <= k < |F.Marked(s.rob, ri)|
      ensures PlainEntry(F.Marked(s.rob, ri)[k])
    {
      MarkedPlain(s.rob, ri, k);
    }
    forall k | 0 <= k < R.LaneCount(s.ren)
      ensures PlainEntry(R.NewEntries(s.ren)[k])
    {
      NewPlain(s.ren, k);
    }
  }

  lemma CalmStep(s: State, inp: Input)
    requires Calm(s) && Driven(s, inp) && Supplied(s, inp)
    ensures EnvOk(s, inp) && !Flush(s) && Calm(Next(s, inp))
  {
    DrivenEnv(s, inp);
    OrdinaryStep(s, inp);
    WindowPlain(s, inp);
    forall k | 0 <= k < 4
      ensures var l := Next(s, inp).ren[k]; l.valid ==> PlainOp(l.op) && !l.nop
    {
      RenamePlain(s, inp, k);
    }
    forall k | 0 <= k < 4 && R.RetirePkt(s.rob)[k].valid
      ensures PlainOp(R.RetirePkt(s.rob)[k].op) && !R.RetirePkt(s.rob)[k].misp
    {
      RetirePlain(s.rob, k);
    }
  }

  // ------------------------------------------------- the reorder buffer moves

  ghost predicate Open(s: R.State)
    requires F.Inv(s)
  {
    forall k | 0 <= k < F.Count(s) :: !F.Window(s)[k].complete
  }

  ghost predicate Done(s: R.State)
    requires F.Inv(s)
  {
    F.Count(s) >= 4 && forall k | 0 <= k < 4 :: F.Window(s)[k].complete
  }

  ghost predicate PlainWindow(s: R.State)
    requires F.Inv(s)
  {
    forall e | e in F.Window(s) :: PlainEntry(e)
  }

  lemma OpenRetiresNone(s: R.State)
    requires F.Inv(s) && Open(s)
    ensures R.RetireCount(s) == 0
  {
    F.RetireWithinWindow(s);
  }

  lemma DoneRetiresFour(s: R.State)
    requires F.Inv(s) && Done(s) && PlainWindow(s)
    ensures R.RetireCount(s) == 4
  {
    forall k | 0 <= k < 4
      ensures R.At(s, k).valid && R.At(s, k).complete && PlainEntry(R.At(s, k))
    {
      assert R.At(s, k) == F.Window(s)[k] && F.Window(s)[k] in F.Window(s);
    }
    assert R.RetireEn(s, 0);
    assert R.BranchSum(s, 1) == 0 && R.RetireEn(s, 1);
    assert R.BranchSum(s, 2) == 0 && R.RetireEn(s, 2);
    assert R.BranchSum(s, 3) == 0 && R.RetireEn(s, 3);
  }

  ghost predicate PlainLanes(lanes: seq<R.Lane>) {
    forall j | 0 <= j < |lanes| :: lanes[j].valid ==> PlainOp(lanes[j].op) && !lanes[j].nop
  }

  lemma OpenStays(s: R.State, inp: R.Input)
    requires F.Inv(s) && R.WfInput(inp) && !inp.flush && F.Count(s) + R.LaneCount(inp.dispatch) <= |s.entry|
    requires Open(s) && PlainLanes(inp.dispatch) && forall i: nat :: !R.Broadcast(inp, i)
    ensures F.Inv(R.Next(s, inp)) && Open(R.Next(s, inp))
  {
    hide Ring.Slot, R.Broadcast;
    OpenRetiresNone(s);
    F.StepRefinesFifo(s, inp);
    forall k | 0 <= k < F.Count(R.Next(s, inp))
      ensures !F.Window(R.Next(s, inp))[k].complete
    {
      if k < F.Count(s) {
        assert F.Window(R.Next(s, inp))[k] == F.Marked(s, inp)[k];
        assert !F.Window(s)[k].complete && !R.Broadcast(inp, Ring.Slot(s.head, k, |s.entry|));
      } else {
        NewPlain(inp.dispatch, k - F.Count(s));
      }
    }
  }

  lemma FinishDone(s: R.State, inp: R.Input)
    requires F.Inv(s) && R.WfInput(inp) && !inp.flush && F.Count(s) + R.LaneCount(inp.dispatch) <= |s.entry|
    requires Open(s) && F.Count(s) >= 4
    requires forall k: nat | k < 4 :: R.Broadcast(inp, Ring.Slot(s.head, k, |s.entry|))
    ensures F.Inv(R.Next(s, inp)) && Done(R.Next(s, inp))
  {
    OpenRetiresNone(s);
    F.StepRefinesFifo(s, inp);
    forall k | 0 <= k < 4
      ensures F.Window(R.Next(s, inp))[k].complete
    {
      assert F.Window(s)[k] == F.WindowAt(s, k) && !F.Window(s)[k].complete;
      assert F.Window(R.Next(s, inp))[k] == F.Marked(s, inp)[k];
    }
  }

  // ------------------------------------------------------ the back end moves

  // The committed map, and the instructions in the retire register, in the
  // buffer and in the rename register.
  ghost predicate Stands(s: State, m: seq<nat>, r: seq<R.Uop>, w: seq<R.Uop>, n: seq<R.Uop>) {
    Calm(s) && s.arch == m && RetOps(s.ret) == r && WindowOps(F.Window(s.rob)) == w && Ops(s.ren) == n
  }

  lemma NextStands(s: State, inp: Input)
    requires Calm(s) && Driven(s, inp) && Supplied(s, inp) && GroupOk(s, inp)
    ensures InRange(RetOps(s.ret), |s.arch|) && R.RetireCount(s.rob) <= F.Count(s.rob)
    ensures Stands(Next(s, inp), Fold(s.arch, RetOps(s.ret)), WindowOps(F.Window(s.rob))[..R.RetireCount(s.rob)],
                   WindowOps(F.Window(s.rob))[R.RetireCount(s.rob)..] + Ops(s.ren), NewOps(s, inp))
  {
    CalmStep(s, inp);
    ArchStep(s, inp);
    RetirePktOps(s.rob);
    WindowOpsNext(s.rob, RobInput(s, inp));
    NextRenameOps(s, inp);
  }

  lemma OpenNext(s: State, inp: Input)
    requires Calm(s) && Open(s.rob) && Driven(s, inp) && inp.wb == Silent()
    ensures F.Inv(R.Next(s.rob, RobInput(s, inp))) && Open(R.Next(s.rob, RobInput(s, inp)))
  {
    DrivenEnv(s, inp);
    OpenStays(s.rob, RobInput(s, inp));
  }

  lemma SplitAt(w: seq<R.Uop>, k: nat)
    requires k <= |w|
    ensures k == 0 ==> w[..k] == [] && w[k..] == w
  {
  }

  lemma OpenMove(s: State, inp: Input, m: seq<nat>, r: seq<R.Uop>, w: seq<R.Uop>, n: seq<R.Uop>)
    requires Stands(s, m, r, w, n) && Open(s.rob) && Driven(s, inp) && Supplied(s, inp) && inp.wb == Silent() && GroupOk(s, inp)
    ensures InRange(r, |m|)
    ensures Stands(Next(s, inp), Fold(m, r), [], w + n, NewOps(s, inp)) && Open(Next(s, inp).rob)
  {
    NextStands(s, inp);
    OpenRetiresNone(s.rob);
    OpenNext(s, inp);
    SplitAt(w, R.RetireCount(s.rob));
  }

  lemma FinishMove(s: State, inp: Input, m: seq<nat>, w: seq<R.Uop>, n: seq<R.Uop>)
    requires Stands(s, m, [], w, n) && Open(s.rob) && |w| >= 4 && inp == Finish(s.rob) && GroupOk(s, inp)
    ensures Driven(s, inp) && Supplied(s, inp)
    ensures Stands(Next(s, inp), m, [], w + n, []) && Done(Next(s, inp).rob)
  {
    NextStands(s, inp);
    OpenRetiresNone(s.rob);
    DrivenEnv(s, inp);
    FinishNames(s, inp);
    FinishDone(s.rob, RobInput(s, inp));
  }

  lemma FinishNames(s: State, inp: Input)
    requires Wf(s) && inp == Finish(s.rob)
    ensures WfInput(inp) && forall k: nat | k < 4 :: R.Broadcast(RobInput(s, inp), Ring.Slot(s.rob.head, k, |s.rob.entry|))
  {
    forall k: nat | k < 4
      ensures R.Broadcast(RobInput(s, inp), Ring.Slot(s.rob.head, k, |s.rob.entry|))
    {
      assert inp.wb[k].valid && inp.wb[k].tag.idx == Ring.Slot(s.rob.head, k, |s.rob.entry|);
    }
  }

  lemma RetireMove(s: State, inp: Input, m: seq<nat>, w: seq<R.Uop>, n: seq<R.Uop>)
    requires Stands(s, m, [], w, n) && Done(s.rob) && Driven(s, inp) && Supplied(s, inp) && GroupOk(s, inp)
    ensures |w| >= 4 && Stands(Next(s, inp), m, w[..4], w[4..] + n, NewOps(s, inp))
  {
    NextStands(s, inp);
    DoneRetiresFour(s.rob);
  }

  // While the buffer has room for one more group, a group is accepted.
  lemma Accepts(s: State, x: nat)
    requires Calm(s) && 0 < x < |s.arch| && R.RetireCount(s.rob) <= F.Count(s.rob)
    requires F.Count(s.rob) + R.LaneCount(s.ren) + 4 <= |s.rob.entry| + R.RetireCount(s.rob)
    ensures Driven(s, Fetch(x)) && RenameReady(s, Fetch(x)) && GroupOk(s, Fetch(x))
  {
    var inp := Fetch(x);
    assert Driven(s, inp);
    DrivenEnv(s, inp);
    F.NextCount(s.rob, RobInput(s, inp));
    forall k | 0 <= k < 4
      ensures R.Ready(s.rob, RobInput(s, inp), k)
    {
      F.ReadyCredit(s.rob, RobInput(s, inp), k);
    }
  }

  lemma FourOps(lanes: seq<R.Lane>)
    requires |lanes| == 4 && forall k | 0 <= k < 4 :: lanes[k].valid
    ensures |Ops(lanes)| == 4
  {
    assert lanes[..3][..2][..1] == lanes[..1] && lanes[..3][..2] == lanes[..2] && lanes[..1][..0] == [];
    assert R.LaneCount(lanes[..1]) == 1;
    assert R.LaneCount(lanes[..2]) == 2;
    assert R.LaneCount(lanes[..3]) == 3;
  }

  lemma GroupOps(rat: seq<nat>, dec: seq<Dec>, gs: seq<Psel.Grant>, f: seq<bool>, x: nat)
    requires WfGroup(dec, gs, |rat|) && Granted(gs, f) && x != 0 && dec == Fetch(x).fetch
    ensures |Ops(RenamedLanes(rat, dec, gs))| == 4
    ensures forall u | u in Ops(RenamedLanes(rat, dec, gs)) :: u.arn == x && u.prn != 0
  {
    var ls := RenamedLanes(rat, dec, gs);
    forall k | 0 <= k < 4
      ensures ls[k].valid && ls[k].op.arn == x && PlainOp(ls[k].op)
    {
      RenamedPlain(rat, dec, gs, f, x, k);
    }
    FourOps(ls);
  }

  lemma NewOpsAre(s: State, inp: Input)
    requires Wf(s) && WfInput(inp) && GroupOk(s, inp) && !Flush(s) && RenameReady(s, inp)
    ensures WfGroup(Decoded(inp), Grants(s), |s.rat|)
    ensures NewOps(s, inp) == Ops(RenamedLanes(s.rat, Decoded(inp), Grants(s)))
  {
  }

  // An accepted group that is supplied puts four writers of x in flight.
  lemma FetchedOps(s: State, x: nat)
    requires Calm(s) && 0 < x < |s.arch| && GroupOk(s, Fetch(x)) && RenameReady(s, Fetch(x)) && Supplied(s, Fetch(x))
    ensures |NewOps(s, Fetch(x))| == 4
    ensures forall u | u in NewOps(s, Fetch(x)) :: u.arn == x && u.prn != 0
  {
    assert Driven(s, Fetch(x));
    DrivenEnv(s, Fetch(x));
    NewOpsAre(s, Fetch(x));
    GroupOps(s.rat, Decoded(Fetch(x)), Grants(s), Forwarded(s.free, s.ret), x);
  }

  // A cycle without a group is always possible.
  lemma Waits(s: State, inp: Input)
    requires Calm(s) && (inp == Wait() || inp == Finish(s.rob))
    ensures Driven(s, inp) && GroupOk(s, inp) && Supplied(s, inp) && NewOps(s, inp) == []
  {
  }

  // ---------------------------------------------------------------- the run

  datatype Tape = Tape(tr: seq<State>, ins: seq<Input>)

  ghost predicate On(q: Tape, d: nat, p: nat, a: nat, s: State) {
    && Steps(q.tr, q.ins, d, p, a) && s == q.tr[|q.ins|]
    && |s.arch| == a && |s.free| == p && Wf(s) && |s.rob.entry| == d
  }

  // The last step is one on which the group starves.
  ghost predicate Starved(q: Tape, d: nat, p: nat, a: nat) {
    && Steps(q.tr, q.ins, d, p, a) && |q.ins| > 0
    && Wf(q.tr[|q.ins| - 1]) && WfInput(q.ins[|q.ins| - 1]) && Starves(q.tr[|q.ins| - 1], q.ins[|q.ins| - 1])
  }

  lemma Push(q: Tape, d: nat, p: nat, a: nat, s: State, inp: Input) returns (q': Tape)
    requires On(q, d, p, a, s) && EnvOk(s, inp)
    ensures q' == Tape(q.tr + [Next(s, inp)], q.ins + [inp]) && On(q', d, p, a, Next(s, inp))
  {
    hide Next;
    q' := Tape(q.tr + [Next(s, inp)], q.ins + [inp]);
    forall t | 0 <= t < |q'.ins|
      ensures StepAt(q'.tr, q'.ins, t)
    {
      assert t < |q.ins| ==> StepAt(q.tr, q.ins, t);
    }
  }

  // A group is offered to a machine that accepts it: it starves, or it is
  // supplied.
  lemma Offer(q: Tape, d: nat, p: nat, a: nat, s: State, x: nat) returns (q': Tape)
    requires On(q, d, p, a, s) && Calm(s) && 0 < x < a && R.RetireCount(s.rob) <= F.Count(s.rob)
    requires F.Count(s.rob) + R.LaneCount(s.ren) + 4 <= d + R.RetireCount(s.rob)
    ensures Driven(s, Fetch(x)) && RenameReady(s, Fetch(x)) && GroupOk(s, Fetch(x))
    ensures On(q', d, p, a, Next(s, Fetch(x)))
    ensures Supplied(s, Fetch(x)) || Starved(q', d, p, a)
  {
    Accepts(s, x);
    DrivenEnv(s, Fetch(x));
    q' := Push(q, d, p, a, s, Fetch(x));
    if !Supplied(s, Fetch(x)) {
      NoSupplyStarves(s, Fetch(x));
    }
  }

  lemma Pause(q: Tape, d: nat, p: nat, a: nat, s: State, inp: Input) returns (q': Tape)
    requires On(q, d, p, a, s) && Calm(s) && (inp == Wait() || inp == Finish(s.rob))
    ensures Driven(s, inp) && GroupOk(s, inp) && Supplied(s, inp) && NewOps(s, inp) == []
    ensures On(q', d, p, a, Next(s, inp))
  {
    Waits(s, inp);
    DrivenEnv(s, inp);
    q' := Push(q, d, p, a, s, inp);
  }

  // Four writers of x go through an empty machine.
  lemma Round(q: Tape, d: nat, p: nat, a: nat, s: State, m: seq<nat>, x: nat) returns (q': Tape, s': State, m': seq<nat>)
    requires On(q, d, p, a, s) && Stands(s, m, [], [], []) && 0 < x < a
    ensures Starved(q', d, p, a) || (On(q', d, p, a, s') && Stands(s', m', [], [], []))
    ensures |m'| == |m| == a
    ensures Starved(q', d, p, a) || (m'[x] != 0 && forall i | 0 <= i < a && i != x :: m'[i] == m[i])
  {
    m', s' := m, s;
    OpenRetiresNone(s.rob);
    q' := Offer(q, d, p, a, s, x);
    if Supplied(s, Fetch(x)) {
      var us := NewOps(s, Fetch(x));
      FetchedOps(s, x);
      OpenMove(s, Fetch(x), m, [], [], []);
      q', s' := Passage(q', d, p, a, Next(s, Fetch(x)), m, us);
      m' := Fold(m, us);
      FoldSame(m, us, x);
    }
  }

  lemma Passage(q: Tape, d: nat, p: nat, a: nat, s: State, m: seq<nat>, us: seq<R.Uop>) returns (q': Tape, s': State)
    requires On(q, d, p, a, s) && Stands(s, m, [], [], us) && |us| == 4 && Open(s.rob)
    ensures InRange(us, |m|) && On(q', d, p, a, s') && Stands(s', Fold(m, us), [], [], [])
  {
    q' := Pause(q, d, p, a, s, Wait());
    OpenMove(s, Wait(), m, [], [], us);
    var s2 := Next(s, Wait());
    assert [] + us == us;
    q' := Pause(q', d, p, a, s2, Finish(s2.rob));
    FinishMove(s2, Finish(s2.rob), m, us, []);
    var s3 := Next(s2, Finish(s2.rob));
    assert us + [] == us;
    q' := Pause(q', d, p, a, s3, Wait());
    RetireMove(s3, Wait(), m, us, []);
    var s4 := Next(s3, Wait());
    assert us[..4] == us && us[4..] + [] == [];
    q' := Pause(q', d, p, a, s4, Wait());
    OpenMove(s4, Wait(), m, us, [], []);
    s' := Next(s4, Wait());
  }

  // First every architectural register below n gets a name of its own.
  lemma {:induction false} NameAll(d: nat, p: nat, a: nat, n: nat) returns (q: Tape, s: State, m: seq<nat>)
    requires d >= 8 && d % 4 == 0 && a >= 2 && p > 0 && 1 <= n <= a
    ensures Starved(q, d, p, a) || (On(q, d, p, a, s) && Stands(s, m, [], [], []))
    ensures Starved(q, d, p, a) || (|m| == a && forall i | 0 < i < n :: m[i] != 0)
  {
    if n == 1 {
      ResetInv(d, p, a);
      NoLanesNoOps();
      s := Reset(d, p, a);
      q, m := Tape([s], []), s.arch;
      ResetStands(d, p, a);
    } else {
      q, s, m := NameAll(d, p, a, n - 1);
      if !Starved(q, d, p, a) {
        q, s, m := Round(q, d, p, a, s, m, n - 1);
      }
    }
  }

  lemma ResetStands(d: nat, p: nat, a: nat)
    requires d >= 8 && d % 4 == 0 && a > 0 && p > 0
    ensures Stands(Reset(d, p, a), Reset(d, p, a).arch, [], [], [])
  {
    ResetInv(d, p, a);
    NoLanesNoOps();
  }

  // Then the buffer and the rename register fill up, group by group.
  lemma FillOnce(q: Tape, d: nat, p: nat, a: nat, s: State, m: seq<nat>, w: seq<R.Uop>, n: seq<R.Uop>)
      returns (q': Tape, s': State, n': seq<R.Uop>)
    requires On(q, d, p, a, s) && Stands(s, m, [], w, n) && Open(s.rob) && a >= 2 && |w| + |n| + 4 <= d
    ensures Starved(q', d, p, a) || (On(q', d, p, a, s') && Stands(s', m, [], w + n, n') && Open(s'.rob) && |n'| == 4)
  {
    OpenRetiresNone(s.rob);
    q' := Offer(q, d, p, a, s, 1);
    s', n' := Next(s, Fetch(1)), NewOps(s, Fetch(1));
    if Supplied(s, Fetch(1)) {
      FetchedOps(s, 1);
      OpenMove(s, Fetch(1), m, [], w, n);
    }
  }

  lemma {:induction false} Fill(d: nat, p: nat, a: nat, c: nat)
      returns (q: Tape, s: State, m: seq<nat>, w: seq<R.Uop>, n: seq<R.Uop>)
    requires d >= 8 && d % 4 == 0 && a >= 2 && p > 0 && c <= d && c % 4 == 0
    ensures Starved(q, d, p, a) || (On(q, d, p, a, s) && Stands(s, m, [], w, n) && Open(s.rob) && |w| + |n| == c)
    ensures Starved(q, d, p, a) || (|m| == a && forall i | 0 < i < a :: m[i] != 0)
  {
    w, n := [], [];
    if c == 0 {
      q, s, m := NameAll(d, p, a, a);
    } else {
      q, s, m, w, n := Fill(d, p, a, c - 4);
      if !Starved(q, d, p, a) {
        var q', s', n' := FillOnce(q, d, p, a, s, m, w, n);
        q, s, w, n := q', s', w + n, n';
      }
    }
  }

  // In the full machine too few registers are free.
  lemma FullIsShort(s: State, m: seq<nat>, w: seq<R.Uop>)
    requires Stands(s, m, [], w, []) && |w| == |s.rob.entry|
    requires |s.free| <= |s.arch| + |s.rob.entry| + 3 && forall i | 0 < i < |m| :: m[i] != 0
    ensures |Psel.Requests(Forwarded(s.free, s.ret))| < 4
  {
    var f := Forwarded(s.free, s.ret);
    RetireBalances(s);
    assert Younger(s) == w;
    forall u | u in w
      ensures u.prn != 0
    {
      var k :| 0 <= k < |w| && w[k] == u;
      assert F.Window(s.rob)[k] in F.Window(s.rob);
    }
    FreeExact(m, w, f);
    assert Psel.Requests(f) == Free(f);
  }

  // With fewer registers than the header comment asks for, some run starves.
  lemma SmallFileStarves(d: nat, p: nat, a: nat) returns (q: Tape)
    requires d >= 8 && d % 4 == 0 && a >= 2 && 0 < p < a + d + 4
    ensures Starved(q, d, p, a)
  {
    var s, m, w, n;
    q, s, m, w, n := Fill(d, p, a, d);
    if !Starved(q, d, p, a) {
      assert |n| <= 4;
      q := Pause(q, d, p, a, s, Finish(s.rob));
      FinishMove(s, Finish(s.rob), m, w, n);
      var full := Next(s, Finish(s.rob));
      DoneRetiresFour(full.rob);
      FullIsShort(full, m, w + n);
      q := Offer(q, d, p, a, full, 1);
      FewGrants(Forwarded(full.free, full.ret));
    }
  }
}
