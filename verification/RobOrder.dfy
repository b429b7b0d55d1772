/**
  Program order in the reorder buffer. Instructions dispatched since the last
  flush are numbered 0, 1, 2, ...; a tag is that number modulo 2 * D, comparing
  wrap bits recovers the order of live tags, and the redirect register holds the
  target of the oldest mispredicted branch however the reports were ordered.
 */
module RobOrder {
  import opened Rob
  import opened Ring
  import opened RobFifo
  import Arith

  function TagOf(q: nat, d: nat): Tag
    requires d > 0
  {
    Tag(q / d % 2 == 1, q % d)
  }

  // The tag value as one number below 2 * d.
  lemma TagIsSeqMod(q: nat, d: nat)
    requires d > 0
    ensures TagOf(q, d).idx + (if TagOf(q, d).bit then d else 0) == q % (2 * d)
  {
    var a, b := q / d, q % d;
    var c, e := a / 2, a % 2;
    assert q == (2 * c + e) * d + b;
    assert q == c * (2 * d) + (e * d + b) by {
      assert (2 * c + e) * d == c * (2 * d) + e * d;
    }
    Arith.DivModUnique(q, c, e * d + b, 2 * d);
  }

  lemma TagParts(q: nat, a: nat, b: nat, d: nat)
    requires d > 0 && q == a * d + b && b < d
    ensures TagOf(q, d) == Tag(a % 2 == 1, b)
  {
    Arith.DivModUnique(q, a, b, d);
  }

  lemma SomeParts(q: nat, d: nat) returns (a: nat, b: nat)
    requires d > 0
    ensures q == a * d + b && b < d
  {
    a, b := q / d, q % d;
  }

  lemma NextMultiple(a: nat, d: nat)
    ensures (a + 1) * d == a * d + d
  {
  }

  lemma TagShift(q: nat, k: nat, d: nat)
    requires d > 0 && k <= d
    ensures var t := TagOf(q, d);
      TagOf(q + k, d) == Tag(if t.idx + k >= d then !t.bit else t.bit, Slot(t.idx, k, d))
  {
    hide TagOf;
    var a, b := SomeParts(q, d);
    TagParts(q, a, b, d);
    if b + k >= d {
      NextMultiple(a, d);
      TagParts(q + k, a + 1, b + k - d, d);
    } else {
      TagParts(q + k, a, b + k, d);
    }
  }

  // base is the number of the instruction at the head.
  ghost predicate SeqInv(s: State, base: nat) {
    Inv(s) && TagOf(base, |s.entry|) == Tag(s.headBit, s.head)
  }

  lemma TailTag(s: State, base: nat)
    requires SeqInv(s, base)
    ensures TagOf(base + Count(s), |s.entry|) == Tag(s.tailBit, s.tail)
  {
    TagShift(base, Count(s), |s.entry|);
  }

  lemma StepKeepsSeq(s: State, inp: Input, base: nat)
    requires SeqInv(s, base) && WfInput(inp) && !inp.flush
    requires Count(s) + LaneCount(inp.dispatch) <= |s.entry|
    ensures SeqInv(Next(s, inp), base + RetireCount(s))
  {
    StepKeepsInv(s, inp);
    TagShift(base, RetireCount(s), |s.entry|);
    PtrAdvance(s.headBit, s.head, RetireCount(s), |s.entry|);
  }

  // The k-th instruction of a dispatched group gets the tag of its number.
  lemma DispatchTagIsSeq(s: State, inp: Input, base: nat, k: nat)
    requires SeqInv(s, base) && WfInput(inp) && k < LaneCount(inp.dispatch)
    ensures DispatchTag(s, inp, k) == TagOf(base + Count(s) + k, |s.entry|)
  {
    hide LaneCount;
    TailTag(s, base);
    TagShift(base + Count(s), k, |s.entry|);
    OverflowIsWrap(s.tail, k, LaneCount(inp.dispatch), |s.entry|);
  }

  // Within a dispatched group, an overflowing tail and a low slot mean that the
  // slot lies behind the wrap.
  lemma OverflowIsWrap(tail: nat, k: nat, n: nat, d: nat)
    requires d >= 8 && d % 4 == 0 && tail < d && k < n <= 4
    ensures Overflow(tail, NextPtr(tail, n, d), d) && Slot(tail, k, d) < 4 <==> tail + k >= d
  {
  }

  // Among live instructions the wrap-bit comparison is program order.
  lemma OlderTagIsOlder(base: nat, a: nat, b: nat, d: nat)
    requires d > 0 && base <= a < base + d && base <= b < base + d
    ensures OlderTag(TagOf(a, d), TagOf(b, d)) <==> a < b
  {
    TagShift(base, a - base, d);
    TagShift(base, b - base, d);
  }

  lemma LiveTagsDistinct(base: nat, a: nat, b: nat, d: nat)
    requires d > 0 && base <= a < base + d && base <= b < base + d
    requires TagOf(a, d).idx == TagOf(b, d).idx
    ensures a == b
  {
    TagShift(base, a - base, d);
    TagShift(base, b - base, d);
  }

  // ------------------------------------------------- oldest misprediction

  // What the branch unit owes the buffer: a misprediction is reported on lane 5
  // for the live instruction q, which has not been reported complete before.
  ghost predicate ReportOf(s: State, inp: Input, base: nat, q: nat)
    requires SeqInv(s, base) && WfInput(inp)
  {
    && base <= q < base + Count(s)
    && inp.wb[5] == Writeback(true, TagOf(q, |s.entry|))
    && !WindowAt(s, q - base).complete
  }

  ghost predicate ReportsLive(s: State, inp: Input, base: nat)
    requires SeqInv(s, base) && WfInput(inp)
  {
    inp.brMisp ==> exists q :: ReportOf(s, inp, base, q)
  }

  // The reported instruction's number.
  ghost function Reported(s: State, inp: Input, base: nat): (q: nat)
    requires SeqInv(s, base) && WfInput(inp) && ReportsLive(s, inp, base) && inp.brMisp
    ensures ReportOf(s, inp, base, q)
  {
    var q :| ReportOf(s, inp, base, q); q
  }

  // Program-order bookkeeping beside the registers: target[q] is the corrected
  // pc reported for branch q, oldest the number the misp_rob register stands for.
  datatype Order = Order(base: nat, target: map<nat, nat>, oldest: nat)

  ghost function NextOrder(s: State, inp: Input, o: Order): Order
    requires SeqInv(s, o.base) && WfInput(inp) && ReportsLive(s, inp, o.base)
  {
    if inp.flush then Order(0, map[], 0)
    else Order(
      o.base + RetireCount(s),
      if inp.brMisp then o.target[Reported(s, inp, o.base) := inp.redirect] else o.target,
      if TakesMisp(s, inp) then Reported(s, inp, o.base) else o.oldest)
  }

  // Which live instructions carry a misprediction, oldest first.
  function Flags(s: State): (f: seq<bool>)
    requires Inv(s)
    ensures |f| == Count(s)
  {
    Misps(Window(s))
  }

  function Misps(w: seq<Entry>): (f: seq<bool>)
    ensures |f| == |w|
    ensures forall k | 0 <= k < |w| :: f[k] == w[k].misp
  {
    seq(|w|, k requires 0 <= k < |w| => w[k].misp)
  }

  // r instructions left and q, if reported, got its flag; newcomers have none.
  ghost predicate FlagsMove(f: seq<bool>, f': seq<bool>, r: nat, report: bool, q: nat, base: nat) {
    forall k | 0 <= k < |f'| :: f'[k] == (k + r < |f| && (f[k + r] || (report && q == base + r + k)))
  }

  // The three registers against the live mispredictions.
  ghost predicate HoldsOldest(brMisp: bool, redirect: nat, held: Tag, d: nat, flags: seq<bool>, o: Order) {
    && d > 0
    && (forall k | 0 <= k < |flags| :: flags[k] ==> brMisp && o.oldest <= o.base + k && o.base + k in o.target)
    && (brMisp ==>
        && o.oldest in o.target && redirect == o.target[o.oldest]
        && held == TagOf(o.oldest, d)
        && o.oldest < o.base + |flags|
        && (o.oldest >= o.base ==> flags[o.oldest - o.base]))
  }

  ghost predicate MispInv(s: State, o: Order) {
    SeqInv(s, o.base) && HoldsOldest(s.brMisp, s.redirect, s.mispTag, |s.entry|, Flags(s), o)
  }

  // The held misprediction has left the buffer; a flush is on its way.
  predicate Draining(s: State, o: Order) {
    s.brMisp && o.oldest < o.base
  }

  // The slot of the j-th live entry is the reported one exactly for its number.
  lemma ReportedSlot(s: State, inp: Input, base: nat, j: nat)
    requires SeqInv(s, base) && WfInput(inp) && ReportsLive(s, inp, base) && inp.brMisp
    requires j < Count(s)
    ensures inp.wb[5].valid
    ensures inp.wb[5].tag.idx == Slot(s.head, j, |s.entry|) <==> Reported(s, inp, base) == base + j
  {
    var d, q := |s.entry|, Reported(s, inp, base);
    TagShift(base, j, d);
    if inp.wb[5].tag.idx == Slot(s.head, j, d) {
      LiveTagsDistinct(base, q, base + j, d);
    }
  }

  lemma MarkMisp(s: State, inp: Input, base: nat, j: nat)
    requires SeqInv(s, base) && WfInput(inp) && ReportsLive(s, inp, base) && j < Count(s)
    requires inp.brMisp ==>
      inp.wb[5].valid && (inp.wb[5].tag.idx == Slot(s.head, j, |s.entry|) <==> Reported(s, inp, base) == base + j)
    ensures Marked(s, inp)[j].misp <==> WindowAt(s, j).misp || (inp.brMisp && Reported(s, inp, base) == base + j)
  {
    var e := WindowAt(s, j);
    assert Marked(s, inp)[j] == Mark(e, Slot(s.head, j, |s.entry|), inp);
    if inp.brMisp && Reported(s, inp, base) == base + j {
      assert !WindowAt(s, Reported(s, inp, base) - base).complete;
    }
  }

  lemma FlagsNext(s: State, inp: Input, o: Order)
    requires SeqInv(s, o.base) && WfInput(inp) && !inp.flush && ReportsLive(s, inp, o.base)
    requires Count(s) + LaneCount(inp.dispatch) <= |s.entry|
    requires Inv(Next(s, inp)) && RetireCount(s) <= Count(s)
    ensures FlagsMove(Flags(s), Flags(Next(s, inp)), RetireCount(s), inp.brMisp,
                      if inp.brMisp then Reported(s, inp, o.base) else 0, o.base)
  {
    StepRefinesFifo(s, inp);
    MarkedMisps(s, inp, o);
    MispsConcat(Marked(s, inp), RetireCount(s), NewEntries(inp.dispatch));
  }

  lemma MarkedMisps(s: State, inp: Input, o: Order)
    requires SeqInv(s, o.base) && WfInput(inp) && ReportsLive(s, inp, o.base)
    ensures forall j | 0 <= j < Count(s) ::
      Misps(Marked(s, inp))[j] <==> Flags(s)[j] || (inp.brMisp && Reported(s, inp, o.base) == o.base + j)
  {
    forall j | 0 <= j < Count(s)
      ensures Misps(Marked(s, inp))[j] <==> Flags(s)[j] || (inp.brMisp && Reported(s, inp, o.base) == o.base + j)
    {
      if inp.brMisp {
        ReportedSlot(s, inp, o.base, j);
      }
      MarkMisp(s, inp, o.base, j);
    }
  }

  lemma MispsConcat(w: seq<Entry>, r: nat, n: seq<Entry>)
    requires r <= |w| && forall k | 0 <= k < |n| :: !n[k].misp
    ensures forall k | 0 <= k < |w| - r + |n| ::
      Misps(w[r..] + n)[k] <==> k + r < |w| && Misps(w)[k + r]
  {
  }

  // A report replaces the held one exactly when it is older in program order.
  lemma TakesOlder(s: State, inp: Input, o: Order)
    requires MispInv(s, o) && !Draining(s, o)
    requires WfInput(inp) && !inp.flush && ReportsLive(s, inp, o.base)
    ensures TakesMisp(s, inp) <==> inp.brMisp && (s.brMisp ==> Reported(s, inp, o.base) < o.oldest)
  {
    if inp.brMisp {
      assert inp.wb[5].valid;
      if s.brMisp {
        OlderTagIsOlder(o.base, Reported(s, inp, o.base), o.oldest, |s.entry|);
      }
    }
  }

  // The bookkeeping step, away from the buffer: q is reported (or nothing is),
  // r instructions leave and n arrive.
  lemma OldestStays(brMisp: bool, redirect: nat, held: Tag, d: nat, flags: seq<bool>, o: Order,
                    report: bool, q: nat, target: nat, r: nat, flags': seq<bool>)
    requires HoldsOldest(brMisp, redirect, held, d, flags, o) && (brMisp ==> o.oldest >= o.base)
    requires report ==> o.base <= q < o.base + |flags| && !flags[q - o.base]
    requires r <= |flags| <= |flags'| + r
    requires FlagsMove(flags, flags', r, report, q, o.base)
    ensures var take := report && (brMisp ==> q < o.oldest);
      HoldsOldest(brMisp || take, if take then target else redirect, if take then TagOf(q, d) else held, d, flags',
        Order(o.base + r, if report then o.target[q := target] else o.target, if take then q else o.oldest))
  {
  }

  lemma ReportedUnflagged(s: State, inp: Input, o: Order)
    requires SeqInv(s, o.base) && WfInput(inp) && ReportsLive(s, inp, o.base) && inp.brMisp
    ensures !Flags(s)[Reported(s, inp, o.base) - o.base]
  {
    var q := Reported(s, inp, o.base);
    assert !WindowAt(s, q - o.base).misp;
  }

  lemma StepHoldsOldest(s: State, inp: Input, o: Order, r: nat, flags': seq<bool>)
    requires MispInv(s, o) && !Draining(s, o)
    requires WfInput(inp) && !inp.flush && ReportsLive(s, inp, o.base)
    requires r <= Count(s) <= |flags'| + r
    requires FlagsMove(Flags(s), flags', r, inp.brMisp, if inp.brMisp then Reported(s, inp, o.base) else 0, o.base)
    ensures var take := TakesMisp(s, inp);
      HoldsOldest(s.brMisp || take, if take then inp.redirect else s.redirect, if take then inp.wb[5].tag else s.mispTag,
        |s.entry|, flags',
        Order(o.base + r,
          if inp.brMisp then o.target[Reported(s, inp, o.base) := inp.redirect] else o.target,
          if take then Reported(s, inp, o.base) else o.oldest))
  {
    TakesOlder(s, inp, o);
    if inp.brMisp {
      ReportedUnflagged(s, inp, o);
      OldestStays(s.brMisp, s.redirect, s.mispTag, |s.entry|, Flags(s), o,
                  true, Reported(s, inp, o.base), inp.redirect, r, flags');
    } else {
      OldestStays(s.brMisp, s.redirect, s.mispTag, |s.entry|, Flags(s), o, false, 0, 0, r, flags');
    }
  }

  // The register keeps naming the oldest live misprediction.
  lemma StepKeepsMisp(s: State, inp: Input, o: Order)
    requires MispInv(s, o) && !Draining(s, o)
    requires WfInput(inp) && !inp.flush && ReportsLive(s, inp, o.base)
    requires Count(s) + LaneCount(inp.dispatch) <= |s.entry|
    ensures MispInv(Next(s, inp), NextOrder(s, inp, o))
  {
    StepKeepsSeq(s, inp, o.base);
    var flags' := NextFlags(s, inp, o);
    NextRegisters(s, inp, o, flags');
  }

  lemma NextRegisters(s: State, inp: Input, o: Order, flags': seq<bool>)
    requires MispInv(s, o) && !Draining(s, o)
    requires WfInput(inp) && !inp.flush && ReportsLive(s, inp, o.base)
    requires RetireCount(s) <= Count(s) <= |flags'| + RetireCount(s)
    requires FlagsMove(Flags(s), flags', RetireCount(s), inp.brMisp, if inp.brMisp then Reported(s, inp, o.base) else 0, o.base)
    ensures var s' := Next(s, inp);
      HoldsOldest(s'.brMisp, s'.redirect, s'.mispTag, |s'.entry|, flags', NextOrder(s, inp, o))
  {
    hide RetireCount, WfInput;
    StepHoldsOldest(s, inp, o, RetireCount(s), flags');
  }

  lemma NextFlags(s: State, inp: Input, o: Order) returns (flags': seq<bool>)
    requires SeqInv(s, o.base) && WfInput(inp) && !inp.flush && ReportsLive(s, inp, o.base)
    requires Count(s) + LaneCount(inp.dispatch) <= |s.entry|
    ensures Inv(Next(s, inp)) && flags' == Flags(Next(s, inp))
    ensures RetireCount(s) <= Count(s) <= |flags'| + RetireCount(s)
    ensures FlagsMove(Flags(s), flags', RetireCount(s), inp.brMisp, if inp.brMisp then Reported(s, inp, o.base) else 0, o.base)
  {
    StepKeepsInv(s, inp);
    RetireWithinWindow(s);
    NextCount(s, inp);
    FlagsNext(s, inp, o);
    flags' := Flags(Next(s, inp));
  }

  // The held misprediction only leaves the buffer through a retirement lane.
  lemma DrainingRetires(s: State, inp: Input, o: Order) returns (k: nat)
    requires MispInv(s, o) && !Draining(s, o)
    requires WfInput(inp) && !inp.flush && ReportsLive(s, inp, o.base)
    requires Draining(Next(s, inp), NextOrder(s, inp, o))
    ensures k < RetireCount(s) && RetirePkt(s)[k].valid && RetirePkt(s)[k].misp
  {
    RetireWithinWindow(s);
    if TakesMisp(s, inp) {
      ReportedStays(s, inp, o.base);
      assert false;
    } else {
      k := o.oldest - o.base;
      assert Flags(s)[k];
    }
  }

  lemma ReportedStays(s: State, inp: Input, base: nat)
    requires SeqInv(s, base) && WfInput(inp) && ReportsLive(s, inp, base) && inp.brMisp
    ensures Reported(s, inp, base) >= base + RetireCount(s)
  {
    RetireWithinWindow(s);
    var k := Reported(s, inp, base) - base;
    assert !WindowAt(s, k).complete;
    assert k < RetireCount(s) ==> At(s, k).complete;
  }

  // When a mispredicted branch retires, the redirect wire is its own target.
  lemma RedirectIsOwnTarget(s: State, o: Order, k: nat)
    requires MispInv(s, o) && !Draining(s, o)
    requires k < RetireCount(s) && RetirePkt(s)[k].misp
    ensures o.base + k in o.target
    ensures RetirePkt(s)[k].redirect == o.target[o.base + k]
  {
    RetireWithinWindow(s);
    var j := o.oldest - o.base;
    assert Flags(s)[k];
    if j < k {
      RetireChain(s, j, k);
    }
  }

  // Retirement removes completed instructions, at most one of them a branch,
  // and only the last one may ask for a flush.
  lemma RetiredPrefix(s: State)
    requires Inv(s)
    ensures RetireCount(s) <= Count(s)
    ensures forall k | 0 <= k < RetireCount(s) :: Window(s)[k].complete
    ensures forall j, k | 0 <= j < k < RetireCount(s) :: !(Window(s)[j].op.branch && Window(s)[k].op.branch)
    ensures forall k | 0 <= k < RetireCount(s) - 1 :: !Window(s)[k].misp && Window(s)[k].op.exc == NO_ERROR
  {
    RetireWithinWindow(s);
    forall j, k | 0 <= j < k < RetireCount(s)
      ensures !(Window(s)[j].op.branch && Window(s)[k].op.branch)
      ensures !FlushEn(s, j)
    {
      BranchSumCounts(s, j, k);
      RetireChain(s, j, k);
    }
  }

  lemma {:induction false} BranchSumCounts(s: State, j: nat, k: nat)
    requires Inv(s) && j < k < 4
    ensures BranchSum(s, k) >= (if At(s, j).op.branch then 1 else 0) + (if At(s, k).op.branch then 1 else 0)
  {
    if j + 1 < k {
      BranchSumCounts(s, j, k - 1);
    }
  }
}
