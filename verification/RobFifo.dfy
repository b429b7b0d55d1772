/**
  The reorder buffer as a queue: its valid entries are exactly the circular
  window from head to tail, one clock edge drops the retiring prefix and appends
  the dispatched group, and the ready credit keeps the window inside the buffer.
 */
module RobFifo {
  import opened Rob
  import opened Ring

  ghost predicate PtrOrder(s: State)
    requires Wf(s)
  {
    if s.headBit == s.tailBit then s.head <= s.tail else s.tail <= s.head
  }

  // Live entries, read off the two pointers and their wrap bits.
  function Count(s: State): (n: nat)
    requires Wf(s) && PtrOrder(s)
    ensures n <= |s.entry|
  {
    if s.headBit == s.tailBit then s.tail - s.head else s.tail + |s.entry| - s.head
  }

  ghost predicate Inv(s: State) {
    && Wf(s) && PtrOrder(s)
    && (forall i | 0 <= i < |s.entry| :: s.entry[i].valid <==> Off(s.head, i, |s.entry|) < Count(s))
    && (forall i | 0 <= i < |s.entry| :: s.entry[i].misp ==> s.entry[i].complete)
  }

  // The live entries, oldest first.
  function Window(s: State): (w: seq<Entry>)
    requires Inv(s)
    ensures |w| == Count(s)
    ensures forall k | 0 <= k < |w| :: w[k].valid
  {
    var d := |s.entry|;
    seq(Count(s), k requires 0 <= k < Count(s) => WindowAt(s, k))
  }

  function WindowAt(s: State, k: nat): (e: Entry)
    requires Inv(s) && k < Count(s)
    ensures e.valid
  {
    var i := Slot(s.head, k, |s.entry|);
    assert Off(s.head, i, |s.entry|) == k;
    s.entry[i]
  }

  // The window after this cycle's broadcasts.
  function Marked(s: State, inp: Input): (w: seq<Entry>)
    requires Inv(s) && WfInput(inp)
    ensures |w| == Count(s)
  {
    seq(Count(s), k requires 0 <= k < Count(s) => Mark(WindowAt(s, k), Slot(s.head, k, |s.entry|), inp))
  }

  // A retiring lane is live, so retirement never passes the tail.
  lemma RetireWithinWindow(s: State)
    requires Inv(s)
    ensures RetireCount(s) <= Count(s)
    ensures forall k: nat | k < 4 :: RetireEn(s, k) <==> k < RetireCount(s)
    ensures forall k: nat | k < RetireCount(s) :: At(s, k) == Window(s)[k]
  {
    var d := |s.entry|;
    assert forall k: nat | k < 4 :: Off(s.head, Slot(s.head, k, d), d) == k;
    assert RetireEn(s, 3) ==> RetireEn(s, 2);
    assert RetireEn(s, 2) ==> RetireEn(s, 1);
    assert RetireEn(s, 1) ==> RetireEn(s, 0);
  }

  // No lane retires behind a flushing one.
  lemma {:induction false} RetireChain(s: State, j: nat, k: nat)
    requires Inv(s) && j < k < 4 && RetireEn(s, k)
    ensures RetireEn(s, j) && !FlushEn(s, j)
  {
    if j + 1 < k {
      RetireChain(s, j, k - 1);
    }
  }

  // A pointer and its wrap bit advance as one number modulo 2 * d.
  lemma PtrAdvance(bit: bool, ptr: nat, cnt: nat, d: nat)
    requires d >= 8 && d % 4 == 0 && ptr < d && cnt <= 4
    ensures NextBit(bit, ptr, cnt, d) == (if ptr + cnt >= d then !bit else bit)
  {
  }

  lemma NextCount(s: State, inp: Input)
    requires Inv(s) && WfInput(inp) && !inp.flush
    requires Count(s) + LaneCount(inp.dispatch) <= |s.entry|
    ensures PtrOrder(Next(s, inp))
    ensures Count(Next(s, inp)) == Count(s) - RetireCount(s) + LaneCount(inp.dispatch)
  {
    RetireWithinWindow(s);
    PtrAdvance(s.headBit, s.head, RetireCount(s), |s.entry|);
    PtrAdvance(s.tailBit, s.tail, LaneCount(inp.dispatch), |s.entry|);
  }

  // Offsets from the new head.
  lemma NextOffsets(s: State, inp: Input, i: nat)
    requires Inv(s) && WfInput(inp) && !inp.flush && i < |s.entry|
    requires Count(s) + LaneCount(inp.dispatch) <= |s.entry|
    ensures var d, o := |s.entry|, Off(s.head, i, |s.entry|);
      && Off(Next(s, inp).head, i, d) == (if o >= RetireCount(s) then o - RetireCount(s) else o + d - RetireCount(s))
      && (Off(s.tail, i, d) < LaneCount(inp.dispatch) <==> Count(s) <= o < Count(s) + LaneCount(inp.dispatch))
      && (Count(s) <= o ==> Off(s.tail, i, d) == o - Count(s))
  {
    RetireWithinWindow(s);
  }

  lemma EntryStep(s: State, inp: Input, i: nat)
    requires Inv(s) && WfInput(inp) && !inp.flush && i < |s.entry|
    requires Count(s) + LaneCount(inp.dispatch) <= |s.entry|
    ensures var e, o := NextEntry(s, inp, i), Off(s.head, i, |s.entry|);
      && (e.valid <==> RetireCount(s) <= o < Count(s) + LaneCount(inp.dispatch))
      && (e.misp ==> e.complete)
  {
    RetireWithinWindow(s);
    NextOffsets(s, inp, i);
  }

  lemma StepKeepsInv(s: State, inp: Input)
    requires Inv(s) && WfInput(inp) && !inp.flush
    requires Count(s) + LaneCount(inp.dispatch) <= |s.entry|
    ensures Inv(Next(s, inp))
  {
    hide Off, NextEntry, Count, PtrOrder;
    var s', d := Next(s, inp), |s.entry|;
    NextCount(s, inp);
    RetireWithinWindow(s);
    forall i | 0 <= i < d
      ensures s'.entry[i].valid <==> Off(s'.head, i, d) < Count(s')
      ensures s'.entry[i].misp ==> s'.entry[i].complete
    {
      EntryStep(s, inp, i);
      assert s'.entry[i] == NextEntry(s, inp, i);
    }
  }

  lemma WindowAtNext(s: State, inp: Input, k: nat)
    requires Inv(s) && WfInput(inp) && !inp.flush
    requires Count(s) + LaneCount(inp.dispatch) <= |s.entry|
    requires Inv(Next(s, inp)) && k < Count(Next(s, inp))
    ensures RetireCount(s) <= Count(s) && Count(Next(s, inp)) == Count(s) - RetireCount(s) + LaneCount(inp.dispatch)
    ensures WindowAt(Next(s, inp), k) ==
      if k + RetireCount(s) < Count(s) then Marked(s, inp)[k + RetireCount(s)]
      else NewEntries(inp.dispatch)[k + RetireCount(s) - Count(s)]
  {
    hide Off, RetireEn;
    var s', d := Next(s, inp), |s.entry|;
    RetireWithinWindow(s);
    NextCount(s, inp);
    var i := Slot(s'.head, k, d);
    SlotFromNewHead(s, inp, k, i);
    assert s'.entry[i] == NextEntry(s, inp, i);
  }

  // The k-th slot from the new head, counted from the old head and tail.
  lemma SlotFromNewHead(s: State, inp: Input, k: nat, i: nat)
    requires Inv(s) && WfInput(inp) && !inp.flush
    requires Count(s) + LaneCount(inp.dispatch) <= |s.entry|
    requires k < |s.entry| && i == Slot(Next(s, inp).head, k, |s.entry|)
    requires k + RetireCount(s) < Count(s) + LaneCount(inp.dispatch)
    ensures var o, d := k + RetireCount(s), |s.entry|;
      && Off(s.head, i, d) == o && i == Slot(s.head, o, d)
      && (Off(s.tail, i, d) < LaneCount(inp.dispatch) <==> Count(s) <= o)
      && (Count(s) <= o ==> Off(s.tail, i, d) == o - Count(s))
  {
    assert Off(Next(s, inp).head, i, |s.entry|) == k;
    NextOffsets(s, inp, i);
  }

  // Main refinement: one edge without a flush is a queue step.
  lemma StepRefinesFifo(s: State, inp: Input)
    requires Inv(s) && WfInput(inp) && !inp.flush
    requires Count(s) + LaneCount(inp.dispatch) <= |s.entry|
    ensures Inv(Next(s, inp))
    ensures RetireCount(s) <= Count(s)
    ensures Window(Next(s, inp)) == Marked(s, inp)[RetireCount(s)..] + NewEntries(inp.dispatch)
  {
    hide LaneCount;
    StepKeepsInv(s, inp);
    RetireWithinWindow(s);
    NextCount(s, inp);
    forall k | 0 <= k < Count(Next(s, inp))
      ensures Window(Next(s, inp))[k] == (Marked(s, inp)[RetireCount(s)..] + NewEntries(inp.dispatch))[k]
    {
      WindowAtNext(s, inp, k);
    }
  }

  lemma FlushEmpties(s: State, inp: Input)
    requires Wf(s) && WfInput(inp) && inp.flush
    ensures Inv(Next(s, inp)) && Window(Next(s, inp)) == [] && !Next(s, inp).brMisp
  {
  }

  // The ready wires look one edge ahead: with four reported slots the next
  // state has room for a whole group on top of everything it holds.
  lemma ReadyCredit(s: State, inp: Input, k: nat)
    requires Inv(s) && WfInput(inp) && !inp.flush && k < 4
    requires Count(s) + LaneCount(inp.dispatch) <= |s.entry|
    ensures Ready(s, inp, k) <==> !s.brMisp && Count(Next(s, inp)) + k + 1 <= |s.entry|
  {
    NextCount(s, inp);
  }
}
