/**
  Progress in the reorder buffer: what an instruction is on arrival, what
  completes it, and when it leaves. In every run a live entry is complete exactly
  if it needs no execution or has been broadcast, and as many completed
  instructions retire as the rules on branches and flushes allow.
 */
module RobProgress {
  import opened Rob
  import opened Ring
  import opened RobFifo
  import opened RobModule

  // NOPs and instructions that raise an exception never execute.
  predicate NeedsNoExecution(l: Lane) {
    l.nop || l.op.exc != NO_ERROR
  }

  predicate AsksForFlush(e: Entry) {
    e.misp || e.op.exc != NO_ERROR
  }

  function Branches(w: seq<Entry>): (n: nat)
    ensures n <= |w|
  {
    if w == [] then 0 else Branches(w[..|w| - 1]) + (if w[|w| - 1].op.branch then 1 else 0)
  }

  // -------------------------------------------------------------- retirement

  // The first n instructions may leave together.
  ghost predicate MayRetire(w: seq<Entry>, n: nat) {
    && n <= |w|
    && (forall k | 0 <= k < n :: w[k].complete)
    && (forall k | 0 <= k < n - 1 :: !AsksForFlush(w[k]))
    && Branches(w[..n]) <= 1
  }

  lemma HeadEntries(s: State, k: nat)
    requires Inv(s) && k < 4
    ensures At(s, k).valid <==> k < Count(s)
    ensures k < Count(s) ==> At(s, k) == Window(s)[k]
  {
    assert Off(s.head, Slot(s.head, k, |s.entry|), |s.entry|) == k;
  }

  lemma {:induction false} BranchSumIs(s: State, k: nat)
    requires Inv(s) && k < 4 && k < Count(s)
    ensures BranchSum(s, k) == Branches(Window(s)[..k + 1])
  {
    HeadEntries(s, k);
    assert Window(s)[..k + 1][..k] == Window(s)[..k];
    if k > 0 {
      BranchSumIs(s, k - 1);
    } else {
      assert Window(s)[..0] == [];
    }
  }

  lemma MayRetireStep(w: seq<Entry>, k: nat)
    requires k < |w|
    ensures MayRetire(w, k + 1) <==>
      && MayRetire(w, k) && w[k].complete && (k > 0 ==> !AsksForFlush(w[k - 1])) && Branches(w[..k + 1]) <= 1
  {
    assert w[..k + 1][..k] == w[..k];
  }

  lemma {:induction false} RetireEnIs(s: State, k: nat)
    requires Inv(s) && k < 4
    ensures RetireEn(s, k) <==> MayRetire(Window(s), k + 1)
  {
    HeadEntries(s, k);
    if k < Count(s) {
      BranchSumIs(s, k);
      MayRetireStep(Window(s), k);
    }
    if k > 0 {
      HeadEntries(s, k - 1);
      RetireEnIs(s, k - 1);
    } else {
      assert Window(s)[..0] == [];
      if 0 < Count(s) {
        assert Window(s)[..1][..0] == [];
      }
    }
  }

  // Exactly as many instructions retire as may: the longest completed prefix of
  // at most four in which only the last asks for a flush and at most one is a
  // branch.
  lemma RetiresLongestPrefix(s: State, n: nat)
    requires Inv(s) && 0 < n <= 4
    ensures RetireCount(s) >= n <==> MayRetire(Window(s), n)
  {
    RetireWithinWindow(s);
    RetireEnIs(s, n - 1);
  }

  // A completed instruction at the front retires in that very cycle, and each
  // retirement lane carries the instruction and its misprediction mark.
  lemma FrontRetires(s: State)
    requires Inv(s)
    ensures RetirePkt(s)[0].valid <==> Count(s) > 0 && Window(s)[0].complete
    ensures forall k: nat | k < 4 && RetirePkt(s)[k].valid ::
      k < Count(s) && RetirePkt(s)[k].op == Window(s)[k].op && RetirePkt(s)[k].misp == Window(s)[k].misp
  {
    HeadEntries(s, 0);
    RetireWithinWindow(s);
  }

  // ---------------------------------------------------------------- dispatch

  // The entry that a valid lane's tag names after the edge.
  lemma DispatchedEntry(s: State, inp: Input, j: nat)
    requires Inv(s) && WfInput(inp) && Contiguous(inp.dispatch) && !inp.flush
    requires j < 4 && inp.dispatch[j].valid && Count(s) + LaneCount(inp.dispatch) <= |s.entry|
    ensures var i := TagResponse(s, inp, j).idx;
      && i < |s.entry| && Off(s.tail, i, |s.entry|) < LaneCount(inp.dispatch)
      && Next(s, inp).entry[i] == Entry(inp.dispatch[j].op, NeedsNoExecution(inp.dispatch[j]), false, true)
  {
    TagResponsePosition(s, inp, j);
    LanePlace(inp.dispatch, j);
    var k := Before(inp.dispatch, j);
    var i := Slot(s.tail, k, |s.entry|);
    assert Off(s.tail, i, |s.entry|) == k;
    assert Next(s, inp).entry[i] == NextEntry(s, inp, i);
  }

  // -------------------------------------------------------------------- runs

  // The buffer over a run; a group comes only while there is room.
  ghost predicate BufferRun(ss: seq<State>, ins: seq<Input>) {
    && |ss| == |ins| + 1
    && (forall t | 0 <= t <= |ins| :: Inv(ss[t]))
    && (forall t | 0 <= t < |ins| :: BufferStep(ss, ins, t))
  }

  ghost predicate BufferStep(ss: seq<State>, ins: seq<Input>, t: nat)
    requires t < |ins| && |ss| == |ins| + 1 && Inv(ss[t])
  {
    && WfInput(ins[t]) && ss[t + 1] == Next(ss[t], ins[t])
    && (!ins[t].flush ==> Count(ss[t]) + LaneCount(ins[t].dispatch) <= |ss[t].entry|)
  }

  // The instruction of lane j, dispatched at edge a into slot i, is still there
  // at edge t.
  ghost predicate Lives(ss: seq<State>, ins: seq<Input>, a: nat, j: nat, t: nat, i: nat)
    requires BufferRun(ss, ins)
  {
    && a < t <= |ins| && j < 4
    && BufferStep(ss, ins, a) && ins[a].dispatch[j].valid && Contiguous(ins[a].dispatch)
    && i == TagResponse(ss[a], ins[a], j).idx
    && (forall u | a <= u < t :: !ins[u].flush)
    && (forall u | a < u <= t :: i < |ss[u].entry| && ss[u].entry[i].valid)
  }

  // Some broadcast of the edges after a and before t names slot i.
  ghost predicate Heard(ins: seq<Input>, a: nat, t: nat, i: nat)
    requires t <= |ins| && forall u | a < u < t :: WfInput(ins[u])
  {
    exists u | a < u < t :: Broadcast(ins[u], i)
  }

  predicate Reports(inp: Input, i: nat)
    requires WfInput(inp)
  {
    inp.wb[5].valid && inp.wb[5].tag.idx == i && inp.brMisp
  }

  // The first of them reports a misprediction.
  ghost predicate FirstReports(ins: seq<Input>, a: nat, t: nat, i: nat)
    requires t <= |ins| && forall u | a < u < t :: WfInput(ins[u])
  {
    exists u | a < u < t :: Reports(ins[u], i) && forall v | a < v < u :: !Broadcast(ins[v], i)
  }

  lemma HeardOne(ins: seq<Input>, a: nat, t: nat, i: nat)
    requires a < t < |ins| && forall u | a < u < t + 1 :: WfInput(ins[u])
    ensures Heard(ins, a, t + 1, i) <==> Heard(ins, a, t, i) || (a < t && Broadcast(ins[t], i))
    ensures FirstReports(ins, a, t + 1, i) <==> FirstReports(ins, a, t, i) || (!Heard(ins, a, t, i) && Reports(ins[t], i))
  {
    if FirstReports(ins, a, t + 1, i) {
      var u :| a < u < t + 1 && Reports(ins[u], i) && forall v | a < v < u :: !Broadcast(ins[v], i);
      if u < t {
        assert FirstReports(ins, a, t, i);
      }
    }
    if !Heard(ins, a, t, i) && Reports(ins[t], i) {
      assert forall v | a < v < t :: !Broadcast(ins[v], i);
    }
  }

  // An entry that stays valid over an edge without a flush is the same
  // instruction, marked.
  lemma StaysMarked(s: State, inp: Input, i: nat)
    requires Inv(s) && WfInput(inp) && !inp.flush && i < |s.entry|
    requires Count(s) + LaneCount(inp.dispatch) <= |s.entry|
    requires s.entry[i].valid && Next(s, inp).entry[i].valid
    ensures Next(s, inp).entry[i] == Mark(s.entry[i], i, inp)
  {
    NextOffsets(s, inp, i);
    assert Next(s, inp).entry[i] == NextEntry(s, inp, i);
  }

  // The entry of lane l, given whether it was broadcast since and whether its
  // first broadcast reported a misprediction.
  ghost predicate IsEntryOf(e: Entry, l: Lane, heard: bool, reported: bool) {
    && e.op == l.op
    && (e.complete <==> NeedsNoExecution(l) || heard)
    && (e.misp <==> !NeedsNoExecution(l) && reported)
  }

  lemma MarkedIs(e: Entry, i: nat, inp: Input, l: Lane, heard: bool, reported: bool)
    requires WfInput(inp) && e.valid && IsEntryOf(e, l, heard, reported) && (reported ==> heard)
    ensures IsEntryOf(Mark(e, i, inp), l, heard || Broadcast(inp, i), reported || (!heard && Reports(inp, i)))
  {
  }

  lemma LivesBefore(ss: seq<State>, ins: seq<Input>, a: nat, j: nat, t: nat, i: nat)
    requires BufferRun(ss, ins) && Lives(ss, ins, a, j, t, i)
    ensures forall u | a < u < t :: WfInput(ins[u])
    ensures a + 1 < t ==> Lives(ss, ins, a, j, t - 1, i)
    ensures a + 1 < t ==> ss[t].entry[i] == Mark(ss[t - 1].entry[i], i, ins[t - 1]) && ss[t - 1].entry[i].valid
  {
    forall u | a < u < t
      ensures WfInput(ins[u])
    {
      assert BufferStep(ss, ins, u);
    }
    if a + 1 < t {
      assert BufferStep(ss, ins, t - 1);
      StaysMarked(ss[t - 1], ins[t - 1], i);
    }
  }

  lemma FirstEntry(ss: seq<State>, ins: seq<Input>, a: nat, j: nat, i: nat)
    requires BufferRun(ss, ins) && Lives(ss, ins, a, j, a + 1, i)
    ensures IsEntryOf(ss[a + 1].entry[i], ins[a].dispatch[j], false, false)
  {
    DispatchedEntry(ss[a], ins[a], j);
  }

  // A live instruction is the one that was dispatched; it is complete exactly if
  // it needs no execution or has been broadcast since, and marked mispredicted
  // exactly if its first broadcast said so.
  lemma {:induction false} LiveEntry(ss: seq<State>, ins: seq<Input>, a: nat, j: nat, t: nat, i: nat)
    requires BufferRun(ss, ins) && Lives(ss, ins, a, j, t, i)
    ensures forall u | a < u < t :: WfInput(ins[u])
    ensures IsEntryOf(ss[t].entry[i], ins[a].dispatch[j], Heard(ins, a, t, i), FirstReports(ins, a, t, i))
  {
    LivesBefore(ss, ins, a, j, t, i);
    if t == a + 1 {
      FirstEntry(ss, ins, a, j, i);
    } else {
      LiveEntry(ss, ins, a, j, t - 1, i);
      ReportIsBroadcast(ins, a, t - 1, i);
      HeardOne(ins, a, t - 1, i);
      assert WfInput(ins[t - 1]);
      hide IsEntryOf, Mark, Lives, BufferRun, Heard, FirstReports;
      MarkedIs(ss[t - 1].entry[i], i, ins[t - 1], ins[a].dispatch[j], Heard(ins, a, t - 1, i), FirstReports(ins, a, t - 1, i));
    }
  }

  lemma ReportIsBroadcast(ins: seq<Input>, a: nat, t: nat, i: nat)
    requires t <= |ins| && forall u | a < u < t :: WfInput(ins[u])
    ensures FirstReports(ins, a, t, i) ==> Heard(ins, a, t, i)
  {
    if FirstReports(ins, a, t, i) {
      var u :| a < u < t && Reports(ins[u], i) && forall v | a < v < u :: !Broadcast(ins[v], i);
      assert Broadcast(ins[u], i);
    }
  }

  // So an instruction that needs no execution, or has been broadcast, retires as
  // soon as it is at the front; and with it goes what its report said.
  lemma FrontInstruction(ss: seq<State>, ins: seq<Input>, a: nat, j: nat, t: nat, i: nat)
    requires BufferRun(ss, ins) && Lives(ss, ins, a, j, t, i) && ss[t].head == i
    ensures forall u | a < u < t :: WfInput(ins[u])
    ensures var l, r := ins[a].dispatch[j], RetirePkt(ss[t])[0];
      && (r.valid <==> NeedsNoExecution(l) || Heard(ins, a, t, i))
      && (r.valid ==> r.op == l.op && (r.misp <==> !NeedsNoExecution(l) && FirstReports(ins, a, t, i)))
  {
    LiveEntry(ss, ins, a, j, t, i);
    FrontRetires(ss[t]);
    HeadEntries(ss[t], 0);
  }
}
