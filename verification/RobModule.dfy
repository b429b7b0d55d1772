/**
  The clocked blocks of verilog/ROB.sv as they are written: registers and an
  entry array updated in place, with the nested tests on the dispatch lanes, each
  later assignment overriding the earlier ones.
 */
module RobModule {
  import opened Rob
  import opened Ring
  import F = RobFifo
  import O = RobOrder

  // Dispatch groups occupy neighbouring lanes (verilog/ROB.sv:246-270).
  predicate Contiguous(lanes: seq<Lane>)
    requires |lanes| == 4
  {
    && (lanes[0].valid && lanes[2].valid ==> lanes[1].valid)
    && (lanes[0].valid && lanes[3].valid ==> lanes[1].valid && lanes[2].valid)
    && (lanes[1].valid && lanes[3].valid ==> lanes[2].valid)
  }

  function One(l: Lane): seq<Entry> {
    if l.valid then [NewEntry(l)] else []
  }

  lemma Front(lanes: seq<Lane>, k: nat)
    requires 0 < k <= |lanes|
    ensures NewEntries(lanes[..k]) == NewEntries(lanes[..k - 1]) + One(lanes[k - 1])
  {
    assert lanes[..k][..k - 1] == lanes[..k - 1];
  }

  // The group as dispatched, lane by lane.
  function InOrder(lanes: seq<Lane>): seq<Entry>
    requires |lanes| == 4
  {
    ((One(lanes[0]) + One(lanes[1])) + One(lanes[2])) + One(lanes[3])
  }

  lemma FirstTwo(lanes: seq<Lane>)
    requires |lanes| == 4
    ensures NewEntries(lanes[..1]) == One(lanes[0])
    ensures NewEntries(lanes[..2]) == One(lanes[0]) + One(lanes[1])
  {
    Front(lanes, 1);
    Front(lanes, 2);
    assert NewEntries(lanes[..0]) == [];
  }

  lemma FourLanes(lanes: seq<Lane>)
    requires |lanes| == 4
    ensures NewEntries(lanes) == InOrder(lanes)
    ensures NewEntries(lanes[..3]) == (One(lanes[0]) + One(lanes[1])) + One(lanes[2])
  {
    FirstTwo(lanes);
    Front(lanes, 3);
    Front(lanes, 4);
    assert lanes[..4] == lanes;
  }

  // Lane j of the tag response, by the position of the first valid lane.
  function TagResponse(s: State, inp: Input, j: nat): Tag
    requires Wf(s) && WfInput(inp) && j < 4
  {
    if inp.dispatch[0].valid then DispatchTag(s, inp, j)
    else if inp.dispatch[1].valid then (if j < 1 then Tag(false, 0) else DispatchTag(s, inp, j - 1))
    else if inp.dispatch[2].valid then (if j < 2 then Tag(false, 0) else DispatchTag(s, inp, j - 2))
    else (if j < 3 then Tag(false, 0) else DispatchTag(s, inp, j - 3))
  }

  // How many valid lanes lie before lane j.
  function Before(lanes: seq<Lane>, j: nat): nat
    requires |lanes| == 4 && j < 4
  {
    (if j > 0 && lanes[0].valid then 1 else 0) + (if j > 1 && lanes[1].valid then 1 else 0) +
    (if j > 2 && lanes[2].valid then 1 else 0)
  }

  // A valid lane's place in the group, its entry, and the tag it is answered.
  lemma LanePlace(lanes: seq<Lane>, j: nat)
    requires |lanes| == 4 && Contiguous(lanes) && j < 4 && lanes[j].valid
    ensures Before(lanes, j) < LaneCount(lanes)
    ensures NewEntries(lanes)[Before(lanes, j)] == NewEntry(lanes[j])
  {
    FourLanes(lanes);
  }

  lemma TagResponsePosition(s: State, inp: Input, j: nat)
    requires Wf(s) && WfInput(inp) && Contiguous(inp.dispatch)
    requires j < 4 && inp.dispatch[j].valid
    ensures TagResponse(s, inp, j) == DispatchTag(s, inp, Before(inp.dispatch, j))
  {
  }

  // The oldest-misprediction registers after an edge.
  function HeldMisp(held: bool, tag: Tag, pc: nat, inp: Input): (bool, Tag, nat)
    requires WfInput(inp)
  {
    if inp.flush then (false, Tag(false, 0), 0)
    else if (exists w | 0 <= w < 7 :: inp.wb[w].valid) && inp.brMisp && (held ==> OlderTag(inp.wb[5].tag, tag))
    then (true, inp.wb[5].tag, inp.redirect)
    else (held, tag, pc)
  }

  lemma HeldMispIsNext(s: State, inp: Input)
    requires Wf(s) && WfInput(inp)
    ensures HeldMisp(s.brMisp, s.mispTag, s.redirect, inp) == (Next(s, inp).brMisp, Next(s, inp).mispTag, Next(s, inp).redirect)
  {
  }

  // The seven comparators of one entry.
  lemma BroadcastLanes(inp: Input, i: nat)
    requires WfInput(inp)
    ensures Broadcast(inp, i) <==>
      || (i == inp.wb[0].tag.idx && inp.wb[0].valid) || (i == inp.wb[1].tag.idx && inp.wb[1].valid)
      || (i == inp.wb[2].tag.idx && inp.wb[2].valid) || (i == inp.wb[3].tag.idx && inp.wb[3].valid)
      || (i == inp.wb[4].tag.idx && inp.wb[4].valid) || (i == inp.wb[5].tag.idx && inp.wb[5].valid)
      || (i == inp.wb[6].tag.idx && inp.wb[6].valid)
  {
  }

  class ReorderBuffer {
    const rob_entry: array<Entry>
    var head_ptr: nat
    var tail_ptr: nat
    var head_position_bit: bool
    var tail_position_bit: bool
    var branch_misp: bool
    var misp_rob: Tag
    var redirect_pc: nat

    ghost predicate Valid()
      reads this, rob_entry
    {
      Wf(Value())
    }

    ghost function Value(): State
      reads this, rob_entry
    {
      State(rob_entry[..], head_ptr, tail_ptr, head_position_bit, tail_position_bit, branch_misp, misp_rob, redirect_pc)
    }

    constructor (d: nat)
      requires d >= 8 && d % 4 == 0
      ensures Valid() && fresh(rob_entry) && Value() == Reset(d)
    {
      rob_entry := new Entry[d](_ => EMPTY_ENTRY);
      head_ptr, tail_ptr := 0, 0;
      head_position_bit, tail_position_bit := false, false;
      branch_misp, misp_rob, redirect_pc := false, Tag(false, 0), 0;
    }

    // retire_en, lane by lane from the head.
    method RetireEnables() returns (en: seq<bool>)
      requires Valid()
      ensures |en| == 4 && forall k: nat | k < 4 :: en[k] == RetireEn(Value(), k)
    {
      var d := rob_entry.Length;
      var e0, e1 := rob_entry[head_ptr], rob_entry[Slot(head_ptr, 1, d)];
      var e2, e3 := rob_entry[Slot(head_ptr, 2, d)], rob_entry[Slot(head_ptr, 3, d)];
      var b0, b1 := if e0.op.branch then 1 else 0, if e1.op.branch then 1 else 0;
      var b2, b3 := if e2.op.branch then 1 else 0, if e3.op.branch then 1 else 0;
      var en0 := e0.valid && e0.complete;
      var flush0 := en0 && (e0.misp || e0.op.exc != NO_ERROR);
      var en1 := en0 && !flush0 && e1.valid && e1.complete && b0 + b1 <= 1;
      var flush1 := en1 && (e1.misp || e1.op.exc != NO_ERROR);
      var en2 := en1 && !flush1 && e2.valid && e2.complete && b0 + b1 + b2 <= 1;
      var flush2 := en2 && (e2.misp || e2.op.exc != NO_ERROR);
      var en3 := en2 && !flush2 && e3.valid && e3.complete && b0 + b1 + b2 + b3 <= 1;
      ghost var s := Value();
      assert At(s, 0) == e0 && At(s, 1) == e1 && At(s, 2) == e2 && At(s, 3) == e3;
      assert BranchSum(s, 0) == b0 && BranchSum(s, 1) == b0 + b1;
      assert BranchSum(s, 2) == b0 + b1 + b2 && BranchSum(s, 3) == b0 + b1 + b2 + b3;
      assert en0 == RetireEn(s, 0) && flush0 == FlushEn(s, 0);
      assert en1 == RetireEn(s, 1) && flush1 == FlushEn(s, 1);
      assert en2 == RetireEn(s, 2) && flush2 == FlushEn(s, 2);
      assert en3 == RetireEn(s, 3);
      en := [en0, en1, en2, en3];
    }

    // The writeback assignment of an entry's clocked block.
    static method WritebackEntry(inp: Input, i: nat, e0: Entry) returns (e: Entry)
      requires WfInput(inp)
      ensures e == Mark(e0, i, inp)
    {
      BroadcastLanes(inp, i);
      hide Broadcast;
      e := e0;
      if e.valid && !e.complete {
        e := e.(
          complete :=
            (i == inp.wb[0].tag.idx && inp.wb[0].valid) || (i == inp.wb[1].tag.idx && inp.wb[1].valid) ||
            (i == inp.wb[2].tag.idx && inp.wb[2].valid) || (i == inp.wb[3].tag.idx && inp.wb[3].valid) ||
            (i == inp.wb[4].tag.idx && inp.wb[4].valid) || (i == inp.wb[5].tag.idx && inp.wb[5].valid) ||
            (i == inp.wb[6].tag.idx && inp.wb[6].valid),
          misp := i == inp.wb[5].tag.idx && inp.wb[5].valid && inp.brMisp);
      }
    }

    // The four retire assignments that follow it.
    method RetireEntry(en: seq<bool>, i: nat, e0: Entry) returns (e: Entry)
      requires Valid() && i < rob_entry.Length
      requires |en| == 4 && forall k: nat | k < 4 :: en[k] == RetireEn(Value(), k)
      ensures e == if Off(head_ptr, i, rob_entry.Length) < RetireCount(Value()) then e0.(valid := false) else e0
    {
      var d := rob_entry.Length;
      e := e0;
      if en[0] && i == head_ptr { e := e.(valid := false); }
      if en[1] && i == Slot(head_ptr, 1, d) { e := e.(valid := false); }
      if en[2] && i == Slot(head_ptr, 2, d) { e := e.(valid := false); }
      if en[3] && i == Slot(head_ptr, 3, d) { e := e.(valid := false); }
      ghost var s := Value();
      assert RetireEn(s, 3) ==> RetireEn(s, 2);
      assert RetireEn(s, 2) ==> RetireEn(s, 1);
      assert RetireEn(s, 1) ==> RetireEn(s, 0);
    }

    // The allocate assignment: the first valid lane decides which lane lands
    // at which distance from the tail.
    method Allocate(ls: seq<Lane>, i: nat, e0: Entry) returns (e: Entry)
      requires Valid() && |ls| == 4 && Contiguous(ls) && i < rob_entry.Length
      ensures e ==
        if Off(tail_ptr, i, rob_entry.Length) < LaneCount(ls) then NewEntries(ls)[Off(tail_ptr, i, rob_entry.Length)] else e0
    {
      hide LaneCount, NewEntries, NewEntry;
      var d := rob_entry.Length;
      e := e0;
      if ls[0].valid {
        if i == tail_ptr { e := NewEntry(ls[0]); }
        else if i == Slot(tail_ptr, 1, d) && ls[1].valid { e := NewEntry(ls[1]); }
        else if i == Slot(tail_ptr, 2, d) && ls[2].valid { e := NewEntry(ls[2]); }
        else if i == Slot(tail_ptr, 3, d) && ls[3].valid { e := NewEntry(ls[3]); }
      } else if ls[1].valid {
        if i == tail_ptr { e := NewEntry(ls[1]); }
        else if i == Slot(tail_ptr, 1, d) && ls[2].valid { e := NewEntry(ls[2]); }
        else if i == Slot(tail_ptr, 2, d) && ls[3].valid { e := NewEntry(ls[3]); }
      } else if ls[2].valid {
        if i == tail_ptr { e := NewEntry(ls[2]); }
        else if i == Slot(tail_ptr, 1, d) && ls[3].valid { e := NewEntry(ls[3]); }
      } else if ls[3].valid {
        if i == tail_ptr { e := NewEntry(ls[3]); }
      }
      FourLanes(ls);
    }

    // The right-hand sides of the entry registers, all read from the old state.
    method EntriesEdge(inp: Input, en: seq<bool>) returns (next: array<Entry>)
      requires Valid() && WfInput(inp) && Contiguous(inp.dispatch)
      requires |en| == 4 && forall k: nat | k < 4 :: en[k] == RetireEn(Value(), k)
      ensures fresh(next) && next.Length == rob_entry.Length && next[..] == Next(Value(), inp).entry
    {
      hide RetireEn, Slot;
      ghost var s := Value();
      var d := rob_entry.Length;
      next := new Entry[d](_ => EMPTY_ENTRY);
      if inp.flush {
        return;
      }
      for i := 0 to d
        modifies next
        invariant forall j | 0 <= j < i :: next[j] == NextEntry(s, inp, j)
      {
        var e := WritebackEntry(inp, i, rob_entry[i]);
        e := RetireEntry(en, i, e);
        next[i] := Allocate(inp.dispatch, i, e);
      }
    }

    // branch_misp, redirect_pc and misp_rob.
    method MispEdge(inp: Input)
      requires Valid() && WfInput(inp)
      modifies `branch_misp, `redirect_pc, `misp_rob
      ensures (branch_misp, misp_rob, redirect_pc) == HeldMisp(old(branch_misp), old(misp_rob), old(redirect_pc), inp)
    {
      if inp.flush {
        branch_misp, misp_rob, redirect_pc := false, Tag(false, 0), 0;
      } else if (exists w | 0 <= w < 7 :: inp.wb[w].valid) && inp.brMisp {
        if !branch_misp {
          branch_misp, redirect_pc, misp_rob := true, inp.redirect, inp.wb[5].tag;
        } else if (misp_rob.bit == inp.wb[5].tag.bit && inp.wb[5].tag.idx < misp_rob.idx) ||
                  (misp_rob.bit != inp.wb[5].tag.bit && inp.wb[5].tag.idx > misp_rob.idx) {
          redirect_pc, misp_rob := inp.redirect, inp.wb[5].tag;
        }
      }
    }

    // The two pointers and their wrap bits.
    method PointersEdge(inp: Input, en: seq<bool>)
      requires Valid() && WfInput(inp)
      requires |en| == 4 && forall k: nat | k < 4 :: en[k] == RetireEn(Value(), k)
      modifies `head_ptr, `tail_ptr, `head_position_bit, `tail_position_bit
      ensures var s := old(Value());
        && head_ptr == Next(s, inp).head && tail_ptr == Next(s, inp).tail
        && head_position_bit == Next(s, inp).headBit && tail_position_bit == Next(s, inp).tailBit
    {
      if inp.flush {
        head_ptr, tail_ptr := 0, 0;
        head_position_bit, tail_position_bit := false, false;
      } else {
        var d, cnt := rob_entry.Length, LaneCount(inp.dispatch);
        var retired := (if en[0] then 1 else 0) + (if en[1] then 1 else 0) + (if en[2] then 1 else 0) + (if en[3] then 1 else 0);
        var nextHead, nextTail := Slot(head_ptr, retired, d), Slot(tail_ptr, cnt, d);
        if Overflow(head_ptr, nextHead, d) { head_position_bit := !head_position_bit; }
        if Overflow(tail_ptr, nextTail, d) { tail_position_bit := !tail_position_bit; }
        head_ptr, tail_ptr := nextHead, nextTail;
      }
    }

    method Store(next: array<Entry>)
      requires next.Length == rob_entry.Length && next != rob_entry
      modifies rob_entry
      ensures rob_entry[..] == next[..]
    {
      for i := 0 to next.Length
        invariant rob_entry[..i] == next[..i]
      {
        rob_entry[i] := next[i];
      }
    }

    // One clock edge: every register takes its new value, read from the old.
    method Posedge(inp: Input)
      requires Valid() && WfInput(inp) && Contiguous(inp.dispatch)
      modifies this, rob_entry
      ensures Valid()
      ensures Value() == Next(old(Value()), inp)
    {
      hide Next, WfInput;
      ghost var s := Value();
      var en := RetireEnables();
      var next := EntriesEdge(inp, en);
      PointersEdge(inp, en);
      MispEdge(inp);
      HeldMispIsNext(s, inp);
      Store(next);
    }
  }

  // The tag a valid lane is answered with is its program-order number, modulo
  // twice the depth, and it is where the lane's entry lands.
  lemma LaneTagIsSeq(s: State, inp: Input, base: nat, j: nat)
    requires O.SeqInv(s, base) && WfInput(inp) && Contiguous(inp.dispatch)
    requires j < 4 && inp.dispatch[j].valid && !inp.flush
    requires F.Count(s) + LaneCount(inp.dispatch) <= |s.entry|
    ensures var q := base + F.Count(s) + Before(inp.dispatch, j);
      && TagResponse(s, inp, j) == O.TagOf(q, |s.entry|)
      && TagResponse(s, inp, j).idx + (if TagResponse(s, inp, j).bit then |s.entry| else 0) == q % (2 * |s.entry|)
      && Next(s, inp).entry[TagResponse(s, inp, j).idx] == NewEntry(inp.dispatch[j])
  {
    var b := Before(inp.dispatch, j);
    LanePlace(inp.dispatch, j);
    TagResponsePosition(s, inp, j);
    O.DispatchTagIsSeq(s, inp, base, b);
    O.TagIsSeqMod(base + F.Count(s) + b, |s.entry|);
    assert Off(s.tail, Slot(s.tail, b, |s.entry|), |s.entry|) == b;
  }
}
