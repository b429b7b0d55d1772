/**
  Program order in the store queue. Stores are numbered 0, 1, 2, ... in dispatch
  order (a flush takes back the numbers of the stores it drops); base is the
  number of the oldest store that has not fired, and a load's limit is the number
  the next store would have had at its dispatch. A live load's mask is then
  exactly the set of unfired stores numbered below its limit.
 */
module LsqOrder {
  import opened Lsq
  import opened LsqQueue
  import opened LsqSafety
  import opened Ring
  import Select

  // Slots of the first lim stores from head on.
  ghost function FirstSlots(head: nat, lim: int, d: nat): set<nat>
    requires head < d
  {
    set j: nat | j < d && Off(head, j, d) < lim
  }

  // One live load against the store queue: older counts the unfired stores
  // older than it, and the youngest of those has its slot on record.
  ghost predicate MaskOk(l: Ld, head: nat, older: int, count: int, d: nat)
    requires head < d
  {
    && older <= count
    && (forall j: nat :: j in l.mask <==> j < d && Off(head, j, d) < older)
    && (older > 0 ==> older <= d && l.youngest == Slot(head, older - 1, d))
  }

  ghost predicate EntryMask(l: Ld, head: nat, older: int, count: int, d: nat)
    requires head < d
  {
    if l.valid then MaskOk(l, head, older, count, d) else l.mask == {}
  }

  // A sleeping entry, in use or not, waits for an unfired store; if it is in
  // use, for one of the load's own older stores.
  ghost predicate SleepOk(l: Ld, head: nat, count: int, d: nat)
    requires head < d
  {
    l.sleep ==> l.fwdStq < d && Off(head, l.fwdStq, d) < count && (l.valid ==> l.fwdStq in l.mask)
  }

  ghost predicate EntryMasks(ldq: seq<Ld>, head: nat, count: int, base: nat, hi: seq<int>) {
    && |hi| == |ldq| && head < |ldq|
    && (forall i | 0 <= i < |ldq| :: EntryMask(ldq[i], head, hi[i] - base, count, |ldq|))
  }

  ghost predicate Masks(s: State, base: nat, hi: seq<int>) {
    EntryMasks(s.ldq, s.sHead.idx, StCount(s), base, hi)
  }

  ghost predicate Sleeps(s: State)
    requires Wf(s)
  {
    && (forall i | 0 <= i < |s.ldq| :: SleepOk(s.ldq[i], s.sHead.idx, StCount(s), |s.stq|))
    && (s.fwd.sleep ==> s.fwd.stq in s.ldq[s.fwd.ldq].mask)
  }

  ghost predicate OrderInv(s: State, base: nat, hi: seq<int>) {
    Core(s) && Masks(s, base, hi) && Sleeps(s)
  }

  // The number of the store in slot j.
  function Number(s: State, base: nat, j: nat): nat
    requires Wf(s) && j < |s.stq|
  {
    base + StOff(s, j)
  }

  // The number the next store would get, seen from lane k of the group.
  function NextNumber(s: State, base: nat, lanes: seq<Op>, k: nat): int
    requires k <= |lanes|
  {
    base + StCount(s) + Stores(lanes[..k])
  }

  function NextHi(s: State, inp: Input, base: nat, hi: seq<int>): (hi': seq<int>)
    requires Wf(s) && WfInput(inp) && |hi| == |s.ldq|
    ensures |hi'| == |hi|
  {
    seq(|hi|, i requires 0 <= i < |hi| =>
      var o := Off(s.lTail.idx, i, |s.ldq|);
      if o < Loads(inp.lanes) then NextNumber(s, base, inp.lanes, LoadLane(inp.lanes, o)) else hi[i])
  }

  // ---------------------------------------------------------- group dispatch

  lemma ValidStoresAre(s: State)
    requires StqInv(s) && !Orphaned(s)
    ensures ValidStores(s) == FirstSlots(s.sHead.idx, StCount(s), |s.stq|)
    ensures ValidStores(s) == {} <==> StCount(s) == 0
  {
    forall j: nat | j < |s.stq|
      ensures s.stq[j].valid <==> Off(s.sHead.idx, j, |s.stq|) < StCount(s)
    {
      WindowIsValid(s, j);
    }
    if StCount(s) > 0 {
      assert s.sHead.idx in ValidStores(s);
    }
  }

  // The index sums of the intra-group check name the slot of the last store
  // dispatched before lane k.
  lemma LaneYoungestIs(s: State, lanes: seq<Op>, k: nat)
    requires StqInv(s) && !Orphaned(s) && |lanes| == 4 && k < 4 && StCount(s) + 4 <= |s.stq|
    requires StCount(s) + Stores(lanes[..k]) > 0
    ensures LaneYoungest(s, lanes, k) == Slot(s.sHead.idx, StCount(s) + Stores(lanes[..k]) - 1, |s.stq|)
  {
    ValidStoresAre(s);
  }

  lemma LaneMaskStep(s: State, lanes: seq<Op>, k: nat, c: nat, d: nat)
    requires Wf(s) && |lanes| == 4 && 0 < k < 4 && d == |s.stq| && c < d
    requires LaneMask(s, lanes, k - 1) == FirstSlots(s.sHead.idx, c, d)
    requires lanes[k - 1].Store? ==> LaneYoungest(s, lanes, k) == Slot(s.sHead.idx, c, d)
    ensures LaneMask(s, lanes, k) == FirstSlots(s.sHead.idx, if lanes[k - 1].Store? then c + 1 else c, d)
  {
    OneMore(s.sHead.idx, c, d);
  }

  // The masks chained through the group: every unfired store, and every store
  // in an earlier lane.
  lemma {:induction false} LaneMaskIs(s: State, lanes: seq<Op>, k: nat)
    requires StqInv(s) && !Orphaned(s) && |lanes| == 4 && k < 4 && StCount(s) + 4 <= |s.stq|
    ensures LaneMask(s, lanes, k) == FirstSlots(s.sHead.idx, StCount(s) + Stores(lanes[..k]), |s.stq|)
  {
    hide Stores;
    if k == 0 {
      ValidStoresAre(s);
    } else {
      LaneMaskIs(s, lanes, k - 1);
      StoresSnoc(lanes, k);
      if lanes[k - 1].Store? {
        LaneYoungestIs(s, lanes, k);
      }
      LaneMaskStep(s, lanes, k, StCount(s) + Stores(lanes[..k - 1]), |s.stq|);
    }
  }

  lemma StoresSnoc(lanes: seq<Op>, k: nat)
    requires 0 < k <= |lanes|
    ensures Stores(lanes[..k]) == Stores(lanes[..k - 1]) + (if lanes[k - 1].Store? then 1 else 0)
  {
    assert lanes[..k][..k - 1] == lanes[..k - 1];
  }

  lemma OneMore(head: nat, lim: nat, d: nat)
    requires head < d && lim < d
    ensures FirstSlots(head, lim + 1, d) == FirstSlots(head, lim, d) + {Slot(head, lim, d)}
  {
    assert Off(head, Slot(head, lim, d), d) == lim;
    forall j: nat | j < d && Off(head, j, d) == lim
      ensures j == Slot(head, lim, d)
    {
    }
  }

  // ---------------------------------------------------------- one load entry

  // The fired store leaves the mask and the numbering together.
  lemma MaskAfterFire(l: Ld, l': Ld, head: nat, older: int, count: int, d: nat)
    requires head < d && MaskOk(l, head, older, count, d) && 0 < count <= d
    requires l'.youngest == l.youngest && l'.mask == l.mask - {head}
    ensures MaskOk(l', Slot(head, 1, d), older - 1, count - 1, d)
  {
    forall j: nat
      ensures j in l'.mask <==> j < d && Off(Slot(head, 1, d), j, d) < older - 1
    {
      if j < d {
        MovedHead(head, 1, d, j);
      }
    }
  }

  lemma EntryMaskStep(l: Ld, w: Wire, head: nat, older: int, older': int, count: int, n: nat, d: nat)
    requires head < d && EntryMask(l, head, older, count, d) && count + n <= d
    requires w.alloc ==> !l.valid && w.aMask == FirstSlots(head, older', d) && older' <= count + n
    requires w.alloc && older' > 0 ==> w.aYoungest == Slot(head, older' - 1, d)
    requires !w.alloc ==> older' == older
    requires w.stFire ==> w.stTag == head && count > 0
    ensures var f := if w.stFire then 1 else 0;
      EntryMask(NextLd(l, w), Slot(head, f, d), older' - f, count + n - f, d)
  {
    var now := if w.alloc then l.(valid := true, mask := w.aMask, youngest := w.aYoungest) else l;
    var l' := NextLd(l, w);
    if l'.valid && w.stFire {
      MaskAfterFire(now, l', head, older', count + n, d);
    }
  }

  // What a newly allocated entry is given.
  lemma AllocWires(s: State, inp: Input, oldestFirst: bool, base: nat, hi: seq<int>, i: nat)
    requires StqInv(s) && LdqInv(s) && EnvOk(s, inp) && !inp.flush && i < |s.ldq| && |hi| == |s.ldq|
    requires Off(s.lTail.idx, i, |s.ldq|) < Loads(inp.lanes)
    ensures var w, older := WireOf(s, inp, oldestFirst, i), NextHi(s, inp, base, hi)[i] - base;
      && w.aMask == FirstSlots(s.sHead.idx, older, |s.stq|)
      && older <= StCount(s) + Stores(inp.lanes) <= |s.stq|
      && (older > 0 ==> w.aYoungest == Slot(s.sHead.idx, older - 1, |s.stq|))
  {
    hide Loads, Stores;
    var k := LoadLane(inp.lanes, Off(s.lTail.idx, i, |s.ldq|));
    LaneMaskIs(s, inp.lanes, k);
    StoresBelow(inp.lanes, k);
    if StCount(s) + Stores(inp.lanes[..k]) > 0 {
      LaneYoungestIs(s, inp.lanes, k);
    }
  }

  lemma MaskWires(s: State, inp: Input, oldestFirst: bool, i: nat)
    requires StqInv(s) && LdqInv(s) && EnvOk(s, inp) && !inp.flush && i < |s.ldq|
    ensures var w := WireOf(s, inp, oldestFirst, i);
      && (w.alloc <==> Off(s.lTail.idx, i, |s.ldq|) < Loads(inp.lanes))
      && (w.alloc ==> !s.ldq[i].valid)
      && (w.stFire <==> Fired(s, inp) == 1)
      && (w.stFire ==> w.stTag == s.sHead.idx && StCount(s) > 0)
    ensures StCount(s) + Stores(inp.lanes) <= |s.stq|
  {
    LoadSlotStep(s, inp, i);
  }

  lemma MaskAt(s: State, inp: Input, base: nat, hi: seq<int>, i: nat)
    requires Wf(s) && WfInput(inp) && Masks(s, base, hi) && i < |s.ldq|
    ensures |hi| == |s.ldq| && EntryMask(s.ldq[i], s.sHead.idx, hi[i] - base, StCount(s), |s.stq|)
    ensures Off(s.lTail.idx, i, |s.ldq|) >= Loads(inp.lanes) ==> NextHi(s, inp, base, hi)[i] == hi[i]
  {
  }

  lemma LoadMaskStep(s: State, inp: Input, oldestFirst: bool, base: nat, hi: seq<int>, i: nat)
    requires StqInv(s) && LdqInv(s) && Masks(s, base, hi) && EnvOk(s, inp) && !inp.flush && i < |s.ldq|
    ensures var f := Fired(s, inp);
      EntryMask(NextLd(s.ldq[i], WireOf(s, inp, oldestFirst, i)), Slot(s.sHead.idx, f, |s.stq|),
                NextHi(s, inp, base, hi)[i] - base - f, StCount(s) + Stores(inp.lanes) - f, |s.stq|)
  {
    hide Loads, Stores, LdqInv, StoresOk, EntryMask, ExecOk, RetOk, Kill, NextLd, NextHi, StCount;
    MaskWires(s, inp, oldestFirst, i);
    MaskAt(s, inp, base, hi, i);
    if Off(s.lTail.idx, i, |s.ldq|) < Loads(inp.lanes) {
      AllocWires(s, inp, oldestFirst, base, hi, i);
    }
    EntryMaskStep(s.ldq[i], WireOf(s, inp, oldestFirst, i), s.sHead.idx, hi[i] - base,
                  NextHi(s, inp, base, hi)[i] - base, StCount(s), Stores(inp.lanes), |s.stq|);
  }

  lemma {:induction false} StoresBelow(lanes: seq<Op>, k: nat)
    requires k <= |lanes|
    ensures Stores(lanes[..k]) <= Stores(lanes)
    decreases |lanes|
  {
    if k < |lanes| {
      StoresBelow(lanes[..|lanes| - 1], k);
      assert lanes[..|lanes| - 1][..k] == lanes[..k];
    } else {
      assert lanes[..k] == lanes;
    }
  }

  // ------------------------------------------------------------ whole queue

  lemma HeadAndCount(s: State, inp: Input, oldestFirst: bool)
    requires StqInv(s) && LdqInv(s) && EnvOk(s, inp)
    ensures var s', f := Next(s, inp, oldestFirst), Fired(s, inp);
      && StqInv(s') && s'.stq == NextStq(s, inp)
      && s'.sHead.idx == Slot(s.sHead.idx, f, |s.stq|)
      && StCount(s') == if inp.flush then RetCount(s) + RetStores(inp.ret) - f else StCount(s) + Stores(inp.lanes) - f
  {
    StqStep(s, inp, oldestFirst);
    StPointers(s, inp);
  }

  lemma NextEntryMasks(s: State, inp: Input, oldestFirst: bool, base: nat, hi: seq<int>)
    requires StqInv(s) && LdqInv(s) && Masks(s, base, hi) && EnvOk(s, inp) && !inp.flush
    ensures var f := Fired(s, inp);
      EntryMasks(NextLdq(s, inp, oldestFirst), Slot(s.sHead.idx, f, |s.stq|), StCount(s) + Stores(inp.lanes) - f,
                    base + f, NextHi(s, inp, base, hi))
  {
    hide Stores;
    forall i | 0 <= i < |s.ldq|
      ensures var f := Fired(s, inp);
        EntryMask(NextLdq(s, inp, oldestFirst)[i], Slot(s.sHead.idx, f, |s.stq|),
                     NextHi(s, inp, base, hi)[i] - (base + f), StCount(s) + Stores(inp.lanes) - f, |s.ldq|)
    {
      LoadMaskStep(s, inp, oldestFirst, base, hi, i);
    }
  }

  lemma MasksStep(s: State, inp: Input, oldestFirst: bool, base: nat, hi: seq<int>, base': nat, hi': seq<int>)
    requires StqInv(s) && LdqInv(s) && Masks(s, base, hi) && EnvOk(s, inp) && !inp.flush
    requires base' == base + Fired(s, inp) && hi' == NextHi(s, inp, base, hi)
    ensures Masks(Next(s, inp, oldestFirst), base', hi')
  {
    hide EnvOk, Loads, NextFireLd, NextFwd, NextLdq, NextRet, NextStHead;
    HeadAndCount(s, inp, oldestFirst);
    NextEntryMasks(s, inp, oldestFirst, base, hi);
  }

  lemma MasksAreLive(s: State, base: nat, hi: seq<int>)
    requires StqInv(s) && Masks(s, base, hi)
    ensures MasksLive(s)
  {
    forall i, j | 0 <= i < |s.ldq| && j in s.ldq[i].mask
      ensures j < |s.stq| && s.stq[j].valid
    {
      assert EntryMask(s.ldq[i], s.sHead.idx, hi[i] - base, StCount(s), |s.stq|);
      assert StoreOk(s.stq[j], StOff(s, j), RetCount(s), StCount(s));
    }
  }

  // --------------------------------------------------------- forwarding pick

  lemma MatchIsOlder(s: State, base: nat, hi: seq<int>, j: nat)
    requires OrderInv(s, base, hi) && j < |s.stq|
    ensures s.fireLd.valid && s.ldq[s.fireLd.tag].valid ==>
      (Match(s, j) <==>
        && j in s.ldq[s.fireLd.tag].mask && s.stq[j].addrValid
        && Word(s.stq[j].addr) == Word(s.ldq[s.fireLd.tag].addr))
    ensures Match(s, j) ==> StOff(s, j) < hi[s.fireLd.tag] - base
  {
    var l := s.ldq[s.fireLd.tag];
    assert EntryMask(l, s.sHead.idx, hi[s.fireLd.tag] - base, StCount(s), |s.stq|);
    assert StoreOk(s.stq[j], StOff(s, j), RetCount(s), StCount(s));
  }

  // Forwarding answers from the youngest of the load's older stores to the same
  // word whose addresses are known.
  lemma ForwardsFromYoungest(s: State, base: nat, hi: seq<int>)
    requires OrderInv(s, base, hi) && Select.Any(Matches(s))
    ensures s.fireLd.valid && Match(s, FwdIdx(s)) && FwdIdx(s) in s.ldq[s.fireLd.tag].mask
    ensures Number(s, base, FwdIdx(s)) < hi[s.fireLd.tag]
    ensures forall j | 0 <= j < |s.stq| && j in s.ldq[s.fireLd.tag].mask && s.stq[j].addrValid
              && Word(s.stq[j].addr) == Word(s.ldq[s.fireLd.tag].addr) ::
              Number(s, base, j) <= Number(s, base, FwdIdx(s))
  {
    var i := s.fireLd.tag;
    forall j: nat | j < |s.stq|
      ensures Matches(s)[j] ==> StOff(s, j) < hi[i] - base
      ensures j in s.ldq[i].mask && s.stq[j].addrValid && Word(s.stq[j].addr) == Word(s.ldq[i].addr) && s.fireLd.valid ==>
        Matches(s)[j]
    {
      MatchIsOlder(s, base, hi, j);
    }
    assert EntryMask(s.ldq[i], s.sHead.idx, hi[i] - base, StCount(s), |s.stq|);
    Select.YoungestIsLastInRing(Matches(s), s.sHead.idx, hi[i] - base, s.fireLd.youngest);
    MatchIsOlder(s, base, hi, FwdIdx(s));
  }

  // ------------------------------------------------------------------ sleep

  lemma EntrySleepStep(l: Ld, w: Wire, head: nat, older: int, count: int, n: nat, d: nat)
    requires head < d && SleepOk(l, head, count, d) && EntryMask(l, head, older, count, d) && count + n <= d
    requires w.sleep ==> l.valid && w.fwdStq in l.mask
    requires w.alloc ==> !l.valid && FirstSlots(head, count, d) <= w.aMask
    requires w.stFire ==> w.stTag == head && count > 0
    ensures var f := if w.stFire then 1 else 0;
      SleepOk(NextLd(l, w), Slot(head, f, d), count + n - f, d)
  {
    var l', f := NextLd(l, w), if w.stFire then 1 else 0;
    if l'.sleep {
      var j := l'.fwdStq;
      assert j < d && Off(head, j, d) < count;
      if w.alloc && l'.valid {
        assert j in FirstSlots(head, count, d);
      }
      MovedHead(head, f, d, j);
    }
  }

  lemma SleepWires(s: State, inp: Input, oldestFirst: bool, base: nat, hi: seq<int>, i: nat)
    requires OrderInv(s, base, hi) && EnvOk(s, inp) && !inp.flush && i < |s.ldq|
    ensures var w := WireOf(s, inp, oldestFirst, i);
      && (w.sleep ==> s.ldq[i].valid && w.fwdStq in s.ldq[i].mask)
      && (w.alloc ==> FirstSlots(s.sHead.idx, StCount(s), |s.stq|) <= w.aMask)
  {
    if Off(s.lTail.idx, i, |s.ldq|) < Loads(inp.lanes) {
      AllocWires(s, inp, oldestFirst, base, hi, i);
    }
  }

  lemma LoadSleepStep(s: State, inp: Input, oldestFirst: bool, base: nat, hi: seq<int>, i: nat)
    requires OrderInv(s, base, hi) && EnvOk(s, inp) && !inp.flush && i < |s.ldq|
    ensures var f := Fired(s, inp);
      SleepOk(NextLdq(s, inp, oldestFirst)[i], Slot(s.sHead.idx, f, |s.stq|), StCount(s) + Stores(inp.lanes) - f, |s.stq|)
  {
    hide WireOf;
    MaskWires(s, inp, oldestFirst, i);
    SleepWires(s, inp, oldestFirst, base, hi, i);
    EntrySleepStep(s.ldq[i], WireOf(s, inp, oldestFirst, i), s.sHead.idx, hi[i] - base, StCount(s), Stores(inp.lanes), |s.stq|);
  }

  lemma DozingMask(s: State, inp: Input, oldestFirst: bool, base: nat, hi: seq<int>)
    requires OrderInv(s, base, hi) && EnvOk(s, inp) && !inp.flush
    requires NextFwd(s, inp).sleep
    ensures FwdIdx(s) in NextLdq(s, inp, oldestFirst)[s.fireLd.tag].mask
  {
    var i := s.fireLd.tag;
    ForwardsFromYoungest(s, base, hi);
    RequestSurvives(s, inp, oldestFirst);
    MaskWires(s, inp, oldestFirst, i);
  }

  lemma SleepsStep(s: State, inp: Input, oldestFirst: bool, base: nat, hi: seq<int>)
    requires OrderInv(s, base, hi) && EnvOk(s, inp) && !inp.flush
    ensures StqInv(Next(s, inp, oldestFirst)) && Sleeps(Next(s, inp, oldestFirst))
  {
    hide NextLdq, StqInv;
    HeadAndCount(s, inp, oldestFirst);
    forall i | 0 <= i < |s.ldq|
      ensures var f := Fired(s, inp);
        SleepOk(NextLdq(s, inp, oldestFirst)[i], Slot(s.sHead.idx, f, |s.stq|), StCount(s) + Stores(inp.lanes) - f, |s.stq|)
    {
      LoadSleepStep(s, inp, oldestFirst, base, hi, i);
    }
    if NextFwd(s, inp).sleep {
      DozingMask(s, inp, oldestFirst, base, hi);
    }
  }

  // ------------------------------------------------------------------- step

  lemma FlushedLoads(s: State, inp: Input, oldestFirst: bool, base: nat, hi: seq<int>)
    requires StqInv(s) && LdqInv(s) && EnvOk(s, inp) && inp.flush && |hi| == |s.ldq|
    ensures var s' := Next(s, inp, oldestFirst);
      StqInv(s') && Masks(s', base, hi) && Sleeps(s')
  {
    StqStep(s, inp, oldestFirst);
  }

  lemma OrderStep(s: State, inp: Input, oldestFirst: bool, base: nat, hi: seq<int>, base': nat, hi': seq<int>)
    requires OrderInv(s, base, hi) && EnvOk(s, inp)
    requires base' == base + Fired(s, inp) && hi' == NextHi(s, inp, base, hi)
    ensures OrderInv(Next(s, inp, oldestFirst), base', hi')
  {
    MasksAreLive(s, base, hi);
    CoreStep(s, inp, oldestFirst);
    if inp.flush {
      FlushedLoads(s, inp, oldestFirst, base', hi');
    } else {
      MasksStep(s, inp, oldestFirst, base, hi, base', hi');
      SleepsStep(s, inp, oldestFirst, base, hi);
    }
  }

  lemma ResetOrder(d: nat)
    requires d >= 8 && d % 2 == 0
    ensures OrderInv(Reset(d), 0, seq(d, i => 0))
  {
    ResetCore(d);
  }

  // ---------------------------------------------------------------- results

  // A live load's mask is the set of unfired stores older than it.
  lemma MaskIsOlderStores(s: State, base: nat, hi: seq<int>, i: nat, j: nat)
    requires OrderInv(s, base, hi) && i < |s.ldq| && s.ldq[i].valid && j < |s.stq|
    ensures j in s.ldq[i].mask <==> s.stq[j].valid && Number(s, base, j) < hi[i]
  {
    assert EntryMask(s.ldq[i], s.sHead.idx, hi[i] - base, StCount(s), |s.stq|);
    assert StoreOk(s.stq[j], StOff(s, j), RetCount(s), StCount(s));
  }

  // The number of the store in slot j one edge later.
  function NumberAfter(s: State, inp: Input, base: nat, j: nat): nat
    requires Wf(s) && j < |s.stq|
  {
    base + Fired(s, inp) + Off(Slot(s.sHead.idx, Fired(s, inp), |s.stq|), j, |s.stq|)
  }

  lemma NumberAfterIs(s: State, inp: Input, oldestFirst: bool, base: nat, j: nat)
    requires StqInv(s) && LdqInv(s) && EnvOk(s, inp) && j < |s.stq|
    ensures NumberAfter(s, inp, base, j) == Number(Next(s, inp, oldestFirst), base + Fired(s, inp), j)
  {
    StPointers(s, inp);
  }

  // A store keeps its number from one edge to the next.
  lemma NumberStays(s: State, inp: Input, base: nat, j: nat)
    requires StqInv(s) && LdqInv(s) && EnvOk(s, inp) && j < |s.stq|
    requires s.stq[j].valid && NextSt(s, inp, j).valid
    ensures NumberAfter(s, inp, base, j) == Number(s, base, j)
  {
    StoreEvents(s, inp, j);
    MovedHead(s.sHead.idx, Fired(s, inp), |s.stq|, j);
  }

  // A newly dispatched store gets the next number of its lane.
  lemma NumberAtDispatch(s: State, inp: Input, base: nat, j: nat)
    requires StqInv(s) && LdqInv(s) && EnvOk(s, inp) && j < |s.stq|
    requires Off(s.sTail.idx, j, |s.stq|) < Stores(inp.lanes)
    ensures !s.stq[j].valid
    ensures NumberAfter(s, inp, base, j) == base + StCount(s) + Off(s.sTail.idx, j, |s.stq|)
  {
    StoreEvents(s, inp, j);
    BehindTail(s.sHead, s.sTail, |s.stq|, Stores(inp.lanes), j);
    MovedHead(s.sHead.idx, Fired(s, inp), |s.stq|, j);
  }

  lemma SleeperWaits(s: State, base: nat, hi: seq<int>, i: nat)
    requires OrderInv(s, base, hi) && i < |s.ldq| && s.ldq[i].sleep
    ensures s.ldq[i].fwdStq < |s.stq| && s.stq[s.ldq[i].fwdStq].valid
    ensures s.ldq[i].valid ==> Number(s, base, s.ldq[i].fwdStq) < hi[i]
  {
    var l := s.ldq[i];
    assert SleepOk(l, s.sHead.idx, StCount(s), |s.stq|);
    assert StoreOk(s.stq[l.fwdStq], StOff(s, l.fwdStq), RetCount(s), StCount(s));
    if l.valid {
      MaskIsOlderStores(s, base, hi, i, l.fwdStq);
    }
  }

  lemma SleepEnds(s: State, inp: Input, oldestFirst: bool, i: nat)
    requires Wf(s) && WfInput(inp) && i < |s.ldq| && s.ldq[i].sleep
    ensures inp.flush || Violation(s, inp, i) ==> !Next(s, inp, oldestFirst).ldq[i].sleep
    ensures StFire(s, inp) && s.fireSt.tag == s.ldq[i].fwdStq && !(s.fwd.sleep && s.fwd.ldq == i) ==>
      !Next(s, inp, oldestFirst).ldq[i].sleep
    ensures StFire(s, inp) && s.fireSt.tag == s.ldq[i].fwdStq && Next(s, inp, oldestFirst).ldq[i].sleep ==>
      Next(s, inp, oldestFirst).ldq[i].fwdStq != s.fireSt.tag
  {
  }

  // No lost wakeup: a sleeper waits for a store that has not fired, an older one
  // of its own, and the edge on which that store fires ends the sleep.
  lemma SleeperIsWoken(s: State, inp: Input, oldestFirst: bool, base: nat, hi: seq<int>, i: nat)
    requires OrderInv(s, base, hi) && EnvOk(s, inp) && i < |s.ldq| && s.ldq[i].sleep
    ensures s.ldq[i].fwdStq < |s.stq| && s.stq[s.ldq[i].fwdStq].valid
    ensures s.ldq[i].valid ==> Number(s, base, s.ldq[i].fwdStq) < hi[i]
    ensures inp.flush || Violation(s, inp, i) ==> !Next(s, inp, oldestFirst).ldq[i].sleep
    ensures StFire(s, inp) && s.fireSt.tag == s.ldq[i].fwdStq && !(s.fwd.sleep && s.fwd.ldq == i) ==>
      !Next(s, inp, oldestFirst).ldq[i].sleep
    ensures StFire(s, inp) && s.fireSt.tag == s.ldq[i].fwdStq && Next(s, inp, oldestFirst).ldq[i].sleep ==>
      Next(s, inp, oldestFirst).ldq[i].fwdStq != s.fireSt.tag
  {
    SleeperWaits(s, base, hi, i);
    hide Next, Violation, StFire, Number;
    SleepEnds(s, inp, oldestFirst, i);
  }

  // The byte addresses of an access.
  function Bytes(addr: nat, size: nat): set<nat> {
    if size % 4 == 0 then {addr}
    else if size % 4 == 1 then {addr, addr + 1}
    else {addr, addr + 1, addr + 2, addr + 3}
  }

  // An access that runs over the end of its word.
  predicate Crosses(addr: nat, size: nat) {
    addr % 4 + Extra(size) >= 4
  }

  // The last byte lane is kept in two bits, so for an access that runs over its
  // word it is counted from the start of the next one. A load that does so is
  // then compared as if it ended before it began,
  predicate LoadEndWraps(stAddr: nat, stSize: nat, ldAddr: nat, ldSize: nat) {
    && Crosses(ldAddr, ldSize) && !Crosses(stAddr, stSize)
    && ldAddr % 4 >= stAddr % 4 && ldAddr % 4 + Extra(ldSize) - 4 <= stAddr % 4 + Extra(stSize)
  }

  // and a store that does so as if it ended early.
  predicate StoreEndWraps(stAddr: nat, stSize: nat, ldAddr: nat, ldSize: nat) {
    && !Crosses(ldAddr, ldSize) && Crosses(stAddr, stSize)
    && ldAddr % 4 >= stAddr % 4 && ldAddr % 4 + Extra(ldSize) > stAddr % 4 + Extra(stSize) - 4
  }

  // A store that is forwarded from writes every byte the load reads, exactly
  // unless the load's end wraps.
  lemma ForwardedCovers(stAddr: nat, stSize: nat, ldAddr: nat, ldSize: nat)
    requires Word(stAddr) == Word(ldAddr)
    ensures (Covers(stAddr, stSize, ldAddr, ldSize) ==> Bytes(ldAddr, ldSize) <= Bytes(stAddr, stSize)) <==>
      !LoadEndWraps(stAddr, stSize, ldAddr, ldSize)
  {
    assert ldAddr in Bytes(ldAddr, ldSize) && ldAddr + Extra(ldSize) in Bytes(ldAddr, ldSize);
  }

  // A store that writes every byte the load reads is forwarded from, exactly
  // unless the store's end wraps; the load then waits for the store to fire.
  lemma CoveringForwards(stAddr: nat, stSize: nat, ldAddr: nat, ldSize: nat)
    requires Word(stAddr) == Word(ldAddr)
    ensures (Bytes(ldAddr, ldSize) <= Bytes(stAddr, stSize) ==> Covers(stAddr, stSize, ldAddr, ldSize)) <==>
      !StoreEndWraps(stAddr, stSize, ldAddr, ldSize)
  {
    assert ldAddr in Bytes(ldAddr, ldSize) && ldAddr + Extra(ldSize) in Bytes(ldAddr, ldSize);
  }

  // A load word at byte 1 is answered from a store of byte 0 alone, and a load
  // byte at 1 is not answered from a store word at 1.
  lemma MisalignedCovers()
    ensures Covers(0, 0, 1, 2) && !(Bytes(1, 2) <= Bytes(0, 0))
    ensures !Covers(1, 2, 1, 0) && Bytes(1, 0) <= Bytes(1, 2)
  {
    assert 1 in Bytes(1, 2);
  }
}
