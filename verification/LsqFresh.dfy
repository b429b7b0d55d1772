/**
  Freshness of speculative loads, with time. Beside the queues runs a record of
  when each store's address became known and when each load's data source was
  chosen: the cycle of the accepted request, or of the comparison that forwarding
  answered. Data is fresh when every store older than the load to the same word,
  unfired at the load's dispatch, had its address known strictly before.
 */
module LsqFresh {
  import opened Lsq
  import opened LsqQueue
  import opened LsqSafety
  import opened LsqOrder
  import opened Ring

  // Word address of an executed store and the cycle in which it executed.
  datatype Known = Known(word: nat, time: nat)

  datatype Track = Track(
    now: nat,
    base: nat,                 // number of the oldest unfired store
    known: map<nat, Known>,    // executed stores by number
    lo: seq<nat>,              // base at the load's dispatch
    hi: seq<int>,              // the load's limit
    src: seq<nat>,             // when the load's data source was chosen
    missed: seq<bool>,         // a store executed unseen in that very cycle
    missing: bool              // the same for the answer in the forwarding register
  )

  // A request that is not accepted while an older store to its word executes.
  // The violation check looks for fired loads and for loads with data, so it
  // passes over this one, unless a forwarding answer is there as well.
  predicate Overlooked(s: State, inp: Input)
    requires Wf(s)
  {
    s.fireLd.valid && !inp.ldReady && Hits(s, inp, s.fireLd.tag) && !FwdFor(s, s.fireLd.tag)
  }

  function NextKnown(s: State, inp: Input, t: Track): map<nat, Known>
    requires Wf(s) && WfInput(inp)
  {
    if inp.flush then map n | n in t.known && n < t.base + RetCount(s) + RetStores(inp.ret) :: t.known[n]
    else if inp.exec.ExecStore? && inp.exec.tag < |s.stq| then
      t.known[Number(s, t.base, inp.exec.tag) := Known(Word(inp.exec.addr), t.now)]
    else t.known
  }

  function NextSrc(s: State, inp: Input, t: Track): (r: seq<nat>)
    requires Wf(s) && |t.src| == |s.ldq|
    ensures |r| == |s.ldq|
  {
    seq(|s.ldq|, i requires 0 <= i < |s.ldq| =>
      if FwdAccept(s, i) && t.now > 0 then t.now - 1
      else if Accept(s, inp) && i == s.fireLd.tag then t.now
      else t.src[i])
  }

  function NextMissed(s: State, inp: Input, t: Track): (r: seq<bool>)
    requires Wf(s) && |t.missed| == |s.ldq|
    ensures |r| == |s.ldq|
  {
    seq(|s.ldq|, i requires 0 <= i < |s.ldq| =>
      if FwdAccept(s, i) then t.missing
      else if Accept(s, inp) && i == s.fireLd.tag then false
      else t.missed[i])
  }

  function NextLo(s: State, inp: Input, t: Track): (r: seq<nat>)
    requires Wf(s) && WfInput(inp) && |t.lo| == |s.ldq|
    ensures |r| == |s.ldq|
  {
    seq(|s.ldq|, i requires 0 <= i < |s.ldq| =>
      if Off(s.lTail.idx, i, |s.ldq|) < Loads(inp.lanes) then t.base else t.lo[i])
  }

  ghost predicate WfTrack(t: Track, d: nat) {
    |t.lo| == d && |t.hi| == d && |t.src| == d && |t.missed| == d
  }

  // t' is the record one edge after t.
  ghost predicate TrackStep(s: State, inp: Input, t: Track, t': Track)
    requires Wf(s) && WfInput(inp) && WfTrack(t, |s.ldq|)
  {
    && t'.now == t.now + 1 && t'.base == t.base + Fired(s, inp)
    && t'.known == NextKnown(s, inp, t)
    && t'.lo == NextLo(s, inp, t) && t'.hi == NextHi(s, inp, t.base, t.hi)
    && t'.src == NextSrc(s, inp, t) && t'.missed == NextMissed(s, inp, t)
    && t'.missing == Overlooked(s, inp)
  }

  function NextTrack(s: State, inp: Input, t: Track): (t': Track)
    requires Wf(s) && WfInput(inp) && WfTrack(t, |s.ldq|)
    ensures TrackStep(s, inp, t, t') && WfTrack(t', |s.ldq|)
  {
    Track(t.now + 1, t.base + Fired(s, inp), NextKnown(s, inp, t),
          NextLo(s, inp, t), NextHi(s, inp, t.base, t.hi),
          NextSrc(s, inp, t), NextMissed(s, inp, t), Overlooked(s, inp))
  }

  // ---------------------------------------------------------- known stores

  ghost predicate SlotKnown(e: St, n: nat, known: map<nat, Known>) {
    e.valid ==> (n in known <==> e.addrValid) && (n in known ==> known[n].word == Word(e.addr))
  }

  // Executed stores have numbers below limit and executed before now; all
  // below base have.
  ghost predicate Recorded(known: map<nat, Known>, base: nat, limit: int, now: nat) {
    && (forall n | n in known :: n < limit && known[n].time < now)
    && (forall n: nat | n < base :: n in known)
  }

  ghost predicate SlotsKnown(stq: seq<St>, head: nat, base: nat, known: map<nat, Known>) {
    head < |stq| && (forall j | 0 <= j < |stq| :: SlotKnown(stq[j], base + Off(head, j, |stq|), known))
  }

  ghost predicate KnownOk(s: State, t: Track) {
    Recorded(t.known, t.base, t.base + StCount(s), t.now) && SlotsKnown(s.stq, s.sHead.idx, t.base, t.known)
  }

  lemma SlotKnownStep(s: State, inp: Input, t: Track, j: nat)
    requires StqInv(s) && LdqInv(s) && EnvOk(s, inp) && KnownOk(s, t) && j < |s.stq|
    ensures SlotKnown(NextSt(s, inp, j), NumberAfter(s, inp, t.base, j), NextKnown(s, inp, t))
  {
    if NextSt(s, inp, j).valid {
      NewStoreNotMasked(s, inp, j);
      if s.stq[j].valid {
        NumberStays(s, inp, t.base, j);
        KnownSlotKept(s, inp, t, j);
      } else {
        NumberAtDispatch(s, inp, t.base, j);
        NewSlotUnknown(s, inp, t, j);
      }
    }
  }

  lemma KnownSlotKept(s: State, inp: Input, t: Track, j: nat)
    requires StqInv(s) && LdqInv(s) && EnvOk(s, inp) && KnownOk(s, t) && j < |s.stq|
    requires s.stq[j].valid && NextSt(s, inp, j).valid
    ensures SlotKnown(NextSt(s, inp, j), Number(s, t.base, j), NextKnown(s, inp, t))
  {
    assert SlotKnown(s.stq[j], Number(s, t.base, j), t.known);
    StoreEvents(s, inp, j);
    assert StoreOk(s.stq[j], StOff(s, j), RetCount(s), StCount(s));
    if inp.exec.ExecStore? && inp.exec.tag != j {
      assert Number(s, t.base, inp.exec.tag) != Number(s, t.base, j);
    }
  }

  lemma NewSlotUnknown(s: State, inp: Input, t: Track, j: nat)
    requires StqInv(s) && LdqInv(s) && EnvOk(s, inp) && KnownOk(s, t) && j < |s.stq|
    requires !s.stq[j].valid && Off(s.sTail.idx, j, |s.stq|) < Stores(inp.lanes)
    ensures SlotKnown(NextSt(s, inp, j), t.base + StCount(s) + Off(s.sTail.idx, j, |s.stq|), NextKnown(s, inp, t))
  {
    assert StoreOk(s.stq[j], StOff(s, j), RetCount(s), StCount(s));
  }

  // The store that fires had its address known.
  lemma FiredIsKnown(s: State, inp: Input, t: Track)
    requires StqInv(s) && KnownOk(s, t) && StFire(s, inp)
    ensures t.base in t.known
  {
    var j := s.sHead.idx;
    assert StoreOk(s.stq[j], StOff(s, j), RetCount(s), StCount(s));
    assert SlotKnown(s.stq[j], Number(s, t.base, j), t.known);
  }

  lemma NextRecorded(s: State, inp: Input, t: Track, t': Track, limit: int)
    requires StqInv(s) && LdqInv(s) && EnvOk(s, inp) && KnownOk(s, t)
    requires t'.known == NextKnown(s, inp, t) && t'.base == t.base + Fired(s, inp) && t'.now == t.now + 1
    requires limit == if inp.flush then t.base + RetCount(s) + RetStores(inp.ret) else t.base + StCount(s) + Stores(inp.lanes)
    ensures Recorded(t'.known, t'.base, limit, t'.now)
  {
    hide RetStores, StFire, StoresOk, RetLoads;
    StPointers(s, inp);
    if StFire(s, inp) {
      FiredIsKnown(s, inp, t);
    }
  }

  lemma NextSlotsKnown(s: State, inp: Input, t: Track, t': Track)
    requires StqInv(s) && LdqInv(s) && EnvOk(s, inp) && KnownOk(s, t)
    requires t'.known == NextKnown(s, inp, t) && t'.base == t.base + Fired(s, inp)
    ensures SlotsKnown(NextStq(s, inp), Slot(s.sHead.idx, Fired(s, inp), |s.stq|), t'.base, t'.known)
  {
    hide KnownOk, NextKnown;
    forall j | 0 <= j < |s.stq|
      ensures SlotKnown(NextStq(s, inp)[j], NumberAfter(s, inp, t.base, j), t'.known)
    {
      SlotKnownStep(s, inp, t, j);
    }
  }

  // The state after the edge, as far as the record is concerned.
  lemma StoresAfter(s: State, inp: Input, oldestFirst: bool, s': State)
    requires StqInv(s) && LdqInv(s) && EnvOk(s, inp) && s' == Next(s, inp, oldestFirst)
    ensures s'.stq == NextStq(s, inp) && s'.sHead.idx == Slot(s.sHead.idx, Fired(s, inp), |s.stq|)
    ensures StCount(s') + Fired(s, inp) ==
      if inp.flush then RetCount(s) + RetStores(inp.ret) else StCount(s) + Stores(inp.lanes)
  {
    HeadAndCount(s, inp, oldestFirst);
  }

  lemma KnownFrom(s': State, t': Track, stq: seq<St>, head: nat, limit: int)
    requires Recorded(t'.known, t'.base, limit, t'.now) && SlotsKnown(stq, head, t'.base, t'.known)
    requires s'.stq == stq && s'.sHead.idx == head && limit == t'.base + StCount(s')
    ensures KnownOk(s', t')
  {
  }

  lemma KnownStep(s: State, inp: Input, oldestFirst: bool, t: Track, s': State, t': Track)
    requires StqInv(s) && LdqInv(s) && EnvOk(s, inp) && KnownOk(s, t) && s' == Next(s, inp, oldestFirst)
    requires t'.known == NextKnown(s, inp, t) && t'.base == t.base + Fired(s, inp) && t'.now == t.now + 1
    ensures KnownOk(s', t')
  {
    StoresAfter(s, inp, oldestFirst, s');
    NextRecorded(s, inp, t, t', t'.base + StCount(s'));
    NextSlotsKnown(s, inp, t, t');
    KnownFrom(s', t', NextStq(s, inp), Slot(s.sHead.idx, Fired(s, inp), |s.stq|), t'.base + StCount(s'));
  }

  // --------------------------------------------------------------- freshness

  // Every executed store numbered in [lo, hi) to the word executed before.
  ghost predicate Fresh(known: map<nat, Known>, lo: nat, hi: int, word: nat, chosen: nat) {
    forall n | n in known && lo <= n < hi && known[n].word == word :: known[n].time < chosen
  }

  // One load: what it fired for or holds is fresh unless a store was missed.
  ghost predicate LoadFresh(l: Ld, lo: nat, hi: int, src: nat, missed: bool, known: map<nat, Known>, base: nat) {
    && (l.valid ==> lo <= base)
    && (l.valid && (l.fired || l.dataValid) ==> (Fresh(known, lo, hi, Word(l.addr), src) <==> !missed))
  }

  ghost predicate EntriesFresh(ldq: seq<Ld>, lo: seq<nat>, hi: seq<int>, src: seq<nat>, missed: seq<bool>,
                               known: map<nat, Known>, base: nat) {
    && |lo| == |ldq| && |hi| == |ldq| && |src| == |ldq| && |missed| == |ldq|
    && (forall i | 0 <= i < |ldq| :: LoadFresh(ldq[i], lo[i], hi[i], src[i], missed[i], known, base))
  }

  ghost predicate LoadsFresh(s: State, t: Track) {
    EntriesFresh(s.ldq, t.lo, t.hi, t.src, t.missed, t.known, t.base)
  }

  // The same for the answer waiting in the forwarding register.
  ghost predicate FwdFresh(s: State, t: Track)
    requires Wf(s) && WfTrack(t, |s.ldq|)
  {
    var i := s.fwd.ldq;
    s.fwd.valid && !s.ldq[i].orderFail ==>
      t.now > 0 && (Fresh(t.known, t.lo[i], t.hi[i], Word(s.ldq[i].addr), t.now - 1) <==> !t.missing)
  }

  ghost predicate Inv(s: State, t: Track) {
    && WfTrack(t, |s.ldq|) && OrderInv(s, t.base, t.hi)
    && KnownOk(s, t) && LoadsFresh(s, t) && FwdFresh(s, t)
  }

  // Two records that agree on one load's older stores to one word.
  ghost predicate Same(known: map<nat, Known>, known': map<nat, Known>, lo: nat, hi: int, word: nat) {
    forall n: nat | lo <= n < hi ::
      && (n in known && known[n].word == word <==> n in known' && known'[n].word == word)
      && (n in known && n in known' ==> known[n].time == known'[n].time)
  }

  // A store that is not an older one to the load's word changes nothing for it.
  lemma UnhitSame(s: State, inp: Input, t: Track, i: nat)
    requires Inv(s, t) && EnvOk(s, inp) && !inp.flush && i < |s.ldq|
    requires s.ldq[i].valid && s.ldq[i].addrValid && !Hits(s, inp, i)
    ensures Same(t.known, NextKnown(s, inp, t), t.lo[i], t.hi[i], Word(s.ldq[i].addr))
  {
    if inp.exec.ExecStore? {
      MaskIsOlderStores(s, t.base, t.hi, i, inp.exec.tag);
      assert SlotKnown(s.stq[inp.exec.tag], Number(s, t.base, inp.exec.tag), t.known);
    }
  }

  // One that is executes now, too late for any source chosen up to now.
  lemma HitIsLate(s: State, inp: Input, t: Track, i: nat)
    requires Inv(s, t) && EnvOk(s, inp) && !inp.flush && i < |s.ldq|
    requires s.ldq[i].valid && Hits(s, inp, i)
    ensures !Fresh(NextKnown(s, inp, t), t.lo[i], t.hi[i], Word(s.ldq[i].addr), t.now)
  {
    var n := Number(s, t.base, inp.exec.tag);
    MaskIsOlderStores(s, t.base, t.hi, i, inp.exec.tag);
    assert LoadFresh(s.ldq[i], t.lo[i], t.hi[i], t.src[i], t.missed[i], t.known, t.base);
    assert n in NextKnown(s, inp, t);
  }

  lemma AllBefore(s: State, inp: Input, t: Track, i: nat)
    requires Inv(s, t) && EnvOk(s, inp) && !inp.flush && i < |s.ldq|
    requires s.ldq[i].valid && s.ldq[i].addrValid && !Hits(s, inp, i)
    ensures Fresh(NextKnown(s, inp, t), t.lo[i], t.hi[i], Word(s.ldq[i].addr), t.now)
  {
    UnhitSame(s, inp, t, i);
  }

  lemma EntryFreshStep(l: Ld, w: Wire, resolved: bool, hit: bool, known: map<nat, Known>, known': map<nat, Known>,
                       now: nat, base: nat, base': nat, lo: nat, hi: int, hi': int, src: nat, missed: bool, missing: bool)
    requires LoadSafe(l, resolved) && WireOk(l, w, resolved) && LoadFresh(l, lo, hi, src, missed, known, base) && base <= base'
    requires !w.alloc ==> hi' == hi
    requires hit && (l.dataValid || w.fwdData || l.fired || w.accept) ==> w.viol
    requires w.fwdData ==> w.kill && now > 0 && (Fresh(known, lo, hi, Word(l.addr), now - 1) <==> !missing)
    requires l.valid && l.addrValid && !hit ==>
      Same(known, known', lo, hi, Word(l.addr)) && Fresh(known', lo, hi, Word(l.addr), now)
    ensures LoadFresh(NextLd(l, w),
              if w.alloc then base else lo, hi',
              if w.fwdData && now > 0 then now - 1 else if w.accept then now else src,
              if w.fwdData then missing else if w.accept then false else missed, known', base')
  {
    var l' := NextLd(l, w);
    if l'.valid && (l'.fired || l'.dataValid) {
      assert l.valid && l.addrValid && !hit && l'.addr == l.addr;
      if w.fwdData {
      } else if w.accept {
      } else {
        assert l.fired || l.dataValid;
      }
    }
  }

  // The wires of a cycle, in the terms of one entry.
  lemma FreshWires(s: State, inp: Input, oldestFirst: bool, t: Track, i: nat)
    requires Inv(s, t) && EnvOk(s, inp) && !inp.flush && i < |s.ldq|
    ensures var w, l := WireOf(s, inp, oldestFirst, i), s.ldq[i];
      && (Hits(s, inp, i) && (l.dataValid || w.fwdData || l.fired || w.accept) ==> w.viol)
      && (w.fwdData ==> w.kill && t.now > 0 && (Fresh(t.known, t.lo[i], t.hi[i], Word(l.addr), t.now - 1) <==> !t.missing))
  {
  }

  lemma UnhitWires(s: State, inp: Input, t: Track, i: nat)
    requires Inv(s, t) && EnvOk(s, inp) && !inp.flush && i < |s.ldq|
    ensures s.ldq[i].valid && s.ldq[i].addrValid && !Hits(s, inp, i) ==>
      && Same(t.known, NextKnown(s, inp, t), t.lo[i], t.hi[i], Word(s.ldq[i].addr))
      && Fresh(NextKnown(s, inp, t), t.lo[i], t.hi[i], Word(s.ldq[i].addr), t.now)
  {
    if s.ldq[i].valid && s.ldq[i].addrValid && !Hits(s, inp, i) {
      UnhitSame(s, inp, t, i);
      AllBefore(s, inp, t, i);
    }
  }

  // The record's entries for load i after the edge.
  lemma RecordWires(s: State, inp: Input, oldestFirst: bool, t: Track, i: nat)
    requires StqInv(s) && WfInput(inp) && WfTrack(t, |s.ldq|) && i < |s.ldq|
    requires FwdAccept(s, i) ==> t.now > 0
    ensures var w := WireOf(s, inp, oldestFirst, i);
      && NextLo(s, inp, t)[i] == (if w.alloc then t.base else t.lo[i])
      && (!w.alloc ==> NextHi(s, inp, t.base, t.hi)[i] == t.hi[i])
      && NextSrc(s, inp, t)[i] == (if w.fwdData && t.now > 0 then t.now - 1 else if w.accept then t.now else t.src[i])
      && NextMissed(s, inp, t)[i] == (if w.fwdData then t.missing else if w.accept then false else t.missed[i])
  {
  }

  lemma LoadFreshStep(s: State, inp: Input, oldestFirst: bool, t: Track, i: nat)
    requires Inv(s, t) && EnvOk(s, inp) && !inp.flush && i < |s.ldq|
    ensures var w := WireOf(s, inp, oldestFirst, i);
      LoadFresh(NextLd(s.ldq[i], w),
              if w.alloc then t.base else t.lo[i], NextHi(s, inp, t.base, t.hi)[i],
              if w.fwdData && t.now > 0 then t.now - 1 else if w.accept then t.now else t.src[i],
              if w.fwdData then t.missing else if w.accept then false else t.missed[i],
              NextKnown(s, inp, t), t.base + Fired(s, inp))
  {
    var l, w := s.ldq[i], WireOf(s, inp, oldestFirst, i);
    WiresOk(s, inp, oldestFirst, i);
    FreshWires(s, inp, oldestFirst, t, i);
    UnhitWires(s, inp, t, i);
    assert LoadSafe(l, Resolved(s, i));
    assert LoadFresh(l, t.lo[i], t.hi[i], t.src[i], t.missed[i], t.known, t.base);
    EntryFreshStep(l, w, Resolved(s, i), Hits(s, inp, i), t.known, NextKnown(s, inp, t),
                   t.now, t.base, t.base + Fired(s, inp), t.lo[i], t.hi[i], NextHi(s, inp, t.base, t.hi)[i],
                   t.src[i], t.missed[i], t.missing);
  }

  lemma LoadsFreshStep(s: State, inp: Input, oldestFirst: bool, t: Track)
    requires Inv(s, t) && EnvOk(s, inp)
    ensures EntriesFresh(NextLdq(s, inp, oldestFirst), NextLo(s, inp, t), NextHi(s, inp, t.base, t.hi),
              NextSrc(s, inp, t), NextMissed(s, inp, t), NextKnown(s, inp, t), t.base + Fired(s, inp))
  {
    if !inp.flush {
      forall i | 0 <= i < |s.ldq|
        ensures LoadFresh(NextLdq(s, inp, oldestFirst)[i],
              NextLo(s, inp, t)[i], NextHi(s, inp, t.base, t.hi)[i],
              NextSrc(s, inp, t)[i], NextMissed(s, inp, t)[i], NextKnown(s, inp, t), t.base + Fired(s, inp))
      {
        FreshWires(s, inp, oldestFirst, t, i);
        RecordWires(s, inp, oldestFirst, t, i);
        LoadFreshStep(s, inp, oldestFirst, t, i);
      }
    }
  }

  // A comparison misses a store exactly when the violation check overlooks it.
  lemma ComparedFresh(s: State, inp: Input, t: Track)
    requires Inv(s, t) && EnvOk(s, inp) && !inp.flush && s.fireLd.valid && !Violation(s, inp, s.fireLd.tag)
    ensures var i := s.fireLd.tag;
      Fresh(NextKnown(s, inp, t), t.lo[i], t.hi[i], Word(s.ldq[i].addr), t.now) <==> !Overlooked(s, inp)
  {
    var i := s.fireLd.tag;
    if Hits(s, inp, i) {
      HitIsLate(s, inp, t, i);
    } else {
      AllBefore(s, inp, t, i);
    }
  }

  lemma RequestKeepsWord(s: State, inp: Input, oldestFirst: bool, t: Track)
    requires Inv(s, t) && EnvOk(s, inp) && !inp.flush && s.fireLd.valid
    ensures var i, l' := s.fireLd.tag, NextLdq(s, inp, oldestFirst)[s.fireLd.tag];
      && l'.addr == s.ldq[i].addr && (!l'.orderFail ==> !Violation(s, inp, i))
      && NextLo(s, inp, t)[i] == t.lo[i] && NextHi(s, inp, t.base, t.hi)[i] == t.hi[i]
  {
    LoadSlotStep(s, inp, s.fireLd.tag);
  }

  lemma FwdFreshStep(s: State, inp: Input, oldestFirst: bool, t: Track, t': Track)
    requires Inv(s, t) && EnvOk(s, inp) && TrackStep(s, inp, t, t')
    ensures FwdFresh(Next(s, inp, oldestFirst), t')
  {
    if NextFwd(s, inp).valid {
      RequestKeepsWord(s, inp, oldestFirst, t);
      if !NextLdq(s, inp, oldestFirst)[s.fireLd.tag].orderFail {
        ComparedFresh(s, inp, t);
      }
    }
  }

  lemma InvStep(s: State, inp: Input, oldestFirst: bool, t: Track, t': Track)
    requires Inv(s, t) && EnvOk(s, inp) && TrackStep(s, inp, t, t')
    ensures Inv(Next(s, inp, oldestFirst), t')
  {
    OrderStep(s, inp, oldestFirst, t.base, t.hi, t'.base, t'.hi);
    KnownStep(s, inp, oldestFirst, t, Next(s, inp, oldestFirst), t');
    LoadsFreshStep(s, inp, oldestFirst, t);
    FwdFreshStep(s, inp, oldestFirst, t, t');
  }

  function StartTrack(d: nat): Track {
    Track(0, 0, map[], seq(d, i => 0), seq(d, i => 0), seq(d, i => 0), seq(d, i => false), false)
  }

  lemma ResetInv(d: nat)
    requires d >= 8 && d % 2 == 0
    ensures Inv(Reset(d), StartTrack(d))
  {
    ResetOrder(d);
  }

  // ----------------------------------------------------------------- results

  // When the data of a load that writes back now was chosen, and whether a
  // store was overlooked in that cycle.
  function Chosen(s: State, t: Track, i: nat): int
    requires i < |s.ldq| && WfTrack(t, |s.ldq|)
  {
    if FwdAccept(s, i) then t.now - 1 else t.src[i]
  }

  predicate Stale(s: State, t: Track, i: nat)
    requires i < |s.ldq| && WfTrack(t, |s.ldq|)
  {
    if FwdAccept(s, i) then t.missing else t.missed[i]
  }

  // At writeback every store older than the load, unfired when the load was
  // dispatched, has its address; and every such address for the load's word was
  // known strictly before the data was chosen, exactly unless the comparison
  // that chose it was overlooked by the violation check.
  lemma WritebackFreshIff(s: State, inp: Input, oldestFirst: bool, t: Track, i: nat)
    requires Inv(s, t) && EnvOk(s, inp) && i < |s.ldq| && WritesBack(s, inp, oldestFirst, i)
    ensures forall n: nat | t.lo[i] <= n < t.hi[i] :: n in t.known
    ensures !Stale(s, t, i) <==>
      forall n: nat | t.lo[i] <= n < t.hi[i] && t.known[n].word == Word(s.ldq[i].addr) :: t.known[n].time < Chosen(s, t, i)
  {
    assert s.ldq[i].valid by { NamedLoadsAreLive(s, inp, oldestFirst, i); }
    OlderAllKnown(s, t, i);
    assert LoadFresh(s.ldq[i], t.lo[i], t.hi[i], t.src[i], t.missed[i], t.known, t.base);
    assert LoadSafe(s.ldq[i], Resolved(s, i));
  }

  lemma OlderAllKnown(s: State, t: Track, i: nat)
    requires Inv(s, t) && i < |s.ldq| && s.ldq[i].valid && Resolved(s, i)
    ensures forall n: nat | n < t.hi[i] :: n in t.known
  {
    forall n: nat | n < t.hi[i]
      ensures n in t.known
    {
      if n >= t.base {
        assert EntryMask(s.ldq[i], s.sHead.idx, t.hi[i] - t.base, StCount(s), |s.stq|);
        var j := Slot(s.sHead.idx, n - t.base, |s.stq|);
        assert Off(s.sHead.idx, j, |s.stq|) == n - t.base;
        assert j in s.ldq[i].mask;
        assert SlotKnown(s.stq[j], t.base + Off(s.sHead.idx, j, |s.stq|), t.known);
      }
    }
  }
}
