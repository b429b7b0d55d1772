/**
  Which bytes a forwarded load gets. Beside the queues runs a record of the
  address and size each store and load executed with. The queues hold exactly
  those until the entry is freed, and a load answered by a store inside its word
  reads only bytes that this store was executed to write.
 */
module LsqBytes {
  import opened Lsq
  import opened LsqQueue
  import opened LsqSafety
  import opened LsqOrder
  import opened LsqFresh
  import opened LsqRuns
  import opened LsqSource
  import Ring

  datatype Access = Access(addr: nat, size: nat)

  // By store number, and by load queue entry.
  datatype Executed = Executed(stores: map<nat, Access>, loads: seq<Access>)

  function NextExecuted(s: State, inp: Input, t: Track, x: Executed): (x': Executed)
    requires Wf(s) && |x.loads| == |s.ldq|
    ensures |x'.loads| == |s.ldq|
  {
    match inp.exec
    case NoExec => x
    case ExecStore(j, addr, size) =>
      if j < |s.stq| then x.(stores := x.stores[Number(s, t.base, j) := Access(addr, size)]) else x
    case ExecLoad(i, addr, size) =>
      if i < |s.ldq| then x.(loads := x.loads[i := Access(addr, size)]) else x
  }

  // A store slot holds what its store was executed with.
  ghost predicate StoreHolds(e: St, n: nat, stores: map<nat, Access>) {
    e.addrValid ==> n in stores && stores[n] == Access(e.addr, e.size)
  }

  ghost predicate LoadHolds(l: Ld, a: Access) {
    l.addrValid ==> a == Access(l.addr, l.size)
  }

  // Store m of the record covers access a, in the same word.
  ghost predicate CoveredBy(stores: map<nat, Access>, m: nat, a: Access) {
    && m in stores && Word(stores[m].addr) == Word(a.addr)
    && Covers(stores[m].addr, stores[m].size, a.addr, a.size)
  }

  ghost predicate SourceCovers(stores: map<nat, Access>, from: Source, a: Access) {
    from.FromStore? ==> CoveredBy(stores, from.number, a)
  }

  ghost predicate StoresHold(stq: seq<St>, head: nat, base: nat, stores: map<nat, Access>) {
    head < |stq| && forall j | 0 <= j < |stq| :: StoreHolds(stq[j], base + Ring.Off(head, j, |stq|), stores)
  }

  ghost predicate LoadsHold(ldq: seq<Ld>, x: Executed, from: seq<Source>) {
    && |x.loads| == |ldq| && |from| == |ldq|
    && (forall i | 0 <= i < |ldq| :: LoadHolds(ldq[i], x.loads[i]))
    && (forall i | 0 <= i < |ldq| :: ldq[i].valid && ldq[i].dataValid ==> SourceCovers(x.stores, from[i], x.loads[i]))
  }

  ghost predicate FwdHolds(s: State, o: Origin, x: Executed)
    requires Wf(s) && |x.loads| == |s.ldq|
  {
    s.fwd.valid ==> SourceCovers(x.stores, o.fwdFrom, x.loads[s.fwd.ldq])
  }

  ghost predicate BytesInv(s: State, t: Track, o: Origin, x: Executed) {
    && SourceInv(s, t, o) && |x.loads| == |s.ldq|
    && StoresHold(s.stq, s.sHead.idx, t.base, x.stores)
    && LoadsHold(s.ldq, x, o.from) && FwdHolds(s, o, x)
  }

  // ------------------------------------------------------------ store slots

  lemma StoreSlotHolds(s: State, inp: Input, t: Track, x: Executed, j: nat)
    requires StqInv(s) && LdqInv(s) && EnvOk(s, inp) && j < |s.stq| && |x.loads| == |s.ldq|
    requires StoresHold(s.stq, s.sHead.idx, t.base, x.stores)
    ensures StoreHolds(NextSt(s, inp, j), NumberAfter(s, inp, t.base, j), NextExecuted(s, inp, t, x).stores)
  {
    assert StoreHolds(s.stq[j], t.base + Ring.Off(s.sHead.idx, j, |s.stq|), x.stores);
    assert StoreOk(s.stq[j], StOff(s, j), RetCount(s), StCount(s));
    if NextSt(s, inp, j).addrValid {
      KnownSlotStays(s, inp, j);
      NumberStays(s, inp, t.base, j);
    }
  }

  // A slot with an address was a store of the window before the edge.
  lemma KnownSlotStays(s: State, inp: Input, j: nat)
    requires StqInv(s) && LdqInv(s) && EnvOk(s, inp) && j < |s.stq| && NextSt(s, inp, j).addrValid
    ensures s.stq[j].valid && NextSt(s, inp, j).valid
    ensures (inp.exec.ExecStore? && inp.exec.tag == j) || s.stq[j].addrValid
    ensures NextSt(s, inp, j).addr == (if inp.exec.ExecStore? && inp.exec.tag == j then inp.exec.addr else s.stq[j].addr)
    ensures NextSt(s, inp, j).size == (if inp.exec.ExecStore? && inp.exec.tag == j then inp.exec.size else s.stq[j].size)
  {
    StoreEvents(s, inp, j);
    assert StoreOk(s.stq[j], StOff(s, j), RetCount(s), StCount(s));
  }

  lemma NextSlotsHold(s: State, inp: Input, t: Track, x: Executed)
    requires StqInv(s) && LdqInv(s) && EnvOk(s, inp) && |x.loads| == |s.ldq|
    requires StoresHold(s.stq, s.sHead.idx, t.base, x.stores)
    ensures StoresHold(NextStq(s, inp), Ring.Slot(s.sHead.idx, Fired(s, inp), |s.stq|), t.base + Fired(s, inp),
                       NextExecuted(s, inp, t, x).stores)
  {
    assert Wf(s) && WfInput(inp);
    hide StqInv, LdqInv, EnvOk, StoreHolds, NextExecuted;
    forall j | 0 <= j < |s.stq|
      ensures StoreHolds(NextStq(s, inp)[j], NumberAfter(s, inp, t.base, j), NextExecuted(s, inp, t, x).stores)
    {
      StoreSlotHolds(s, inp, t, x, j);
    }
  }

  lemma NextStoresHold(s: State, inp: Input, oldestFirst: bool, t: Track, x: Executed)
    requires StqInv(s) && LdqInv(s) && EnvOk(s, inp) && |x.loads| == |s.ldq|
    requires StoresHold(s.stq, s.sHead.idx, t.base, x.stores)
    ensures var s' := Next(s, inp, oldestFirst);
      StoresHold(s'.stq, s'.sHead.idx, t.base + Fired(s, inp), NextExecuted(s, inp, t, x).stores)
  {
    NextSlotsHold(s, inp, t, x);
    hide StoresHold, NextExecuted, Next;
    StoresAfter(s, inp, oldestFirst, Next(s, inp, oldestFirst));
  }

  // ------------------------------------------------------------ load entries

  // A store of the record keeps what it was executed with.
  lemma RecordKept(s: State, inp: Input, t: Track, x: Executed, n: nat)
    requires StqInv(s) && LdqInv(s) && EnvOk(s, inp) && KnownOk(s, t) && |x.loads| == |s.ldq|
    requires n in t.known && n in x.stores
    ensures n in NextExecuted(s, inp, t, x).stores && NextExecuted(s, inp, t, x).stores[n] == x.stores[n]
  {
    if inp.exec.ExecStore? {
      var j := inp.exec.tag;
      assert StoreOk(s.stq[j], StOff(s, j), RetCount(s), StCount(s));
      assert SlotKnown(s.stq[j], Number(s, t.base, j), t.known);
    }
  }

  lemma LoadEntryHolds(s: State, inp: Input, oldestFirst: bool, t: Track, x: Executed, i: nat)
    requires Core(s) && EnvOk(s, inp) && |x.loads| == |s.ldq| && i < |s.ldq| && LoadHolds(s.ldq[i], x.loads[i])
    ensures LoadHolds(NextLdq(s, inp, oldestFirst)[i], NextExecuted(s, inp, t, x).loads[i])
    ensures s.ldq[i].addrValid ==> NextExecuted(s, inp, t, x).loads[i] == x.loads[i]
  {
  }

  // The source of data that stays or arrives still covers the load.
  lemma CoverStays(s: State, inp: Input, t: Track, x: Executed, from: Source, i: nat)
    requires StqInv(s) && LdqInv(s) && EnvOk(s, inp) && KnownOk(s, t) && |x.loads| == |s.ldq| && i < |s.ldq|
    requires SourceCovers(x.stores, from, x.loads[i]) && s.ldq[i].addrValid
    requires from.FromStore? ==> from.number in t.known
    ensures SourceCovers(NextExecuted(s, inp, t, x).stores, from, NextExecuted(s, inp, t, x).loads[i])
  {
    if from.FromStore? {
      RecordKept(s, inp, t, x, from.number);
    }
  }

  lemma DataSource(l: Ld, w: Wire, resolved: bool, open: bool, held: Source, from: Source, fwdFrom: Source, from': Source)
    requires LoadSafe(l, resolved) && WireOk(l, w, resolved) && LoadHeld(l, open, held, from)
    requires w.dcData ==> open
    requires from' == if w.fwdData then fwdFrom else if w.accept then FromCache else from
    requires NextLd(l, w).valid && NextLd(l, w).dataValid
    ensures l.valid && l.addrValid
    ensures (from' == fwdFrom && w.fwdData) || from'.FromCache? || (from' == from && l.dataValid)
  {
  }

  lemma LoadDataHolds(s: State, inp: Input, oldestFirst: bool, t: Track, o: Origin, x: Executed, i: nat)
    requires BytesInv(s, t, o, x) && EnvOk(s, inp) && Answers(s, inp, o) && !inp.flush && i < |s.ldq|
    requires NextLd(s.ldq[i], WireOf(s, inp, oldestFirst, i)).valid && NextLd(s.ldq[i], WireOf(s, inp, oldestFirst, i)).dataValid
    ensures SourceCovers(NextExecuted(s, inp, t, x).stores, NextOrigin(s, inp, t, o).from[i], NextExecuted(s, inp, t, x).loads[i])
  {
    WiresOk(s, inp, oldestFirst, i);
    HeldWires(s, inp, oldestFirst, t, o, i);
    RecordedOrigin(s, inp, oldestFirst, t, o, i);
    LoadParts(s, t, o, i);
    var from' := NextOrigin(s, inp, t, o).from[i];
    DataSource(s.ldq[i], WireOf(s, inp, oldestFirst, i), Resolved(s, i), o.open[i], o.held[i], o.from[i], o.fwdFrom, from');
    if from'.FromStore? {
      KnownSource(s, inp, oldestFirst, t, o, i);
      CoverStays(s, inp, t, x, from', i);
    }
  }

  // The forwarding store of data that is there or arrives has executed.
  lemma KnownSource(s: State, inp: Input, oldestFirst: bool, t: Track, o: Origin, i: nat)
    requires SourceInv(s, t, o) && EnvOk(s, inp) && !inp.flush && i < |s.ldq|
    ensures FwdAccept(s, i) && o.fwdFrom.FromStore? ==> o.fwdFrom.number in t.known
    ensures s.ldq[i].valid && s.ldq[i].dataValid && o.from[i].FromStore? ==> o.from[i].number in t.known
  {
    LoadParts(s, t, o, i);
  }

  lemma NextLoadsHold(s: State, inp: Input, oldestFirst: bool, t: Track, o: Origin, x: Executed)
    requires BytesInv(s, t, o, x) && EnvOk(s, inp) && Answers(s, inp, o)
    ensures LoadsHold(NextLdq(s, inp, oldestFirst), NextExecuted(s, inp, t, x), NextOrigin(s, inp, t, o).from)
  {
    forall i | 0 <= i < |s.ldq|
      ensures LoadHolds(NextLdq(s, inp, oldestFirst)[i], NextExecuted(s, inp, t, x).loads[i])
      ensures NextLdq(s, inp, oldestFirst)[i].valid && NextLdq(s, inp, oldestFirst)[i].dataValid ==>
        SourceCovers(NextExecuted(s, inp, t, x).stores, NextOrigin(s, inp, t, o).from[i], NextExecuted(s, inp, t, x).loads[i])
    {
      LoadEntryHolds(s, inp, oldestFirst, t, x, i);
      if !inp.flush && NextLdq(s, inp, oldestFirst)[i].valid && NextLdq(s, inp, oldestFirst)[i].dataValid {
        LoadDataHolds(s, inp, oldestFirst, t, o, x, i);
      }
    }
  }

  // ---------------------------------------------------------- the comparison

  // The store that answers has executed, and its slot covers the request.
  lemma AnswerIs(s: State, inp: Input, t: Track)
    requires Inv(s, t) && NextFwd(s, inp).valid
    ensures var i, f := s.fireLd.tag, FwdIdx(s);
      && s.fireLd.valid && s.ldq[i].addrValid && s.stq[f].addrValid && Number(s, t.base, f) in t.known
      && Word(s.stq[f].addr) == Word(s.ldq[i].addr)
      && Covers(s.stq[f].addr, s.stq[f].size, s.ldq[i].addr, s.ldq[i].size)
  {
    ForwardsFromYoungest(s, t.base, t.hi);
    assert SlotKnown(s.stq[FwdIdx(s)], Number(s, t.base, FwdIdx(s)), t.known);
  }

  lemma AnswerCovers(s: State, inp: Input, t: Track, o: Origin, x: Executed)
    requires BytesInv(s, t, o, x) && EnvOk(s, inp) && NextFwd(s, inp).valid
    ensures s.fireLd.valid && s.ldq[s.fireLd.tag].addrValid
    ensures SourceCovers(x.stores, FromStore(Number(s, t.base, FwdIdx(s))), x.loads[s.fireLd.tag])
    ensures Number(s, t.base, FwdIdx(s)) in t.known
  {
    assert Wf(s);
    hide StqInv, LdqInv, LoadsSafe, Masks, KnownOk, LoadsFresh, LoadsSourced, EntriesHeld, EnvOk, NextFwd, Covers, FwdIdx;
    AnswerIs(s, inp, t);
    assert StoreHolds(s.stq[FwdIdx(s)], t.base + Ring.Off(s.sHead.idx, FwdIdx(s), |s.stq|), x.stores);
    assert LoadHolds(s.ldq[s.fireLd.tag], x.loads[s.fireLd.tag]);
  }

  lemma FwdHoldsStep(s: State, inp: Input, oldestFirst: bool, t: Track, o: Origin, x: Executed)
    requires BytesInv(s, t, o, x) && EnvOk(s, inp)
    ensures FwdHolds(Next(s, inp, oldestFirst), NextOrigin(s, inp, t, o), NextExecuted(s, inp, t, x))
  {
    if NextFwd(s, inp).valid {
      AnswerCovers(s, inp, t, o, x);
      CoverStays(s, inp, t, x, FromStore(Number(s, t.base, FwdIdx(s))), s.fireLd.tag);
    }
  }

  lemma BytesFrom(s: State, t: Track, o: Origin, x: Executed)
    requires SourceInv(s, t, o) && |x.loads| == |s.ldq|
    requires StoresHold(s.stq, s.sHead.idx, t.base, x.stores)
    requires LoadsHold(s.ldq, x, o.from) && FwdHolds(s, o, x)
    ensures BytesInv(s, t, o, x)
  {
  }

  lemma NextLoadsAre(s: State, inp: Input, oldestFirst: bool)
    requires Wf(s) && WfInput(inp)
    ensures Next(s, inp, oldestFirst).ldq == NextLdq(s, inp, oldestFirst)
  {
  }

  lemma BytesStep(s: State, inp: Input, oldestFirst: bool, t: Track, t': Track, o: Origin, x: Executed)
    requires BytesInv(s, t, o, x) && EnvOk(s, inp) && Answers(s, inp, o) && TrackStep(s, inp, t, t')
    ensures BytesInv(Next(s, inp, oldestFirst), t', NextOrigin(s, inp, t, o), NextExecuted(s, inp, t, x))
  {
    hide Next, NextOrigin, NextExecuted, NextLdq, SourceInv, StoresHold, LoadsHold, FwdHolds, Answers, NextKnown, NextHi;
    SourceHasInv(s, t, o);
    hide Inv, Core;
    SourceStep(s, inp, oldestFirst, t, t', o);
    NextLoadsAre(s, inp, oldestFirst);
    NextStoresHold(s, inp, oldestFirst, t, x);
    NextLoadsHold(s, inp, oldestFirst, t, o, x);
    FwdHoldsStep(s, inp, oldestFirst, t, o, x);
    BytesFrom(Next(s, inp, oldestFirst), t', NextOrigin(s, inp, t, o), NextExecuted(s, inp, t, x));
  }

  lemma SourceHasInv(s: State, t: Track, o: Origin)
    requires SourceInv(s, t, o)
    ensures Inv(s, t) && Core(s) && WfOrigin(o, |s.ldq|)
  {
  }

  // -------------------------------------------------------------------- runs

  ghost predicate BytesRun(tr: seq<State>, ts: seq<Track>, os: seq<Origin>, xs: seq<Executed>, ins: seq<Input>,
                           oldestFirst: bool, d: nat) {
    && SourceRun(tr, ts, os, ins, oldestFirst, d) && |xs| == |tr|
    && xs[0] == Executed(map[], seq(d, i => Access(0, 0)))
    && (forall t | 0 <= t < |ins| :: ExecutedAt(tr, ts, xs, ins, t))
  }

  ghost predicate ExecutedAt(tr: seq<State>, ts: seq<Track>, xs: seq<Executed>, ins: seq<Input>, t: nat)
    requires t < |ins| && |tr| == |ts| == |xs| == |ins| + 1
  {
    Wf(tr[t]) && |xs[t].loads| == |tr[t].ldq| && xs[t + 1] == NextExecuted(tr[t], ins[t], ts[t], xs[t])
  }

  lemma BytesAtReset(d: nat, s: State, t: Track, o: Origin, x: Executed)
    requires d >= 8 && d % 2 == 0 && s == Reset(d) && t == StartTrack(d) && o == StartOrigin(d)
    requires x == Executed(map[], seq(d, i => Access(0, 0)))
    ensures BytesInv(s, t, o, x)
  {
    SourcesAtReset(d, s, t, o);
  }

  lemma BytesInStep(tr: seq<State>, ts: seq<Track>, os: seq<Origin>, xs: seq<Executed>, ins: seq<Input>,
                    oldestFirst: bool, d: nat, t: nat, s: State, k: Track, o: Origin, x: Executed, inp: Input)
    requires BytesRun(tr, ts, os, xs, ins, oldestFirst, d) && t < |ins|
    requires s == tr[t] && k == ts[t] && o == os[t] && x == xs[t] && inp == ins[t]
    requires BytesInv(s, k, o, x) && EnvOk(s, inp)
    ensures BytesInv(tr[t + 1], ts[t + 1], os[t + 1], xs[t + 1])
  {
    assert StepAt(tr, ts, ins, oldestFirst, t);
    assert OriginAt(tr, ts, os, ins, t);
    assert ExecutedAt(tr, ts, xs, ins, t);
    BytesStep(s, inp, oldestFirst, k, ts[t + 1], o, x);
  }

  lemma {:induction false} RunKeepsBytes(tr: seq<State>, ts: seq<Track>, os: seq<Origin>, xs: seq<Executed>, ins: seq<Input>,
                                         oldestFirst: bool, d: nat, t: nat)
    requires BytesRun(tr, ts, os, xs, ins, oldestFirst, d) && t <= |ins|
    ensures BytesInv(tr[t], ts[t], os[t], xs[t])
  {
    hide BytesInv;
    if t == 0 {
      BytesAtReset(d, tr[0], ts[0], os[0], xs[0]);
    } else {
      RunKeepsBytes(tr, ts, os, xs, ins, oldestFirst, d, t - 1);
      RunKeepsInv(tr, ts, ins, oldestFirst, d, t - 1);
      BytesInStep(tr, ts, os, xs, ins, oldestFirst, d, t - 1, tr[t - 1], ts[t - 1], os[t - 1], xs[t - 1], ins[t - 1]);
    }
  }

  // In every reachable state the queues hold exactly the addresses and sizes
  // that the stores and loads were executed with.
  lemma QueuesHoldExecuted(tr: seq<State>, ts: seq<Track>, os: seq<Origin>, xs: seq<Executed>, ins: seq<Input>,
                           oldestFirst: bool, d: nat, t: nat, j: nat)
    requires BytesRun(tr, ts, os, xs, ins, oldestFirst, d) && t <= |ins| && j < d
    ensures Wf(tr[t]) && |tr[t].stq| == |tr[t].ldq| == |xs[t].loads| == d
    ensures tr[t].stq[j].addrValid ==>
      var n := Number(tr[t], ts[t].base, j);
      n in xs[t].stores && tr[t].stq[j].addr == xs[t].stores[n].addr && tr[t].stq[j].size == xs[t].stores[n].size
    ensures tr[t].ldq[j].addrValid ==> tr[t].ldq[j].addr == xs[t].loads[j].addr && tr[t].ldq[j].size == xs[t].loads[j].size
  {
    RunKeepsBytes(tr, ts, os, xs, ins, oldestFirst, d, t);
    RunKeepsInv(tr, ts, ins, oldestFirst, d, t);
    assert StoreHolds(tr[t].stq[j], ts[t].base + Ring.Off(tr[t].sHead.idx, j, d), xs[t].stores);
    assert LoadHolds(tr[t].ldq[j], xs[t].loads[j]);
  }

  // The bytes of an access as it was executed.
  function AccessBytes(a: Access): set<nat> {
    Bytes(a.addr, a.size)
  }

  // A load whose data is written back from a store reads only bytes that this
  // store was executed to write, exactly unless the load's end wraps.
  lemma ForwardedBytesInRuns(tr: seq<State>, ts: seq<Track>, os: seq<Origin>, xs: seq<Executed>, ins: seq<Input>,
                             oldestFirst: bool, d: nat, t: nat, i: nat, m: nat)
    requires BytesRun(tr, ts, os, xs, ins, oldestFirst, d) && t < |ins| && i < d
    requires Wf(tr[t]) && |tr[t].ldq| == d && WritesBack(tr[t], ins[t], oldestFirst, i)
    requires WfOrigin(os[t], d) && SourceOf(tr[t], ins[t], os[t], i) == FromStore(m)
    ensures |xs[t].loads| == d && m in xs[t].stores
    ensures AccessBytes(xs[t].loads[i]) <= AccessBytes(xs[t].stores[m]) <==>
      !LoadEndWraps(xs[t].stores[m].addr, xs[t].stores[m].size, xs[t].loads[i].addr, xs[t].loads[i].size)
  {
    RunKeepsBytes(tr, ts, os, xs, ins, oldestFirst, d, t);
    RunKeepsInv(tr, ts, ins, oldestFirst, d, t);
    AnswersInRuns(tr, ts, os, ins, oldestFirst, d, t);
    WrittenBackCovers(tr[t], ins[t], oldestFirst, ts[t], os[t], xs[t], i, m);
    ForwardedCovers(xs[t].stores[m].addr, xs[t].stores[m].size, xs[t].loads[i].addr, xs[t].loads[i].size);
  }

  lemma WrittenBackCovers(s: State, inp: Input, oldestFirst: bool, t: Track, o: Origin, x: Executed, i: nat, m: nat)
    requires BytesInv(s, t, o, x) && EnvOk(s, inp) && Answers(s, inp, o) && i < |s.ldq| && WritesBack(s, inp, oldestFirst, i)
    requires SourceOf(s, inp, o, i) == FromStore(m)
    ensures CoveredBy(x.stores, m, x.loads[i])
  {
    NamedLoadsAreLive(s, inp, oldestFirst, i);
    LoadParts(s, t, o, i);
  }
}
