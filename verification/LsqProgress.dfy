/**
  Progress of loads and stores: which load is requested next, that a load marked
  for replay is tried again, when a load is marked, killed, answered, put to
  sleep and written back, and which store is sent to the cache. Each statement is
  an equivalence between the next registers and what happened in the cycle.
 */
module LsqProgress {
  import opened Lsq
  import opened LsqQueue
  import opened LsqSafety
  import opened LsqOrder
  import opened LsqFresh
  import opened LsqRuns
  import opened LsqSource
  import opened LsqBytes
  import opened Ring
  import Select

  // ---------------------------------------------------------------- requests

  predicate AcceptedNow(s: State, inp: Input, i: nat) {
    s.fireLd.valid && inp.ldReady && s.fireLd.tag == i
  }

  predicate AnsweredByStore(s: State, i: nat)
    requires i < |s.ldq|
  {
    s.fwd.valid && s.fwd.ldq == i && !s.ldq[i].orderFail
  }

  // A load that has its address but neither data, nor a running or accepted
  // request, nor an answer, nor a reason to sleep.
  predicate Ripe(s: State, inp: Input, i: nat)
    requires i < |s.ldq|
  {
    var l := s.ldq[i];
    && l.valid && (l.addrValid || (inp.exec.ExecLoad? && inp.exec.tag == i))
    && !l.dataValid && !l.sleep && !l.fired && !AcceptedNow(s, inp, i) && !AnsweredByStore(s, i)
  }

  lemma WakeupIsRipe(s: State, inp: Input, i: nat)
    requires Core(s) && EnvOk(s, inp) && i < |s.ldq|
    ensures Wakeups(s, inp)[i] <==> Ripe(s, inp, i)
  {
    assert LoadSafe(s.ldq[i], Resolved(s, i));
  }

  // Before another in the order of the configured build: program order, or the
  // lower slot.
  predicate NoLater(s: State, oldestFirst: bool, i: nat, j: nat)
    requires Wf(s) && i < |s.ldq| && j < |s.ldq|
  {
    if oldestFirst then LdOff(s, i) <= LdOff(s, j) else i <= j
  }

  lemma PickIs(oldestFirst: bool, v: seq<bool>, head: nat)
    requires head < |v|
    ensures var i := Select.Pick(oldestFirst, v, head);
      && i < |v| && (v[i] <==> exists j :: 0 <= j < |v| && v[j])
      && (v[i] ==> forall j | 0 <= j < |v| && v[j] :: if oldestFirst then Off(head, i, |v|) <= Off(head, j, |v|) else i <= j)
  {
    if Select.Any(v) {
      Select.OldestIsFirstInRing(v, head);
    }
  }

  // Without a flush the next request is the first ripe load, if there is one.
  lemma RequestIsFirstRipe(s: State, inp: Input, oldestFirst: bool)
    requires Core(s) && EnvOk(s, inp) && !inp.flush
    ensures var f := Next(s, inp, oldestFirst).fireLd;
      && f.tag < |s.ldq|
      && (f.valid <==> exists i :: 0 <= i < |s.ldq| && Ripe(s, inp, i))
      && (f.valid ==> Ripe(s, inp, f.tag) && forall j | 0 <= j < |s.ldq| && Ripe(s, inp, j) :: NoLater(s, oldestFirst, f.tag, j))
  {
    hide EnvOk, NextFwd, NextLdq, NextStHead;
    var v := Wakeups(s, inp);
    forall i | 0 <= i < |s.ldq|
      ensures v[i] <==> Ripe(s, inp, i)
    {
      WakeupIsRipe(s, inp, i);
    }
    PickIs(oldestFirst, v, s.lHead.idx);
    var i := Select.Pick(oldestFirst, v, s.lHead.idx);
    assert v[i] == Wakeup(s, inp, i);
    if exists j :: 0 <= j < |s.ldq| && Ripe(s, inp, j) {
      var j :| 0 <= j < |s.ldq| && Ripe(s, inp, j);
      assert v[j];
    }
  }

  lemma RequestsInRuns(tr: seq<State>, ts: seq<Track>, ins: seq<Input>, oldestFirst: bool, d: nat, t: nat)
    requires Run(tr, ts, ins, oldestFirst, d) && t < |ins| && !ins[t].flush
    ensures Wf(tr[t]) && |tr[t].ldq| == d && tr[t + 1].fireLd.tag < d
    ensures tr[t + 1].fireLd.valid <==> exists i :: 0 <= i < d && Ripe(tr[t], ins[t], i)
    ensures tr[t + 1].fireLd.valid ==>
      && Ripe(tr[t], ins[t], tr[t + 1].fireLd.tag)
      && forall j | 0 <= j < d && Ripe(tr[t], ins[t], j) :: NoLater(tr[t], oldestFirst, tr[t + 1].fireLd.tag, j)
  {
    RunKeepsInv(tr, ts, ins, oldestFirst, d, t);
    assert StepAt(tr, ts, ins, oldestFirst, t);
    RequestIsFirstRipe(tr[t], ins[t], oldestFirst);
  }

  // -------------------------------------------------------------- violations

  // A source of data that a store executing now may turn out to have missed.
  predicate HoldsSource(s: State, inp: Input, i: nat)
    requires i < |s.ldq|
  {
    s.ldq[i].dataValid || s.ldq[i].fired || (s.fwd.valid && s.fwd.ldq == i) || AcceptedNow(s, inp, i)
  }

  // That source does not see every older store to the word executed by now.
  ghost predicate TooEarly(s: State, inp: Input, t: Track, i: nat)
    requires Wf(s) && WfInput(inp) && WfTrack(t, |s.ldq|) && i < |s.ldq|
  {
    HoldsSource(s, inp, i) && !Fresh(NextKnown(s, inp, t), t.lo[i], t.hi[i], Word(s.ldq[i].addr), t.now)
  }

  predicate Awaited(s: State, i: nat) {
    s.fwd.ldq == i && (s.fwd.valid || s.fwd.sleep)
  }

  lemma SourceHasAddress(s: State, inp: Input, i: nat)
    requires Core(s) && i < |s.ldq| && HoldsSource(s, inp, i)
    ensures s.ldq[i].valid && s.ldq[i].addrValid
  {
    assert LoadSafe(s.ldq[i], Resolved(s, i));
  }

  // The violation check finds exactly the sources chosen too early.
  lemma ViolationIsTooEarly(s: State, inp: Input, t: Track, i: nat)
    requires Inv(s, t) && EnvOk(s, inp) && !inp.flush && i < |s.ldq|
    ensures Violation(s, inp, i) <==> TooEarly(s, inp, t, i)
  {
    if HoldsSource(s, inp, i) {
      SourceHasAddress(s, inp, i);
      if Hits(s, inp, i) {
        HitIsLate(s, inp, t, i);
      } else {
        AllBefore(s, inp, t, i);
      }
    }
  }

  // The cache is told to drop the request of a load exactly if a store answers
  // it or conflicts with it, or its source was chosen too early.
  lemma KillIff(s: State, inp: Input, t: Track, i: nat)
    requires Inv(s, t) && EnvOk(s, inp) && !inp.flush && i < |s.ldq|
    ensures Kill(s, inp, i) <==> Awaited(s, i) || (TooEarly(s, inp, t, i) && !s.ldq[i].dataValid)
  {
    ViolationIsTooEarly(s, inp, t, i);
  }

  // -------------------------------------------------------------- load entry

  predicate StoreFires(s: State, inp: Input) {
    s.fireSt.valid && inp.stReady
  }

  // Everything that decides over a load in one cycle.
  ghost predicate LoadMoves(s: State, inp: Input, t: Track, i: nat, l': Ld)
    requires Wf(s) && WfInput(inp) && WfTrack(t, |s.ldq|) && i < |s.ldq|
  {
    var l, early, gone := s.ldq[i], TooEarly(s, inp, t, i), RetiresLoad(inp, i);
    // marked for replay by a violation until a request that is not killed
    && (l'.orderFail <==> early || (l.orderFail && !(s.fireLd.valid && s.fireLd.tag == i && !Awaited(s, i))))
    // data from a store's answer or the cache's
    && (l'.dataValid <==>
          (&& !gone && !early
           && (l.dataValid || AnsweredByStore(s, i) || (inp.dcValid && inp.dcTag == i && !Awaited(s, i)))))
    // running from acceptance until a conflict or a violation
    && (l'.fired <==>
          (&& !gone && !early
           && (if AcceptedNow(s, inp, i) then !Awaited(s, i) else l.fired && !(s.fwd.sleep && s.fwd.ldq == i))))
    // asleep from a conflict until the store fires or a violation
    && (l'.sleep <==>
          (&& !early
           && (if s.fwd.sleep && s.fwd.ldq == i then !(StoreFires(s, inp) && s.fireSt.tag == s.fwd.stq)
               else l.sleep && !(StoreFires(s, inp) && s.fireSt.tag == l.fwdStq))))
    && (s.fwd.sleep && s.fwd.ldq == i && l'.sleep ==> l'.fwdStq == s.fwd.stq)
  }

  lemma WiresMove(s: State, inp: Input, oldestFirst: bool, t: Track, i: nat)
    requires Inv(s, t) && EnvOk(s, inp) && !inp.flush && i < |s.ldq|
    ensures var w := WireOf(s, inp, oldestFirst, i);
      && (w.viol <==> TooEarly(s, inp, t, i))
      && (w.kill <==> Awaited(s, i) || (w.viol && !s.ldq[i].dataValid))
      && (w.refire <==> s.fireLd.valid && s.fireLd.tag == i) && (w.accept <==> AcceptedNow(s, inp, i))
      && (w.sleep <==> s.fwd.sleep && s.fwd.ldq == i) && w.fwdStq == s.fwd.stq
      && (w.stFire <==> StoreFires(s, inp)) && w.stTag == s.fireSt.tag
      && (w.fwdData <==> AnsweredByStore(s, i))
      && (w.dcData <==> inp.dcValid && inp.dcTag == i && !w.kill)
      && (w.retire <==> RetiresLoad(inp, i))
  {
    ViolationIsTooEarly(s, inp, t, i);
  }

  lemma LoadEntryMoves(s: State, inp: Input, oldestFirst: bool, t: Track, i: nat)
    requires Inv(s, t) && EnvOk(s, inp) && !inp.flush && i < |s.ldq|
    ensures LoadMoves(s, inp, t, i, Next(s, inp, oldestFirst).ldq[i])
  {
    WiresMove(s, inp, oldestFirst, t, i);
    assert Next(s, inp, oldestFirst).ldq[i] == NextLd(s.ldq[i], WireOf(s, inp, oldestFirst, i));
  }

  // ------------------------------------------------------------------ replay

  lemma MarkedStillWaits(s: State, inp: Input, i: nat)
    requires Core(s) && EnvOk(s, inp) && i < |s.ldq| && s.ldq[i].orderFail && s.ldq[i].addrValid
    ensures Ripe(s, inp, i) <==> !s.ldq[i].sleep && !AcceptedNow(s, inp, i)
  {
    assert LoadSafe(s.ldq[i], Resolved(s, i));
  }

  ghost predicate NoOtherRipe(s: State, inp: Input, i: nat) {
    forall j | 0 <= j < |s.ldq| && j != i :: !Ripe(s, inp, j)
  }

  // A load whose source turns out too early is marked, and one edge later it is
  // requested already or is ripe; if it is the only ripe one, it is the next
  // request.
  lemma ViolatedIsReplayed(s: State, inp: Input, oldestFirst: bool, t: Track, i: nat, s1: State, inp1: Input)
    requires Inv(s, t) && EnvOk(s, inp) && !inp.flush && i < |s.ldq| && TooEarly(s, inp, t, i)
    requires s1 == Next(s, inp, oldestFirst) && Core(s1) && EnvOk(s1, inp1) && !inp1.flush
    ensures s1.ldq[i].valid && s1.ldq[i].orderFail && !s1.ldq[i].dataValid && !s1.ldq[i].fired && !s1.ldq[i].sleep
    ensures (s1.fireLd.valid && s1.fireLd.tag == i) || Ripe(s1, inp1, i)
    ensures !AcceptedNow(s1, inp1, i) && NoOtherRipe(s1, inp1, i) ==>
      Next(s1, inp1, oldestFirst).fireLd.valid && Next(s1, inp1, oldestFirst).fireLd.tag == i
  {
    LoadEntryMoves(s, inp, oldestFirst, t, i);
    SourceHasAddress(s, inp, i);
    ViolatedStays(s, inp, oldestFirst, t, i);
    MarkedStillWaits(s1, inp1, i);
    RequestIsFirstRipe(s1, inp1, oldestFirst);
  }

  lemma ViolatedStays(s: State, inp: Input, oldestFirst: bool, t: Track, i: nat)
    requires Inv(s, t) && EnvOk(s, inp) && !inp.flush && i < |s.ldq| && TooEarly(s, inp, t, i)
    ensures Next(s, inp, oldestFirst).ldq[i].valid && Next(s, inp, oldestFirst).ldq[i].addrValid
  {
    ViolationIsTooEarly(s, inp, t, i);
    SourceHasAddress(s, inp, i);
    if RetiresLoad(inp, i) {
      RetiringIsClean(s, inp, oldestFirst, i);
    }
    assert Next(s, inp, oldestFirst).ldq[i] == NextLd(s.ldq[i], WireOf(s, inp, oldestFirst, i));
  }

  lemma ReplayInRuns(tr: seq<State>, ts: seq<Track>, ins: seq<Input>, oldestFirst: bool, d: nat, t: nat, i: nat,
                     s: State, inp: Input, s1: State, inp1: Input, s2: State)
    requires Run(tr, ts, ins, oldestFirst, d) && t + 1 < |ins| && s == tr[t] && s1 == tr[t + 1] && s2 == tr[t + 2]
    requires inp == ins[t] && inp1 == ins[t + 1] && !inp.flush && !inp1.flush
    requires Wf(s) && WfInput(inp) && WfTrack(ts[t], |s.ldq|) && i < |s.ldq| && TooEarly(s, inp, ts[t], i)
    ensures i < |s1.ldq| && s1.ldq[i].valid && s1.ldq[i].orderFail && !s1.ldq[i].dataValid
    ensures (s1.fireLd.valid && s1.fireLd.tag == i) || Ripe(s1, inp1, i)
    ensures !AcceptedNow(s1, inp1, i) && NoOtherRipe(s1, inp1, i) ==> s2.fireLd.valid && s2.fireLd.tag == i
  {
    hide Inv, TooEarly, Ripe, NoOtherRipe, AcceptedNow;
    RunKeepsInv(tr, ts, ins, oldestFirst, d, t);
    RunKeepsInv(tr, ts, ins, oldestFirst, d, t + 1);
    assert StepAt(tr, ts, ins, oldestFirst, t) && StepAt(tr, ts, ins, oldestFirst, t + 1);
    InvHasCore(s1, ts[t + 1]);
    ViolatedIsReplayed(s, inp, oldestFirst, ts[t], i, s1, inp1);
  }

  lemma InvHasCore(s: State, t: Track)
    requires Inv(s, t)
    ensures Core(s)
  {
  }

  // --------------------------------------------------------------- writeback

  // A load with data at hand all of whose older stores have their addresses.
  ghost predicate WritebackRipe(s: State, inp: Input, t: Track, i: nat)
    requires Wf(s) && WfInput(inp) && WfTrack(t, |s.ldq|) && i < |s.ldq|
  {
    var l := s.ldq[i];
    && l.valid
    && (forall j: nat | j < |s.stq| && s.stq[j].valid && Number(s, t.base, j) < t.hi[i] :: s.stq[j].addrValid)
    && ((l.dataValid && !l.writebacked) || AnsweredByStore(s, i)
        || (inp.dcValid && inp.dcTag == i && !Awaited(s, i) && !(TooEarly(s, inp, t, i) && !l.dataValid)))
  }

  lemma ResolvedIs(s: State, t: Track, i: nat)
    requires Inv(s, t) && i < |s.ldq| && s.ldq[i].valid
    ensures Resolved(s, i) <==>
      forall j: nat | j < |s.stq| && s.stq[j].valid && Number(s, t.base, j) < t.hi[i] :: s.stq[j].addrValid
  {
    MasksAreLive(s, t.base, t.hi);
    forall j: nat | j < |s.stq|
      ensures j in s.ldq[i].mask <==> s.stq[j].valid && Number(s, t.base, j) < t.hi[i]
    {
      MaskIsOlderStores(s, t.base, t.hi, i, j);
    }
  }

  lemma RequestIsWritebackRipe(s: State, inp: Input, t: Track, i: nat)
    requires Inv(s, t) && EnvOk(s, inp) && !inp.flush && i < |s.ldq|
    ensures WbRequests(s, inp)[i] <==> WritebackRipe(s, inp, t, i)
  {
    KillIff(s, inp, t, i);
    assert LoadSafe(s.ldq[i], Resolved(s, i));
    if s.ldq[i].valid {
      ResolvedIs(s, t, i);
    }
  }

  lemma PickedIff(oldestFirst: bool, v: seq<bool>, head: nat, i: nat)
    requires head < |v| && i < |v|
    ensures v[i] && i == Select.Pick(oldestFirst, v, head) <==>
      && v[i]
      && forall j | 0 <= j < |v| && v[j] :: if oldestFirst then Off(head, i, |v|) <= Off(head, j, |v|) else i <= j
  {
    PickIs(oldestFirst, v, head);
    var k := Select.Pick(oldestFirst, v, head);
    assert Off(head, i, |v|) == Off(head, k, |v|) ==> i == k;
  }

  // The first load that is ripe for it writes back, whenever the broadcast lane
  // is free,
  lemma WritesBackIff(s: State, inp: Input, oldestFirst: bool, t: Track, i: nat)
    requires Inv(s, t) && EnvOk(s, inp) && !inp.flush && i < |s.ldq|
    ensures WritesBack(s, inp, oldestFirst, i) <==>
      && inp.wbReady && WritebackRipe(s, inp, t, i)
      && forall j | 0 <= j < |s.ldq| && WritebackRipe(s, inp, t, j) :: NoLater(s, oldestFirst, i, j)
  {
    var v := WbRequests(s, inp);
    forall j | 0 <= j < |s.ldq|
      ensures v[j] <==> WritebackRipe(s, inp, t, j)
    {
      RequestIsWritebackRipe(s, inp, t, j);
    }
    assert v[i] == WbRequest(s, inp, i);
    hide WritebackRipe, WbRequest, WbRequests, Inv;
    PickedIff(oldestFirst, v, s.lHead.idx, i);
  }

  // and is on record as written back until it retires.
  lemma WrittenBackIff(s: State, inp: Input, oldestFirst: bool, i: nat)
    requires Core(s) && EnvOk(s, inp) && !inp.flush && i < |s.ldq|
    ensures Next(s, inp, oldestFirst).ldq[i].writebacked <==>
      !RetiresLoad(inp, i) && (s.ldq[i].writebacked || WritesBack(s, inp, oldestFirst, i))
  {
    assert Next(s, inp, oldestFirst).ldq[i] == NextLd(s.ldq[i], WireOf(s, inp, oldestFirst, i));
  }

  // ------------------------------------------------------------------ stores

  // The head of the store queue is offered to the cache exactly while a retired
  // store waits and none is being taken; a taken one leaves the queue.
  lemma StoreRequestIff(s: State, inp: Input, oldestFirst: bool)
    requires StqInv(s) && LdqInv(s) && EnvOk(s, inp) && !inp.flush
    ensures var f := Next(s, inp, oldestFirst).fireSt;
      && (f.valid <==> RetCount(s) > 0 && !StoreFires(s, inp))
      && (f.valid ==> f.tag == s.sHead.idx && s.stq[f.tag].retired && s.stq[f.tag].addrValid)
    ensures StoreFires(s, inp) ==> s.fireSt.tag == s.sHead.idx && !Next(s, inp, oldestFirst).stq[s.sHead.idx].valid
  {
    var h := s.sHead.idx;
    assert StoreOk(s.stq[h], StOff(s, h), RetCount(s), StCount(s));
    if exists j | 0 <= j < |s.stq| :: s.stq[j].valid && s.stq[j].retired {
      var j :| 0 <= j < |s.stq| && s.stq[j].valid && s.stq[j].retired;
      assert StoreOk(s.stq[j], StOff(s, j), RetCount(s), StCount(s));
    }
    if StoreFires(s, inp) {
      FiredSlotIsFree(s, inp, h);
      assert Next(s, inp, oldestFirst).stq[h] == NextSt(s, inp, h);
    }
  }

  // -------------------------------------------------------------- forwarding

  // m is the youngest unfired store to the word, older than the requested load,
  // whose address is known.
  ghost predicate YoungestSeen(s: State, t: Track, m: nat)
    requires Wf(s) && WfTrack(t, |s.ldq|)
  {
    var i := s.fireLd.tag;
    s.fireLd.valid && SourceOk(t.known, t.base, t.hi[i], Word(s.ldq[i].addr), t.now, FromStore(m))
  }

  lemma SeenIsMatched(s: State, t: Track, m: nat)
    requires Inv(s, t)
    ensures YoungestSeen(s, t, m) <==> Select.Any(Matches(s)) && Number(s, t.base, FwdIdx(s)) == m
  {
    if Select.Any(Matches(s)) {
      AnswerSource(s, t);
    }
    if YoungestSeen(s, t, m) {
      var j := SeenMatches(s, t, m);
      assert Matches(s)[j];
    }
  }

  lemma MatchCovers(s: State, t: Track, o: Origin, x: Executed)
    requires BytesInv(s, t, o, x) && Select.Any(Matches(s))
    ensures Conflict(s) <==> !CoveredBy(x.stores, Number(s, t.base, FwdIdx(s)), x.loads[s.fireLd.tag])
    ensures s.stq[FwdIdx(s)].dataValid
  {
    var i, f := s.fireLd.tag, FwdIdx(s);
    ForwardsFromYoungest(s, t.base, t.hi);
    assert StoreHolds(s.stq[f], t.base + Off(s.sHead.idx, f, |s.stq|), x.stores);
    assert LoadHolds(s.ldq[i], x.loads[i]);
  }

  // A request is answered by the youngest store seen exactly if that store
  // covers it, and put to sleep on that store exactly if it does not and the
  // store is not firing in this cycle.
  lemma ForwardsIff(s: State, inp: Input, oldestFirst: bool, t: Track, o: Origin, x: Executed)
    requires BytesInv(s, t, o, x) && EnvOk(s, inp) && !inp.flush
    ensures var f := Next(s, inp, oldestFirst).fwd;
      && f.ldq == s.fireLd.tag
      && (f.valid <==> exists m: nat :: YoungestSeen(s, t, m) && CoveredBy(x.stores, m, x.loads[s.fireLd.tag]))
      && (f.sleep <==> exists m: nat :: YoungestSeen(s, t, m) && !CoveredBy(x.stores, m, x.loads[s.fireLd.tag])
                        && !(StoreFires(s, inp) && m == t.base))
      && (f.valid || f.sleep ==> f.stq < |s.stq| && YoungestSeen(s, t, Number(s, t.base, f.stq)))
  {
    forall m: nat
      ensures YoungestSeen(s, t, m) <==> Select.Any(Matches(s)) && Number(s, t.base, FwdIdx(s)) == m
    {
      SeenIsMatched(s, t, m);
    }
    if Select.Any(Matches(s)) {
      MatchCovers(s, t, o, x);
      assert YoungestSeen(s, t, Number(s, t.base, FwdIdx(s)));
      assert StoreFires(s, inp) ==> s.fireSt.tag == s.sHead.idx;
    }
    ForwardWires(s, inp, oldestFirst);
  }

  lemma ForwardWires(s: State, inp: Input, oldestFirst: bool)
    requires Wf(s) && WfInput(inp) && !inp.flush
    ensures var f, any := Next(s, inp, oldestFirst).fwd, Select.Any(Matches(s));
      && f.ldq == s.fireLd.tag && f.stq == FwdIdx(s)
      && (f.valid <==> any && s.stq[FwdIdx(s)].dataValid && !Conflict(s))
      && (f.sleep <==> Conflict(s) && !(StoreFires(s, inp) && s.fireSt.tag == FwdIdx(s)))
      && (Conflict(s) ==> any)
  {
  }

  // -------------------------------------------------------------- completion

  // The oldest load, with its address, no older store left in the queue, and
  // still without data.
  ghost predicate Alone(s: State, i: nat) {
    && Wf(s) && i == s.lHead.idx && s.ldq[i].valid && s.ldq[i].addrValid && !s.ldq[i].dataValid
    && s.ldq[i].mask == {} && !Awaited(s, i)
  }

  // Nothing can be too early for it, no store answers it, and it stays.
  lemma AloneFacts(s: State, inp: Input, oldestFirst: bool, t: Track, i: nat)
    requires Inv(s, t) && EnvOk(s, inp) && !inp.flush && Alone(s, i)
    ensures !TooEarly(s, inp, t, i) && !s.ldq[i].sleep && !s.ldq[i].writebacked && !RetiresLoad(inp, i)
    ensures RetLoads(inp.ret) == 0 && LdOff(s, i) == 0
    ensures forall j | 0 <= j < |s.ldq| && LdOff(s, j) == 0 :: j == i
  {
    ViolationIsTooEarly(s, inp, t, i);
    assert SleepOk(s.ldq[i], s.sHead.idx, StCount(s), |s.stq|);
    assert LoadSafe(s.ldq[i], Resolved(s, i));
    LoadsLeaveInOrder(s, inp, i);
  }

  lemma AloneUnmatched(s: State, inp: Input, t: Track, i: nat)
    requires Inv(s, t) && Alone(s, i) && s.fireLd.valid && s.fireLd.tag == i
    ensures !Select.Any(Matches(s))
  {
    if Select.Any(Matches(s)) {
      ForwardsFromYoungest(s, t.base, t.hi);
    }
  }

  lemma AloneStep(s: State, inp: Input, oldestFirst: bool, t: Track, i: nat)
    requires Inv(s, t) && EnvOk(s, inp) && !inp.flush && Alone(s, i) && !(inp.dcValid && inp.dcTag == i)
    ensures Alone(Next(s, inp, oldestFirst), i)
    ensures Next(s, inp, oldestFirst).ldq[i].fired <==> AcceptedNow(s, inp, i) || s.ldq[i].fired
  {
    AloneFacts(s, inp, oldestFirst, t, i);
    LoadEntryMoves(s, inp, oldestFirst, t, i);
    LoadSlotStep(s, inp, i);
    if NextFwd(s, inp).ldq == i && s.fireLd.valid {
      AloneUnmatched(s, inp, t, i);
    }
    AloneEntry(s, inp, oldestFirst, i);
  }

  lemma AloneEntry(s: State, inp: Input, oldestFirst: bool, i: nat)
    requires Core(s) && EnvOk(s, inp) && !inp.flush && Alone(s, i) && !RetiresLoad(inp, i) && RetLoads(inp.ret) == 0
    requires !(Off(s.lTail.idx, i, |s.ldq|) < Loads(inp.lanes))
    requires NextFwd(s, inp).ldq == i && s.fireLd.valid ==> !Select.Any(Matches(s))
    ensures var s' := Next(s, inp, oldestFirst);
      && Wf(s') && s'.lHead.idx == i && s'.ldq[i].valid && s'.ldq[i].addrValid && s'.ldq[i].mask == {} && !Awaited(s', i)
  {
    assert Next(s, inp, oldestFirst).ldq[i] == NextLd(s.ldq[i], WireOf(s, inp, oldestFirst, i));
    assert !s.fireLd.valid ==> forall j | 0 <= j < |s.stq| :: !Matches(s)[j];
  }

  // In the oldest-first build it is requested at once,
  lemma AloneRequested(s: State, inp: Input, t: Track, i: nat)
    requires Inv(s, t) && EnvOk(s, inp) && !inp.flush && Alone(s, i) && !s.ldq[i].fired && !AcceptedNow(s, inp, i)
    ensures Next(s, inp, true).fireLd.valid && Next(s, inp, true).fireLd.tag == i
  {
    AloneFacts(s, inp, true, t, i);
    RequestIsFirstRipe(s, inp, true);
    assert Ripe(s, inp, i);
    assert NoLater(s, true, Next(s, inp, true).fireLd.tag, i);
  }

  lemma AloneInRun(tr: seq<State>, ts: seq<Track>, ins: seq<Input>, d: nat, t: nat, i: nat, s: State, inp: Input, s': State)
    requires Run(tr, ts, ins, true, d) && t < |ins| && s == tr[t] && inp == ins[t] && s' == tr[t + 1]
    requires Wf(s) && Alone(s, i) && !inp.flush && !(inp.dcValid && inp.dcTag == i)
    ensures Wf(s') && Alone(s', i) && (s'.ldq[i].fired <==> AcceptedNow(s, inp, i) || s.ldq[i].fired)
    ensures !s.ldq[i].fired && !AcceptedNow(s, inp, i) ==> s'.fireLd.valid && s'.fireLd.tag == i
  {
    RunKeepsInv(tr, ts, ins, true, d, t);
    assert StepAt(tr, ts, ins, true, t);
    AloneStep(s, inp, true, ts[t], i);
    if !s.ldq[i].fired && !AcceptedNow(s, inp, i) {
      AloneRequested(s, inp, ts[t], i);
    }
  }

  // runs until the cache answers,
  lemma {:induction false} AloneRuns(tr: seq<State>, ts: seq<Track>, ins: seq<Input>, d: nat, t: nat, u: nat, i: nat)
    requires Run(tr, ts, ins, true, d) && t < u < |ins| && Wf(tr[t]) && Alone(tr[t], i) && AcceptedNow(tr[t], ins[t], i)
    requires forall v | t <= v < u :: !ins[v].flush && !(ins[v].dcValid && ins[v].dcTag == i)
    ensures Wf(tr[u]) && Alone(tr[u], i) && tr[u].ldq[i].fired
  {
    if t + 1 < u {
      AloneRuns(tr, ts, ins, d, t, u - 1, i);
    }
    hide Run;
    AloneInRun(tr, ts, ins, d, u - 1, i, tr[u - 1], ins[u - 1], tr[u]);
  }

  // and is written back in the cycle of the answer.
  lemma AloneWritesBack(s: State, inp: Input, t: Track, i: nat)
    requires Inv(s, t) && EnvOk(s, inp) && !inp.flush && Alone(s, i)
    requires inp.dcValid && inp.dcTag == i && inp.wbReady
    ensures WritesBack(s, inp, true, i) && Next(s, inp, true).ldq[i].dataValid && Next(s, inp, true).ldq[i].writebacked
  {
    AloneFacts(s, inp, true, t, i);
    LoadEntryMoves(s, inp, true, t, i);
    AloneResolved(s, t, i);
    WritesBackIff(s, inp, true, t, i);
    WrittenBackIff(s, inp, true, i);
  }

  lemma AloneResolved(s: State, t: Track, i: nat)
    requires Inv(s, t) && Alone(s, i)
    ensures forall j: nat | j < |s.stq| && s.stq[j].valid && Number(s, t.base, j) < t.hi[i] :: s.stq[j].addrValid
  {
    assert Resolved(s, i);
    ResolvedIs(s, t, i);
  }

  lemma AnsweredInRun(tr: seq<State>, ts: seq<Track>, ins: seq<Input>, d: nat, u: nat, i: nat, s: State, inp: Input, s': State)
    requires Run(tr, ts, ins, true, d) && u < |ins| && s == tr[u] && inp == ins[u] && s' == tr[u + 1]
    requires Wf(s) && Alone(s, i) && !inp.flush && inp.dcValid && inp.dcTag == i && inp.wbReady
    ensures |s'.ldq| == d && i < d && s'.ldq[i].valid && s'.ldq[i].dataValid && s'.ldq[i].writebacked
  {
    hide Inv, Alone, Next;
    RunKeepsInv(tr, ts, ins, true, d, u);
    RunKeepsInv(tr, ts, ins, true, d, u + 1);
    assert StepAt(tr, ts, ins, true, u);
    AnsweredStep(s, inp, ts[u], i, ts[u + 1]);
  }

  lemma AnsweredStep(s: State, inp: Input, t: Track, i: nat, t': Track)
    requires Inv(s, t) && EnvOk(s, inp) && !inp.flush && Alone(s, i) && inp.dcValid && inp.dcTag == i && inp.wbReady
    requires Inv(Next(s, inp, true), t')
    ensures i < |s.ldq|
    ensures var l := Next(s, inp, true).ldq[i]; l.valid && l.dataValid && l.writebacked
  {
    AloneWritesBack(s, inp, t, i);
    DataIsLive(Next(s, inp, true), i);
  }

  lemma DataIsLive(s: State, i: nat)
    requires Core(s) && i < |s.ldq| && s.ldq[i].dataValid
    ensures s.ldq[i].valid
  {
    assert LoadSafe(s.ldq[i], Resolved(s, i));
  }

  // The oldest load completes: requested at t, accepted at t + 1, answered at u,
  // it is written back at u, whatever the other loads and stores do meanwhile.
  lemma OldestLoadCompletes(tr: seq<State>, ts: seq<Track>, ins: seq<Input>, d: nat, t: nat, u: nat, i: nat)
    requires Run(tr, ts, ins, true, d) && t + 1 < u < |ins|
    requires Wf(tr[t]) && Alone(tr[t], i) && !tr[t].ldq[i].fired && !AcceptedNow(tr[t], ins[t], i)
    requires forall v | t <= v <= u :: !ins[v].flush
    requires forall v | t <= v < u :: !(ins[v].dcValid && ins[v].dcTag == i)
    requires ins[t + 1].ldReady && ins[u].dcValid && ins[u].dcTag == i && ins[u].wbReady
    ensures tr[t + 1].fireLd.valid && tr[t + 1].fireLd.tag == i
    ensures |tr[u + 1].ldq| == d && i < d && tr[u + 1].ldq[i].valid && tr[u + 1].ldq[i].dataValid && tr[u + 1].ldq[i].writebacked
  {
    assert |tr| == |ins| + 1;
    hide Run, Alone;
    AloneInRun(tr, ts, ins, d, t, i, tr[t], ins[t], tr[t + 1]);
    AloneRuns(tr, ts, ins, d, t + 1, u, i);
    AnsweredInRun(tr, ts, ins, d, u, i, tr[u], ins[u], tr[u + 1]);
  }
}
