/**
  Where a load's data comes from: a store that forwards, or the data cache. The
  record beside the queues keeps, for each load, what its data register holds,
  the source its latest request leads to, and the number of the oldest store that
  had not fired when that request was compared. When the load writes back fresh
  data, the source is the youngest older store to its word among those, and the
  cache if there is none.
 */
module LsqSource {
  import opened Lsq
  import opened LsqQueue
  import opened LsqSafety
  import opened LsqOrder
  import opened LsqFresh
  import opened LsqRuns
  import opened Ring
  import Select

  datatype Source = FromCache | FromStore(number: nat)

  datatype Origin = Origin(
    from: seq<Source>,         // by load entry
    floor: seq<nat>,           // stores below had fired
    fwdFrom: Source,           // the same for the forwarding register
    fwdFloor: nat,
    open: seq<bool>,           // the cache owes an answer
    held: seq<Source>          // what the data register was last written from
  )

  // The data cache answers accepted requests that were not killed, once.
  ghost predicate Answers(s: State, inp: Input, o: Origin) {
    inp.dcValid ==> inp.dcTag < |s.ldq| && inp.dcTag < |o.open| && (Kill(s, inp, inp.dcTag) || o.open[inp.dcTag])
  }

  // The one matching store does not write all bytes and fires in this very
  // cycle: the load neither gets an answer nor sleeps, and the store counts as
  // fired.
  predicate Passing(s: State, inp: Input)
    requires Wf(s)
  {
    Conflict(s) && StFire(s, inp) && s.fireSt.tag == FwdIdx(s)
  }

  function Floor(s: State, inp: Input, t: Track): nat
    requires Wf(s)
  {
    if Passing(s, inp) then t.base + 1 else t.base
  }

  ghost predicate WfOrigin(o: Origin, d: nat) {
    |o.from| == d && |o.floor| == d && |o.open| == d && |o.held| == d
  }

  function NextOrigin(s: State, inp: Input, t: Track, o: Origin): (o': Origin)
    requires Wf(s) && WfOrigin(o, |s.ldq|)
    ensures WfOrigin(o', |s.ldq|)
  {
    Origin(
      seq(|s.ldq|, i requires 0 <= i < |s.ldq| =>
        if FwdAccept(s, i) then o.fwdFrom
        else if Accept(s, inp) && i == s.fireLd.tag then FromCache
        else o.from[i]),
      seq(|s.ldq|, i requires 0 <= i < |s.ldq| =>
        if FwdAccept(s, i) then o.fwdFloor
        else if Accept(s, inp) && i == s.fireLd.tag then Floor(s, inp, t)
        else o.floor[i]),
      FromStore(Number(s, t.base, FwdIdx(s))),
      t.base,
      seq(|s.ldq|, i requires 0 <= i < |s.ldq| =>
        if inp.flush || Kill(s, inp, i) then false
        else if Accept(s, inp) && i == s.fireLd.tag then true
        else o.open[i] && !(inp.dcValid && inp.dcTag == i)),
      seq(|s.ldq|, i requires 0 <= i < |s.ldq| =>
        if FwdAccept(s, i) then o.fwdFrom else if DcAccept(s, inp, i) then FromCache else o.held[i]))
  }

  // ----------------------------------------------------------------- sources

  // Store n is an older one to the word, unfired and known when the data was
  // chosen.
  predicate Seen(known: map<nat, Known>, floor: nat, hi: int, word: nat, chosen: int, n: nat) {
    n in known && floor <= n < hi && known[n].word == word && known[n].time < chosen
  }

  ghost predicate SourceOk(known: map<nat, Known>, floor: nat, hi: int, word: nat, chosen: int, from: Source) {
    match from
    case FromCache => forall n: nat :: !Seen(known, floor, hi, word, chosen, n)
    case FromStore(m) =>
      && Seen(known, floor, hi, word, chosen, m)
      && (forall n: nat :: Seen(known, floor, hi, word, chosen, n) ==> n <= m)
  }

  // awaits: the forwarding register holds an answer or a conflict for the load.
  ghost predicate LoadSourced(l: Ld, awaits: bool, known: map<nat, Known>, lo: nat, floor: nat, hi: int, src: nat, from: Source, now: nat) {
    l.valid && (l.dataValid || (l.fired && !awaits)) ==>
      lo <= floor && src < now && SourceOk(known, floor, hi, Word(l.addr), src, from)
  }

  predicate Awaits(f: Fwd, i: nat) {
    i == f.ldq && (f.valid || f.sleep)
  }

  ghost predicate EntriesSourced(ldq: seq<Ld>, f: Fwd, known: map<nat, Known>, lo: seq<nat>, floor: seq<nat>, hi: seq<int>,
                                 src: seq<nat>, from: seq<Source>, now: nat) {
    && |lo| == |floor| == |hi| == |src| == |from| == |ldq|
    && (forall i | 0 <= i < |ldq| :: LoadSourced(ldq[i], Awaits(f, i), known, lo[i], floor[i], hi[i], src[i], from[i], now))
  }

  ghost predicate LoadsSourced(s: State, t: Track, o: Origin) {
    EntriesSourced(s.ldq, s.fwd, t.known, t.lo, o.floor, t.hi, t.src, o.from, t.now)
  }

  ghost predicate FwdSourced(s: State, t: Track, o: Origin)
    requires Wf(s) && WfTrack(t, |s.ldq|)
  {
    var i := s.fwd.ldq;
    s.fwd.valid && !s.ldq[i].orderFail ==>
      t.now > 0 && t.lo[i] <= o.fwdFloor && SourceOk(t.known, o.fwdFloor, t.hi[i], Word(s.ldq[i].addr), t.now - 1, o.fwdFrom)
  }

  // An answer is owed only to a running request without data, and data that is
  // there was written by the latest request's source.
  ghost predicate LoadHeld(l: Ld, open: bool, held: Source, from: Source) {
    && (open ==> l.valid && l.fired && !l.dataValid && from == FromCache)
    && (l.valid && l.dataValid ==> held == from)
  }

  ghost predicate EntriesHeld(ldq: seq<Ld>, o: Origin) {
    WfOrigin(o, |ldq|) && forall i | 0 <= i < |ldq| :: LoadHeld(ldq[i], o.open[i], o.held[i], o.from[i])
  }

  // A store's address and data arrive together.
  ghost predicate DataWithAddress(s: State) {
    forall j | 0 <= j < |s.stq| :: s.stq[j].addrValid ==> s.stq[j].dataValid
  }

  ghost predicate SourceInv(s: State, t: Track, o: Origin) {
    && Inv(s, t) && WfOrigin(o, |s.ldq|)
    && LoadsSourced(s, t, o) && FwdSourced(s, t, o) && DataWithAddress(s) && EntriesHeld(s.ldq, o)
  }

  // ------------------------------------------------------- the record grows

  ghost predicate Later(known: map<nat, Known>, known': map<nat, Known>, now: nat) {
    && (forall n | n in known :: n in known' && known'[n] == known[n])
    && (forall n | n in known' && n !in known :: known'[n].time == now)
  }

  lemma KnownGrows(s: State, inp: Input, t: Track)
    requires Inv(s, t) && EnvOk(s, inp) && !inp.flush
    ensures Later(t.known, NextKnown(s, inp, t), t.now)
  {
    if inp.exec.ExecStore? {
      var j := inp.exec.tag;
      assert StoreOk(s.stq[j], StOff(s, j), RetCount(s), StCount(s));
      assert SlotKnown(s.stq[j], Number(s, t.base, j), t.known);
    }
  }

  lemma SourceStays(known: map<nat, Known>, known': map<nat, Known>, now: nat,
                    floor: nat, hi: int, word: nat, chosen: int, from: Source)
    requires SourceOk(known, floor, hi, word, chosen, from) && Later(known, known', now) && chosen <= now
    ensures SourceOk(known', floor, hi, word, chosen, from)
  {
    forall n: nat
      ensures Seen(known', floor, hi, word, chosen, n) <==> Seen(known, floor, hi, word, chosen, n)
    {
    }
  }

  // --------------------------------------------------------- the comparison

  // An older store to the requested word with a known address is a match.
  lemma SeenMatches(s: State, t: Track, n: nat) returns (j: nat)
    requires Inv(s, t) && s.fireLd.valid && n in t.known && t.base <= n < t.hi[s.fireLd.tag]
    requires t.known[n].word == Word(s.ldq[s.fireLd.tag].addr)
    ensures j < |s.stq| && Number(s, t.base, j) == n
    ensures Match(s, j) && j in s.ldq[s.fireLd.tag].mask && s.stq[j].addrValid
    ensures Word(s.stq[j].addr) == Word(s.ldq[s.fireLd.tag].addr)
  {
    var i := s.fireLd.tag;
    assert EntryMask(s.ldq[i], s.sHead.idx, t.hi[i] - t.base, StCount(s), |s.stq|);
    j := Slot(s.sHead.idx, n - t.base, |s.stq|);
    assert Off(s.sHead.idx, j, |s.stq|) == n - t.base;
    assert StoreOk(s.stq[j], StOff(s, j), RetCount(s), StCount(s));
    assert SlotKnown(s.stq[j], Number(s, t.base, j), t.known);
    MatchIsOlder(s, t.base, t.hi, j);
  }

  // What forwarding answers is the youngest older store seen.
  lemma AnswerSource(s: State, t: Track)
    requires Inv(s, t) && Select.Any(Matches(s))
    ensures s.fireLd.valid
    ensures SourceOk(t.known, t.base, t.hi[s.fireLd.tag], Word(s.ldq[s.fireLd.tag].addr), t.now,
                     FromStore(Number(s, t.base, FwdIdx(s))))
  {
    hide FwdIdx;
    var i, f := s.fireLd.tag, FwdIdx(s);
    ForwardsFromYoungest(s, t.base, t.hi);
    assert SlotKnown(s.stq[f], Number(s, t.base, f), t.known);
    forall n: nat | Seen(t.known, t.base, t.hi[i], Word(s.ldq[i].addr), t.now, n)
      ensures n <= Number(s, t.base, f)
    {
      var j := SeenMatches(s, t, n);
    }
  }

  // A request without answer and without conflict sees no older store to its
  // word, apart from one that is passing.
  lemma NoAnswerSource(s: State, inp: Input, t: Track)
    requires Inv(s, t) && DataWithAddress(s) && EnvOk(s, inp) && !inp.flush && s.fireLd.valid
    requires !NextFwd(s, inp).valid && !NextFwd(s, inp).sleep
    ensures SourceOk(t.known, Floor(s, inp, t), t.hi[s.fireLd.tag], Word(s.ldq[s.fireLd.tag].addr), t.now, FromCache)
  {
    var i := s.fireLd.tag;
    forall n: nat
      ensures !Seen(t.known, Floor(s, inp, t), t.hi[i], Word(s.ldq[i].addr), t.now, n)
    {
      if Seen(t.known, Floor(s, inp, t), t.hi[i], Word(s.ldq[i].addr), t.now, n) {
        var j := SeenMatches(s, t, n);
        assert Matches(s)[j];
        PassingIsHead(s, inp, t, j);
      }
    }
  }

  lemma PassingIsHead(s: State, inp: Input, t: Track, j: nat)
    requires Inv(s, t) && DataWithAddress(s) && !inp.flush && s.fireLd.valid
    requires !NextFwd(s, inp).valid && !NextFwd(s, inp).sleep
    requires j < |s.stq| && Match(s, j) && j in s.ldq[s.fireLd.tag].mask && s.stq[j].addrValid
    requires Select.Any(Matches(s)) && Word(s.stq[j].addr) == Word(s.ldq[s.fireLd.tag].addr)
    ensures Passing(s, inp) && Number(s, t.base, j) == t.base
  {
    ForwardsFromYoungest(s, t.base, t.hi);
  }

  // -------------------------------------------------------------- the step

  lemma EntrySourceStep(l: Ld, w: Wire, resolved: bool, awaits: bool, awaits': bool,
                        known: map<nat, Known>, known': map<nat, Known>, now: nat, lo: nat, lo': nat,
                        floor: nat, floorNow: nat, fwdFloor: nat, hi: int, hi': int, src: nat, from: Source, fwdFrom: Source)
    requires LoadSafe(l, resolved) && WireOk(l, w, resolved)
    requires LoadSourced(l, awaits, known, lo, floor, hi, src, from, now) && Later(known, known', now)
    requires !w.alloc ==> hi' == hi && lo' == lo
    requires l.valid ==> lo <= floorNow
    requires w.fwdData ==> now > 0 && lo <= fwdFloor && SourceOk(known, fwdFloor, hi, Word(l.addr), now - 1, fwdFrom)
    requires awaits ==> w.kill && (w.fwdData || w.sleep || l.orderFail)
    requires w.accept && !awaits' ==> SourceOk(known, floorNow, hi, Word(l.addr), now, FromCache)
    ensures LoadSourced(NextLd(l, w), awaits', known', lo',
              if w.fwdData then fwdFloor else if w.accept then floorNow else floor, hi',
              if w.fwdData && now > 0 then now - 1 else if w.accept then now else src,
              if w.fwdData then fwdFrom else if w.accept then FromCache else from, now + 1)
  {
    var l', word := NextLd(l, w), Word(l.addr);
    if l'.valid && (l'.dataValid || (l'.fired && !awaits')) {
      assert l.valid && l.addrValid && l'.addr == l.addr && !w.alloc;
      if w.fwdData {
        SourceStays(known, known', now, fwdFloor, hi, word, now - 1, fwdFrom);
      } else if w.accept {
        SourceStays(known, known', now, floorNow, hi, word, now, FromCache);
      } else {
        SourceStays(known, known', now, floor, hi, word, src, from);
      }
    }
  }

  // The wires of a cycle, in the terms of one entry.
  lemma SourceWires(s: State, inp: Input, oldestFirst: bool, t: Track, o: Origin, i: nat)
    requires SourceInv(s, t, o) && EnvOk(s, inp) && !inp.flush && i < |s.ldq|
    ensures var w, l := WireOf(s, inp, oldestFirst, i), s.ldq[i];
      && (l.valid ==> t.lo[i] <= Floor(s, inp, t))
      && (w.fwdData ==> t.now > 0 && t.lo[i] <= o.fwdFloor && SourceOk(t.known, o.fwdFloor, t.hi[i], Word(l.addr), t.now - 1, o.fwdFrom))
      && (Awaits(s.fwd, i) ==> w.kill && (w.fwdData || w.sleep || l.orderFail))
  {
    assert LoadFresh(s.ldq[i], t.lo[i], t.hi[i], t.src[i], t.missed[i], t.known, t.base);
  }

  lemma AcceptWires(s: State, inp: Input, oldestFirst: bool, t: Track, i: nat)
    requires Inv(s, t) && DataWithAddress(s) && EnvOk(s, inp) && !inp.flush && i < |s.ldq|
    ensures WireOf(s, inp, oldestFirst, i).accept && !Awaits(NextFwd(s, inp), i) ==>
      SourceOk(t.known, Floor(s, inp, t), t.hi[i], Word(s.ldq[i].addr), t.now, FromCache)
  {
    if Accept(s, inp) && i == s.fireLd.tag && !NextFwd(s, inp).valid && !NextFwd(s, inp).sleep {
      NoAnswerSource(s, inp, t);
    }
  }

  lemma RecordedOrigin(s: State, inp: Input, oldestFirst: bool, t: Track, o: Origin, i: nat)
    requires StqInv(s) && WfInput(inp) && WfTrack(t, |s.ldq|) && WfOrigin(o, |s.ldq|) && i < |s.ldq|
    ensures var w, o' := WireOf(s, inp, oldestFirst, i), NextOrigin(s, inp, t, o);
      && o'.from[i] == (if w.fwdData then o.fwdFrom else if w.accept then FromCache else o.from[i])
      && o'.floor[i] == (if w.fwdData then o.fwdFloor else if w.accept then Floor(s, inp, t) else o.floor[i])
  {
  }

  lemma LoadSourceStep(s: State, inp: Input, oldestFirst: bool, t: Track, o: Origin, i: nat, w: Wire, l: Ld)
    requires SourceInv(s, t, o) && EnvOk(s, inp) && !inp.flush && i < |s.ldq|
    requires w == WireOf(s, inp, oldestFirst, i) && l == s.ldq[i]
    ensures LoadSourced(NextLd(l, w), Awaits(NextFwd(s, inp), i), NextKnown(s, inp, t), if w.alloc then t.base else t.lo[i],
              if w.fwdData then o.fwdFloor else if w.accept then Floor(s, inp, t) else o.floor[i],
              NextHi(s, inp, t.base, t.hi)[i],
              if w.fwdData && t.now > 0 then t.now - 1 else if w.accept then t.now else t.src[i],
              if w.fwdData then o.fwdFrom else if w.accept then FromCache else o.from[i], t.now + 1)
  {
    hide NextFwd;
    WiresOk(s, inp, oldestFirst, i);
    SourceWires(s, inp, oldestFirst, t, o, i);
    AcceptWires(s, inp, oldestFirst, t, i);
    KnownGrows(s, inp, t);
    FreshWires(s, inp, oldestFirst, t, i);
    RecordWires(s, inp, oldestFirst, t, i);
    LoadParts(s, t, o, i);
    EntrySourceStep(l, w, Resolved(s, i), Awaits(s.fwd, i), Awaits(NextFwd(s, inp), i), t.known, NextKnown(s, inp, t), t.now,
                    t.lo[i], if w.alloc then t.base else t.lo[i], o.floor[i], Floor(s, inp, t), o.fwdFloor,
                    t.hi[i], NextHi(s, inp, t.base, t.hi)[i], t.src[i], o.from[i], o.fwdFrom);
  }

  lemma LoadParts(s: State, t: Track, o: Origin, i: nat)
    requires SourceInv(s, t, o) && i < |s.ldq|
    ensures LoadSafe(s.ldq[i], Resolved(s, i))
    ensures LoadSourced(s.ldq[i], Awaits(s.fwd, i), t.known, t.lo[i], o.floor[i], t.hi[i], t.src[i], o.from[i], t.now)
    ensures LoadHeld(s.ldq[i], o.open[i], o.held[i], o.from[i])
  {
  }

  lemma LoadsSourceStep(s: State, inp: Input, oldestFirst: bool, t: Track, o: Origin, i: nat)
    requires SourceInv(s, t, o) && EnvOk(s, inp) && i < |s.ldq|
    ensures var o' := NextOrigin(s, inp, t, o);
      LoadSourced(NextLdq(s, inp, oldestFirst)[i], Awaits(NextFwd(s, inp), i), NextKnown(s, inp, t), NextLo(s, inp, t)[i],
                  o'.floor[i], NextHi(s, inp, t.base, t.hi)[i], NextSrc(s, inp, t)[i], o'.from[i], t.now + 1)
  {
    if !inp.flush {
      FreshWires(s, inp, oldestFirst, t, i);
      RecordWires(s, inp, oldestFirst, t, i);
      RecordedOrigin(s, inp, oldestFirst, t, o, i);
      LoadSourceStep(s, inp, oldestFirst, t, o, i, WireOf(s, inp, oldestFirst, i), s.ldq[i]);
    }
  }

  lemma FwdSourceStep(s: State, inp: Input, oldestFirst: bool, t: Track, t': Track, o: Origin)
    requires SourceInv(s, t, o) && EnvOk(s, inp) && TrackStep(s, inp, t, t')
    ensures FwdSourced(Next(s, inp, oldestFirst), t', NextOrigin(s, inp, t, o))
  {
    if NextFwd(s, inp).valid {
      var i := s.fireLd.tag;
      AnswerSource(s, t);
      RequestKeepsWord(s, inp, oldestFirst, t);
      KnownGrows(s, inp, t);
      SourceStays(t.known, t'.known, t.now, t.base, t.hi[i], Word(s.ldq[i].addr), t.now,
                  FromStore(Number(s, t.base, FwdIdx(s))));
    }
  }

  lemma EntriesStep(s: State, inp: Input, oldestFirst: bool, t: Track, o: Origin)
    requires SourceInv(s, t, o) && EnvOk(s, inp)
    ensures var o' := NextOrigin(s, inp, t, o);
      EntriesSourced(NextLdq(s, inp, oldestFirst), NextFwd(s, inp), NextKnown(s, inp, t), NextLo(s, inp, t),
                     o'.floor, NextHi(s, inp, t.base, t.hi), NextSrc(s, inp, t), o'.from, t.now + 1)
  {
    forall i | 0 <= i < |s.ldq|
      ensures var o' := NextOrigin(s, inp, t, o);
        LoadSourced(NextLdq(s, inp, oldestFirst)[i], Awaits(NextFwd(s, inp), i), NextKnown(s, inp, t), NextLo(s, inp, t)[i],
                    o'.floor[i], NextHi(s, inp, t.base, t.hi)[i], NextSrc(s, inp, t)[i], o'.from[i], t.now + 1)
    {
      LoadsSourceStep(s, inp, oldestFirst, t, o, i);
    }
  }

  lemma EntryHeldStep(l: Ld, w: Wire, resolved: bool, open: bool, answered: bool, held: Source, from: Source, fwdFrom: Source)
    requires LoadSafe(l, resolved) && WireOk(l, w, resolved) && LoadHeld(l, open, held, from)
    requires w.dcData <==> answered && !w.kill
    requires answered && !w.kill ==> open
    requires w.fwdData || w.sleep || (w.viol && !l.dataValid) ==> w.kill
    ensures LoadHeld(NextLd(l, w),
              if w.kill then false else if w.accept then true else open && !answered,
              if w.fwdData then fwdFrom else if w.dcData then FromCache else held,
              if w.fwdData then fwdFrom else if w.accept then FromCache else from)
  {
  }

  lemma HeldWires(s: State, inp: Input, oldestFirst: bool, t: Track, o: Origin, i: nat)
    requires Inv(s, t) && WfOrigin(o, |s.ldq|) && EnvOk(s, inp) && Answers(s, inp, o) && !inp.flush && i < |s.ldq|
    ensures var w, o', answered := WireOf(s, inp, oldestFirst, i), NextOrigin(s, inp, t, o), inp.dcValid && inp.dcTag == i;
      && (w.dcData <==> answered && !w.kill)
      && (answered && !w.kill ==> o.open[i])
      && (w.fwdData || w.sleep || (w.viol && !s.ldq[i].dataValid) ==> w.kill)
      && o'.open[i] == (if w.kill then false else if w.accept then true else o.open[i] && !answered)
      && o'.held[i] == (if w.fwdData then o.fwdFrom else if w.dcData then FromCache else o.held[i])
  {
  }

  lemma HeldStep(s: State, inp: Input, oldestFirst: bool, t: Track, o: Origin)
    requires SourceInv(s, t, o) && EnvOk(s, inp) && Answers(s, inp, o)
    ensures EntriesHeld(NextLdq(s, inp, oldestFirst), NextOrigin(s, inp, t, o))
  {
    var o' := NextOrigin(s, inp, t, o);
    forall i | 0 <= i < |s.ldq|
      ensures LoadHeld(NextLdq(s, inp, oldestFirst)[i], o'.open[i], o'.held[i], o'.from[i])
    {
      if !inp.flush {
        OneHeldStep(s, inp, oldestFirst, t, o, i);
      }
    }
  }

  lemma OneHeldStep(s: State, inp: Input, oldestFirst: bool, t: Track, o: Origin, i: nat)
    requires SourceInv(s, t, o) && EnvOk(s, inp) && Answers(s, inp, o) && !inp.flush && i < |s.ldq|
    ensures var o' := NextOrigin(s, inp, t, o);
      LoadHeld(NextLd(s.ldq[i], WireOf(s, inp, oldestFirst, i)), o'.open[i], o'.held[i], o'.from[i])
  {
    WiresOk(s, inp, oldestFirst, i);
    HeldWires(s, inp, oldestFirst, t, o, i);
    RecordedOrigin(s, inp, oldestFirst, t, o, i);
    LoadParts(s, t, o, i);
    EntryHeldStep(s.ldq[i], WireOf(s, inp, oldestFirst, i), Resolved(s, i), o.open[i], inp.dcValid && inp.dcTag == i,
                  o.held[i], o.from[i], o.fwdFrom);
  }

  lemma DataStep(s: State, inp: Input, oldestFirst: bool)
    requires Wf(s) && WfInput(inp) && DataWithAddress(s)
    ensures DataWithAddress(Next(s, inp, oldestFirst))
  {
  }

  lemma SourceStep(s: State, inp: Input, oldestFirst: bool, t: Track, t': Track, o: Origin)
    requires SourceInv(s, t, o) && EnvOk(s, inp) && Answers(s, inp, o) && TrackStep(s, inp, t, t')
    ensures SourceInv(Next(s, inp, oldestFirst), t', NextOrigin(s, inp, t, o))
  {
    InvStep(s, inp, oldestFirst, t, t');
    EntriesStep(s, inp, oldestFirst, t, o);
    FwdSourceStep(s, inp, oldestFirst, t, t', o);
    DataStep(s, inp, oldestFirst);
    HeldStep(s, inp, oldestFirst, t, o);
  }

  // ----------------------------------------------------------------- results

  // What writeback_data selects for load i now, and what had fired.
  function SourceOf(s: State, inp: Input, o: Origin, i: nat): Source
    requires i < |s.ldq| && WfOrigin(o, |s.ldq|)
  {
    if FwdAccept(s, i) then o.fwdFrom else if DcAccept(s, inp, i) then FromCache else o.held[i]
  }

  function FloorOf(s: State, o: Origin, i: nat): nat
    requires i < |s.ldq| && WfOrigin(o, |s.ldq|)
  {
    if FwdAccept(s, i) then o.fwdFloor else o.floor[i]
  }

  // Written-back data comes from the youngest of the older stores to the word
  // that the comparison saw, or from the cache if it saw none.
  lemma WritebackSource(s: State, inp: Input, oldestFirst: bool, t: Track, o: Origin, i: nat)
    requires SourceInv(s, t, o) && EnvOk(s, inp) && Answers(s, inp, o) && i < |s.ldq| && WritesBack(s, inp, oldestFirst, i)
    ensures t.lo[i] <= FloorOf(s, o, i)
    ensures SourceOk(t.known, FloorOf(s, o, i), t.hi[i], Word(s.ldq[i].addr), Chosen(s, t, i), SourceOf(s, inp, o, i))
  {
    NamedLoadsAreLive(s, inp, oldestFirst, i);
    LoadParts(s, t, o, i);
  }

  // The youngest store numbered in [floor, hi) to the word, if there is one.
  ghost predicate YoungestStore(known: map<nat, Known>, floor: nat, hi: int, word: nat, from: Source)
    requires forall n: nat | floor <= n < hi :: n in known
  {
    match from
    case FromCache => forall n: nat | floor <= n < hi :: known[n].word != word
    case FromStore(m) =>
      && floor <= m < hi && known[m].word == word
      && (forall n: nat | m < n < hi :: known[n].word != word)
  }

  lemma FreshSource(known: map<nat, Known>, floor: nat, hi: int, word: nat, chosen: int, from: Source)
    requires SourceOk(known, floor, hi, word, chosen, from)
    requires forall n: nat | floor <= n < hi :: n in known && (known[n].word == word ==> known[n].time < chosen)
    ensures YoungestStore(known, floor, hi, word, from)
  {
    assert forall n: nat | floor <= n < hi && known[n].word == word :: Seen(known, floor, hi, word, chosen, n);
  }

  function StartOrigin(d: nat): Origin {
    Origin(seq(d, i => FromCache), seq(d, i => 0), FromCache, 0, seq(d, i => false), seq(d, i => FromCache))
  }

  // Every state of a run, with the record of sources beside it, under a cache
  // that answers what it owes.
  ghost predicate SourceRun(tr: seq<State>, ts: seq<Track>, os: seq<Origin>, ins: seq<Input>, oldestFirst: bool, d: nat) {
    && Run(tr, ts, ins, oldestFirst, d) && |os| == |tr|
    && os[0] == StartOrigin(d)
    && (forall t | 0 <= t < |ins| :: OriginAt(tr, ts, os, ins, t))
  }

  ghost predicate OriginAt(tr: seq<State>, ts: seq<Track>, os: seq<Origin>, ins: seq<Input>, t: nat)
    requires t < |ins| && |tr| == |ts| == |os| == |ins| + 1
  {
    Wf(tr[t]) && WfOrigin(os[t], |tr[t].ldq|) && Answers(tr[t], ins[t], os[t]) && os[t + 1] == NextOrigin(tr[t], ins[t], ts[t], os[t])
  }

  lemma SourcesAtReset(d: nat, s: State, t: Track, o: Origin)
    requires d >= 8 && d % 2 == 0 && s == Reset(d) && t == StartTrack(d)
    requires o == StartOrigin(d)
    ensures SourceInv(s, t, o)
  {
    ResetInv(d);
  }

  lemma SourcesInStep(tr: seq<State>, ts: seq<Track>, os: seq<Origin>, ins: seq<Input>, oldestFirst: bool, d: nat, t: nat,
                      s: State, k: Track, o: Origin, inp: Input)
    requires SourceRun(tr, ts, os, ins, oldestFirst, d) && t < |ins|
    requires s == tr[t] && k == ts[t] && o == os[t] && inp == ins[t]
    requires SourceInv(s, k, o) && EnvOk(s, inp)
    ensures Answers(s, inp, o) && SourceInv(tr[t + 1], ts[t + 1], os[t + 1])
  {
    assert StepAt(tr, ts, ins, oldestFirst, t);
    assert OriginAt(tr, ts, os, ins, t);
    SourceStep(s, inp, oldestFirst, k, ts[t + 1], o);
  }

  lemma SourcesAtStart(tr: seq<State>, ts: seq<Track>, os: seq<Origin>, ins: seq<Input>, oldestFirst: bool, d: nat)
    requires SourceRun(tr, ts, os, ins, oldestFirst, d)
    ensures SourceInv(tr[0], ts[0], os[0])
  {
    SourcesAtReset(d, tr[0], ts[0], os[0]);
  }

  lemma {:induction false} RunKeepsSources(tr: seq<State>, ts: seq<Track>, os: seq<Origin>, ins: seq<Input>,
                                           oldestFirst: bool, d: nat, t: nat)
    requires SourceRun(tr, ts, os, ins, oldestFirst, d) && t <= |ins|
    ensures SourceInv(tr[t], ts[t], os[t])
  {
    hide SourceInv, Inv, StepAt;
    if t == 0 {
      SourcesAtStart(tr, ts, os, ins, oldestFirst, d);
    } else {
      RunKeepsSources(tr, ts, os, ins, oldestFirst, d, t - 1);
      RunKeepsInv(tr, ts, ins, oldestFirst, d, t - 1);
      SourcesInStep(tr, ts, os, ins, oldestFirst, d, t - 1, tr[t - 1], ts[t - 1], os[t - 1], ins[t - 1]);
    }
  }

  lemma AnswersInRuns(tr: seq<State>, ts: seq<Track>, os: seq<Origin>, ins: seq<Input>, oldestFirst: bool, d: nat, t: nat)
    requires SourceRun(tr, ts, os, ins, oldestFirst, d) && t < |ins|
    ensures Answers(tr[t], ins[t], os[t])
  {
    assert OriginAt(tr, ts, os, ins, t);
  }

  // The cache never overwrites data a load already holds.
  lemma AnswersFindNoData(tr: seq<State>, ts: seq<Track>, os: seq<Origin>, ins: seq<Input>,
                          oldestFirst: bool, d: nat, t: nat, i: nat)
    requires SourceRun(tr, ts, os, ins, oldestFirst, d) && t < |ins| && i < d
    ensures |tr[t].ldq| == d
    ensures DcAccept(tr[t], ins[t], i) ==> tr[t].ldq[i].valid && tr[t].ldq[i].fired && !tr[t].ldq[i].dataValid
  {
    RunKeepsSources(tr, ts, os, ins, oldestFirst, d, t);
    RunKeepsInv(tr, ts, ins, oldestFirst, d, t);
    AnswersInRuns(tr, ts, os, ins, oldestFirst, d, t);
    LoadParts(tr[t], ts[t], os[t], i);
  }

  // In every run, fresh data that a load writes back was forwarded from the
  // youngest older store to its word that had not fired at the comparison, or
  // comes from the cache if every older store to the word had fired.
  lemma SourcesInRuns(tr: seq<State>, ts: seq<Track>, os: seq<Origin>, ins: seq<Input>,
                      oldestFirst: bool, d: nat, t: nat, i: nat)
    requires SourceRun(tr, ts, os, ins, oldestFirst, d) && t < |ins| && i < d
    requires Wf(tr[t]) && |tr[t].ldq| == d && WritesBack(tr[t], ins[t], oldestFirst, i)
    ensures WfTrack(ts[t], d) && WfOrigin(os[t], d)
    ensures forall n: nat | n < ts[t].hi[i] :: n in ts[t].known
    ensures !Stale(tr[t], ts[t], i) ==>
      YoungestStore(ts[t].known, FloorOf(tr[t], os[t], i), ts[t].hi[i], Word(tr[t].ldq[i].addr), SourceOf(tr[t], ins[t], os[t], i))
  {
    RunKeepsSources(tr, ts, os, ins, oldestFirst, d, t);
    RunKeepsInv(tr, ts, ins, oldestFirst, d, t);
    AnswersInRuns(tr, ts, os, ins, oldestFirst, d, t);
    var s, k, o := tr[t], ts[t], os[t];
    NamedLoadsAreLive(s, ins[t], oldestFirst, i);
    OlderAllKnown(s, k, i);
    WritebackSource(s, ins[t], oldestFirst, k, o, i);
    WritebackFreshIff(s, ins[t], oldestFirst, k, i);
    if !Stale(s, k, i) {
      FreshSource(k.known, FloorOf(s, o, i), k.hi[i], Word(s.ldq[i].addr), Chosen(s, k, i), SourceOf(s, ins[t], o, i));
    }
  }
}
