/**
  The bus memory (testbench/mem.sv, CACHE_MODE branch): n transaction tags, a
  fixed latency of lat cycles, one request and one reply per edge. The falling
  edge runs a loop over the tags with blocking assignments; Scan is that loop.
  Tag i + 1 has index i in every sequence; words are numbers, and a reply bus
  that carries nothing carries tag 0 and data 0.
 */
module Memory {

  datatype Command = BusNone | BusLoad(addr: nat) | BusStore(addr: nat, data: nat)

  datatype Mem = Mem(words: seq<nat>, cycles: seq<nat>, waiting: seq<bool>, loaded: seq<nat>)

  datatype Out = Out(response: nat, tag: nat, data: nat)

  ghost predicate Wf(m: Mem) {
    |m.cycles| == |m.waiting| == |m.loaded|
  }

  predicate ValidAddress(m: Mem, addr: nat) {
    addr % 8 == 0 && addr / 8 < |m.words|
  }

  // acquire_tag at the start of the edge.
  predicate Requests(m: Mem, cmd: Command) {
    !cmd.BusNone? && ValidAddress(m, cmd.addr)
  }

  // ---------------------------------------------------------------- the loop

  datatype Sweep = Sweep(m: Mem, acquire: bool, filled: bool, out: Out)

  // First half of a loop body: count down, or take the tag.
  function Claim(w: Sweep, i: nat, cmd: Command, lat: nat): (w': Sweep)
    requires Wf(w.m) && i < |w.m.cycles| && (w.acquire ==> Requests(w.m, cmd))
    ensures Wf(w'.m) && |w'.m.cycles| == |w.m.cycles| && |w'.m.words| == |w.m.words|
    ensures w'.acquire ==> w.acquire
  {
    if w.m.cycles[i] > 0 then w.(m := w.m.(cycles := w.m.cycles[i := w.m.cycles[i] - 1]))
    else if w.acquire && !w.m.waiting[i] then
      var m := w.m.(cycles := w.m.cycles[i := lat]);
      Sweep(
        if cmd.BusLoad?
        then m.(waiting := m.waiting[i := true], loaded := m.loaded[i := m.words[cmd.addr / 8]])
        else m.(words := m.words[cmd.addr / 8 := cmd.data]),
        false, w.filled, w.out.(response := i + 1))
    else w
  }

  // Second half: put a finished load on the reply bus.
  function Reply(w: Sweep, i: nat): (w': Sweep)
    requires Wf(w.m) && i < |w.m.cycles|
    ensures Wf(w'.m) && |w'.m.cycles| == |w.m.cycles| && w'.acquire == w.acquire && w'.m.words == w.m.words
  {
    if w.m.cycles[i] == 0 && w.m.waiting[i] && !w.filled then
      Sweep(w.m.(waiting := w.m.waiting[i := false]), w.acquire, true, w.out.(tag := i + 1, data := w.m.loaded[i]))
    else w
  }

  // The loop over the first k tags.
  function Scan(m: Mem, cmd: Command, lat: nat, k: nat): (w: Sweep)
    requires Wf(m) && k <= |m.cycles|
    ensures Wf(w.m) && |w.m.cycles| == |m.cycles| && |w.m.words| == |m.words|
    ensures w.acquire ==> Requests(w.m, cmd)
  {
    if k == 0 then Sweep(m, Requests(m, cmd), false, Out(0, 0, 0))
    else Reply(Claim(Scan(m, cmd, lat, k - 1), k - 1, cmd, lat), k - 1)
  }

  function Next(m: Mem, cmd: Command, lat: nat): (m': Mem)
    requires Wf(m)
    ensures Wf(m') && |m'.cycles| == |m.cycles| && |m'.words| == |m.words|
  {
    Scan(m, cmd, lat, |m.cycles|).m
  }

  function Output(m: Mem, cmd: Command, lat: nat): Out
    requires Wf(m)
  {
    Scan(m, cmd, lat, |m.cycles|).out
  }

  function Initial(words: seq<nat>, n: nat): (m: Mem)
    ensures Wf(m)
  {
    Mem(words, seq(n, i => 0), seq(n, i => false), seq(n, i => 0))
  }

  // --------------------------------------------------------------- invariant

  // No two transactions in progress are equally old, so at most one load is
  // due at any edge and none is left waiting for the bus.
  ghost predicate Inv(m: Mem, lat: nat) {
    && Wf(m) && lat >= 1
    && (forall i | 0 <= i < |m.cycles| :: m.cycles[i] <= lat && (m.waiting[i] ==> m.cycles[i] > 0))
    && (forall i, j | 0 <= i < j < |m.cycles| :: m.cycles[i] > 0 ==> m.cycles[i] != m.cycles[j])
  }

  predicate Idle(m: Mem, i: nat)
    requires Wf(m) && i < |m.cycles|
  {
    m.cycles[i] == 0
  }

  predicate NoneIdle(m: Mem, k: nat)
    requires Wf(m) && k <= |m.cycles|
  {
    forall j | 0 <= j < k :: !Idle(m, j)
  }

  // Tag i is the one given to this edge's request.
  predicate Grants(m: Mem, cmd: Command, i: nat)
    requires Wf(m) && i < |m.cycles|
  {
    Requests(m, cmd) && Idle(m, i) && NoneIdle(m, i)
  }

  predicate Due(m: Mem, i: nat)
    requires Wf(m) && i < |m.cycles|
  {
    m.cycles[i] == 1 && m.waiting[i]
  }

  // One tag after the edge.
  ghost predicate TagNext(m: Mem, m': Mem, cmd: Command, lat: nat, i: nat)
    requires Wf(m) && Wf(m') && i < |m.cycles| == |m'.cycles|
  {
    && m'.cycles[i] == (if m.cycles[i] > 0 then m.cycles[i] - 1 else if Grants(m, cmd, i) then lat else 0)
    && (m'.waiting[i] <==> (Grants(m, cmd, i) && cmd.BusLoad?) || (m.waiting[i] && !Due(m, i)))
    && m'.loaded[i] == (if Grants(m, cmd, i) && cmd.BusLoad? then m.words[cmd.addr / 8] else m.loaded[i])
  }

  ghost predicate TagSame(m: Mem, m': Mem, i: nat)
    requires Wf(m) && Wf(m') && i < |m.cycles| == |m'.cycles|
  {
    m'.cycles[i] == m.cycles[i] && m'.waiting[i] == m.waiting[i] && m'.loaded[i] == m.loaded[i]
  }

  ghost predicate DueBelow(m: Mem, k: nat)
    requires Wf(m) && k <= |m.cycles|
  {
    exists i | 0 <= i < k :: Due(m, i)
  }

  ghost predicate TagsSwept(m: Mem, m': Mem, cmd: Command, lat: nat, k: nat)
    requires Wf(m) && Wf(m') && |m'.cycles| == |m.cycles| && k <= |m.cycles|
  {
    && (forall i | 0 <= i < k :: TagNext(m, m', cmd, lat, i))
    && (forall i | k <= i < |m.cycles| :: TagSame(m, m', i))
  }

  ghost predicate OutputSwept(m: Mem, cmd: Command, k: nat, w: Sweep)
    requires Wf(m) && k <= |m.cycles|
  {
    && (w.acquire <==> Requests(m, cmd) && NoneIdle(m, k))
    && (w.filled <==> DueBelow(m, k)) && (w.filled <==> w.out.tag != 0)
    && (w.out.response == 0 <==> !Requests(m, cmd) || NoneIdle(m, k))
    && (w.out.response != 0 ==> w.out.response <= k && Grants(m, cmd, w.out.response - 1))
    && (w.out.tag != 0 ==> w.out.tag <= k && Due(m, w.out.tag - 1) && w.out.data == m.loaded[w.out.tag - 1])
    && w.m.words == (if w.out.response != 0 && cmd.BusStore? && cmd.addr / 8 < |m.words|
                     then m.words[cmd.addr / 8 := cmd.data] else m.words)
  }

  ghost predicate Swept(m: Mem, cmd: Command, lat: nat, k: nat, w: Sweep)
    requires Wf(m) && Wf(w.m) && |w.m.cycles| == |m.cycles| && k <= |m.cycles|
  {
    TagsSwept(m, w.m, cmd, lat, k) && OutputSwept(m, cmd, k, w)
  }

  lemma OneDue(m: Mem, lat: nat, k: nat)
    requires Inv(m, lat) && k < |m.cycles|
    ensures !(Due(m, k) && DueBelow(m, k))
  {
  }

  // The reply branch is taken for exactly the tag that is due.
  lemma ReplyWhenDue(m: Mem, cmd: Command, lat: nat, k: nat, w: Sweep)
    requires Inv(m, lat) && k < |m.cycles| && Wf(w.m) && |w.m.cycles| == |m.cycles| && |w.m.words| == |m.words|
    requires Swept(m, cmd, lat, k, w) && (w.acquire ==> Requests(w.m, cmd))
    ensures var c := Claim(w, k, cmd, lat);
      (c.m.cycles[k] == 0 && c.m.waiting[k] && !c.filled) <==> Due(m, k)
    ensures w.filled ==> !Due(m, k)
  {
    assert TagSame(m, w.m, k);
    OneDue(m, lat, k);
  }

  // A loop body touches its own tag only.
  lemma OthersSame(w: Sweep, i: nat, k: nat, cmd: Command, lat: nat)
    requires Wf(w.m) && i < |w.m.cycles| && k < |w.m.cycles| && i != k && (w.acquire ==> Requests(w.m, cmd))
    ensures TagSame(w.m, Reply(Claim(w, k, cmd, lat), k).m, i)
  {
  }

  lemma OwnTag(m: Mem, cmd: Command, lat: nat, k: nat, w: Sweep)
    requires Inv(m, lat) && k < |m.cycles| && Wf(w.m) && |w.m.cycles| == |m.cycles| && |w.m.words| == |m.words|
    requires Swept(m, cmd, lat, k, w) && (w.acquire ==> Requests(w.m, cmd))
    ensures TagNext(m, Reply(Claim(w, k, cmd, lat), k).m, cmd, lat, k)
  {
    ReplyWhenDue(m, cmd, lat, k, w);
    assert TagSame(m, w.m, k);
  }

  lemma SweepTags(m: Mem, cmd: Command, lat: nat, k: nat, w: Sweep)
    requires Inv(m, lat) && k < |m.cycles| && Wf(w.m) && |w.m.cycles| == |m.cycles| && |w.m.words| == |m.words|
    requires Swept(m, cmd, lat, k, w) && (w.acquire ==> Requests(w.m, cmd))
    ensures TagsSwept(m, Reply(Claim(w, k, cmd, lat), k).m, cmd, lat, k + 1)
  {
    var w' := Reply(Claim(w, k, cmd, lat), k);
    OwnTag(m, cmd, lat, k, w);
    forall i | 0 <= i < |m.cycles| && i != k
      ensures if i < k then TagNext(m, w'.m, cmd, lat, i) else TagSame(m, w'.m, i)
    {
      OthersSame(w, i, k, cmd, lat);
      assert if i < k then TagNext(m, w.m, cmd, lat, i) else TagSame(m, w.m, i);
    }
  }

  lemma BelowNext(m: Mem, k: nat)
    requires Wf(m) && k < |m.cycles|
    ensures DueBelow(m, k + 1) <==> DueBelow(m, k) || Due(m, k)
    ensures NoneIdle(m, k + 1) <==> NoneIdle(m, k) && !Idle(m, k)
  {
    if DueBelow(m, k) {
      var i :| 0 <= i < k && Due(m, i);
      assert DueBelow(m, k + 1);
    }
  }

  lemma SweepOutput(m: Mem, cmd: Command, lat: nat, k: nat, w: Sweep)
    requires Inv(m, lat) && k < |m.cycles| && Wf(w.m) && |w.m.cycles| == |m.cycles| && |w.m.words| == |m.words|
    requires Swept(m, cmd, lat, k, w) && (w.acquire ==> Requests(w.m, cmd))
    ensures OutputSwept(m, cmd, k + 1, Reply(Claim(w, k, cmd, lat), k))
  {
    ReplyWhenDue(m, cmd, lat, k, w);
    assert TagSame(m, w.m, k);
    BelowNext(m, k);
  }

  lemma SweepOn(m: Mem, cmd: Command, lat: nat, k: nat, w: Sweep, w': Sweep)
    requires Inv(m, lat) && k < |m.cycles| && Wf(w.m) && |w.m.cycles| == |m.cycles| && |w.m.words| == |m.words|
    requires Swept(m, cmd, lat, k, w) && (w.acquire ==> Requests(w.m, cmd))
    requires w' == Reply(Claim(w, k, cmd, lat), k)
    ensures Swept(m, cmd, lat, k + 1, w')
  {
    SweepTags(m, cmd, lat, k, w);
    SweepOutput(m, cmd, lat, k, w);
  }

  lemma {:induction false} ScanIs(m: Mem, cmd: Command, lat: nat, k: nat)
    requires Inv(m, lat) && k <= |m.cycles|
    ensures Swept(m, cmd, lat, k, Scan(m, cmd, lat, k))
  {
    hide Reply;
    if k > 0 {
      ScanIs(m, cmd, lat, k - 1);
      SweepOn(m, cmd, lat, k - 1, Scan(m, cmd, lat, k - 1), Scan(m, cmd, lat, k));
    }
  }

  // --------------------------------------------------------- one whole edge

  lemma StepKeepsInv(m: Mem, cmd: Command, lat: nat)
    requires Inv(m, lat)
    ensures Inv(Next(m, cmd, lat), lat)
  {
    var m' := Next(m, cmd, lat);
    ScanIs(m, cmd, lat, |m.cycles|);
    forall i | 0 <= i < |m.cycles|
      ensures m'.cycles[i] <= lat && (m'.waiting[i] ==> m'.cycles[i] > 0)
    {
      assert TagNext(m, m', cmd, lat, i);
    }
    forall i, j | 0 <= i < j < |m.cycles| && m'.cycles[i] > 0
      ensures m'.cycles[i] != m'.cycles[j]
    {
      assert TagNext(m, m', cmd, lat, i) && TagNext(m, m', cmd, lat, j);
    }
  }

  // Distinct numbers from 1 to top fill at most top places.
  lemma {:induction false} Pigeonhole(s: seq<nat>, top: nat)
    requires forall i | 0 <= i < |s| :: 1 <= s[i] <= top
    requires forall i, j | 0 <= i < j < |s| :: s[i] != s[j]
    ensures |s| <= top
  {
    if exists k :: 0 <= k < |s| && s[k] == top {
      var k :| 0 <= k < |s| && s[k] == top;
      var r := s[..k] + s[k + 1..];
      forall i | 0 <= i < |r|
        ensures 1 <= r[i] <= top - 1
      {
        assert r[i] == s[if i < k then i else i + 1];
      }
      Pigeonhole(r, top - 1);
    } else if |s| > 0 {
      assert s[0] <= top;
      Pigeonhole(s, top - 1);
    }
  }

  // With fewer cycles of latency than tags no valid request is turned away.
  lemma NeverRejects(m: Mem, cmd: Command, lat: nat)
    requires Inv(m, lat) && lat < |m.cycles| && Requests(m, cmd)
    ensures 1 <= Output(m, cmd, lat).response <= |m.cycles|
  {
    ScanIs(m, cmd, lat, |m.cycles|);
    if NoneIdle(m, |m.cycles|) {
      forall i | 0 <= i < |m.cycles|
        ensures 1 <= m.cycles[i] <= lat
      {
        assert !Idle(m, i);
      }
      Pigeonhole(m.cycles, lat);
    }
  }

  // A tag is never given to a second transaction before the first has ended.
  lemma TagsNotShared(m: Mem, cmd: Command, lat: nat)
    requires Inv(m, lat) && Output(m, cmd, lat).response != 0
    ensures var i := Output(m, cmd, lat).response - 1;
      i < |m.cycles| && m.cycles[i] == 0 && !m.waiting[i] && Output(m, cmd, lat).tag != i + 1
  {
    ScanIs(m, cmd, lat, |m.cycles|);
  }
}
