/**
  Whole runs of the bus memory: every accepted load is answered exactly once,
  exactly lat edges later and so in order of acceptance, with the word as of its
  acceptance; and requests are turned away in some run if and only if the
  latency is not below the number of tags.
 */
module MemoryRuns {
  import opened Memory

  ghost predicate Run(ms: seq<Mem>, cmds: seq<Command>, words: seq<nat>, n: nat, lat: nat) {
    && lat >= 1
    && |ms| == |cmds| + 1
    && ms[0] == Initial(words, n)
    && (forall t | 0 <= t < |cmds| :: StepAt(ms, cmds, lat, t))
  }

  ghost predicate StepAt(ms: seq<Mem>, cmds: seq<Command>, lat: nat, t: nat)
    requires t < |cmds| && |ms| == |cmds| + 1
  {
    Wf(ms[t]) && ms[t + 1] == Next(ms[t], cmds[t], lat)
  }

  lemma {:induction false} RunKeepsInv(ms: seq<Mem>, cmds: seq<Command>, words: seq<nat>, n: nat, lat: nat, t: nat)
    requires Run(ms, cmds, words, n, lat) && t <= |cmds|
    ensures Inv(ms[t], lat) && |ms[t].cycles| == n && |ms[t].words| == |words|
  {
    if t > 0 {
      RunKeepsInv(ms, cmds, words, n, lat, t - 1);
      assert StepAt(ms, cmds, lat, t - 1);
      StepKeepsInv(ms[t - 1], cmds[t - 1], lat);
    }
  }

  // --------------------------------------------------------- one edge's wires

  lemma GrantUnique(m: Mem, cmd: Command, i: nat, j: nat)
    requires Wf(m) && i < |m.cycles| && j < |m.cycles|
    ensures Grants(m, cmd, i) && Grants(m, cmd, j) ==> i == j
  {
  }

  lemma GrantIsResponse(m: Mem, cmd: Command, lat: nat, i: nat)
    requires Inv(m, lat) && i < |m.cycles|
    ensures Grants(m, cmd, i) <==> Output(m, cmd, lat).response == i + 1
  {
    ScanIs(m, cmd, lat, |m.cycles|);
    var r := Output(m, cmd, lat).response;
    if r > 0 {
      GrantUnique(m, cmd, i, r - 1);
    }
    assert Grants(m, cmd, i) ==> !NoneIdle(m, |m.cycles|);
  }

  lemma DueIsReply(m: Mem, cmd: Command, lat: nat, i: nat)
    requires Inv(m, lat) && i < |m.cycles|
    ensures Due(m, i) <==> Output(m, cmd, lat).tag == i + 1
    ensures Due(m, i) ==> Output(m, cmd, lat).data == m.loaded[i]
  {
    ScanIs(m, cmd, lat, |m.cycles|);
    assert Due(m, i) ==> DueBelow(m, |m.cycles|);
  }

  lemma ResponseInRange(m: Mem, cmd: Command, lat: nat)
    requires Inv(m, lat)
    ensures Output(m, cmd, lat).response <= |m.cycles| && Output(m, cmd, lat).tag <= |m.cycles|
    ensures Output(m, cmd, lat).response != 0 ==> Requests(m, cmd)
  {
    ScanIs(m, cmd, lat, |m.cycles|);
  }

  // ----------------------------------------------------------------- history

  // The request of edge a was accepted under tag i + 1.
  predicate Accepted(ms: seq<Mem>, cmds: seq<Command>, lat: nat, a: nat, i: nat)
    requires a < |cmds| && |ms| == |cmds| + 1 && Wf(ms[a])
  {
    Output(ms[a], cmds[a], lat).response == i + 1
  }

  // A running tag tells which request it serves, and every recent request runs.
  ghost predicate TagHistory(ms: seq<Mem>, cmds: seq<Command>, lat: nat, t: nat, i: nat)
    requires |ms| == |cmds| + 1 && t <= |cmds|
    requires forall u | 0 <= u <= t :: Wf(ms[u])
    requires Wf(ms[t]) && i < |ms[t].cycles|
  {
    && (ms[t].cycles[i] > 0 ==>
          var a := t - 1 - lat + ms[t].cycles[i];
          && 0 <= a < t && Accepted(ms, cmds, lat, a, i)
          && (ms[t].waiting[i] <==> cmds[a].BusLoad?)
          && (cmds[a].BusLoad? ==> cmds[a].addr / 8 < |ms[a].words| && ms[t].loaded[i] == ms[a].words[cmds[a].addr / 8]))
    && (forall a | 0 <= a < t && t - lat <= a && Accepted(ms, cmds, lat, a, i) :: ms[t].cycles[i] == lat - (t - 1 - a))
  }

  lemma AllWf(ms: seq<Mem>, cmds: seq<Command>, words: seq<nat>, n: nat, lat: nat)
    requires Run(ms, cmds, words, n, lat)
    ensures forall u | 0 <= u < |ms| :: Wf(ms[u]) && |ms[u].cycles| == n && |ms[u].words| == |words|
  {
    forall u | 0 <= u < |ms|
      ensures Wf(ms[u]) && |ms[u].cycles| == n && |ms[u].words| == |words|
    {
      RunKeepsInv(ms, cmds, words, n, lat, u);
    }
  }

  lemma {:induction false} HistoryHolds(ms: seq<Mem>, cmds: seq<Command>, words: seq<nat>, n: nat, lat: nat, t: nat, i: nat)
    requires Run(ms, cmds, words, n, lat) && t <= |cmds| && i < n
    ensures forall u | 0 <= u < |ms| :: Wf(ms[u]) && |ms[u].cycles| == n
    ensures TagHistory(ms, cmds, lat, t, i)
  {
    AllWf(ms, cmds, words, n, lat);
    if t > 0 {
      HistoryHolds(ms, cmds, words, n, lat, t - 1, i);
      HistoryStep(ms, cmds, words, n, lat, t - 1, i);
    }
  }

  lemma HistoryStep(ms: seq<Mem>, cmds: seq<Command>, words: seq<nat>, n: nat, lat: nat, t: nat, i: nat)
    requires Run(ms, cmds, words, n, lat) && t < |cmds| && i < n
    requires forall u | 0 <= u < |ms| :: Wf(ms[u]) && |ms[u].cycles| == n
    requires TagHistory(ms, cmds, lat, t, i)
    ensures TagHistory(ms, cmds, lat, t + 1, i)
  {
    var m, m' := ms[t], ms[t + 1];
    RunKeepsInv(ms, cmds, words, n, lat, t);
    assert StepAt(ms, cmds, lat, t);
    ScanIs(m, cmds[t], lat, n);
    assert TagNext(m, m', cmds[t], lat, i);
    GrantIsResponse(m, cmds[t], lat, i);
    forall a | 0 <= a < t + 1 && t + 1 - lat <= a && Accepted(ms, cmds, lat, a, i)
      ensures m'.cycles[i] == lat - (t - a)
    {
      if a < t {
        assert m.cycles[i] == lat - (t - 1 - a);
      }
    }
  }

  // ----------------------------------------------------------------- results

  // A reply with tag k at edge t answers exactly the load accepted under k at
  // edge t - lat, and carries the word as of that edge.
  lemma ReplyIffAccepted(ms: seq<Mem>, cmds: seq<Command>, words: seq<nat>, n: nat, lat: nat, t: nat, k: nat)
    requires Run(ms, cmds, words, n, lat) && t < |cmds| && k >= 1
    ensures forall u | 0 <= u < |ms| :: Wf(ms[u]) && |ms[u].words| == |words|
    ensures Output(ms[t], cmds[t], lat).tag == k <==>
      t >= lat && cmds[t - lat].BusLoad? && Output(ms[t - lat], cmds[t - lat], lat).response == k
    ensures Output(ms[t], cmds[t], lat).tag == k ==>
      var a := cmds[t - lat].addr / 8;
      a < |words| && Output(ms[t], cmds[t], lat).data == ms[t - lat].words[a]
  {
    AllWf(ms, cmds, words, n, lat);
    RunKeepsInv(ms, cmds, words, n, lat, t);
    ResponseInRange(ms[t], cmds[t], lat);
    if t >= lat {
      RunKeepsInv(ms, cmds, words, n, lat, t - lat);
      ResponseInRange(ms[t - lat], cmds[t - lat], lat);
    }
    if k <= n {
      HistoryHolds(ms, cmds, words, n, lat, t, k - 1);
      DueIsReply(ms[t], cmds[t], lat, k - 1);
      assert t >= lat && Accepted(ms, cmds, lat, t - lat, k - 1) ==> ms[t].cycles[k - 1] == 1;
    }
  }

  // No valid request is turned away while the latency is below the tag count:
  // a load or store of an aligned address inside the memory is accepted, and
  // nothing else.
  lemma FastMemoryAccepts(ms: seq<Mem>, cmds: seq<Command>, words: seq<nat>, n: nat, lat: nat, t: nat)
    requires Run(ms, cmds, words, n, lat) && t < |cmds| && lat < n
    ensures Wf(ms[t]) && (Output(ms[t], cmds[t], lat).response != 0 <==> Requests(ms[t], cmds[t]))
    ensures Requests(ms[t], cmds[t]) <==> !cmds[t].BusNone? && cmds[t].addr % 8 == 0 && cmds[t].addr / 8 < |words|
  {
    RunKeepsInv(ms, cmds, words, n, lat, t);
    ResponseInRange(ms[t], cmds[t], lat);
    if Requests(ms[t], cmds[t]) {
      NeverRejects(ms[t], cmds[t], lat);
    }
  }

  // Then memory holds, word by word, what was stored last.
  lemma WordsAre(ms: seq<Mem>, cmds: seq<Command>, words: seq<nat>, n: nat, lat: nat, t: nat, x: nat)
    requires Run(ms, cmds, words, n, lat) && t < |cmds| && lat < n && x < |words|
    ensures |ms[t].words| == |ms[t + 1].words| == |words|
    ensures ms[t + 1].words[x] ==
      if cmds[t].BusStore? && cmds[t].addr == 8 * x then cmds[t].data else ms[t].words[x]
  {
    RunKeepsInv(ms, cmds, words, n, lat, t);
    FastMemoryAccepts(ms, cmds, words, n, lat, t);
    ScanIs(ms[t], cmds[t], lat, n);
    assert StepAt(ms, cmds, lat, t);
    Aligned(if cmds[t].BusNone? then 0 else cmds[t].addr, x);
  }

  lemma Aligned(addr: nat, x: nat)
    ensures addr == 8 * x <==> addr % 8 == 0 && addr / 8 == x
  {
  }

  // ------------------------------------------------------- the bound is tight

  // After t loads in a row the first t tags run, the latest longest.
  ghost predicate Filled(m: Mem, lat: nat, t: nat) {
    Wf(m) && forall i | 0 <= i < |m.cycles| :: m.cycles[i] == if i < t then lat - (t - 1 - i) else 0
  }

  lemma FillStep(m: Mem, lat: nat, t: nat)
    requires Inv(m, lat) && t < |m.cycles| <= lat && |m.words| > 0 && Filled(m, lat, t)
    ensures Filled(Next(m, BusLoad(0), lat), lat, t + 1)
  {
    var m', cmd := Next(m, BusLoad(0), lat), BusLoad(0);
    ScanIs(m, cmd, lat, |m.cycles|);
    assert forall j | 0 <= j < t :: !Idle(m, j);
    assert Idle(m, t) && Grants(m, cmd, t);
    forall i | 0 <= i < |m.cycles|
      ensures m'.cycles[i] == if i < t + 1 then lat - (t - i) else 0
    {
      assert TagNext(m, m', cmd, lat, i);
      assert i > t ==> !NoneIdle(m, i) by {
        if i > t {
          assert Idle(m, t);
        }
      }
    }
  }

  lemma {:induction false} FillRun(words: seq<nat>, n: nat, lat: nat, t: nat) returns (ms: seq<Mem>, cmds: seq<Command>)
    requires 1 <= n <= lat && |words| > 0 && t <= n
    ensures |cmds| == t && Run(ms, cmds, words, n, lat) && Filled(ms[t], lat, t)
  {
    if t == 0 {
      ms, cmds := [Initial(words, n)], [];
    } else {
      var r, c := FillRun(words, n, lat, t - 1);
      RunKeepsInv(r, c, words, n, lat, t - 1);
      FillStep(r[t - 1], lat, t - 1);
      ms, cmds := r + [Next(r[t - 1], BusLoad(0), lat)], c + [BusLoad(0)];
      forall u | 0 <= u < t
        ensures StepAt(ms, cmds, lat, u)
      {
        if u < t - 1 {
          assert StepAt(r, c, lat, u);
        }
      }
    }
  }

  // With the latency at or above the tag count some valid request is turned away.
  lemma SlowMemoryRejects(words: seq<nat>, n: nat, lat: nat) returns (ms: seq<Mem>, cmds: seq<Command>)
    requires 1 <= n <= lat && |words| > 0
    ensures |cmds| == n + 1 && Run(ms, cmds, words, n, lat)
    ensures Wf(ms[n]) && Requests(ms[n], cmds[n]) && Output(ms[n], cmds[n], lat).response == 0
  {
    var r, c := FillRun(words, n, lat, n);
    RunKeepsInv(r, c, words, n, lat, n);
    ms, cmds := r + [Next(r[n], BusLoad(0), lat)], c + [BusLoad(0)];
    forall u | 0 <= u < n + 1
      ensures StepAt(ms, cmds, lat, u)
    {
      if u < n {
        assert StepAt(r, c, lat, u);
      }
    }
    ScanIs(ms[n], cmds[n], lat, n);
    assert forall j | 0 <= j < n :: !Idle(ms[n], j);
  }
}
