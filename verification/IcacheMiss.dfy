/**
  How long a miss takes: a held address below 64 KB that misses after an address
  change hits lat + 1 cycles after the bus is first granted, and not before. The
  one address line for which a held address never hits after reset is the line
  the last-address registers are reset to.
 */
module IcacheMiss {
  import opened Icache
  import M = Memory
  import R = MemoryRuns

  // The same fetch address in every cycle from lo to hi, and no reset.
  ghost predicate Held(r: Trace, addr: nat, lo: nat, hi: nat)
    requires hi < |r.ins|
  {
    forall u | lo <= u <= hi :: r.ins[u].addr == addr && !r.ins[u].reset
  }

  // Waiting for the bus, and waiting for the reply under tag k.
  ghost predicate Asking(s: State, addr: nat) {
    Wf(s) && !Changed(s, addr) && s.miss && s.memTag == 0 && !Hit(s, addr)
  }

  ghost predicate Filling(s: State, addr: nat, k: nat) {
    Wf(s) && !Changed(s, addr) && !s.miss && s.memTag == k != 0 && !Hit(s, addr)
  }

  lemma MissStarts(s: State, inp: Input, out: M.Out)
    requires Wf(s) && !inp.reset && Changed(s, inp.addr) && !Hit(s, inp.addr)
    ensures Asking(Next(s, inp, out), inp.addr)
  {
  }

  lemma AskingStays(s: State, inp: Input, out: M.Out)
    requires Asking(s, inp.addr) && !inp.reset && !inp.granted
    ensures Asking(Next(s, inp, out), inp.addr)
  {
  }

  lemma AskingAnswered(s: State, inp: Input, out: M.Out)
    requires Asking(s, inp.addr) && !inp.reset && inp.granted && out.response != 0
    ensures Filling(Next(s, inp, out), inp.addr, out.response)
  {
  }

  lemma FillingStays(s: State, inp: Input, out: M.Out, k: nat)
    requires Filling(s, inp.addr, k) && !inp.reset && out.tag != k
    ensures Filling(Next(s, inp, out), inp.addr, k)
  {
  }

  lemma FillingEnds(s: State, inp: Input, out: M.Out, k: nat)
    requires Filling(s, inp.addr, k) && !inp.reset && out.tag == k
    ensures Hit(Next(s, inp, out), inp.addr) && DataOut(Next(s, inp, out), inp.addr) == out.data
  {
  }

  lemma {:induction false} AskingUntil(r: Trace, words: seq<nat>, n: nat, lat: nat, addr: nat, t: nat, u: nat)
    requires Run(r, words, n, lat) && t < u < |r.ins| && Held(r, addr, t, u)
    requires Wf(r.cs[t]) && Changed(r.cs[t], addr) && !Hit(r.cs[t], addr)
    requires forall v | t < v < u :: !r.ins[v].granted
    ensures Asking(r.cs[u], addr)
  {
    assert StepAt(r, lat, u - 1);
    if u == t + 1 {
      MissStarts(r.cs[t], r.ins[t], OutAt(r, lat, t));
    } else {
      AskingUntil(r, words, n, lat, addr, t, u - 1);
      AskingStays(r.cs[u - 1], r.ins[u - 1], OutAt(r, lat, u - 1));
    }
  }

  // The granted request is accepted.
  lemma GrantedIsAccepted(r: Trace, words: seq<nat>, n: nat, lat: nat, addr: nat, g: nat)
    requires Run(r, words, n, lat) && lat < n && g < |r.ins| && addr < 8 * |words|
    requires r.ins[g].addr == addr && r.ins[g].granted && Asking(r.cs[g], addr)
    ensures M.Wf(r.ms[g]) && r.cmds[g] == M.BusLoad(addr / 8 * 8) && OutAt(r, lat, g).response != 0
  {
    assert StepAt(r, lat, g);
    R.RunKeepsInv(r.ms, r.cmds, words, n, lat, g);
    R.FastMemoryAccepts(r.ms, r.cmds, words, n, lat, g);
  }

  // No reply with the same tag comes before the latency has passed.
  lemma NoEarlyReply(r: Trace, words: seq<nat>, n: nat, lat: nat, g: nat, u: nat, k: nat)
    requires Run(r, words, n, lat) && g < u < g + lat && u < |r.ins| && k != 0
    requires M.Wf(r.ms[g]) && M.Wf(r.ms[u]) && OutAt(r, lat, g).response == k
    ensures OutAt(r, lat, u).tag != k
  {
    Shapes(r, words, n, lat);
    R.ReplyIffAccepted(r.ms, r.cmds, words, n, lat, u, k);
    if OutAt(r, lat, u).tag == k {
      OneTransaction(r, words, n, lat, u - lat, g, k);
    }
  }

  lemma {:induction false} FillingUntil(r: Trace, words: seq<nat>, n: nat, lat: nat, addr: nat, g: nat, u: nat)
    requires Run(r, words, n, lat) && lat < n && addr < 8 * |words|
    requires g < u <= g + lat && u < |r.ins| && Held(r, addr, g, u)
    requires r.ins[g].granted && Asking(r.cs[g], addr)
    ensures M.Wf(r.ms[g]) && r.cmds[g] == M.BusLoad(addr / 8 * 8) && Filling(r.cs[u], addr, OutAt(r, lat, g).response)
  {
    GrantedIsAccepted(r, words, n, lat, addr, g);
    assert StepAt(r, lat, u - 1);
    if u == g + 1 {
      AskingAnswered(r.cs[g], r.ins[g], OutAt(r, lat, g));
    } else {
      FillingUntil(r, words, n, lat, addr, g, u - 1);
      NoEarlyReply(r, words, n, lat, g, u - 1, OutAt(r, lat, g).response);
      FillingStays(r.cs[u - 1], r.ins[u - 1], OutAt(r, lat, u - 1), OutAt(r, lat, g).response);
    }
  }

  // The miss that starts at t and is first granted at g ends at g + lat + 1,
  // with the word as of g.
  lemma MissTakes(r: Trace, words: seq<nat>, n: nat, lat: nat, addr: nat, t: nat, g: nat)
    requires Run(r, words, n, lat) && lat < n && addr < 8 * |words|
    requires t < g && g + lat < |r.ins| && Held(r, addr, t, g + lat)
    requires Wf(r.cs[t]) && Changed(r.cs[t], addr) && !Hit(r.cs[t], addr)
    requires r.ins[g].granted && forall v | t < v < g :: !r.ins[v].granted
    ensures forall u | 0 <= u <= |r.ins| :: Wf(r.cs[u]) && M.Wf(r.ms[u]) && |r.ms[u].words| == |words|
    ensures forall u | t <= u <= g + lat :: !Hit(r.cs[u], addr)
    ensures Hit(r.cs[g + lat + 1], addr) && DataOut(r.cs[g + lat + 1], addr) == r.ms[g].words[addr / 8]
  {
    hide M.Output, Sends;
    Shapes(r, words, n, lat);
    forall u | t <= u <= g + lat
      ensures !Hit(r.cs[u], addr)
    {
      AskingUntil(r, words, n, lat, addr, t, g);
      if t < u <= g {
        AskingUntil(r, words, n, lat, addr, t, u);
      } else if g < u {
        FillingUntil(r, words, n, lat, addr, g, u);
      }
    }
    AskingUntil(r, words, n, lat, addr, t, g);
    FillingUntil(r, words, n, lat, addr, g, g + lat);
    var k := OutAt(r, lat, g).response;
    R.ReplyIffAccepted(r.ms, r.cmds, words, n, lat, g + lat, k);
    assert StepAt(r, lat, g + lat);
    FillingEnds(r.cs[g + lat], r.ins[g + lat], OutAt(r, lat, g + lat), k);
  }

  // ---------------------------------------------------------------- at reset

  // With the reset line as first address nothing ever changes.
  lemma {:induction false} NeverAsks(r: Trace, words: seq<nat>, n: nat, lat: nat, addr: nat, t: nat)
    requires Run(r, words, n, lat) && Line(addr) == LINES * TAGS - 1 && t <= |r.ins|
    requires forall u | 0 <= u < t :: r.ins[u].addr == addr && !r.ins[u].reset
    ensures AtReset(r.cs[t]) && !Changed(r.cs[t], addr)
  {
    LineParts(addr, 8 * (LINES * TAGS - 1));
    if t > 0 {
      NeverAsks(r, words, n, lat, addr, t - 1);
      assert StepAt(r, lat, t - 1);
    }
  }

  // A held address below 64 KB hits after reset if and only if its line is not
  // the one the last-address registers are reset to.
  lemma ColdStartHitsIff(r: Trace, words: seq<nat>, n: nat, lat: nat, addr: nat)
    requires Run(r, words, n, lat) && lat < n && addr < 8 * |words| && |r.ins| >= lat + 2
    requires forall u | 0 <= u < |r.ins| :: r.ins[u].addr == addr && !r.ins[u].reset && r.ins[u].granted
    ensures forall u | 0 <= u <= |r.ins| :: Wf(r.cs[u])
    ensures (exists t | 0 <= t <= |r.ins| :: Hit(r.cs[t], addr)) <==> Line(addr) != LINES * TAGS - 1
  {
    Shapes(r, words, n, lat);
    LineParts(addr, 8 * (LINES * TAGS - 1));
    if Line(addr) == LINES * TAGS - 1 {
      forall t | 0 <= t <= |r.ins|
        ensures !Hit(r.cs[t], addr)
      {
        NeverAsks(r, words, n, lat, addr, t);
      }
    } else {
      MissTakes(r, words, n, lat, addr, 0, 1);
      assert Hit(r.cs[lat + 2], addr);
    }
  }

  // ---------------------------------------------------------------- witnesses

  // Any inputs drive the cache and the memory through some run.
  lemma {:induction false} RunOf(ins: seq<Input>, words: seq<nat>, n: nat, lat: nat) returns (r: Trace)
    requires |words| == LINES * TAGS && lat >= 1
    requires forall t | 0 <= t < |ins| :: WfInput(ins[t])
    ensures Run(r, words, n, lat) && r.ins == ins
  {
    if ins == [] {
      var c := State(31, 255, 0, false, seq(LINES, i => 0), seq(LINES, i => 0), seq(LINES, i => false));
      r := Trace([c], [M.Initial(words, n)], [], []);
    } else {
      var t := |ins| - 1;
      var q := RunOf(ins[..t], words, n, lat);
      r := Extended(q, words, n, lat, ins[t]);
      assert ins[..t] + [ins[t]] == ins;
    }
  }

  lemma Extended(q: Trace, words: seq<nat>, n: nat, lat: nat, inp: Input) returns (r: Trace)
    requires Run(q, words, n, lat) && WfInput(inp)
    ensures Run(r, words, n, lat) && r.ins == q.ins + [inp]
  {
    Shapes(q, words, n, lat);
    var t := |q.ins|;
    var c, m := q.cs[t], q.ms[t];
    var cmd := Bus(c, inp);
    r := Trace(q.cs + [Next(c, inp, M.Output(m, cmd, lat))], q.ms + [M.Next(m, cmd, lat)], q.ins + [inp], q.cmds + [cmd]);
    forall u | 0 <= u <= t
      ensures R.StepAt(r.ms, r.cmds, lat, u)
    {
      assert u < t ==> R.StepAt(q.ms, q.cmds, lat, u);
    }
    forall u | 0 <= u <= t
      ensures StepAt(r, lat, u)
    {
      assert u < t ==> StepAt(q, lat, u);
    }
  }

  // Every address is hit in some run, the addresses beyond the memory included,
  // except those of the reset line: fetching the low 16 bits fills the line, and
  // the address shows the word found there.
  lemma AliasedHit(words: seq<nat>, n: nat, lat: nat, addr: nat) returns (r: Trace, t: nat)
    requires |words| == LINES * TAGS && 1 <= lat < n && Line(addr) != LINES * TAGS - 1
    ensures Run(r, words, n, lat) && t <= |r.ins| && Wf(r.cs[t]) && Hit(r.cs[t], addr)
    ensures DataOut(r.cs[t], addr) == words[addr % 0x1_0000 / 8]
  {
    var low := addr % 0x1_0000;
    r := RunOf(seq(lat + 2, u => Input(false, low, true, M.BusNone)), words, n, lat);
    LowBits(addr);
    ColdStartHitsIff(r, words, n, lat, low);
    t :| 0 <= t <= |r.ins| && Hit(r.cs[t], low);
    HitIgnoresHighBits(r.cs[t], addr);
    forall u | 0 <= u < t
      ensures !r.cmds[u].BusStore?
    {
      assert StepAt(r, lat, u);
    }
    HitShowsMemory(r, words, n, lat, t, low);
  }
}
