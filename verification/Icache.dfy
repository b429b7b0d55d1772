/**
  The instruction cache (cache/icache.sv over cache/cachemem.sv) on the bus
  memory. The cache's registers move on the rising edge and the memory samples
  the bus on the falling edge between two of them, so cycle t sees the memory's
  edge t with the command computed from the registers of cycle t, and the next
  registers take that edge's response, tag and data.
 */
module Icache {
  import M = Memory
  import R = MemoryRuns

  const LINES: nat := 32
  const TAGS: nat := 256

  datatype State = State(
    lastIndex: nat, lastTag: nat, memTag: nat, miss: bool,
    data: seq<nat>, tags: seq<nat>, valids: seq<bool>
  )

  // One cycle: the fetch address held in it, whether the bus is the cache's, and
  // what another master drives when it is not.
  datatype Input = Input(reset: bool, addr: nat, granted: bool, other: M.Command)

  ghost predicate Wf(s: State) {
    |s.data| == LINES && |s.tags| == LINES && |s.valids| == LINES && s.lastIndex < LINES && s.lastTag < TAGS
  }

  // Addresses are as wide as the memory's address port.
  ghost predicate WfInput(inp: Input) {
    inp.addr < 0x1_0000_0000
  }

  function Index(addr: nat): (i: nat)
    ensures i < LINES
  {
    addr / 8 % 32
  }

  function Tag(addr: nat): (t: nat)
    ensures t < TAGS
  {
    addr / 256 % 256
  }

  predicate Changed(s: State, addr: nat) {
    Index(addr) != s.lastIndex || Tag(addr) != s.lastTag
  }

  predicate Sends(s: State, addr: nat) {
    s.miss && !Changed(s, addr)
  }

  // Icache_valid_out and Icache_data_out
  predicate Hit(s: State, addr: nat)
    requires Wf(s)
  {
    s.valids[Index(addr)] && s.tags[Index(addr)] == Tag(addr)
  }

  function DataOut(s: State, addr: nat): nat
    requires Wf(s)
  {
    s.data[Index(addr)]
  }

  // What the memory samples in this cycle.
  function Bus(s: State, inp: Input): M.Command {
    if Sends(s, inp.addr) && inp.granted then M.BusLoad(inp.addr / 8 * 8) else inp.other
  }

  // Imem2proc_response: the memory's answer to the cache's own command.
  function Response(s: State, inp: Input, out: M.Out): nat {
    if Sends(s, inp.addr) && inp.granted then out.response else 0
  }

  predicate Writes(s: State, out: M.Out) {
    s.memTag == out.tag && s.memTag != 0
  }

  function Next(s: State, inp: Input, out: M.Out): (s': State)
    requires Wf(s)
    ensures Wf(s')
  {
    var write := Writes(s, out);
    var data := if write then s.data[s.lastIndex := out.data] else s.data;
    var tags := if write then s.tags[s.lastIndex := s.lastTag] else s.tags;
    if inp.reset then State(31, 255, 0, false, data, tags, seq(LINES, i => false))
    else
      var changed := Changed(s, inp.addr);
      var unanswered := if changed then !Hit(s, inp.addr) else s.miss && Response(s, inp, out) == 0;
      State(
        Index(inp.addr), Tag(inp.addr),
        if changed || s.miss || write then Response(s, inp, out) else s.memTag,
        unanswered,
        data, tags, if write then s.valids[s.lastIndex := true] else s.valids)
  }

  // The registers a reset leaves.
  ghost predicate AtReset(s: State) {
    && Wf(s) && s.lastIndex == 31 && s.lastTag == 255 && s.memTag == 0 && !s.miss
    && (forall i | 0 <= i < LINES :: !s.valids[i])
  }

  // ------------------------------------------------------------------- runs

  datatype Trace = Trace(cs: seq<State>, ms: seq<M.Mem>, ins: seq<Input>, cmds: seq<M.Command>)

  ghost predicate Run(r: Trace, words: seq<nat>, n: nat, lat: nat) {
    && |r.cs| == |r.ins| + 1 && |r.cmds| == |r.ins|
    && R.Run(r.ms, r.cmds, words, n, lat)
    && |words| == LINES * TAGS
    && AtReset(r.cs[0])
    && (forall t | 0 <= t < |r.ins| :: StepAt(r, lat, t))
  }

  function OutAt(r: Trace, lat: nat, t: nat): M.Out
    requires t < |r.cmds| && t < |r.ms| && M.Wf(r.ms[t])
  {
    M.Output(r.ms[t], r.cmds[t], lat)
  }

  ghost predicate StepAt(r: Trace, lat: nat, t: nat)
    requires t < |r.ins| && |r.cs| == |r.ins| + 1 && |r.cmds| == |r.ins| && |r.ms| == |r.ins| + 1
  {
    && WfInput(r.ins[t]) && Wf(r.cs[t]) && M.Wf(r.ms[t])
    && r.cmds[t] == Bus(r.cs[t], r.ins[t])
    && r.cs[t + 1] == Next(r.cs[t], r.ins[t], OutAt(r, lat, t))
  }

  // Every state of a run has its shape.
  lemma Shapes(r: Trace, words: seq<nat>, n: nat, lat: nat)
    requires Run(r, words, n, lat)
    ensures forall t | 0 <= t <= |r.ins| :: Wf(r.cs[t]) && M.Wf(r.ms[t]) && |r.ms[t].words| == |words| && |r.ms[t].cycles| == n
  {
    R.AllWf(r.ms, r.cmds, words, n, lat);
    forall t | 0 <= t <= |r.ins|
      ensures Wf(r.cs[t])
    {
      if t > 0 {
        assert StepAt(r, lat, t - 1);
      }
    }
  }

  // The memory's edge a accepted the cache's load of line (index, tag) under k.
  ghost predicate Requested(r: Trace, lat: nat, a: nat, index: nat, tag: nat, k: nat)
    requires a < |r.ins| && |r.cmds| == |r.ins| && |r.ms| == |r.ins| + 1 && M.Wf(r.ms[a])
  {
    && k != 0 && OutAt(r, lat, a).response == k
    && r.cmds[a].BusLoad? && M.Requests(r.ms[a], r.cmds[a])
    && Index(r.cmds[a].addr) == index && Tag(r.cmds[a].addr) == tag
  }

  // Two transactions under one tag are more than lat edges apart.
  lemma OneTransaction(r: Trace, words: seq<nat>, n: nat, lat: nat, a: nat, b: nat, k: nat)
    requires Run(r, words, n, lat) && a < b < |r.ins| && k != 0
    requires forall t | 0 <= t <= |r.ins| :: M.Wf(r.ms[t]) && |r.ms[t].cycles| == n
    requires OutAt(r, lat, a).response == k && OutAt(r, lat, b).response == k
    ensures b > a + lat
  {
    R.RunKeepsInv(r.ms, r.cmds, words, n, lat, b);
    R.ResponseInRange(r.ms[b], r.cmds[b], lat);
    R.HistoryHolds(r.ms, r.cmds, words, n, lat, b, k - 1);
    R.GrantIsResponse(r.ms[b], r.cmds[b], lat, k - 1);
    assert R.Accepted(r.ms, r.cmds, lat, a, k - 1);
  }

  lemma OwnResponse(r: Trace, words: seq<nat>, n: nat, lat: nat, t: nat)
    requires Run(r, words, n, lat) && t < |r.ins|
    requires forall t | 0 <= t <= |r.ins| :: Wf(r.cs[t]) && M.Wf(r.ms[t])
    ensures var k := Response(r.cs[t], r.ins[t], OutAt(r, lat, t));
      k != 0 ==> !Changed(r.cs[t], r.ins[t].addr) && Requested(r, lat, t, Index(r.ins[t].addr), Tag(r.ins[t].addr), k)
  {
    assert StepAt(r, lat, t);
    R.RunKeepsInv(r.ms, r.cmds, words, n, lat, t);
    R.ResponseInRange(r.ms[t], r.cmds[t], lat);
    Aligned(r.ins[t].addr);
  }

  // The request carries the line of the fetch address.
  lemma Aligned(addr: nat)
    ensures Index(addr / 8 * 8) == Index(addr) && Tag(addr / 8 * 8) == Tag(addr)
  {
    assert addr / 8 * 8 / 8 == addr / 8 && addr / 8 * 8 / 256 == addr / 256;
  }

  // --------------------------------------------------------------- agreement

  // A nonzero current_mem_tag names a load in progress of exactly the line the
  // last-address registers name.
  ghost predicate TagPending(r: Trace, lat: nat, t: nat, a: nat)
    requires t <= |r.ins| && |r.cs| == |r.ins| + 1 && |r.cmds| == |r.ins| && |r.ms| == |r.ins| + 1
    requires forall t | 0 <= t <= |r.ins| :: M.Wf(r.ms[t])
  {
    a < t <= a + lat && Requested(r, lat, a, r.cs[t].lastIndex, r.cs[t].lastTag, r.cs[t].memTag)
  }

  lemma {:induction false} TagNamesPendingLoad(r: Trace, words: seq<nat>, n: nat, lat: nat, t: nat)
      returns (a: nat)
    requires Run(r, words, n, lat) && t <= |r.ins| && r.cs[t].memTag != 0
    ensures forall t | 0 <= t <= |r.ins| :: Wf(r.cs[t]) && M.Wf(r.ms[t])
    ensures TagPending(r, lat, t, a)
  {
    Shapes(r, words, n, lat);
    assert t > 0;
    assert StepAt(r, lat, t - 1);
    var s, inp, out := r.cs[t - 1], r.ins[t - 1], OutAt(r, lat, t - 1);
    if Changed(s, inp.addr) || s.miss || Writes(s, out) {
      OwnResponse(r, words, n, lat, t - 1);
      a := t - 1;
    } else {
      a := TagNamesPendingLoad(r, words, n, lat, t - 1);
      if a + lat == t - 1 {
        R.ReplyIffAccepted(r.ms, r.cmds, words, n, lat, t - 1, s.memTag);
      }
    }
  }

  // A fill: line i holds the word its load read at edge a.
  ghost predicate FilledAt(r: Trace, lat: nat, t: nat, i: nat, a: nat)
    requires t <= |r.ins| && |r.cs| == |r.ins| + 1 && |r.cmds| == |r.ins| && |r.ms| == |r.ins| + 1
    requires forall t | 0 <= t <= |r.ins| :: Wf(r.cs[t]) && M.Wf(r.ms[t])
    requires Wf(r.cs[t]) && i < LINES
  {
    && a < t && Requested(r, lat, a, i, r.cs[t].tags[i], OutAt(r, lat, a).response)
    && r.cs[t].data[i] == r.ms[a].words[r.cmds[a].addr / 8]
  }

  // Every valid line holds the memory word at its fill's acceptance.
  lemma {:induction false} ValidLineIsMemoryWord(r: Trace, words: seq<nat>, n: nat, lat: nat, t: nat, i: nat)
      returns (a: nat)
    requires Run(r, words, n, lat) && t <= |r.ins| && i < LINES
    requires Wf(r.cs[t]) && r.cs[t].valids[i]
    ensures forall t | 0 <= t <= |r.ins| :: Wf(r.cs[t]) && M.Wf(r.ms[t])
    ensures FilledAt(r, lat, t, i, a)
  {
    hide M.Wf, Bus;
    Shapes(r, words, n, lat);
    assert t > 0;
    assert StepAt(r, lat, t - 1);
    var s, out := r.cs[t - 1], OutAt(r, lat, t - 1);
    if Writes(s, out) && s.lastIndex == i {
      a := TagNamesPendingLoad(r, words, n, lat, t - 1);
      R.ReplyIffAccepted(r.ms, r.cmds, words, n, lat, t - 1, s.memTag);
      if a != t - 1 - lat {
        OneTransaction(r, words, n, lat, t - 1 - lat, a, s.memTag);
      }
    } else {
      a := ValidLineIsMemoryWord(r, words, n, lat, t - 1, i);
    }
  }

  // The line number an address selects: its low 16 bits without the offset.
  function Line(addr: nat): (x: nat)
    ensures x < LINES * TAGS
  {
    addr / 8 % 8192
  }

  lemma LineParts(a: nat, b: nat)
    ensures Index(a) == Index(b) && Tag(a) == Tag(b) <==> Line(a) == Line(b)
  {
    assert a / 256 == a / 8 / 32 && b / 256 == b / 8 / 32;
    var x, y := a / 8, b / 8;
    assert x % 8192 == x / 32 % 256 * 32 + x % 32;
    assert y % 8192 == y / 32 % 256 * 32 + y % 32;
  }

  // Above its low 16 bits the cache does not look at an address at all.
  lemma HitIgnoresHighBits(s: State, addr: nat)
    requires Wf(s)
    ensures Hit(s, addr) <==> Hit(s, addr % 0x1_0000)
    ensures DataOut(s, addr) == DataOut(s, addr % 0x1_0000)
    ensures Line(addr) == addr % 0x1_0000 / 8
  {
    LowBits(addr);
    LineParts(addr, addr % 0x1_0000);
  }

  lemma LowBits(addr: nat)
    ensures Line(addr) == addr % 0x1_0000 / 8 == Line(addr % 0x1_0000)
  {
    var low := addr % 0x1_0000;
    assert addr == addr / 0x1_0000 * 0x1_0000 + low;
    assert addr / 8 == addr / 0x1_0000 * 8192 + low / 8;
  }

  // On a hit the cache shows a word the memory held, at the address reduced to
  // its low 16 bits; that is the address itself exactly below 64 KB.
  lemma HitIsMemoryWord(r: Trace, words: seq<nat>, n: nat, lat: nat, t: nat, addr: nat) returns (a: nat)
    requires Run(r, words, n, lat) && t <= |r.ins| && Wf(r.cs[t]) && Hit(r.cs[t], addr)
    ensures a < t && M.Wf(r.ms[a]) && |r.ms[a].words| == |words|
    ensures OutAt(r, lat, a).response != 0 && r.cmds[a].BusLoad? && r.cmds[a].addr / 8 == Line(addr)
    ensures DataOut(r.cs[t], addr) == r.ms[a].words[Line(addr)]
    ensures addr < 8 * |words| <==> Line(addr) == addr / 8
  {
    hide Index;
    Shapes(r, words, n, lat);
    a := ValidLineIsMemoryWord(r, words, n, lat, t, Index(addr));
    LineParts(r.cmds[a].addr, addr);
  }

  lemma {:induction false} UnwrittenWord(r: Trace, words: seq<nat>, n: nat, lat: nat, t: nat, x: nat)
    requires Run(r, words, n, lat) && t <= |r.ins| && x < |words|
    requires forall u | 0 <= u < t :: !(r.cmds[u].BusStore? && r.cmds[u].addr / 8 == x)
    ensures |r.ms[t].words| == |words| && r.ms[t].words[x] == words[x]
  {
    Shapes(r, words, n, lat);
    if t > 0 {
      UnwrittenWord(r, words, n, lat, t - 1, x);
      assert R.StepAt(r.ms, r.cmds, lat, t - 1);
      R.RunKeepsInv(r.ms, r.cmds, words, n, lat, t - 1);
      M.ScanIs(r.ms[t - 1], r.cmds[t - 1], lat, n);
    }
  }

  // For a word nobody stores to, a hit below 64 KB shows memory[addr].
  lemma HitShowsMemory(r: Trace, words: seq<nat>, n: nat, lat: nat, t: nat, addr: nat)
    requires Run(r, words, n, lat) && t <= |r.ins| && Wf(r.cs[t]) && Hit(r.cs[t], addr) && addr < 8 * |words|
    requires forall u | 0 <= u < t :: !(r.cmds[u].BusStore? && r.cmds[u].addr / 8 == addr / 8)
    ensures DataOut(r.cs[t], addr) == words[addr / 8]
  {
    var a := HitIsMemoryWord(r, words, n, lat, t, addr);
    UnwrittenWord(r, words, n, lat, a, addr / 8);
  }

  // The bus carries the cache's load of the fetched line exactly while a miss of
  // that line is outstanding and the bus is granted, and the other master's
  // command otherwise.
  lemma BusCarries(r: Trace, words: seq<nat>, n: nat, lat: nat, t: nat)
    requires Run(r, words, n, lat) && t < |r.ins|
    ensures var c, inp := r.cs[t], r.ins[t];
      r.cmds[t] ==
        if c.miss && c.lastIndex == Index(inp.addr) && c.lastTag == Tag(inp.addr) && inp.granted
        then M.BusLoad(8 * (inp.addr / 8)) else inp.other
  {
    assert StepAt(r, lat, t);
  }

  // ---------------------------------------------------------- lines stay put

  // In cycle v a reply fills line slot i.
  predicate Fills(r: Trace, lat: nat, v: nat, i: nat)
    requires v < |r.cs| && v < |r.cmds| && v < |r.ms| && M.Wf(r.ms[v])
  {
    r.cs[v].memTag != 0 && OutAt(r, lat, v).tag == r.cs[v].memTag && r.cs[v].lastIndex == i
  }

  // One edge keeps every line but the one that is filled.
  lemma LineKept(s: State, inp: Input, out: M.Out, i: nat)
    requires Wf(s) && !inp.reset && i < LINES
    requires s.memTag == 0 || out.tag != s.memTag || s.lastIndex != i
    ensures var s' := Next(s, inp, out);
      s'.valids[i] == s.valids[i] && s'.tags[i] == s.tags[i] && s'.data[i] == s.data[i]
  {
  }

  lemma LineFilled(s: State, inp: Input, out: M.Out, i: nat)
    requires Wf(s) && !inp.reset && i < LINES
    requires s.memTag != 0 && out.tag == s.memTag && s.lastIndex == i
    ensures var s' := Next(s, inp, out);
      s'.valids[i] && s'.tags[i] == s.lastTag && s'.data[i] == out.data
  {
  }

  // A line that hits goes on hitting until a reset or a fill of its slot with
  // another tag; its data changes only by a fill of the slot.
  lemma {:induction false} HitStays(r: Trace, words: seq<nat>, n: nat, lat: nat, addr: nat, t: nat, u: nat)
    requires Run(r, words, n, lat) && t <= u <= |r.ins| && Wf(r.cs[t]) && Hit(r.cs[t], addr)
    requires forall v | 0 <= v <= |r.ins| :: M.Wf(r.ms[v])
    requires forall v | t <= v < u :: !r.ins[v].reset
    requires forall v | t <= v < u :: Fills(r, lat, v, Index(addr)) ==> r.cs[v].lastTag == Tag(addr)
    ensures Wf(r.cs[u]) && Hit(r.cs[u], addr)
    ensures (forall v | t <= v < u :: !Fills(r, lat, v, Index(addr))) ==> DataOut(r.cs[u], addr) == DataOut(r.cs[t], addr)
  {
    if t < u {
      HitStays(r, words, n, lat, addr, t, u - 1);
      assert StepAt(r, lat, u - 1);
      if Fills(r, lat, u - 1, Index(addr)) {
        LineFilled(r.cs[u - 1], r.ins[u - 1], OutAt(r, lat, u - 1), Index(addr));
      } else {
        LineKept(r.cs[u - 1], r.ins[u - 1], OutAt(r, lat, u - 1), Index(addr));
      }
    }
  }

  // The last-address registers hold the line of the previous cycle's address.
  lemma LastAddress(r: Trace, words: seq<nat>, n: nat, lat: nat, t: nat)
    requires Run(r, words, n, lat) && t < |r.ins| && !r.ins[t].reset
    ensures r.cs[t + 1].lastIndex == Index(r.ins[t].addr) && r.cs[t + 1].lastTag == Tag(r.ins[t].addr)
  {
    assert StepAt(r, lat, t);
  }

  // So fetching lines of other slots does not take a line away: what was filled
  // before still hits.
  lemma OtherLinesStay(r: Trace, words: seq<nat>, n: nat, lat: nat, addr: nat, t: nat, u: nat)
    requires Run(r, words, n, lat) && 0 < t <= u <= |r.ins| && Wf(r.cs[t]) && Hit(r.cs[t], addr)
    requires forall v | t - 1 <= v < u :: !r.ins[v].reset && (Index(r.ins[v].addr) != Index(addr) || Tag(r.ins[v].addr) == Tag(addr))
    ensures Wf(r.cs[u]) && Hit(r.cs[u], addr)
  {
    Shapes(r, words, n, lat);
    forall v | t <= v < u && Fills(r, lat, v, Index(addr))
      ensures r.cs[v].lastTag == Tag(addr)
    {
      LastAddress(r, words, n, lat, v - 1);
    }
    HitStays(r, words, n, lat, addr, t, u);
  }

  // A reset, whenever it comes, empties the cache.
  lemma ResetEmpties(s: State, inp: Input, out: M.Out)
    requires Wf(s) && inp.reset
    ensures AtReset(Next(s, inp, out)) && forall addr :: !Hit(Next(s, inp, out), addr)
  {
  }
}
