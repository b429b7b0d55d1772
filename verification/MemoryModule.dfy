/**
  The bus memory and the cache storage as arrays updated in place: the memory's
  loop with its blocking assignments, and the cache's two clocked blocks.
 */
module MemoryModule {
  import opened Memory

  class BusMemory {
    const lat: nat
    const words: array<nat>
    const cycles: array<nat>
    const waiting: array<bool>
    const loaded: array<nat>
    var response: nat
    var tag: nat
    var data: nat

    ghost predicate Valid()
      reads this
    {
      cycles.Length == waiting.Length == loaded.Length && words != cycles && words != loaded && cycles != loaded
    }

    ghost function Value(): Mem
      reads this, words, cycles, waiting, loaded
    {
      Mem(words[..], cycles[..], waiting[..], loaded[..])
    }

    constructor (lines: nat, n: nat, lat: nat)
      ensures Valid() && this.lat == lat
      ensures fresh(words) && fresh(cycles) && fresh(waiting) && fresh(loaded)
      ensures Value() == Initial(seq(lines, i => 0), n)
      ensures response == 0 && tag == 0 && data == 0
    {
      this.lat := lat;
      words := new nat[lines](_ => 0);
      cycles := new nat[n](_ => 0);
      waiting := new bool[n](_ => false);
      loaded := new nat[n](_ => 0);
      response, tag, data := 0, 0, 0;
      new;
      assert words[..] == seq(lines, i => 0);
      var start := Initial(seq(lines, i => 0), n);
      assert cycles[..] == start.cycles && waiting[..] == start.waiting && loaded[..] == start.loaded;
    }

    method ClaimTag(i: nat, cmd: Command, acquire: bool, nextResponse: nat, ghost w: Sweep)
        returns (acquire': bool, nextResponse': nat)
      requires Valid() && i < cycles.Length && w.m == Value() && w.acquire == acquire && w.out.response == nextResponse
      requires acquire ==> Requests(w.m, cmd)
      modifies words, cycles, waiting, loaded
      ensures Claim(w, i, cmd, lat) == Sweep(Value(), acquire', w.filled, w.out.(response := nextResponse'))
    {
      acquire', nextResponse' := acquire, nextResponse;
      if cycles[i] > 0 {
        cycles[i] := cycles[i] - 1;
      } else if acquire && !waiting[i] {
        nextResponse' := i + 1;
        acquire' := false;
        cycles[i] := lat;
        if cmd.BusLoad? {
          waiting[i] := true;
          loaded[i] := words[cmd.addr / 8];
        } else {
          words[cmd.addr / 8] := cmd.data;
        }
      }
    }

    method PutReply(i: nat, filled: bool, nextTag: nat, nextData: nat, ghost w: Sweep)
        returns (filled': bool, nextTag': nat, nextData': nat)
      requires Valid() && i < cycles.Length && w.m == Value() && w.filled == filled
      requires w.out.tag == nextTag && w.out.data == nextData
      modifies waiting
      ensures Reply(w, i) == Sweep(Value(), w.acquire, filled', Out(w.out.response, nextTag', nextData'))
    {
      filled', nextTag', nextData' := filled, nextTag, nextData;
      if cycles[i] == 0 && waiting[i] && !filled {
        filled' := true;
        nextTag' := i + 1;
        nextData' := loaded[i];
        waiting[i] := false;
      }
    }

    method Negedge(cmd: Command)
      requires Valid()
      modifies this, words, cycles, waiting, loaded
      ensures Valid() && Value() == Next(old(Value()), cmd, lat)
      ensures Out(response, tag, data) == Output(old(Value()), cmd, lat)
    {
      hide Claim, Reply;
      ghost var m := Value();
      var acquire := !cmd.BusNone? && cmd.addr % 8 == 0 && cmd.addr / 8 < words.Length;
      var filled, nextResponse, nextTag, nextData := false, 0, 0, 0;
      var i := 0;
      while i < cycles.Length
        invariant Valid() && 0 <= i <= cycles.Length
        invariant Scan(m, cmd, lat, i) == Sweep(Value(), acquire, filled, Out(nextResponse, nextTag, nextData))
      {
        ghost var w := Scan(m, cmd, lat, i);
        acquire, nextResponse := ClaimTag(i, cmd, acquire, nextResponse, w);
        filled, nextTag, nextData := PutReply(i, filled, nextTag, nextData, Claim(w, i, cmd, lat));
        i := i + 1;
      }
      response, tag, data := nextResponse, nextTag, nextData;
    }
  }
}

module IcacheModule {
  import opened Icache
  import M = Memory

  class InstructionCache {
    var lastIndex: nat
    var lastTag: nat
    var memTag: nat
    var miss: bool
    const data: array<nat>
    const tags: array<nat>
    const valids: array<bool>

    ghost predicate Valid()
      reads this, data, tags, valids
    {
      Wf(Value()) && data != tags
    }

    ghost function Value(): State
      reads this, data, tags, valids
    {
      State(lastIndex, lastTag, memTag, miss, data[..], tags[..], valids[..])
    }

    constructor ()
      ensures Valid() && AtReset(Value()) && fresh(data) && fresh(tags) && fresh(valids)
    {
      lastIndex, lastTag, memTag, miss := 31, 255, 0, false;
      data := new nat[LINES](_ => 0);
      tags := new nat[LINES](_ => 0);
      valids := new bool[LINES](_ => false);
    }

    // The storage's clocked blocks: valid bits, and data with tags.
    method Store(reset: bool, write: bool, idx: nat, tag: nat, word: nat)
      requires Valid() && idx < LINES
      modifies data, tags, valids
      ensures data[..] == (if write then old(data[..])[idx := word] else old(data[..]))
      ensures tags[..] == (if write then old(tags[..])[idx := tag] else old(tags[..]))
      ensures valids[..] ==
        (if reset then seq(LINES, i => false) else if write then old(valids[..])[idx := true] else old(valids[..]))
    {
      if reset {
        forall i | 0 <= i < valids.Length {
          valids[i] := false;
        }
        assert valids[..] == seq(LINES, i => false);
      } else if write {
        valids[idx] := true;
      }
      if write {
        data[idx] := word;
        tags[idx] := tag;
      }
    }

    method Posedge(inp: Input, out: M.Out)
      requires Valid()
      modifies this, data, tags, valids
      ensures Valid() && Value() == Next(old(Value()), inp, out)
    {
      ghost var s := Value();
      var index, tag := Index(inp.addr), Tag(inp.addr);
      var hit := valids[index] && tags[index] == tag;
      var changed := index != lastIndex || tag != lastTag;
      var response := if miss && !changed && inp.granted then out.response else 0;
      var write := memTag == out.tag && memTag != 0;
      var unanswered := if changed then !hit else miss && response == 0;
      Store(inp.reset, write, lastIndex, lastTag, out.data);
      if inp.reset {
        lastIndex, lastTag, memTag, miss := 31, 255, 0, false;
      } else {
        lastIndex, lastTag := index, tag;
        if changed || miss || write {
          memTag := response;
        }
        miss := unanswered;
      }
      assert Value() == Next(s, inp, out);
    }
  }
}
