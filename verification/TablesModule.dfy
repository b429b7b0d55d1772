/**
  The clocked blocks of the rename tables as they are written: one register per
  index, four guarded assignments in lane order, the last one that applies wins.
 */
module TablesModule {
  import opened Rob
  import opened Ledger
  import opened Rename
  import Psel
  import Backend
  import Busy

  // verilog/arch_rat.sv
  class ArchRat {
    const arch_rat: array<nat>

    constructor (a: nat)
      ensures fresh(arch_rat) && arch_rat.Length == a && arch_rat[..] == seq(a, i => 0)
    {
      arch_rat := new nat[a](_ => 0);
    }

    method Posedge(ret: seq<Retire>)
      requires |ret| == 4 && InRange(RetOps(ret), arch_rat.Length)
      modifies arch_rat
      ensures arch_rat[..] == Fold(old(arch_rat[..]), RetOps(ret))
    {
      ghost var m := arch_rat[..];
      for i := 0 to arch_rat.Length
        invariant forall j | 0 <= j < i :: arch_rat[j] == NextArch(m, ret)[j]
        invariant forall j | i <= j < arch_rat.Length :: arch_rat[j] == m[j]
      {
        for k := 0 to 4
          invariant arch_rat[i] == ArchAt(m, ret, k, i)
          invariant forall j | 0 <= j < i :: arch_rat[j] == NextArch(m, ret)[j]
          invariant forall j | i < j < arch_rat.Length :: arch_rat[j] == m[j]
        {
          if ret[k].valid && i == ret[k].op.arn && i != 0 {
            arch_rat[i] := ret[k].op.prn;
          }
        }
      }
      NextArchIsFold(m, ret);
    }
  }

  // verilog/rat.sv
  class Rat {
    const rat: array<nat>

    constructor (a: nat)
      ensures fresh(rat) && rat.Length == a && rat[..] == seq(a, i => 0)
    {
      rat := new nat[a](_ => 0);
    }

    method Posedge(recov: bool, arch: seq<nat>, ready: bool, dec: seq<Dec>, gs: seq<Psel.Grant>)
      requires |dec| == 4 && |gs| == 4 && |arch| == rat.Length
      modifies rat
      ensures rat[..] == if recov then arch else if ready then NextRat(old(rat[..]), dec, gs) else old(rat[..])
    {
      ghost var m := rat[..];
      ghost var m' := if recov then arch else if ready then NextRat(m, dec, gs) else m;
      for i := 0 to rat.Length
        invariant forall j | 0 <= j < i :: rat[j] == m'[j]
        invariant forall j | i <= j < rat.Length :: rat[j] == m[j]
      {
        if recov {
          rat[i] := arch[i];
        } else {
          for k := 0 to 4
            invariant rat[i] == if ready then RatAt(m, dec, gs, k, i) else m[i]
            invariant forall j | 0 <= j < i :: rat[j] == m'[j]
            invariant forall j | i < j < rat.Length :: rat[j] == m[j]
          {
            if gs[k].Some? && Takes(dec, k) && ready && i == dec[k].arn {
              rat[i] := gs[k].idx;
            }
          }
        }
      }
      assert rat[..] == m';
    }
  }

  // verilog/free_list.sv
  class FreeList {
    const free_list: array<bool>

    constructor (p: nat)
      ensures fresh(free_list) && free_list.Length == p && free_list[..] == seq(p, i => i != 0)
    {
      free_list := new bool[p](i => i != 0);
    }

    method Posedge(recov: bool, arch: seq<nat>, ret: seq<Retire>, ready: bool, dec: seq<Dec>, gs: seq<Psel.Grant>)
      requires |dec| == 4 && |gs| == 4 && |ret| == 4
      modifies free_list
      ensures free_list[..] ==
        if recov then Rebuild(arch, free_list.Length) else NextFree(old(free_list[..]), ret, dec, gs, ready)
    {
      ghost var f := free_list[..];
      ghost var f' := if recov then Rebuild(arch, |f|) else NextFree(f, ret, dec, gs, ready);
      for i := 0 to free_list.Length
        invariant forall j | 0 <= j < i :: free_list[j] == f'[j]
        invariant forall j | i <= j < free_list.Length :: free_list[j] == f[j]
      {
        if recov {
          free_list[i] := i !in arch;
        } else {
          for k := 0 to 4
            invariant free_list[i] == (f[i] || (i != 0 && exists l | 0 <= l < k :: ret[l].valid && ret[l].op.prev == i))
            invariant forall j | 0 <= j < free_list.Length && j != i :: free_list[j] == if j < i then f'[j] else f[j]
          {
            if ret[k].valid && i == ret[k].op.prev && i != 0 {
              free_list[i] := true;
            }
          }
          assert free_list[i] == (f[i] || Returns(ret, i));
          for k := 0 to 4
            invariant free_list[i] == ((f[i] || Returns(ret, i)) &&
              !(ready && exists l | 0 <= l < k :: gs[l] == Psel.Some(i) && Takes(dec, l)))
            invariant forall j | 0 <= j < free_list.Length && j != i :: free_list[j] == if j < i then f'[j] else f[j]
          {
            if gs[k] == Psel.Some(i) && Takes(dec, k) && ready {
              free_list[i] := false;
            }
          }
        }
      }
      assert free_list[..] == f';
    }
  }

  // verilog/busy_table.sv
  class BusyTable {
    const busy_table: array<bool>

    constructor (p: nat)
      ensures fresh(busy_table) && busy_table.Length == p && busy_table[..] == seq(p, i => false)
    {
      busy_table := new bool[p](_ => false);
    }

    method Posedge(recov: bool, dec: seq<Dec>, gs: seq<Psel.Grant>, ready: bool, inp: Backend.Input, prns: seq<nat>)
      requires |dec| == 4 && |gs| == 4 && |inp.wb| == 7 && |prns| == 7
      modifies busy_table
      ensures busy_table[..] == Busy.NextBusy(old(busy_table[..]), recov, dec, gs, ready, inp, prns)
    {
      ghost var b := busy_table[..];
      ghost var b' := Busy.NextBusy(b, recov, dec, gs, ready, inp, prns);
      for i := 0 to busy_table.Length
        invariant forall j | 0 <= j < i :: busy_table[j] == b'[j]
        invariant forall j | i <= j < busy_table.Length :: busy_table[j] == b[j]
      {
        if recov {
          busy_table[i] := false;
        } else {
          for k := 0 to 4
            invariant busy_table[i] == (b[i] || (ready && exists l | 0 <= l < k :: gs[l] == Psel.Some(i) && Takes(dec, l)))
            invariant forall j | 0 <= j < busy_table.Length && j != i :: busy_table[j] == if j < i then b'[j] else b[j]
          {
            if gs[k] == Psel.Some(i) && Takes(dec, k) && ready {
              busy_table[i] := true;
            }
          }
          for w := 0 to 7
            invariant busy_table[i] == ((b[i] || (ready && TakenNow(dec, gs, i))) &&
              !exists l | 0 <= l < w :: inp.wb[l].valid && prns[l] == i)
            invariant forall j | 0 <= j < busy_table.Length && j != i :: busy_table[j] == if j < i then b'[j] else b[j]
          {
            if inp.wb[w].valid && i == prns[w] {
              busy_table[i] := false;
            }
          }
        }
      }
      assert busy_table[..] == b';
    }
  }
}
