/**
  The back end as one clocked object: the reorder buffer, the four tables and
  the pipeline registers of verilog/backend.sv. All wires are read before any
  register changes, which is what the nonblocking assignments mean.
 */
module BackendModule {
  import R = Rob
  import RobModule
  import opened Rename
  import opened TablesModule
  import Psel
  import Ledger
  import opened Backend
  import Busy
  import Conservation

  // The front end keeps the valid lanes of a group together.
  predicate FetchContiguous(inp: Input)
    requires WfInput(inp)
  {
    forall i, j, k | 0 <= i < j < k < 4 :: inp.fetch[i].valid && inp.fetch[k].valid ==> inp.fetch[j].valid
  }

  // In every reachable state the preconditions of the clocked object hold at
  // the next edge again.
  lemma EdgePossible(s: State, inp: Input)
    requires Inv(s) && EnvOk(s, inp) && Sized(s) && FetchContiguous(inp)
    ensures RobModule.Contiguous(Next(s, inp).ren)
    ensures Ledger.InRange(RetOps(Next(s, inp).ret), |Next(s, inp).arch|)
  {
    hide Ledger.InRange, Inflight, Wf;
    Conservation.StepKeepsInv(s, inp);
    RetireInRange(Next(s, inp));
  }

  lemma RetireInRange(s: State)
    requires Inv(s)
    ensures Ledger.InRange(RetOps(s.ret), |s.arch|)
  {
    Conservation.NoLanesNoOps();
    if !s.recov {
      Conservation.RetireBalances(s);
    }
  }

  class BackEnd {
    const rob: RobModule.ReorderBuffer
    const freeList: FreeList
    const rat: Rat
    const archRat: ArchRat
    const busyTable: BusyTable
    var pipe_rename_pkt: seq<R.Lane>
    var pipe_retire_pkt: seq<R.Retire>
    var recov_arch_st: bool
    var sys_exception: bool

    function Value(): State
      reads this, rob, rob.rob_entry, freeList.free_list, rat.rat, archRat.arch_rat
    {
      State(
        freeList.free_list[..], rat.rat[..], archRat.arch_rat[..], pipe_rename_pkt,
        R.State(rob.rob_entry[..], rob.head_ptr, rob.tail_ptr, rob.head_position_bit, rob.tail_position_bit,
          rob.branch_misp, rob.misp_rob, rob.redirect_pc),
        pipe_retire_pkt, recov_arch_st, sys_exception)
    }

    ghost predicate Valid()
      reads this, rob, rob.rob_entry, freeList.free_list, rat.rat, archRat.arch_rat, busyTable.busy_table
    {
      && Wf(Value()) && rat.rat != archRat.arch_rat && freeList.free_list != busyTable.busy_table
      && busyTable.busy_table.Length == freeList.free_list.Length
    }

    constructor (d: nat, p: nat, a: nat)
      requires d >= 8 && d % 4 == 0 && p > 0 && a > 0
      ensures Valid() && Value() == Reset(d, p, a)
      ensures busyTable.busy_table[..] == seq(p, i => false)
      ensures fresh(rob) && fresh(rob.rob_entry) && fresh(freeList.free_list) && fresh(rat.rat)
      ensures fresh(archRat.arch_rat) && fresh(busyTable.busy_table)
    {
      rob := new RobModule.ReorderBuffer(d);
      freeList := new FreeList(p);
      rat := new Rat(a);
      archRat := new ArchRat(a);
      busyTable := new BusyTable(p);
      pipe_rename_pkt, pipe_retire_pkt := NO_LANES, NO_RETIRES;
      recov_arch_st, sys_exception := false, false;
    }

    // The clocked blocks of the four tables.
    method TablesEdge(inp: Input, prns: seq<nat>, dec: seq<Dec>, gs: seq<Psel.Grant>, ready: bool)
      requires Valid() && WfInput(inp) && |prns| == 7 && |dec| == 4 && |gs| == 4
      requires Ledger.InRange(RetOps(pipe_retire_pkt), archRat.arch_rat.Length)
      modifies freeList.free_list, rat.rat, archRat.arch_rat, busyTable.busy_table
      ensures var s := old(Value());
        && freeList.free_list[..] ==
          (if s.recov then Ledger.Rebuild(s.arch, |s.free|) else NextFree(s.free, s.ret, dec, gs, ready))
        && rat.rat[..] == (if s.recov then s.arch else if ready then NextRat(s.rat, dec, gs) else s.rat)
        && archRat.arch_rat[..] == NextArch(s.arch, s.ret)
      ensures busyTable.busy_table[..] ==
        Busy.NextBusy(old(busyTable.busy_table[..]), recov_arch_st, dec, gs, ready, inp, prns)
    {
      var arch := archRat.arch_rat[..];
      NextArchIsFold(arch, pipe_retire_pkt);
      busyTable.Posedge(recov_arch_st, dec, gs, ready, inp, prns);
      freeList.Posedge(recov_arch_st, arch, pipe_retire_pkt, ready, dec, gs);
      rat.Posedge(recov_arch_st, arch, ready, dec, gs);
      archRat.Posedge(pipe_retire_pkt);
    }

    // The pipeline registers around the buffer.
    method PipelineEdge(s: State, inp: Input)
      requires Wf(s) && WfInput(inp) && GroupOk(s, inp) && s.sysExc == sys_exception
      modifies `pipe_rename_pkt, `pipe_retire_pkt, `recov_arch_st, `sys_exception
      ensures pipe_rename_pkt == Next(s, inp).ren && pipe_retire_pkt == Next(s, inp).ret
      ensures recov_arch_st == Next(s, inp).recov && sys_exception == Next(s, inp).sysExc
    {
      hide Grants;
      if Flush(s) {
        pipe_rename_pkt, pipe_retire_pkt, recov_arch_st := NO_LANES, NO_RETIRES, true;
      } else {
        pipe_rename_pkt := if RenameReady(s, inp) then RenamedLanes(s.rat, Decoded(inp), Grants(s)) else NO_LANES;
        pipe_retire_pkt, recov_arch_st := R.RetirePkt(s.rob), false;
      }
      if RetireException(s) {
        sys_exception := true;
      }
    }

    method Posedge(inp: Input, prns: seq<nat>)
      requires Valid() && WfInput(inp) && GroupOk(Value(), inp) && |prns| == 7
      requires RobModule.Contiguous(pipe_rename_pkt)
      requires Ledger.InRange(RetOps(pipe_retire_pkt), archRat.arch_rat.Length)
      modifies this, rob, rob.rob_entry, freeList.free_list, rat.rat, archRat.arch_rat, busyTable.busy_table
      ensures Valid()
      ensures Value() == Next(old(Value()), inp)
      ensures busyTable.busy_table[..] ==
        Busy.NextBusy(old(busyTable.busy_table[..]), old(recov_arch_st), Decoded(inp), Grants(old(Value())),
          RenameReady(old(Value()), inp), inp, prns)
    {
      hide Decoded, Grants;
      var s := Value();
      TablesEdge(inp, prns, Decoded(inp), Grants(s), RenameReady(s, inp));
      rob.Posedge(RobInput(s, inp));
      PipelineEdge(s, inp);
    }
  }
}
