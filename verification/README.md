# Verification of the four-wide out-of-order core

A Dafny model of five parts of the repository, with proofs about every run of each.

* **Rename, retire and recovery** (`Rob`, `RobFifo`, `RobOrder`, `RobModule`, `RobProgress`, `Psel`, `Ledger`, `Rename`, `Backend`,
  `Conservation`, `BackendRuns`, `BackendRedirect`, `BackendProgress`, `Capacity`, `Busy`, `TablesModule`, `BackendModule`): the
  reorder buffer, the free list, the speculative and the committed register maps, the busy table, and the pipeline registers that
  join them.
* **Speculative loads** (`Select`, `Lsq`, `LsqQueue`, `LsqSafety`, `LsqOrder`, `LsqDispatch`, `LsqFresh`, `LsqRuns`, `LsqSource`,
  `LsqBytes`, `LsqProgress`, `LsqStale`, `LsqModule`): the load and store queues, with violation check, kills, sleeping, forwarding and refiring.
* **Bus memory and instruction cache** (`Memory`, `MemoryRuns`, `Icache`, `IcacheMiss`, `MemoryModule`, `IcacheModule`).
* **Transform multiplication** (`Residue`, `Transform`, `Inverse`, `TransformModule`): the recursive in-place number-theoretic
  transform and the multiplication built on it.
* **Staged multiplier** (`Multiplier`, `MultiplierModule`).

`Ring` holds the index arithmetic of circular buffers and `Arith` the division facts the parts share.

One clock edge is one step over all registers: nonblocking assignments read the old state, and of two assignments to one
register the later stands. Each part has a transition function (`Next`) over a value that holds all its registers. For the
parts written as clocked blocks or loops there is also a class or a set of methods that updates fields and arrays in place,
proved equal to that function, and the properties are proved about the function. Widths and depths are parameters: the
reorder buffer has any depth from eight that is a multiple of four, the two memory queues share any even depth from eight,
the memory has any number of tags and any latency from one cycle, the transform any length 2^k with k at least one, the
multiplier any width and any number of stages, at least two, that divides twice the width.

## What the surroundings owe

The modelled parts meet units that are not modelled; their duties are stated as predicates and are the only assumptions.

* `Backend.EnvOk`: decoded lanes name architectural registers, a reported misprediction comes with a broadcast on lane 5,
  nothing is fetched in the recovery cycle (verilog/backend.sv:649-650).
* `BackendModule.FetchContiguous`: the valid lanes of a fetch group are neighbours (verilog/ROB.sv:246-270).
* `RobOrder.ReportsLive`: misprediction reports name live instructions that have not reported.
* `Busy.BroadcastsLive`: a broadcast names an instruction that has not passed the retire register and carries its destination.
  It may come twice, as it does for a load that is answered twice; one that comes only when the instruction stands in the
  retire register must not meet the register being handed out in that very cycle, or the new writer is not marked busy
  (`Busy.LateBroadcastIff`).
* `LsqQueue.Obliged`: a load or store executes once, while it is queued; loads and stores retire in dispatch order, loads
  written back and stores executed; the data cache answers fired loads only, apart from killed answers
  (verilog/ldq.sv:637); a group dispatched in the cycle of a flush is the last one, because that flush is an exception's
  (`BackendRuns.GroupInFlushIsLast`). `LsqRuns.Credit`: a group comes only after a cycle in which the ready wire was high.
  `LsqSource.Answers`, where it matters which data arrives: the cache drops killed requests and answers every other accepted
  request once.
* In `Icache`, the cache sees a response only to its own command, and the fetch address is stable within a cycle.

## Where the code does less than it promises

* **A stale load** (`LsqFresh.WritebackFreshIff`, `LsqStale.StaleRun`). The violation check looks for loads that hold data, are
  being answered, have fired, or are being accepted. A request that the data cache does not accept in the cycle in which an
  older store to its word executes is none of these, yet the comparison made in that cycle may forward from an older store.
  Written-back data is fresh if and only if it does not come from such a comparison, and a run in which it does is given.
  While the cache accepts in every cycle in which a store executes, no load is ever stale.
* **A reset address that never hits** (`IcacheMiss.ColdStartHitsIff`). The last-address registers are reset to the line
  (tag 255, index 31), so the first fetch of exactly that line is not an address change and is never requested, although the
  comment at cache/icache.sv:56-57 expects the address to change after reset.
* **Aliased addresses** (`Icache.HitIgnoresHighBits`, `IcacheMiss.AliasedHit`). Lines are told apart by address bits 15 to 3
  only, so a hit shows the word at the address reduced to its low 16 bits, which is the address itself if and only if it lies
  below 64 KB. For every address outside the reset line, those beyond the memory included, a run is given in which it hits.
* **Accesses across a word boundary** (`LsqOrder.ForwardedCovers`, `LsqOrder.CoveringForwards`). The last byte lane of an access is
  kept in two bits, so for an access that runs over its word it is counted from the next one. A load that runs over its word may
  then be forwarded from a store inside the word that does not write all its bytes, and a store that runs over its word may not
  be forwarded from although it does. Both conditions are exact; accesses that both stay inside or both run over are
  answered correctly.
* **A conflicting store that fires meanwhile** (`LsqSource.Passing`). A load whose only matching store does not write all its bytes
  is put to sleep, except when that store fires in the very cycle of the comparison; then the load keeps its request, and whether
  the cache has taken the store first is the cache's affair.
* **Latency and tags** (`MemoryRuns.SlowMemoryRejects`). The memory accepts every valid request if and only if the latency is
  below the number of tags, 10 and 15 in sys_defs.svh, 7 and 15 in verilog/sys_defs.svh.

## Model

| member | source | states |
|---|---|---|
| RobFifo.StepRefinesFifo | verilog/ROB.sv:80-139 | one edge without a flush drops the retiring prefix of the queue of live entries, marks completions, and appends the dispatched group in lane order |
| RobFifo.StepKeepsInv | verilog/ROB.sv:213-275 | valid entries are exactly the circular window from head to tail, and no live entry is overwritten |
| RobFifo.ReadyCredit | verilog/ROB.sv:103-123 | the ready wires are high for k slots exactly if, after this edge, that many slots are free and no misprediction is held |
| RobFifo.RetireWithinWindow | verilog/ROB.sv:64-78 | retirement takes a prefix of the window and never passes the tail |
| RobFifo.FlushEmpties | verilog/ROB.sv:131-134 | a flush leaves an empty queue and no held misprediction |
| RobOrder.RetiredPrefix | verilog/ROB.sv:64-78 | the retired entries are complete, at most one is a branch, and only the last may ask for a flush |
| RobOrder.DispatchTagIsSeq | verilog/ROB.sv:343-384 | the tag given at dispatch is the program-order number modulo twice the depth |
| RobOrder.TagIsSeqMod | verilog/ROB.sv:88-89 | index and wrap bit together are the number modulo twice the depth |
| RobOrder.OlderTagIsOlder | verilog/ROB.sv:177-180 | for live tags the wrap-bit comparison holds if and only if the first is older in program order |
| RobOrder.StepKeepsMisp | verilog/ROB.sv:162-185 | the redirect register keeps the target of the oldest live misprediction in whatever order they are reported |
| RobOrder.RedirectIsOwnTarget | verilog/ROB.sv:162-185 | when a mispredicted branch retires, the redirect wire carries the target reported for that branch |
| RobModule.ReorderBuffer.Posedge | verilog/ROB.sv:126-275 | the clocked blocks, entry by entry in place, perform exactly one step of the transition function |
| RobModule.LaneTagIsSeq | verilog/ROB.sv:343-384 | the nested lane tests of the tag response give each valid lane the tag of its own number |
| RobProgress.RetiresLongestPrefix | verilog/ROB.sv:64-78 | n instructions retire if and only if the first n are complete, only the last of them asks for a flush and at most one is a branch |
| RobProgress.FrontRetires | verilog/ROB.sv:64-68 | the first lane retires exactly if the oldest instruction is complete, and each lane carries its instruction and misprediction mark |
| RobProgress.DispatchedEntry | verilog/ROB.sv:190-209 | the entry a lane's tag names is that instruction, complete exactly if it is a NOP or raises an exception, and not mispredicted |
| RobProgress.LiveEntry | verilog/ROB.sv:213-236 | in every run a live instruction is complete exactly if it needs no execution or was broadcast since its dispatch, and marked mispredicted exactly if its first broadcast said so |
| RobProgress.FrontInstruction | verilog/ROB.sv:64-78 | an instruction at the front retires exactly if it needs no execution or was broadcast |
| Psel.GrantsDistinct | verilog/psel_gen.v:41-95 | the selector's grants are requests and pairwise distinct |
| Psel.GrantsAll | verilog/psel_gen.v:41-95 | with at least four requests all four lines grant |
| Psel.GrantsEach | verilog/psel_gen.v:41-95 | with at most four requests every request is granted |
| Rename.NextArchIsFold | verilog/arch_rat.sv:19-33 | a retire group updates the committed map as its valid lanes applied in order |
| Rename.RatIsFold | verilog/rat.sv:83-103 | a renamed group leaves the map its instructions applied in order leave |
| Rename.PrevIsRat | verilog/rat.sv:113-213 | the previous mapping given to a lane is the map entry its elder lanes leave |
| Rename.GroupIsFresh | verilog/rat.sv:50-78 | the destinations of an accepted group are free, distinct and nonzero, and register 0 for lanes without a destination |
| Rename.ForwardedIsRelease | verilog/free_list.sv:60-66 | the forwarded free vector is the free list with this cycle's retired mappings returned |
| Rename.NextFreeIsTake | verilog/free_list.sv:70-108 | freeing and reallocating in one cycle nets out to release first, take second |
| Ledger.CommitKeepsBalance | verilog/free_list.sv:87-96 | committing one instruction, which frees its previous mapping, keeps every register in exactly one place |
| Ledger.RenameKeepsBalance | verilog/free_list.sv:97-106 | renaming onto a free register keeps every register in exactly one place |
| Ledger.RebuildBalances | verilog/free_list.sv:74-86 | the list rebuilt from the committed map balances with nothing in flight |
| Conservation.StepKeepsInv | verilog/backend.sv:609-661 | ordinary, flush and recovery steps keep the ledger of registers and the speculative map |
| Conservation.RoomWhenReady | verilog/free_list.sv:1-4 | an accepted group finds at least PRF - ARF - ROB registers free |
| Conservation.NeverStarves | verilog/free_list.sv:61-65 | with PRF >= ARF + ROB + 4 each lane of an accepted group is granted its own free nonzero register |
| Capacity.SmallFileStarves | verilog/free_list.sv:1-4 | for every smaller register file a run from reset is constructed in which an accepted lane with a destination gets no register |
| BackendRuns.RegistersConserved | verilog/backend.sv:199-200 | in every reachable state outside recovery each nonzero register is free, or mapped, or the destination of one instruction in flight, and only one of these; register 0 is never free |
| BackendRuns.AcceptedGroupsAreGranted | verilog/backend.sv:407-410 | in every reachable state outside recovery rename never starves |
| BackendRuns.ArchIsLogFold | verilog/arch_rat.sv:19-33 | the committed map is, in every reachable state, the fold of all instructions that passed the retire register |
| BackendRuns.ProgramGrows | verilog/backend.sv:216-239 | without a flush the stream of committed and in-flight instructions only grows at the young end |
| BackendRuns.PreciseRecovery | verilog/backend.sv:641-653 | after a flush the stream is cut exactly behind the flushing instruction, and committed map, speculative map and free list are those of the part kept |
| BackendRedirect.FetchRestartsAtOwnTarget | verilog/backend.sv:633-640 | fetch restarts at the target reported for the retiring branch itself |
| BackendProgress.AcceptedInRuns | verilog/backend.sv:407-410 | in every run a group is in the rename register exactly if there was one, every consumer had room, four buffer slots stay free, and there was no exception, no flush and no held misprediction; the free list and the map move for nothing else |
| BackendProgress.AcceptedIff | verilog/backend.sv:216-239 | the same for one edge from any state of the invariant |
| BackendProgress.LanesCarryFetch | verilog/decode_rename.sv:104-124 | each lane of an accepted group keeps what was decoded |
| BackendProgress.ProgramIsFetched | verilog/backend.sv:216-239 | between flushes the instruction stream grows by exactly the accepted groups, as decoded |
| BackendProgress.RecoversIff | verilog/backend.sv:625-653 | recovery follows exactly the cycle in which a mispredicted instruction or one with an exception is in the retire register |
| BackendProgress.BuffersRun | verilog/ROB.sv:213-275 | the buffer of every back end run is a run in the sense of RobProgress |
| BackendProgress.FrontCommits | verilog/backend.sv:609-661 | an instruction at the front that needs no execution or was broadcast is in the retire register one edge later, and if it was reported mispredicted or raises an exception the machine recovers another edge later |
| BackendRuns.MispFlushFindsNoGroup | verilog/backend.sv:216-239 | no group waits in the rename register in the cycle of a misprediction's flush |
| BackendRuns.GroupInFlushIsLast | verilog/backend.sv:407-410 | a group dispatched in the cycle of a flush is the last one for good |
| Busy.RunKeepsBusy | verilog/busy_table.sv:88-120 | in every reachable state outside recovery a busy bit is set exactly if a live writer of that register has not broadcast, repeated broadcasts included |
| Busy.LateBroadcastIff | verilog/busy_table.sv:88-120 | a broadcast for an instruction already in the retire register leaves the bit right if and only if the register is not handed out in that cycle |
| Busy.ReadyExactly | verilog/busy_table.sv:33-61 | a lane is told its source is ready exactly if no elder writer, in flight or in its group, is still without a broadcast after this cycle |
| Busy.SourceIsProgramOrder | verilog/rat.sv:113-213 | a source is looked up in the map that all elder instructions leave |
| TablesModule.ArchRat.Posedge | verilog/arch_rat.sv:19-33 | the in-place update, last valid lane winning, is the committed map's step |
| TablesModule.Rat.Posedge | verilog/rat.sv:83-103 | the in-place update or copy is the speculative map's step |
| TablesModule.FreeList.Posedge | verilog/free_list.sv:70-108 | the in-place sets and clears, or the rebuild, are the free list's step |
| TablesModule.BusyTable.Posedge | verilog/busy_table.sv:88-120 | the in-place sets and clears are the busy table's step |
| BackendModule.BackEnd.Posedge | verilog/backend.sv:213-239 | buffer, tables and pipeline registers clocked together perform one step of the whole back end |
| BackendModule.EdgePossible | verilog/backend.sv:202-203 | every reachable state meets the preconditions of the next edge |
| Select.OldestIsFirstInRing | verilog/ldq.sv:200-221 | scanning the doubled, age-masked vector finds the first request going round from head |
| Select.OldestIndex | verilog/ldq.sv:286-308 | the selection loop returns the oldest request of the circular queue |
| Select.LowestIndex | verilog/ldq.sv:191-199 | the default selection loop returns the lowest request |
| Select.YoungestIndex | verilog/stq.sv:249-258 | the forwarding loop returns the last hit of the doubled vector and whether there is one |
| Select.YoungestIsLastInRing | verilog/stq.sv:214-258 | that hit is the last request of the circular run that ends at the youngest store |
| LsqQueue.StqStep | verilog/stq.sv:130-173 | the slots from head to tail are valid, the retired ones a prefix that survives a flush, only the head is requested to fire, and a slot outside is free or an orphan without address that no pointer reaches |
| LsqQueue.WindowIsValid | verilog/stq.sv:359-392 | while there is no orphan the valid slots are exactly the window |
| LsqQueue.OrphansFromFlush | verilog/stq.sv:352-392 | an orphan comes only from a store dispatched in the cycle of a flush, and goes with the next flush |
| LsqQueue.LdqStep | verilog/ldq.sv:106-150 | valid loads are exactly the window between the load pointers |
| LsqQueue.ReadyCredit | verilog/lsq.sv:71 | the ready wire promises room for four loads and four stores one edge later, and without a flush it is high whenever there will be |
| LsqSafety.CoreStep | verilog/ldq.sv:600-634 | a load marked for replay is neither fired nor holding data, a written-back load has data and resolved elders, and the request register names a waiting load, after every edge |
| LsqSafety.RetiringIsClean | verilog/ldq.sv:683-686 | a retiring load is not marked for replay and the same edge does not mark it |
| LsqSafety.WrittenBackIsFinal | verilog/ldq.sv:164-171 | no violation can hit a load that has written back or does so now |
| LsqSafety.NamedLoadsAreLive | verilog/ldq.sv:636-646 | loads that execute, are requested, answered, put to sleep or written back are in the queue |
| LsqOrder.LaneMaskIs | verilog/lsq.sv:117-124 | the masks chained through a group are the unfired stores and the stores of earlier lanes |
| LsqOrder.LaneYoungestIs | verilog/lsq.sv:92-113 | the index sums name the slot of the last store dispatched before the lane |
| LsqDispatch.LoadRespIsAllocated | verilog/ldq.sv:692-756 | the case table answers a load's lane the slot that is allocated with that lane's mask and youngest store |
| LsqDispatch.StoreRespIsAllocated | verilog/stq.sv:425-487 | the case table answers a store's lane a free slot, which gets that lane's number in program order |
| LsqOrder.OrderStep | verilog/ldq.sv:575-595 | masks, youngest stores and sleepers keep their meaning over every edge, with flushes and stores firing in the dispatch cycle |
| LsqOrder.MaskIsOlderStores | verilog/ldq.sv:361-577 | a live load's mask is exactly the set of unfired stores dispatched before it |
| LsqOrder.NumberAfterIs | verilog/stq.sv:130-173 | the number of a slot after the edge is its number in the next state |
| LsqOrder.NumberStays | verilog/stq.sv:412-417 | a store keeps its program-order number until it fires or is dropped |
| LsqOrder.NumberAtDispatch | verilog/stq.sv:359-392 | a dispatched store enters a free slot and gets the next number |
| LsqOrder.ForwardsFromYoungest | verilog/stq.sv:213-258 | forwarding answers from the youngest older store to the word whose address is known |
| LsqOrder.SleeperIsWoken | verilog/ldq.sv:580-595 | a sleeper waits for an unfired older store, and the fire of that store, a violation or a flush ends the wait |
| LsqOrder.ForwardedCovers | verilog/stq.sv:223-240 | a store forwarded from writes every byte the load reads, if and only if the load's end does not wrap |
| LsqOrder.CoveringForwards | verilog/stq.sv:223-240 | a store that writes every byte is forwarded from, if and only if the store's end does not wrap |
| LsqOrder.MisalignedCovers | verilog/stq.sv:223-240 | an instance of each failure |
| LsqFresh.InvStep | verilog/ldq.sv:600-634 | every edge keeps, for each fired or filled load, that its source saw all older stores to its word exactly unless one was overlooked |
| LsqFresh.ComparedFresh | verilog/ldq.sv:165-170 | a comparison the violation check lets pass misses a store exactly if the request is unaccepted while that store executes |
| LsqFresh.WritebackFreshIff | verilog/ldq.sv:267-274 | at writeback all older stores unfired at dispatch are resolved, and strictly before the data was chosen exactly unless the comparison was overlooked |
| LsqRuns.NoMarkedLoadRetires | verilog/ldq.sv:683-686 | the claim of the retirement assertions, for every run |
| LsqRuns.MasksInRuns | verilog/lsq.sv:92-124 | the meaning of the masks, in every reachable state |
| LsqRuns.SleepersInRuns | verilog/ldq.sv:580-595 | in every reachable state a sleeping entry names a store that has not fired |
| LsqRuns.WritebacksInRuns | verilog/ldq.sv:267-274 | for every run, written-back data is fresh if and only if its source was not overlooked |
| LsqRuns.PromptCacheIsFresh | verilog/ldq.sv:244 | if requests are accepted in every cycle in which a store executes, all written-back data is fresh |
| LsqProgress.RequestsInRuns | verilog/ldq.sv:177-238 | in every run the next request is valid exactly if some load is ripe for it, and then names the first ripe load, the oldest in the oldest-first build |
| LsqProgress.ViolationIsTooEarly | verilog/ldq.sv:161-170 | the violation check finds exactly the loads whose data source does not see every older store to their word |
| LsqProgress.ReplayInRuns | verilog/ldq.sv:597-618 | in every run such a load is marked and loses its data, is requested or ripe one edge later, and if no other is ripe it is the next request |
| LsqProgress.KillIff | verilog/ldq.sv:250-253 | a request is killed exactly if a store answers it or conflicts with it, or its source was too early |
| LsqProgress.LoadEntryMoves | verilog/ldq.sv:579-634 | exactly when a load is marked, has data, is running and sleeps after the edge |
| LsqProgress.WritesBackIff | verilog/ldq.sv:267-311 | a load writes back exactly if the lane is free, its data is at hand, all its older stores have addresses, and it is the first such load |
| LsqProgress.WrittenBackIff | verilog/ldq.sv:643-644 | and is on record as written back from then until it retires |
| LsqProgress.ForwardsIff | verilog/stq.sv:223-345 | a request is answered by the youngest older store seen exactly if that store covers it, and put to sleep exactly if it does not and is not firing |
| LsqProgress.StoreRequestIff | verilog/stq.sv:179-207 | the head of the store queue is offered to the cache exactly while a retired store waits and none is taken, and a taken store leaves |
| LsqProgress.OldestLoadCompletes | verilog/ldq.sv:177-311 | the oldest load without older stores is requested at once, runs from acceptance to the answer and is written back in the cycle of the answer, whatever else happens |
| LsqSource.SourceStep | verilog/stq.sv:213-258 | every edge keeps, for each load with data or an accepted request, that its source is the youngest older store the comparison saw, or the cache if it saw none |
| LsqSource.SourcesInRuns | verilog/ldq.sv:267-311 | in every run, fresh data written back was forwarded from the youngest older store to the word that had not fired at the comparison, or comes from the cache if all had fired |
| LsqSource.AnswersFindNoData | verilog/ldq.sv:620-631 | the cache never overwrites data a load already holds |
| LsqBytes.QueuesHoldExecuted | verilog/stq.sv:394-405 | in every reachable state the queues hold exactly the addresses and sizes that stores and loads were executed with |
| LsqBytes.ForwardedBytesInRuns | verilog/stq.sv:223-240 | a load whose data is written back from a store reads only bytes that store was executed to write, exactly unless the load's end wraps |
| LsqStale.StaleRun | verilog/ldq.sv:165-170 | a run from reset in which a load writes back stale data |
| LsqModule.ClockLd | verilog/ldq.sv:359-681 | the entry's assignments in their order, the later standing, give the step of one load entry |
| LsqModule.LoadStoreQueue.Posedge | verilog/ldq.sv:131-344 | both queues clocked in place perform one step of the transition function |
| Memory.ScanIs | testbench/mem.sv:58-84 | the loop's effect on every tag, the response and the reply, under the invariant |
| Memory.StepKeepsInv | testbench/mem.sv:58-84 | nonzero countdowns stay pairwise distinct and no load is left waiting for the bus |
| Memory.NeverRejects | testbench/mem.sv:58-76 | with latency below the number of tags a valid request always gets a tag |
| Memory.TagsNotShared | testbench/mem.sv:62-65 | a tag is given only when no transaction or reply uses it |
| MemoryRuns.ReplyIffAccepted | testbench/mem.sv:78-83 | a reply comes exactly lat edges after each accepted load, under its tag, with the word as of acceptance, and never otherwise |
| MemoryRuns.FastMemoryAccepts | testbench/mem.sv:58-76 | in every run with latency below the tag count a request is answered if and only if its address is aligned and inside the memory |
| MemoryRuns.WordsAre | testbench/mem.sv:66-76 | each word of memory is what was stored to its address last |
| MemoryRuns.SlowMemoryRejects | sys_defs.svh:68-77 | with latency at or above the tag count there is a run that turns a valid request away |
| MemoryModule.BusMemory.Negedge | testbench/mem.sv:50-88 | the loop of blocking assignments over the arrays is one step of the memory |
| Icache.TagNamesPendingLoad | cache/icache.sv:45-66 | a nonzero current_mem_tag names a load in progress of exactly the last-address line |
| Icache.ValidLineIsMemoryWord | cache/cachemem.sv:22-37 | every valid line holds the memory word at the acceptance of its fill |
| Icache.HitIsMemoryWord | cache/icache.sv:16-31 | a hit shows a word memory held at the address reduced to 16 bits, which is the address if and only if it is below 64 KB |
| Icache.HitIgnoresHighBits | cache/icache.sv:26-31 | an address hits, and shows the same word, if and only if its low 16 bits do |
| Icache.HitShowsMemory | cache/icache.sv:16-17 | below 64 KB, for a word nobody stores to, a hit shows memory[address] |
| Icache.BusCarries | cache/icache.sv:41-43 | the cache asks for the fetched line exactly while a miss of it is outstanding |
| Icache.HitStays | cache/cachemem.sv:22-37 | a line that hits goes on hitting until a reset or a fill of its slot with another tag, with the same data until a fill |
| Icache.OtherLinesStay | cache/cachemem.sv:22-37 | fetching lines of other slots takes no line away |
| Icache.ResetEmpties | cache/cachemem.sv:25-29 | a reset at any time empties the cache |
| IcacheMiss.MissTakes | cache/icache.sv:33-68 | a held missing address hits lat + 1 cycles after its request is first granted, not before, with the word as of that cycle |
| IcacheMiss.ColdStartHitsIff | cache/icache.sv:55-59 | after reset a held address hits if and only if it is not in the line the registers are reset to |
| IcacheMiss.AliasedHit | cache/icache.sv:26-31 | for every address outside the reset line, however high, a run is constructed in which it hits with the word of its low 16 bits |
| IcacheModule.InstructionCache.Posedge | cache/icache.sv:54-68 | registers and storage clocked in place perform one step of the cache |
| Transform.StopsAtLengthOne | test_progs/dft.c:33-35 | the recursion stops at root one exactly when the length is one |
| Transform.Butterfly | test_progs/dft.c:47-51 | the butterflies turn the transforms of the halves into both halves of the transform |
| Inverse.Orthogonal | test_progs/dft.c:81-83 | powers of the root other than one sum to zero, for prime and composite modulus |
| Inverse.TransformInverts | test_progs/dft.c:74-85 | transforming with the inverse root and scaling by the inverse length undoes the transform |
| Inverse.ReadAtRoot | test_progs/dft.c:81-88 | evaluating the back-transform at the root yields the second transform value |
| TransformModule.ParamsFit | test_progs/dft.c:14-19 | for every k the constants are a root, its inverse and the inverse of the length |
| TransformModule.ProgramConstants | test_progs/dft.c:14-19 | for k = 3 they are the constants of the program |
| TransformModule.ModuloM | test_progs/dft.c:21-29 | repeated addition and subtraction give the remainder, also of negative numbers |
| TransformModule.DftInPlace | test_progs/dft.c:31-54 | the recursive in-place procedure leaves the polynomial at the powers of the root and the rest of the array alone |
| TransformModule.ToPoly | test_progs/dft.c:56-67 | the array receives the low bits, lowest first |
| TransformModule.BitsEval | test_progs/dft.c:56-67 | those bits write the number modulo 2^n, also for negative numbers |
| TransformModule.Mult | test_progs/dft.c:69-91 | the result is the product of the low n bits of both operands modulo 2^(n/2) + 1, so x * y modulo it for n-bit operands |
| Multiplier.StageKeepsWhole | mult.sv:61-75 | a stage keeps product + mplier * mcand modulo 2^(2 * XLEN) |
| Multiplier.PipelineMultiplies | mult.sv:18-43 | operands started in any cycle come out NUM_STAGE cycles later as their signed, mixed or unsigned product, whatever enters behind them, with done exactly if started and not reset meanwhile |
| Multiplier.SignedProductExact | mult.sv:18-27 | with a signed operand the pipeline's double-width result, as two's complement, is the exact product of the operands started NUM_STAGE cycles before |
| Multiplier.UnsignedProductExact | mult.sv:18-27 | without one the pipeline's result is the exact product |
| Multiplier.Halves | mult.sv:26-27 | the upper half of the pipeline's result is the exact product divided by 2^XLEN, rounded down, modulo 2^XLEN, the lower half its remainder |
| MultiplierModule.Pipeline.Posedge | mult.sv:68-83 | the stages clocked in place perform one step of the pipeline |

## Left out

- Retire-side tags of lanes 1 to 3: they use the head's wrap bit even where the index wraps, so tags are claimed at dispatch only.
- Instruction words, operands, immediate values and the functional units: decoding, execution and issue selection.
- The reservation stations and the branch table: their ready wires are inputs of the back end.
- Data words in the load and store queues: what is proved is which store, or the cache after which request, a load's data comes from, and when.
- That each load writes back exactly once: a request repeated while it is not accepted can be answered by a store twice.
- Progress of loads that still have older stores: no bound is proved on how often such a load may be killed.
- The data cache, the newer instruction cache controller, and the conservative load queue of the other build.
- Reset during operation of the queues and the back end, gate delays, and undefined values: reset is the initial state, and a bus that carries nothing carries zero.
- The byte-sized interface of the memory's other branch, and the narrowing of its 16-bit countdown: the latency is the value after narrowing.
- The 16-bit type of the transform program: with modulus 17 all values lie between -256 and 272, so nothing is cut off there; for other lengths the integers are unbounded.
- Multiplier with one stage: its part-selects would be empty or reversed.
- The other workloads, test benches, scripts and viewers.
