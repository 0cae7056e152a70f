# A verified model of a cycle-level memory simulator

The system is a cycle-level simulator of main memory: DRAM devices described by timing tables, the
controller of a Hybrid Memory Cube vault, the links and the switch of a stack's logic layer, address
slicing, write-back caches, several variants of refresh and of subarray parallelism, and the
breadth-first search that is one of its workloads.  This project models what those parts do in every
cycle and proves what holds in every run.

`dafny verify dfyconfig.toml` checks the whole project.

## The parts

| modules | what they model |
|---|---|
| Device, History, BankState, Activity | the timing tables of an HMC vault and of a DDR3 channel, and what a command history means: which commands it allows, which rows it leaves open, and how many requests are being served |
| States | the same states and next commands, told from the past commands alone |
| Safety, Rules | what obeying the checks buys over whole runs, and that the checks demand the device's rules and nothing else |
| DramTree | the tree of nodes that the simulator keeps instead of a history, updated in place |
| Scheduler, RowTable | the choice of the next request, and the controller's record of open rows |
| Wrappers | the optional value and the maximum, shared by the others |
| Tally, Vault | one vault controller as a state machine over packets arriving, cycles and responses leaving |
| VaultRows, VaultRequests, VaultRefresh, VaultActivity, VaultColumns, VaultOrder, VaultRuns, VaultReads | invariants of that machine, and what they say of every run |
| VaultProgress, VaultAnswers | what that machine gets done, and within how many cycles |
| Controller | the same controller as a class over the tree and the row table, updated in place |
| CacheLines, Memory, CacheTree, NmpCache | cache sets, the queues shared by all caches, eviction from a tree of inclusive caches, and the one-level cache of a near-memory core |
| Graph, ParallelBfs, BfsRuns, SequentialBfs | distances in a graph, one atomic step of the parallel search, its runs under every schedule, and the sequential search |
| Bits, AddressMap | shifting and masking, and the three ways to slice an address |
| Dsarp | per-bank refresh with credit |
| Salp | SALP-1, SALP-2 and MASA |
| Links | tokens, buffers, order and bandwidth of the links, and the switch |
| Stack, LogicLayer | links and vaults together, from the host's packets to their responses, and a cycle of the logic layer as a path of the whole |

How the model relates to the code:

- A component whose methods update its fields is a class with those fields (`Node`, `RowTable`, `Controller`,
  `Cache`, `NmpCache`, `CacheSystem`, `Scheduler`, `Device`, `Link`, `Switch`).  Its methods are tied to specification
  functions or to the history that led to the state; the lemmas are about those.
- Tables keep their timing parameters symbolic: the results hold for every speed and every organization.
- The scheduler asks each queued request three questions (is its next command ready, is its row open, is some row of its
  bank open); they are answered before the queue is scanned, which nothing in the scan can change.
- Random choices are nondeterministic.  The answers of other components (whether memory takes a request, whether a
  vault takes a packet) are parameters.
- Assumptions about the vault controller: normal DRAM latency, the `Opened` row policy, the `FRFCFS_PriorHit`
  scheduler, packets that are reads and writes with distinct ids for banks that exist, at least one column command per
  request, and a read latency above one (`Vault.Usable`).  Only the results about refresh need that a refresh is over
  before the next one is due (`VaultRefresh.Timely`).  The speed grades of the device meet all of this, with any
  payload of at least two flits (`VaultRuns.CubesAreUsable`).

Where the code and its comments disagree, the model follows the code:

- In `wrp` (`src/Refresh.cpp:203-214`) a comment announces a random choice among idle banks.  The bound of the choice is
  the position of the first bank other than number 0 in the order of demand, which is 0 or 1, so the bank that is first in that
  order is always chosen (`Dsarp.Scheduler.PickBank`).
- `invalidate` (`src/Cache.cpp:212-261`) reads the dirty bit of a line after it has erased the line; the model reads it
  before.
- A packet is kept for its response header even if its request is then refused (`src/HMC_Controller.h:563-575`); the model
  does the same.

## Model

| member | source | states |
|---|---|---|
| History.FastRefinesHistory | src/DRAM.h:354-408 | The one clock that a node keeps per command answers exactly the question that the full history answers: for every history with non-decreasing clocks, `next[c] <= clk` if and only if every entry of the node's tables that ends in `c` has elapsed since the `dist`-th most recent matching command, sibling entries counting commands aimed at another child of the same parent |
| History.WindowIsRecentPast | src/DRAM.h:371-375 | The bounded `prev` window of a node holds exactly its most recent clocks, latest first, with -1 where there were fewer commands |
| History.StepAllows | src/DRAM.h:377-386 | One more command adds exactly the constraints of its own table entries and removes none |
| History.AllowsStep | src/DRAM.h:269-280 | The check of a command is the conjunction of the node's own answer and that of the child it descends to, down to its scope, a leaf, or an unspecified index |
| DramTree.Node.constructor | src/DRAM.h:192-231 | A new tree has one child per index at every level down to the banks and represents the empty history: no command seen, nothing open, nothing served |
| DramTree.Node.Check | src/DRAM.h:269-280 | The recursive check over the tree returns true exactly if the command is allowed by the whole history at every node from this one down to the command's scope |
| DramTree.Node.GetNext | src/DRAM.h:315-324 | The loop down the tree returns the earliest clock, not before the current one, from which on the command is allowed at every node on its way: for all later clocks, `clk >= get_next` if and only if the history allows the command |
| DramTree.Node.UpdateTiming | src/DRAM.h:354-408 | Recording a command brings the `next` and `prev` of every node of the tree, targets, siblings and all nodes below, from the history before to the history after it |
| DramTree.Node.UpdateState | src/DRAM.h:338-349 | Recording a command brings the state and the open rows of every node from the history before to the history after it, including the banks that a close-all command reaches from above |
| DramTree.Node.Transition | src/HMC.cpp:172-210 | The state lambdas: what a command does to the node it passes, and to all banks below for a close-all, and that nothing else changes |
| DramTree.Node.OwnPrereq | src/HMC.cpp:83-137 | The prerequisite that a node's state asks for is the one that the history says |
| DramTree.Node.DecodeCommand | src/DRAM.h:250-264 | The recursive decode returns the first prerequisite on the way down that the history calls for, or the command itself |
| DramTree.Node.RowQueries | src/DRAM.h:285-312 | The row-hit and row-open queries are true exactly if, after the history, the addressed bank is not closed, and holds that row |
| DramTree.Node.Update | src/DRAM.h:328-333 | After issuing a command the whole tree represents the history with that command added |
| DramTree.Node.UpdateServing | src/DRAM.h:411-449 | Reporting that a request starts or finishes brings the counters of every node on its way to those of the longer log, the count never goes below zero, and other nodes keep theirs |
| Safety.RunsAreSafe | src/DRAM.h:354-408 | In any run that passes its checks, two commands that a table entry relates at a common node are at least `val` cycles apart, counting `dist` occurrences back |
| Safety.AnyTwoAreSafe | src/DRAM.h:377-386 | The instance for entries that look back one command: any two related commands of a run, adjacent or not, keep the distance |
| Safety.SiblingsAreSafe | src/DDR3.cpp:267-283 | The same between different children of one parent, as the rank-to-rank entries demand |
| Safety.RollingWindow | src/DRAM.h:371-386 | An entry from a command to itself with distance `d` and value `w` means that no `w` consecutive cycles of a run hold more than `d` of these commands at the node |
| Safety.FourActivatesPerVault | src/HMC.cpp:266 | Any nFAW consecutive cycles of a run hold at most four activates per vault |
| Safety.FourActivatesPerRank | src/DDR3.cpp:302 | Any nFAW consecutive cycles of a run hold at most four activates per rank |
| Safety.VaultRunsAreSpaced | src/HMC.cpp:213-346 | Any two commands of a run, adjacent or not, keep the device's rules: nRCD, nRAS, nRC, nRP, nRTP and write recovery within a bank; nCCDL, nWTRL and nRRDL within a bank group; burst, nCCDS, both bus turnarounds, nRRDS, close-all, refresh, power-down and self-refresh rules within a vault |
| Rules.TimesAreRecent | src/DRAM.h:377-386 | Looking back `d` commands at a node is counting: the d-th latest one came after a clock exactly if at least d of them did |
| Rules.HmcAllowsExactly | src/HMC.cpp:213-346 | After any history the check allows a command at a clock if and only if every earlier command at its vault, at its bank group and at its bank keeps the device's rules towards it, and at most three activates of the vault came in the last nFAW cycles before another: no rule is missing and none is added |
| Rules.Ddr3AllowsExactly | src/DDR3.cpp:227-364 | The same for a DDR3 channel: rules of the channel's bus, of the rank, of the bank, between different ranks, and of the four activates of a rank, in both directions |
| Safety.RanksAreSpaced | src/DDR3.cpp:267-283 | Accesses to different ranks of a channel leave the bus time to switch: nBL + nRTRS, and the turnarounds of reads and writes |
| Safety.CloseAllDominatesClose | src/DRAM.h:269-280 | Wherever the rules for closing one bank are covered by rules for closing its whole rank, a rank that may be closed as a whole has only banks that may be closed one by one |
| Safety.HmcCloseAll | src/HMC.cpp:213-346 | In an HMC vault, after any history, PREA ready implies PRE ready at every bank: no bank's nRAS, nRTP or write recovery is cut short |
| Safety.Ddr3CloseAll | src/DDR3.cpp:227-364 | The same for a DDR3 rank |
| Activity.CountersAreCycleSums | src/DRAM.h:411-441 | The count of a node is the number of requests started and not finished below it, and its two sums are the per-cycle sums of that count and of the cycles in which it was positive, up to the last change |
| States.OpenIsActivated | src/HMC.cpp:172-210 | A bank is open after a history exactly if some activate of it was followed by no close of it, precharging access, or close-all of its rank |
| States.RowsAreActivated | src/HMC.cpp:172-210 | Its open rows are exactly the rows of such activates |
| States.PowerIsLast | src/HMC.cpp:172-210 | The state of a rank is given by the last power command alone, and for a power-down by whether a row of it was open at that time; without any it is powered up |
| States.RowsFound | src/HMC.cpp:143-169 | A column command finds its row exactly if an activate of that row was not followed by a close, and some row if any activate was not |
| States.ColumnNeeds | src/HMC.cpp:83-105 | What a column command needs next, in terms of the past commands: the exit from power-down or self-refresh, the activate, the close of another row, or nothing |
| States.RefreshNeeds | src/HMC.cpp:109-116 | A refresh needs a close-all exactly if some activate in its rank was not followed by a close |
| States.SleepNeeds | src/HMC.cpp:118-137 | A power-down waits for the end of self-refresh and a self-refresh for the end of power-down |
| Scheduler.GetHead | src/Scheduler.h:35-104 | The loops return nothing exactly if the queue is empty, and otherwise the oldest ready row hit, or, if there is none, the FR-FCFS best among the requests that close no row that a queued request hits |
| Scheduler.HeadExists | src/Scheduler.h:72-102 | A non-empty queue always has such a request, because the request that hits the protected row is itself never ruled out |
| Scheduler.HeadIsUnique | src/Scheduler.h:106-153 | The choice is determined: only one position of the queue satisfies its specification |
| Scheduler.HeadIsReady | src/Scheduler.h:94-99 | If any request could go on without closing a row that is hit, the chosen one can go on |
| Scheduler.FirstReadyIsHead | src/Scheduler.h:72-102 | In a queue in order of arrival without a ready hit, the first ready request that closes no hit row is the one |
| Scheduler.Scan | src/Scheduler.h:114-153 | Scanning the queue with a comparison finds the request that wins against all others, the earlier position winning ties |
| RowTable.RowTable.Update | src/Scheduler.h:224-259 | The in-place update inserts, counts and erases as the specification of the table says, and none of its assertions fails where the table fits the command |
| RowTable.RecordAfter | src/Scheduler.h:233-258 | What one command does to the record of one bank: opened, counted, erased, or left alone |
| VaultRows.FirstFits | src/Scheduler.h:236-258 | In every lawful state the command that a queued request needs next fits the row table: a column command finds its own row on record, a closing command closes something on record |
| VaultRows.FirstForBank | src/HMC.cpp:94-105 | What a read or write needs next: activate a closed bank, its column command on its own row, close another row |
| VaultRows.FirstForVault | src/HMC.cpp:109-116 | What a refresh needs next: close all banks if one is open, else the refresh itself |
| VaultRows.LawfulStep | src/HMC_Controller.h:921-952 | Every action keeps the issued commands in order and allowed by the timing rules, and the row table in agreement with the open banks |
| VaultRows.CycleIsUsed | src/HMC_Controller.h:762-769 | If any request of the served queue could have its next command issued without closing a row that another one hits, the cycle issues a command |
| VaultRequests.ConservedStep | src/HMC_Controller.h:563-575 | Every action keeps each accepted request in exactly one of the queues, the pending reads, the responses formed or taken away, and the callbacks made |
| VaultRequests.OwedServe | src/HMC_Controller.h:825-849 | Serving a request keeps a packet for every unanswered request, answers only accepted packets with their own headers, and keeps queued reads older than queued writes to the same address |
| VaultRequests.OlderReceive | src/HMC_Controller.h:666-686 | Enqueueing with the forwarding rule keeps every queued read older than every queued write to its address |
| VaultRefresh.MayClose | src/HMC.cpp:249-267 | Within the close wait, max(nRAS, nRTP, nCWL + nBL + nWR), after the last command, all banks may be closed |
| VaultRefresh.MayRefresh | src/HMC.cpp:271-287 | Within the refresh wait after it was due, the refresh itself may be issued |
| VaultRefresh.RefreshAlone | src/HMC_Controller.h:762-783 | While a refresh is queued it alone is served, with close-all or the refresh as its next command, and the command is issued exactly when it is ready |
| VaultRefresh.PromptStep | src/Refresh.h:75-87 | Every action keeps the refresh schedule: one refresh due every nREFI ticks, at most one queued, and the queued one within its wait |
| VaultActivity.AccountedStep | src/HMC_Controller.h:723-746 | Every action changes the count of a node by exactly what it reports; forwarded reads are never counted |
| Vault.RunGoesOn | src/HMC_Controller.h:715-849 | Any valid action can follow any run, so what is shown of the last state of a run is shown of every reachable state |
| VaultRuns.StepCore | src/HMC_Controller.h:715-849 | Every action keeps the joint invariant of queues, rows, timing, conservation, packets and counters, whatever the refresh interval |
| VaultRuns.RunCore | src/HMC_Controller.h:715-849 | The joint invariant holds in every reachable state |
| VaultRuns.RunInv | src/HMC_Controller.h:715-849 | If a refresh is over before the next is due, the refresh schedule and the absence of failed assertions hold in every reachable state too |
| VaultRuns.OnlyRefreshesFail | src/Refresh.cpp:271-291 | In any run, one of the controller's assertions fails if and only if some cycle has a refresh to queue and no room for it |
| VaultRuns.NeverRefuses | src/Refresh.h:75-87 | If the refresh interval is at least the refresh wait, a refresh that is due always has room |
| VaultRuns.CubesAreUsable | src/HMC.h:203-218 | Both speed grades of the table refresh in time, and the device is usable exactly if its payload has the two flits of one column command |
| VaultRuns.CubesNeverFail | src/HMC.h:203-218 | So for every speed grade, organization and such a payload, no assertion fails in any run and refreshes are on time |
| VaultRuns.NoAssertionFails | src/Refresh.cpp:271-281 | If the refresh interval is at least the refresh wait, no assertion ever fails: responses find their packets, refreshes are accepted, commands are ready, and the row table has what it needs |
| VaultRuns.CommandsKeepTheirDistance | src/HMC_Controller.h:921-952 | In every run of the controller, two issued commands that an HMC table entry relates at a common node are at least `val` cycles apart |
| VaultRuns.CommandsAreSpaced | src/HMC_Controller.h:921-952 | In every run of the controller, any two issued commands keep the rules of the vault, of their bank group and of their bank, named by what they relate |
| VaultRuns.FourActivates | src/HMC_Controller.h:921-952 | In every run of the controller, any nFAW consecutive cycles hold at most four activates |
| VaultRuns.RefreshesAreOnTime | src/Refresh.h:75-87 | The k-th refresh is issued no earlier than k times nREFI and less than max(close wait + max(nRP, 1), nRFC) later; at most one is queued, and none is once that wait is over |
| VaultRuns.EachRequestIsInOnePlace | src/HMC_Controller.h:666-849 | In every run an accepted request is in exactly one place and any other in none; once nothing waits, every accepted request was answered exactly once |
| VaultRuns.AnswersMatch | src/HMC_Controller.h:688-713 | Every response answers an accepted packet and carries its cube, tag, link and command, with the length for its kind |
| VaultRuns.RowTableAgrees | src/Scheduler.h:224-259 | In every run a bank is on record exactly if the tree has it open; then the recorded row is the only open row, and `hits` counts the column commands since the activate |
| VaultRuns.HitsAreProtected | src/Scheduler.h:60-93 | In every run, a cycle that closes a bank closes none whose open row a request of the served queue hits |
| VaultRuns.SomethingIsServed | src/HMC_Controller.h:750-765 | After the drain-mode step the served queue is empty only if all queues are |
| VaultRuns.QueuedWritesAreNewer | src/HMC_Controller.h:666-686 | In every run, a queued write that shares its address with a queued read was accepted after that read |
| VaultReads.ArrivalIsPlaced | src/HMC_Controller.h:666-686 | An arriving read joins the read queue if no queued write has its address, and waits for the next cycle instead if one has; a write joins the write queue; a full queue refuses, except from a near-memory core |
| VaultReads.SourcedStep | src/HMC_Controller.h:715-849 | Every action keeps the source of each pending or answered read: an earlier write, or the device |
| VaultReads.ReadsAreSourced | src/HMC_Controller.h:666-849 | In every run a pending or answered read with its whole burst unused has an accepted write to its own address that came before it; any other had a column command of its own, at the address and after its arrival, exactly nCL + nBL cycles before it departs; no read is answered before it departs, and one from a near-memory core gets its callback and no response |
| VaultReads.AnsweredAreReleased | src/HMC_Controller.h:688-743 | In every run the packet of a request is kept until it is answered and not afterwards |
| VaultRuns.CountersAreExact | src/DRAM.h:411-441 | In every run the count of a node is the number of its requests in service, never negative, and its sums are the per-cycle sums |
| VaultColumns.UsedFinish | src/HMC_Controller.h:825-849 | A request's own column command is exactly one more that it has used up, wherever the request goes then |
| VaultColumns.BurstsStep | src/HMC_Controller.h:825-849 | Every action keeps waiting requests with at least one and at most a full burst left, and answered ones with none, or all if they were forwarded |
| VaultRuns.ColumnCommandsAreUsedUp | src/HMC_Controller.h:818-849 | In every run the column commands issued below any node are exactly those that its requests have used up: an answered request its whole burst, a forwarded read none |
| VaultRuns.QueuesAreOrdered | src/HMC_Controller.h:666-686 | In every run each queue is in the order of arrival |
| VaultRuns.FirstHitIsServed | src/Scheduler.h:72-102 | In every run the request that a cycle works on is the first ready row hit of the served queue, if it has one |
| VaultRuns.FirstReadyIsServed | src/Scheduler.h:72-102 | In every run, if no ready row hit is queued, the cycle works on the first request whose next command is ready and that does not close a row of its bank that another queued request hits; if there is none, on nothing |
| VaultRuns.DrainingGoesOn | src/HMC_Controller.h:749-760 | Over any stretch of a run, draining goes on while more writes than the low mark are queued, and serving reads goes on while there are reads and fewer writes than the high mark |
| VaultProgress.NoLongIdle | src/HMC_Controller.h:762-849 | If the controller has something to serve, and no command was issued for as many cycles as the longest rule of the timing tables asks for, the next cycle issues one |
| VaultProgress.ColumnInTime | src/HMC_Controller.h:715-849 | In any run, from any state with a queued read or write, some column command for one is issued within `ServiceTime` cycles if nothing arrives, through changes of the drain mode and refreshes, if these leave room for closing all banks once and three longest waits |
| VaultProgress.QueuesDrain | src/HMC_Controller.h:715-849 | Once nothing arrives, the read and write queues are empty within `ServiceTime` cycles for each column command that they still take |
| VaultAnswers.PendingIsAnswered | src/HMC_Controller.h:723-743 | In any run, also while packets arrive, the pending read at position p is answered exactly once, and gone, p cycles after all reads up to it may depart |
| VaultAnswers.AllIsAnswered | src/HMC_Controller.h:715-849 | Once nothing arrives, every accepted read and write is answered exactly once, within `AnswerTime` cycles, given by the column commands left, the read latency, and the reads queued and pending |
| VaultAnswers.CubesAreRoomy | src/HMC.h:177-218 | No rule of either speed grade asks for more than 200 cycles, and refreshes leave the room that the time bounds need, for every organization with fewer than 8950 banks in a vault; those of the table have at most 256 |
| VaultAnswers.CubesAnswer | src/HMC.h:177-218 | So the bound on answers holds of the device's own numbers |
| Controller.Controller.constructor | src/HMC_Controller.h:201-552 | A new controller stands for the initial state, with its tree and its row table, and satisfies the invariant of runs |
| Controller.Controller.Enqueue | src/HMC_Controller.h:666-686 | The in-place enqueue, with its push and pop for forwarded reads, refuses exactly if the queue is full and the request is not from a near-memory core; a read joins its queue unless a queued write has its very address, and is then pending for the next cycle |
| Controller.Controller.Receive | src/HMC_Controller.h:563-575 | Receiving a packet is one arrival step of the specified machine |
| Controller.Controller.FormResponse | src/HMC_Controller.h:688-713 | Forming a response appends it with the header of the kept packet and releases that packet |
| Controller.Controller.CompleteRead | src/HMC_Controller.h:722-746 | The first stage of a cycle completes the oldest pending read if its time has come, and tells the tree if it was served rather than forwarded |
| Controller.Controller.DrainMode | src/HMC_Controller.h:750-760 | The write-drain hysteresis with its two marks |
| Controller.Controller.TickRefresh | src/Refresh.cpp:271-291 | The refresh timer, and the refresh request it queues, which is accepted if there is room |
| Controller.Controller.Choose | src/HMC_Controller.h:762-783 | The queue served and the position chosen, computed from the tree, are the specified ones |
| Controller.Controller.IssueCommand | src/HMC_Controller.h:921-952 | Issuing updates the tree and the row table to the longer history; the command is ready and the table's assertions hold |
| Controller.Controller.FinishRequest | src/HMC_Controller.h:825-849 | The last column command of a request makes a read pending, answers a write, and removes the request |
| Controller.Controller.Tick | src/HMC_Controller.h:715-849 | If a refresh that is due has room, as the code asserts, one cycle over the tree, the row table and the queues is exactly one cycle of the specified machine, keeps its invariant and fails no assertion |
| Memory.CacheSystem.Tick | src/Cache.cpp:488-523 | Requests that are due are offered in order up to the first that is not due, those refused stay; the hits reported are exactly those that are due, each as often and in the order that it was queued, and the others stay |
| Memory.DueOrNot | src/Cache.cpp:508-522 | Each hit is reported or stays, never both, as often as it was queued |
| Memory.DueSays | src/Cache.cpp:508-522 | What is reported is due, and nothing that is due stays |
| Memory.KeptUnlessTaken | src/Cache.cpp:493-506 | A waiting request, so also the write of an evicted block, disappears only by being accepted by memory when due |
| Memory.KeptInOrder | src/Cache.cpp:493-506 | The requests that stay keep their order |
| CacheLines.BlockIsStretch | src/Cache.cpp:45-48 | A block is a stretch of `block_size` addresses |
| CacheLines.SetsGoRound | src/Cache.h:215-223 | Indices are below the number of sets, the next block is in the next set, and two blocks share a set if and only if their numbers differ by a multiple of the number of sets |
| CacheLines.NeighboursAreApart | src/Cache.h:215-223 | Blocks with numbers less than the number of sets apart never share a set |
| CacheLines.IndexAndTag | src/Cache.h:215-223 | Index and tag together tell blocks apart |
| CacheLines.SliceIsIndexAndTag | src/Cache.h:215-223 | For powers of two the shifts and the mask of the code give this index and this tag |
| CacheLines.AllLinesFit | src/Cache.cpp:35-48 | All lines are in sets below the number of sets, and sets that keep to their size hold at most `assoc` times that number of lines |
| CacheTree.Cache.CheckUnlock | src/Cache.h:150-184 | On an inclusive tree the early-out traversal answers exactly whether no copy in the subtree is locked |
| CacheTree.Cache.NotAbove | src/Cache.h:150-160 | In an inclusive tree, what a cache does not hold no cache above it holds, which justifies stopping there |
| CacheTree.Cache.Invalidate | src/Cache.cpp:212-261 | Every copy of the block in the subtree is gone, nothing else changed, no locked line is met, and the results are the OR of all the dirty bits and the time until the slowest cache above has answered |
| CacheTree.Cache.TimeCoversChains | src/Cache.cpp:212-261 | The delay is at least the time of any chain of caches going up through copies of the block: the latency of each, doubled for each cache with a dirty copy there or above that it passes |
| CacheTree.Cache.TimeIsOfAChain | src/Cache.cpp:212-261 | And it is the time of one of these chains, so the greatest; there is one unless the set is empty |
| CacheTree.Cache.TimeIsBounded | src/Cache.cpp:212-261 | In cycles it is at most 4, 20 or 71 by level, and without dirty copies at most the latency of a lookup of that level |
| CacheTree.Cache.EvictTimeCovers | src/Cache.cpp:274-282 | An eviction waits for the slowest of the caches above and no longer, one transfer more for a dirty copy |
| CacheTree.Cache.EvictLine | src/Cache.cpp:196-209 | The lower cache's line becomes its most recently used one, unlocked, dirty if either copy was |
| CacheTree.Cache.Evict | src/Cache.cpp:264-309 | From an inclusive tree with the block unlocked along its path: all copies in the subtree are gone, the OR of their dirty bits is in the next level down or in one memory write, due once the slowest cache above has answered; other caches are unchanged, and the tree is inclusive again |
| CacheTree.Cache.FindVictim | src/Cache.cpp:360-375 | The victim is the first line that is unlocked here and in all caches above |
| CacheTree.Cache.AllocateLine | src/Cache.cpp:354-383 | A line is allocated exactly if there is room or an evictable line; the new line is locked, clean and last; a full set loses its first evictable line, a block whose number differs by a multiple of the number of sets, with the effects of an eviction; inclusion holds but for the new block; a failure changes nothing |
| NmpCache.NmpCache.Hit | src/Cache.cpp:115-124 | A hit makes the line the most recently used, dirty if it was or on a write, and will be reported after the latency |
| NmpCache.NmpCache.HitMshr | src/Cache.h:186-196 | The search returns an entry for the block if and only if one waits for it |
| NmpCache.NmpCache.JoinMiss | src/Cache.cpp:141-151 | A request for a block on its way changes only the dirty bit of its locked line |
| NmpCache.NmpCache.AllLocked | src/Cache.h:134-148 | A set is full exactly if it has no room and every line is locked |
| NmpCache.NmpCache.EvictVictim | src/Cache.cpp:264-309 | The first unlocked line leaves, and a dirty one is on its way to memory |
| NmpCache.NmpCache.Send | src/Cache.cpp:100-193 | The four outcomes of a request and its whole effect in each; in all of them sets stay within their size with distinct tags in last-touch order, a line is locked exactly if one entry points to it, and a written block is here and dirty until its write is queued; if no newest data was lost, none is; only a block that differs by a multiple of the number of sets can be evicted, and there are at most `assoc` times that number of lines |
| NmpCache.VictimIsLeastRecent | src/Cache.cpp:360-366 | The line evicted is, of all unlocked lines of its set, the one touched longest ago |
| NmpCache.NmpCache.WrittenIsHere | src/Cache.cpp:100-193 | A block written since its last write-back is resident and dirty |
| NmpCache.NmpCache.MissIsAbsent | src/Cache.cpp:415-435 | A block that misses and that no entry waits for is absent, so the assertion against allocating it twice never fails |
| NmpCache.NmpCache.Callback | src/Cache.cpp:438-452 | When data arrives, exactly its line is unlocked and its entry goes, and no newest data is lost; without an entry nothing changes |
| NmpCache.NmpCache.SystemTick | src/Cache.cpp:488-523 | A cycle of the shared queues loses no newest data: a block's stays in its dirty line or in a waiting write until memory takes the newest write of it |
| NmpCache.NmpCache.NewestDataIsSafe | src/Cache.cpp:264-309 | The newest data of a block that was written, and that memory has not taken, is in a dirty line or in a waiting write |
| Graph.BallIsReached | Trace_Extractor/app_instrument/bfs_app/bfs.cpp:84-164 | The distance used as reference is the length of a shortest walk |
| Graph.DistancesAreUnique | Trace_Extractor/app_instrument/bfs_app/bfs.cpp:84-230 | There is at most one assignment of levels that is right for every vertex |
| Graph.TooDeepForLevels | Trace_Extractor/app_instrument/bfs_app/bfs.cpp:132-133 | If some vertex is further away than the largest level below infinity, no assignment of levels is right |
| BfsRuns.RunGoesOn | Trace_Extractor/app_instrument/bfs_app/bfs.cpp:98-158 | After any run any thread may take the next step, and stays within its tasks and lists |
| Graph.SmallIsShallow | Trace_Extractor/app_instrument/bfs_app/bfs.cpp:132-133 | What a caller can check: in a graph with at most as many vertices as the value of infinity, all distances fit below infinity, so both searches are right |
| Graph.LongLineIsDeep | Trace_Extractor/app_instrument/bfs_app/bfs.cpp:132-133 | The input that fails: in a line of more vertices than that, the last vertex is as far away as infinity, and no search can give right levels |
| ParallelBfs.StepInv | Trace_Extractor/app_instrument/bfs_app/bfs.cpp:108-158 | Each atomic step of any thread keeps the invariant of its round: levels set in a round are distances, every vertex won is on one list or in one task list, and barriers separate the phases; the round goes on by one exactly when the last thread has gathered its tasks |
| BfsRuns.RunInv | Trace_Extractor/app_instrument/bfs_app/bfs.cpp:84-164 | That invariant holds under every schedule of the threads, with the round of each thread the number of rounds that it has scanned |
| BfsRuns.LevelsAreNeverWrong | Trace_Extractor/app_instrument/bfs_app/bfs.cpp:124-137 | At every moment under every schedule, a level that is set is the distance of its vertex; when any one thread has scanned k rounds to the end, all vertices within k have their level and none beyond k + 1 |
| BfsRuns.RoundsAreExact | Trace_Extractor/app_instrument/bfs_app/bfs.cpp:108-158 | When a thread enters the loop after k rounds, exactly the vertices within k have a level, their distance, each vertex at distance k is a task of its owner and of no other thread, once, and every thread has scanned k rounds |
| BfsRuns.FinalLevels | Trace_Extractor/app_instrument/bfs_app/bfs.cpp:84-164 | At termination every vertex has its shortest distance, or infinity if it cannot be reached, provided distances fit below infinity |
| BfsRuns.FinalLevelsExactly | Trace_Extractor/app_instrument/bfs_app/bfs.cpp:84-230 | At termination the levels are the distances if and only if all distances fit below infinity, and then they equal the levels of the sequential search |
| BfsRuns.NoDeadlock | Trace_Extractor/app_instrument/bfs_app/bfs.cpp:110-156 | Under every schedule, until all threads are done some thread can move |
| BfsRuns.BusySchedulesEnd | Trace_Extractor/app_instrument/bfs_app/bfs.cpp:84-164 | Under every schedule whose steps move their threads, the search takes at most `MostSteps` steps, a number given by the threads, the vertices and the largest degree |
| BfsRuns.RunCanEnd | Trace_Extractor/app_instrument/bfs_app/bfs.cpp:84-164 | From every state that such steps reach, the search can be completed by more of them |
| BfsRuns.SearchEnds | Trace_Extractor/app_instrument/bfs_app/bfs.cpp:84-164 | Every search can be completed, and then every vertex has its distance |
| SequentialBfs.Bfs | Trace_Extractor/app_instrument/bfs_app/bfs.cpp:166-230 | The queue loop computes every vertex's distance if and only if all distances fit below infinity; for a missing root it changes nothing |
| Bits.MaskIsRemainder | src/HMC_Memory.h:846-852 | A mask of n ones takes the remainder by the n-th power of two |
| Bits.ShrIsDivision | src/HMC_Memory.h:846-856 | A right shift divides by a power of two |
| Bits.JoinIsSum | src/HMC_Memory.h:620-621 | Joining a low part with a shifted high part by OR adds them |
| Bits.CalcLog2 | src/HMC_Memory.h:837-842 | The shifting loop computes the rounded-down logarithm |
| AddressMap.SliceLowerBits | src/HMC_Memory.h:846-852 | Slicing splits an address into its low bits and the rest, losing nothing |
| AddressMap.Send | src/HMC_Memory.h:607-667 | Slicing step by step, in each of the three orders, yields a vector in range whose coordinates are the digits of the aligned address in the mixed radix of that order; it is the specified vector |
| AddressMap.PlaceHasDigits | src/HMC_Memory.h:607-667 | For each order the aligned address is the sum of its coordinates, each times the sizes of those sliced before it |
| AddressMap.PlaceOfAddress | src/HMC_Memory.h:607-667 | The address can be recovered from its vector, for every transaction-aligned address below the capacity: the map is one-to-one |
| AddressMap.AddressOfPlace | src/HMC_Memory.h:607-667 | Every vector in range is the vector of an aligned address below the capacity: the map is onto |
| AddressMap.GetVaultTarget | src/Processor.cpp:1398-1408 | The vault that a core computes is the vault of the full slicing, for all three orders: the address divided by the bytes of a block, modulo the number of vaults |
| AddressMap.Setup | src/HMC_Memory.h:123-143 | For a power-of-two organization the computed widths are exact, and their total is the capacity of the stack |
| Dsarp.DueInRounds | src/Refresh.cpp:109-119 | In q rounds of slots and some more, each bank is due q times, and once more if its slot has come |
| Dsarp.Scheduler.constructor | src/Refresh.cpp:27-43 | The counters start at zero, in agreement with no slot and no refresh |
| Dsarp.Scheduler.TakeSlot | src/Refresh.cpp:113-119 | A slot puts the rank's next bank one refresh behind, never below -8, and moves on to the next bank |
| Dsarp.Scheduler.Grant | src/Refresh.cpp:147-151 | A granted refresh goes to the bank's next subarray in turn and adds one credit |
| Dsarp.Scheduler.EarlyInject | src/Refresh.cpp:46-99 | While reads are served each rank pulls in at most one refresh, for a bank without waiting reads or queued refresh and with credit below -6, and does so whenever there is such a bank and room |
| Dsarp.Scheduler.InjectRefresh | src/Refresh.cpp:102-154 | When due, every rank's next bank loses a credit; which banks are then refreshed at once is exactly those that may not be delayed, or are 8 behind, or are the first while nothing else is going on |
| Dsarp.Scheduler.Wrp | src/Refresh.cpp:165-225 | When writes begin to drain, each rank with writes and no queued refresh gets one for a bank with the least demand, unless there is no room or a bank of least demand has full credit |
| Dsarp.SortByDemand | src/Refresh.cpp:200-201 | The banks in an order of rising demand, each once |
| Dsarp.Scheduler.PickBank | src/Refresh.cpp:203-214 | The choice is always the bank first in order, despite its random part |
| Dsarp.Scheduler.TickRef | src/Refresh.cpp:228-253 | Every cycle keeps each bank's credit equal to refreshes asked for minus slots due and within -7 to 8, sends a bank's refreshes round its subarrays, asks for exactly what the three phases say, and queues it in order as far as there is room. The assertion that each refresh is accepted holds whenever the state before the cycle does not say `MayRefuse`: no refresh is due, or the queue has room for one refresh of each rank, two with pulling in; without pulling in it fails whenever that state does |
| Dsarp.DueIsRefused | src/Refresh.h:101-112 | The assertion can fail, with pulling in or without: a bank that may not be delayed has its slot while the queue holds 32 requests, so its refresh is asked for and refused |
| Dsarp.Scheduler.KeepsPace | src/Refresh.h:91-98 | After q rounds of slots every bank has had between q - 7 and q + 9 refreshes |
| Salp.Salp1Keeps | src/SALP.cpp:122-147 | SALP-1: the next command of any access keeps the bank open exactly if exactly one subarray is open, with exactly one row, and never sends a close to a subarray that is not open |
| Salp.Salp2Keeps | src/SALP.cpp:148-175 | SALP-2: the next command of any access keeps every subarray closed or open with exactly one row, and closes only another open subarray |
| Salp.MasaKeeps | src/SALP.cpp:383-411 | MASA: the next command of any access keeps at most one subarray of a bank selected |
| Salp.RunKeeps | src/SALP.cpp:314-430 | These invariants hold in every state that accesses and refreshes can reach |
| Salp.AccessesReachTheirRow | src/SALP.cpp:109-199 | In every run a column command is next if and only if its subarray holds its row, alone open in its bank for SALP-1 and SALP-2, alone selected for MASA |
| Salp.OthersAreOpen | src/Controller.cpp:11-26 | In every run, the offending subarray that PRE_OTHER is sent to is another subarray of the bank, and open |
| Salp.WorkDecreases | src/SALP.cpp:109-199 | Each command issued for a request brings its own one closer by exactly one, so every request is served after a known number of commands |
| Salp.Salp1Order | src/SALP.cpp:109-199 | In every run of SALP-1, an access first closes another open subarray of the bank, or its own if that has another row, and activates its row only when nothing in the bank is open; nothing else changes |
| Salp.Salp2Order | src/SALP.cpp:148-175 | In every run of SALP-2, an access to a closed subarray opens its row in one command and leaves every other subarray as it is; another subarray is closed only when the row is already open in the request's own, and then one at a time |
| Salp.MasaOrder | src/SALP.cpp:176-196 | In every run of MASA, an access opens or selects its own subarray and leaves all others open, at most deselecting them; it closes none but its own, and that only for another row |
| Salp.RefreshOrder | src/SALP.cpp:109-199 | In every run a refresh first closes the whole rank exactly if anything is open in it |
| Salp.Device.OffendingSubarray | src/Controller.cpp:11-26 | The loop returns the first other subarray that is open, or number 0 |
| Salp.Device.Issue | src/SALP.cpp:314-430 | Issuing a request's next command in place is one step of the specified protocol and keeps its invariant |
| Links.Link.HostSend | src/HMC_Memory.h:698-715 | The host's packet is taken exactly if its flits fit into the input buffer's space |
| Links.Link.Receive | src/LogicLayer.cpp:63-77 | Returned tokens are credited, and only data packets join the input buffer |
| Links.LeftmostBit | src/LogicLayer.h:50-61 | The loop returns the largest power of two within a number, 0 for 0 |
| Links.AtLeastHalf | src/LogicLayer.h:48-61 | Each return of tokens gives back at least half of what is owed |
| Links.Link.Send | src/LogicLayer.cpp:13-60 | A data packet with its tokens leaves if the other side has room, else owed tokens alone, else an empty packet; buffers, order, token balance and pace are kept |
| Links.Link.Tick | src/LogicLayer.h:40-45 | A link sends in a cycle exactly if it is free by then; flits extracted stay equal to tokens returned plus tokens owed |
| Links.WithinBandwidth | src/LogicLayer.cpp:33-57 | Over any slots of a link, the flits sent before the last one take no longer than the cycles between the first and the last |
| Links.BandwidthFrom | src/LogicLayer.cpp:33-57 | The same from any slot on |
| Links.Switch.FromLinks | src/LogicLayer.cpp:80-109 | Each link passes on its oldest packet unless its vault refuses it or had one in this cycle; no vault and no link has two |
| Links.Switch.FromVaults | src/LogicLayer.cpp:110-134 | Each vault passes on its oldest response unless its link has no room or had one in this cycle; no link has two, and what a link gets is what just one vault has given away |
| Stack.MoveInv | src/HMC_Memory.h:600-716 | Whatever moves, each vault has accepted just the packets for it that the links have passed on, those of each link unchanged and in order, besides those of the cores; and each link has got just the responses for it that the vaults have given away, those of each vault in order |
| Stack.AtMostOneAnswer | src/LogicLayer.cpp:80-134 | In every run of links and vaults, whatever the order of their moves, a packet of the host has had at most one response, on its own link, from its vault and with its header, and no other link has had any |
| Stack.ExactlyOneAnswer | src/LogicLayer.cpp:80-134 | Once a packet has been taken from its link and its vault has nothing more to do, it has had exactly one response, on its own link |
| Stack.NothingIsStuck | src/LogicLayer.cpp:80-134 | In every run the oldest packet of a link may be offered to its vault, and the oldest response of a vault is for a link that exists |
| LogicLayer.Tick | src/LogicLayer.cpp:80-145 | A cycle of the logic layer, over its links and its switch, moves the stack that they belong to along a path of its own moves, offers and returns, so all that holds in every run holds after it |
| Links.Switch.Tick | src/LogicLayer.cpp:136-145 | One cycle of the logic layer: each link that is free sends the oldest packet that the other side has room for, else owed tokens, else an empty packet, and no other does; then requests, then responses move as the switch says, with every buffer within 32 and every packet in order |

## Left out

- CacheTree.Cache.Evict: the lower cache is a parameter instead of a field.
- BfsRuns.BusySchedulesEnd: the end of a search is claimed of schedules without idle waiting at barriers; a schedule that runs only waiting threads never ends.
- Dsarp.Scheduler.TickRef: what the controller does to its queues between two cycles is arbitrary, so they may be full when a refresh is due.
- Controller.Controller.Tick: callbacks of near-memory requests are recorded by the specification but not called.
- A bound on service while packets go on arriving: there is none, since requests that hit an open row are served before older ones that do not.
- Power-down and self-refresh: the tree models their commands and states, but the vault controller never asks for them.
- Latency-free mode, the Closed and Timeout row policies, and the other schedulers: they bypass or disturb the row table.
- Refresh overlap statistics (`begin_of_refreshing`, `refresh_intervals`, `active_refresh_overlap_cycles`) and all other statistics, energy and traces.
- The map from open rows to row states keeps only one state per row; it is modelled as the set of open rows.
- References from nodes and caches to their parents: the tree is walked from the root only.
- Tag recycling in the host controller and several stacks: marked as unfinished in the code.
- The miss and retry path of multi-level caches, and inclusion over whole runs with several cores: lines are allocated above before they exist below. Evictions are proved from an inclusive state instead.
- Flushing of caches, and caches too small for one set of their associativity.
- MSHR entries hold iterators to lines; they are modelled as addresses, with the line found by its block.
- Fields of 31 bits or more in address slicing, where `1 << bits` overflows; and the width of the token field of a packet.
- Data races on the plain flag `stop` beyond interleaving: each access is one atomic step.
- The generic controller used for SALP and DSARP: its enqueue has the same forwarding rule; its cycle differs in details and is not modelled. SALP timing tables are not modelled either.
- `SpeedyController`, ALDRAM, TLDRAM, WideIO2 and the remaining standards.
- Address translation, trace files, configuration, core offload policy and everything else that is input, output or policy without a crisp specification.
