# oRSS control loop: a Dafny model

oRSS runs on a SmartNIC beside an OpenFlow 1.0 switch. Once per second it polls the packet
counter of every flow rule, keeps the counters of each flow in a small ring buffer, moves flows
from loaded to idle cores, and writes each new flow-to-core assignment back to the switch as the
VLAN tag of the flow's rule. This project models that loop, from the bytes of a statistics reply
to the tags in the switch, and proves what it does.

Every component is described twice. Classes (`RingBuffer`, `HashMap`, `CoreLoad`, `Migrations`,
`Flows`, `Connection`) carry the fields of the C structs and update them in place; each method is
proved equal to a function on values. The lemmas then speak about those functions, for all inputs
and all runs.

| file | component |
|---|---|
| `Env.dfy` | sizes, machine integers, the flow key |
| `RingBuffer.dfy` | the counter ring and the stream it stands for |
| `Slots.dfy`, `FlowTable.dfy` | the slot array as a finite map; the table object |
| `Rebalance.dfy` | the greedy rebalancing on values: whole runs, bounds, potential, replay |
| `Balancer.dfy` | the same on per-core arrays that share the rings with the table |
| `Wire.dfy`, `FlowReader.dfy` | flow statistics on the wire; the parsing loop |
| `Connection.dfy` | waiting, buffering, collecting multipart replies, answering echo requests |
| `Poll.dfy` | recording a poll in the table and rebalancing it |
| `ControlLoop.dfy` | one turn of the main loop on the heap |
| `Switch.dfy` | rules, matches, and what a modifying flow-mod does |
| `System.dfy` | switch, messages on their way and control loop as a state machine, over all runs |
| `Program.dfy` | the whole program on the heap, refined to that state machine together with the switch |

## Main results

* The program and the switch together (`Programs.ProgramTagsAreCores`): whatever messages arrive
  and however turns of the loop interleave with flows being installed, packets being counted and
  flow-mods being received, whenever the switch has received all that was written every packet of
  every flow leaves it once, on the host port, with the core the program assigns the flow to as
  VLAN; packets of flows unknown to the program leave with VLAN 0. The proof goes from the bytes of the replies to the messages written: the heap
  program (`Execute`) does what the run on values does, the run on values is the program's part in
  every history (`WorldRunsProgram`), and every history is a run of the state machine
  (`WorldRefinesSystem`) whose invariant `StepsKeepInv` proves.
* The program ends by exit(1) if and only if known and polled flows outnumber the slots of the
  table, and is lost if and only if they fill it exactly (`Polls.PollOverflowsIff`,
  `Polls.GetMigrations`). As long as fewer flows are installed than there are slots, no turn of any
  run ends either way (`Programs.ProgramNeverEnds`).
* Which migrations a balancing records, in terms of the loads of the flows and the replayed
  assignment alone (`Polls.RunIsGreedy`, `Polls.RunEnds`, `Polls.RecordsNothingIff`): each one takes
  a heaviest flow of the first most loaded core to the first least loaded core, and there is one
  exactly as long as some core is more than 10 percent off the average and the budget lasts.
  `Rebalance.EachMigrationIs` adds the order of the lists, which decides between equal flows.
* Balancing runs: the flow lists stay a partition of the table and replaying the recorded
  migrations gives the final assignment, in 64-bit arithmetic and without any assumption on loads
  (`RunReplays`). While the total load fits in 64 bits the run is the exact one (`RunsAgree`), and
  of exact runs: no load is created or lost; no core ends above max(its load before, average +
  heaviest flow) (`SchedulingBound`); each migration changes the sum of squared loads by exactly
  2w(w - gap) (`MoveChangesPotential`); a run ends balanced or with its budget spent. In every run
  of the system with fewer than 2^64 packets the loads do fit, so this holds of every turn
  (`Systems.TurnsAreExact`, `Systems.TurnsAreBounded`).
* The flow table refines a finite map for every sequence of operations; iterating over it is
  complete if and only if it has no hole, is not full and does not hold the seed key.
* The statistics parser inverts the encoding of any list of entries, whatever their actions. When
  the switch answers both polls of a turn, in any number of parts and among any other messages,
  the turn gets through if and only if the answers fit the program's arrays, and then works with
  exactly the entries of the second answer (`ControlLoop.AnsweredTurnIsReady`). Any entries, split
  in any way into parts that fit in a message and mixed in any way with other messages, are such an
  answer (`ControlLoop.ReplyAnswers`). Where each field is read from is stated byte by byte
  (`Wire.ReadsLayout`, `Wire.ReadsActionLayout`).
* Over whole runs of the program no echo request is lost, answered twice or reordered
  (`Programs.RunAnswersEchoes`), and requests and flow-mods carry consecutive transaction numbers
  (`Programs.RunCountsUp`).

## Where the code does not do what its names and comments say

The model follows the code. Each difference is a proved statement.

* `ringbuffer_add` subtracts the value it stored last, not the last counter. The stored values are
  alternating sums of all counters; the load the balancer sees is the increment since the last
  poll if and only if it is the second value stored or the value stored two polls earlier is zero
  (`Rings.StoredIsIncrementIff`). An idle flow shows its whole counter as its load at every other
  poll, for ever (`Rings.IdleFlowShowsLoad`, `Rings.IdleFlowMisread`).
* `ringbuffer_get_average` divides by `count` also when fewer values are stored. The result is the
  mean of the values it sums if and only if `count` times that mean does not exceed their sum
  (`Rings.AverageIsMeanIff`); always once `count` values are stored
  (`Rings.AverageIsMeanWhenFilled`); not for a single positive value and `count` 2
  (`Rings.AverageTooSmall`).
* `ntoh_openflow_flow_stats` converts the two 32-bit durations with the 16-bit conversion: they
  come out as their upper halves, right if and only if they are zero (`Wire.DurationRecoveredIff`).
* `hashmap_get_next` returns from inside its loop at the first slot it looks at, so it stops at
  the first hole, and leaves the function without a return value behind the last slot
  (`Slots.WalkStopsAtHole`, `Slots.IterationCompleteIff`).
* `hashmap_destroy` frees the first `size` slots, which are the stored ones if and only if there is
  no hole (`Slots.DestroyFreesOnceIff`). In the states the loop reaches there is none
  (`ControlLoop.Shutdown`).
* Loads are added in 64 bits. A flow is "migrated" to the core it is on if and only if all cores
  have equal loads and their sum overflows (`Rebalance.SelfMigrationIff`), as with two cores of
  load 2^63 (`Rebalance.SelfMigrationHappens`).
* `openflow_get_flows` resets the number of flows but not of actions. The second call of a turn
  appends to the action rows of the first; if the flows have not changed in between it fits if and
  only if every flow has at most `MAX_ACTIONS`/2 actions (`ControlLoop.SecondPollFitsIff`).
* Some imbalances cannot be repaired by moving flows: with a flow heavier than 1.1 averages every
  run uses its whole budget of migrations and ends beyond the thresholds
  (`Rebalance.HeavyFlowExhaustsBudget`).
* Sections 5.1 and 5.5.3 of the OpenFlow Switch Specification 1.0.0 want an echo reply to return
  the transaction number and the data of its request. The program sends a bare header with
  transaction number 0: the replies are right if and only if all requests have number 0 and no
  data (`Connections.RepliesProperIff`, `Connections.Connection.Control`); any other request is a
  counterexample (`Connections.KeepAliveMisanswered`).
* The test for a full core list (`src/balancer.c:73`) never succeeds (`Balancer.AddFlow`).

## Conventions

The sizes of `src/env.h` are symbolic constants, so all statements hold for every size in range.
The switch's messages are one sequence `inbox` of everything it will ever send; how much of it has
arrived when a turn begins is a parameter, and so is the uninitialised key `previous_key` of
`src/balancer.c:68`, which must not be a stored key. `nb_msg_buffered`, which `src/main.c:196` does
not initialise, starts at 0. Writes always succeed and append to `outbox`. The host is
little-endian. A call of `get_migrations` ends in one of three ways: it completes, it exits because
the table is full, or it is lost because iterating over a full table leaves `hashmap_get_next`
without a return value. A program that exited or got lost takes no further turn.

The state machine and the histories of program and switch are guarded by their environment alone: a
flow is installed once, the switch counts fewer than 2^64 packets in all, answers polls with its
rules as they are, and its answers fit the arrays of the message layer. A turn takes place when the
switch answers its second poll; what else happens to the switch before the turn's flow-mods are
written does not concern the turn.

## Model

| member | source | states |
|---|---|---|
| Programs.ProgramTagsAreCores | src/main.c:190-221 | from empty table and rules with VLAN 0, over every interleaving of turns, installs, packet counts and deliveries: what is written is what Execute writes for the turns taken, and once all of it is received every packet of every flow leaves once, on port 2, with its assigned core as VLAN |
| Programs.ProgramNeverEnds | src/main.c:198-216 | in every history with fewer flows installed than the table has slots the program neither exits nor gets lost |
| Programs.WorldRunsProgram | src/main.c:198-216 | the program's part in a history is the run of its turns alone, all of which are ready; the run Execute carries out |
| Programs.WorldRefinesSystem | src/main.c:198-216 | every history of the message-level program and the switch is a run of the abstract state machine, flow-mods not yet received being its migrations in flight |
| Programs.HappeningIsEvent | src/main.c:198-216 | one happening corresponds to one event of the state machine (forward simulation step) |
| Programs.TurnFlowMods | src/main.c:208-210 | the flow-mods among what a turn writes are exactly its migrations, in order, behind all earlier ones |
| Programs.RunAnswersEchoes | src/openflow.c:527-552 | over whole program runs: requests answered, then buffered, then unread are all echo requests received, in order, and the replies written are one per answered request, in order |
| Programs.RunCountsUp | src/openflow.c:345-396 | over whole program runs request or flow-mod number j carries the first transaction number plus j modulo 2^32, so numbers less than 2^32 apart differ |
| Programs.TurnKeepsEchoes | src/openflow.c:387-421 | the same for one turn, which answers what was buffered or had arrived, and whose two polls buffer every echo request they read past |
| Programs.Execute | src/main.c:190-221 | the program on the heap, any number of turns and however it ends: ends as the run on values, writes exactly what that writes, and at its regular end frees exactly the rings of its table, each once; nothing otherwise |
| Programs.TakeTurns | src/main.c:198-216 | any number of turns on the heap, until the program ends, reach the state and the ending of the run on values |
| Programs.RuleIsPolled | src/main.c:172-184 | from bytes to rules: when a reply in any number of parts, among any other messages, describes rules of the switch, the poll learns the present counter of each under its own five-tuple and of no other flow |
| Systems.TagsAreCores | src/main.c:165-216 | system theorem: in every run, with no flow-mod in flight, every packet of every flow leaves once, on port 2, with its assigned core as VLAN, 0 for unknown flows |
| Systems.StepsKeepInv | src/main.c:198-216 | the system invariant (tags after pending migrations = cores, rings = polled streams, polled counters non-decreasing and below those of the switch, no ending below capacity) holds over all runs |
| Systems.StepKeepsInv | src/main.c:198-216 | every single event keeps the system invariant |
| Systems.IterateKeepsTags | src/main.c:169-188 | a turn, however it ends, keeps "pending tags follow cores", new flows entering on core 0 |
| Systems.DeliverKeepsTags | src/openflow.c:340-385 | receiving the oldest flow-mod keeps it |
| Systems.InstallKeepsTags | controller/controller.py:194-197 | installing a new flow with the default VLAN keeps it, whatever is in flight |
| Systems.LoadsAreStored | src/balancer.c:50-62 | in every run the load of each flow is the last value stored from the stream of its own polled counters, and at most the present counter of the switch |
| Systems.LoadsFit | src/balancer.c:50-62 | the total load is at most the number of packets counted, below 2^64 |
| Systems.TurnsAreExact | src/balancer.c:119-156 | in every run each completed turn records the migrations of the run with exact loads |
| Systems.TurnsAreBounded | src/balancer.c:119-156 | in every run and turn no core ends above max(its load before, average + heaviest flow) |
| Systems.NeverEnds | src/main.c:169-188 | in every run with fewer flows installed than slots no turn ends by exit or on a full table |
| Systems.PollKeepsCounters | src/main.c:170-185 | polling keeps every polled history non-decreasing and below the counter of the switch |
| Systems.TurnAddsCounters | src/main.c:170-185 | a turn extends the history of each reported flow by the present counter of the switch, and no other history |
| Systems.PollKeepsHistory | src/main.c:170-185 | after a poll each ring is the ring of its flow's extended counter stream |
| Switches.ModVlanRetags | src/openflow.c:340-385 | on an installed flow the flow-mod makes every packet, whatever VLAN it arrives with, leave once on port 2 with the new VLAN; keeps the counter and every other rule |
| Switches.NewRuleSteers | controller/controller.py:194-197 | a newly installed rule makes every packet leave once on port 2 with VLAN 0 |
| Switches.FlowMatchCovers | src/openflow.c:355-369 | which rules the flow-mod covers, for any rule: those that fix input port 1, type 0x0800 and its own five-tuple |
| Switches.FlowMatchCoversItself | controller/controller.py:122-130 | among the rules the controller installs, for any flow and input port, it covers its own flow from port 1 and no other |
| ControlLoop.Iterate | src/main.c:198-216 | one turn on the heap, however it ends: ending, new table, messages answered, consumed and set aside, and everything written, in order |
| ControlLoop.GetFlows | src/openflow.c:387-468 | one poll: one request, consumes up to its own last reply part, buffers the rest, loads exactly that reply's flows |
| ControlLoop.PollTwice | src/main.c:201-204 | both polls of a turn: the flows of the second remain, both leave their unrelated messages buffered in order |
| ControlLoop.SecondPollFitsIff | src/openflow.c:423-464 | two polls of an unchanged switch fit the action rows iff every flow has at most half a row of actions |
| ControlLoop.ApplyMigrations | src/main.c:208-210 | one flow-mod per recorded migration, in order, with consecutive transaction numbers modulo 2^32 |
| ControlLoop.CleanupChangesNothing | src/main.c:214 | in reachable tables the cleanup removes nothing |
| ControlLoop.Shutdown | src/hashmap.c:10-16 | at the end every ring of the table is freed exactly once and nothing else |
| ControlLoop.PollSeesEntries | src/openflow.c:422-467 | end to end: however entries are split over reply parts, the poll learns five-tuple and 64-bit packet count of each, in order |
| ControlLoop.AnsweredTurnIsReady | src/main.c:201-204 | if the switch answers both polls, in any parts and among any messages, the turn gets through iff the answers fit, and then learns exactly the entries of the second |
| ControlLoop.AnsweredPoll | src/openflow.c:410-467 | the same for one poll: iff parts, buffered messages, flows and actions fit; the flows read are the entries of all parts in order |
| ControlLoop.ReplyAnswers | src/openflow.c:414-421 | any entries split in any way into parts that can be sent, MORE on all but the last, and mixed in any way with messages that are not such replies, form such an answer; exactly those messages are set aside, in order |
| Polls.GetMigrations | src/main.c:169-188 | exits iff known and polled flows outnumber the slots, is lost iff they fill them exactly, else leaves the rebalanced table and records exactly the specified run, which is empty iff every core is within 10 percent of the average |
| Polls.RunIsGreedy | src/balancer.c:123-151 | each recorded migration, with those before it replayed: some core is more than 10 percent off the average, the flow is a heaviest one of the first most loaded core, the destination is the first least loaded core |
| Polls.RunEnds | src/balancer.c:123-156 | at most MAX_REBALANCE_ITERATIONS migrations, and fewer only if every core ends within 10 percent of the average |
| Polls.RecordsNothingIff | src/balancer.c:145-155 | nothing is recorded iff every core is within 10 percent of the average |
| Polls.PollOverflowsIff | src/main.c:170-185 | recording a poll overflows iff the known and polled flows outnumber the slots; otherwise the table holds exactly these flows |
| Polls.RunIsExact | src/balancer.c:119-156 | while the total load fits in 64 bits, the recorded migrations are those of the exact run |
| Polls.RebalancedIsBounded | src/balancer.c:119-156 | the scheduling bound on the cores of the rebalanced table |
| Polls.PollFlows | src/main.c:170-185 | the polling loop on the heap equals recording the polled flows one by one on the table value |
| Polls.FindOrCreate | src/main.c:179-183 | returns the flow's ring, adding an empty one at the end of the slot order if the flow is new and there is room |
| Polls.PollKeeps | src/main.c:170-185 | a poll keeps every core, puts new flows on core 0, adds exactly the polled keys, leaves all rings active |
| Polls.RebalancedKeeps | src/main.c:187 | rebalancing keeps the key order, the rings' activity and range, and sets cores to the replayed assignment |
| Polls.RunKeepsRange | src/balancer.c:119-156 | the recorded migrations are of table flows to existing cores, and replaying them keeps keys and core range |
| Polls.BalanceTable | src/main.c:187 | balancing on the heap turns the table value into its specified rebalancing |
| Balancer.Balance | src/balancer.c:119-159 | over the table's own lists, records exactly the migrations of the specified run and leaves every ring on the core that replaying them gives |
| Balancer.BalanceCores | src/balancer.c:123-156 | the balancing loop refines the run on values, whatever the loads; cached sums and argmax are what the code defines at every loop head |
| Balancer.MigrateOnce | src/balancer.c:145-151 | one migration on the heap is one step of the specified run, whatever the loads, keeping lists, caches and assignment consistent; the receiver has room |
| Balancer.Migrate | src/balancer.c:90-113 | swap-remove from the donor, append to the receiver, assigned core of the shared ring, caches of both cores renewed; also when donor and receiver are the same core |
| Balancer.MeasureImbalance | src/balancer.c:125-143 | finds first maximum, first minimum and the 64-bit average of any loads |
| Balancer.ComputeRepartition | src/balancer.c:64-88 | on a hole-free table, returns iff it is not full, with each flow on the list of its core in table order, all caches exact |
| Balancer.InitialLists | src/balancer.c:71-82 | these lists partition the table and carry its whole load |
| Balancer.CoreLoad.UpdateCoreInfo | src/balancer.c:50-62 | load is the 64-bit sum of the flows' last values, index is the first heaviest flow |
| Balancer.CoreLoad.MeasureFlows | src/balancer.c:54-61 | the pass computing both |
| Balancer.CoreLoad.RemoveAt | src/balancer.c:96-98 | the last entry fills the gap |
| Balancer.CoreLoad.Append | src/balancer.c:100-102 | the entry is appended with its own key |
| Balancer.AddFlow | src/balancer.c:73-79 | the flow joins the list of its core; the "core is full" exit is not reached |
| Rebalance.Load64IsSum | src/balancer.c:60 | the wrapping sum is the true sum modulo 2^64 |
| Rebalance.RunReplays | src/balancer.c:119-156 | in 64-bit as in exact arithmetic the partition survives a run, and replaying its migrations over the initial assignment gives the final one |
| Rebalance.RunStartsIff | src/balancer.c:125-155 | in both widths a run with a budget migrates iff some core has 10*load > 11*average or, the average being positive, 10*load < 9*average; average is the total divided by the number of cores |
| Rebalance.FirstMigrationIs | src/balancer.c:90-151 | in both widths the first migration: first most loaded core, its first heaviest flow, first least loaded core, and the lists afterwards element by element |
| Rebalance.EachMigrationIs | src/balancer.c:90-156 | the same for every migration of a run, relative to the lists by then |
| Rebalance.MeanIs | src/balancer.c:133-143 | the average is the total load, modulo 2^64 in 64 bits, divided by the number of cores, rounded down |
| Rebalance.RunsAgree | src/balancer.c:125-147 | while the total load fits in 64 bits the program's run is the exact one |
| Rebalance.PickExists | src/balancer.c:132-150 | in 64-bit as in exact arithmetic, when the thresholds are exceeded the picked flow exists and has a positive load |
| Rebalance.ReplayLastWins | src/main.c:208-210 | in a replay the last migration of a key wins, others keep their core |
| Rebalance.MoveKeepsPartition | src/balancer.c:90-113 | a migration keeps "each flow once, on the list of its core", with the flow reassigned to the receiver |
| Rebalance.MigrationWellFormed | src/balancer.c:132-150 | when the thresholds are exceeded by exact loads: donor and receiver differ, donor strictly heavier, picked flow exists with positive load |
| Rebalance.FiringCoresDiffer | src/balancer.c:143-150 | firing implies smallest load < largest load |
| Rebalance.SelfMigrationIff | src/balancer.c:125-150 | with 64-bit sums a flow is moved to its own core iff all loads are equal and their sum overflows |
| Rebalance.SelfMigrationHappens | src/balancer.c:125-150 | a concrete case: two cores of load 2^63 |
| Rebalance.RunConservesLoad | src/balancer.c:119-156 | a run neither creates nor loses load, so the average is the same in every iteration |
| Rebalance.MoveLoads | src/balancer.c:90-113 | a migration moves the picked flow's load from a most loaded to a least loaded core and changes no other core |
| Rebalance.SchedulingBound | src/balancer.c:119-156 | no core ends a run above max(its initial load, average + heaviest flow) |
| Rebalance.MoveChangesPotential | src/balancer.c:90-151 | the sum of squared loads changes by exactly 2w(w - gap): falls iff w < gap, never rises with an idle receiver |
| Rebalance.RunEndsBalancedOrExhausted | src/balancer.c:123-156 | a run uses its whole budget or ends with every core between 0.9 and 1.1 averages, and migrates only while some core is not |
| Rebalance.HeavyFlowExhaustsBudget | src/balancer.c:123-156 | with a flow above 1.1 averages every run uses its whole budget and ends beyond the thresholds |
| Rebalance.RunIsAddressed | src/balancer.c:150-151 | at most `budget` migrations, each of a table flow to an existing core |
| Rebalance.GroupRepresents | src/balancer.c:71-82 | grouping the table's keys by core gives the partition of the assignment |
| Rebalance.OnCoreInOrder | src/balancer.c:71-82 | the list of a core keeps the order of the table |
| Rebalance.SameAssignmentSum | src/balancer.c:50-62 | the load of a core depends on the assignment alone, not on the order of its list |
| Rebalance.ArgMaxIsFirstMax | src/balancer.c:53-59 | the cached index is the first flow of maximal load |
| Slots.TableRefinesMap | src/hashmap.c:22-116 | every sequence of insert, remove and cleanup within capacity, holes included, acts on the map as on a finite map, and size stays the number of entries |
| Slots.PutRefines | src/hashmap.c:52-69 | insert updates the map; fails iff the key is new and all slots are taken |
| Slots.RemoveRefines | src/hashmap.c:79-86 | remove deletes exactly that key |
| Slots.CleanRefines | src/hashmap.c:108-116 | cleanup deletes exactly the idle entries |
| Slots.SizeIsCardinality | src/hashmap.c:25 | the number of valid slots is the number of keys |
| Slots.PutKeepsHoleFree | src/hashmap.c:43-69 | insert into a hole-free table leaves it hole-free |
| Slots.WalkStopsAtHole | src/hashmap.c:94-106 | repeated get_next lists the slots after the seed's up to the first hole, returning iff that hole exists |
| Slots.IterationCompleteIff | src/hashmap.c:94-106 | iteration meets every entry exactly once and returns iff no hole, not full, seed not stored |
| Slots.DestroyFreesOnceIff | src/hashmap.c:10-16 | destroy frees each stored value once and nothing else iff there is no hole |
| FlowTable.HashMap.Contains | src/hashmap.c:22-35 | terminates within the array although it only counts entries; the index of the key, or -1 iff no valid slot holds it |
| FlowTable.HashMap.FirstFreeSlot | src/hashmap.c:43-50 | the first invalid slot or -1 |
| FlowTable.HashMap.Insert | src/hashmap.c:52-69 | map update, or failure iff new key and full table |
| FlowTable.HashMap.Get | src/hashmap.c:71-77 | map lookup |
| FlowTable.HashMap.Remove | src/hashmap.c:79-86 | map removal |
| FlowTable.HashMap.New | src/hashmap.c:88-92 | a fresh empty ring under the key |
| FlowTable.HashMap.GetNext | src/hashmap.c:94-106 | the three outcomes of the call on any table, holes included |
| FlowTable.HashMap.CleanupInactiveFlows | src/hashmap.c:108-116 | keeps exactly the active rings |
| FlowTable.HashMap.Destroy | src/hashmap.c:10-13 | the pointers of the first `size` slots, in order |
| FlowTable.HashMap.constructor | src/hashmap.c:3-8 | an empty map without holes |
| Rings.RingRefinesStream | src/ringbuffer.c:14-29 | after any counters the ring holds the newest min(n, RING_SIZE) stored values, newest first backwards from pos |
| Rings.StoredIsAlternatingSum | src/ringbuffer.c:19-23 | each stored value is the alternating sum of all counters so far, modulo 2^64 |
| Rings.StoredNeverUnderflows | src/ringbuffer.c:22 | for non-decreasing counters no subtraction wraps and stored values do not exceed the counter |
| Rings.StoredIsIncrementIff | src/ringbuffer.c:22 | the stored value is the counter's increment iff it is the second one or the one two before is zero |
| Rings.IdleFlowShowsLoad | src/ringbuffer.c:22 | an idle flow stores its counter and zero in turn, for any number of polls |
| Rings.IdleFlowMisread | src/ringbuffer.c:22 | so for a positive counter the third stored value is not the increment |
| Rings.AverageOfStream | src/ringbuffer.c:38-54 | after any stream the average is the 64-bit sum of the newest min(count, size) values divided by count |
| Rings.AverageIsMeanIff | src/ringbuffer.c:45-53 | the average is the mean of the values summed iff count times that mean does not exceed their sum |
| Rings.AverageIsMeanWhenFilled | src/ringbuffer.c:45-53 | it is the mean once count values are stored |
| Rings.AverageTooSmall | src/ringbuffer.c:45-53 | it is not for one positive value and count 2 |
| Rings.SumBackIsStreamSum | src/ringbuffer.c:45-52 | walking backwards through the wrap-around sums the newest values of the stream |
| Rings.RingBuffer.Add | src/ringbuffer.c:14-29 | the whole new state of the struct |
| Rings.RingBuffer.GetAverage | src/ringbuffer.c:38-54 | the backward walk with truncating remainders computes that average |
| Rings.RingBuffer.PredictNext | src/ringbuffer.c:56-63 | equals the average, although it goes through a modular subtraction |
| Wire.ReadInvertsEncode | src/openflow.c:422-465 | parsing the encoding of any entries, with actions of any type, recovers them and starts each where the one before ended |
| Wire.ReadsLayout | src/openflow.c:431-435 | which bytes of an entry each field is read from, as literal positions and network-order values, and where the next entry begins |
| Wire.ReadsActionLayout | src/openflow.c:439-459 | the same for an action; only types 0 and 1 are kept |
| Wire.ReadEncodedEntry | src/openflow.c:288-302 | match, counters, timeouts and length of one encoded entry, whatever follows it |
| Wire.ReadEncodedActions | src/openflow.c:438-462 | OUTPUT and SET_VLAN_VID actions in order, up to and including the first of unknown type |
| Wire.ReadsKnownActions | src/openflow.c:438-462 | each action before the first unknown one is read at its own position with its own values; the unknown one ends the list, by type only |
| Wire.MatchRoundTrip | src/openflow.c:250-281 | network order and back is the identity on matches |
| Wire.DurationRecoveredIff | src/openflow.c:290-291 | durations are read correctly iff they are zero |
| Wire.JoinSplit64 | src/openflow.c:564-568 | joining the halves of a counter gives the counter |
| FlowReader.ParseReplies | src/openflow.c:423-467 | the parsing loop loads every entry of every message in order, on top of what the action rows held |
| FlowReader.ReadReply | src/openflow.c:429-465 | the entries of one message follow those already loaded |
| FlowReader.Flows.ReadFlow | src/openflow.c:431-464 | one entry into row nb_flows; the cursor moves by its declared length, whatever its actions |
| FlowReader.ReadActionList | src/openflow.c:438-462 | the actions of one entry appended to its row |
| FlowReader.Flows.FreeFlows | src/openflow.c:471-479 | empties the used rows and the flow count |
| Connections.EchoesConserved | src/openflow.c:187-202 | over any interleaving of arrivals, waits and drains: answered, then buffered, then unread echo requests are all echo requests, in order |
| Connections.StepAccounts | src/openflow.c:527-552 | the same for one step |
| Connections.Connection.WaitForMessage | src/openflow.c:187-202 | returns the first message of the given type and transaction number (any number if 0) and buffers everything before it in order, none of it such a message |
| Connections.Connection.CollectReplies | src/openflow.c:410-421 | terminates with exactly the parts of its own reply, type 0x11 and own number, up to the first without MORE; all else read is buffered in arrival order and none of it is such a part |
| Connections.CollectNext | src/openflow.c:414-421 | until the last part is read the next wait ends, within the buffer, on a part with MORE iff it is not the last |
| Connections.CollectedAre | src/openflow.c:191-198 | what a collection keeps are stats replies of its number, what it sets aside is not |
| Connections.Connection.Control | src/openflow.c:539-552 | answers buffered then arrived echo requests, one bare reply each, and empties the buffer; the replies are those the specification asks for iff all requests are bare |
| Connections.Connection.ControlLogic | src/openflow.c:527-537 | one reply with transaction 0 and no data to an echo request, nothing to other messages |
| Connections.RepliesProperIff | src/openflow.c:160-170 | the replies return number and data of their requests iff every request has number 0 and no data |
| Connections.KeepAliveMisanswered | src/openflow.c:160-170 | any other request is answered wrongly |
| Connections.Connection.SendModVlan | src/openflow.c:340-385 | writes one flow-mod for the five-tuple and VLAN with the present transaction number, and advances the number by one modulo 2^32 |

## Left out

- Sockets, partial reads, `sleep`, signals, `rand` and failing writes: arrivals are a sequence of whole messages, writes always succeed.
- Connection set-up (hello, features request and reply) and the encoders of requests: fixed-layout copies; the flow-mod is modelled by its match, command and actions, not its bytes.
- Printing: no state change.
- Memory allocation and freeing, except which rings `hashmap_destroy` frees; rings freed by remove and cleanup are only forgotten.
- Statistics bodies that no conforming switch sends (entries shorter than 88 bytes, lengths that are not multiples of 8 or run past the message): the code reads outside the message there.
- Overrunning the fixed arrays of the message layer (buffered messages, reply parts, polled flows, actions per flow): the code does not check, so staying within them is a precondition of the methods and part of `TurnReady`.
- Waiting for a message that never comes: `WaitForMessage` requires it in the stream, since the loop would not end.
- Running on after a full table left `hashmap_get_next` without a return value: such a call ends as `Lost`, and the program with it.
- Floating-point rounding in the threshold test: it is modelled by exact cross-multiplication.
- Answers whose counters were read at different moments: an answer reports any rules, in any order, all with their counters of one moment.
- A switch that counts 2^64 packets or more in all: its counters would wrap.
- Removing or re-adding rules, ICMP rules and rule priorities: the installing controller adds each TCP or UDP flow once, without timeouts.
- In-place conversion of single struct fields: a struct is read, converted and stored as one value; a row of action descriptors and its counter `nb_actions` are one sequence.
- `balancer_update_core_info` writes its sums to the struct as it goes; the model computes them first and stores them once.
- Bytes shared between struct copies (`void *data` pointers): messages and actions hold values.
- `src/bpf/xdp.bpf.c`, the commented-out code in `src/main.c:30-163` and `ringbuffer_is_timedout`, which has no definition: not part of this model.
