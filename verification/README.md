# Verified core of the relay, block builder and workflow engine

This project models the parts of the repository whose correctness is an argument rather than a matter of reading one
function, and proves what they promise for all inputs, all runs and all interleavings.

- **Graph package of the relay.** `FlowNetworks`, `Residuals`, `EdmondsKarp` and `FlowLimits` prove that `MaxFlow` and
  `MinCut` compute the maximum flow and the least minimum cut, with the node-times-edge bound on augmentations, and
  where 64-bit arithmetic ends that. `StronglyConnected`, `Topological`, `Digraphs` and `Routing` cover components, the
  least topological order, reachability and rendezvous routing. Go maps are read in arbitrary order throughout.
- **Relay runtime.** `Scheduler` and `QueueProtocol` treat the bounded priority queue, first as a list, then as a mutex
  with a token channel under any interleaving. `Lifecycle`, `RelayStore` and `RelayProtocol` treat the compare-and-set
  store and the submit, worker, retry and eviction activities as steps that may stop anywhere; `RelayPaths` and
  `RelayRuns` determine exactly which paths bundles take.
- **Evidence.** `WriteAheadLog` shows that buffering and compaction are invisible to bounded reads; `Commitment` shows
  what a Merkle root with and without its leaf count commits to. The leaf and pair prefixes are those of section 2.1 of
  RFC 6962; the rule for an odd node is not.
- **Block builder.** `Transactions`, `SenderChains`, `CandidateHeap`, `Selection` and `BlockBuilder` go from pooled
  transactions to a block, in 64-bit gas arithmetic.
- **Workflow engine.** `Guard`, `SpecValidation`, `JoinedKeys`, `Engine`, `Projections`, `Worklists`, `WorkflowRuns`,
  `Verdicts`, `Runtime` and `Deployments` cover the budgeted guard interpreter, specification validation, decisions, the two
  projections of a journal, what holds of every journal, the handler and drain that grow it over a store that may fail,
  lose replies or crash, and the states instances can be in while specifications change.

`Sums`, `Collections`, `Ordering` and `Options` are shared foundations. Each stateful object of the source is a class,
each loop a method with invariants, and each is tied to a specification function or predicate about which the theorems
are stated. The environment (clock readings, quota answers, payload and context sizes, append outcomes, authority
checks, new commit ids, the hash function, routing scores) is a parameter or an arbitrary choice.

Where code and intention differ, the model follows the code, and the difference has an input and a condition:

- `MaxFlow` adds up its result in a 64-bit int. It is right exactly when some cut is small enough to count
  (`EdmondsKarp.MaxFlow`); `FlowLimits.WideNetworkWraps` is an input where it is -2. Residual capacities wrap too when
  two opposite capacities do not fit together: two opposite capacities are safe in every network exactly when they do
  (`FlowLimits.PairIff`), and for any two that do not, `FlowLimits.TwistedNetworkFails` is an input that loses flow.
- The duplicate check in `validateSpec` joins state and input with `::`, so different pairs can collide and a
  specification that is in order is refused (`JoinedKeys.FalseDuplicate`). That can happen over a list of states exactly
  when one of them continues another with the separator or half of it (`JoinedKeys.AcceptsAllIff`).
- Unreachable states are looked for only when the table has transitions (`SpecValidation.EmptyTableUnflagged`); the
  warnings are exact if and only if it has some or there is only the initial state (`SpecValidation.FlagsExactIff`).
- Guard paths read inherited JavaScript properties. A path means what it says in every document exactly when it does not
  end in an inherited name (`Guard.PlainIff`); for each that does, `Guard.NestedFindsInherited` gives a document.
- The engine tells specifications apart by id and version alone, so one that is edited under them can strand an instance
  (`Deployments.EditedSpecStrands`). That is excluded exactly when each specification has every state that those of its
  id and version reach together (`Deployments.AlwaysInsideIff`).

`dafny verify dfyconfig.toml` checks the whole project.

## Model

| member | source | states |
|---|---|---|
| `EdmondsKarp.MaxFlow` | blockchain/eth/mev/relay/v3/internal/graph/graph.go:233-258 | for any capacities at most nodes × edges augmentations, the uncapped total is what some shortest augmentations carried until none was left, and the result is its 64-bit remainder; for non-negative capacities none of whose opposite sums leave 64 bits the total is the value of a maximum flow, and the result is that value exactly when some cut has a capacity that fits |
| `EdmondsKarp.OutcomeIsMax` | blockchain/eth/mev/relay/v3/internal/graph/graph.go:236-257 | whichever shortest paths are taken, in whatever order, a run of augmentations that ends stuck carried the maximum flow, where no residual capacity can wrap |
| `EdmondsKarp.SmallCutDecides` | blockchain/eth/mev/relay/v3/internal/graph/graph.go:256-256 | the wrapping counter shows the maximum flow value if and only if some cut's capacity is at most the largest int |
| `FlowLimits.WideNetworkWraps` | blockchain/eth/mev/relay/v3/internal/graph/graph.go:256-256 | an input inside every other bound whose maximum flow is twice the largest int and whose result is -2 |
| `FlowLimits.TwistedNetworkFails` | blockchain/eth/mev/relay/v3/internal/graph/graph.go:248-255 | for any two opposite capacities whose sum leaves 64 bits, a network in which no other pair does so and on which the answer is wrong: the search is forced along one path, the way back wraps, nothing more is found, yet a flow of twice the value is feasible |
| `FlowLimits.TwistedIsTwisted` | blockchain/eth/mev/relay/v3/internal/graph/graph.go:248-255 | that network, written out as a map, for any eight node names |
| `FlowLimits.TwistedAnswer` | blockchain/eth/mev/relay/v3/internal/graph/graph.go:233-258 | on that network every run ends with half of what is feasible |
| `FlowLimits.PairIff` | blockchain/eth/mev/relay/v3/internal/graph/graph.go:248-255 | for two opposite capacities, every result on every network that is otherwise in range is the maximum flow value if and only if their sum fits in 64 bits |
| `Residuals.AugmentedInside` | blockchain/eth/mev/relay/v3/internal/graph/graph.go:248-255 | whether or not anything wraps, residual capacities stay 64-bit ints and appear only between nodes joined in the network |
| `EdmondsKarp.MinCut` | blockchain/eth/mev/relay/v3/internal/graph/graph.go:260-301 | the set holds the source and not the sink; where no residual capacity can wrap it has the least capacity of all such sets, every other set of that capacity contains it, and its capacity is the maximum flow value, however large |
| `FlowNetworks.LeastMinCutUnique` | blockchain/eth/mev/relay/v3/internal/graph/graph.go:260-301 | there is only one such set, so the order in which maps are read cannot change the answer |
| `EdmondsKarp.ResidualSide` | blockchain/eth/mev/relay/v3/internal/graph/graph.go:283-300 | the final search finds the least set around the source that no residual edge leaves |
| `EdmondsKarp.BfsResidual` | blockchain/eth/mev/relay/v3/internal/graph/graph.go:338-361 | succeeds exactly when a residual path to a different sink exists; then the parents lead back along a path that no other residual path undercuts; its levels bound every residual edge |
| `EdmondsKarp.PathOf` | blockchain/eth/mev/relay/v3/internal/graph/graph.go:242-247 | following parents from the sink gives a simple residual path exactly as long as the sink's level |
| `EdmondsKarp.Bottleneck` | blockchain/eth/mev/relay/v3/internal/graph/graph.go:241-247 | the bottleneck is the least capacity on the path, capped at the largest 64-bit int |
| `EdmondsKarp.Augment` | blockchain/eth/mev/relay/v3/internal/graph/graph.go:248-255 | the backward loop over parents is the augmentation of the whole path, missing reverse rows created |
| `EdmondsKarp.CloneFlow` | blockchain/eth/mev/relay/v3/internal/graph/graph.go:327-336 | the copy equals the network, empty rows included |
| `EdmondsKarp.Saturate` | blockchain/eth/mev/relay/v3/internal/graph/graph.go:236-257 | the augmentation loop ends with a residual network of a flow, the sink out of residual reach, within nodes × edges rounds |
| `EdmondsKarp.StuckIsOptimal` | blockchain/eth/mev/relay/v3/internal/graph/graph.go:238-240 | when no residual path is left the flow is maximum and the reached side is the least minimum cut with capacity equal to the flow |
| `EdmondsKarp.DistancesNeverDecrease` | blockchain/eth/mev/relay/v3/internal/graph/graph.go:338-361 | after an augmentation along a shortest path no node is nearer to the source than it was, and none becomes reachable |
| `FlowNetworks.NetFlowBelowCut` | blockchain/eth/mev/relay/v3/internal/graph/graph.go:260-301 | no flow exceeds the capacity of a cut; it equals it exactly when every edge leaving the cut is full |
| `FlowNetworks.PositivePartFeasible` | blockchain/eth/mev/relay/v3/internal/graph/graph.go:248-256 | the net flow kept in the residual network is a feasible flow of the same value |
| `Residuals.AugmentedNetFlow` | blockchain/eth/mev/relay/v3/internal/graph/graph.go:248-256 | an augmentation keeps conservation and capacities and adds the bottleneck to the value |
| `Residuals.TightEdgesShrink` | blockchain/eth/mev/relay/v3/internal/graph/graph.go:236-257 | an augmentation that does not lengthen the shortest path removes at least one edge from the shortest paths and adds none |
| `Residuals.TightEdgesBound` | blockchain/eth/mev/relay/v3/internal/graph/graph.go:236-257 | the edges on shortest paths never outnumber the entries of the network |
| `StronglyConnected.Scc` | blockchain/eth/mev/relay/v3/internal/graph/graph.go:182-231 | every node is in exactly one component, two nodes share one exactly when each reaches the other, components are sorted inside and by first member |
| `StronglyConnected.CanonicalComponentsUnique` | blockchain/eth/mev/relay/v3/internal/graph/graph.go:182-231 | a graph has only one such list, so the visiting order of the maps does not matter |
| `StronglyConnected.CanonicalIsIncreasing` | blockchain/eth/mev/relay/v3/internal/graph/graph.go:221-230 | names increase inside each component and from one first member to the next, by the order of strings |
| `StronglyConnected.FirstPass.Visit` | blockchain/eth/mev/relay/v3/internal/graph/graph.go:186-195 | what a visit newly sees is what it finishes, all of it reached through nodes unseen before, and the property of finishing orders that the second pass needs is kept |
| `StronglyConnected.GrownExactly` | blockchain/eth/mev/relay/v3/internal/graph/graph.go:186-195 | a visit sees exactly the nodes that can be reached from its node without touching what was seen before |
| `StronglyConnected.Finished` | blockchain/eth/mev/relay/v3/internal/graph/graph.go:183-199 | the finishing order lists every node once, each with a stretch of nodes found from it that nothing finished earlier points into |
| `StronglyConnected.Reverse` | blockchain/eth/mev/relay/v3/internal/graph/graph.go:314-325 | the reversed graph has exactly the edges turned around, and an entry for every node |
| `StronglyConnected.GatherOne` | blockchain/eth/mev/relay/v3/internal/graph/graph.go:201-223 | one search of the reversed graph from the last unseen finisher collects one whole class of mutual reachability |
| `Topological.TopologicalSort` | blockchain/eth/mev/relay/v3/internal/graph/graph.go:141-180 | fails exactly when the graph has a cycle; otherwise every node once, every edge forward, and no topological order is lexicographically smaller |
| `Topological.GreedyIsLeast` | blockchain/eth/mev/relay/v3/internal/graph/graph.go:162-175 | always taking the least available node gives the lexicographically least order |
| `Topological.LexLeAntisymmetric` | blockchain/eth/mev/relay/v3/internal/graph/graph.go:141-180 | the least order is unique, whatever order the maps are read in |
| `Ordering.LessMeans` | blockchain/eth/mev/relay/v3/internal/graph/graph.go:155-175 | the order of names the sorting calls go by: one comes before another exactly when it is a proper prefix or has the smaller character at the first difference |
| `Topological.InDegrees` | blockchain/eth/mev/relay/v3/internal/graph/graph.go:142-153 | the counters hold the number of edges into each node, duplicates counted |
| `Topological.StuckMeansCycle` | blockchain/eth/mev/relay/v3/internal/graph/graph.go:176-178 | when nodes remain but none is available, there is a cycle |
| `Topological.TopologicalMeansAcyclic` | blockchain/eth/mev/relay/v3/internal/graph/graph.go:141-180 | a graph with a topological order has no cycle |
| `Digraphs.Reachable` | blockchain/eth/mev/relay/v3/internal/graph/graph.go:118-139 | true exactly when a path from start to target exists, the empty path included |
| `Routing.NewRouting` | blockchain/eth/mev/relay/v3/internal/graph/graph.go:28-43 | the table holds the non-empty names, once each, in increasing order |
| `Routing.TableUnique` | blockchain/eth/mev/relay/v3/internal/graph/graph.go:28-43 | the table depends only on the set of non-empty names |
| `Routing.Route` | blockchain/eth/mev/relay/v3/internal/graph/graph.go:51-68 | the shard with the highest score of key and name, the smaller name on a tie; the empty name without shards |
| `Routing.RouteUnique` | blockchain/eth/mev/relay/v3/internal/graph/graph.go:51-68 | a key has one route for a set of shards |
| `Routing.RouteSurvives` | blockchain/eth/mev/relay/v3/internal/graph/graph.go:51-68 | for a subset of the shards, a key whose shard is still there keeps it |
| `Routing.OneShardMoves` | blockchain/eth/mev/relay/v3/internal/graph/graph.go:51-68 | adding a shard moves keys only to it; removing one moves only its keys |
| `Scheduler.BetterThanIsStrictWeak` | blockchain/eth/mev/relay/v3/internal/scheduler/scheduler.go:140-157 | the priority order is a strict weak order, so sorting and searching by it are meaningful |
| `Scheduler.BetterThanIsTotal` | blockchain/eth/mev/relay/v3/internal/scheduler/scheduler.go:140-157 | only items with the same priority, deadline, enqueue time and id are left undecided |
| `Scheduler.BetterThanMeans` | blockchain/eth/mev/relay/v3/internal/scheduler/scheduler.go:140-157 | the order by its fields: higher priority, then the earlier deadline with none last, then the longer wait, then the smaller id |
| `Scheduler.SortedByPrecedence` | blockchain/eth/mev/relay/v3/internal/scheduler/scheduler.go:44-77 | a queue is sorted exactly when every item has that precedence over all behind it |
| `Scheduler.QueueKeepsBest` | blockchain/eth/mev/relay/v3/internal/scheduler/scheduler.go:44-77 | after any pushes the queue is sorted, holds the best items that were not stale, is full if anything was dropped, and nothing dropped or refused is better than anything kept |
| `Scheduler.BestKeptIsSortedFront` | blockchain/eth/mev/relay/v3/internal/scheduler/scheduler.go:44-77 | with distinct keys the queue is the front of the sorted list of all offers |
| `Scheduler.PlaceAt` | blockchain/eth/mev/relay/v3/internal/scheduler/scheduler.go:66-71 | inserting at the index found by the search is inserting in order |
| `QueueProtocol.QueueSafety` | blockchain/eth/mev/relay/v3/internal/scheduler/scheduler.go:44-99 | in every interleaving: a send under the mutex finds room and an open channel, a woken popper finds an item, and when closed is reported every remaining item belongs to a woken popper |
| `QueueProtocol.RunBalanced` | blockchain/eth/mev/relay/v3/internal/scheduler/scheduler.go:44-99 | items = buffered tokens + poppers that hold a token, in every reachable state |
| `QueueProtocol.CanBeEmptied` | blockchain/eth/mev/relay/v3/internal/scheduler/scheduler.go:79-99 | no item is stranded: from every state of every run, closed or not, poppers alone can take all items out |
| `QueueProtocol.ClosedIsFinal` | blockchain/eth/mev/relay/v3/internal/scheduler/scheduler.go:79-99 | when a popper is told that the queue is closed, every item left belongs to another popper already woken, and from then on pushes change nothing and nobody is woken |
| `QueueProtocol.Conservation` | blockchain/eth/mev/relay/v3/internal/scheduler/scheduler.go:44-99 | over every run: items put in = items evicted or popped + items present |
| `QueueProtocol.Queue.constructor` | blockchain/eth/mev/relay/v3/internal/scheduler/scheduler.go:37-42 | starts empty and open; a capacity that is not positive becomes one |
| `QueueProtocol.Queue.Search` | blockchain/eth/mev/relay/v3/internal/scheduler/scheduler.go:66-68 | the binary search finds the first item that is not better |
| `QueueProtocol.Queue.Push` | blockchain/eth/mev/relay/v3/internal/scheduler/scheduler.go:44-77 | closed, then no deadline or one that has passed, then overflow are refused; eviction and insertion as specified, one protocol step, balance kept |
| `QueueProtocol.Queue.Receive` | blockchain/eth/mev/relay/v3/internal/scheduler/scheduler.go:80-88 | takes a token, or reports closed only when no token is left |
| `QueueProtocol.Queue.Take` | blockchain/eth/mev/relay/v3/internal/scheduler/scheduler.go:89-97 | removes the first item, which is always there for a popper with a token |
| `QueueProtocol.Queue.Close` | blockchain/eth/mev/relay/v3/internal/scheduler/scheduler.go:130-138 | closes, touching no item and no token |
| `Lifecycle.OutcomeOnce` | blockchain/eth/mev/relay/v3/internal/lifecycle/state.go:16-76 | a legal path has at most one of forwarded, rejected, dead letter |
| `Lifecycle.AfterOutcome` | blockchain/eth/mev/relay/v3/internal/lifecycle/state.go:16-76 | after an outcome only persisted and completed follow, in that order |
| `Lifecycle.Predecessors` | blockchain/eth/mev/relay/v3/internal/lifecycle/state.go:16-76 | the table read backwards: which states lead to each state |
| `RelayStore.Store.CreateBundle` | blockchain/eth/mev/relay/v3/internal/state/memory/memory.go:41-58 | closed, duplicate and authority errors in that order; otherwise the record is added under its hash, and over the limit the oldest makes room |
| `RelayStore.Store.TransitionBundle` | blockchain/eth/mev/relay/v3/internal/state/memory/memory.go:86-120 | compare-and-set: illegal, missing, mismatched and unauthorised moves change nothing; a move updates state, version, sequence and terminal |
| `RelayStore.Store.UpdateRetryCount` | blockchain/eth/mev/relay/v3/internal/state/memory/memory.go:122-138 | overwrites the count in any state |
| `RelayStore.Store.ScheduleRetry` | blockchain/eth/mev/relay/v3/internal/state/memory/memory.go:199-209 | sets the due time; over the limit the entry due first is dropped |
| `RelayStore.Store.ClaimDueRetries` | blockchain/eth/mev/relay/v3/internal/state/memory/memory.go:211-229 | hands out due entries once each, up to the limit, and all of them when the limit is not reached |
| `RelayStore.Store.PruneLocked` | blockchain/eth/mev/relay/v3/internal/state/memory/memory.go:353-371 | removes one record with the earliest creation time when there are too many, with its index entry |
| `RelayProtocol.RelaySafety` | blockchain/eth/mev/relay/v3/internal/relay/processing.go:85-275 | in every interleaving with stops anywhere: each bundle's states form a legal path ending at its record, with at most one outcome, which is its terminal; sequence = 1 + transitions; at most max(1, MaxRetries) simulations |
| `RelayProtocol.TerminalIsFinal` | blockchain/eth/mev/relay/v3/internal/state/memory/memory.go:86-120 | once set, a bundle's terminal never changes in any later state of the run |
| `RelayRuns.PathsExactly` | blockchain/eth/mev/relay/v3/internal/relay/processing.go:85-275 | a path of states is the history of some bundle in some run exactly when each state may follow by the relay's rules: the rows of the table it uses, a retry while simulations so far are within MaxRetries, a requeue while they are fewer, a dead letter from the queue only after a retry; and every such path is left off at its end in some run |
| `RelayPaths.RunPaths` | blockchain/eth/mev/relay/v3/internal/relay/processing.go:85-275 | no interleaving takes a bundle off those paths |
| `RelayRuns.ForwardedAtLast` | blockchain/eth/mev/relay/v3/internal/relay/processing.go:85-275 | for every MaxRetries some run simulates a bundle max(1, MaxRetries) times and forwards and completes it, all but the last simulation counted as retries |
| `RelayRuns.DeadLetteredAtLast` | blockchain/eth/mev/relay/v3/internal/relay/processing.go:104-107 | for every MaxRetries some run dead-letters and completes a bundle when exactly MaxRetries retries were counted, none for a limit that is not positive |
| `RelayRuns.RejectedAtOnce` | blockchain/eth/mev/relay/v3/internal/relay/service.go:180-314 | some run rejects and completes a bundle that was never simulated |
| `RelayRuns.EvictionRun` | blockchain/eth/mev/relay/v3/internal/relay/service.go:180-314 | of two submissions with no worker the second pushes the first out of the queue, and however many of the steps that settle the evicted one succeed, the second is queued |
| `RelayProtocol.StepKeeps` | blockchain/eth/mev/relay/v3/internal/relay/processing.go:85-275 | every step of every activity keeps the invariant: records agree with histories, retry counts account for simulations, and no bundle is in two hands |
| `RelayProtocol.CreateKeeps` | blockchain/eth/mev/relay/v3/internal/relay/service.go:180-314 | creating a record disturbs no other bundle and no running activity |
| `RelayProtocol.SettleKeeps` | blockchain/eth/mev/relay/v3/internal/relay/terminal.go:10-31 | settling a bundle from wherever its caller believes it to be keeps the invariant, evicted bundles included |
| `RelayProtocol.LateKeeps` | blockchain/eth/mev/relay/v3/internal/relay/persistence.go:77-113 | the steps to persisted and completed keep the invariant |
| `RelayProtocol.RunExtends` | blockchain/eth/mev/relay/v3/internal/relay/processing.go:85-275 | histories only grow along a run |
| `WriteAheadLog.Wal.constructor` | blockchain/eth/mev/relay/v3/internal/eventlog/wal.go:31-46 | opens over existing entries with the default period and size for settings that are not positive |
| `WriteAheadLog.Wal.AppendEncoded` | blockchain/eth/mev/relay/v3/internal/eventlog/wal.go:57-83 | one entry more, fewer than flushEvery unflushed, none after a checkpoint, and never more in the file than it had at the start plus twice maxEntries; nothing changes when closed |
| `WriteAheadLog.Wal.ReadAll` | blockchain/eth/mev/relay/v3/internal/eventlog/wal.go:85-105 | an error when closed; otherwise, for 0 < limit ≤ maxEntries, the last entries of everything ever appended, and for any limit that holds exactly when the file still has enough entries or has lost none |
| `WriteAheadLog.Wal.Close` | blockchain/eth/mev/relay/v3/internal/eventlog/wal.go:117-134 | flushes everything that was pending, once, and leaves the log closed |
| `WriteAheadLog.Wal.CompactLocked` | blockchain/eth/mev/relay/v3/internal/eventlog/wal.go:136-172 | keeps the last maxEntries entries and leaves the log as a reader within bounds sees it |
| `WriteAheadLog.ReadEntries` | blockchain/eth/mev/relay/v3/internal/eventlog/wal.go:174-196 | the shifting window ends as the last entries of the file |
| `WriteAheadLog.AppendThenRead` | blockchain/eth/mev/relay/v3/internal/eventlog/wal.go:57-105 | after any appends, with any buffer spills, a bounded read shows the end of the whole history |
| `WriteAheadLog.LastOfSuffixOnly` | blockchain/eth/mev/relay/v3/internal/eventlog/wal.go:85-105 | a kept suffix shows the same last entries exactly when it is long enough or complete |
| `Commitment.Root` | blockchain/eth/mev/relay/v2/internal/commitment/merkle.go:27-47 | the layer loop computes the root |
| `Commitment.SmallRoots` | blockchain/eth/mev/relay/v2/internal/commitment/merkle.go:6-47 | the roots of no, one, two and three leaves written out with prefix bytes, order of halves, the odd node twice, and the text for no leaves |
| `Commitment.RootIsTreeHash` | blockchain/eth/mev/relay/v2/internal/commitment/merkle.go:27-47 | the root is the recursive hash of a binary tree in which an odd node appears twice |
| `Commitment.TreeHashBinds` | blockchain/eth/mev/relay/v2/internal/commitment/merkle.go:6-24 | two trees with one hash are equal, or a string hashed for the one and a different string hashed for the other have the same hash; leaf and pair prefixes keep the kinds apart |
| `Commitment.RootAndCountBind` | blockchain/eth/mev/relay/v2/internal/commitment/merkle.go:27-47 | equal root and equal number of leaves: equal leaves, or two different strings hashed for the two lists have the same hash |
| `Commitment.RootCommitsToTree` | blockchain/eth/mev/relay/v2/internal/commitment/merkle.go:27-47 | unless the strings hashed for the two lists collide, the lists share a root exactly when they build the same tree |
| `Commitment.SameTreeIffPadded` | blockchain/eth/mev/relay/v2/internal/commitment/merkle.go:35-45 | two lists build the same tree exactly when they agree once their odd blocks, of every size, are repeated |
| `Commitment.RootCommitsToPadded` | blockchain/eth/mev/relay/v2/internal/commitment/merkle.go:27-47 | unless the strings hashed for the two lists collide, they share a root exactly when they agree in that way |
| `Commitment.CountIsNeeded` | blockchain/eth/mev/relay/v2/internal/commitment/merkle.go:35-45 | every odd list of at least three leaves shares its root with a longer list |
| `Transactions.BeforeIsStrictWeak` | blockchain/eth/txpool-builder/v2/internal/service/snapshot_util.go:135-159 | the ranking is a strict weak order |
| `Transactions.CompareTxIsTotal` | blockchain/eth/txpool-builder/v2/internal/service/snapshot_util.go:135-159 | swapping the arguments swaps the sign, and different hashes are never tied |
| `Transactions.BeforeMeans` | blockchain/eth/txpool-builder/v2/internal/service/snapshot_util.go:135-159 | the ranking by its fields: a score before none, a higher score first, then less gas, then the smaller hash |
| `Transactions.Totals` | blockchain/eth/txpool-builder/v2/internal/service/build_candidate.go:43-50 | the gas total is the sum modulo 2^64, and the sum itself when that fits; the revenue is the sum of the known scores |
| `CandidateHeap.Push` | blockchain/eth/txpool-builder/v2/internal/service/build_select.go:71-91 | keeps the heap and adds exactly the candidate |
| `CandidateHeap.Pop` | blockchain/eth/txpool-builder/v2/internal/service/build_select.go:71-91 | keeps the heap, removes exactly one candidate, and none left is ahead of it |
| `Selection.SelectTransactions` | blockchain/eth/txpool-builder/v2/internal/service/build_select.go:11-63 | the sequence of picks: each is the next transaction of a sender in play, by its fields at least as good as the next one of every other sender in play, and is taken exactly when its gas fits, otherwise its sender is out; selected, rejected and ranking are read off the picks; below the count limit nobody is left in play; for distinct hashes the same sequences as rescanning all heads each round; gas used + gas left = limit; each sender contributes a prefix of its chain |
| `Selection.InitialHeap` | blockchain/eth/txpool-builder/v2/internal/service/build_select.go:16-29 | the heap starts with the first transaction of every non-empty chain |
| `Selection.FirstIsUnique` | blockchain/eth/txpool-builder/v2/internal/service/build_select.go:38-39 | with distinct hashes only one head can rank first, so heap ties do not matter |
| `SenderChains.NormalizeSenderChain` | blockchain/eth/txpool-builder/v2/internal/service/snapshot_normalize.go:39-72 | the longest gap-free nonce run from the lowest nonce, each the best of its group and within the block gas; every transaction of a visited nonce is in the chain or rejected, as replaced by another of its nonce or, for the one that ends the run, as a gap or as too big when it is; visited nonces precede unvisited ones |
| `SenderChains.PickBest` | blockchain/eth/txpool-builder/v2/internal/service/snapshot_normalize.go:52-58 | the first of the stably sorted group is, by score, gas and hash, at least as good as every one of the group, and all others are rejected |
| `SenderChains.RunIsBestByFields` | blockchain/eth/txpool-builder/v2/internal/service/snapshot_normalize.go:39-72 | each transaction of a run is, by score, gas and hash, at least as good as every other of its nonce |
| `SenderChains.SelectedRun` | blockchain/eth/txpool-builder/v2/internal/service/snapshot_normalize.go:39-72 | any prefix of a run is a run from the sender's lowest nonce |
| `BlockBuilder.NormalizePool` | blockchain/eth/txpool-builder/v2/internal/service/snapshot_normalize.go:12-36 | every sender's chain is a maximal run with a reason for everything it lost, and the decisions are those of the senders in increasing order |
| `BlockBuilder.BuildBlock` | blockchain/eth/txpool-builder/v2/internal/service/build_candidate.go:43-50 | from pool to totals: the 64-bit gas total never wraps and stays within the limit, and each sender's share is a contiguous run from its lowest nonce, each the best of its nonce |
| `Guard.JsonEqualsIsEquality` | workflow-engine/src/v2/core/guard.ts:20-42 | structural comparison decides equality |
| `Guard.GetPath` | workflow-engine/src/v2/core/guard.ts:7-18 | the loop finds what property reads along a path of words find: an own value, an inherited function, the prototype object, or nothing |
| `Guard.JoinedSplit` | workflow-engine/src/v2/core/guard.ts:8-8 | the parts of a path have no dots and, joined with dots, are the path |
| `Guard.SplitJoined` | workflow-engine/src/v2/core/guard.ts:8-8 | parts without dots, joined with dots, are the parts of the path |
| `Guard.WordChars` | workflow-engine/src/v2/core/guard.ts:12-12 | parts are made of ASCII letters, digits and underscores |
| `Guard.RootParts` | workflow-engine/src/v2/core/guard.ts:70-70 | paths start with the name of the context or of the payload and go on inside it; any other start finds no own value |
| `Guard.ComparisonsMean` | workflow-engine/src/v2/core/guard.ts:82-92 | each comparison decides its own relation between the number at the path and the bound, and fails without a number |
| `Guard.PlainIff` | workflow-engine/src/v2/core/guard.ts:7-18 | a path means its own-property value in every document if and only if it is not a path of words that ends in an inherited name |
| `Guard.NestedFindsInherited` | workflow-engine/src/v2/core/guard.ts:14-15 | for every path that does, a document in which it finds an inherited value although no own property is there |
| `Guard.InheritedNames` | workflow-engine/src/v2/core/guard.ts:14-14 | the inherited names are the twelve members of the object prototype |
| `Guard.PrototypeChain` | workflow-engine/src/v2/core/guard.ts:13-15 | behind an object without an own __proto__ a path finds the prototype object, then null, and the inherited functions |
| `Guard.OwnPathsOnly` | workflow-engine/src/v2/core/guard.ts:7-18 | in particular a path without inherited names finds exactly the value at that path through own properties |
| `Guard.EvaluatePredicate` | workflow-engine/src/v2/core/guard.ts:50-104 | passes exactly when the predicate is true and its short-circuit operation count is within the budget; usedOps is that count, or budget + 1 |
| `Guard.Interpreter.EvalPred` | workflow-engine/src/v2/core/guard.ts:53-96 | from any counter: the meaning and the exact count within budget, an abort with the counter at budget + 1 otherwise |
| `Guard.Interpreter.EvalArgs` | workflow-engine/src/v2/core/guard.ts:61-66 | the loops of and/or stop at the first deciding argument and count no further |
| `Guard.FailsClosed` | workflow-engine/src/v2/core/guard.ts:50-104 | with too small a budget neither a predicate nor its negation passes |
| `Guard.BudgetMonotone` | workflow-engine/src/v2/core/guard.ts:50-104 | more budget never turns a pass into a failure |
| `Guard.BudgetOfSizeSuffices` | workflow-engine/src/v2/core/guard.ts:50-104 | a budget as large as the predicate makes passing the same as being true |
| `SpecValidation.ValidateSpec` | workflow-engine/src/v2/core/validateSpec.ts:319-481 | accepted exactly when header, states, table and timeouts are in order; the issues are exactly those of the first stage with errors, code by code, and UNREACHABLE_STATE for the states of a clean non-empty table without a path from the initial state; the result has every field and entry as given, no name empty, one transition per (from, on), known states and allowed effects |
| `SpecValidation.CheckTransitions` | workflow-engine/src/v2/core/validateSpec.ts:365-423 | each entry gets exactly the error codes it deserves by itself and the entries before it, and the kept entries are the typed ones in order |
| `SpecValidation.StatesIssues` | workflow-engine/src/v2/core/validateSpec.ts:353-423 | the errors about states and table, exactly as deserved, and the typed table when there are none |
| `SpecValidation.Warnings` | workflow-engine/src/v2/core/validateSpec.ts:425-445 | one kind of warning, for exactly the flagged states |
| `SpecValidation.FlagsExactIff` | workflow-engine/src/v2/core/validateSpec.ts:425-425 | for an accepted specification the flags are exactly the unreachable states if and only if the table is non-empty or the initial state is the only one |
| `SpecValidation.EmptyTableUnflagged` | workflow-engine/src/v2/core/validateSpec.ts:425-425 | an accepted specification with an unreachable state and no flag |
| `SpecValidation.Visit` | workflow-engine/src/v2/core/validateSpec.ts:429-439 | the search visits exactly the states with a path from the start |
| `SpecValidation.BuildGraph` | workflow-engine/src/v2/core/validateSpec.ts:426-428 | the adjacency map lists each state's targets in table order |
| `JoinedKeys.CollideIff` | workflow-engine/src/v2/core/validateSpec.ts:385-389 | two state names of different length share a joined key for some inputs exactly when the longer is the shorter followed by a colon, or starts with the shorter and the separator |
| `JoinedKeys.AcceptsAllIff` | workflow-engine/src/v2/core/validateSpec.ts:385-389 | every specification over given states that is in order is accepted if and only if no two of the states are so related |
| `JoinedKeys.CleanIsPairClean` | workflow-engine/src/v2/core/validateSpec.ts:385-389 | what is accepted never repeats a (from, on) pair |
| `JoinedKeys.FalseDuplicate` | workflow-engine/src/v2/core/validateSpec.ts:385-389 | a specification that is in order but refused: its second entry deserves the duplicate error and no other |
| `Engine.FindUnique` | workflow-engine/src/v2/core/decide.ts:56-61 | in a validated specification the transition found is the only candidate |
| `Engine.BuildEffects` | workflow-engine/src/v2/core/decide.ts:63-80 | nothing skipped exactly when all types are allowed, and then one effect per template with its position in the id |
| `Engine.TakenIff` | workflow-engine/src/v2/core/decide.ts:4-54 | on a validated specification an input is taken exactly when the instance runs, its one transition's guard is true within budget and the outputs are within the limits |
| `Engine.BuildPendingTasks` | workflow-engine/src/v2/runtime/engine.ts:381-422 | one task per next input and per timeout of the new state, due after their delays |
| `Engine.TaskIdsDistinct` | workflow-engine/src/v2/runtime/engine.ts:389-419 | the tasks of one commit never share an id |
| `Engine.TimeoutsMatch` | workflow-engine/src/v2/runtime/engine.ts:405-419 | exactly the rules of the new state have their tasks |
| `Engine.DecimalMeans` | workflow-engine/src/v2/runtime/engine.ts:394-394 | positions in ids are written as decimal numbers without leading zeros |
| `Projections.ReplayJournal` | workflow-engine/src/v2/adapters/store-file/storeFile.ts:86-123 | the loop over the records is the fold of their updates over insertion-ordered maps |
| `Projections.ApplyRecordToProjection` | workflow-engine/src/v3/workflowStorePg.ts:244-271 | one record applied through maps rebuilt from arrays |
| `Projections.JsonRoundTrip` | workflow-engine/src/v3/workflowStorePg.ts:199-242 | a projection survives its stored form, and its maps can be rebuilt in the same order |
| `Projections.StoreJournal` | workflow-engine/src/v3/workflowStorePg.ts:199-271 | for every record sequence, applying records one by one with the stored round trip in between equals the full replay, order of pending effects and tasks included |
| `Projections.ReplayedOk` | workflow-engine/src/v2/adapters/store-file/storeFile.ts:86-123 | ids stay unique and every pending value sits under its own id |
| `Projections.InPlace` | workflow-engine/src/v2/adapters/store-file/storeFile.ts:96-114 | a value put under a present id keeps its place, and a removed one leaves the others in order |
| `WorkflowRuns.AnswersFarApart` | workflow-engine/src/v2/runtime/engine.ts:155-160 | in every run a commit, or a rejection other than a specification mismatch, is more than 604,800,000 ms after every earlier commit or rejection of the same event |
| `WorkflowRuns.TimesNeverDecrease` | workflow-engine/src/v2/runtime/engine.ts:188-188 | recorded times never go back |
| `WorkflowRuns.SeenIsLastAnswer` | workflow-engine/src/v2/adapters/store-file/storeFile.ts:96-107 | the seen map holds, for exactly the answered events, the time of the last answer |
| `Worklists.OutstandingIff` | workflow-engine/src/v2/adapters/store-file/storeFile.ts:99-114 | a list of work in a journal holds exactly the ids that were queued and not acknowledged since |
| `Worklists.StaysIntact` | workflow-engine/src/v2/adapters/store-file/storeFile.ts:99-114 | a value whose id is not touched again stays on the list as it was queued |
| `WorkflowRuns.ReplayIsOutstanding` | workflow-engine/src/v2/adapters/store-file/storeFile.ts:86-123 | the replay keeps pending effects and pending tasks by the same rules |
| `WorkflowRuns.AckedWasAnswered` | workflow-engine/src/v2/runtime/engine.ts:100-127 | a task is acknowledged only while pending, so once per queueing, and after a commit or rejection with its id as event id |
| `WorkflowRuns.PendingIff` | workflow-engine/src/v2/adapters/store-file/storeFile.ts:99-114 | a task is pending exactly when some commit queued it and nothing acknowledged it since |
| `WorkflowRuns.NoTaskLost` | workflow-engine/src/v2/runtime/engine.ts:100-127 | a queued task is pending, or was answered and acknowledged later |
| `WorkflowRuns.TaskStaysIntact` | workflow-engine/src/v2/adapters/store-file/storeFile.ts:99-114 | until then, and unless its id is queued again, it is pending exactly as queued |
| `WorkflowRuns.PendingEffectIff` | workflow-engine/src/v2/adapters/store-file/storeFile.ts:99-110 | an effect is pending exactly when some commit queued it and nothing acknowledged it since |
| `WorkflowRuns.NoEffectLost` | workflow-engine/src/v2/runtime/engine.ts:73-97 | a queued effect is pending or was acknowledged later |
| `WorkflowRuns.EffectAckedWasPending` | workflow-engine/src/v2/runtime/engine.ts:77-89 | an effect is acknowledged only while pending, so at most once per queueing |
| `WorkflowRuns.EffectStaysIntact` | workflow-engine/src/v2/adapters/store-file/storeFile.ts:99-110 | until acknowledged, and unless its id is queued again, an effect is pending exactly as queued |
| `Deployments.AlwaysInsideIff` | workflow-engine/src/v2/runtime/engine.ts:138-203 | over any set of specifications, every legal run leaves the instance in a state of each specification the engine accepts for it, if and only if each one has every state that those of its id and version reach together |
| `Deployments.RunStaysJoint` | workflow-engine/src/v2/runtime/engine.ts:138-203 | the state of an instance is always one that the specifications of its id and version reach together |
| `Deployments.StateAlwaysReachable` | workflow-engine/src/v2/runtime/engine.ts:138-203 | where id and version determine the specification, the instance is in a state of its own specification that the initial state reaches |
| `Deployments.StateOfLastMover` | workflow-engine/src/v2/runtime/engine.ts:138-203 | with any deployments at all, the state is one of those of the specification that last moved or created the instance |
| `Deployments.EditStrands` | workflow-engine/src/v2/runtime/engine.ts:141-203 | whenever one specification commits a transition to a state that another of its id and version lacks, the engine with the other one accepts the instance there and rejects its next input for want of a transition; both records are those of the verdicts |
| `Deployments.EditedSpecStrands` | workflow-engine/src/v2/runtime/engine.ts:141-203 | two such specifications, written out, with the journal the engine writes |
| `Deployments.NeverInFlaggedState` | workflow-engine/src/v2/runtime/engine.ts:198-203 | with an accepted specification and an empty store at first, the instance is never in a flagged state nor outside the states |
| `WorkflowRuns.VersionCountsCommits` | workflow-engine/src/v2/runtime/engine.ts:198-203 | the version is the number of commits |
| `WorkflowRuns.AlwaysRunning` | workflow-engine/src/v2/runtime/engine.ts:198-203 | in every run the instance is running: the engine never changes its status |
| `WorkflowRuns.StartsFresh` | workflow-engine/src/v2/runtime/engine.ts:289-299 | a journal starts with an answer, to an input that met version 0 in the initial state, with an empty context, running |
| `Verdicts.VerdictIsLegal` | workflow-engine/src/v2/runtime/engine.ts:134-243 | whatever the checks decide, the record they ask for extends the run legally, and a deduplicated event has been answered |
| `Verdicts.CommitTakes` | workflow-engine/src/v2/runtime/engine.ts:188-223 | the record of an accepted input takes its transition: state, version and, exactly when there is a patch, context move on; each effect template, next input and timeout rule of the new state is pending under its id with its type, payload and due time; no other pending work changes |
| `Verdicts.EffectsQueued` | workflow-engine/src/v2/runtime/engine.ts:372-379 | every effect of the transition is put on the list under the event id and its position, with its type and parameters, and nothing else changes |
| `Verdicts.AcceptedIff` | workflow-engine/src/v2/runtime/engine.ts:141-196 | on a validated specification an input is accepted exactly when id and version match, the event is not remembered, payload, quota and context allow it and the transition for its type is open: guard, effect types and limits |
| `Verdicts.DedupedIff` | workflow-engine/src/v2/runtime/engine.ts:155-160 | an input is deduplicated exactly when its specification matches and its event was last answered at most 604,800,000 ms ago |
| `Verdicts.RefusalMeans` | workflow-engine/src/v2/runtime/engine.ts:141-196 | what each reason for a rejection says: a mismatch, an oversized payload or context, the quota's words, no transition on the input's type, a guard that fails, outputs that are not allowed |
| `Runtime.Workflow.Append` | workflow-engine/src/v2/runtime/engine.ts:328-354 | journal and report follow exactly from the store's behaviour: it writes and confirms, finds an answered event, or fails or crashes with or without having written; the run stays legal |
| `Runtime.Workflow.AppendRejection` | workflow-engine/src/v2/runtime/engine.ts:245-287 | the rejection, with the instance unchanged, goes to the store, and the answer follows from what it reports |
| `Runtime.Workflow.Judge` | workflow-engine/src/v2/runtime/engine.ts:141-196 | the checks in order: mismatch, dedupe, payload, quota, decision, context |
| `Runtime.Workflow.HandleLocked` | workflow-engine/src/v2/runtime/engine.ts:134-243 | the one record the verdict asks for goes to the store, and journal and answer follow from the store's behaviour; a commit takes an open transition with all its work queued, a rejection means what its reason says, the answer is true of the journal, and unless the store seems to have failed the event is answered afterwards |
| `Runtime.Workflow.DrainTasks` | workflow-engine/src/v2/runtime/engine.ts:100-127 | the tasks are handled in turn, each as an event with its own id, type and payload against the journal the one before left, and acknowledged exactly when its result is not store-append-failed; nothing else is written; the run is legal at every crash point |
| `Runtime.TaskRecordMeans` | workflow-engine/src/v2/runtime/engine.ts:100-127 | a task that is committed took a transition on its own type from the state the instance was in; one rejected for want of a transition had none there on its type |
| `Runtime.Workflow.DrainEffects` | workflow-engine/src/v2/runtime/engine.ts:73-97 | the pending effects in order, each acknowledged if and only if its execution succeeded, up to the limit; finishes when the store confirms |
| `Runtime.Workflow.DrainPendingWork` | workflow-engine/src/v2/runtime/engine.ts:61-132 | a drain finishes when the store confirms its writes; it writes the acknowledgements of the effects first and none later, then handles the pending tasks that are due, in their order, up to the limit, each as the event it was queued for |

## Left out

- EdmondsKarp.MaxFlow: with negative capacities, or opposite ones whose sum leaves 64 bits, only the bound on rounds is stated. The bound is exact for every pair of capacities (PairIff), but a single network beyond it may still be answered rightly, depending on which of several shortest paths the map order offers.
- EdmondsKarp.MinCut: stated under the same condition on sums, and without one on the total; the augmentation loop, which the source repeats there, is the one method Saturate.
- Scheduler.QueueKeepsBest: priorities are real numbers, so NaN is not modelled.
- QueueProtocol.Queue.Take: the source's retry when the list is empty is proved never to happen; cancellation of Pop by its context and the helpers Len, Snapshot and OldestAge are not modelled.
- RelayProtocol.RelaySafety: runs in which no record is pruned; a dropped retry entry is a claim whose handler stops at once. Liveness of queued bundles is not claimed, because an item is pushed before its record is marked queued.
- RelayRuns.PathsExactly: deadlines, values and simulation results are the environment's, so a path is possible when some of them lead along it.
- RelayStore.Store.CreateBundle: bundle ids are pairs of hash and request number instead of the joined string; authority and lease timing are an arbitrary yes or no.
- The per-client in-flight counter: released on paths that never reserved it, so nothing is conserved.
- Event emission, checkpoints, recovery after restart and policy loops of the relay service.
- WriteAheadLog.Wal.CompactLocked: file operations are atomic and entries survive encoding; I/O errors and Health are not modelled.
- Commitment.Root: the hash is any function to 32 bytes; SHA-256 itself is not modelled.
- SenderChains.NormalizeSenderChain: transactions of nonces after the one that ends the run get no decision, as in the source; decoding of pool entries is not modelled.
- Selection.SelectTransactions: accepted decisions repeat the selected list and are omitted; the heap is a value passed along instead of a slice updated in place.
- Merging of queued with pending chains, since merged chains may have gaps, and the trace record of a built candidate.
- Guard.GetPath: the prototype of objects is the unmodified one of the language; numbers are reals and budgets whole numbers.
- SpecValidation.ValidateSpec: a value that is not an object at all is not modelled; the nested validators of guards, patches, effects, next inputs, limits, permissions and timeouts are abstracted to valid or invalid with one error code each; order and repetition of issues are not stated; delays are whole milliseconds.
- Deployments.AlwaysInsideIff: legal runs follow states, times and acknowledgements; a guard that never passes may keep the engine from some of them, so a set of specifications that fails the condition may be harmless for that reason.
- Deployments.StateAlwaysReachable: assumes that id and version determine the specification; AlwaysInsideIff is the exact condition for the state to be known, without that assumption.
- Engine.TakenIff: metrics, logging, tenants and actors of inputs carry no behaviour here.
- Runtime.Workflow.HandleLocked: the patched context is supplied by the environment, so the theorems hold for whatever the patch does; one workflow with its own journal, the sequencer making calls on it one at a time.
- Runtime.Workflow.Append: the version check and transactions of the Postgres store are an arbitrary failure; stores without an append method are not modelled.
- Projections.JsonRoundTrip: malformed stored rows and the old object form of seen ids are not modelled.
- The v0 and v1 generations, HTTP handlers, brokers, object stores, tracing and configuration, and the Solana components.
