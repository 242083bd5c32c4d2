# FP-SAN verification

FP-SAN is a spiking associative network with a language front end, a motor
output and a brain file. This project models the algorithms at its core in Dafny
4.11 and proves what they promise. Check it with
`dafny verify dfyconfig.toml`.

Where the program changes arrays, fields and counters step by step, the model is
a method or a class over arrays and fields, proved against a specification
function or relation; the theorems are lemmas about that specification. Where
threads interleave, the model is a state machine whose steps are the single
loads, stores and compare-and-swaps of each thread, and the theorems hold over
every run.

- `RingSlots`, `MpmcQueue`, `SpikeQueue`, `Scheduler`: the bounded queue of spike
  events as a machine of producers and consumers, the same queue as one thread
  sees it, and the budgeted drain whose events may post new ones.
- `FreeList`: tagged free stack and arena claim of neurogenesis, as a machine
  and without interleaving.
- `Graph`, `PlanPath`, `EdgeTable`, `Spread`, `SpreadBound`,
  `SpreadReach`, `TopActivated`, `Snapshot`: the graph algorithms: shortest paths, the bounded edge table,
  spreading activation, what it reaches and how far it goes, the most activated nodes, and
  the short-term memory heap.
- `Words`, `Lexicon`, `Tokenizer`, `Phrases`, `Levenshtein`: the front end.
- `CortexData`, `LanguageCortex`: online clustering of word hashes.
- `Memory`: writer and reader of the brain file, record by record.
- `Motor`, `GoalChain`: the motor queue with its epochs, its thread and the kill
  latch, and the goal step that screens a chain of actions before queueing it.
- `CommutativeRing`, `Fft`: the in-place transform over any commutative ring.

## What turned out false

The code is modelled as it is. These expectations fail; for each there is a
proved counterexample, or the exact condition under which it holds, or both:

- The tag of the free stack does not always protect a pop: emptying the stack
  loses it (`FreeList.LostTagRun`). The stack stays sound if and only if every
  successful pop installs the current link (`FreeList.RunInvExactly`), which the
  tag ensures as long as no pop spans an emptying (`FreeList.TagProtects`).
- Spreading can change a node one hop beyond the depth bound, through a binding
  node at the bound that fired before the query (`Spread.BoundAttained`) or
  earlier in the same query (`SpreadBound.FiredInTheSameQuery`); never further
  (`Spread.QueryEffect`). It stays within the bound when the members of binding
  nodes at the bound are within it (`SpreadBound.ContainedIsEnough`), and without
  amplification only then (`SpreadBound.BoundHoldsExactly`).
- A query does not always reach what is within the depth bound. A node that is
  raised first by a walk as long as the bound is not expanded when a shorter walk
  comes to it (`SpreadReach.ShortcutIsMissed`), and old voltage holds a walk up
  (`SpreadReach.OldVoltageBlocks`). Walks are honoured where those as long as the
  bound are weaker than shorter ones (`SpreadReach.WalkHonoured`); for equal
  weights that is so exactly below 1 / 0.7 (`SpreadReach.UniformExactly`).
- `apply_stdp` can leave the edge table out of order (`EdgeTable.StdpBreaksOrder`);
  exactly when is stated by `EdgeTable.StdpSortedExactly`, and the next `add_edge`
  repairs it.
- The value returned by `levenshtein_dist` breaks the triangle inequality, because
  of its early 99 (`Levenshtein.TriangleBroken`); exactly when is stated by
  `Levenshtein.TriangleExactly`.
- A goal chain that is longer than the screening bound is not queued as screened
  (`GoalChain.QueuedIsScreenedExactly`, `GoalChain.LongChain`), and one that comes
  to a motor node again is queued without end (`GoalChain.WalkEndsExactly`,
  `GoalChain.ChainEndsExactly`).
- After a shutdown a waiting `queue_string` can lose a piece in the middle
  (`Motor.GapAfterShutdown`), never before (`Motor.NothingGivenUpWhileRunning`);
  what is typed is then a prefix as long as no piece is dispatched after one that
  was given up on (`Motor.InitialSegmentExactly`).
- The brain file repeats itself at once exactly when no node is dead
  (`Memory.FirstFileRepeats`); always from the second generation on.
- A word hash without any spike opens a cluster that does not recognise it
  (`LanguageCortex.RecognisedExactly`).

## Model

| member | source | states |
|---|---|---|
| `Fft.Transform` | src/core/fpsan_ears.h:281-303 | For every power-of-two length, over any commutative ring with a root w of which the power n/2 is -1, the in-place loops leave in slot j exactly the sum over i of input[i] * w^(j*i) |
| `Fft.BitReverse` | src/core/fpsan_ears.h:283-288 | The first loop is precisely the bit-reversal permutation: slot p ends with the input of slot Rev(p), for every p |
| `Fft.RevInvolution` | src/core/fpsan_ears.h:283-288 | Reversing the bits twice gives the position back, so the first loop is its own inverse |
| `Fft.ReversedIncrement` | src/core/fpsan_ears.h:284-286 | The inner bit loop turns Rev(p) into Rev(p+1): it increments from the top bit down |
| `Fft.DftSplits` | src/core/fpsan_ears.h:289-301 | A transform of even length is the transform of the even positions plus w^j times that of the odd ones, at w squared |
| `Fft.ButterflyIsDft` | src/core/fpsan_ears.h:294-298 | One butterfly: u + v and u - v are the full-length sums at j and at j + len/2 |
| `Fft.CombinedSpectrum` | src/core/fpsan_ears.h:294-300 | Butterflies over two neighbouring half-length spectra give the spectrum of the input they interleave |
| `Fft.Combine` | src/core/fpsan_ears.h:293-300 | The innermost loop changes only its block, and leaves there the butterflies of the old values with the successive powers of wlen |
| `Fft.Stage` | src/core/fpsan_ears.h:289-302 | One pass over the array doubles the length of the finished blocks, for every block |
| `CommutativeRing.ComplexIsLawful` | src/core/fpsan_ears.h:281-298 | The complex numbers with the operations the loops use satisfy the ring laws that the theorem asks for |
| `MpmcQueue.ThreadStepKeeps` | src/core/fpsan_san_scheduler.h:70-116 | Every single load, compare-and-swap (with spurious failures), write and publish of any thread keeps the ticket invariant |
| `MpmcQueue.RunInv` | src/core/fpsan_san_scheduler.h:34-116 | The ticket invariant holds after every interleaving of any number of producers and consumers |
| `MpmcQueue.EachTicketOnce` | src/core/fpsan_san_scheduler.h:70-116 | Over the whole run every ticket below enqueue_pos has been claimed exactly once by a producer, every ticket below dequeue_pos exactly once by a consumer, no other ticket ever, and the event of a ticket has been read at most once |
| `MpmcQueue.TicketsExclusive` | src/core/fpsan_san_scheduler.h:70-116 | Two threads at work on the same side never own the same ticket at the same moment |
| `MpmcQueue.NothingLostOrDuplicated` | src/core/fpsan_san_scheduler.h:70-116 | The consumer of ticket p gets exactly the event that the producer of ticket p pushed; an accepted event is delivered if and only if it is no longer held, and a consumer about to read a ticket finds it not yet delivered |
| `MpmcQueue.PushOutcome` | src/core/fpsan_san_scheduler.h:73-90 | In every run, a push that has loaded its cell returns false if and only if its position is current and the ticket one lap earlier is not yet released; it goes on to its compare-and-swap if and only if the cell is free for its position; otherwise, being out of date, it starts again; nothing else changes |
| `MpmcQueue.PopOutcome` | src/core/fpsan_san_scheduler.h:96-115 | In every run, a pop that has loaded its cell returns false if and only if its position is current and nothing is published there; it goes on to its compare-and-swap if and only if an event is ready; otherwise it starts again; nothing else changes |
| `MpmcQueue.SoloPush` | src/core/fpsan_san_scheduler.h:70-91 | From every reachable state, whatever the other threads are in the middle of, a push left alone can complete: its event is accepted under the next ticket and published, or, when the queue is full, nothing changes |
| `MpmcQueue.SoloPop` | src/core/fpsan_san_scheduler.h:93-116 | From every reachable state a pop left alone can complete: it takes the oldest event and releases its cell, or, when nothing is published there, nothing changes |
| `MpmcQueue.FullExactly` | src/core/fpsan_san_scheduler.h:75-87 | The number in the cell is below the position of a push if and only if the position is current and the ticket one lap earlier is taken and not yet released |
| `MpmcQueue.EmptyExactly` | src/core/fpsan_san_scheduler.h:98-111 | The number in the cell is below the position plus one of a pop if and only if the position is current and nothing has been published there |
| `MpmcQueue.StaleCell` | src/core/fpsan_san_scheduler.h:75-89 | The cell of a position already claimed has a number no smaller than the position, and a larger one once the ticket is published or consumed |
| `RingSlots.SlotIsModulo` | src/core/fpsan_san_scheduler.h:74 | The slot of a ticket, reached by going round the ring, is the ticket modulo the capacity, which masking computes for a power of two |
| `SpikeQueue.Queue.TryPush` | src/core/fpsan_san_scheduler.h:70-91 | With one thread at work the cells and counters are a FIFO that refuses an event exactly at capacity |
| `SpikeQueue.Queue.TryPop` | src/core/fpsan_san_scheduler.h:93-116 | With one thread at work a pop takes the oldest event, and fails exactly when there is none |
| `Scheduler.Scheduler.DrainUntil` | src/core/fpsan_san_scheduler.h:148-177 | Processes the oldest events, re-posts included, up to the first point where the queue is empty, the oldest event is not due, the count reaches budget/1000 + 32 or the clock passes the end; count and final world are determined exactly |
| `Scheduler.StopsExactly` | src/core/fpsan_san_scheduler.h:148-177 | After k events the drain goes on if and only if an event waits, k is below budget/1000 + 32, no clock sample, taken after every eighth event, has passed the end, and the oldest event is due at the last sample |
| `Scheduler.OutcomeConserves` | src/core/fpsan_san_scheduler.h:160-176 | Initial events plus accepted re-posts are the processed ones plus the remaining ones in FIFO order, except for one event that is not due, which is now last; none is lost |
| `Scheduler.DrainConserves` | src/core/fpsan_san_scheduler.h:160-166 | After any number of processed events: initial + accepted = processed + remaining, in order |
| `Scheduler.DrainBrings` | src/core/fpsan_san_scheduler.h:183-204 | Every node ends with exactly what it had plus the positive doses of the processed events along their source's edges, events posted on the way included |
| `Scheduler.EventBrings` | src/core/fpsan_san_scheduler.h:183-204 | One event with positive voltage, below the hop limit and with its source in range, raises every node by a tenth of its voltage for every unit of positive weight that leads there; any other changes nothing |
| `Scheduler.SpikesAreCrossings` | src/core/cluster_graph.h:468-477 | Every spike that the queue takes in during a drain names a node whose activation crossed the threshold, with the posting voltage, hop 0 and no deadline |
| `Scheduler.DrainFiresOnce` | src/core/cluster_graph.h:468-477 | However long the drain, activations only rise and a node posts a spike if and only if it crosses the threshold, so at most once |
| `Scheduler.DrainRefusesNothing` | src/core/fpsan_san_scheduler.h:139-146 | With room for one spike of every node no re-post is refused: the accepted spikes are those of the crossing nodes, in order |
| `Scheduler.RunsDry` | src/core/fpsan_san_scheduler.h:160-174 | Even without the budget the re-posting ends: the queue is empty after one event for each that waited and one for each node |
| `Scheduler.Scheduler.PropagateOne` | src/core/fpsan_san_scheduler.h:183-204 | One event raises exactly the in-range targets with a positive dose, in edge order, unless its hop or source is out of bounds |
| `Scheduler.Scheduler.AddVoltageTo` | src/core/cluster_graph.h:468-477 | Adds the dose and posts a spike exactly when this crosses the threshold from below |
| `FreeList.ThreadStepKeeps` | src/core/cluster_graph.h:412-465 | Every load, store, compare-and-swap and fetch_add of spawn and kill keeps the invariant, as long as a successful pop installs a link that is current |
| `FreeList.RunInv` | src/core/cluster_graph.h:412-465 | Over every interleaving in which no successful pop spans an emptying, the invariant holds |
| `FreeList.RunInvExactly` | src/core/cluster_graph.h:412-432 | The invariant holds throughout a run if and only if every successful pop installs the link that its node has at that moment |
| `FreeList.PopKeepsExactly` | src/core/cluster_graph.h:415-427 | A successful pop keeps the invariant if and only if the link it has read is current |
| `FreeList.TagProtects` | src/core/cluster_graph.h:415-427 | Within one era between emptyings the tag does its work: an unchanged head word means an unchanged link |
| `FreeList.FreeListSafe` | src/core/cluster_graph.h:412-465 | After such runs the free chain is acyclic and ends, free, used and held ids are disjoint, no id has two owners, every id returned is below capacity and was in nobody's hands, while node_count may overshoot by the pending undos only |
| `FreeList.NothingLeaks` | src/core/cluster_graph.h:412-465 | After such runs every id below node_count, less the overshoots to be undone, is in exactly one place: on the free stack, in use, or in the hands of one operation |
| `FreeList.ArenaOnlyWhenEmpty` | src/core/cluster_graph.h:413-433 | In every run, a spawn that turns to the arena found the free stack empty when it last loaded the head, so a lost swap never leads there |
| `FreeList.FailsOnlyWhenFull` | src/core/cluster_graph.h:413-437 | In every run, a spawn that returns -1 found the free stack empty when it last loaded the head, and after that node_count at or above the capacity |
| `FreeList.SpawnAloneRun` | src/core/cluster_graph.h:412-430 | From every state of every run, a spawn left alone with a node on the stack can complete, and takes the top node |
| `FreeList.GrowAloneRun` | src/core/cluster_graph.h:432-444 | From every state of every run, a spawn left alone with an empty stack and room in the arena can complete, and takes the next slot |
| `FreeList.KillAloneRun` | src/core/cluster_graph.h:447-465 | From every state of every run, a kill left alone can complete, and puts its node on top of the stack |
| `FreeList.LostTagRun` | src/core/cluster_graph.h:420-422 | Counterexample: popping the last node loses the tag, the next push restarts it at 0 (455-461), and a pop that spans this puts a node in use on top of the free stack |
| `FreeList.Arena.Spawn` | src/core/cluster_graph.h:412-445 | Without interleaving and without any condition on tags: reuses the node killed last, else claims the next slot, else returns -1; the id was not in use |
| `FreeList.Arena.Kill` | src/core/cluster_graph.h:447-465 | Without interleaving: the node becomes the top of the free chain and leaves the nodes in use |
| `PlanPath.Planner.PlanPath` | src/core/cluster_graph.h:839-917 | The search leaves such a plan (PlanIsRight) in the output and touches nothing behind it; the typed variant is the same on the edges of one type |
| `PlanPath.PlanIsRight` | src/core/cluster_graph.h:839-917 | The plan is empty exactly when start equals goal, the goal is unreachable or max_len is not positive; otherwise it ends at the goal, has d nodes if the shortest distance d is at most max_len and max_len nodes if d is larger, each node is a successor of the one before, and a plan shorter than max_len begins with a successor of the start |
| `PlanPath.FirstIsShortest` | src/core/cluster_graph.h:851-859 | The first time the goal turns up in breadth-first order, the path along which it does is a shortest one |
| `PlanPath.NearIsFound` | src/core/cluster_graph.h:851-873 | Whatever has a path no longer than the level of the queue front has been found, at most that far away |
| `PlanPath.Exhausted` | src/core/cluster_graph.h:851-875 | When the queue runs empty without meeting the goal, no path to it exists |
| `PlanPath.QueueFits` | src/core/cluster_graph.h:848-872 | Queued nodes are different nodes of the arena, so the queue never exceeds node_count |
| `PlanPath.Planner.TracePath` | src/core/cluster_graph.h:860-870 | Following parents from the goal, truncating and reversing in place yields the last nodes of the path in order: all d of them, or exactly max_len of them when d is larger, and the rest of the output is untouched |
| `SpreadReach.QueryDelivers` | src/core/cluster_graph.h:518-574 | A query that is not refused leaves its source with the strength or more, and along each of the first edges of the source: a target that does not bind with strength * 0.7 * weight or more; over a temporal edge a binding target with that much more than before, marked if this exceeds 1.5, and with its voltage passed on to its members if it was marked before |
| `SpreadReach.RefusedExactly` | src/core/cluster_graph.h:518-521 | The count is 0 if and only if the query is refused for its depth, strength or source, and then nothing changes |
| `SpreadReach.CountsRaised` | src/core/cluster_graph.h:528-573 | Without binding nodes the count is at least one for the source and one for every other node raised to the cutoff, except through a walk of exactly as many edges as the depth bound |
| `SpreadReach.RaisedIsSettled` | src/core/cluster_graph.h:518-574 | Without binding nodes every raised node ends below the cutoff, or has passed its final voltage on to all members, or got it by a walk of exactly as many edges as the depth bound |
| `SpreadReach.WalkHonoured` | src/core/cluster_graph.h:518-574 | Without binding nodes, where walks of as many edges as the bound are weaker than shorter ones to the same node, every walk within the bound that stays at the cutoff or above, through nodes that had less than it brings, leaves its end with strength times its gain or more |
| `SpreadReach.RaisedIsPinned` | src/core/cluster_graph.h:518-574 | In that case the final value of a raised node is what one walk within the bound brings, and no such walk brings more |
| `SpreadReach.UniformExactly` | src/core/cluster_graph.h:518-574 | For graphs whose weights are all w, and a bound of two or more, queries honour every such walk, for every graph, field and strength, if and only if 0.7 * w is less than one |
| `SpreadReach.ShortcutIsMissed` | src/core/cluster_graph.h:566-570 | Counterexample: a node raised first along a longer way, at the depth bound, is not expanded when a shortcut reaches it, so a node within the bound gets nothing |
| `SpreadReach.OldVoltageBlocks` | src/core/cluster_graph.h:566-570 | Counterexample: a node that has more than the walk brings already holds the walk up |
| `SpreadBound.ContainedIsEnough` | src/core/cluster_graph.h:518-574 | If every non-binding member of a binding node that a query can enter at the depth bound is itself within the bound, then no query leaves the bound, for every graph, weights, field and strength, whatever has fired before |
| `SpreadBound.BoundHoldsExactly` | src/core/cluster_graph.h:518-574 | In a graph whose edges have positive weights and amplify nothing (0.7 * weight <= 1) and whose binding nodes do not feed themselves, that condition is exact: queries stay within the bound for every field and strength if and only if it holds |
| `SpreadBound.FiredInTheSameQuery` | src/core/cluster_graph.h:540-565 | Counterexample with all marks clear: two ways to a binding node at the bound are enough, the first fires it and the second raises its member one hop beyond |
| `SpreadBound.AmplifiedStaysWithin` | src/core/cluster_graph.h:518-574 | The condition is not necessary with an amplifying edge: a graph that fails it and stays within the bound for every field and strength |
| `SpreadBound.SelfFedStaysWithin` | src/core/cluster_graph.h:540-565 | Nor with a binding node that feeds itself: another such graph |
| `Spread.QueryEffect` | src/core/cluster_graph.h:518-574 | Upper bound: for every graph with non-negative weights a query terminates, lowers no activation, expands each binding node at most once and only if it had not fired, and changes only nodes within one hop more than the depth bound, over the first SPREAD_FANOUT_CAP edges |
| `Spread.QueryValues` | src/core/cluster_graph.h:518-574 | With no binding nodes every raised value equals the strength times the product of 0.7 * weight along a walk within the depth bound |
| `Spread.BoundAttained` | src/core/cluster_graph.h:540-565 | For every depth bound n a node n + 1 hops away is reached through a binding node that has already fired: one hop more than the bound is exact |
| `Spread.Arena.SpreadActivation` | src/core/cluster_graph.h:518-574 | The recursive method over the activation and fired arrays computes the function that the lower and upper bounds are about, and its count |
| `EdgeTable.HeaviestWin` | src/core/cluster_graph.h:192-222 | Any run of insertions with pairwise different (target, type) on a fresh node leaves exactly the first MAX_FANOUT entries of the stable descending sort of all insertions |
| `EdgeTable.RepeatReinforces` | src/core/cluster_graph.h:199-208 | Inserting an edge again raises its weight by half the strength, cut off at 5, and its count by one, takes over a known provenance, and leaves the other entries alone |
| `EdgeTable.SeenAgain` | src/core/cluster_graph.h:192-222 | An edge inserted n + 1 times into a fresh node has one entry, with weight min(5, w + n * w / 2) for n above 0, and n sightings more |
| `EdgeTable.NewIsPlaced` | src/core/cluster_graph.h:211-220 | A new edge takes a free slot; in a full table it replaces the last entry if it is stronger, and is dropped if not |
| `EdgeTable.RunKeeps` | src/core/cluster_graph.h:192-290 | After any calls of add_edge, prune and apply_stdp: unique keys, count at most MAX_FANOUT, weights at most the larger of 5 and the strongest insertion, and descending order unless STDP came after the last add_edge |
| `EdgeTable.AddedKeeps` | src/core/cluster_graph.h:192-222 | One add_edge restores the descending order whatever the order was, and keeps keys unique and weights bounded |
| `EdgeTable.StdpSortedExactly` | src/core/cluster_graph.h:765-775 | apply_stdp leaves a sorted table sorted if and only if the new weight still fits between its neighbours |
| `EdgeTable.StdpMeans` | src/core/cluster_graph.h:765-775 | The first edge to the target gets weight + dw, cut off at 0 and 5; nothing else changes |
| `EdgeTable.StdpBreaksOrder` | src/core/cluster_graph.h:765-775 | Counterexample: of two edges with weights 1.0 and 0.9 the second is strengthened by 0.2, and the table is out of order |
| `EdgeTable.StdpKeeps` | src/core/cluster_graph.h:750-777 | apply_stdp keeps keys, count and the weight bound |
| `EdgeTable.PrunedKeepsOrder` | src/core/cluster_graph.h:261-280 | For every table, sorted or not, the kept entries come one for one from the positions with a strong enough entry, in the order of the positions |
| `EdgeTable.PrunedKeeps` | src/core/cluster_graph.h:261-280 | prune keeps exactly the entries that are strong enough, keys unique, weights bounded and a sorted table sorted |
| `EdgeTable.SortSorted` | src/core/cluster_graph.h:282-290 | The sort orders by falling weight and has the same members |
| `EdgeTable.SortStable` | src/core/cluster_graph.h:282-290 | The sort keeps the entries of every weight in their order |
| `EdgeTable.Table.SortEdges` | src/core/cluster_graph.h:282-290 | The in-place insertion sort leaves the stable descending sort of the first ec entries and touches nothing behind them |
| `EdgeTable.Table.AddEdge` | src/core/cluster_graph.h:192-222 | The new table is exactly the specified one: reinforced, appended, replacing the weakest if stronger, or unchanged, and sorted |
| `EdgeTable.Table.Prune` | src/core/cluster_graph.h:261-280 | The in-place filter leaves the entries that are strong enough, in order |
| `EdgeTable.Table.ApplyStdp` | src/core/cluster_graph.h:765-775 | Changes the weight of the first edge to the target, clamped to 0..5, and nothing else |
| `TopActivated.GetTopActivated` | src/core/cluster_graph.h:715-738 | The output arrays hold exactly the first max_n of the stable descending sort of the live nodes above the cutoff, with their activations |
| `TopActivated.RankingIsUnique` | src/core/cluster_graph.h:715-738 | There is only one such list: order, ties by node id, and what is cut off are all determined |
| `TopActivated.ShorterIsPrefix` | src/core/cluster_graph.h:715-738 | Asking for fewer nodes gives a prefix of the longer list |
| `TopActivated.RankingGrows` | src/core/cluster_graph.h:723-735 | Placing one more live node at the first place whose value it exceeds keeps the list the ranking of the nodes seen |
| `Snapshot.ShortTermMemory.Take` | src/fpsan_live_core.cpp:566-600 | The heap ends with a choice of the top_n largest eligible activations of the scanned nodes, and their ids are written to the ring, which always holds the last ids written |
| `Snapshot.LargestOfSorted` | src/fpsan_live_core.cpp:573-595 | The voltages kept are, as a multiset, the first top_n of the candidates sorted by falling voltage |
| `Snapshot.SameVoltages` | src/fpsan_live_core.cpp:573-595 | However the heap breaks ties, the multiset of voltages kept is the same |
| `Snapshot.SiftUp` | src/fpsan_live_core.cpp:579-583 | Appending and swapping upwards restores the heap order and loses no entry |
| `Snapshot.SiftDown` | src/fpsan_live_core.cpp:584-593 | Replacing the root and sifting down restores the heap order and loses no entry |
| `Snapshot.RootIsLeast` | src/fpsan_live_core.cpp:585 | In a heap the root is the least entry, so the comparison with best[0] decides membership |
| `Snapshot.ShortTermMemory.Remember` | src/fpsan_live_core.cpp:596-599 | One ring write: the last ids written stay in their slots |
| `LexiconTrie.Lexicon.Insert` | src/core/fpsan_lexer.h:90-104 | Either the map from lowercased, ASCII-filtered words to tags gains the word, or the pool has run out and no lookup changes; once it has run out, exactly the words that already have nodes are still accepted; the pool stays a tree |
| `LexiconTrie.Lexicon.InsertAll` | src/core/fpsan_lexer.h:90-104 | After any sequence of insertions the trie agrees with the plain map, in which the last tag wins, of the entries whose words have nodes in the final pool, which are all of them unless the pool has run out; the word count is their number |
| `LexiconTrie.Lexicon.Lookup` | src/core/fpsan_lexer.h:107-116 | Lookup returns what the map says for the lowercased word, and unknown for a word with a character outside ASCII |
| `LexiconTrie.Lexicon.Allocate` | src/core/fpsan_lexer.h:84-98 | A new node becomes the child of exactly one parent; everything else in the pool is as it was |
| `LexiconTrie.SameEntryExactly` | src/core/fpsan_lexer.h:94-113 | Two ASCII words share an entry, and so get the same answer, if and only if they are spelled alike up to upper and lower case |
| `LexiconTrie.GrowOk` | src/core/fpsan_lexer.h:84-98 | Linking a new node keeps the pool a tree whose nodes spell different words |
| `LexiconTrie.MarkOk` | src/core/fpsan_lexer.h:101-103 | Marking a node changes the answer for its own word only |
| `LexiconTrie.Missing` | src/core/fpsan_lexer.h:107-113 | A missing child link means that the word is not in the map |
| `Tokenizer.Tokenize` | src/core/fpsan_lexer.h:279-327 | Fills the output with the specified tokens: maximal words of at most 63 characters, looked up in the lexicon, and single other characters tagged as punctuation, up to the room in the array |
| `Tokenizer.NothingLost` | src/core/fpsan_lexer.h:279-327 | The texts put together are the consumed part of the sentence without its white space, over-long words included |
| `Tokenizer.LeftOverOnlyWhenFull` | src/core/fpsan_lexer.h:284-287 | Anything is left over only when the token array is full |
| `Tokenizer.TextsAreTokens` | src/core/fpsan_lexer.h:289-319 | Every text is one word or one other character, and fits its buffer |
| `Tokenizer.TokenizeAgain` | src/core/fpsan_lexer.h:279-327 | Any tokens, joined by single spaces, are tokenized into themselves |
| `Tokenizer.TokensAreStable` | src/core/fpsan_lexer.h:279-327 | Tokenizing the joined tokens of a sentence gives the same texts and tags again |
| `Phrases.GroupPhrases` | src/core/fpsan_lexer.h:330-423 | Despite rollbacks the grouper terminates with ordered, disjoint, in-range phrases, one for each head up to the limit, each the longest stretch DET? ADJ* (NOUN or PRON), or AUX? ADV* VERB, that ends with its head, or a bare AUX |
| `Phrases.GroupingIsUnique` | src/core/fpsan_lexer.h:330-423 | A sentence has exactly one such grouping |
| `Phrases.HeadsExactly` | src/core/fpsan_lexer.h:338-417 | When the limit is not reached, NP heads are exactly the NOUN and PRON positions, VP heads exactly the VERB positions and the auxiliaries without a verb, and no head has two phrases |
| `Phrases.NounScan` | src/core/fpsan_lexer.h:342-366 | A scan that finds no noun behind DET? ADJ* shows that no noun phrase starts there, so the rollback by one token is enough |
| `Phrases.VerbScan` | src/core/fpsan_lexer.h:385-416 | A scan that finds no verb behind AUX? ADV* shows that no verb starts a phrase there |
| `Levenshtein.LevenshteinDist` | src/core/fpsan_lexer.h:902-915 | The matrix loop returns the recursive edit distance whenever the lengths differ by at most 2, and 99 otherwise, for words of any length |
| `Levenshtein.DistIsLeast` | src/core/fpsan_lexer.h:902-915 | The recursive distance is the least number of single insertions, deletions and substitutions |
| `Levenshtein.DistOne` | src/core/fpsan_lexer.h:902-915 | Distance 1 holds if and only if the words differ and one insertion, deletion or substitution turns one into the other |
| `Levenshtein.AnsweredOne` | src/core/fpsan_lexer.h:902-915 | The returned value is 1 if and only if the words differ and are one edit apart |
| `Levenshtein.AnsweredSymmetric` | src/core/fpsan_lexer.h:902-915 | The returned value is symmetric, its 99 included |
| `Levenshtein.TriangleExactly` | src/core/fpsan_lexer.h:902-915 | The returned value satisfies the triangle inequality if and only if the outer lengths differ by at most 2, or a step over the middle word is itself answered with 99, or the two steps add up to 99 at least |
| `Levenshtein.TriangleByLengths` | src/core/fpsan_lexer.h:902-915 | For words of at most 49 characters the length gaps alone decide whether the inequality holds |
| `Levenshtein.TriangleBroken` | src/core/fpsan_lexer.h:904 | Counterexample: for "", "ab" and "abc" the function returns 99 against 2 and 1 |
| `Levenshtein.DistSymmetric` | src/core/fpsan_lexer.h:906-914 | The recursive distance, without the early 99, is symmetric |
| `Levenshtein.DistTriangle` | src/core/fpsan_lexer.h:906-914 | The recursive distance, without the early 99, satisfies the triangle inequality |
| `Levenshtein.FarMeansFar` | src/core/fpsan_lexer.h:904 | The early 99 is given only to words whose true distance exceeds 2 |
| `Memory.WakeAfterSleep` | src/core/fpsan_memory.h:75-299 | Reading a written file restores every active cluster and every alive node's forward and inverse edges, with activations zero, and consumes the whole file; a dead node comes back alive and empty |
| `Memory.TruncatedIsRejected` | src/core/fpsan_memory.h:201-289 | Every proper prefix of a written file is rejected |
| `Memory.SecondGeneration` | src/core/fpsan_memory.h:75-299 | Sleeping and waking twice gives what once gives: from the second generation on the file is a fixpoint |
| `Memory.FirstFileRepeats` | src/core/fpsan_memory.h:128-299 | Already the second file equals the first if and only if no node was dead |
| `Memory.HashKept` | src/core/cluster_graph.h:1000-1014 | The topology hash is the same after sleep and wake, even when nodes were dead |
| `Memory.HashIsMixed` | src/core/cluster_graph.h:1000-1014 | The hash mixes in every forward edge of every live node once, in order, and nothing else |
| `Memory.OneEdgeMatters` | src/core/cluster_graph.h:1000-1014 | Two graphs that differ in one edge have different hashes, for every mixing that tells these two edges apart and keeps different running hashes apart |
| `Memory.Brain.TopologyHash` | src/core/cluster_graph.h:1000-1014 | The loops over live nodes and their forward edges compute this hash, for any mixing function |
| `Memory.TypeRoundTrip` | src/core/fpsan_memory.h:142-157 | The byte stored for an edge type is cast back to the same type |
| `Memory.Brain.Sleep` | src/core/fpsan_memory.h:88-162 | The writer loops produce exactly the file image of the graph and the cortex |
| `Memory.Brain.Wake` | src/core/fpsan_memory.h:201-299 | The reader loops accept exactly the files that parse, and then leave what the file says; a file without a header changes nothing, and any other rejected file leaves the brain of the records before the first missing or bad one, with at most one node torn: its counts set and the slots read so far filled |
| `Motor.StepKeeps` | src/core/fpsan_motor.h:164-259 | Every step of the producer, the motor thread, abort, kill latch and shutdown keeps the invariant |
| `Motor.QueueAndEpochs` | src/core/fpsan_motor.h:174-194 | The ring is a FIFO of capacity SIZE-1 in every interleaving; dispatched commands were popped in order, once each, and passed the epoch check under the very epoch they were queued in |
| `Motor.PushOutcome` | src/core/fpsan_motor.h:174-179 | In every run, a push that has compared the counters fails if and only if SIZE-1 commands wait: a call that waits then looks whether the motor is running, any other returns; else it goes on to write |
| `Motor.CallEnds` | src/core/fpsan_motor.h:238-243 | In every run, when a call returns, every part of it has been pushed or, by a call that waits, given up on; or the call does not wait and the ring is full at that moment |
| `Motor.UnwaitingCallEnds` | src/core/fpsan_motor.h:238-243 | A call that does not wait gives up on nothing, has pushed its parts up to the one it is at, and leaves out a part if and only if the ring is full with that part still to push |
| `Motor.ActionIsQueued` | src/core/fpsan_motor.h:238-243 | From every reachable state in which the producer is idle, a queue_action left alone appends its command under the current epoch, unless the ring is full |
| `Motor.LoopOutcome` | src/core/fpsan_motor.h:488-491 | In every run the motor takes a command if and only if one waits, and ends if and only if it has been shut down |
| `Motor.CheckOutcome` | src/core/fpsan_motor.h:491-501 | In every run the command popped last goes on to the kill switch if and only if its epoch is current; it is aborted if the latch is set, or is set by this very check, which also ends the epoch, and else dispatched |
| `Motor.OldestIsDispatched` | src/core/fpsan_motor.h:485-541 | From every reachable state at the top of the loop, the motor left alone dispatches the oldest command if that is of the current epoch, the latch is clear and the motor runs |
| `Motor.StaleIsDiscarded` | src/core/fpsan_motor.h:491-494 | In such a state it takes and discards a command of another epoch |
| `Motor.DispatchedWasChecked` | src/core/fpsan_motor.h:492-507 | In every run each dispatched command had its epoch compared and found current, and after that its thread saw the kill latch clear, before it was dispatched |
| `Motor.NothingGivenUpWhileRunning` | src/core/fpsan_motor.h:671-673 | In every run, as long as the motor thread has not been shut down, no call has given up on any part |
| `Motor.TypedIsPrefix` | src/core/fpsan_motor.h:492-541 | In every run, as long as the motor thread has not been shut down, what has been dispatched for a call is a prefix of what it queued, and all of it when no abort or kill came and the motor drained the ring |
| `Motor.StringTyped` | src/core/fpsan_motor.h:659-675 | As long as the motor thread has not been shut down, the dispatched chunks of one queue_string call concatenate to a prefix of its string, and to the whole string when nothing disturbed the call |
| `Motor.InitialSegmentExactly` | src/core/fpsan_motor.h:659-675 | In every run, shutdowns included, the dispatched parts of a call are its first ones if and only if none was dispatched after a part that was given up on |
| `Motor.TypedIsPrefixWithoutGap` | src/core/fpsan_motor.h:492-541 | In every run, shutdowns included, what has been dispatched for such a call is a prefix of what it queued, and all of it when undisturbed |
| `Motor.StringTypedWithoutGap` | src/core/fpsan_motor.h:659-675 | The same for the string of a queue_string call of which no piece was dispatched after one given up on |
| `Motor.JoinChunks` | src/core/fpsan_motor.h:663-671 | The chunks are non-empty, exactly 250 characters long but for the last, which is no longer, and make up the string |
| `Motor.GapAfterShutdown` | src/core/fpsan_motor.h:671-673 | Counterexample: after a shutdown the waiting loop gives up on a part and a later part can still be dispatched: "ac" for "abc" |
| `Motor.MotorQueue.Push` | src/core/fpsan_motor.h:174-183 | Appends, and fails exactly when SIZE-1 commands wait |
| `Motor.MotorQueue.Pop` | src/core/fpsan_motor.h:185-194 | Takes the oldest command, and fails exactly when none waits |
| `Motor.MotorQueue.IsIdle` | src/core/fpsan_motor.h:655-657 | Idle means that no command waits |
| `GoalChain.PursueGoal` | src/fpsan_live_core.cpp:2709-2814 | The step vetoes exactly when the collected chain is not empty and policy or a missing precondition blocks it; otherwise it queues the actions of the whole chain, which are exactly the screened ones, in order and none dropped, when the chain ends within the bound and the ring has room for it |
| `GoalChain.CollectFlat` | src/fpsan_live_core.cpp:357-390 | The bounded collection is the first max_chain motor nodes along the implementing edges and their sequences |
| `GoalChain.SuccessorIsFirst` | src/fpsan_live_core.cpp:378-386 | A walk goes on to the target of the first sequence edge of its node, and ends where there is none |
| `GoalChain.ChainIsPrefix` | src/fpsan_live_core.cpp:357-390 | Where the walks end, the chain is the beginning, as long as the bound allows, of all walks of implementing edges put together in edge order |
| `GoalChain.IsSafe` | src/core/fpsan_sandbox.h:153-197 | Safe if and only if every EDGE_REQUIRES target of every node of the chain has activation at least 0.05 |
| `GoalChain.Execute` | src/fpsan_live_core.cpp:2789-2813 | The execution loop, which has no bound and no cycle guard, terminates when the chain ends at all, and queues in order as much of it as the ring has room for |
| `GoalChain.ShortIsComplete` | src/fpsan_live_core.cpp:357-390 | A screened chain shorter than the bound is complete: the execution loop cannot go beyond it |
| `GoalChain.QueuedIsScreenedExactly` | src/fpsan_live_core.cpp:357-390 | If the execution loop would stop at n nodes, what it queues is what was screened if and only if n is at most the bound |
| `GoalChain.WalkEndsExactly` | src/fpsan_live_core.cpp:373-387 | From every start the walk along sequence edges ends within as many nodes as there are, or never; and it never ends exactly when it comes to some motor node again |
| `GoalChain.ChainEndsExactly` | src/fpsan_live_core.cpp:2789-2813 | The execution loop comes to an end, at some length, if and only if the walk of every implementing edge of the concept ends |
| `GoalChain.LongChain` | src/fpsan_live_core.cpp:357-390 | For every bound there is a graph, sound in every other way, of which the loop queues one node more than was screened |
| `LanguageCortex.AlwaysMeans` | src/core/fpsan_language.h:103-150 | After every run from init each cluster's accumulator is the arithmetic mean of the samples it absorbed, its weights are the 0.4 quantization of that mean, and it is frozen if and only if there are five |
| `LanguageCortex.FrozenForever` | src/core/fpsan_language.h:132-148 | A frozen cluster, weights and label included, never changes again |
| `LanguageCortex.LabelIsFirstWord` | src/core/fpsan_language.h:141-144 | After every run a cluster is labelled with the first word, cut to 63 characters, that a call absorbed by it has brought, and with nothing if there was none |
| `LanguageCortex.LabelStays` | src/core/fpsan_language.h:141-144 | In every run a label, once set, stays |
| `LanguageCortex.SimByPosition` | src/core/fpsan_language.h:110-119 | The similarity is agreements less disagreements, over both together, at the positions where the input or the cluster has a spike |
| `LanguageCortex.RecognisedExactly` | src/core/fpsan_language.h:103-150 | A spike input that opens a new cluster is recognised as that same cluster when it comes again immediately after if and only if it is not all zero |
| `LanguageCortex.AnswerIsDetermined` | src/core/fpsan_language.h:103-130 | The cluster a call takes is determined: the first of the most similar, a new one below the vigilance, or none |
| `LanguageCortex.MeanStep` | src/core/fpsan_language.h:134-137 | With the rate max(0.1, 1/count) one step of the running average is exactly the new mean, up to the fifth sample |
| `LanguageCortex.Cortex.Search` | src/core/fpsan_language.h:110-127 | The pass over the clusters finds the first most similar active cluster and the first empty one |
| `LanguageCortex.Cortex.Learn` | src/core/fpsan_language.h:132-148 | Moves the accumulator, requantizes the weights, sets the label once and freezes at five, for this cluster only |
| `LanguageCortex.Cortex.Perceive` | src/core/fpsan_language.h:103-150 | One call answers and changes the clusters exactly as the step relation of the runs says |

## Left out

- Floating point: `float` and `double` are `real`, and the transform is over an abstract commutative ring; rounding and NaN are not modelled, nor is the value of the twiddle factors beyond being powers of one root.
- Memory order: every atomic access is sequentially consistent. Positions, tags, epochs and sequence numbers are unbounded, so 32-bit wrap-around is not modelled.
- Sizes are parameters: arena, fan-out, depth, queue and ring sizes, token and phrase limits, word buffer. The queue constructor's rounding of its capacity to a power of two is not modelled; position masking is the ring slot of a ticket.
- Memory.Brain.Wake: the file is a sequence of records, so a record cut in the middle counts as missing; edge counts in the file are non-negative and fit the tables, and node ids are checked against the arena rather than against a header that claims more nodes than fit; slots of a torn table hold parameters; printing, timing and failures to open the file are left out.
- Motor.TypedIsPrefix: after a shutdown the prefix property is false (Motor.GapAfterShutdown); what then holds, and exactly when, is stated by Motor.InitialSegmentExactly and Motor.TypedIsPrefixWithoutGap.
- GoalChain.PursueGoal: requires, unless the chain is vetoed, that it ends at some length, because the execution loop otherwise has no end (GoalChain.ChainEndsExactly says exactly when), and that the edges which the loops follow without a check stay within the arena; the dangerous-word policy is a parameter, and the drives that change when a goal is vetoed or carried out are not modelled.
- GoalChain.IsSafe: the spreading in the shadow graph does not affect the verdict when the main graph is given, and is left out; a required node beyond the main graph counts as inactive, as the shadow graph has no nodes that the main graph lacks.
- Spread.QueryEffect: the bound of MAX_HOPS hops itself does not hold with binding nodes (Spread.BoundAttained, SpreadBound.FiredInTheSameQuery); when it does is stated by SpreadBound.ContainedIsEnough and, without amplification, exactly by SpreadBound.BoundHoldsExactly. The inverse and typed variants of spreading repeat the same recursion over other edges.
- SpreadBound.BoundHoldsExactly: with amplifying edges or self-feeding binding nodes the condition is sufficient but not necessary (SpreadBound.AmplifiedStaysWithin, SpreadBound.SelfFedStaysWithin); an exact condition for them would depend on the weights along every walk.
- SpreadReach.WalkHonoured: for graphs with different weights its condition is sufficient only; whether a walk is missed then depends also on the order of the edges. With binding nodes the lower bounds are those of the first edges (SpreadReach.QueryDelivers).
- FreeList.RunInv: the condition that no successful pop spans an emptying of the stack cannot be dropped (FreeList.LostTagRun); initialising the node fields of a spawned or killed node is not modelled.
- Phrases.GroupPhrases: two branches of the original that no token sequence reaches (a lone pronoun or a bare verb after a failed scan) have no counterpart.
- Tokenizer.Tokenize: the lexicon is a function from the text to its tag; LexiconTrie proves which function that is.
- Scheduler.Scheduler.DrainUntil: assumes that no other thread touches the queue during the drain, and that a graph is bound; the queue with other threads at work is the machine of MpmcQueue.
- EdgeTable.Table.ApplyStdp: the weight change is a parameter; its exponential is not modelled. Inverse edge tables repeat the forward ones.
- SemanticPlanner.collect_motor_chain raises activations by spreading before it collects along the same edges; only the flat collection that the goal step uses is modelled.
- Dispatch is a trace of executed commands; keyboard, mouse, windows, speech, files, sockets, compilers and thread timing are foreign calls.
- Decay, drives, neuromodulation, metacognition, module registries, sentence-to-graph bonding, the audio sample ring and the benchmarks: clamps, counters and small maps, or repeats of what is modelled.
