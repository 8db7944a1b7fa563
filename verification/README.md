# Verified models of the migration planner and of OpenClaw's stateful parts

This project models the parts of the repository whose correctness depends on whole graphs,
whole runs or several functions together, and proves what they promise. Each module follows
one source file or one part of it. Code that changes state step by step is modelled by
classes and loops in the same form; each method is proved against a function on values, and
the theorems are lemmas about runs of those functions.

- **Dependency planner** (`Sorting`, `Graphs`, `Tarjan`, `Ordering`, `PlanOrder`,
  `Plan`, `PlanUnique`). The iterative Tarjan search with its explicit work stack is proved
  to return exactly the strongly connected components, dependencies first.
  `order_components` is proved to take its fallback exactly when the condensation has a
  cycle, which it never has on the output of the search. The plan of `main` is then correct
  in terms of the graph alone, and the only correct one.
- **Session table** (`Sessions`, `SessionStore`, `Lookups`, `Clocks`). Lookup by key and by
  id, merging, re-keying, pruning by age and by size; `Clocks` has the runs whose clock never
  goes back.
- **Recovery of stuck sessions** (`Recovery`, `Attention`, `Diagnostics`, `StuckRecovery`,
  `Coordination`, `RecoveryService`, `Writes`, `Lanes`). The log steps, the heartbeat's decision, the recovery
  itself around its `await`, and the coordinator with the in-flight sets of both layers, as
  a state machine whose events interleave freely. The environment (runs, lanes, activity) is
  an arbitrary `World` before the abort and another arbitrary one after it.
- **Queues** (`EventStreams`, `KeyedQueues`). A run is any interleaving of the stretches
  between awaits.
- **Texts and data** (`Texts`, `Fences`, `Shortcodes`, `Payload`, `PayloadFields`,
  `Stability`). The fence scanner against a declarative reading of fenced blocks in the style
  of section 4.5 of CommonMark 0.31.2, shortcode extraction, the presentation and interactive
  payloads, the ring buffer of stability records.
- `Options` holds an optional value with Python's truthiness.

The functions that the methods are proved against are themselves described a second time,
in terms of the entries, lanes, characters and fields involved and without those functions:
`Lookups` for pruning and `get`, `Writes` for the log steps and applied outcomes, `Lanes` for
what a recovery decides and does, `PayloadFields` for the normalizers and conversions, and the
lemmas called `...Means` elsewhere.

Some promises hold only under a condition, which is stated and shown to be needed:

- Session ids are unique among non-empty ids; an empty id is falsy, is never looked up, and
  can occur twice; when it does is `Sessions.EmptyIdsStep`. Runs without empty ids keep all
  ids distinct (`Diagnostics.RunKeepsIdsDistinct`).
- Under a clock that never goes back, a `get` followed by a `peek` with the same reference
  finds the same entry, except exactly when a new entry is pruned at once because the clock
  jumped by more than the TTL between two readings (`Clocks.PeekAfterGetReachable`). Were the
  clock set back, a full table of newer entries could evict the new one.
- A no-op outcome at the matching generation can discard queued work. A merge adds queue
  depths but takes the larger generation, so the generation check does not notice it
  (`Diagnostics.MergeHidesWork`, `Diagnostics.EarlierMergeDiscardsWork`); and the `get` that
  applies the outcome can itself merge another session in (`Diagnostics.MergeDiscardsWork`)
  or, when the session expires in it, re-key another one in its place
  (`Diagnostics.ExpiryDiscardsWork`). Without any merge, a reference by id alone can come to
  mean a new entry whose key is that id (`Diagnostics.MovedReferenceDiscardsWork`). How much
  is lost, and exactly when nothing is, is `Diagnostics.NoopDiscardsExactly`.
- A stale recovery leaves the table alone unless its reference has come to mean another
  entry that is current, and then it does not (`Diagnostics.StaleRecoveryDoesNothing`). That
  cannot happen to references by key; it can to one by id alone
  (`Diagnostics.IdReferenceMoves`).
- An entry is kept under the key that its own fields resolve to, unless a session is called
  "unknown" (`Sessions.GetSelfKeyed`, `Sessions.UnknownMisplaced`).
- `request_stuck_session_recovery` drops the coroutine it gets. Such a recovery never starts
  and keeps its key, so later requests for the session are skipped
  (`Coordination.DroppedKeepsKey`); a recovery that is run to its end releases it.
- No classification ever makes the heartbeat ask for the abort of an active run
  (`Attention.HeartbeatAsksExactly`); requests allow it as an input of their own.
- A terminal event wakes only one of several waiting consumers of an event stream; the
  others wait for an `end` (`EventStreams.SecondWaiterStays`, `EventStreams.TerminalWakesAll`).
- Selecting from a snapshot that its limit has cut reports the wrong count, exactly when a
  record cut off meets the query (`Stability.CutSnapshotMiscounts`).
- The heartbeat iterates over the dictionary while its own `get` may prune it. For entries
  under their own keys (all of them, but for "unknown"), the keys and their order stay within
  the prune interval after its first pruning (`Sessions.HeartbeatKeepsOrder`); later they stay
  exactly when nothing is stale (`Sessions.OwnGetKeepsOrder`).
- An option whose action has a value other than its own changes its value in the first
  conversion of a presentation, and keeps it from then on (`Payload.ConvertBuiltOption`).

The comment on `order_components` at migration/depgraph.py:191 ("should not happen after
condensation") is thus a theorem. The summary that `main` prints calls the number of
components "dependency levels" (migration/depgraph.py:236); the levels are the rounds, of
which there can be fewer.

## Model

| member | source | states |
|---|---|---|
| Tarjan.StronglyConnectedComponents | migration/depgraph.py:103-149 | For every graph the iterative search returns exactly the strongly connected components: every node in exactly one, two nodes together iff each reaches the other, each component sorted, dependencies in the same or an earlier component |
| Tarjan.Explore | migration/depgraph.py:117-147 | The inner loop from a new root ends (unvisited nodes, then untaken children, then work depth) and visits everything it must, keeping the search invariant |
| Tarjan.Iterate | migration/depgraph.py:117-147 | One pass of the inner loop keeps the invariant and makes the termination measure smaller |
| Tarjan.EnterNode | migration/depgraph.py:119-123 | First visit of a node: index, low-link, stack and on-stack set together |
| Tarjan.TakeNext | migration/depgraph.py:125-134 | The loop over the children: the first unvisited child is pushed; a child on the stack lowers the low-link to its index; a finished child changes nothing |
| Tarjan.Leave | migration/depgraph.py:135-147 | A finished node closes its component iff its low-link is its index, and the fold into the parent happens in both cases without breaking the invariant |
| Tarjan.PopComponent | migration/depgraph.py:135-142 | The pop loop takes off exactly the part of the stack from the node upwards |
| Tarjan.ClosedChildHarmless | migration/depgraph.py:144-147 | The low-link of a child that closed its own component is larger than the parent's, so folding it in changes nothing |
| Tarjan.CloseKeepsAll | migration/depgraph.py:135-142 | What a closing node takes off the stack is one strongly connected component all of whose other dependencies are already emitted |
| Tarjan.SegmentClosed | migration/depgraph.py:135-142 | Edges out of the closing part of the stack lead only into it or into emitted components |
| Tarjan.SegmentMutual | migration/depgraph.py:135-142 | Every node of the closing part reaches the closing node and is reached from it |
| Tarjan.ReachesParent | migration/depgraph.py:144-147 | A child that did not close leads back to its parent |
| Tarjan.AllListed | migration/depgraph.py:113-149 | When every root is done the emitted components list every node |
| Ordering.Condense | migration/depgraph.py:172-179 | The condensation has an edge between two components iff some task of one depends on a task of the other |
| Ordering.OrderComponents | migration/depgraph.py:169-197 | For any list of components the fallback for "not ready" is taken iff some component depends on itself through others; without such a cycle, round r releases exactly the components whose longest dependency chain has length r, lightest first, so that the result is the levels in order; in all cases it is a permutation of the components |
| Ordering.SortableIsAcyclic | migration/depgraph.py:187-191 | The components can be listed with dependencies first iff no closed chain of dependencies runs through them |
| Ordering.LongChainCycles | migration/depgraph.py:187-191 | A chain with as many links as there are components closes on itself |
| Ordering.ReadyIsLevel | migration/depgraph.py:187-189 | What is ready in round r is what has a longest chain of length r |
| Ordering.ResultInLevels | migration/depgraph.py:186-197 | The rounds put together are the levels in order, each sorted by weight |
| Ordering.AllPicked | migration/depgraph.py:186-197 | Each component is released exactly once |
| Ordering.SomethingReady | migration/depgraph.py:187-191 | Without cycles some remaining component is ready, so every round removes at least one |
| Ordering.BackwardIsSortable | migration/depgraph.py:187-191 | A list of components in which dependencies come first can be sorted: its condensation has no cycle |
| Ordering.SccsAreSortable | migration/depgraph.py:190-192 | The condensation of the strongly connected components has no closed chain: what "should not happen after condensation" does not |
| Ordering.OrderedSccs | migration/depgraph.py:186-197 | The released order is again a list of the strongly connected components with dependencies first |
| Ordering.Lightest | migration/depgraph.py:192 | The fallback picks a remaining component of least weight |
| Ordering.Release | migration/depgraph.py:193-195 | A batch is appended to the plan and leaves `remaining` |
| Plan.OrderedComponents | migration/depgraph.py:212-213 | The two functions composed: no fallback, round r is level r, dependencies first, every task listed |
| Plan.RankWithinCycle | migration/depgraph.py:152-166 | The ranking is a permutation ordered by larger fan-in inside the component, then fewer source lines, then id |
| Plan.FanInIsTrue | migration/depgraph.py:161-165 | The counted fan-in is the number of tasks of the import cycle that depend on the task, and the component is the whole cycle |
| Plan.PlanComponent | migration/depgraph.py:223-233 | One component goes to the next positions, each task once, in ranked order; every entry has its position and the size of its component in the right fields |
| Plan.MakeEntry | migration/depgraph.py:225-232 | An entry, field by field: position, cycle size, the sizes of the task, sorted dependencies, grade, and when it is done |
| Plan.BuildPlan | migration/depgraph.py:221-233 | The plan lists the components in order without gaps |
| Plan.MakePlan | migration/depgraph.py:211-233 | For every closed graph the plan is a permutation of the tasks; entry i has order i + 1, the number of tasks of its cycle, its own sizes, its dependencies sorted and once each, its grade or "unknown", and is done iff graded "ported" or empty; cycles are contiguous; every dependency outside the cycle has a smaller position; inside a cycle the order is by true in-cycle fan-in, size, id; the cycles themselves come level by level, then by source lines, then by first task |
| Plan.PlanPermutes | migration/depgraph.py:221-233 | Every task occurs exactly once |
| Plan.PlanContiguous | migration/depgraph.py:222-233 | A task between two tasks of one cycle belongs to that cycle |
| Plan.PlanDependencies | migration/depgraph.py:222-233 | A dependency in another component has a smaller position |
| Plan.PlanRanked | migration/depgraph.py:223-225 | Inside a cycle positions follow the ranking key |
| Plan.PlanCycles | migration/depgraph.py:186-197 | Two tasks of different cycles stand in the order of their cycles: shorter longest chain of cycles below, then fewer source lines, then first task by name |
| PlanOrder.LevelMatches | migration/depgraph.py:186-189 | The level of a component is the length of the longest chain of dependencies between import cycles, taken on the graph |
| PlanOrder.LevelOrderSorted | migration/depgraph.py:186-197 | The level order has its components by level and then by weight |
| PlanOrder.CycleLeAntisymmetric | migration/depgraph.py:181-184 | No two import cycles tie |
| PlanUnique.PlanDetermined | migration/depgraph.py:211-233 | These properties leave exactly one plan |
| PlanUnique.InsertionOrderIrrelevant | migration/depgraph.py:113-233 | Two runs on the same dependencies give the same plan, whatever the order in which the tasks were inserted |
| Sorting.SortSorts | migration/depgraph.py:166 | The stable sort behind `sorted(key=...)` sorts under any total preorder |
| Sorting.SortPermutes | migration/depgraph.py:166 | It permutes its input |
| Sorting.SortKeepsLast | openclaw/logging/diagnostic_session_state.py:44-47 | It is stable at the end: a last element that nothing exceeds stays last |
| Sorting.SortStable | openclaw/logging/diagnostic_session_state.py:44-47 | It is stable everywhere: an element stays in front of a later one that it does not exceed |
| Sorting.StrLeMeans | migration/depgraph.py:166 | The order on strings is that of code points: a prefix comes first, else the smaller character at the first difference |
| Sorting.OrderDetermines | migration/depgraph.py:125-166 | Two arrangements of the same elements, both in order and without ties, are the same |
| Sorting.SortedSetLists | migration/depgraph.py:125 | `sorted` of a set lists exactly its members, once each, in order |
| Sessions.GetKeepsInv | openclaw/logging/diagnostic_session_state.py:108-139 | Resolving any reference keeps the table well formed: each non-empty session id in at most one entry, at most 2000 entries, no negative depth or generation |
| Sessions.FindByIdUnique | openclaw/logging/diagnostic_session_state.py:57-61 | With unique ids the search by id finds an entry iff it has that id |
| Sessions.OthersLackId | openclaw/logging/diagnostic_session_state.py:108-127 | After the lookup no other entry holds the id of the reference, in each of the cases direct, merge, re-key, by id and missing |
| Lookups.PruneMeans | openclaw/logging/diagnostic_session_state.py:24-50 | A pruning not forced does nothing within 60 seconds of the last one unless there are more than 2000 entries; otherwise it drops what is idle, has nothing queued and has been quiet for more than half an hour, and keeps of the rest the 2000 active latest, earlier ones in the dictionary going first on ties, unchanged and in order |
| Lookups.PruneDetermined | openclaw/logging/diagnostic_session_state.py:24-50 | That description leaves exactly one table |
| Lookups.SearchMeans | openclaw/logging/diagnostic_session_state.py:57-61 | The search by id finds k iff k is the first entry with the id |
| Lookups.PeekMeans | openclaw/logging/diagnostic_session_state.py:142-151 | `peek` finds the entry under the session key of the reference (else its id, else "unknown"), and if there is none the first entry with its id |
| Lookups.GetDirect | openclaw/logging/diagnostic_session_state.py:111-127 | `get` of an entry that is kept under the key and alone has the id: it gets the names of the reference, and nothing else changes |
| Lookups.GetMerges | openclaw/logging/diagnostic_session_state.py:69-105 | `get` when another entry has the id: it is removed, and of the merged entry each field is told: the state of the one active later, on ties of the more active one; the larger activity and generation; the sum of the queues; the file, names, markers, tool history, each warning bucket and each poll |
| Lookups.GetRekeys | openclaw/logging/diagnostic_session_state.py:118-127 | `get` when nothing is kept under the key but an entry has the id: the entry moves to the key, at the end of the dictionary, with the names of the reference |
| Lookups.GetById | openclaw/logging/diagnostic_session_state.py:113-127 | `get` without a key: the entry with the id stays where it is, with the names of the reference |
| Lookups.GetCreates | openclaw/logging/diagnostic_session_state.py:128-139 | `get` of what is not there: an idle entry of generation 0 goes to the end, and the table is pruned by force |
| Sessions.EmptyIdsStep | openclaw/logging/diagnostic_session_state.py:108-139 | Uniqueness is for non-empty ids only: from at most one entry with an empty id a `get` makes a second one iff it creates an entry with an empty id while another one is there and neither is stale or among the least recently active in excess (known from the table before the pruning) |
| Sessions.NewStays | openclaw/logging/diagnostic_session_state.py:24-50 | An entry just created, with nothing in the table newer than it, survives its own pruning iff the clock moves on by no more than the TTL meanwhile |
| Sessions.EmptyIdsCollide | openclaw/logging/diagnostic_session_state.py:112-139 | Two calls with an empty id and different keys, at any times within the TTL, do make two entries with the same empty id |
| Diagnostics.RunKeepsIdsDistinct | openclaw/logging/diagnostic_session_state.py:108-139 | Over every run whose references never carry an empty id no two entries have the same id |
| Sessions.GetSelfKeyed | openclaw/logging/diagnostic_session_state.py:53-127 | Every entry stays under the key its own fields resolve to, except iff a reference by the id "unknown" merges into the entry kept for nameless references |
| Sessions.UnknownMisplaced | openclaw/logging/diagnostic_session_state.py:78-79 | A concrete table and reference for that exception |
| Sessions.CreationEvictsOldest | openclaw/logging/diagnostic_session_state.py:41-50 | In a table with nothing newer than the creation, a creation evicts for size only entries no newer than what stays, and not itself |
| Sessions.PeekAfterGet | openclaw/logging/diagnostic_session_state.py:108-151 | In a table with nothing newer than the creation time: right after a `get`, a `peek` with the same reference finds the same entry, if and only if it is not a creation whose two clock readings lie further apart than the TTL |
| Clocks.RunNoLater | openclaw/logging/diagnostic_session_state.py:24-139 | Over every run whose clock readings never go back, no entry is ever newer than the last reading |
| Clocks.PeekAfterGetReachable | openclaw/logging/diagnostic_session_state.py:108-151 | So in every table reached from the empty one by such a run, `get` and then `peek` find the same entry, with that one exception and no hypothesis on the table |
| Sessions.EvictionExact | openclaw/logging/diagnostic_session_state.py:41-50 | Size eviction removes exactly the excess, and nothing that was active later than something it keeps |
| Sessions.CreatedNotEvicted | openclaw/logging/diagnostic_session_state.py:128-138 | When nothing in the table is newer than it, size eviction never takes the entry just created |
| Sessions.GetEvictsOldest | openclaw/logging/diagnostic_session_state.py:108-139 | In a table with nothing newer than the creation time, what one `get` evicts for size is no more recently active than anything that stays, and is not the entry returned |
| Clocks.GetEvictsOldestReachable | openclaw/logging/diagnostic_session_state.py:41-50 | In every table reached by a run whose clock never goes back, a `get` evicts for size at most one entry, which is not the one returned and no more recently active than anything that stays |
| Sessions.GetConservesDepth | openclaw/logging/diagnostic_session_state.py:69-139 | A `get` conserves the total queue depth up to what size eviction takes (at most one entry), and exactly when there is none |
| Sessions.GetNeverLowers | openclaw/logging/diagnostic_session_state.py:69-139 | An entry that survives pruning never loses generation or activity, where it stays, is merged or is re-keyed |
| Sessions.OwnGetKeepsOrder | openclaw/logging/diagnostic.py:627-642 | A `get` by the names of an entry that is kept under its own key, and that its pruning does not take, returns it, and leaves the keys of the dictionary and their order as they are iff its pruning is skipped or finds nothing stale |
| Sessions.HeartbeatKeepsOrder | openclaw/logging/diagnostic.py:627-642 | So within the prune interval after the pruning of a heartbeat, its lookups of entries under their own keys never change the keys of the dictionary it iterates over |
| SessionStore.Store.Prune | openclaw/logging/diagnostic_session_state.py:24-50 | The pruning loops on the dictionary in place have exactly the specified effect |
| SessionStore.Store.FindBySessionId | openclaw/logging/diagnostic_session_state.py:57-61 | The search returns the first entry with the id |
| SessionStore.Store.MergeInto | openclaw/logging/diagnostic_session_state.py:69-105 | The field-by-field merge updates one entry to the specified merge, tool history, warning buckets and poll counts included |
| SessionStore.MergeBucketsInto | openclaw/logging/diagnostic_session_state.py:93-97 | The loop keeps the larger count of each warning bucket |
| SessionStore.MergePollsInto | openclaw/logging/diagnostic_session_state.py:99-105 | The loop keeps the later poll of each command, the first on ties |
| SessionStore.Judge | openclaw/logging/diagnostic.py:413-447 | The classification is handed back unless the warning is not due and no recovery is |
| SessionStore.Store.Get | openclaw/logging/diagnostic_session_state.py:108-139 | `get` in place: prune, look up, merge, re-key, refresh, create, prune again |
| SessionStore.Store.Peek | openclaw/logging/diagnostic_session_state.py:142-151 | `peek` finds the specified entry and changes nothing |
| SessionStore.Store.QueueMessage | openclaw/logging/diagnostic.py:269-284 | Queueing a message in place is the specified step on the table |
| SessionStore.Store.ChangeState | openclaw/logging/diagnostic.py:348-369 | A state change in place is the specified step on the table |
| SessionStore.Store.MarkProgress | openclaw/logging/diagnostic.py:381-389 | Marking progress in place is the specified step on the table |
| SessionStore.Store.LogAttention | openclaw/logging/diagnostic.py:407-447 | The attention check in place is the specified step on the table, and hands back the specified classification or nothing |
| SessionStore.Store.CheckCurrent | openclaw/logging/diagnostic_session_recovery_coordinator.py:115-136 | Whether an outcome is current, read off the entry a `peek` finds |
| SessionStore.Store.ApplyOutcome | openclaw/logging/diagnostic_session_recovery_coordinator.py:107-165 | Applying an outcome in place is the specified change of the table |
| Diagnostics.RunKeepsInv | openclaw/logging/diagnostic.py:269-447 | Over every run of steps the table stays well formed: 2000 entries at most, unique non-empty ids |
| Diagnostics.RunGeneration | openclaw/logging/diagnostic.py:275-388 | While an entry is kept its generation grows at least by the number of queued, state-change and progress steps on it |
| Writes.StepWrites | openclaw/logging/diagnostic.py:269-447 | Every log step writes only the entry its `get` returned, and each field is told: a queued message adds one; becoming idle takes one off, not below zero, and ends the queued turn; starting to process begins one iff messages are queued; each touches activity, generation and markers; an attention check writes only the marker of the warning that is due |
| Writes.AttendReturns | openclaw/logging/diagnostic.py:407-447 | The classification is handed back iff the session is stuck or stalled or its long-running warning is due |
| Diagnostics.StaleRecoveryDoesNothing | openclaw/logging/diagnostic_session_recovery_coordinator.py:107-139 | Over every run that keeps the entry: after one touching step since a generation-stamped request (two for an idle abort) applying the outcome leaves the table unchanged, whatever the outcome, unless its reference has come to mean another entry that is current; for an outcome that changes state and is not blocked this is an iff |
| Diagnostics.CurrentTakesEffect | openclaw/logging/diagnostic_session_recovery_coordinator.py:115-165 | From any table a current outcome that changes state and is not blocked does change the table |
| Writes.CurrentMeans | openclaw/logging/diagnostic_session_recovery_coordinator.py:115-136 | An outcome is current iff the request is unstamped, or the entry it means has the state expected (processing by default) and the generation stamped, for the abort of an idle session also the next one |
| Writes.ApplyRecovers | openclaw/logging/diagnostic_session_recovery_coordinator.py:140-165 | A current aborted, released or no-work outcome leaves the entry its `get` returned idle, active now, one generation older and without markers, with the queue told per outcome: empty when released, when there was no work, or when the abort released all; the longer of its own and the requested one when an idle session keeps lane work; else one less; every other entry is as the `get` left it |
| Writes.ApplyHeldBack | openclaw/logging/diagnostic_session_recovery_coordinator.py:107-149 | A newer run stops it after the `get`; any other outcome, and one that is not current, does nothing |
| Diagnostics.StaleHeartbeatDoesNothing | openclaw/logging/diagnostic.py:644-657 | For the requests of the heartbeat it holds without exception: their reference resolves by key, which is seen at request time |
| Diagnostics.RunKeepsSelfKeyed | openclaw/logging/diagnostic_session_state.py:53-127 | Over every run without a session called "unknown" each entry stays under its own key, so heartbeat references keep resolving by key |
| Diagnostics.IdReferenceMoves | openclaw/logging/diagnostic_session_state.py:142-151 | A concrete run in which a request by id alone comes to mean an entry created under a key equal to the id, and takes effect there |
| Diagnostics.IdleAbortToleratesOne | openclaw/logging/diagnostic_session_recovery_coordinator.py:119-131 | The tolerance is exactly one: at the stamped generation or one above, an idle abort does take effect |
| Diagnostics.DirectReferenceStays | openclaw/logging/diagnostic_session_state.py:142-146 | A reference by key keeps meaning the entry as long as it is kept |
| Diagnostics.SameGenerationSameDepth | openclaw/logging/diagnostic.py:269-389 | Without merges an unmoved generation means an unchanged queue depth |
| Diagnostics.MergeHidesWork | openclaw/logging/diagnostic_session_state.py:84-86 | A merge adds queued work while the generation may stay |
| Diagnostics.NoopDiscardsExactly | openclaw/logging/diagnostic_session_recovery_coordinator.py:107-165 | From any table: a no-op outcome takes from the total queue depth nothing when it is stale, else exactly the depth of the entry that the applying `get` returns (given per case of the lookup; nothing if blocked) and what that `get` evicts for size (nothing when the reference is found) |
| Diagnostics.NoopDiscardsNothing | openclaw/logging/diagnostic_session_recovery_coordinator.py:151-165 | For a request that saw an empty queue, over runs that keep the entry and merge nothing into it: the no-op discards queued work iff it is current, not blocked, and the applying `get` merges, re-keys or finds by id another entry with work, or the reference has come to mean another entry and finds work there |
| Diagnostics.KeyedNoopDiscardsNothing | openclaw/logging/diagnostic_session_recovery_coordinator.py:151-165 | For a reference by key only the applying `get` can bring in the work that is lost |
| Diagnostics.ExpiryDiscardsWork | openclaw/logging/diagnostic_session_state.py:108-120 | A concrete table without any merge: the session expires in the applying `get`, another one is re-keyed in its place, and its messages are cleared |
| Diagnostics.MovedReferenceDiscardsWork | openclaw/logging/diagnostic_session_state.py:142-151 | A concrete run in which a reference by id alone comes to mean an entry created under a key equal to the id, whose message the no-op clears, while the session it was stamped from is kept and nothing is merged |
| Diagnostics.MergeDiscardsWork | openclaw/logging/diagnostic_session_state.py:115-117 | A concrete table in which the applying `get` merges another session in, and its messages are cleared |
| Diagnostics.EarlierMergeDiscardsWork | openclaw/logging/diagnostic_session_state.py:84-86 | A concrete run in which the merge comes before the outcome, under an unchanged generation, and the messages are cleared |
| Diagnostics.PeekedEvictsNothing | openclaw/logging/diagnostic_session_state.py:24-50 | A `get` with a reference that a `peek` finds evicts nothing for size |
| Recovery.ApplyKeepsInv | openclaw/logging/diagnostic_session_recovery_coordinator.py:107-165 | Applying any outcome keeps the table well formed |
| Attention.WarningsDouble | openclaw/logging/diagnostic.py:421-445 | For every sequence of attention checks and resets, the k-th stuck or long-running warning since the last reset has age at least threshold * 2^(k-1) |
| Attention.WarningsBounded | openclaw/logging/diagnostic.py:421-445 | So n warnings up to age A need threshold * 2^(n-1) <= A |
| Attention.ClassifyMeans | openclaw/logging/diagnostic_session_attention.py:11-70 | When a session is stuck, stalled or long running, in terms of stale work, queue, state and runs, with reason, label and eligibility |
| Diagnostics.RunMarkers | openclaw/logging/diagnostic.py:276-445 | Over every run that keeps the session, the two markers of its entry are those of the attention checks and resets of the run |
| Diagnostics.RunWarningsDouble | openclaw/logging/diagnostic.py:276-445 | So the bound holds for the warnings of a session in every run of the table |
| Attention.HeartbeatAsksExactly | openclaw/logging/diagnostic.py:629-672 | The heartbeat asks for a recovery exactly for an idle session with queued work, stale progress and orphaned activity or an unnamed run; it never asks to abort an active run |
| StuckRecovery.AbortsExactly | openclaw/logging/diagnostic_stuck_session_recovery.py:175-298 | A live run is aborted iff the request is current and allows it, or queued work meets stale progress; the recovery fails before an abort iff it has to read the progress and that raises |
| StuckRecovery.Begin | openclaw/logging/diagnostic_stuck_session_recovery.py:174-315 | The stretch up to the abort, branch by branch, makes the specified decision |
| StuckRecovery.Conclude | openclaw/logging/diagnostic_stuck_session_recovery.py:316-395 | The stretch after the abort resets the lane iff the specification says so and reports the specified outcome, exceptions included |
| Lanes.RefKeyMeans | openclaw/logging/diagnostic_session_recovery.py:11-22 | The key of a recovery is the trimmed session key if not empty, else the trimmed id |
| Lanes.LiveRunMeans | openclaw/logging/diagnostic_stuck_session_recovery.py:187-218 | The live run: by handle under the session key, else the file, else the session itself; without one the active work found in the same order |
| Lanes.DecideMeans | openclaw/logging/diagnostic_stuck_session_recovery.py:174-315 | What is decided before the abort: refused as stale, for a run that goes on, for an active task on the lane, or because progress cannot be read; an abort of the live run when allowed or when queued work meets no progress for the time asked or five minutes; or on with nothing running |
| Lanes.DecisionsDiffer | openclaw/logging/diagnostic_stuck_session_recovery.py:174-315 | These decisions exclude each other |
| Lanes.SettleMeans | openclaw/logging/diagnostic_stuck_session_recovery.py:316-395 | After an abort, in every system a run can reach: a lane is reset iff no task on it is newer than the abort and it has queued tasks, or the session has messages, or the run was not both aborted and drained; and iffs for the outcomes aborted, released and no work with their counts, with the table and keys they leave |
| Lanes.StartMeans | openclaw/logging/diagnostic_stuck_session_recovery.py:162-315 | A start with a free key is refused, begins the abort that is due, or, when nothing runs, resets the lane there is and ends with the outcome told |
| Lanes.StartRefused | openclaw/logging/diagnostic_stuck_session_recovery.py:162-171 | A start without a key or with one taken is refused and changes nothing else |
| Coordination.RunKeepsInFlight | openclaw/logging/diagnostic_session_recovery_coordinator.py:179-247 | Over every interleaving each of the two layers has at most one outstanding recovery per reference key |
| Coordination.NextKeepsInFlight | openclaw/logging/diagnostic_session_recovery_coordinator.py:179-247 | Every request, start, abort reply, cancellation and log step keeps that bookkeeping |
| Coordination.CollisionDoesNothing | openclaw/logging/diagnostic_session_recovery_coordinator.py:184-194 | A colliding request is skipped with the outcome `already_in_flight` and changes nothing at all |
| Lanes.RequestMeans | openclaw/logging/diagnostic_session_recovery_coordinator.py:179-239 | A request whose key is outstanding is skipped; any other takes its key and makes one coroutine |
| Lanes.SyncMeans | openclaw/logging/diagnostic_session_recovery_coordinator.py:227-247 | A recovery that answers at once has its outcome applied, a failure if it raises, and leaves no trace in the bookkeeping |
| Lanes.CancelMeans | openclaw/logging/diagnostic_stuck_session_recovery.py:396-397 | A cancelled recovery is gone with its keys and has changed nothing else |
| Coordination.DroppedKeepsKey | openclaw/logging/diagnostic_session_recovery_coordinator.py:250-251 | A recovery whose coroutine is dropped keeps its key over every run in which it is never started, and every later request for the key is skipped |
| Coordination.EndReleases | openclaw/logging/diagnostic_session_recovery_coordinator.py:230-247 | A coordinated recovery holds its key exactly until the event that ends it, which releases it on both layers |
| Coordination.RunKeepsSafe | openclaw/logging/diagnostic_stuck_session_recovery.py:220-328 | Over every run and whatever the environment does across the abort: aborts only when allowed or for queued work with stale progress; a lane holding a task unseen before the abort is never reset |
| Coordination.TableRunsSteps | openclaw/logging/diagnostic_session_recovery_coordinator.py:201-247 | The session table of the whole system runs through diagnostic steps only |
| Coordination.StaleJobDoesNothing | openclaw/logging/diagnostic_session_recovery_coordinator.py:107-139 | Stale recoveries do nothing in the whole system, across the `await`, in any interleaving with other recoveries, unless the reference has come to mean another current entry; for an outcome that changes state and is not blocked this is an iff |
| Coordination.StaleKeyedJobDoesNothing | openclaw/logging/diagnostic_session_recovery_coordinator.py:107-139 | For references by key without exception |
| Coordination.NoopMeansEmptyQueue | openclaw/logging/diagnostic_stuck_session_recovery.py:330-381 | A no-op outcome implies a request queue depth of at most 0 |
| Coordination.NoopJobDiscardsExactly | openclaw/logging/diagnostic_session_recovery_coordinator.py:151-165 | Exactly how much queued work the end of any recovery in a no-op discards |
| Coordination.NoopJobDiscardsNothing | openclaw/logging/diagnostic_session_recovery_coordinator.py:151-165 | A recovery stamped from a session that ends in a no-op, in any interleaving that keeps the entry and merges nothing into it, discards queued work iff it is applied and the applying `get` brings in the work of another entry, or the reference has come to mean another entry and finds work there |
| RecoveryService.Service.RequestAsync | openclaw/logging/diagnostic_session_recovery_coordinator.py:179-239 | The request in place: skipped iff the key is taken, with that outcome, else the key is taken |
| RecoveryService.Service.RequestSync | openclaw/logging/diagnostic_session_recovery_coordinator.py:227-247 | A recovery that answers at once or raises: the key is taken and released within the call |
| RecoveryService.Service.Start | openclaw/logging/diagnostic_stuck_session_recovery.py:162-298 | The coroutine runs to its end or to the abort, with the key sets of both layers |
| RecoveryService.Service.Settle | openclaw/logging/diagnostic_stuck_session_recovery.py:252-397 | The rest after the abort, including `finally` |
| RecoveryService.Service.Cancel | openclaw/logging/diagnostic_stuck_session_recovery.py:396-397 | A cancelled wait releases both keys and applies nothing |
| EventStreams.RunKeepsWaiting | openclaw/llm/event_stream.py:32-74 | For any number of consumers queue and waiters are never both non-empty, and the result is the first one offered |
| EventStreams.ResultSetOnce | openclaw/llm/event_stream.py:36-51 | Once set, the result never changes |
| EventStreams.ConsumerSeesAccepted | openclaw/llm/event_stream.py:32-74 | With one consumer what it has seen is always a prefix of the accepted pushes, and all of them when its iterator returns |
| EventStreams.RunDelivers | openclaw/llm/event_stream.py:32-74 | Seen, in hand and queued events together are the accepted pushes in order |
| EventStreams.ConsumerFinishes | openclaw/llm/event_stream.py:60-74 | With one consumer, once the stream is done its iterator returns within as many stretches as there are queued events, plus two, and has then yielded every accepted event |
| EventStreams.SecondWaiterStays | openclaw/llm/event_stream.py:36-46 | A terminal event wakes only the first waiting consumer; every other one stays blocked and sees nothing more over every sequence of actions without an `end` |
| EventStreams.TerminalWakesAll | openclaw/llm/event_stream.py:36-46 | A terminal event leaves nobody blocked iff at most one consumer was waiting |
| EventStreams.NothingLostOrDoubled | openclaw/llm/event_stream.py:32-74 | For any number of consumers each event was accepted exactly as often as it has been seen, is in hand or is queued |
| EventStreams.EventStream.Push | openclaw/llm/event_stream.py:32-46 | `push` in place is the specified action |
| EventStreams.EventStream.End | openclaw/llm/event_stream.py:48-55 | `end` in place wakes all waiters |
| EventStreams.EventStream.Next | openclaw/llm/event_stream.py:60-74 | One stretch of the iterator in place, with what it yields |
| KeyedQueues.NothingLostPerKey | openclaw/infra/keyed_async_queue.py:13-35 | For every interleaving, per key: handled items, the rest of the batch in hand and the pending items are the enqueued sequence in order; results match items one to one, errors included |
| KeyedQueues.RunAccounts | openclaw/infra/keyed_async_queue.py:13-35 | The accounting behind it, kept by every step |
| KeyedQueues.RunKeepsExclusive | openclaw/infra/keyed_async_queue.py:19-34 | For every interleaving of any number of calls at most one batch per key is in hand, and `_processing` names exactly the keys with one |
| KeyedQueues.KeyedAsyncQueue.Enqueue | openclaw/infra/keyed_async_queue.py:13-16 | `enqueue` in place is the specified action |
| KeyedQueues.KeyedAsyncQueue.Process | openclaw/infra/keyed_async_queue.py:18-27 | `process` to its first await: it goes on iff no batch of the key is in hand and something is pending |
| KeyedQueues.KeyedAsyncQueue.Resume | openclaw/infra/keyed_async_queue.py:27-35 | From one await to the next, recording a value or an error; the results are returned iff it was the last item |
| Fences.ScanFenceSpans | openclaw/chat/canvas_render.py:64-107 | The scanner by offsets returns the spans of exactly the fenced blocks of the text, told in its characters: lines part it at newlines; a fence line has at most three spaces, then at least three backticks or tildes; the first one outside a block opens, the first later one of the same character, at least as long and followed only by blanks, closes; an unclosed block runs to the end |
| Fences.FenceLineMeans | openclaw/chat/canvas_render.py:80-88 | A line yields a marker iff it is at most three spaces, then exactly n >= 3 copies of a backtick or a tilde, then a rest that does not start with one more |
| Fences.AreFencedMeans | openclaw/chat/canvas_render.py:80-107 | The blocks over the markers are the fenced blocks over the characters |
| Fences.FenceSpansUnique | openclaw/chat/canvas_render.py:64-107 | The description by characters leaves one list of spans |
| Fences.ScanLoop | openclaw/chat/canvas_render.py:73-102 | The offset loop does what the line machine does |
| Fences.FencesOfAreBlocks | openclaw/chat/canvas_render.py:64-107 | The blocks of a text satisfy the declarative reading: no opener outside, no closer inside, in order |
| Fences.BlocksUnique | openclaw/chat/canvas_render.py:64-107 | That reading determines the blocks, so the scanner has one possible answer |
| Fences.SpansOrdered | openclaw/chat/canvas_render.py:96-105 | Spans are in bounds, not empty, start at line starts, strictly ordered and disjoint |
| Fences.RunIsMaximal | openclaw/chat/canvas_render.py:80-86 | The marker run of a fence line is maximal |
| Shortcodes.ExtractShortcodes | openclaw/chat/canvas_render.py:274-318 | Before the blank-line collapse no text is lost or duplicated: kept and removed pieces tile the text, the kept ones make the result, and what is removed are exactly the stretches of the matches used that have a preview, with their previews in order |
| Shortcodes.RemovedExactly | openclaw/chat/canvas_render.py:283-317 | One removed stretch per preview, each a match outside every fence; the matches used are disjoint, each with a preview is removed, and every other match outside the fences starts inside a used one |
| Shortcodes.ChosenAccounts | openclaw/chat/canvas_render.py:303-316 | Of matches in order of their starts those used are disjoint, and every match was used or starts inside a used one |
| Shortcodes.CandidatesAre | openclaw/chat/canvas_render.py:283-303 | The sorted candidates are exactly the matches of both expressions outside every fence |
| Shortcodes.BlockFirst | openclaw/chat/canvas_render.py:283-303 | Of a block shortcode and a self-closing one at the same place the block comes first |
| Shortcodes.CutsHavePreviews | openclaw/chat/canvas_render.py:311-315 | As many removed stretches as previews, pairwise from one match |
| Shortcodes.StripMatches | openclaw/chat/canvas_render.py:304-318 | The cursor loop over sorted matches, with the same accounting |
| Shortcodes.TilesMakeWhole | openclaw/chat/canvas_render.py:304-318 | Pieces that tile the text make up the text again |
| Payload.NormPresentationTwice | openclaw/interactive/payload.py:306-349 | Normalizing a presentation is idempotent, and its blocks are fixed points of the block normalizer |
| Payload.ConversionSettles | openclaw/interactive/payload.py:360-492 | For every normalized presentation the converted reply is a fixed point of the reply normalizer; converting it back and forth gives the same reply again |
| Payload.ControlsExactly | openclaw/interactive/payload.py:449-464 | For every presentation the controls-only reply has exactly the button and select blocks of the full reply, and is missing iff there are none |
| PayloadFields.ToInteractiveMeans | openclaw/interactive/payload.py:360-445 | A presentation becomes its title as a text, then what its blocks become, in order |
| PayloadFields.ConvertBlockMeans | openclaw/interactive/payload.py:367-443 | What a block becomes, by the word of its type |
| PayloadFields.ConvertButtonMeans | openclaw/interactive/payload.py:377-419 | A button is dropped iff action, value, address and app are all empty; otherwise each field of the converted one is told |
| PayloadFields.ConvertOptionMeans | openclaw/interactive/payload.py:426-436 | Each field of a converted option; the text of its action goes before its value |
| PayloadFields.BackBlockMeans | openclaw/interactive/payload.py:467-492 | What a block of a reply goes back to, by the word of its type |
| Payload.NoReplyExactly | openclaw/interactive/payload.py:444-445 | A normalized presentation converts to nothing iff it has no title and only dividers and buttons that do nothing |
| Payload.SilentExactly | openclaw/interactive/payload.py:367-443 | Which normal blocks leave no trace in the reply |
| Payload.NormButtonTwice | openclaw/interactive/payload.py:184-223 | Normalizing a button is idempotent |
| Payload.NormOptionTwice | openclaw/interactive/payload.py:234-250 | Normalizing an option is idempotent |
| Payload.NormBlockTwice | openclaw/interactive/payload.py:306-332 | Normalizing a block is idempotent |
| PayloadFields.ButtonMeans | openclaw/interactive/payload.py:184-223 | A raw value is a button iff it has a label or a text, the label going first; each field of the normal button is told, by the keys and words of the dictionaries |
| PayloadFields.OptionMeans | openclaw/interactive/payload.py:234-250 | So for an option, which needs a caption and a value or an action |
| PayloadFields.BlockMeans | openclaw/interactive/payload.py:267-332 | What a raw block is, by the word of its type in lower case |
| PayloadFields.PresentationMeans | openclaw/interactive/payload.py:335-349 | A record is a presentation iff it has a title or a block; title, tone and blocks are told |
| PayloadFields.FilterMapMeans | openclaw/interactive/payload.py:253-263 | A list is normalized item by item in order, leaving out what yields nothing |
| PayloadFields.CleanMeans | openclaw_packages/normalization_core/string_coerce.py:20-30 | Cleaning finds s iff the value is a string that is s, trimmed and not empty, between spaces |
| Payload.ReadButtonBack | openclaw/interactive/payload.py:184-223 | A button record reads back as the cleaned parts it was built from |
| Payload.ReadOptionBack | openclaw/interactive/payload.py:234-250 | So does an option record |
| Payload.ReadActionBack | openclaw/interactive/payload.py:118-177 | An action record reads back, and its value is its text |
| Payload.ConvertBuilt | openclaw/interactive/payload.py:377-419 | A normal button is dropped iff it does nothing; otherwise it keeps every part and gets the value of its action when it has none |
| Payload.ConvertButtonTwice | openclaw/interactive/payload.py:377-419 | A converted button is normal and converts to itself |
| Payload.ConvertBuiltOption | openclaw/interactive/payload.py:426-436 | A normal option keeps label and action, and the value of its action goes before its own |
| Payload.ConvertOptionTwice | openclaw/interactive/payload.py:426-436 | A converted option is normal and converts to itself |
| Payload.CleanLowerIdempotent | openclaw_packages/normalization_core/string_coerce.py:53-56 | Trimming and lower-casing a word is idempotent |
| Texts.StripIdempotent | openclaw_packages/normalization_core/string_coerce.py:20-30 | A trimmed string has no space at its ends and is left alone by trimming |
| Texts.StripMeans | openclaw_packages/normalization_core/string_coerce.py:20-30 | Trimming takes off exactly the spaces at both ends |
| Stability.Recorder.Append | openclaw/logging/diagnostic_stability.py:242-249 | The ring buffer in place refines appending to a log |
| Stability.Recorder.ListRecords | openclaw/logging/diagnostic_stability.py:252-258 | Listing gives the last min(n, capacity) records in order, and count + dropped = n |
| Stability.SelectMeans | openclaw/logging/diagnostic_stability.py:346-398 | What a query selects: the records of its type strictly after its sequence number, counted, with the first and last numbers, and the last ones of them up to its limit, 50 by default |
| Stability.SelectOnSnapshot | openclaw/logging/diagnostic_stability.py:346-416 | For any two queries: selecting from a snapshot that its limit did not cut reports exactly the records of the buffer that meet both conditions |
| Stability.SelectOnSnapshotDirectly | openclaw/logging/diagnostic_stability.py:346-416 | So it equals querying the buffer directly with a query for both conditions |
| Stability.CutSnapshotMiscounts | openclaw/logging/diagnostic_stability.py:402-416 | For any two queries: selecting from a snapshot reports the true count of the records that meet both iff no record that the limit cut off meets the second |
| Stability.CutSnapshotCountsLess | openclaw/logging/diagnostic_stability.py:402-416 | In particular selecting everything reports the count of the snapshot iff it was not cut |

## Left out

Planner:

- Reading task files, resolving imports and finding owners (`build_graph` and what it calls): foreign files; the graph it returns is the input, with every dependency a task. Self edges, which it excludes, are allowed here.
- The audit file and the printed summary: input and output; the grades are an input.
- Node names are compared by code point, as Python does; the size of a task is a natural number.

Sessions and recovery:

- Entries are values in the table, named by their key. Aliasing is not captured: a caller that keeps an entry object across another `get` that evicts or merges it.
- SessionStore.Store.MergeInto: a poll record is a count and a time, and never empty; who writes tool history, buckets and polls is not modelled.
- Diagnostics.StaleRecoveryDoesNothing: for runs that keep the entry under its key; an evicted and recreated entry restarts at generation 0.
- Coordination.RunKeepsSafe: a recovery callback other than the recovery runtime is modelled only when it answers at once; an awaited one is always the runtime.
- What a lane reset returns is taken to be a count, not negative.
- Log lines, emitted events, the activity tracker's own state, heartbeat timers and memory samples: no effect on the modelled state. Whether a newer run blocks an outcome is an input.
- Thresholds and ages are integers; rounding of configured values is not modelled.

Queues:

- Waiters that are cancelled, events that are `None`, and an extractor that raises.
- Cancellation inside a handler of `KeyedAsyncQueue.process`; `AsyncJsonlQueue` writes files.

Texts and data:

- The matching of the regular expressions for shortcodes is an input: matches in order and disjoint for one expression. The marker test for fence lines is modelled by hand.
- Parsing of shortcode attributes and building of previews: an input of the extraction, as an optional preview for each match.
- The early exit of the extraction when the text has no shortcode, and the final collapse of blank lines and trimming.
- Payload.ConversionSettles: a `blocks`, `buttons` or `options` value that is not a list counts as empty, which is what iterating a string or a dictionary comes to; iterating a number raises and is not modelled. Mappings other than dictionaries are not modelled.
- Payload.CleanLowerIdempotent: lower-casing covers the characters that become ASCII letters, which is all that a comparison with ASCII words can see; spaces are those of `str.strip`.
- The plain-text fallback of a presentation, the summary of stability records and the sanitizing of events: long field tables without further promises.
- Checking and defaulting of query options for stability records (openclaw/logging/diagnostic_stability.py:304-343): a table of argument checks; the queries here are already checked.
- Gateway and channel stubs, command line, configuration schemas, file and network code.
