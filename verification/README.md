# Verified model of the xll-gen runtime

xll-gen generates Excel add-ins whose functions run in a separate Go server. The
Go server (the guest) and the C++ add-in (the host) exchange messages over shared
memory. These files model the parts of that runtime whose correctness is an
argument over many steps, and prove those arguments for all inputs, runs and
interleavings.

`dafny verify dfyconfig.toml` checks everything.

## What is modelled

**Chunked transfer.** A payload too large for a slot is cut into frames
(`ChunkSender`), and put together again from frames that arrive in any order,
repeated, overlapping, or on a poisoned id. `Segments` is the interval argument:
the neighbour comparison that the code makes decides exactly whether a range
meets a claimed byte, and the running byte count reaches the total exactly when
no byte is missing. `ChunkProtocol` gives the guest's reassembler as atomic steps
over values; `ChunkManagers` is the code itself, classes that update their fields
in place, each method proved against its step. On the steps rest
`ChunkInvariants` (bounds, poison windows), `ChunkLimits` (the same on the fields
and numbers of a configuration, and the exact fate of a frame), `ChunkRoundTrip` (the frames of a
payload reassemble to that payload) and `ChunkInterleaving` (any number of
goroutines paused anywhere between the locks of `HandleChunk`; uninterrupted, its
sections compose to the atomic step). `ChunkMirror` is the host's reassembler in
C++, over ordered maps, with the exact condition under which the two agree on a
frame, and the agreement on whole runs, each side choosing its own evictions.
`HostRoundTrip` is the round trip in the direction `Sender.Send` is used, from its
calls on the link, acknowledged or not, to the host's dispatch. `AckPull` is the
retained pull transport in the other direction.

**Command batching.** `CommandBatchers` models scheduled cell writes, the per-cell
buffers, their grouping by value and compression into rectangles
(`GreedyMeshes`), and proves that replaying what is emitted, with the remaining
buffers laid on top, shows the same values and formats as the schedules one by
one: always up to the sign of a zero, and exactly under an exact condition. A mesh is described without its loops, so that the Go version, which sorts
its argument in place, and the C++ port can be proved to list the same rectangles.

**One-shot results.** `RtdOnceRegistries` has the scalar and the grid registry of
the host, `RtdOnceRuns` their retention over whole runs and the bisimulation of
the two, `RtdOnceKeys` the keys, and `GridReadiness` the server's `RunOnceGrid`
interleaved with the host: a ready token never leads to a miss.

**Send gate and teardown.** `Teardown` interleaves RTD senders, the async batch
worker, the job pool, the main goroutine, the shutdown sequence and the
parent-death watcher, and proves when shared memory can be released.
`TeardownTraces` reads the same off the events of a run: which results are
accepted and that they can be flushed, which sends are open, which jobs are done.

**Async batches and subscriptions.** `AsyncFlush` is the recursive halving of a
batch over the transfer limit; `RtdSubscriptions` the subscription maps and the
connect-cancel registry.

Time is an argument of every operation that reads a clock. Iteration over a Go
map is an arbitrary choice (`:|`), and where the choice shows in the outcome (the
oldest poison entry) it is an argument of the step. Message ids, topics and cells
are values; buffers in `ChunkManagers` are heap objects with arrays.

## Where the code does not do what one might read into it

- `greedy_mesh.go:22` speaks of the minimum number of rectangles. The algorithm is
  greedy and can take more (`GreedyMeshes.MeshIsNotMinimal`); what holds is stated
  by `GreedyMeshes.IsMesh`: width-first maximal rectangles in row-major order,
  unique for a set of cells.
- At-most-once dispatch holds of a reassembly buffer, not of a transfer id: after
  completion the id is open again (`ChunkRoundTrip.RoundTrip`,
  `HostRoundTrip.HostRoundTrips`). A frame sent again because its acknowledgement
  was lost is dispatched a second time exactly when it is the whole transfer
  (`HostRoundTrip.ResendReopens`).
- The two reassemblers dispatch under different types when a transfer changes its
  declared type: the guest takes the completing frame's, the host the first
  frame's. Nothing else differs as long as a transfer keeps its total
  (`ChunkMirror.SidesAgree`, `ChunkMirror.RunsAgree`).
- They also differ when a resident id comes back with another total: the guest
  starts over, the host keeps the first total. They then still agree only on a
  frame that both totals refuse for the same reason
  (`ChunkMirror.NewTotalUnlinks`; with the types, `ChunkMirror.FrameAgreesIff`).
  The note at `manager.go:437-441` says the host discards such a transfer; it does
  so when the frame falls outside the first total, is empty or overlaps, and
  stores it otherwise (`ChunkMirror.HostMeasuresFirstTotal`, with an input in
  `ChunkMirror.HostStoresUnderFirstTotal`).
- An outgoing ACK-pull entry is removed with its last byte, except when the first
  slice is already the whole payload; then it lingers until a pull that finds
  nothing, or the sweep (`AckPull.LingersIffOneSlice`).
- The job pool is drained before the mapping is released on the main path only. A
  shutdown started by the parent-death watcher can release it under a running
  job (`Teardown.WatcherMayUnmapUnderAJob`). Whoever starts it, the release can
  only come behind the last job if and only if by then a failed drain has been
  reported, or serving is over and every accepted job has finished
  (`Teardown.ReleaseBehindJobsIff`).
- Go's `==`, and so the grouping by value, does not see the sign of a zero. A
  group is written with one of its values, so a cell can receive the other zero
  (`CommandBatchers.ASignIsLost`, for every iteration order). A flush writes
  exactly what is buffered if and only if no sheet has both zeros buffered in
  otherwise equal values (`CommandBatchers.MergedIsExactIff`,
  `CommandBatchers.FlushReplaysExactly`).
- Keys of one-shot results give their topics back exactly as long as no topic holds
  the separator (`RtdOnceKeys.KeyRoundTripIffPlain`), and two calls share a key
  exactly when their topics, cut at every separator, are the same list
  (`RtdOnceKeys.KeysShareIff`).
- The frame fields are 32 bits wide, so a split is sound exactly below 4 GiB; a
  caller that raises the cap on a transfer past that loses the guarantee
  (`ChunkSender.TilesIffFits`).

## Model

| member | source | states |
|---|---|---|
| `Segments.NeighboursDecide` | pkg/server/types.go:201-232 | the comparison with the two neighbours answers New exactly when the range meets no claimed byte, Duplicate exactly when the same range is recorded, Overlap otherwise |
| `Segments.RecordNew` | pkg/server/types.go:138-178 | recording a free range keeps the list sorted and disjoint, covers exactly the old bytes and the range's own, and adds its length to the sum |
| `Segments.SumIsCoverage` | pkg/server/types.go:138-178 | disjoint ranges inside an interval sum to its length if and only if no byte of it is missing, and never to more |
| `Segments.CompleteIffCovered` | pkg/server/handlers.go:171-193 | the running count reaches the declared total if and only if every byte of the transfer has been claimed |
| `ChunkManagers.ChunkBuffer.Search` | pkg/server/types.go:202-204 | binary search finds the first recorded range at or after an offset |
| `ChunkManagers.ChunkBuffer.ClaimSegment` | pkg/server/types.go:201-232 | the verdict is the one by meaning, the range is recorded in order on New and nothing changes otherwise |
| `ChunkManagers.ChunkBuffer.ReceiveChunk` | pkg/server/handlers.go:112-194 | the section under the buffer's mutex, on the array in place: bounds, zero length, claim, copy, count and dispatch claim |
| `ChunkManagers.ChunkManager.PruneStale` | pkg/server/manager.go:353-364 | drops exactly the transfers and poison entries older than the TTL |
| `ChunkManagers.ChunkManager.IsPoisoned` | pkg/server/manager.go:525-537 | answers whether the id is inside its poison window and drops the entry when it is past it |
| `ChunkManagers.ChunkManager.GetChunkBuffer` | pkg/server/manager.go:413-479 | admission: totals out of range refused, a resident transfer touched or reset on another total, a new one opened after a prune at the bound; no two transfers ever share a buffer |
| `ChunkManagers.ChunkManager.RemoveChunkBuffer` | pkg/server/manager.go:481-485 | removes this transfer and no other |
| `ChunkManagers.ChunkManager.OldestPoisoned` | pkg/server/manager.go:507-514 | the eviction loop finds an entry no other is older than, in any iteration order |
| `ChunkManagers.ChunkManager.PoisonTransfer` | pkg/server/manager.go:492-520 | drops the transfer, makes room by pruning and then by evicting an oldest entry, records the id |
| `ChunkManagers.ChunkManager.HandleChunkRequest` | pkg/server/handlers.go:60-213 | the whole request refines the atomic step, keeps the invariant, and some choice of the oldest entry explains its eviction |
| `ChunkInvariants.ReceiveKeeps` | pkg/server/handlers.go:112-194 | a rejected frame changes nothing, a stored one covers exactly its bytes in addition, completion means every byte is covered |
| `ChunkInvariants.HandleChunkKeeps` | pkg/server/handlers.go:60-213 | a chunk keeps the invariant: transfer and poison bounds, unfinished buffers of the declared size within the cap, no id both resident and poisoned |
| `ChunkInvariants.PoisonKeeps` | pkg/server/manager.go:492-520 | a rejection keeps the invariant, the poison bound included, and leaves the id poisoned and not resident |
| `ChunkInvariants.RunKeeps` | pkg/server/manager.go:413-537 | every run of chunks and sweeps keeps that invariant |
| `ChunkInvariants.AdmissionExact` | pkg/server/manager.go:413-479 | a transfer is refused for the count bound if and only if it is new, its total is fine, and the cache is full of transfers that are all still fresh; the other refusals if and only if the total is out of range |
| `ChunkInvariants.AdmittingEffect` | pkg/server/handlers.go:102-110 | an admitted transfer is touched and not poisoned; a refusal opens none and poisons none |
| `ChunkInvariants.PruneMakesRoom` | pkg/server/manager.go:353-364 | a prune frees a place if and only if some resident transfer is stale |
| `ChunkInvariants.EvictionExact` | pkg/server/manager.go:492-520 | a poison entry is evicted if and only if the set is full of entries that are all inside their window |
| `ChunkInvariants.PoisonRefusal` | pkg/server/handlers.go:68-78 | a chunk is refused as poisoned if and only if it falls inside its id's window, and the refusal changes nothing |
| `ChunkInvariants.RefusalEffect` | pkg/server/handlers.go:112-169 | framing faults and nothing else put an id in the poison set; resource refusals open and poison nothing; a dispatched id is free again |
| `ChunkInvariants.PoisonWindow` | pkg/server/manager.go:487-537 | from a violation until its record expires or is evicted, every chunk on that id is refused, whatever else runs |
| `ChunkLimits.AdmittedIff` | pkg/server/manager.go:376-479 | on the configuration's fields and the default numbers: a new transfer of acceptable size is refused for the count if and only if that many transfers touched within the TTL are resident; the size refusals likewise |
| `ChunkLimits.SweptIff` | pkg/server/manager.go:353-373 | a sweep keeps, unchanged, exactly the transfers and poison entries idle for no longer than the TTL, 60 s by default |
| `ChunkLimits.PoisonedIff` | pkg/server/manager.go:525-537 | a chunk is refused as poisoned if and only if its id was rejected no longer than the TTL ago |
| `ChunkLimits.EvictedIff` | pkg/server/manager.go:492-520 | a rejection costs another id its live poison record if and only if as many live records as the limit are held, and then one of the oldest |
| `ChunkLimits.FrameFate` | pkg/server/handlers.go:112-200 | for a frame that keeps its transfer's total, by the bytes claimed so far: exactly when it is refused and why, when it completes the transfer, and which bytes are dispatched |
| `ChunkSender.BudgetFits` | pkg/chunk/chunk.go:136-145 | a frame of one budget plus framing fits its buffer if and only if the buffer is larger than the framing, it is the largest that fits up to the default size, and a buffer with no room still makes progress |
| `ChunkSender.GuestBudgetFits` | pkg/chunk/chunk.go:186-196 | a guest frame fits the buffer the client reports; an unknown one is taken to be half a slot |
| `ChunkSender.FramesTile` | pkg/chunk/chunk.go:340-365 | the frames cover the payload without gap or overlap, nonempty, at most the chunk size, in number the ceiling of their quotient |
| `ChunkSender.TilesIffFits` | pkg/chunk/chunk.go:209-221 | a split can be put back together if and only if the payload's length fits the 32-bit fields |
| `ChunkSender.SendWithRetry` | pkg/chunk/chunk.go:263-281 | up to max(1, attempts) calls of the same frame, stopping at the first one accepted and failing only when all of them are refused; the frame is acknowledged once on success and never on failure |
| `ChunkSender.RetriedIff` | pkg/chunk/chunk.go:263-281 | it succeeds if and only if one of its next max(1, attempts) calls would be accepted |
| `ChunkSender.Send` | pkg/chunk/chunk.go:340-365 | it fails at the first frame all of whose max(1, attempts) calls the link refuses, with that frame's offset, and succeeds when there is none; its calls are the frames of that prefix of the split, in order, each repeated 1 to max(1, attempts) times; more than 256 MiB, or the given cap, calls nothing |
| `ChunkSender.StopsOnce` | pkg/chunk/chunk.go:340-365 | where a send stops is decided by the answers of the link |
| `ChunkSender.ArrivalsAreFrames` | pkg/chunk/chunk.go:340-365 | whatever subset of a send's calls reaches the receiver, acknowledged or not, consists of frames of the split |
| `ChunkRoundTrip.TilesPartition` | pkg/chunk/chunk.go:340-365 | the ranges of a split are pairwise apart and reach every byte |
| `ChunkRoundTrip.ReceiveFrame` | pkg/server/handlers.go:112-194 | a frame of the job completes its buffer exactly when it brings the last missing range, and the buffer then holds the payload |
| `ChunkRoundTrip.FrameArrives` | pkg/server/handlers.go:60-213 | through the whole of HandleChunk: acknowledged while ranges are missing, dispatched with payload and type by the last |
| `ChunkRoundTrip.OthersLeaveItAlone` | pkg/server/handlers.go:60-213 | traffic on other ids and sweeps within the TTL leave a transfer as it was |
| `ChunkRoundTrip.PartialRun` | pkg/server/handlers.go:60-213 | over any run that has not brought every range, each frame of the job is acknowledged, none dispatched, and the buffer holds exactly what arrived |
| `ChunkRoundTrip.RoundTrip` | pkg/server/handlers.go:60-213 | any order, repeats and foreign traffic: the original payload and type are dispatched exactly when the last missing frame arrives, and the id is then open again |
| `ChunkRoundTrip.InOrderDelivers` | pkg/chunk/chunk.go:340-365 | the frames of any payload, sent in order into an idle reassembler, are all acknowledged but the last, which dispatches the payload and closes the id: the round trip's conditions are those of the ordinary run |
| `HostRoundTrip.OthersLeaveHostAlone` | internal/assets/files/src/xll_worker.cpp:127-296 | on the host, traffic on other ids and sweeps within the TTL leave a transfer as it was |
| `HostRoundTrip.HostReceives` | internal/assets/files/src/xll_worker.cpp:194-262 | a frame of the split completes the host's entry exactly when it brings the last missing range, and the entry then holds the payload |
| `HostRoundTrip.HostFrameArrives` | internal/assets/files/src/xll_worker.cpp:127-296 | through the whole of the host's HandleChunk: acknowledged while ranges are missing, dispatched with payload and type by the last |
| `HostRoundTrip.HostPartialRun` | internal/assets/files/src/xll_worker.cpp:127-296 | over any run that has not brought every range, each frame of the job is acknowledged, none dispatched, and the entry holds exactly what arrived |
| `HostRoundTrip.HostRoundTrips` | internal/assets/files/src/xll_worker.cpp:127-296 | the production direction: frames of Sender.Send in any order, with repeats and foreign traffic, are dispatched by the host as the original payload and type exactly when the last missing one arrives, and the id is then open again |
| `HostRoundTrip.SentIsDispatched` | pkg/chunk/chunk.go:340-365 | after a successful Send whose acknowledged frames reached the host, in any order and with any of its other calls or none, the host has dispatched the original payload |
| `HostRoundTrip.ResendReopens` | internal/assets/files/include/xll_worker.h:330-332 | a frame sent again after the dispatch opens the transfer anew, and is itself dispatched exactly when it is the whole transfer |
| `ChunkInterleaving.ClaimedIsFrozen` | pkg/server/handlers.go:163-200 | a buffer whose dispatch has been claimed is never written or claimed again |
| `ChunkInterleaving.DoSound` | pkg/server/handlers.go:80-194 | each atomic section keeps every buffer ever allocated sound, claimed bytes copied in once and unclaimed ones never, and leaves dispatched buffers untouched |
| `ChunkInterleaving.DoClaims` | pkg/server/handlers.go:171-200 | each atomic section keeps one claimant per buffer, and a delivered buffer without claimants, delivered once, as it still stands |
| `ChunkInterleaving.RunSound` | pkg/server/handlers.go:80-200 | both hold over every interleaving |
| `ChunkInterleaving.NoTornPayload` | pkg/server/handlers.go:80-200 | in every interleaving, with sweeps, rejections and resets between the two locks, a delivered payload has each byte copied in exactly once by a claimed segment, and no buffer is delivered twice |
| `ChunkInterleaving.SoloIsAtomic` | pkg/server/handlers.go:60-213 | run without interruption, the sections of one call compose to the atomic HandleChunk step, with the same outcome, state and delivery |
| `ChunkInterleaving.SweepIsAtomic` | pkg/server/manager.go:353-364 | a sweep between the sections is the protocol's sweep and touches no buffer |
| `ChunkMirror.ClaimChunkSegment` | internal/assets/files/include/xll_worker.h:99-138 | bounds by subtraction, then the verdict by meaning over the ordered map; recorded on New, and the map stays disjoint |
| `ChunkMirror.LowerBound` | internal/assets/files/include/xll_worker.h:116-116 | the first recorded offset at or after the one given |
| `ChunkMirror.Predecessor` | internal/assets/files/include/xll_worker.h:124-125 | the last recorded offset before the one given |
| `ChunkMirror.ChunkRegistry.Prune` | internal/assets/files/include/xll_worker.h:376-391 | both maps lose exactly their entries past the TTL |
| `ChunkMirror.ChunkRegistry.Admit` | internal/assets/files/include/xll_worker.h:278-328 | the verdicts in their fixed order, with the expired poison entry reclaimed and the prune at the bound |
| `ChunkMirror.ChunkRegistry.Poison` | internal/assets/files/include/xll_worker.h:347-360 | drops the entry, prunes and evicts an entry none is older than at the bound, records the id |
| `ChunkMirror.ChunkRegistry.HandleChunk` | internal/assets/files/src/xll_worker.cpp:127-296 | the host's call under its one lock and one clock reading refines its step, and what it evicts is an oldest entry |
| `ChunkMirror.HostKeeps` | internal/assets/files/include/xll_worker.h:202-391 | every frame keeps the host's recorded ranges disjoint and its buffers of their declared size |
| `ChunkMirror.SameVerdict` | internal/assets/files/include/xll_worker.h:99-138 | a slice and an ordered map with the same ranges give the same verdict on every range |
| `ChunkMirror.TwinReceive` | internal/assets/files/src/xll_worker.cpp:194-262 | the same frame into twin buffers gets the same answer and leaves the same bytes and ranges |
| `ChunkMirror.CompletesIff` | pkg/server/handlers.go:171-193 | a frame completes its buffer exactly when its range is free, inside the total, and as long as what is missing |
| `ChunkMirror.SidesAgree` | internal/assets/files/src/xll_worker.cpp:127-296 | for a frame that keeps its transfer's total: same admission and segment verdicts, same transfers, poison set and payload afterwards, though each side evicts by its own choice; the answers are equal if and only if it is not a completing frame of another type than the first |
| `ChunkMirror.RunsAgree` | internal/assets/files/include/xll_worker.h:278-391 | over any run in which each transfer keeps its declared total and poison times are distinct: same verdicts throughout, same transfers byte for byte, same poison, same payloads; answers differ exactly in the type of a transfer completed under another type than it opened with |
| `ChunkMirror.IdleSidesAgree` | internal/assets/files/include/xll_worker.h:278-391 | the same from conditions on the events alone: two idle reassemblers fed one total per id at strictly later times agree throughout |
| `ChunkMirror.OneOldest` | pkg/server/manager.go:507-515 | with distinct poison times the entry to evict is determined, so both sides evict the same one |
| `ChunkMirror.PoisonLinkedIff` | internal/assets/files/include/xll_worker.h:347-360 | whatever the poison times, a rejection leaves guest and host with the same transfers and poison if and only if it evicts nothing or both evict the same entry |
| `ChunkMirror.HostIgnoresNewTotal` | internal/assets/files/include/xll_worker.h:293-298 | for a resident id the host's answer and state do not depend on the total a frame declares |
| `ChunkMirror.NewTotalUnlinks` | pkg/server/manager.go:428-448 | a resident id that comes back with another total: the two answer alike and stay linked if and only if the total is acceptable and the frame lies outside both totals, or inside both and is empty |
| `ChunkMirror.FrameAgreesIff` | pkg/server/manager.go:428-448 | for any frame whatever, the exact condition under which guest and host answer alike and stay linked |
| `ChunkMirror.HostMeasuresFirstTotal` | internal/assets/files/include/xll_worker.h:293-298 | the host drops a resident transfer if and only if the frame falls outside the first total, is empty or overlaps; otherwise it stores the frame under the first total |
| `ChunkMirror.HostStoresUnderFirstTotal` | pkg/server/manager.go:436-441 | an input on which the host does not discard a transfer that comes back with another total |
| `AckPull.OutgoingChunks.AddOutgoingChunk` | pkg/server/handlers.go:522-549 | the entry is published already past its first slice, so that a pull that races the rest starts behind it |
| `AckPull.OutgoingChunks.RemoveOutgoingChunk` | pkg/server/manager.go:580-584 | removes this entry and no other |
| `AckPull.OutgoingChunks.RegisterAckPullChunk` | pkg/server/handlers.go:522-562 | publication and, when slice and framing exceed the response buffer, withdrawal: the whole table and answer |
| `AckPull.OutgoingChunks.GetNextChunk` | pkg/server/manager.go:545-578 | the next slice, the advance, and the removal with the last byte |
| `AckPull.PullTakes` | pkg/server/manager.go:545-578 | a pull takes exactly the smaller of what is asked and what is left, refreshes its entry, and touches no other |
| `AckPull.SweptIff` | pkg/server/manager.go:336-343 | a sweep keeps exactly the entries parked or pulled within the TTL |
| `AckPull.PullsContinue` | pkg/server/manager.go:545-578 | from any entry with bytes left, pulls of positive sizes return exactly the next stretch of the data in consecutive slices, and the entry is gone if and only if that stretch reaches the end |
| `AckPull.PullConserves` | pkg/server/handlers.go:522-562 | first slice and pulls concatenate to a prefix of the payload, each byte once, even with pulls right after publication; the entry is gone if and only if the prefix is the payload |
| `AckPull.RacedThenWithdrawn` | pkg/server/handlers.go:541-558 | pulls between publication and withdrawal take the bytes behind the first slice in order, and the withdrawal leaves nothing |
| `AckPull.LingersIffOneSlice` | pkg/server/handlers.go:534-549 | the entry outlives its last byte if and only if the first slice is the whole payload, until one pull that finds nothing |
| `GreedyMeshes.SortInPlace` | pkg/algo/greedy_mesh.go:32-38 | the caller's cells end sorted in row-major order, a permutation of what they were |
| `GreedyMeshes.ExpandWidth` | pkg/algo/greedy_mesh.go:57-66 | the widest free run of the row from the cell on |
| `GreedyMeshes.ExpandHeight` | pkg/algo/greedy_mesh.go:68-84 | the tallest block of that width, with the row below not wholly free |
| `GreedyMeshes.MarkVisited` | pkg/algo/greedy_mesh.go:86-91 | exactly the rectangle's cells are added |
| `GreedyMeshes.GreedyMesh` | pkg/algo/greedy_mesh.go:27-101 | the result is the mesh of the cell set, for an array in any order with any repeats, and the loops terminate |
| `GreedyMeshes.MeshGreedy` | internal/assets/files/include/xll_greedy_mesh.h:59-140 | the ordered-set port returns the mesh of its cells |
| `GreedyMeshes.BothPorts` | internal/assets/files/include/xll_greedy_mesh.h:56-59 | the two list the same rectangles in the same order for any two listings of one cell set |
| `GreedyMeshes.MeshIsExactCover` | pkg/algo/greedy_mesh.go:22-101 | nonempty rectangles, pairwise disjoint, together exactly the cell set, corners strictly increasing in row-major order |
| `GreedyMeshes.MeshIsCanonical` | pkg/algo/greedy_mesh.go:32-98 | a cell set has one mesh |
| `GreedyMeshes.OneRectIffBlock` | pkg/algo/greedy_mesh.go:27-101 | one rectangle comes out if and only if the cells fill one block |
| `GreedyMeshes.MeshIsNotMinimal` | pkg/algo/greedy_mesh.go:22-26 | four cells that the mesh covers with three rectangles and two disjoint ones cover as well |
| `CommandBatchers.NormIsGoEquality` | pkg/server/types.go:22-29 | two values share a map key if and only if they agree up to the sign of zero and are not NaN |
| `CommandBatchers.GroupByValue` | pkg/server/command_flush.go:29-32 | two cells of a sheet share a group if and only if their values are ==, NaNs in groups of their own, in any iteration order; a group carries the value of its last cell |
| `CommandBatchers.MergedIsExactIff` | pkg/server/command_flush.go:29-32 | whatever order the maps are iterated in, the write is exactly the buffer if and only if no sheet buffers values that differ and yet are == |
| `CommandBatchers.MergedUpToKey` | pkg/server/command_flush.go:29-32 | the write is always the buffer up to what == cannot tell |
| `CommandBatchers.ASignIsLost` | pkg/server/command_flush.go:29-32 | a buffer with both zeros, one cell of which is written with the other sign in every iteration order |
| `CommandBatchers.BatchRects` | pkg/server/command_flush.go:37-50 | commands of one value that carry the rectangles in order, 32 to a command and the rest in the last, with the group's whole effect |
| `CommandBatchers.FlushGroup` | pkg/server/command_flush.go:34-51 | the batches carry exactly the mesh of the group's cells, in order, 32 rectangles each but for the last, and write the group's cells |
| `CommandBatchers.FlushSheet` | pkg/server/command_flush.go:28-52 | the groups of one sheet, in any order, write its buffered cells and no others, each as its mesh |
| `CommandBatchers.FlushBuffer` | pkg/server/command_flush.go:27-52 | the batches are, key by key in some order and no key twice, the mesh of the cells of that key in batches of 32 rectangles; they write exactly the buffered cells, all cells of one key with the value of one of them |
| `CommandBatchers.PieceIsCanonical` | pkg/server/command_flush.go:34-51 | a key's cells and value determine its commands |
| `CommandBatchers.FlushIsCanonical` | pkg/server/command_flush.go:27-52 | in whatever order the maps are iterated, a buffer without differing values that are == becomes the same commands |
| `CommandBatchers.BlockIsOneCommand` | pkg/server/command_flush.go:34-51 | one value over a whole block becomes one command with one rectangle |
| `CommandBatchers.CalculateTotalCells` | pkg/server/command_batcher.go:65-77 | the sum over the rectangles in wrapping 64-bit arithmetic |
| `CommandBatchers.TotalCellsCounts` | pkg/server/command_batcher.go:65-77 | the total is the number of cells of the rectangles, in wrapping 64-bit arithmetic |
| `CommandBatchers.BypassIsByCount` | pkg/server/command_batcher.go:97-101 | as long as the count does not wrap, exactly the writes of more than 1024 cells bypass the buffers |
| `CommandBatchers.BufferCells` | pkg/server/command_batcher.go:121-135 | buffering a range is writing it over what is buffered |
| `CommandBatchers.CommandBatcher.FlushBuffersLocked` | pkg/server/command_flush.go:15-81 | both buffers go, meshed key by key, behind the queue and end empty |
| `CommandBatchers.QueuedGrows` | pkg/server/command_flush.go:15-81 | a flush only adds to the queue, commands of 1 to 32 rectangles |
| `CommandBatchers.FlushShows` | pkg/server/command_flush.go:15-81 | a flush leaves the sheets shown as they were up to the sign of zero, and exactly so if and only if no sheet buffers values that differ and yet are == |
| `CommandBatchers.FlushedMeaning` | pkg/server/command_flush.go:83-97 | behind a flush, what was sent means what was scheduled: up to the sign of zero always; exactly, after flushes that lost no sign, if and only if this buffer is exact; exactly whenever no sheet was scheduled both zeros |
| `CommandBatchers.CommandBatcher.ScheduleSet` | pkg/server/command_batcher.go:96-138 | what is shown stays what the schedules so far ask for, exactly while no flush has lost a sign; above 1024 cells the write is queued behind a flush of what is buffered, below it the queue is untouched |
| `CommandBatchers.CommandBatcher.ScheduleRawSet` | pkg/server/command_batcher.go:140-156 | a value that is no scalar goes behind everything scheduled before it |
| `CommandBatchers.CommandBatcher.ScheduleFormat` | pkg/server/command_batcher.go:159-195 | as ScheduleSet, for formats, leaving values alone |
| `CommandBatchers.WriteRects` | pkg/server/command_batcher.go:125-134 | the loops overwrite exactly the cells of the rectangles |
| `CommandBatchers.CommandBatcher.FlushCommands` | pkg/server/command_flush.go:83-97 | what it hands over is the queue and then both buffers, meshed key by key; replaying everything handed over shows what applying all schedules one by one shows: up to the sign of zero always; exactly, after flushes that lost no sign, if and only if no sheet has values buffered that differ and yet are ==; exactly whenever no sheet was scheduled both zeros |
| `CommandBatchers.LastWriteWins` | pkg/server/command_batcher.go:96-138 | among schedules applied one by one, the last one to cover a cell decides its value |
| `CommandBatchers.LastFormatWins` | pkg/server/command_batcher.go:159-195 | and its format |
| `CommandBatchers.FlushedCell` | pkg/server/command_flush.go:83-97 | so after FlushCommands the host holds at each cell the value of the last schedule that covers it |
| `CommandBatchers.FlushReplays` | pkg/server/command_flush.go:15-81 | replaying set batches and then format batches is laying both buffers over the sheets, up to the sign of zero |
| `CommandBatchers.FlushReplaysExactly` | pkg/server/command_flush.go:15-81 | it is exactly that if and only if no sheet buffers values that differ and yet are == |
| `CommandBatchers.EnqueueShown` | pkg/server/command_batcher.go:107-115 | a command queued behind empty buffers applies to what is shown |
| `CommandBatchers.BufferShown` | pkg/server/command_batcher.go:120-136 | buffering a schedule's cells shows what applying the schedule would |
| `RtdOnceKeys.MakeRtdOnceKey` | internal/assets/files/include/xll_rtd_once.h:51-58 | the loop joins the topics with the separator |
| `RtdOnceKeys.FuncNameIffPlain` | internal/assets/files/include/xll_rtd_once.h:345-348 | the policy lookup finds the function if and only if its name holds no separator |
| `RtdOnceKeys.KeyRoundTripIffPlain` | internal/assets/files/include/xll_rtd_once.h:46-58 | a key gives its topics back if and only if none of them holds a separator |
| `RtdOnceKeys.KeysDistinct` | internal/assets/files/include/xll_rtd_once.h:46-58 | distinct separator-free calls have distinct keys |
| `RtdOnceKeys.KeysCollide` | internal/assets/files/include/xll_rtd_once.h:46-58 | an argument with U+001F shares its key with a call of two arguments |
| `RtdOnceKeys.KeysShareIff` | internal/assets/files/include/xll_rtd_once.h:46-58 | two topic lists have one key if and only if they are the same list once cut at every separator |
| `RtdOnceKeys.JoinSplit` | internal/assets/files/include/xll_rtd_once.h:46-58 | cutting a key at its separators loses nothing of it |
| `RtdOnceRegistries.RtdOnceRegistry.Store` | internal/assets/files/include/xll_rtd_once.h:202-218 | insert or overwrite with a fresh tick and the transient mark |
| `RtdOnceRegistries.RtdOnceRegistry.TryGet` | internal/assets/files/include/xll_rtd_once.h:236-260 | hit, or a miss that erases what has expired without a live topic |
| `RtdOnceRegistries.RtdOnceRegistry.KeyHasLiveTopic` | internal/assets/files/include/xll_rtd_once.h:352-357 | true if and only if some registered topic stands for the key |
| `RtdOnceRegistries.RtdOnceRegistry.RegisterTopic` | internal/assets/files/include/xll_rtd_once.h:158-161 | the topic stands for the key from now on |
| `RtdOnceRegistries.RtdOnceRegistry.UnregisterTopic` | internal/assets/files/include/xll_rtd_once.h:166-169 | the topic stands for nothing, entries stay |
| `RtdOnceRegistries.RtdOnceRegistry.Clear` | internal/assets/files/include/xll_rtd_once.h:287-322 | calc end erases exactly the reclaimed entries, in one sweep over the map |
| `RtdOnceRegistries.RtdOnceGridRegistry.Store` | internal/assets/files/include/xll_rtd_once_grid.h:152-166 | a payload replaces any error and resumes normal retention |
| `RtdOnceRegistries.RtdOnceGridRegistry.StoreError` | internal/assets/files/include/xll_rtd_once_grid.h:182-197 | an error replaces any payload and is transient |
| `RtdOnceRegistries.RtdOnceGridRegistry.TryGet` | internal/assets/files/include/xll_rtd_once_grid.h:217-244 | result, error, or a miss that erases what has expired |
| `RtdOnceRegistries.RtdOnceGridRegistry.RegisterTopic` | internal/assets/files/include/xll_rtd_once_grid.h:119-122 | the topic stands for the key from now on |
| `RtdOnceRegistries.RtdOnceGridRegistry.UnregisterTopic` | internal/assets/files/include/xll_rtd_once_grid.h:127-130 | the topic stands for nothing, entries stay |
| `RtdOnceRegistries.RtdOnceGridRegistry.Clear` | internal/assets/files/include/xll_rtd_once_grid.h:271-305 | the grid's calc-end sweep |
| `RtdOnceRuns.HitServesLastStored` | internal/assets/files/include/xll_rtd_once.h:236-260 | over any run a hit serves the last value stored under its key; an error only to a live topic; without one, a TTL result only inside its TTL |
| `RtdOnceRuns.ResidentIsLastStored` | internal/assets/files/include/xll_rtd_once.h:202-322 | whatever runs, the entry found under a key is the last one stored there |
| `RtdOnceRuns.GoneStaysGone` | internal/assets/files/include/xll_rtd_once.h:202-322 | only a store brings an entry back |
| `RtdOnceRuns.OnceIsReclaimed` | internal/assets/files/include/xll_rtd_once.h:262-322 | a plain once result without a live topic is gone after calc end until it is stored again |
| `RtdOnceRuns.ErrorIsNeverFrozen` | internal/assets/files/include/xll_rtd_once.h:182-260 | an error without a live topic is gone after the next read or calc end, whatever the function declares |
| `RtdOnceRuns.MemoizedSurvives` | internal/assets/files/include/xll_rtd_once.h:262-322 | a completed memoized entry survives every run until the next store |
| `RtdOnceRuns.EntryStaysIff` | internal/assets/files/include/xll_rtd_once.h:202-322 | over any run without a store of its key an entry stays, unchanged, if and only if no read or calc end of the run meets it without a live topic and as an error, past its TTL, or, at calc end, as neither memoized nor inside a TTL |
| `RtdOnceRuns.TtlIsKept` | internal/assets/files/include/xll_rtd_once.h:236-322 | a completed result with a TTL survives every run whose reads of it and calc ends fall within it; a read then hits if and only if it is no later than the TTL or a topic is live |
| `RtdOnceRuns.LiveIsLastStored` | internal/assets/files/include/xll_rtd_once.h:262-322 | while a topic is connected, only a store of its key changes its entry |
| `RtdOnceRuns.LivePeriodServesItself` | internal/assets/files/include/xll_rtd_once.h:220-322 | a topic registered after a miss, with anything but a store of its key in between: in its live period a read hits if and only if the period has stored, and serves the last value it stored |
| `RtdOnceRuns.RegistriesBisimilar` | internal/assets/files/include/xll_rtd_once_grid.h:119-305 | over any common run of register, unregister, store, read and calc end, the scalar and the grid registry answer every read alike and hold the same keys |
| `GridReadiness.OnePushLast` | pkg/rtd/runonce.go:146-191 | a run sends exactly one update push, last; a ready token only behind its own grid; an error push carries the context's reason, else the handler's error, else the send's |
| `GridReadiness.Sender.ReadyToken` | pkg/rtd/runonce.go:104-106 | a token larger than every one before |
| `GridReadiness.Sender.RunOnceGrid` | pkg/rtd/runonce.go:146-191 | the effects in order for every outcome of context, handler and send; nothing on a nil handler or manager |
| `GridReadiness.TokensStayDistinct` | pkg/rtd/runonce.go:91-106 | over any run no two connections share a ready token |
| `GridReadiness.DoKeeps` | internal/assets/files/src/xll_rtd.cpp:167-252 | each step of server, host and Excel keeps what links a connection's progress to the host's entry |
| `GridReadiness.RunKeeps` | pkg/rtd/runonce.go:146-191 | so does every run |
| `GridReadiness.ReadyMeansReadable` | pkg/rtd/runonce.go:122-131 | in every interleaving, once a connection's ready token is out and while the connection stays registered, a read of its key is never a miss, and its run has sent exactly what RunOnceGrid sends |
| `GridReadiness.HostStep` | internal/assets/files/src/xll_rtd.cpp:167-252 | every step acts on the host's registry as one store, register, unregister, read or calc end does, exactly |
| `GridReadiness.ReadServesLastLanded` | internal/assets/files/src/xll_rtd.cpp:167-252 | in every interleaving a read serves the last grid stored under its key or the text of the last failure pushed to it, or misses |
| `GridReadiness.GridIsServed` | pkg/rtd/runonce.go:108-131 | from the moment the host stores a connection's grid, every read of its key gets that payload, until the connection goes or something else is stored there |
| `Teardown.RtdStaysQuiet` | pkg/rtd/manager.go:257-334 | once the gate is latched and no send is in flight, none ever is again |
| `Teardown.BatcherStaysQuiet` | pkg/server/batcher.go:73-134 | once stop is closed and no flush is under way, none ever starts |
| `Teardown.FifoKept` | pkg/server/batcher.go:51-134 | each step of queue and worker keeps accepted results in order across flushed batches, the batch at hand and the queue |
| `Teardown.JobsKept` | pkg/server/jobpool.go:39-93 | each step of the pool keeps every accepted job queued, running on one worker, or finished |
| `Teardown.DoneIsDone` | pkg/server/jobpool.go:100-103 | when every worker has left, every accepted job has finished |
| `Teardown.NoUnmapUnderASender` | pkg/server/lifecycle.go:105-135 | in every interleaving the mapping is released at most once; from then on no RTD send and no flush is in flight and none can start; released by the main goroutine, every accepted job has finished |
| `Teardown.WorkIsConserved` | pkg/server/batcher.go:51-134 | in every interleaving flushed batches of 1 to 256, the batch at hand and the queue concatenate to the accepted results; every job taken is running or finished; a clean RunAndDrain has finished them all |
| `Teardown.WatcherMayUnmapUnderAJob` | pkg/server/lifecycle.go:158-180 | a run in which the watcher releases the mapping under a running job |
| `Teardown.Finishes` | pkg/server/lifecycle.go:105-135 | from wherever a shutdown stands with its drains so far clean, some run ends in the release without touching the pool |
| `Teardown.ReleaseUnderAJob` | pkg/server/lifecycle.go:105-135 | unless the jobs are settled when a shutdown begins, it can release the mapping with an accepted job unfinished |
| `Teardown.ReleaseBehindJobsIff` | pkg/server/lifecycle.go:105-135 | whoever enters the shutdown and wherever: every release it can end in is behind the last job if and only if a failed drain has been reported by then, or serving is over and every accepted job has finished |
| `Teardown.DrainKept` | pkg/server/run.go:66-88 | each step keeps RunAndDrain's report honest: clean only behind the last job |
| `Teardown.RunKeeps` | pkg/server/lifecycle.go:105-135 | over every run the gates, the order of results and the honesty of the drain are kept together |
| `TeardownTraces.SendMayBeginIff` | pkg/rtd/manager.go:257-285 | after any run, by its events: a send may begin if and only if a client is set, the gate is not latched and the goroutine has none open |
| `TeardownTraces.QueueMayPassIff` | pkg/server/batcher.go:51-56 | after any run, by its events: a result passes the gate if and only if it has not been latched |
| `TeardownTraces.SubmitAcceptedIff` | pkg/server/jobpool.go:75-90 | after any run, by its events: a job is accepted if and only if the server serves and fewer jobs than workers are waiting |
| `TeardownTraces.ReleaseBehindEvents` | pkg/server/lifecycle.go:105-135 | behind a release every send begun has ended and every flush begun too; released by the main goroutine, as many jobs have finished as were submitted |
| `TeardownTraces.PutsAreAccepted` | pkg/server/batcher.go:57-71 | over any run the flushed batches, the batch at hand and the queue are the results put, in order, without exactly those whose put met 1024 queued results |
| `TeardownTraces.AcceptedCanBeFlushed` | pkg/server/batcher.go:76-134 | from any run that has started the worker and not signalled stop, the worker's steps alone flush every result accepted |
| `TeardownTraces.FillsUp` | pkg/server/batcher.go:116-131 | a batch under way takes results until it has 256 or the queue is empty, and is flushed as one |
| `TeardownTraces.BatchIsFull` | pkg/server/batcher.go:116-131 | a batch goes out with fewer than 256 results only when the queue is empty |
| `TeardownTraces.DrainCanSucceed` | pkg/server/jobpool.go:92-103 | once the drain has begun, the workers' steps alone finish every accepted job and let it report success |
| `TeardownTraces.OrdinaryEnd` | pkg/server/run.go:66-88 | while the server serves, the main goroutine can drain the pool and release the mapping behind the last job |
| `AsyncFlush.AsyncSender.FlushAsyncBatchBounded` | pkg/server/async_batcher.go:120-162 | the transfers attempted and the serializations made, for any batch, limit and size function |
| `AsyncFlush.AsyncSender.FlushHalves` | pkg/server/async_batcher.go:169-176 | both halves are flushed, in order |
| `AsyncFlush.AsyncSender.FlushOversizedAsyncBatch` | pkg/server/async_batcher.go:168-188 | halves of a batch, the diagnostic for a single result, nothing when even that does not fit |
| `AsyncFlush.FlushConserves` | pkg/server/async_batcher.go:90-188 | every transfer fits the limit, and together they answer the handles in order, each at most once: as itself, as the diagnostic only if it alone is too large, not at all only if both are |
| `AsyncFlush.FlushIsExact` | pkg/server/async_batcher.go:90-188 | with a size monotone under concatenation, a result goes out as itself if and only if it fits alone |
| `AsyncFlush.FlushCost` | pkg/server/async_batcher.go:120-188 | at most 3n - 1 serializations |
| `AsyncFlush.FitsIsOneTransfer` | pkg/server/async_batcher.go:120-162 | a batch goes out as one transfer if and only if it fits, after one serialization |
| `AsyncFlush.OneTooLargeCost` | pkg/server/async_batcher.go:168-176 | one oversized result among n costs at most two serializations a halving and splits its siblings into at most that many transfers |
| `RtdSubscriptions.InverseIsUnique` | pkg/rtd/manager.go:95-122 | the index by key is determined by the topic map |
| `RtdSubscriptions.RtdManager.Subscribe` | pkg/rtd/manager.go:148-169 | the topic moves to its new key, both maps stay inverse, no empty set is left |
| `RtdSubscriptions.RtdManager.Unsubscribe` | pkg/rtd/manager.go:185-201 | topic and connect cancel leave together, the latter cancelled |
| `RtdSubscriptions.RtdManager.RegisterConnectCancel` | pkg/rtd/manager.go:221-242 | a fresh generation; a registration it replaces is cancelled |
| `RtdSubscriptions.RtdManager.Deregister` | pkg/rtd/manager.go:235-241 | removes its own registration only, and cancels nothing |
| `RtdSubscriptions.RtdManager.Publish` | pkg/rtd/manager.go:344-376 | one attempt for each topic of the key and for no other, failures reported, none through a closed gate |
| `RtdSubscriptions.RetiredStays` | pkg/rtd/manager.go:203-242 | a generation no topic holds is never held or cancelled again |
| `RtdSubscriptions.RunKeeps` | pkg/rtd/manager.go:185-242 | over any run generations stay unique, none is cancelled twice and none while still registered |
| `RtdSubscriptions.FateDecides` | pkg/rtd/manager.go:185-242 | over any run a registration is cancelled if and only if it is superseded or disconnected while still registered, at most once; stale deregisters never remove a newer one on the same topic |

## Left out

- FlatBuffers encoding and decoding, builder pools and file identifiers: a frame is a record, a serialized batch is known by its size, a raw set command by its bytes.
- What the host does with a raw set: an arbitrary function of the sheets and the bytes, the same on both sides of the comparison.
- CommandBatchers.CommandBatcher.FlushCommands: once a flush has lost the sign of a zero, whether a later write covers that cell again is not tracked, so from there on the exact values are promised only up to that sign.
- ChunkMirror.RunsAgree: poison times are distinct. Between two entries poisoned at one instant each side evicts by the order of its map, and one rejection leaves them linked exactly when they choose alike (`ChunkMirror.PoisonLinkedIff`).
- `SendAckOrChunk` and the acknowledgement's own size: the answer to a stored chunk is a verdict.
- Goroutine scheduling inside one locked section: each section between a lock and its unlock is one step.
- Clock readings: arguments; the readings one `GetChunkBuffer` makes under its lock are one argument. The wait and timeout of a drain are an outcome that may be false at any time.
- Sleeps, backoff, logging and the background cleanup ticker: a sweep is an event of the run.
- `sort.Slice` and `std::sort`: an insertion sort written as a function; only sortedness and the permutation are used. `sort.Search`, `lower_bound` and `std::prev` are modelled by loops that find what they find.
- Loops over Go maps and `std::map`s: arbitrary order, over immutable map values held in fields rather than hash tables.
- Coordinates equal to the largest 32-bit integer, where the neighbour's coordinate would wrap: cells and rectangles below it are assumed.
- The missing data vector of a FlatBuffers frame and the unloading flag in the host's `HandleChunk`: the former is poisoned as a frame outside its total is, the latter refuses at once.
- Message-type routing after the host has reassembled: a dispatch is the payload with its type.
- One-slot and chunked transport below `flushAsyncBatchBounded`: a transfer is attempted, its delivery is `ChunkSender`'s subject.
- A flush or job that panics: the recover handlers make it an ordinary end of that flush or job.
- `CommandBatcher.Clear`, scalar `RunOnce`, `HandleAck`, the other system handlers: short members without an argument of their own.
- More than one `StartWorker` call, and `RunAndDrain` with no job pool.
- Conversion of text and VARIANTs: contents up to what the registries can tell.
- Configuration, code generation, command line, xldate, Excel COM and C API, process launch, the shared-memory transport itself.
