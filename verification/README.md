# Verification of nginx-media

A Dafny model of the parts of this media server that keep state or transform
text, with proofs of what each promises. The model follows the C code branch
by branch; every claim below is proved for all inputs, runs or interleavings,
not for examples. Verify everything with `dafny verify dfyconfig.toml`.

## Components

* **Frame transport between workers** (`Ipc`, `Transport`, `Splice`, `Flow`,
  `FlowLoss`). Frames are cut into datagrams, any datagram may meet backpressure, the receiver puts
  frames together again, and the sender holds predicted video back until a key
  frame gets through. Classes `Endpoint`, `Reassembler`, `RoutedSlot`,
  `FlowRecord` and `Publisher` carry the C structures; the theorems are about
  whole streams of frames over every kernel, over channels that lose, double or
  reorder datagrams, and about what the owner's counters say was lost.
* **Owner directory** (`OwnerTable`, `OwnerDir`, `OwnerProtocol`). An
  open-addressing table in shared memory with deleted and stale records, behind
  a lock and an epoch. `Directory` is the shared object; `OwnerProtocol`
  interleaves its accesses over any number of workers, generations and reloads.
* **Program feed** (`RingMath`, `Histogram`, `Media`, `Feed`). A power-of-two
  ring that refines the sequence of all published frames, with cursors, retention
  ceilings and a log2 histogram of delays.
* **Standby cache** (`Preroll`) and **Annex B iterator** (`Nal`).
* **HLS push queues** (`PushQueue`, `PushRuns`, `PushTimes`, `PushMissing`). One
  destination's ring of 64, the state machine of API, uploaders, removal and
  shutdown with the reference count, when an object is tried again, and what its
  list of missing segments names.
* **Replicated graph** (`Tombstone`, `Replica`, `Convergence`,
  `StreamRegistry`, `Journal`). Applying other workers' operations, when replicas
  agree, and the repair journal.
* **JSON and admission** (`Octets`, `Json`, `JsonString`, `JsonPrint`, `JsonScan`,
  `JsonField`, `Desired`, `DesiredText`, `DesiredPrint`, `Capacity`). Printing, scanning, decoding (in place),
  field lookup, and the capacity check on the text of a desired document.
* **HTTP/1.1 response bodies** (`HttpText`, `Spelling`, `HttpLength`,
  `HttpExtension`, `HttpBody`, `HttpChunks`, `HttpReader`). Lines, lengths, chunk
  sizes and extensions, and the chunked body, specified on the octets of the
  connection, shown to be exactly the grammars of the standard, and decoded over
  a refilled buffer.
* **HLS playlist rewrite** (`Playlist`, `PlaylistFacts`, `PlaylistRewrite`,
  `PlaylistTheorems`, `PlaylistText`, `PlaylistWriter`). Parse, trim, mark and
  render as a specification, what re-parsing the result gives, what becomes of a
  playlist line by line, and the two passes over positions that refine it.

Shared types are in `Common`. Code that updates objects in place is a class
proved against a pure specification (`View() == Step(old(View()))`); the
theorems are about the specification, so they hold of the class.

## What is not true of the code

* Replicas do not converge on every set of stream operations. A deletion that
  names another incarnation is ignored without a tombstone
  (src/core/ngx_media_graph.c:882), so a set whose newest operation is such a
  deletion can leave different replicas. `Convergence.ConvergesIffSettled`
  gives the exact condition: the newest operation sets the stream, or some
  deletion newer than every set names no incarnation or one shared by all sets;
  `Convergence.DodgedDeletionDiverges` gives two operations that do not converge.
* Nor do they on source operations that arrive out of order, as a retry can make
  them: all sources share the stream's revision, so of two sets of different
  sources the older is lost behind the newer. The replicas agree exactly when
  the two carry the same revision (`Convergence.SourceSetsCommuteIff`; two
  operations that do not in `Convergence.SourceSetsDiverge`).
* The last histogram bucket is not an upper bound: delays up to 60000 ms are
  reported as 32768. Every percentile covers its share of the delays exactly
  when none passed that bound (`Histogram.LastBucketIsNotABound`; a recorded
  delay of 40 seconds in `Histogram.LateDelayUnderstated`).
* Objects pushed to a destination do not always leave in order of acceptance.
  They do exactly as long as nothing queued is dropped, by a full queue, a
  removal or a shutdown, while another object is being uploaded
  (`PushRuns.DropKeepsOrderIffIdle`; runs that fail in
  `PushRuns.FullQueueOvertakes` and `PushRuns.ShutdownOvertakes`).
* The list of missing segments does not name every segment the destination
  lacks. It does exactly when the segment was not lost with a retry that met a
  full or stopping queue, could be opened, has a name below 64 octets, was not
  pushed out by eight later losses, and was not erased by a playlist accepted
  before it (`PushMissing.LackedNamedIff`). A run for each failure:
  `PushMissing.LostRetryIsNotListed`, `PushMissing.UnopenedIsNotListed`,
  `PushMissing.LongNameIsCut`, `PushMissing.NinthPushesOut` and
  `PushMissing.OlderPlaylistErases`. A segment counts as lacked until one of its
  name arrives or a newer playlist without it is taken, and as named while the
  entry of that loss stands; a name is on the list while some entry shows it
  (`PushMissing.NameOnList`).
* A rewritten playlist is not always read as meant: a header tag at the head of
  a segment is taken for the header's once the segments before it are trimmed.
  Where sequence tags carry a number, exactly the first kept segment matters (`PlaylistTheorems.RewriteReadsIff`; a
  text in `PlaylistTheorems.TagMovesToHeader`).
* Rewriting the written playlist can trim again, exactly when the first URI
  comes again behind the trimmed front (`PlaylistTheorems.SecondRewrite`; a text in
  `PlaylistTheorems.RepeatedUriTrimsAgain`).
* A field whose name exceeds 64 octets ends a JSON lookup, and a name of 64 or
  more is never looked for: a member is found exactly when its own name is
  shorter and none before it is longer (`JsonField.FoundUnlessLongName`; an
  object in `JsonField.LongNameHides`).

The reassembly relies on the numbers of frames: without them two frames of one
identity can be spliced, exactly when they differ in more than one datagram
(`Splice.SpliceFreeIff`). A flow numbers its frames (`FlowLoss.RouteNumbered`),
so none of its frames is (`FlowLoss.RoutedFramesWhole`).

## Model

| member | source | states |
|---|---|---|
| `Ipc.Endpoint.Write` | src/core/ngx_media_ipc.c:136-190 | one datagram: put on the wire whole, refused and counted, or failed |
| `Ipc.Endpoint.Send` | src/core/ngx_media_ipc.c:192-249 | the wire gains a prefix of the frame's chunks, and the answer is OK exactly when the prefix is all of them; a bad descriptor or range writes nothing |
| `Ipc.Endpoint.SendChunks` | src/core/ngx_media_ipc.c:208-246 | the chunk loop stops at the first datagram the kernel does not take |
| `Ipc.ChunkAt` | src/core/ngx_media_ipc.c:222-243 | datagram i of a frame carries its octets from 65440 i on, says where they belong, how long the whole is and whether more follow |
| `Ipc.Reassembler.FeedMessage` | src/core/ngx_media_ipc.c:350-440 | the in-place reassembly is the pure step `Feed`; received octets never exceed the announced total, and OK means all of them are there |
| `Ipc.FirstMeans` | src/core/ngx_media_ipc.c:364-437 | what the datagram at the head of a frame starts: refused for a size of 0 or above 4 MiB, for octets that overrun it or end short of it, and without memory |
| `Ipc.Reassembler.Reset` | src/core/ngx_media_ipc.c:442-457 | the frame is forgotten |
| `Ipc.RoutedSlot.DeliverMessage` | src/core/ngx_media_runtime.c:1998-2099 | the sink feeds, counts sequence gaps, hands a whole frame on and resets |
| `Transport.ExactDelivery` | src/core/ngx_media_ipc.c:192-440 | for every pattern of backpressure over a FIFO channel the receiver hands on exactly the frames whose send answered OK, byte for byte, in order; an abandoned frame costs no other |
| `Transport.LossAccount` | src/core/ngx_media_runtime.c:2020-2099 | from any state whose counters add up, under any increasing numbers: frames handed on, seen abandoned, gapped over and still open add up to the numbers from the first seen on |
| `Transport.ChunkIsPick` | src/core/ngx_media_ipc.c:208-246 | every datagram of the sender is one of the datagrams the loss theorems range over |
| `Transport.OnePick` | src/core/ngx_media_ipc.c:350-440 | one datagram hands on nothing or the whole frame it belongs to |
| `Transport.NoSplice` | src/core/ngx_media_ipc.c:364-437 | whatever datagrams are lost, doubled or reordered and whatever allocation fails, everything handed on is one whole sent frame |
| `Transport.InOrder` | src/core/ngx_media_ipc.c:364-437 | over an ordered lossy channel frames are handed on in send order, each at most once |
| `Splice.SpliceFreeIff` | src/core/ngx_media_ipc.c:364-390 | why frames are numbered: two frames of one identity and length are never spliced, by any loss, if and only if they differ within one datagram only |
| `Splice.TwinsSplice` | src/core/ngx_media_ipc.c:364-390 | two that differ in two datagrams are spliced by a channel that only loses and keeps order |
| `Splice.SpliceWithoutNumbers` | src/core/ngx_media_ipc.c:364-390 | two frames of two datagrams each, spliced |
| `Transport.FrameRun` | src/core/ngx_media_ipc.c:350-440 | what any number of a frame's chunks leaves in any receiver, also for frames the receiver refuses for their size |
| `Flow.FlowRecord.Admit` | src/core/ngx_media_ipc.c:459-470 | a frame is held back exactly when it needs its predecessors and the flow is out of step |
| `Flow.FlowRecord.SentWith` | src/core/ngx_media_ipc.c:472-490 | the flow record after a send, by its answer |
| `Flow.Publisher.Publish` | src/rtmp/ngx_media_rtmp_module.c:957-972 | one frame of a routed session: admitted, sent with the flow's number, recorded; the wire gains exactly the datagrams that were taken; a closed endpoint counts as a failed send |
| `Flow.ResyncMeaning` | src/core/ngx_media_ipc.c:459-490 | over every run the flag is set exactly when something since the latest sent key frame (or the start) did not get through |
| `Flow.OnlyDecodableSent` | src/core/ngx_media_ipc.c:459-490 | over every run a predicted frame is held exactly when a frame since its sync point was lost, a sent one has all of them sent, and the number is the place in the stream |
| `Flow.HeldExactly` | src/core/ngx_media_ipc.c:459-490 | over every run and by the header fields: held back is exactly a video frame, neither key frame nor configuration, behind a frame that did not get through with no key frame sent since; a configuration record ends no outage |
| `Flow.FlowCounters` | src/core/ngx_media_ipc.c:459-490 | the counters count the frames held back and the outages |
| `Flow.RouteIsRun` | src/core/ngx_media_route.c:675-716 | sending over any kernel is one of the runs the flow theorems speak of |
| `Flow.OwnerReceives` | src/core/ngx_media_route.c:675-716 | end to end, sender flow through datagrams to the owner: handed on are exactly the frames that passed |
| `Flow.OwnerCanDecode` | src/core/ngx_media_ipc.c:459-490 | end to end: with a predicted frame the owner was handed everything back to its sync point |
| `FlowLoss.RoutePlaces` | src/rtmp/ngx_media_rtmp_module.c:957-972 | each frame offered to the wire carries its place in the stream, and the places climb |
| `FlowLoss.RouteNumbered` | src/rtmp/ngx_media_rtmp_module.c:957-972 | so the frames of any flow over any kernel meet what the transport theorems ask of them |
| `FlowLoss.CountersMean` | src/core/ngx_media_runtime.c:2020-2099 | each counter of the owner by itself: gaps are the frames it saw nothing of, restarts and the open reassembly those it saw a part of, handed on those it saw whole |
| `FlowLoss.FlowLossAccount` | src/core/ngx_media_runtime.c:2020-2099 | the gaps, abandoned and open frames an owner sees are exactly the frames held back or failed among those numbered from the first it saw up to the next it expects |
| `FlowLoss.RoutedFramesWhole` | src/core/ngx_media_ipc.c:364-437 | of a flow over a channel that loses, doubles or reorders datagrams the owner hands on only whole frames under their own numbers, rising while the channel keeps order |
| `OwnerTable.FindReturnsOwner` | src/core/ngx_media_owner_dir.c:213-246 | find returns the one owned record of a hash, past deleted and stale slots |
| `OwnerTable.FindFailsWhenFull` | src/core/ngx_media_owner_dir.c:195-246 | find fails if and only if every slot holds a live record of another hash |
| `OwnerTable.ClaimKeeps` | src/core/ngx_media_owner_dir.c:274-306 | a claim keeps one owner a hash and every record reachable; the claimant is then found |
| `OwnerTable.ReleaseKeeps` | src/core/ngx_media_owner_dir.c:312-340 | a release keeps every other record reachable |
| `OwnerTable.HeartbeatKeeps` | src/core/ngx_media_owner_dir.c:342-375 | a heartbeat keeps the table well formed |
| `OwnerTable.ReadableTenSeconds` | src/core/ngx_media_owner_dir.c:388-417 | an owner's record is readable until 10000 ms after its heartbeat on the wrapping clock, and not after |
| `OwnerTable.HeartbeatRead` | src/core/ngx_media_owner_dir.c:342-417 | a heartbeat is read back: for 10000 ms a reader is given exactly its numbers, after that nothing; a process that does not own the record changes nothing |
| `OwnerTable.ClaimRead` | src/core/ngx_media_owner_dir.c:274-417 | so is a claim, with zero numbers; the claimant's own record, heard of within 10000 ms, stays as it was |
| `OwnerTable.ReleaseRead` | src/core/ngx_media_owner_dir.c:312-417 | a release by the owner leaves a deleted slot and nothing to read; any other changes nothing |
| `OwnerDir.Directory.Lock` | src/core/ngx_media_owner_dir.c:54-77 | the lock is obtained exactly when it was free |
| `OwnerDir.Directory.Unlock` | src/core/ngx_media_owner_dir.c:79-83 | the lock is open |
| `OwnerDir.Directory.Reload` | src/core/ngx_media_owner_dir.c:108-133 | a reload raises the epoch under the lock, or fails and changes nothing |
| `OwnerDir.Directory.RevisionNext` | src/core/ngx_media_owner_dir.c:91-100 | one sequence for all workers |
| `OwnerDir.Directory.FindSlot` | src/core/ngx_media_owner_dir.c:213-246 | the probing loop computes the specified find; the exact condition of failure |
| `OwnerDir.Directory.ClaimSlot` | src/core/ngx_media_owner_dir.c:248-310 | refused exactly for a foreign slot, a held lock, an older epoch or a full table; else exactly one record changes and is the claimant's |
| `OwnerDir.Directory.ReleaseSlot` | src/core/ngx_media_owner_dir.c:312-340 | only the current epoch's owner process drops a record, and only its own |
| `OwnerDir.Directory.HeartbeatSlot` | src/core/ngx_media_owner_dir.c:342-375 | only the current epoch's owner process refreshes a record, and only its own: its heartbeat is now, its generation, frames and sources the arguments, all else as it was |
| `OwnerDir.Directory.Observe` | src/core/ngx_media_owner_dir.c:388-417 | a reader that gets the lock is given the record exactly when there is one whose owner still reports, as `Observed` says |
| `OwnerProtocol.StepRight` | src/core/ngx_media_owner_dir.c:54-375 | every step of every process of every generation keeps the invariant |
| `OwnerProtocol.RunInv` | src/core/ngx_media_owner_dir.c:54-375 | the invariant holds over every interleaving and any number of reloads |
| `OwnerProtocol.MutualExclusion` | src/core/ngx_media_owner_dir.c:54-83 | at most one process is in the critical section, and one that failed to lock never unlocks |
| `OwnerProtocol.LockNotLeftBehind` | src/core/ngx_media_owner_dir.c:54-83 | as long as no process dies in the critical section, the lock is held exactly while the master or a worker is in it |
| `OwnerProtocol.ReloadAndFork` | src/core/ngx_media_owner_dir.c:108-133 | a reload and a fork: the next epoch with the worker count read, and a worker that starts with both beside workers that keep theirs |
| `OwnerProtocol.OnlyCurrentEpochWrites` | src/core/ngx_media_owner_dir.c:117-130 | once the epoch moved no older worker changes a record; a claim writes slot hash mod its generation's worker count |
| `OwnerProtocol.DirectoryRight` | src/core/ngx_media_owner_dir.c:195-310 | in every reachable directory a hash has at most one record, find returns it, and its slot is hash mod the worker count of the generation that claimed it |
| `OwnerProtocol.FoundCanAct` | src/core/ngx_media_owner_dir.c:248-375 | a worker that looked a slot up under the lock still finds it there to write |
| `OwnerProtocol.HeartbeatLasts` | src/core/ngx_media_owner_dir.c:54-417 | over every interleaving with the work of all others, reloads and crashes included, an owner's record is read as its last heartbeat left it for 10000 ms, and not after that |
| `RingMath.RoundUp` | src/core/ngx_media_feed.c:8-20 | the smallest power of two that suffices, 0 exactly when none fits 64 bits |
| `RingMath.SlotsDiffer` | src/core/ngx_media_feed.c:22-38 | two sequence numbers less than a capacity apart never share a slot |
| `Histogram.Hist.Record` | src/core/ngx_media_feed.c:180-207 | one more delay is counted, capped at a minute |
| `RingMath.MaskIsRemainder` | src/core/ngx_media_feed.c:22-38 | masking with capacity - 1 is the remainder, for every power of two |
| `RingMath.AndIsBitwise` | src/core/ngx_media_feed.c:22-38 | the masking operator sets a bit exactly where both operands have it |
| `Histogram.BoundMeans` | src/core/ngx_media_feed.c:429-469 | what the bound of the first bucket reaching the target says of the recorded delays |
| `Histogram.Hist.Percentile` | src/core/ngx_media_feed.c:429-469 | at least p of 1000 delays are at most the result, fewer are at most its half, as long as it is below 32768; the loop always finds a bucket |
| `Histogram.CountsSum` | src/core/ngx_media_feed.c:180-207 | bucket counts sum to the number of recorded delays |
| `Histogram.AnswerMeans` | src/core/ngx_media_feed.c:429-469 | every percentile is at most 32768 ms, and below that 1000 times the delays it covers reach p times their number while those its half covers do not |
| `Histogram.TargetMeans` | src/core/ngx_media_feed.c:445-447 | the target is reached by exactly the counts that are at least the asked share of all delays |
| `Histogram.AtMostCounts` | src/core/ngx_media_feed.c:429-469 | the number of recorded delays up to a bound |
| `Histogram.LastBucketIsNotABound` | src/core/ngx_media_feed.c:429-469 | every percentile covers its share of the delays if and only if none recorded passed 32768 ms |
| `Histogram.LateDelayUnderstated` | src/core/ngx_media_feed.c:429-469 | a delay of 40000 ms is answered with 32768 |
| `Feed.FrameRing.Create` | src/core/ngx_media_feed.c:78-111 | the init: refused exactly for no units, an unrepresentable or unaddressable capacity or no memory; else an empty ring of the smallest power of two that suffices |
| `Feed.FrameRing.Evict` | src/core/ngx_media_feed.c:22-38 | the oldest unit leaves and its bytes with it |
| `Feed.FrameRing.Prune` | src/core/ngx_media_feed.c:40-76 | units leave from the front only, and no more than the ceilings ask for |
| `Feed.FrameRing.Publish` | src/core/ngx_media_feed.c:131-178 | publishing always succeeds: the head's slot is free after the eviction, and exactly the smallest eviction within the ceilings happens |
| `Feed.LongestEndStays` | src/core/ngx_media_feed.c:40-76 | under a clock that does not go back: what stays is the longest end of the log within the unit, byte and age ceilings; a unit past the age ceiling leaves and none leaves that fits |
| `Feed.BytesAreOctets` | src/core/ngx_media_feed.c:131-178 | the bytes counted are the octets of the payloads |
| `Feed.WaitedMeans` | src/core/ngx_media_feed.c:180-275 | each frame read is one delay: how long it waited, a minute at most |
| `Feed.FrameRing.Read` | src/core/ngx_media_feed.c:209-275 | a read answers as the specification on the published sequence says; each frame handed out is counted |
| `Feed.BatchMeans` | src/core/ngx_media_feed.c:209-275 | a batch is the frames from the cursor on, as many as the unit and octet budgets allow, one at least |
| `Feed.FrameRing.Resync` | src/core/ngx_media_feed.c:313-349 | the cursor moves to the newest key frame still held, or to the head |
| `Feed.ResyncMeans` | src/core/ngx_media_feed.c:313-349 | exactly: the newest key frame still held, or the head when none is or none is asked for |
| `Feed.FrameRing.Discontinuity` | src/core/ngx_media_feed.c:291-299 | a new generation, the log untouched |
| `Feed.EventFaithful` | src/core/ngx_media_feed.c:131-349 | publishing, eviction, reads, discontinuities and resyncs keep a cursor faithful |
| `Feed.BatchesAreTheLog` | src/core/ngx_media_feed.c:131-349 | over every run the batches since the last resync are exactly the frames published from there to the position, once and in order |
| `Feed.AnswersAreRight` | src/core/ngx_media_feed.c:209-275 | OVERRUN exactly when the next frame was evicted; EMPTY only when caught up; every batch makes progress |
| `Preroll.Source.Reset` | src/core/ngx_media_source.c:111-126 | the cache is empty and every slot released |
| `Preroll.Source.PushFrame` | src/core/ngx_media_source.c:128-213 | the ring with its boundary flag is the specified cache; the ring-full branch is unreachable |
| `Preroll.Source.Replay` | src/core/ngx_media_source.c:215-231 | the cached frames, oldest first |
| `Preroll.Source.Create` | src/core/ngx_media_source.c:60-95 | the init: refused exactly for a zero ceiling, an unaddressable capacity or no memory; else an empty cache with a slot to spare |
| `Preroll.Source.SeeVideo` | src/core/ngx_media_runtime.c:1880-1885 | a video track is known from now on, the cache untouched |
| `Preroll.CacheIsTheGroup` | src/core/ngx_media_source.c:111-213 | exactly: from a key frame (or the start) on with video known since, the cache is all frames since and with the latest key frame when they fit both ceilings, else empty |
| `Preroll.CacheIsSuffix` | src/core/ngx_media_source.c:128-213 | whenever the video track becomes known, the cache is a suffix of what was pushed, within both ceilings |
| `Preroll.CacheExact` | src/core/ngx_media_source.c:128-213 | exactly, over every run and any frames: the cache holds what was pushed from frame s on if and only if s opens it (a key frame, or no video with none known and nothing cached), no key frame follows and nothing since passed a ceiling |
| `Preroll.AudioKeepsAll` | src/core/ngx_media_source.c:150-158 | a source without a video track keeps everything pushed, as long as all of it is within the ceilings |
| `Nal.FindStartCode` | src/codec/ngx_media_nal.c:4-23 | the search returns the first start code and its length |
| `Nal.CodeIsFirst` | src/codec/ngx_media_nal.c:4-23 | no start code of either length lies before the one found |
| `Nal.Iterator.NextUnit` | src/codec/ngx_media_nal.c:33-83 | the loop over positions returns the specified unit and moves behind it |
| `Nal.UnitIsClean` | src/codec/ngx_media_nal.c:33-83 | on any input a unit is non-empty, free of start codes, in order and disjoint from the next |
| `Nal.NothingSkipped` | src/codec/ngx_media_nal.c:33-83 | nothing but zeros and start codes lies between units |
| `Nal.IteratorInvertsEncoding` | src/codec/ngx_media_nal.c:25-83 | any units joined by any mix of start codes and zero bytes are returned exactly (ITU-T H.264 Annex B) |
| `PushQueue.Push.EnqueueItem` | src/core/ngx_media_hls_push.c:359-404 | the ring enqueue: appended, or the oldest dropped first and listed as missing when the queue is full |
| `PushQueue.Push.Take` | src/core/ngx_media_hls_push.c:754-789 | an uploader takes the head exactly when the destination is ready |
| `PushQueue.Push.Finish` | src/core/ngx_media_hls_push.c:790-834 | done, failed, skipped or retried: the destination after one completion |
| `PushQueue.Push.Drain` | src/core/ngx_media_hls_push.c:1040-1062 | stopping empties the queue |
| `PushQueue.Push.Arrived` | src/core/ngx_media_hls_push.c:681-692 | a segment that arrived is taken off the list of missing ones |
| `PushQueue.Push.Expire` | src/core/ngx_media_hls_push.c:546-558 | the loops keep exactly the missing segments that the playlist taken still lists |
| `PushQueue.Push.Report` | src/core/ngx_media_hls_push.c:672-725 | what an upload does to the list before it completes, by its outcome |
| `PushRuns.EveryObjectOnceInOrder` | src/core/ngx_media_hls_push.c:359-404 | for any interleaving objects leave once, uploads and drops each in order of acceptance, and accepted files are exactly those queued, in flight, uploaded, failed, dropped or skipped |
| `PushRuns.FreedOnceAndLast` | src/core/ngx_media_hls_push.c:218-235 | the destination is freed at most once, by the last reference, unlinked, drained and with no upload in flight |
| `PushRuns.DropKeepsOrderIffIdle` | src/core/ngx_media_hls_push.c:376-392 | over every run: everything that left, then the object in flight, is in order of acceptance if and only if no full queue, removal or shutdown ever dropped an object beside an upload |
| `PushRuns.FullQueueOvertakes` | src/core/ngx_media_hls_push.c:376-392 | a run in which a full queue lets the second object leave before the first |
| `PushRuns.ShutdownOvertakes` | src/core/ngx_media_hls_push.c:1040-1062 | a run of four steps in which a shutdown does |
| `PushRuns.ListTellsAllButLostRetries` | src/core/ngx_media_hls_push.c:672-834 | over every run: of what left, exactly the segments given up or pushed out by a full queue were ever put on the list of missing ones |
| `PushRuns.ListChanges` | src/core/ngx_media_hls_push.c:436-448 | the steps that put a name on the list are a full queue and an upload given up; it stands last there |
| `PushRuns.RetryLosesOnlyWhenFull` | src/core/ngx_media_hls_push.c:800-826 | a retry is lost if and only if the queue is full or stopping, then counted as failed with the list as it was; any other goes back first in line |
| `PushTimes.OutcomeMeans` | src/core/ngx_media_hls_push.c:650-725 | done on any 2xx answer; retried after no answer, 408, 429 or 5xx as long as the next attempt is due within the budget; given up otherwise |
| `PushTimes.RetriesBackOff` | src/core/ngx_media_hls_push.c:694-712 | attempts follow the failed one before after 100, 200, 400, 800 and then 1000 ms at the earliest, are due within the budget, and are at most one more than the budget has tenths of a second |
| `PushTimes.RetryWaits` | src/core/ngx_media_hls_push.c:762-834 | over every run a retried object is taken again as it was put back and not before the time set for it |
| `PushTimes.TakenWhenDue` | src/core/ngx_media_hls_push.c:754-789 | an object is taken exactly when one is queued, none is being uploaded and the time set for the oldest has come |
| `PushTimes.CountersMean` | src/core/ngx_media_hls_push.c:359-834 | over every run each of the five counters counts its own steps: uploads, their bytes, retries, failures, drops |
| `PushTimes.PlaylistNames` | src/core/ngx_media_hls_push.c:416-424 | a playlist is what has anything before an ending .m3u8 in either case |
| `PushTimes.NameOfPath` | src/core/ngx_media_hls_push.c:408-414 | the name is what follows the last slash |
| `PushTimes.ListKeepsEight` | src/core/ngx_media_hls_push.c:426-448 | the list holds the latest eight names, each cut to its first 63 characters |
| `PushTimes.ListLosesFirst` | src/core/ngx_media_hls_push.c:681-692 | a segment that arrived is taken off once, where it is listed first |
| `PushMissing.MarksAreTheList` | src/core/ngx_media_hls_push.c:436-448 | the entries that the theorems follow through a run show exactly the names on the list, in its order |
| `PushMissing.NameOnList` | src/core/ngx_media_hls_push.c:436-448 | a name is on the list if and only if some entry shows it |
| `PushMissing.StandsIff` | src/core/ngx_media_hls_push.c:436-725 | over every run: what a step told of stands on the list if and only if no later telling found it first of eight, no segment of its name arrived while it was the first such entry, and no playlist was taken that does not list it |
| `PushMissing.LackedNamedIff` | src/core/ngx_media_hls_push.c:359-834 | the exact condition, over every run: a segment the destination lacks is named unless it was lost with a retry, could not be opened, has a name of 64 or more octets, was pushed out by eight later losses, or was erased by a playlist accepted before it |
| `PushMissing.EveryLossHasItsStep` | src/core/ngx_media_hls_push.c:359-834 | every wanted segment that left unsent was lost at a step the theorem covers |
| `PushMissing.EveryUnopenedHasItsStep` | src/core/ngx_media_hls_push.c:1199-1245 | and every segment that could not be opened |
| `PushMissing.OlderPlaylistErases` | src/core/ngx_media_hls_push.c:546-558 | a run in which a playlist, taken after the queue behind it overflowed, empties the list |
| `PushMissing.NinthPushesOut` | src/core/ngx_media_hls_push.c:436-448 | a run of nine losses, the first no longer named |
| `PushMissing.UnopenedIsNotListed` | src/core/ngx_media_hls_push.c:1199-1245 | a sealed segment that cannot be opened, and an empty list |
| `PushMissing.LostRetryIsNotListed` | src/core/ngx_media_hls_push.c:800-826 | a lost retry, and an empty list |
| `PushMissing.LongNameIsCut` | src/core/ngx_media_hls_push.c:426-433 | a name of 64 octets, and a list that shows another one |
| `Tombstone.Ring.Add` | src/core/ngx_media_tombstone.c:13-29 | one more deletion is remembered, the oldest of 256 overwritten |
| `Tombstone.Ring.Has` | src/core/ngx_media_tombstone.c:31-58 | true if and only if one of the last 256 deletions of the identity covers the revision |
| `Tombstone.CoveredMeans` | src/core/ngx_media_tombstone.c:31-58 | what is covered depends on the latest 256 deletions and nothing else |
| `StreamRegistry.Registry.Find` | src/core/ngx_media_registry.c:156-183 | the walk finds the name's one stream or says there is none |
| `StreamRegistry.Registry.Remove` | src/core/ngx_media_registry.c:294-379 | destroying leaves a tombstone of the stream's revision, discarding none; a stream some reader holds goes on the draining list and is not released |
| `StreamRegistry.Registry.ReleaseDrained` | src/core/ngx_media_registry.c:394-455 | exactly the drained streams that no reader holds any more are released |
| `StreamRegistry.Registry.Replace` | src/core/ngx_media_graph.c:806-838 | the staged replacement enters before the old stream is destroyed, and the result is one stream of that name |
| `StreamRegistry.Registry.ApplyOp` | src/core/ngx_media_graph.c:745-1030 | applying an operation in place is exactly the specified step, answer included, with every rollback; no stream a reader holds is ever released |
| `Replica.RevisionNeverFalls` | src/core/ngx_media_graph.c:793-1019 | whatever arrives and however it fares, a stream that stays never goes back to an older revision |
| `Replica.StepKeepsOrder` | src/core/ngx_media_graph.c:775-1019 | tombstones of a name move forward and a present stream is newer than all of them |
| `Replica.NoResurrection` | src/core/ngx_media_graph.c:775-800 | no operation at or below a deletion ever leaves the stream present, over every run of any operations |
| `Replica.OvertakenDoesNothing` | src/core/ngx_media_graph.c:775-791 | an operation at or below a remembered deletion changes nothing |
| `Replica.RefusedChangesNothing` | src/core/ngx_media_graph.c:806-985 | an operation answered with an error leaves the replica exactly as it was |
| `Replica.RepeatDoesNothing` | src/core/ngx_media_graph.c:793-1019 | applying an operation twice is applying it once, in every state and however it fares |
| `Replica.SourceFrame` | src/core/ngx_media_graph.c:929-1019 | a source operation touches its own source only |
| `Replica.SourceDeleteMeans` | src/core/ngx_media_graph.c:1004-1022 | a source deletion for the stream's incarnation takes that source away and nothing else of the stream; any other changes nothing |
| `Replica.SourceSetMeans` | src/core/ngx_media_graph.c:929-1002 | after a source set the source has the wanted kind, priority, paths, flag and revision, and the key and nonce carried or had; when it is refused, and that nothing else changes |
| `Replica.StreamSetMeans` | src/core/ngx_media_graph.c:806-880 | a stream set updates settings and revision of its incarnation, or replaces an older stream, its sources gone and its deletion remembered |
| `Replica.StreamDeleteMeans` | src/core/ngx_media_graph.c:882-927 | a stream deletion for the incarnation removes the stream and is remembered |
| `Replica.LateMeans` | src/core/ngx_media_graph.c:745-800 | an operation that does not decode, or that a deletion or the stream has moved past, changes nothing; only the first is an error |
| `Convergence.DeliveryOutcome` | src/core/ngx_media_graph.c:784-927 | every delivery of a settled set, in any order with any repeats, ends in what its deciding operation says |
| `Convergence.OneIncarnation` | src/core/ngx_media_graph.c:784-927 | within one incarnation the newest operation decides |
| `Convergence.SettledConverges` | src/core/ngx_media_graph.c:784-927 | replicas that received the same settled operations hold the same stream |
| `Convergence.UnsettledDiverges` | src/core/ngx_media_graph.c:882-887 | any unsettled set has two deliveries that leave different replicas |
| `Convergence.DodgedDeletionDiverges` | src/core/ngx_media_graph.c:882-887 | a set and the deletion of another incarnation: an unsettled set, and two deliveries of it that differ |
| `Convergence.ConvergesIffSettled` | src/core/ngx_media_graph.c:784-927 | the exact condition: replicas agree whatever the order if and only if the set is settled |
| `Convergence.SourceSetsCommuteIff` | src/core/ngx_media_graph.c:793-1002 | two sets of different sources, in either order: the replicas agree if and only if they carry the same revision |
| `Convergence.SourceSetsDiverge` | src/core/ngx_media_graph.c:793-1002 | two source sets at revisions 6 and 7, the older lost behind the newer |
| `Journal.Broadcast` | src/core/ngx_media_route.c:477-552 | the two counters agree if and only if no connected peer missed the message |
| `Journal.Repair.Enqueue` | src/core/ngx_media_graph.c:56-81 | the first free slot is taken; AGAIN exactly when there is none |
| `Journal.Repair.Clear` | src/core/ngx_media_graph.c:83-95 | the slot is free, the others are untouched |
| `Journal.Repair.Attempt` | src/core/ngx_media_graph.c:103-139 | one retry of the first held entry from the cursor, as `Try` says |
| `Journal.Repair.RunTick` | src/core/ngx_media_graph.c:97-140 | a tick is four retries, ending early only when nothing is held |
| `Journal.Repair.SendItem` | src/core/ngx_media_graph.c:142-184 | a slot is reserved before the broadcast and kept when it missed a peer |
| `Journal.PickedMeans` | src/core/ngx_media_graph.c:108-119 | a retry picks the first held entry from the cursor on, going round |
| `Journal.RetryFrees` | src/core/ngx_media_graph.c:121-139 | its slot is given back if and only if some worker is connected and every connected one took it; all other slots stay |
| `Journal.OfferMeans` | src/core/ngx_media_graph.c:142-184 | an offer takes the lowest free slot exactly when some connected peer missed it or none is connected |
| `Journal.RetriesEmpty` | src/core/ngx_media_graph.c:97-140 | retries that every peer takes give back one slot each until the journal is empty |
| `Journal.EmptyAfter64Ticks` | src/core/ngx_media_graph.c:97-184 | once every peer takes what it is sent and nothing new comes, sixty-four ticks leave the journal empty and the next operation is not refused |
| `Journal.GivenBackWithin64Ticks` | src/core/ngx_media_graph.c:97-184 | while other operations keep coming, an entry is given back within sixty-four ticks whose retries are taken |
| `Journal.RefusedReachesNobody` | src/core/ngx_media_graph.c:153-163 | refused exactly when the journal is full, and then no peer is told and nothing changes |
| `Journal.AcceptedIsHeldOrTaken` | src/core/ngx_media_graph.c:142-184 | over every run an accepted operation is held or was taken by every connected peer in one broadcast |
| `Journal.CloserEachTry` | src/core/ngx_media_graph.c:108-119 | each retry takes the entry or strictly shortens the cyclic distance to it |
| `Journal.RetriedWithinDistance` | src/core/ngx_media_graph.c:97-140 | a held entry is retried before the retries outnumber its distance, whatever else is added |
| `Journal.RetriedWithin64Ticks` | src/core/ngx_media_graph.c:97-140 | sixty-four ticks retry every entry held at their start |
| `Json.Utf8RoundTrip` | src/api/ngx_media_api_module.c:2459-2492 | what the decoder writes for a code point is its one UTF-8 form (RFC 3629 section 3) |
| `Json.DecodeShrinks` | src/api/ngx_media_api_module.c:2329-2496 | an accepted string never stands for more octets than were read |
| `Json.ParseString` | src/api/ngx_media_api_module.c:2329-2496 | the decoder, also in place: it succeeds exactly when the string is valid and fits, and writes what it stands for and nothing else |
| `JsonString.StringExact` | src/api/ngx_media_api_module.c:2329-2496 | accepted are exactly the strings of RFC 8259 section 7, octets, short escapes, code points and surrogate pairs in digits of either case, and each stands for its octets |
| `Json.ReadUnicode` | src/api/ngx_media_api_module.c:2395-2450 | the hexadecimal loops read the specified escape |
| `JsonPrint.Writer.Put` | src/api/ngx_media_api_module.c:748-759 | all of the data is appended, or nothing exactly when it does not fit |
| `JsonPrint.Writer.PutString` | src/api/ngx_media_api_module.c:761-859 | succeeds exactly when the printed form fits, and appends it |
| `JsonPrint.DecodePrinted` | src/api/ngx_media_api_module.c:761-859 | decoding the printed form of any octets gives them back |
| `JsonString.PrintedShortest` | src/api/ngx_media_api_module.c:761-859 | every octet is printed in its shortest spelling, the hexadecimal digits in lower case |
| `JsonPrint.UnicodeMeansItsScalar` | src/api/ngx_media_api_module.c:2395-2452 | a \u escape is accepted if and only if it spells a code point, alone or as a surrogate pair, and is taken for it (RFC 8259 section 7) |
| `JsonPrint.UnicodeBecomesUtf8` | src/api/ngx_media_api_module.c:2395-2492 | and leaves that code point's UTF-8 in the text |
| `JsonScan.ValueEnd` | src/api/ngx_media_api_module.c:2498-2536 | the loop with its depth and quoting computes the specified end |
| `JsonScan.ContainerEnds` | src/api/ngx_media_api_module.c:2498-2536 | an object or array ends at its own bracket, whatever its strings and inner containers hold |
| `JsonScan.StringEnds` | src/api/ngx_media_api_module.c:2498-2536 | a string ends at its own closing quote, whatever escapes it holds |
| `JsonScan.BareEnds` | src/api/ngx_media_api_module.c:2498-2536 | a number or literal ends at the next comma or closing bracket |
| `JsonScan.RawLengthSuffices` | src/api/ngx_media_api_module.c:2632-2642 | wherever the decoder accepts, the scanner found the same end, so a buffer of the raw length suffices |
| `JsonScan.PrintedRoundTrip` | src/api/ngx_media_api_module.c:761-859 | print, then scan and decode: the scanner stops behind the closing quote and the text is back |
| `JsonField.ReadName` | src/api/ngx_media_api_module.c:2576-2619 | the member's name, decoded into 64 octets, and where its value starts |
| `JsonField.ReadValue` | src/api/ngx_media_api_module.c:2632-2652 | a string is decoded, anything else is the raw text without trailing space |
| `JsonField.Find` | src/api/ngx_media_api_module.c:2562-2655 | the loop over the members computes the specified lookup |
| `JsonField.LookupFindsFirst` | src/api/ngx_media_api_module.c:2562-2655 | in any object, with any space, escapes and nesting, the first member of the name is returned, unless a name over 64 octets comes first |
| `JsonField.FoundUnlessLongName` | src/api/ngx_media_api_module.c:2562-2655 | the exact condition: a member is found if and only if its name is shorter than 64 octets and none before it is longer; without a pool a string is not given |
| `JsonField.LongNameHides` | src/api/ngx_media_api_module.c:2590-2606 | an object whose second member is not found |
| `Desired.ReadNext` | src/api/ngx_media_api_module.c:2538-2560 | the next object of an array, its end, or a refusal |
| `Desired.ReadField` | src/api/ngx_media_api_module.c:2562-2655 | a field of an object, decoded |
| `Desired.ReadArray` | src/api/ngx_media_api_module.c:4923-4936 | the inner text of an array field; a string or any other value counts as missing |
| `DesiredText.ObjectsRead` | src/api/ngx_media_api_module.c:2538-2560 | any array of proper objects, with any space, escapes and nesting, is walked object by object to its end |
| `DesiredText.FieldRead` | src/api/ngx_media_api_module.c:2562-2655 | and a field of such an object is its first member of that name |
| `DesiredText.PrintedDocumentReads` | src/api/ngx_media_api_module.c:5027-5110 | any desired document, with any octets in its names, printed as JSON is read as exactly that document |
| `DesiredPrint.PrintSpelled` | src/api/ngx_media_api_module.c:5027-5110 | that printed document octet by octet: the field names and the punctuation the reader looks for |
| `Capacity.CompareOrder` | src/api/ngx_media_api_module.c:5007-5025 | zero exactly on equal identities, and antisymmetric |
| `Capacity.CompareTransitive` | src/api/ngx_media_api_module.c:5007-5025 | a total order |
| `Capacity.FreshCountsSet` | src/api/ngx_media_api_module.c:5113-5128 | over sorted entries, counting those that differ from their neighbour counts the distinct identities |
| `Capacity.Count` | src/api/ngx_media_api_module.c:5113-5130 | busy if and only if some kind has more distinct identities than room |
| `Capacity.Collect` | src/api/ngx_media_api_module.c:5046-5107 | over the text of the streams array, walked object by object: collected are exactly the identities the document would newly create; a malformed document is refused |
| `Capacity.CreatedMeans` | src/api/ngx_media_api_module.c:5046-5107 | created are exactly the named streams that are not there, the named sources that are not among their stream's sources, and of owned streams the named destinations not among their destinations |
| `Capacity.DeclinedMeans` | src/api/ngx_media_api_module.c:5046-5107 | declined exactly when something other than objects stands in an array, an item lacks its names or a child its identity; destinations of streams of other workers do not matter |
| `Capacity.Admit` | src/api/ngx_media_api_module.c:5027-5131 | the text of a well-formed document is admitted if and only if for each kind the distinct new identities fit the room; one that names only what is there is admitted in any room |
| `HttpText.ParseChunkSize` | src/core/ngx_media_http.c:753-777 | accepted exactly when there are digits, their value fits 64 bits and extensions follow; then that value |
| `HttpText.ParseExtensions` | src/core/ngx_media_http.c:778-826 | the extension scan |
| `HttpText.PlainSize` | src/core/ngx_media_http.c:753-777 | any spelling in hexadecimal digits, zeros and case included, is read as its value |
| `HttpText.ParseLength` | src/core/ngx_media_http.c:653-687 | a Content-Length value is accepted exactly when it is a list of one repeated number that fits 64 bits and agrees with what was seen |
| `Spelling.DecimalReads` | src/core/ngx_media_http.c:653-687 | decimal digits, zeros in front included, are read as the number they write |
| `Spelling.HexReads` | src/core/ngx_media_http.c:753-777 | hexadecimal digits, of either case and behind any zeros, are read as the number they write |
| `HttpLength.LengthExact` | src/core/ngx_media_http.c:653-687 | a Content-Length field is read as n if and only if it is a list whose every member spells n, n is below 2^64 and no field before said otherwise (RFC 9110 section 8.6) |
| `HttpLength.SizeExact` | src/core/ngx_media_http.c:753-777 | a chunk size line of hexadecimal digits is read as n if and only if they spell n and it is below 2^64 |
| `HttpExtension.ExtensionsAccepted` | src/core/ngx_media_http.c:778-826 | every list of extensions of the RFC 9112 grammar, with any space and quoted values, is accepted to the end of the line |
| `HttpExtension.ExtensionsExact` | src/core/ngx_media_http.c:778-826 | and nothing else is, but for space at the end of the line behind a bare name |
| `HttpExtension.SizeWithExtensions` | src/core/ngx_media_http.c:753-827 | a size followed by any extensions is read as that size |
| `HttpBody.LineMeaning` | src/core/ngx_media_http.c:588-616 | a line is read if and only if it holds no CR, LF or NUL, ends in CR LF and keeps within both limits |
| `HttpBody.ChunkedRoundTrip` | src/core/ngx_media_http.c:916-952 | any body, cut and spelled in any way, with any proper trailer, decodes to itself, and fails exactly when it exceeds the room (RFC 9112 section 7.1) |
| `HttpBody.PlainTail` | src/core/ngx_media_http.c:934-952 | a zero chunk and an empty line end the body |
| `HttpChunks.TrailerMeans` | src/core/ngx_media_http.c:618-651 | a trailer line is a token, a colon and a value without control characters, and none of the three framing fields in any case |
| `HttpChunks.ChunkedExact` | src/core/ngx_media_http.c:916-952 | a body is accepted if and only if it is chunks, a last chunk and a trailer section of this grammar whose data fits the room; it then is their data, joined (RFC 9112 section 7.1) |
| `HttpChunks.OtherBodies` | src/core/ngx_media_http.c:953-977 | a counted body is the next octets, one to the close all that is left, exactly when they fit |
| `HttpReader.Reader.Fill` | src/core/ngx_media_http.c:571-586 | an octet is buffered exactly when the connection has one left; else its end is reported |
| `HttpReader.Reader.ReadLine` | src/core/ngx_media_http.c:588-616 | over any split into reads, the line the octets of the connection hold |
| `HttpReader.Reader.ReadBytes` | src/core/ngx_media_http.c:726-751 | exactly the next octets are copied, or it fails exactly when they do not fit or do not come |
| `HttpReader.Reader.ReadChunked` | src/core/ngx_media_http.c:916-933 | the chunk loop decodes the octets of the connection |
| `HttpReader.Reader.ReadBody` | src/core/ngx_media_http.c:916-977 | chunked, counted or to the close: the body the octets say, whatever the reads; surplus in the buffer fails it |
| `HttpReader.DecodeReads` | src/core/ngx_media_http.c:916-977 | any chunked response over any reads: accepted exactly when it fits the room, and then the body |
| `PlaylistRewrite.ParseGood` | src/core/ngx_media_hls_playlist.c:106-189 | what pass 1 finds: header lines, segments with their tags and flags, an end list |
| `PlaylistTheorems.RewriteReads` | src/core/ngx_media_hls_playlist.c:106-334 | re-reading the output gives exactly the kept segments, marked, behind the moved numbers |
| `PlaylistTheorems.RewriteReadsIff` | src/core/ngx_media_hls_playlist.c:106-334 | the exact condition: it does if and only if the first segment kept does not begin with a header tag |
| `PlaylistTheorems.RewriteCounts` | src/core/ngx_media_hls_playlist.c:106-334 | in any case re-reading gives as many segments as were kept, with their URIs, and the same text but for tags that move to the header |
| `PlaylistTheorems.TagMovesToHeader` | src/core/ngx_media_hls_playlist.c:106-189 | a playlist of two segments whose output is read with a tag moved |
| `PlaylistTheorems.NumbersKept` | src/core/ngx_media_hls_playlist.c:191-334 | every kept segment keeps its media sequence and discontinuity sequence number (RFC 8216 section 6.2.2), a missing one gains exactly one gap tag, nothing else changes |
| `PlaylistTheorems.SecondRewrite` | src/core/ngx_media_hls_playlist.c:106-334 | rewriting the output text again changes no byte if and only if the first URI does not come again, for every playlist whose header begins with its tag |
| `PlaylistTheorems.Idempotent` | src/core/ngx_media_hls_playlist.c:106-334 | with distinct URIs rewriting the output again gives the output |
| `PlaylistTheorems.RepeatedUriTrimsAgain` | src/core/ngx_media_hls_playlist.c:194-217 | a playlist of three segments, one URI twice, whose second rewrite differs from the first |
| `PlaylistTheorems.DecimalReads` | src/core/ngx_media_hls_playlist.c:255-272 | the number written is the number read back |
| `PlaylistText.HeaderTagMeans` | src/core/ngx_media_hls_playlist.c:16-46 | the twelve tags that belong to a header |
| `PlaylistText.StrtoullReads` | src/core/ngx_media_hls_playlist.c:132-141 | the number of a sequence tag: whitespace, a sign, zeros and digits up to the first other character, saturated at 64 bits, negated modulo 2^64 |
| `PlaylistText.TextReads` | src/core/ngx_media_hls_playlist.c:106-189 | any playlist written line by line out of header tags, at most 256 segments and an end list or none is read as exactly that |
| `PlaylistText.TooManySegments` | src/core/ngx_media_hls_playlist.c:156-162 | a line that begins a 257th segment refuses the playlist |
| `PlaylistText.MasterDeclined` | src/core/ngx_media_hls_playlist.c:123-126 | a line named #EXT-X-STREAM-INF declines it |
| `PlaylistText.FrontLeaves` | src/core/ngx_media_hls_playlist.c:191-217 | as few segments leave as leave no more than the window and none before the first one the destination has |
| `PlaylistText.TextRewritten` | src/core/ngx_media_hls_playlist.c:191-334 | the text that is written, line by line: header lines as they were but for a sequence tag whose number moves, that tag behind them, the segments that stay, a gap tag for each missing one |
| `PlaylistWriter.Survey` | src/core/ngx_media_hls_playlist.c:106-189 | the positions of pass 1 are those of the playlist as read, or its refusal |
| `PlaylistWriter.Cut` | src/core/ngx_media_hls_playlist.c:191-217 | how many segments the window and the first URI remove |
| `PlaylistWriter.WriteHeader` | src/core/ngx_media_hls_playlist.c:223-254 | the header without the renumbered tags, every line closed, bounded by the output |
| `PlaylistWriter.WriteSeg` | src/core/ngx_media_hls_playlist.c:284-324 | tag lines, one gap tag for a missing segment, the URI |
| `PlaylistWriter.Rewrite` | src/core/ngx_media_hls_playlist.c:78-340 | declined, refused or written exactly as specified; an error exactly when the text does not fit; the account is right |

## Left out

- Sockets, event loops, files, TLS, DNS and clocks: each read, write or time is an outcome the theorems range over. `Kernel` says what each datagram write meets, `Env` what the runtime answers, `Peers` what each endpoint does.
- Receiving and validating datagrams (src/core/ngx_media_ipc.c:263-349): the channel carries messages, and loss, doubling and reordering are its only faults.
- Ipc.Endpoint.Send: frames of length 0 or above 4 MiB are sent but refused by the receiver, so the delivery theorems count them as refused.
- Memory allocation: a failure is a boolean where the code recovers from it (reassembly, registry, source opening), and does not happen elsewhere.
- Machine-word wrap of 64-bit counters, sequence numbers and revisions, except chunk sizes, content lengths and playlist numbers.
- OwnerDir.Directory.Lock: one attempt stands for the bounded spin, and listing the directory is left out.
- StreamRegistry.Registry.ApplyOp: a stream is a value in the list of entries, so the queue links are not modelled, and what readers hold is a set of names and incarnations that others change; a name's octets and its lookup by length are equality of names.
- Convergence.ConvergesIffSettled: stream operations only, on a worker that admits them; for source operations see `Convergence.SourceSetsCommuteIff`. An identity is its hash, so a name is assumed not to share its hash with another in the run.
- Replica.NoResurrection: requires that fewer than 256 other deletions followed the name's newest one whenever an operation on it arrives, as the ring remembers no more.
- PushMissing.LackedNamedIff: whether an upload is retried or given up (status, backoff, budget) is the outcome it reports; `PushTimes.Decide` says which, and the list of sent segments and their deletion are left out.
- PushTimes.OutcomeMeans: a playlist before any segment of its destination is skipped without an attempt (src/core/ngx_media_hls_push.c:639-647); here an attempt was made.
- Json.ParseString: the decoder passes octets above 127 through, valid UTF-8 or not, as the code does.
- FlowLoss.FlowLossAccount: a fresh connection, and frames of 1 octet to 4 MiB; `FlowLoss.CountersMean` counts others as unseen.
- Preroll.Source.Create: a unit ceiling below 2^64 - 1, as the configuration parser gives.
- Capacity.Admit: the library sort is any ordered rearrangement, and its own body is not modelled.
- HttpReader.Reader.ReadBody: the status line and header fields that choose the framing are left out, and a caller without a buffer.
- PlaylistWriter.Rewrite: allocation of the segment table always succeeds.
- PlaylistTheorems.NumbersKept: holds for playlists whose header begins with its tag, whose sequence tags carry a number behind the colon and whose first kept segment does not begin with a header tag; several discontinuity tags on one segment count once, as in the code.
- Stream gate, promotion, selector and health, HLS ingest order, timeline mapping, profiles, metrics, routing of requests and process control: small, library-bound or dependent on code outside these components.
