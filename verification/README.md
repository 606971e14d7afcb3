# Verified models of the Allwinner media stack

A Dafny model of the parts of the media stack that hold invariants over unbounded runs: the
decoder's frame and stream buffers, the demuxer's message queue and cache handshake, the pixel
layout transforms, and the charger mode of the health daemon. `dafny verify dfyconfig.toml`
checks everything.

Most components come as two modules: one gives the operations as functions on values and proves
what every run of them does, the other has the class with the fields, node links or arrays that
the code updates in place and proves each method against those functions.

| component | on values | in place |
|---|---|---|
| frame buffer manager | `FbmProtocol` | `FrameBufferManager`, `Queues` |
| message queue | `MessageQueueThreads` (any number of threads) | `MessageQueue`, `Queues` |
| demux thread and cache thread | `Handshake` | `StreamCache` |
| stream buffer manager, submit path | `StreamRing`, `StreamSubmit` | `StreamBuffer` |
| pixel formats, rotations, RGB565 | `Pictures`, `Rotation` (group laws) | `Planes`, `Tiles`, `PixelFormat`, `Rotation`, `Rgb565` |
| charger mode | `ChargerMode` | `ChargerDevice` |

## Reading guide

- *Frames.* A frame goes between decoder and renderer through four flags and two queues that share
  one link per node. `StepKeepsInv` says that every entry point keeps the ownership invariant if and
  only if the callers keep two rules that the code does not test: the decoder does not share a frame
  the renderer holds, and nobody returns a picture whose id names, by the tag 255, a frame without
  display flags. `OwnershipInEveryRun` and `DeliveryInEveryRun` carry it over all runs;
  `SharingAgainLosesTheFrame` and `TaggedReturnLosesFrames` show what happens without the rules.
  One call from a linked state never links a node twice (`StepKeepsQueuesSeparate`), but a tagged
  return of a frame in the decoder's hands makes the call after it do so (`TaggedReturnLinksTwice`).
  A tagged id beyond the table reads memory that is not the table's; what happens then is undefined,
  so it is a precondition (`Defined`). A flush lowers the number of valid
  pictures but not the number waiting for display; `DeliveryInEveryRun` states the exact difference.
- *Messages.* Posting raises the semaphore outside the mutex, getting takes it before the mutex, and
  a flush drains it unit by unit. Each is a step of its own and any thread may move next. "A woken
  getter finds a message" can fail after a flush (`FlushCanWakeAGetterInVain`). It holds until the
  next flush if and only if earlier ones left nothing over (`NeverInVainIffNothingLeftOver`), that is,
  if and only if no thread was in mid post or mid get when the last one ended
  (`FlushEndsCleanIffNoneInFlight`).
- *Handshake.* Parser calls have a begin and an end, so exclusion is a statement about overlapping
  calls. "End of stream is reported after the last frame" is false (`EosCanLeaveAFrameBehind`),
  because the tests for an empty cache and for the flag are separate; `EosReportsAllFrames` has the
  exact condition, and `EosSeenFirstMissesNothing` says that testing the flag first would close the
  gap.
- *Stream buffer.* Addresses are integers on a ring. The producer submits once per request, at the
  address it was given, and no more than it asked for; the consumer only returns or flushes what it
  took. A submission can finish two frames while a request only makes sure of one FIFO slot;
  `SubmitLosesNothingIffRoom` has the exact condition and `SubmissionCanLoseAFrame` a run that fails it.
- *Pixels.* `SamePicture` compares the visible luma and chroma of two pictures whatever their
  formats. The rotations visit `height / 2` by `width / 2` chroma samples, so their laws reach the
  whole visible chroma exactly for even sizes (`AllChromaTurnedIffEven`). The RGB transform steps its
  rows by whole tiles, so it is a raster picture exactly for widths that are multiples of 32
  (`RasterIffDivisible`).
- *Charger.* Events come in any order; only the clock of the heartbeats must not run backwards.

Plane sizes are written as sums of rows (`RowsSize`) and shown to be products in
`RowsSizeIsProduct`. Alignment by masks is written with 16-byte blocks (`Align16`). Division that
truncates towards zero is `Rgb565.Quotient`.

## Model

| member | source | states |
|---|---|---|
| `Queues.FindTail` | allwinner/libcedarc/vdecoder/fbm.c:69-71 | the walk along the links ends at the last node of the list |
| `Queues.Enqueue` | allwinner/libcedarc/vdecoder/fbm.c:56-78 | the node is appended behind the last one; a node that was in the list already cuts it short behind itself; no payload and no other list changes |
| `FrameBufferManager.Dequeue` | allwinner/libcedarc/vdecoder/fbm.c:94-108 | pops the head; the rest of the list and every other node stay linked as they were |
| `FrameBufferManager.Fbm.constructor` | allwinner/libcedarc/vdecoder/fbm.c:278-286 | all frames start free on the empty queue, in order |
| `FrameBufferManager.Fbm.LinkAll` | allwinner/libcedarc/vdecoder/fbm.c:278-286 | repeated enqueueing threads all nodes in index order |
| `FrameBufferManager.Fbm.RequestBuffer` | allwinner/libcedarc/vdecoder/fbm.c:367-438 | the pointer-level method is the protocol step `RequestBuffer` |
| `FrameBufferManager.Fbm.ReturnBuffer` | allwinner/libcedarc/vdecoder/fbm.c:441-579 | is the protocol step `ReturnBuffer`, including the id and address checks and the four ways a frame goes on |
| `FrameBufferManager.Fbm.Requeue` | allwinner/libcedarc/vdecoder/fbm.c:549-573 | a returned frame goes to the queue that its flags and its validity call for |
| `FrameBufferManager.Fbm.ShareBuffer` | allwinner/libcedarc/vdecoder/fbm.c:582-659 | is the protocol step `ShareBuffer` |
| `FrameBufferManager.Fbm.RequestPicture` | allwinner/libcedarc/vdecoder/fbm.c:662-720 | is the protocol step `RequestPicture` |
| `FrameBufferManager.Fbm.ReturnPicture` | allwinner/libcedarc/vdecoder/fbm.c:723-841 | is the protocol step `ReturnPicture` for every id inside the memory of the table; afterwards no frame on the empty queue is in the decoder's hands if and only if the id is not a tagged one of a frame in the decoder's hands |
| `FrameBufferManager.Fbm.ReturnTagged` | allwinner/libcedarc/vdecoder/fbm.c:762-785 | the branch for ids outside the table: the frame behind the tag is queued without an address check |
| `FrameBufferManager.Fbm.ReturnOwn` | allwinner/libcedarc/vdecoder/fbm.c:790-838 | the branch for ids inside the table: back to the empty queue, or marked displayed while the decoder holds it |
| `FrameBufferManager.Fbm.FlushHead` | allwinner/libcedarc/vdecoder/fbm.c:902-933 | one pass of the flush loop is one `FlushOne` |
| `FrameBufferManager.Fbm.Flush` | allwinner/libcedarc/vdecoder/fbm.c:880-939 | the loop terminates and is the recursive `FlushQueue` |
| `FbmProtocol.StepKeepsQueuesSeparate` | allwinner/libcedarc/vdecoder/fbm.c:367-939 | the two queues, which share one link per node, are duplicate-free, disjoint and inside the table after every call from a linked state, tagged returns included |
| `FbmProtocol.StepKeepsQueuesLinked` | allwinner/libcedarc/vdecoder/fbm.c:367-939 | after the call no frame on the empty queue is in the decoder's hands if and only if the call is not a tagged return of a frame in the decoder's hands |
| `FbmProtocol.ShareInv` | allwinner/libcedarc/vdecoder/fbm.c:582-659 | sharing keeps the ownership invariant if and only if the renderer does not hold the frame, which the code does not test |
| `FbmProtocol.GiveBackPictureInv` | allwinner/libcedarc/vdecoder/fbm.c:723-841 | returning a picture keeps the ownership invariant if and only if its id is not a tagged one of a frame without display flags, which the code does not test |
| `FbmProtocol.StepKeepsInv` | allwinner/libcedarc/vdecoder/fbm.c:367-939 | every entry point keeps the ownership invariant (seven flag states, queue membership, four exact counters) if and only if the callers keep the sharing and the tag rule, and never meets an invalid status |
| `FbmProtocol.FlushQueueInv` | allwinner/libcedarc/vdecoder/fbm.c:880-939 | a flush empties the valid queue, meets no invalid status and does not lower the wait-for-display counter |
| `FbmProtocol.FlushFrames` | allwinner/libcedarc/vdecoder/fbm.c:902-933 | what a flush does to each frame: decoder-held queued frames become already displayed, other queued ones free, the rest stay |
| `FbmProtocol.LeaveKeepsHistory` | allwinner/libcedarc/vdecoder/fbm.c:687-712 | pictures that leave the front of the valid queue keep the history of holds consistent |
| `FbmProtocol.StepKeepsHistory` | allwinner/libcedarc/vdecoder/fbm.c:367-939 | every step keeps: entered holds are the holds that left followed by the queued ones, no hold enters twice |
| `FbmProtocol.OwnershipInEveryRun` | allwinner/libcedarc/vdecoder/fbm.c:367-939 | after every run that keeps the two rules, the ownership invariant holds and no next call reaches an invalid-status branch |
| `FbmProtocol.DeliveryInEveryRun` | allwinner/libcedarc/vdecoder/fbm.c:530-933 | in every such run each decoder hold is delivered or discarded at most once, in the order of entry, and the wait-for-display counter exceeds the queue length by exactly the pictures flushed away |
| `FbmProtocol.SharingAgainLosesTheFrame` | allwinner/libcedarc/vdecoder/fbm.c:637-704 | sharing a frame that is on display makes the next picture request drop it from both queues |
| `FbmProtocol.SharedFrameOnDisplay` | allwinner/libcedarc/vdecoder/fbm.c:582-720 | three calls that keep the rules reach a state in which the sharing rule can be broken |
| `FbmProtocol.TaggedReturnLosesFrames` | allwinner/libcedarc/vdecoder/fbm.c:762-785 | a tagged id of a frame on the empty queue takes all frames behind it off the queue and counts one frame too many |
| `FbmProtocol.TaggedReturnOfAFreshManager` | allwinner/libcedarc/vdecoder/fbm.c:762-785 | with two free frames the id 255 loses the second one |
| `FbmProtocol.TaggedReturnLinksTwice` | allwinner/libcedarc/vdecoder/fbm.c:762-785 | one frame, requested and then named by the id 255, is queued while the decoder holds it; its return as a valid picture then puts the node on both queues |
| `Queues.FreeSlotExists` | allwinner/liballwinner/xplayer/awMessageQueue.cpp:115-124 | pigeonhole: fewer distinct occupied slots than slots leave one free |
| `MessageQueue.MessageQueueContext.constructor` | allwinner/liballwinner/xplayer/awMessageQueue.cpp:40-69 | an empty queue of the given capacity |
| `MessageQueue.MessageQueueContext.FindFreeSlot` | allwinner/liballwinner/xplayer/awMessageQueue.cpp:115-124 | the search always finds the first free slot while the count is below the maximum |
| `MessageQueue.MessageQueueContext.Insert` | allwinner/liballwinner/xplayer/awMessageQueue.cpp:105-149 | appends to the FIFO exactly when there is room; the list visits the valid slots once each in post order |
| `MessageQueue.MessageQueueContext.RemoveHead` | allwinner/liballwinner/xplayer/awMessageQueue.cpp:174-204 | removes the oldest message, or fails exactly when there is none |
| `MessageQueue.MessageQueueContext.Clear` | allwinner/liballwinner/xplayer/awMessageQueue.cpp:219-226 | empties list, slots and count |
| `MessageQueueThreads.WakeUpsAfter` | allwinner/liballwinner/xplayer/awMessageQueue.cpp:105-237 | over all interleaved steps, only an insert creates a wake-up and only a get or a drain uses one up |
| `MessageQueueThreads.StepKeepsInv` | allwinner/liballwinner/xplayer/awMessageQueue.cpp:94-240 | every step of every thread keeps the accounting of messages, wake-ups and the flush mutex |
| `MessageQueueThreads.NoLostWakeUp` | allwinner/liballwinner/xplayer/awMessageQueue.cpp:94-240 | in every run there are at least as many wake-ups as messages, and the excess is exactly what flushes left over |
| `MessageQueueThreads.FifoInEveryRun` | allwinner/liballwinner/xplayer/awMessageQueue.cpp:94-240 | in every run the inserted messages are those that left, in order, followed by those still queued |
| `MessageQueueThreads.NeverInVainIffNothingLeftOver` | allwinner/liballwinner/xplayer/awMessageQueue.cpp:94-240 | in every state of every run outside a flush: no getter can wake in vain before the next flush if and only if all discarded messages were drained or paid for |
| `MessageQueueThreads.FlushEndsCleanIffNoneInFlight` | allwinner/liballwinner/xplayer/awMessageQueue.cpp:210-240 | after a flush no getter wakes in vain, until the next one, if and only if no thread was in mid post or mid get when it ended |
| `MessageQueueThreads.ExcessCanWakeInVain` | allwinner/liballwinner/xplayer/awMessageQueue.cpp:165-204 | with one wake-up too many, a continuation without flush or post wakes a getter in vain |
| `MessageQueueThreads.WokenGetterFindsMessage` | allwinner/liballwinner/xplayer/awMessageQueue.cpp:165-204 | when flushes left nothing over, wake-ups equal messages and a woken getter finds one |
| `MessageQueueThreads.FlushCanWakeAGetterInVain` | allwinner/liballwinner/xplayer/awMessageQueue.cpp:210-240 | a run in which a flush between insert and post wakes a getter for nothing |
| `StreamCache.Cache.constructor` | allwinner/liballwinner/xplayer/cache.cpp:20-30 | an empty cache |
| `StreamCache.Cache.Underflow` | allwinner/liballwinner/xplayer/cache.cpp:64-74 | true exactly when there is no frame |
| `StreamCache.Cache.Overflow` | allwinner/liballwinner/xplayer/cache.cpp:77-87 | true exactly when the summed lengths of the cached frames reach the limit |
| `StreamCache.Cache.DataEnough` | allwinner/liballwinner/xplayer/cache.cpp:90-100 | true exactly when they reach the start-play size |
| `StreamCache.Cache.NextFrame` | allwinner/liballwinner/xplayer/cache.cpp:103-110 | the oldest frame, or none exactly when empty |
| `StreamCache.Cache.UnlinkHead` | allwinner/liballwinner/xplayer/cache.cpp:118-129 | the rest of the nodes is the list, with its tail |
| `StreamCache.Cache.FlushOneFrame` | allwinner/liballwinner/xplayer/cache.cpp:113-134 | drops the oldest frame and keeps both counters exact |
| `StreamCache.Cache.LinkTail` | allwinner/liballwinner/xplayer/cache.cpp:155-164 | the new node becomes the tail of the linked list |
| `StreamCache.Cache.AddNode` | allwinner/liballwinner/xplayer/cache.cpp:155-169 | a filled node goes behind the others and into both counters |
| `StreamCache.Cache.AddOneFrame` | allwinner/liballwinner/xplayer/cache.cpp:137-172 | appends one frame and keeps both counters exact; without memory nothing changes |
| `StreamCache.Cache.FlushAll` | allwinner/liballwinner/xplayer/cache.cpp:175-196 | the walk ends and the cache is empty |
| `Handshake.StepKeepsInv` | allwinner/liballwinner/xplayer/demuxComponent.cpp:775-1686 | every step of the demux or cache thread, direct reads included, keeps the message pipeline and the frame ledger |
| `Handshake.ParserExclusion` | allwinner/liballwinner/xplayer/demuxComponent.cpp:904-1578 | in no run are both threads inside the parser, and a cache seen non-empty still has its frame when it is fetched |
| `Handshake.QueueStaysShort` | allwinner/liballwinner/xplayer/demuxComponent.cpp:835-1662 | in every run, across stop and prepare cycles, at most one read token exists and at most three messages are queued |
| `Handshake.NoStaleFrame` | allwinner/liballwinner/xplayer/demuxComponent.cpp:982-1663 | in every run the frames submitted since the last positioning are a prefix, in order, of those read since then |
| `Handshake.CacheLoopNeverStalls` | allwinner/liballwinner/xplayer/demuxComponent.cpp:1527-1680 | in every run a started cache thread with nothing pending has exactly one read message queued or in hand, unless it met end of stream, an error or a failure it ignored |
| `Handshake.EosReportsAllFrames` | allwinner/liballwinner/xplayer/demuxComponent.cpp:1133-1145 | when end of stream is about to be reported, all read frames were submitted or flushed if and only if the cache is empty |
| `Handshake.EndedThreadIsIdle` | allwinner/liballwinner/xplayer/demuxComponent.cpp:1605-1619 | after the end of the stream or an error the cache thread waits on an empty queue until the demux thread tells it something |
| `Handshake.EosSeenFirstMissesNothing` | allwinner/liballwinner/xplayer/demuxComponent.cpp:1133-1145 | in every run, when the flag was already set as a read command found the cache empty, all read frames were submitted or flushed and the report is the next step of any thread |
| `Handshake.EosCanLeaveAFrameBehind` | allwinner/liballwinner/xplayer/demuxComponent.cpp:1133-1145 | a run in which end of stream is reported while a frame is still cached |
| `StreamRing.SlotIsModulo` | allwinner/libcedarc/vdecoder/sbm.c:548-552 | the conditional wrap of a FIFO cursor is addition modulo the FIFO size |
| `StreamRing.PutBackUndoesTake` | allwinner/libcedarc/vdecoder/sbm.c:585-683 | returning a requested frame restores the whole state |
| `StreamRing.AddKeepsTiling` | allwinner/libcedarc/vdecoder/sbm.c:508-569 | adding a frame at the write address keeps all frames tiling the ring |
| `StreamRing.ConsumerKeepsTiling` | allwinner/libcedarc/vdecoder/sbm.c:585-744 | taking, returning and flushing keep the tiling |
| `StreamRing.FramesAreAdjacent` | allwinner/libcedarc/vdecoder/sbm.c:508-569 | each frame ends, modulo the ring, where the next one starts, the last one at the write address |
| `StreamBuffer.Sbm.constructor` | allwinner/libcedarc/vdecoder/sbm.c:48-114 | an empty ring with cursors at its start |
| `StreamBuffer.Sbm.Reset` | allwinner/libcedarc/vdecoder/sbm.c:262-284 | back to the empty ring |
| `StreamBuffer.Sbm.RequestBuffer` | allwinner/libcedarc/vdecoder/sbm.c:450-489 | grants exactly when a FIFO slot and the bytes plus a 64-byte margin are free |
| `StreamBuffer.Sbm.Push` | allwinner/libcedarc/vdecoder/sbm.c:546-556 | stores a frame in the slot array and keeps both cursors in step with the counts, the write cursor modulo the FIFO size |
| `StreamBuffer.Sbm.AddStream` | allwinner/libcedarc/vdecoder/sbm.c:508-569 | the in-place update is `StreamRing.Add`; refused exactly for a null address, a full FIFO or too few bytes |
| `StreamBuffer.Sbm.RequestStream` | allwinner/libcedarc/vdecoder/sbm.c:585-625 | hands out the slot that holds the oldest unread frame |
| `StreamBuffer.Sbm.ReturnStream` | allwinner/libcedarc/vdecoder/sbm.c:644-683 | takes back the frame handed out last, aborts on any other |
| `StreamBuffer.Sbm.FlushStream` | allwinner/libcedarc/vdecoder/sbm.c:702-744 | releases the oldest frame and its bytes, aborts on any other |
| `StreamBuffer.VideoDecoder.RequestVideoStreamBuffer` | allwinner/libcedarc/vdecoder/vdecoder.c:958-1044 | the segments are those of `StreamSubmit.Request` |
| `StreamBuffer.VideoDecoder.FlushSbmData` | allwinner/libcedarc/vdecoder/vdecoder.c:1047-1070 | flushes one range, or two when the frame wraps |
| `StreamBuffer.VideoDecoder.Accept` | allwinner/libcedarc/vdecoder/vdecoder.c:1099-1173 | takes a part into the partial frame; an unfinished frame is added first |
| `StreamBuffer.VideoDecoder.Complete` | allwinner/libcedarc/vdecoder/vdecoder.c:1176-1250 | the last part adds the frame and clears the partial record |
| `StreamBuffer.VideoDecoder.SubmitVideoStreamData` | allwinner/libcedarc/vdecoder/vdecoder.c:1071-1253 | the whole submission, state and flushed ranges, is `StreamSubmit.Submit` |
| `StreamBuffer.VideoDecoder.ResetStreams` | allwinner/libcedarc/vdecoder/vdecoder.c:606-614 | drops the ring and the partial frame |
| `StreamSubmit.SegmentsAreTheRequest` | allwinner/libcedarc/vdecoder/vdecoder.c:958-1044 | the segments lie in the buffer, total the size asked for and are exactly the ring bytes behind the partial frame |
| `StreamSubmit.GrantedBytesAreFree` | allwinner/libcedarc/vdecoder/vdecoder.c:958-1044 | as long as a request is outstanding its bytes belong to no unflushed frame and not to the partial frame |
| `StreamSubmit.SegmentsStayFree` | allwinner/libcedarc/vdecoder/vdecoder.c:958-1044 | in every run the segments of a request share no byte with an unflushed frame or the partial frame at any later step, whatever the consumer does in between |
| `StreamSubmit.FlushRangesAreTheFrame` | allwinner/libcedarc/vdecoder/vdecoder.c:1047-1070 | the flushed ranges are exactly the bytes of the frame on the ring |
| `StreamSubmit.SubmitFlushesFinishedFrames` | allwinner/libcedarc/vdecoder/vdecoder.c:1071-1253 | a submission by the producer rule flushes exactly the bytes of the frames it finishes |
| `StreamSubmit.SubmissionsFlushTheirFrames` | allwinner/libcedarc/vdecoder/vdecoder.c:1071-1253 | the same for every submission of every run; all bytes of every frame that it adds to the ring are flushed |
| `StreamSubmit.FramesAreDisjoint` | allwinner/libcedarc/vdecoder/sbm.c:508-569 | no byte belongs to two unflushed frames |
| `StreamSubmit.PartialIsDisjoint` | allwinner/libcedarc/vdecoder/vdecoder.c:1099-1173 | no byte belongs to a frame and the partial frame |
| `StreamSubmit.SubmitKeepsInv` | allwinner/libcedarc/vdecoder/vdecoder.c:1071-1253 | a submission by the producer rule keeps tiling, partial frame and room |
| `StreamSubmit.SubmitLosesNothingIffRoom` | allwinner/libcedarc/vdecoder/vdecoder.c:1155-1239 | a submission loses neither frame nor byte if and only if there is a FIFO slot for each frame it finishes |
| `StreamSubmit.SubmissionCanLoseAFrame` | allwinner/libcedarc/vdecoder/vdecoder.c:1155-1239 | a run by the rules of both sides whose last submission finishes two frames with one slot left, and loses one |
| `StreamSubmit.SubmitAssembles` | allwinner/libcedarc/vdecoder/vdecoder.c:1071-1253 | parts are assembled into frames as a simple grouping of parts says: bytes, first time stamp, address |
| `StreamSubmit.StreamInEveryRun` | allwinner/libcedarc/vdecoder/vdecoder.c:958-1253 | in every run the frames tile the ring and, unless slots ran out, flushed plus queued frames are the assembled ones |
| `Planes.CopySamples` | allwinner/libcedarc/vdecoder/pixel_format.c:695-704 | the two-loop copy moves every sample to its place and changes no other byte |
| `Tiles.CopyTileLine` | allwinner/libcedarc/vdecoder/pixel_format.c:113-143 | one clipped line of a tile |
| `Tiles.CopyTile` | allwinner/libcedarc/vdecoder/pixel_format.c:113-143 | one tile, with the lines below the picture skipped |
| `Tiles.Untile` | allwinner/libcedarc/vdecoder/pixel_format.c:41-145 | the moving-pointer walk over all tiles puts every sample where the tile index map says, and changes no other byte |
| `Tiles.SampleInTile` | allwinner/libcedarc/vdecoder/pixel_format.c:232-313 | the tile index map in closed form, also for two interleaved lanes and for every second line |
| `Pictures.ChromaPlanesFit` | allwinner/libcedarc/vdecoder/pixel_format.c:573-728 | in every linear format the chroma planes lie behind the luma plane, in half its size, and no byte holds two samples |
| `Pictures.LumaPlaneFits` | allwinner/libcedarc/vdecoder/pixel_format.c:586-593 | the luma samples are distinct bytes of the aligned plane |
| `PixelFormat.WholeTilesFit` | allwinner/libcedarc/vdecoder/pixel_format.c:67-108 | the tiles that are copied without clipping never reach past the row |
| `PixelFormat.UntileLuma` | allwinner/libcedarc/vdecoder/pixel_format.c:41-145 | the luma of the tiled picture is the luma of the result, for all sizes |
| `PixelFormat.UntilePair` | allwinner/libcedarc/vdecoder/pixel_format.c:316-440 | splits the interleaved chroma tiles onto two planes |
| `PixelFormat.UntileChroma` | allwinner/libcedarc/vdecoder/pixel_format.c:148-566 | the chroma of a 4:2:0 or 4:2:2 tiled picture is the chroma of the NV21 or YV12 result, for all sizes |
| `PixelFormat.OwnStrideIsPlaneStride` | allwinner/libcedarc/vdecoder/pixel_format.c:166-171 | the stride that the chroma routines work out for themselves is the stride of the chroma planes |
| `PixelFormat.CopyLuma` | allwinner/libcedarc/vdecoder/pixel_format.c:630-634 | the copied plane shows the same luma |
| `PixelFormat.CopyChroma` | allwinner/libcedarc/vdecoder/pixel_format.c:639-725 | between interleaved and planar formats every chroma sample is kept, odd sizes included |
| `PixelFormat.SwapChroma` | allwinner/libcedarc/vdecoder/pixel_format.c:650-659 | exchanging the two planes turns planar chroma into YV12 chroma |
| `PixelFormat.ConvertPixelFormat` | allwinner/libcedarc/vdecoder/pixel_format.c:573-728 | a supported pair of formats gives the same picture, any other pair leaves the bytes alone, and nothing is written behind the planes |
| `PixelFormat.SamePictureSameBytes` | allwinner/libcedarc/vdecoder/pixel_format.c:573-728 | in one linear format the same picture is the same visible bytes |
| `PixelFormat.RoutesAgree` | allwinner/libcedarc/vdecoder/pixel_format.c:601-725 | direct conversion and conversion through another format store the same visible bytes |
| `PixelFormat.RoundTrip` | allwinner/libcedarc/vdecoder/pixel_format.c:601-725 | NV21 to YV12 and back, or the reverse, is the identity on the visible bytes |
| `Rotation.TurnLuma` | allwinner/libcedarc/vdecoder/pixel_format.c:907-916 | the loops turn every luma sample and write nothing else |
| `Rotation.TurnChroma` | allwinner/libcedarc/vdecoder/pixel_format.c:918-970 | the loops turn the chroma samples they visit, planar or interleaved, and write nothing else |
| `Rotation.PlaneIndexIsTurned` | allwinner/libcedarc/vdecoder/pixel_format.c:913-1139 | the index expressions of the planar loops are the turned positions |
| `Rotation.PairIndexIsTurned` | allwinner/libcedarc/vdecoder/pixel_format.c:964-1160 | the index expressions of the interleaved loops are the turned positions |
| `Rotation.WrittenIndices` | allwinner/libcedarc/vdecoder/pixel_format.c:892-1180 | a turned picture holds, at every index the loops write, the byte they read for it |
| `Rotation.RotatePicture90Degree` | allwinner/libcedarc/vdecoder/pixel_format.c:892-988 | the result is the picture turned by 90 degrees; bytes that hold no sample of it are unchanged |
| `Rotation.RotatePicture180Degree` | allwinner/libcedarc/vdecoder/pixel_format.c:990-1082 | the result is the picture turned by 180 degrees |
| `Rotation.RotatePicture270Degree` | allwinner/libcedarc/vdecoder/pixel_format.c:1084-1180 | the result is the picture turned by 270 degrees |
| `Rotation.TurnsCompose` | allwinner/libcedarc/vdecoder/pixel_format.c:892-1180 | two rotations are the rotation by the summed angle, for all sizes and all nine pairs |
| `Rotation.FullTurnIsIdentity` | allwinner/libcedarc/vdecoder/pixel_format.c:892-1180 | for even sizes a full turn is the same picture |
| `Rotation.TurnedBack` | allwinner/libcedarc/vdecoder/pixel_format.c:892-1180 | for even sizes turning there and back restores the visible bytes |
| `Rotation.AllChromaTurnedIffEven` | allwinner/libcedarc/vdecoder/pixel_format.c:918-946 | the loops reach all visible chroma if and only if both sizes are even |
| `Rgb565.ClipTable` | allwinner/liballwinner/xplayer/awplayer.cpp:1691-1701 | the table holds the clamped value of every index |
| `Rgb565.ClipIndexInRange` | allwinner/liballwinner/xplayer/awplayer.cpp:1725-1747 | for arbitrary bytes every table index is in range |
| `Rgb565.Colour` | allwinner/liballwinner/xplayer/awplayer.cpp:1725-1747 | the colour looked up through the table is the clamped, packed colour |
| `Rgb565.PackedFields` | allwinner/liballwinner/xplayer/awplayer.cpp:1741-1747 | the packed fields read back as the top bits of the three colours |
| `Rgb565.BrighterLuma` | allwinner/liballwinner/xplayer/awplayer.cpp:1733-1740 | with truncating division, brighter luma never lowers a colour |
| `Rgb565.ByteIsCell` | allwinner/liballwinner/xplayer/awplayer.cpp:1714-1726 | the luma bytes are visited in storage order, each being the tile cell of its line and column |
| `Rgb565.ChromaIsCell` | allwinner/liballwinner/xplayer/awplayer.cpp:1722-1728 | the chroma pair found is the 4:2:0 cell of the pixel |
| `Rgb565.AddressInjective` | allwinner/liballwinner/xplayer/awplayer.cpp:1718-1751 | no two luma bytes share a target pixel, for any width |
| `Rgb565.RasterIffDivisible` | allwinner/liballwinner/xplayer/awplayer.cpp:1711-1751 | the pixels land in raster order if and only if the width is a multiple of 32 |
| `Rgb565.TransformTile` | allwinner/liballwinner/xplayer/awplayer.cpp:1718-1752 | one tile: the running position follows the target rows |
| `Rgb565.TransformPictureMb32ToRgb` | allwinner/liballwinner/xplayer/awplayer.cpp:1666-1754 | every target is written exactly once, others never, and for a width that is a multiple of 32 each pixel shows its own cells |
| `Rgb565.TransformWhole` | allwinner/liballwinner/xplayer/awplayer.cpp:1714-1754 | the four loops: one write per luma byte, at its address |
| `Rgb565.BlocksFollowLuma` | allwinner/liballwinner/xplayer/awplayer.cpp:1725-1748 | in a transformed picture any two pixels of a 2-by-2 chroma block are ordered as their luma, in each packed field |
| `ChargerMode.Booted` | allwinner/healthd/src/healthd_mode_charger.cpp:763-816 | the initial animation indexes a real frame |
| `ChargerMode.LevelFrameMatches` | allwinner/healthd/src/healthd_mode_charger.cpp:459-466 | the chosen start frame is the last one whose thresholds the level reaches |
| `ChargerMode.NextShownSkipsLevels` | allwinner/healthd/src/healthd_mode_charger.cpp:497-499 | the next frame skips exactly the level-only ones |
| `ChargerMode.UpdateScreenProgress` | allwinner/healthd/src/healthd_mode_charger.cpp:408-511 | an effective update stops the animation or uses up one of the remaining updates |
| `ChargerMode.StepProgress` | allwinner/healthd/src/healthd_mode_charger.cpp:408-675 | only effective updates and the first battery report move the counters |
| `ChargerMode.StepKeepsAnimation` | allwinner/healthd/src/healthd_mode_charger.cpp:408-675 | after any event the animation indexes a real frame |
| `ChargerMode.AnimationEnds` | allwinner/healthd/src/healthd_mode_charger.cpp:408-511 | under any events, before or after the first battery report, a run that never stops has fewer effective updates than remain, plus one whole animation if it contains the first report |
| `ChargerMode.FreshAnimationEnds` | allwinner/healthd/src/healthd_mode_charger.cpp:408-511 | a fresh animation stops within cycles times frames plus one effective updates, and once more as many if the first report restarts it |
| `ChargerMode.PowersOffIffUnpluggedForASecond` | allwinner/healthd/src/healthd_mode_charger.cpp:613-641 | a heartbeat powers off if and only if it and all heartbeats of the last second saw the charger disconnected |
| `ChargerMode.ShutdownRuleInEveryRun` | allwinner/healthd/src/healthd_mode_charger.cpp:613-656 | the same for every run from boot |
| `ChargerDevice.ChargerState.constructor` | allwinner/healthd/src/healthd_mode_charger.cpp:763-816 | the initial fields are `Booted` |
| `ChargerDevice.ChargerState.FindLevelFrame` | allwinner/healthd/src/healthd_mode_charger.cpp:462-466 | the search loop is `LevelFrame` |
| `ChargerDevice.ChargerState.StartCycle` | allwinner/healthd/src/healthd_mode_charger.cpp:452-473 | frame, capacity and display time at the start of a cycle |
| `ChargerDevice.ChargerState.Advance` | allwinner/healthd/src/healthd_mode_charger.cpp:493-510 | the loop over level-only frames is `FrameShown` |
| `ChargerDevice.ChargerState.ShowFrame` | allwinner/healthd/src/healthd_mode_charger.cpp:482-510 | one update: a blind wait without frames or capacity, otherwise the next frame |
| `ChargerDevice.ChargerState.UpdateScreenState` | allwinner/healthd/src/healthd_mode_charger.cpp:408-511 | the field updates are `UpdateScreen` |
| `ChargerDevice.ChargerState.HandlePowerSupplyState` | allwinner/healthd/src/healthd_mode_charger.cpp:613-641 | the field updates and the decision are `HandlePower` |
| `ChargerDevice.ChargerState.OnHeartbeat` | allwinner/healthd/src/healthd_mode_charger.cpp:643-656 | one heartbeat is one step of the machine |
| `ChargerDevice.ChargerState.OnBatteryUpdate` | allwinner/healthd/src/healthd_mode_charger.cpp:658-675 | one battery report is one step of the machine |

## Left out

- Two-stream and 3D sharing of a frame buffer manager: returning a picture of the second stream does not redirect to the first manager, so ownership does not close.
- The release path for externally allocated display buffers, with its release flags and with the places that set the tag in an id: it ignores the renderer's flag and does not lower the decoder's count.
- Null handles, the buffer-status wait loops and log output of the frame buffer manager.
- MessageQueueThreads.NoLostWakeUp: the timed semaphore wait is a wait that succeeds when it can; a timeout only returns to the caller and is not a step.
- Handshake.ParserExclusion: a source is only prepared when no cache thread exists, which is left to the caller, and allocating a cache node succeeds; waiting for the memory of a frame is modelled.
- Handshake.StepKeepsInv: the demux thread's own command queue, the player's answers, buffering decisions and what the parser returns are left open, so every outcome is covered but none is predicted.
- StreamCache.Cache.AddOneFrame: the data buffer that a node points to is part of the frame value; freeing it is not modelled.
- StreamBuffer.VideoDecoder.RequestVideoStreamBuffer: the check of the granted size against the partial length is omitted, because the grant is always larger; the statistics and the debug dumps are omitted.
- StreamBuffer.Sbm.ReturnStream: a process that aborts has no state afterwards.
- Tiles.Untile: a vector load and store is a copy of its bytes, the clipped and the unclipped tile loops are one clipped loop (`PixelFormat.WholeTilesFit`), and loops that fill two planes at once are one pass per plane.
- PixelFormat.ConvertPixelFormat: crop offsets, and padding beyond the visible samples.
- Rotation.RotatePicture90Degree: crop offsets (the bottom margin is computed from the top one); the rotation by 0 degrees, which is a copy with other alignments, and the hardware rotation.
- Rotation.RotatePicture270Degree: for NV21 and NV12 the caller presets the chroma pointer of the result.
- Rgb565.TransformPictureMb32ToRgb: the blanking of the border after the pixel loops; the 32-bit store of two pixels is two stores in little-endian order.
- ChargerDevice.ChargerState.OnHeartbeat: key timing, reboot, suspend requests and drawing; a released power key is an input.
- FbmProtocol.GiveBackPicture: that a tagged return removes the tag from the caller's picture is seen in the id of the caller's next call.
- The player's command and callback state machine: its status is written by several threads outside the mutex, and its transitions depend on a player library of which only headers are present.
- The recorder's encode and mux threads: they depend on encoder libraries that are not present, and stopping them defines no stopped state.
- Frame-rate control: rounding of floats decides its result.
- sysfs, event loop, camera, sound and network wrappers: they keep no state of their own between calls into the system.
