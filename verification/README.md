# Verification of the emulator gateway

Dafny models of the gateway's video stream, command scheduler, instance manager, command path
and the smaller pieces around them, with proofs about whole runs. Check everything with
`dafny verify dfyconfig.toml`.

## What is modelled

**The tile-delta stream, encoder to canvas.** A raw XRGB frame becomes a keyframe or a list of
changed tiles (`TileGrid`, `FirstTiles`, `StreamProtocol`), is wrapped in a 34-byte header that the
gateway and the dashboard both parse (`StreamParser`), is sent or dropped by a per-viewer sender
(`Broadcast`) or by the dashboard's shared one (`Dashboard`), and is painted (`Viewer`).
`WireFormat` and `SenderMessages` say in numbers what each message holds, and `WorkerStreams` follows
a worker's bytes to the pixels of the canvas.
`StreamDisplay` shows what one message does to a canvas, `StreamRuns` what a run does: the canvas
shows the last delivered frame. `KeyframeCadence` says when keyframes are produced, `StreamLimits`
when frames can be followed, `GeometryChanges` and `WorkerResizes` what happens when their size or
pitch changes. An index outside a buffer is a panic that ends the sender, and is modelled as
one. The codec is a pair of functions, assumed only to be inverse to each other where a theorem says
`Invertible`.

**The frame path before the stream.** `PixelConversion` (emulator formats to XRGB8888),
`FrameSocket` (packets between worker and gateway), `FrameHub`, `FrameHubRuns` and
`FrameHubProducers` (latest-value channels), `FramePacing` (the worker's clock).

**The command scheduler.** `Scheduler` is the step machine of one channel, five queues and a worker
with submissions between any two steps; `SchedulerRuns` has its run theorems; `SchedulerWorker` is
the loop itself, proved to be a run of that machine, so that the run theorems hold of it.

**Instance admission.** `InstanceAdmission` makes each lock-protected action a step of its own, for
any number of concurrent creates, destroys and reconstructions; `InstanceMoves` says what each action
changes and how calls end; `InstanceManager` holds the methods as they behave when a call runs alone.

**The command path.** `CommandText` (printer, validator, parser), `CommandMeanings` (what each text
means, letter by letter), `WorkerMemory` (RAM), and `CommandPath` (from HTTP arguments to memory and
back to text).

**The input log.** `InputLog`: one log per session, events pending and then ended.

Code that updates state in place is a class or a method with loops, proved against a specification
function; the run theorems are about those functions. Integer widths and truncating casts are
explicit (`Bytes.U16`, `Bytes.U32`); a lemma says when each of them bites.

Six things the proofs brought out:

- The encoder compares two frames with the current frame's geometry, and a delta never resizes the
  canvas. Deltas across a change of geometry show their frames if and only if no pixel moves: same
  width and height, and the same pitch unless there is at most one row or no column
  (`GeometryChanges.DeltasShownIff`). For every other pair of geometries there are two frames such
  that a fresh sender sends no tile for the second, and a viewer that gets both keeps the first,
  different picture (`GeometryChanges.GeometryChangeIsMissed`).
- A worker packs its rows and sends exactly four bytes a pixel, so for its frames only changes of
  size matter. If the picture does not get more pixels the change can be missed altogether
  (`WorkerResizes.ShrinkIsMissed`). If it grows so much that the last tile starts behind the previous
  buffer, every delta panics and the stream ends (`WorkerResizes.GrowthEndsStream`); otherwise some
  deltas get through and none of them shows its frame (`WorkerResizes.WorkerDeltasShownIff`). A
  change of pitch alone can only come from another producer on the frame socket. The next delivered
  keyframe repairs a canvas, whatever went wrong before (`StreamRuns.KeyframeRepairsCanvas`).
- On the dashboard, instances do not disturb each other's canvases whatever they send, with one
  exception: a frame of one instance that makes the encoder panic ends the streams of all of them
  (`Dashboard.PanicEndsAll`).
- A keyframe interval of 1 never forces a keyframe, because `x % 1 == 1` never holds; for larger
  intervals the one longer gap at the wrap of the 32-bit counter is characterised exactly
  (`KeyframeCadence.ForcedEveryK`, `KeyframeCadence.ForcedEveryKPlusOne`).
- A create that has inserted its instance but not released its reservation counts twice, so another
  create can be refused below the limit (`InstanceAdmission.RefusedBelowTheLimit`); the limit itself
  is never exceeded. A create that is cancelled after reserving leaks its reservation for ever and so
  lowers the effective limit by one (`InstanceAdmission.LeaksStay`, `AloneRefusedIffFull`).
- `push_frame` stamps a frame under one lock and sends it under another. Readers of an instance see
  increasing sequence numbers, however a run goes on, if and only if no push of the instance starts
  while another one is under way (`FrameHubProducers.IncreaseIffNoOverlap`); a single producer
  guarantees that.

The code and its documentation differ in two places, where the model follows the code.
`docs/stream-protocol.md` says that the dashboard ignores keyframe requests; the code honours them
there too, and on either endpoint a request only clears the cache for later viewers. It also lists
frame types 1 and 2; the gateway can send type 3 (H.264), which the dashboard rejects.

## Model

| member | source | states |
|---|---|---|
| TileGrid.GridPartitions | crates/streaming/src/protocol.rs:166-175 | Every visible pixel lies in exactly one tile of the ceil-divided, edge-clipped grid. |
| TileGrid.EmittedIffChanged | crates/streaming/src/protocol.rs:177-209 | A tile of the grid is emitted if and only if some visible pixel in it differs in one of its four bytes, and every emitted tile lies inside the frame. |
| TileGrid.PaintOrderIrrelevant | crates/streaming/src/protocol.rs:191-209 | Painting the same set of tiles in any order, with any repetition, gives the same canvas. |
| TileGrid.ChangedTilesPaintCurrent | crates/streaming/src/protocol.rs:158-209 | Painting the changed tiles over the picture of the previous frame gives the picture of the current one, for every pitch, size and tile size. |
| FirstTiles.TilesAreDisjoint | crates/streaming/src/protocol.rs:166-175 | No pixel lies in two of the emitted tiles. |
| FirstTiles.FirstTilesPaintCurrentIff | crates/streaming/src/protocol.rs:158-223 | Painting only the first n emitted tiles gives the current picture if and only if each of the others looks the same in both frames. |
| StreamProtocol.EncodeKeyframe | crates/streaming/src/protocol.rs:140-156 | Panics if and only if a colour byte of a visible pixel is missing; otherwise the payload inflates to the RGBA bytes of the visible picture: padding skipped, channels swapped, alpha 255. |
| StreamProtocol.TileChanged | crates/streaming/src/protocol.rs:177-188 | The early-exit comparison panics if and only if it reaches a pixel outside a buffer before any difference; otherwise it answers whether some pixel of the tile differs. |
| TileGrid.ReadableAddressable | crates/streaming/src/protocol.rs:158-209 | A delta that can be encoded without a panic has every colour byte of the current frame in its buffer. |
| TileGrid.WholeReadable | crates/streaming/src/protocol.rs:158-209 | Two buffers that hold every byte of every pixel can always be compared without a panic. |
| StreamProtocol.EncodeDelta | crates/streaming/src/protocol.rs:158-223 | Panics if and only if some tile is unreadable: a pixel outside a buffer with no difference before it, or a changed tile with a colour byte missing. Otherwise the payload is the deflated list of exactly the changed tiles of the grid, row by row, each with the pixels of the current picture under it, behind a 16-bit count. |
| StreamProtocol.WriteRecords | crates/streaming/src/protocol.rs:211-220 | The count is truncated to 16 bits, the records are not: all of them follow it. |
| StreamProtocol.EncodeStreamFrame | crates/streaming/src/protocol.rs:73-105 | The bytes are header, metadata and payload, with both lengths truncated to 32 bits. |
| StreamProtocol.HeaderFields | crates/streaming/src/protocol.rs:86-101 | Each header field can be read back, big-endian, at its offset, whatever follows the header. |
| StreamParser.EnvelopeRoundTrip | dashboard/src/stream.ts:43-85 | The dashboard recovers every field, the metadata and the payload of an encoded frame when both lengths are below 2^32, and otherwise rejects it for its length. |
| StreamParser.DecodersAgree | crates/streaming/src/protocol.rs:265-292 | The gateway's decoder returns the same metadata and payload under the same condition. |
| StreamParser.ParsersRelate | dashboard/src/stream.ts:43-107 | On arbitrary bytes: the dashboard accepts exactly what the gateway's decoder accepts with type 1 or 2, and they return the same payload and metadata. |
| StreamParser.PrefixRejected | crates/streaming/src/protocol.rs:265-292 | Both decoders reject every proper prefix of a frame. |
| StreamParser.ExtensionRejected | dashboard/src/stream.ts:71-76 | Both decoders reject every proper extension of a frame. |
| StreamParser.EnvelopeInjective | crates/streaming/src/protocol.rs:73-105 | Different keyframes or deltas, with lengths below 2^32, have different bytes. |
| StreamParser.H264Rejected | crates/streaming/src/protocol.rs:107-132 | The dashboard rejects a type-3 frame whatever it carries. |
| WireFormat.AcceptedIff | dashboard/src/stream.ts:43-76 | Exactly which bytes the dashboard accepts, in numbers: length, magic, format 2, type 1 or 2, and the two length words. |
| WireFormat.FieldsRead | dashboard/src/stream.ts:50-85 | At which offset, and in which byte order, each field of an accepted message stands. |
| WireFormat.RejectedFor | crates/streaming/src/protocol.rs:265-292 | The reason each decoder gives for a message it rejects. |
| WireFormat.FrameBytes | crates/streaming/src/protocol.rs:86-132 | The same for the bytes of an encoded frame of any type. |
| Viewer.Renderer.RenderKeyframe | dashboard/src/App.tsx:267-288 | Canvas and outcome after a keyframe, including short payloads, resizing and an ImageData size that does not match. |
| Viewer.Renderer.RenderDelta | dashboard/src/App.tsx:290-326 | Canvas and outcome after a delta, including early returns and exceptions that keep the tiles painted so far. |
| Viewer.KeyframeEffect | dashboard/src/App.tsx:267-288 | Exactly when a keyframe is painted, each pixel of the canvas then, and the unchanged or blank canvas otherwise. |
| Viewer.TileEffect | dashboard/src/App.tsx:306-325 | What a complete tile record does to each pixel: its four bytes inside the rectangle, nothing outside. |
| Viewer.PayloadRead | dashboard/src/stream.ts:87-96 | A payload is inflated exactly when its flag says so. |
| StreamDisplay.KeyframeDisplays | dashboard/src/App.tsx:267-288 | An encoded keyframe makes any canvas, of any size, show its frame. |
| StreamDisplay.DeltaConsumed | dashboard/src/App.tsx:290-326 | The viewer never returns early from an encoded delta and never throws; it paints the first tiles, as many as the truncated count says, and reads the payload to its last byte if and only if there are at most 65535. |
| StreamDisplay.DeltaReadsRecords | dashboard/src/App.tsx:306-325 | After k records the viewer stands exactly behind them and has painted exactly the first k tiles. |
| StreamDisplay.DeltaDisplaysIff | crates/streaming/src/protocol.rs:158-223 | An encoded delta turns the picture of the previous frame into the picture of the current one if and only if the tiles left out of the 16-bit count look the same in both. |
| Broadcast.EncodeFramePayload | crates/streaming/src/broadcast.rs:334-359 | A keyframe when forced or without a previous frame, else the delta to the previous frame; a panic exactly when that encoder panics. |
| Broadcast.InstanceStream.OnFrame | crates/streaming/src/broadcast.rs:139-206 | One turn of the sender: its three variables, the cache and the messages sent, for every combination of forced, delivered and dropped, and the end of the stream on a panic. |
| SenderMessages.TurnSends | crates/streaming/src/broadcast.rs:361-379 | What a turn sends: nothing, or a message that carries the frame's own sequence, time and size in their fields with the sender's index and tile size, and behind it the H.264 message of an instance that has one and a limit that admits it. |
| SenderMessages.HubTurnSends | crates/streaming/src/broadcast.rs:288-322 | The same for the dashboard, with the index of the arriving instance and no H.264. |
| SenderMessages.HubTurnIsOwnTurn | crates/streaming/src/broadcast.rs:275-322 | Every arrival of a listed instance is a turn of its own private sender. |
| SenderMessages.SentOrEnded | crates/streaming/src/broadcast.rs:381-397 | A frame is delivered exactly when its message fits the limit; the sender ends exactly on a frame it cannot encode. |
| SenderMessages.FirstFrameEncodableIff | crates/streaming/src/protocol.rs:140-156 | In numbers of width, height, pitch and buffer length, exactly when a first frame can be encoded. |
| SenderMessages.ValidConfigIff | crates/streaming/src/broadcast.rs:31-49 | Which configurations the senders are proved for; the default one is. |
| StreamRuns.TurnTouchesOwnCanvas | crates/streaming/src/broadcast.rs:139-206 | Whatever frame arrives, a turn repaints at most its own canvas, and none without a delivery. |
| StreamRuns.TurnKeepsInStep | crates/streaming/src/broadcast.rs:139-206 | A turn, delivered, dropped or ended by a panic, leaves the canvas showing the sender's previous frame. |
| StreamRuns.OtherCanvasesStay | crates/streaming/src/broadcast.rs:103-206 | Over every run no other canvas changes, whatever arrives. |
| StreamRuns.ViewerFollowsSender | crates/streaming/src/broadcast.rs:103-206 | From a delivered keyframe on, over any pattern of drops, the canvas shows the sender's previous frame, if the delivered frames from there on can be followed. |
| StreamRuns.KeyframeRepairsCanvas | crates/streaming/src/broadcast.rs:103-206 | After a run the canvas is the picture of the last delivered frame if the frames delivered from some delivered keyframe on can be followed; nothing is asked of what came before it. |
| StreamRuns.CanvasShowsLastDelivered | crates/streaming/src/broadcast.rs:103-206 | After every run whose delivered frames can be followed, the canvas is the picture of the last of them, whatever it showed at the start. |
| StreamRuns.NoDeltaBeforeKeyframe | crates/streaming/src/broadcast.rs:145-206 | Every delta the sender produces comes after a delivered live keyframe. |
| StreamRuns.NoPrevIffNoneDelivered | crates/streaming/src/broadcast.rs:173-204 | The sender has no previous frame if and only if nothing was delivered. |
| StreamRuns.PrevIsLastDelivered | crates/streaming/src/broadcast.rs:173-204 | The sender's previous frame is the last delivered one; a dropped keyframe does not become it. |
| KeyframeCadence.SenderState | crates/streaming/src/broadcast.rs:146-204 | The counter is the number of frames modulo 2^32; recovery is on exactly after a dropped delta. |
| KeyframeCadence.KeyframeIff | crates/streaming/src/broadcast.rs:145-160 | Exactly when frame i of a run is a keyframe, in terms of i and of earlier drops. |
| KeyframeCadence.DropForcesKeyframe | crates/streaming/src/broadcast.rs:196-203 | A dropped delta makes the very next frame a keyframe. |
| KeyframeCadence.ForcedEveryK | crates/streaming/src/broadcast.rs:146-147 | k consecutive frames hold a counter-forced keyframe, except the one window before the counter's wrap when 2^32 mod k is 1. |
| KeyframeCadence.ForcedEveryKPlusOne | crates/streaming/src/broadcast.rs:146-147 | k + 1 consecutive frames always hold one if and only if k is at least 2. |
| KeyframeCadence.KeyframeInEveryWindow | crates/streaming/src/broadcast.rs:145-204 | In any run the encoder gets through, any k + 1 consecutive frames include a keyframe, and any k do outside the window at the wrap. |
| TileGrid.SameViewSamePicture | crates/streaming/src/protocol.rs:177-199 | Under two geometries that put every visible pixel at the same place a buffer is the same picture. |
| StreamLimits.ConstantGeometrySuffices | crates/streaming/src/broadcast.rs:139-206 | Whole frames whose pixels stay in place, with at most 65535 tiles, never panic and can all be followed, whatever is dropped. |
| WorkerStreams.NeverEnds | crates/streaming/src/broadcast.rs:139-206 | A worker's stream of one size never panics, and all its delivered frames can be followed. |
| WorkerStreams.PixelsShown | crates/streaming/src/broadcast.rs:103-206 | After any run of it, with any drops, every pixel of the canvas has the red, green and blue of the four bytes at 4*(y*w+x) of the last delivered frame. |
| GeometryChanges.NewSizeNotShown | dashboard/src/App.tsx:290-326 | After a change of size no delta shows its frame. |
| GeometryChanges.DeltaShowsIff | crates/streaming/src/protocol.rs:158-223 | For any delta across no change of pitch alone: it shows its frame if and only if no pixel has moved and the tiles left out of the count look the same. |
| GeometryChanges.TwoFrameRun | crates/streaming/src/broadcast.rs:139-206 | For every keyframe interval the second frame of a fresh sender is a delta; if both are delivered the viewer shows what it makes of the first, and a panic ends the stream. |
| GeometryChanges.DeltasShownIff | crates/streaming/src/protocol.rs:158-223 | All deltas that follow a keyframe of one geometry with a frame of another show their frames if and only if width and height agree and the pitches do, or there is at most one row or no column. |
| WorkerResizes.WorkerDeltasShownIff | src/bin/worker.rs:115-121 | For frames as the worker sends them: all deltas that are sent show their frames if and only if the size has not changed, or the last tile starts behind the previous buffer so that none is ever sent. |
| WorkerResizes.GrowthEndsStream | crates/streaming/src/protocol.rs:177-188 | In the latter case every delta between the two sizes panics, whatever the frames show, and ends the stream. |
| WorkerStreams.WorkerFrameIff | src/bin/worker.rs:115-121 | In numbers, which frames are a worker's. |
| WorkerResizes.ShrinkIsMissed | crates/streaming/src/protocol.rs:177-188 | For every change to a size with no more pixels, two worker frames for which no tile is sent, so that a viewer that gets both keeps the first picture. |
| GeometryChanges.GeometryChangeIsMissed | crates/streaming/src/protocol.rs:158-188 | For every other pair of encodable geometries, two frames and a fresh sender that sends no tile for the second, so that a viewer that gets both keeps a different picture. |
| StreamLimits.KeyframeShowsIffSizeFits | crates/streaming/src/broadcast.rs:361-389 | A keyframe shows its frame if and only if width and height fit their 16-bit header fields. |
| Dashboard.HubRefinesSenders | crates/streaming/src/broadcast.rs:283-325 | A step of the shared loop is a step of that instance's own private sender and changes no other instance's variables, except that a panic ends them all. |
| Dashboard.DashboardStream.OnFrame | crates/streaming/src/broadcast.rs:283-322 | One changed receiver: the three maps, the cache and the messages, and the end of the stream on a panic. |
| Dashboard.DashboardFollowsInstance | crates/streaming/src/broadcast.rs:269-325 | With distinct indices, from a delivered keyframe of an instance on, its canvas shows its entry of `prev_frames` if its own delivered frames can be followed, whatever the other instances send. |
| Dashboard.HubPrevIsLastDelivered | crates/streaming/src/broadcast.rs:309-322 | That entry is the last frame of the instance that was delivered. |
| Dashboard.HubKeyframeFirst | crates/streaming/src/broadcast.rs:283-322 | Every delivered frame of an instance is, or comes after, a delivered live keyframe of it. |
| Dashboard.KeyframeRepairsInstance | crates/streaming/src/broadcast.rs:269-325 | The canvas of an instance is the picture of its last delivered frame if its own frames can be followed from one of its delivered keyframes on. |
| Dashboard.DashboardShowsLastDelivered | crates/streaming/src/broadcast.rs:269-325 | After every run, the canvas of an instance whose delivered frames can all be followed is the picture of the last of them, whatever the others send. |
| Dashboard.NonInterference | crates/streaming/src/broadcast.rs:269-325 | An arrival of one instance, whatever frame it brings, changes no other instance's canvas or variables; it ends their streams exactly when it makes the encoder panic. |
| Dashboard.PanicEndsAll | crates/streaming/src/broadcast.rs:283-325 | After a panic on a frame of any instance nothing is sent for any of them. |
| Dashboard.IndicesDistinctIff | crates/gateway/src/lib.rs:479-495 | The map of one-byte indices built from a list of ids tells the instances apart if and only if there are at most 256. |
| PixelConversion.ExpansionFaithful | src/bin/worker.rs:249-255 | The shift-and-or of every 5-bit and 6-bit value is what the model's `Expand5` and `Expand6` give. |
| PixelConversion.ColoursKept | src/bin/worker.rs:229-255 | Two source pixels look the same if and only if they are the same, up to the unused top bit of the 5-5-5 format. |
| PixelConversion.ColoursFromBytes | src/bin/worker.rs:229-247 | Red, green and blue of a source pixel from its two or four bytes, in numbers. |
| PixelConversion.PackedAccepted | src/bin/worker.rs:207-212 | A buffer with packed rows and no byte to spare is converted. |
| PixelConversion.ConvertRow | src/bin/worker.rs:229-247 | The row loops append the four output bytes of every source pixel of the row, in order. |
| PixelConversion.ConvertVideoFrame | src/bin/worker.rs:196-227 | Refused if and only if a row of 2 or 4 bytes a pixel exceeds the pitch or height*pitch the buffer; otherwise the bytes of a picture in which pixel (row, col) comes from row*pitch + col*bytes alone. |
| PixelConversion.OutputAddressable | src/bin/worker.rs:115-121 | The converted buffer has exactly 4*width*height bytes and can be indexed with the announced pitch of 4*width. |
| PixelConversion.SourceToScreen | src/bin/worker.rs:196-255 | The picture the stream shows of the converted frame has, everywhere, the expanded red, green and blue of the source pixel, opaque. |
| PixelConversion.SourceToCanvas | dashboard/src/App.tsx:267-288 | A keyframe of the converted frame makes any canvas show those colours. |
| FrameSocket.FrameConnection.SendFrame | crates/ipc/src/transport.rs:186-195 | Field by field, the packet's bytes are appended to the stream. |
| FrameSocket.FrameConnection.RecvFrame | crates/ipc/src/transport.rs:197-237 | The packet or the error, and what is left of the stream. |
| FrameSocket.PacketRoundTrip | crates/ipc/src/transport.rs:186-237 | A packet is received as sent, leaving what follows it, if and only if its data is at most 64 MiB. |
| FrameSocket.StreamRoundTrip | crates/ipc/src/transport.rs:186-237 | Receiving repeatedly from the concatenation of packets returns exactly those packets if and only if each holds at most 64 MiB. |
| FrameSocket.CutStream | crates/ipc/src/transport.rs:197-237 | A stream cut anywhere yields the complete packets before the cut and never a partial one. |
| FrameSocket.TooLargeRefused | crates/ipc/src/transport.rs:223-225 | A header is refused for its size if and only if it announces more than 64 MiB, and the size is reported. |
| FrameHub.FrameHub.PushFrame | crates/streaming/src/frame_hub.rs:54-69 | The sequence counter advances even without a channel; the stamped frame replaces the channel's value. |
| FrameHub.FrameHub.RegisterInstance | crates/streaming/src/frame_hub.rs:42-47 | A new empty channel and a counter of 0; the old channel stays with its readers. |
| FrameHub.FrameHub.Subscribe | crates/streaming/src/frame_hub.rs:71-74 | A reader of the registered channel that has seen everything so far, or none. |
| FrameHubRuns.StepKeepsInv | crates/streaming/src/frame_hub.rs:42-74 | Under any interleaving of producers, readers and registrations, a channel holds the last frame sent to it and each reader's log is a selection of the frames sent, in order and without repeats. |
| FrameHubRuns.PushArrives | crates/streaming/src/frame_hub.rs:54-69 | A push makes the very frame that was pushed, with only its number set to one more, the newest of its instance's channel, and touches no other. |
| FrameHubRuns.SubscribersSeeNewFrames | crates/streaming/src/frame_hub.rs:71-74 | Over every run a reader gets only frames that were sent after it subscribed. |
| FrameHubRuns.UnregisteredIsSilent | crates/streaming/src/frame_hub.rs:49-52 | After an instance is unregistered, nobody can subscribe to it and its pushes reach nobody. |
| FrameHubRuns.UnregisteredStartsOver | crates/streaming/src/frame_hub.rs:49-58 | ...and its next push is number 1 again. |
| FrameHub.FrameReceiver.BorrowAndUpdate | crates/streaming/src/broadcast.rs:143 | The channel's current value, which is then marked as seen. |
| FrameHubProducers.RunKeepsNumbered | crates/streaming/src/frame_hub.rs:54-69 | While pushes of an instance do not overlap, the frames on its channel are numbered 1, 2, 3, ..., with at most the next one between the two locks. |
| FrameHubProducers.ReaderSeesNewest | crates/streaming/src/frame_hub.rs:42-74 | From the registration of an instance in any run, while its pushes do not overlap: each reader observes strictly increasing sequence numbers, and the gap between two consecutive ones, minus one, is the number of overwritten frames. |
| FrameHubProducers.ReadIsNewest | crates/streaming/src/frame_hub.rs:54-74 | A read returns the frame sent last, numbered by the counter or by one less while the next push is between the locks. |
| FrameHubProducers.OverlapReadInSendOrder | crates/streaming/src/frame_hub.rs:54-69 | In any reachable state, two pushes of one instance that are under way together can reach a reader in either order. |
| FrameHubProducers.IncreaseIffNoOverlap | crates/streaming/src/frame_hub.rs:42-74 | From the registration of an instance in any run: its readers see increasing numbers, however the run goes on, if and only if no push starts while another one is under way. |
| FrameHubProducers.CrossingProducers | crates/streaming/src/frame_hub.rs:54-69 | The smallest run in which two overlapping pushes make a reader see 2 and then 1. |
| FramePacing.Pacer.ScheduleNextFrameSleep | src/bin/worker.rs:257-270 | The next deadline and the sleep: until the deadline if it is ahead, none if it is behind, and a deadline more than one frame behind is reset to now. |
| FramePacing.NeverAhead | src/bin/worker.rs:350-372 | After N iterations the clock has reached the deadline, which is at least N frames after the start. |
| FramePacing.SleepAtMostOneFrame | src/bin/worker.rs:257-270 | No sleep is longer than one frame. |
| FramePacing.DeadlineFollowsClock | src/bin/worker.rs:257-270 | The deadline is at most one frame behind the clock reading it was made from. |
| FramePacing.DeadlineExactIff | src/bin/worker.rs:257-270 | The deadline after N iterations is start + N*d if and only if no clock reading was more than one frame late. |
| FramePacing.SteadyRate | src/bin/worker.rs:350-372 | A worker that never works longer than one frame, with exact sleeps, ends iteration N exactly N frames after the start. |
| FramePacing.BurstsAreBounded | src/bin/worker.rs:350-372 | Between iterations i and j the loop runs at most one frame more than the elapsed time allows. |
| Scheduler.StepKeepsInv | crates/mgba/src/scheduler.rs:156-206 | Every step, of the worker or a client, conserves the commands, keeps each priority in submission order and keeps the queues bounded. |
| SchedulerRuns.SchedulerSafety | crates/mgba/src/scheduler.rs:156-206 | In every reachable state: submitted = executed + rejected + in hand + queued + in the channel as multisets; per priority, in submission order with only rejected commands removed; queues and channel within capacity. |
| SchedulerRuns.RejectedIffQueueFull | crates/mgba/src/scheduler.rs:188-195 | A received command is rejected if and only if the queue of its priority holds its capacity, at least one; otherwise it joins the end. |
| SchedulerRuns.SubmittableIff | crates/mgba/src/scheduler.rs:104-118 | A submission is possible exactly while the channel is open and holds fewer than five times the capacity, or none for capacity 0. |
| SchedulerRuns.NoOvertaking | crates/mgba/src/scheduler.rs:163-179 | While a command sits in a queue, every command selected is of strictly better priority, or of the same priority and submitted earlier. |
| SchedulerRuns.StraightFromChannel | crates/mgba/src/scheduler.rs:163-175 | A command is taken straight from the channel only when all five queues are empty. |
| SchedulerRuns.AnsweredExactlyOnce | crates/mgba/src/scheduler.rs:156-206 | When the worker returns, every submitted command was executed or rejected exactly once, and nothing else was. |
| SchedulerWorker.WorkerLoop.PopNext | crates/mgba/src/scheduler.rs:199-206 | The head of the first non-empty queue, which loses it; the other queues are unchanged. |
| SchedulerWorker.WorkerLoop.ReceiveOne | crates/mgba/src/scheduler.rs:188-195 | A received command joins the back of its priority's queue, or is rejected when that queue is full. |
| SchedulerWorker.WorkerLoop.DrainAvailable | crates/mgba/src/scheduler.rs:182-197 | Whatever arrives meanwhile, draining is a sequence of steps of the machine that ends with an empty channel. |
| SchedulerWorker.WorkerLoop.RunWorker | crates/mgba/src/scheduler.rs:156-180 | For any traffic of the clients, the loop's work is a run of the machine: what it was given is conserved and kept in order per priority, and when it returns every command was answered exactly once. |
| SchedulerWorker.WorkerLoop.Turn | crates/mgba/src/scheduler.rs:162-179 | A turn of the loop is a sequence of steps of the machine that executes one command, or returns when nothing is left. |
| InstanceAdmission.StepKeepsInv | crates/instances/src/lib.rs:119-222 | Each lock-protected action keeps the counter exact and the stale count read under the mutex safe. |
| InstanceMoves.InstancesChange | crates/instances/src/lib.rs:119-222 | In every run an insert adds exactly the spawned instance, a removal takes out exactly its own, a clear leaves none, and no other action changes them. |
| InstanceMoves.DestroyRemoves | crates/instances/src/lib.rs:175-186 | The removal of a destroy called for an instance removes exactly that one. |
| InstanceMoves.FindOutcome | crates/instances/src/lib.rs:176-182 | A destroy ends as not found exactly when its instance is not tracked. |
| InstanceMoves.CreateOutcome | crates/instances/src/lib.rs:119-173 | A create ends as created exactly when it inserted, and with an error exactly when the backend failed. |
| InstanceMoves.DestroyOutcome | crates/instances/src/lib.rs:175-186 | A destroy ends as destroyed exactly when it removed its instance, and as failed exactly when the stop failed. |
| InstanceMoves.CreateAlone | crates/instances/src/lib.rs:119-173 | The actions of a create that runs alone do what `create` returns to its caller, for a refusal, a success and a failure. |
| InstanceMoves.DestroyAlone | crates/instances/src/lib.rs:175-186 | The same for a destroy. |
| InstanceMoves.ReconstructAlone | crates/instances/src/lib.rs:215-222 | The same for a reconstruction. |
| InstanceAdmission.CapNeverExceeded | crates/instances/src/lib.rs:119-173 | Under every interleaving, with calls cancelled at any await, tracked instances plus creates that may still insert never exceed the limit. |
| InstanceAdmission.PendingIsExact | crates/instances/src/lib.rs:119-173 | The counter is the number of reservations held or leaked by a cancelled create; it never underflows, and with no create under way it is the number of leaks. |
| InstanceAdmission.LeaksStay | crates/instances/src/lib.rs:123-130 | A leaked reservation is never released. |
| InstanceMoves.CancellableIff | crates/instances/src/lib.rs:119-222 | A call can be cancelled exactly where it waits for a lock or the backend. |
| InstanceMoves.CancelledCreate | crates/instances/src/lib.rs:123-163 | A create cancelled while the backend works leaves the counter raised; one cancelled while it holds the mutex lets go of it. |
| InstanceAdmission.RefusedIff | crates/instances/src/lib.rs:123-130 | Exactly when a create is refused under concurrency. |
| InstanceAdmission.AloneRefusedIffFull | crates/instances/src/lib.rs:123-130 | A create that counts while no other one is under way is refused if and only if the limit, lowered by one for every leak, is reached then, whatever calls move before it reserves. |
| InstanceAdmission.RefusedBelowTheLimit | crates/instances/src/lib.rs:166-171 | A run in which a create is refused although one more instance would fit. |
| InstanceManager.Manager.Create | crates/instances/src/lib.rs:119-173 | The result in all three cases, the new map, a counter that is back where it was, and the limit kept. |
| InstanceManager.Manager.Destroy | crates/instances/src/lib.rs:175-186 | Removes the instance only when it is known and the backend stopped it. |
| InstanceManager.Manager.DestroyAll | crates/instances/src/lib.rs:188-205 | Goes on after failures: exactly the instances that could not be stopped remain, and it succeeds if and only if none does. |
| InstanceManager.Manager.Reconstruct | crates/instances/src/lib.rs:215-222 | Forgets everything if and only if the listing and every stop succeed; else nothing changes. |
| CommandText.FormatMessage | crates/mgba/src/protocol.rs:6-17 | The message is the name and the arguments joined by commas, then the marker. |
| CommandText.SplitJoins | crates/gateway/src/lib.rs:671-676 | Splitting at commas loses nothing: joining the parts gives the text back. |
| CommandText.FormatRoundTrip | crates/mgba/src/protocol.rs:6-17 | Stripping the marker and splitting gives name and arguments back if and only if none holds a comma. |
| CommandText.AccumulateIsValue | crates/mgba/src/ipc_transport.rs:122-128 | Checked accumulation of digits finds the number they denote if and only if it fits the integer type. |
| CommandMeanings.DigitIs | crates/mgba/src/ipc_transport.rs:122-128 | The value of every digit, decimal and hexadecimal in either case. |
| CommandText.ParseAccepted | crates/mgba/src/ipc_transport.rs:122-128 | An argument the validator calls numeric parses to its number if and only if it is below 2^32. |
| CommandText.ValidatorParserAgree | crates/gateway/src/lib.rs:671-741 | Every accepted message parses to the command its arguments denote; parsing fails exactly when a number does not fit, and an overflowing hold duration becomes 15. |
| CommandText.EndpointRunsItsOwnCommand | crates/gateway/src/lib.rs:671-741 | No argument an endpoint formats can change which command runs: an accepted message is that command on exactly the caller's arguments. |
| CommandMeanings.AcceptedIff | crates/gateway/src/lib.rs:671-747 | Exactly which texts the validator accepts, letter by letter: names, number of arguments, digits and buttons. |
| CommandMeanings.PlainMeanings | crates/mgba/src/ipc_transport.rs:89-100 | What the commands without arguments make the worker do. |
| CommandMeanings.SlotMeanings | crates/mgba/src/ipc_transport.rs:91-98 | Saving and loading name the slot; a slot of 256 or more fails. |
| CommandMeanings.ButtonMeanings | crates/mgba/src/ipc_transport.rs:100-115 | A tap names its button; a hold always parses and lasts 15 frames without a duration that fits. |
| CommandMeanings.ReadMeanings | crates/mgba/src/ipc_transport.rs:52-64 | Reads carry address and length; a number that does not fit 32 bits fails. |
| CommandMeanings.WriteMeanings | crates/mgba/src/ipc_transport.rs:65-88 | Writes carry the address and the low one, two or four bytes of the value, lowest first. |
| CommandMeanings.UpperCasePrefix | crates/mgba/src/ipc_transport.rs:122-128 | The parser also takes 0X, which the validator does not. |
| CommandMeanings.Rejections | crates/gateway/src/lib.rs:671-690 | The reason for a missing terminator or an unknown name. |
| CommandMeanings.MissingArguments | crates/gateway/src/lib.rs:680-729 | The reason for each missing argument. |
| CommandMeanings.UnknownName | crates/mgba/src/ipc_transport.rs:116-117 | Any other name is not a command. |
| WorkerMemory.Core.ReadMemory | src/bin/worker/core.rs:83-100 | The bytes of the range, or the error for a missing RAM, an overflow or a range outside it. |
| WorkerMemory.Core.WriteMemory | src/bin/worker/core.rs:102-121 | Exactly the addressed bytes are replaced, or nothing on an error. |
| WorkerMemory.BytesRead | src/bin/worker/core.rs:83-100 | A read at k, or at 0x02000000 + k, returns the bytes from k on, and fails exactly when they are not all there. |
| WorkerMemory.BytesWritten | src/bin/worker/core.rs:102-121 | A write there replaces exactly those bytes, and fails exactly when they are not all there. |
| WorkerMemory.ReadAfterWrite | src/bin/worker/core.rs:83-121 | A read through any alias of the address returns what was written. |
| WorkerMemory.WriteIsLocal | src/bin/worker/core.rs:102-121 | A write leaves the result of reading any disjoint range unchanged. |
| WorkerMemory.DisjointIff | src/bin/worker/core.rs:180-199 | Two non-empty ranges count as disjoint if and only if no byte of RAM lies in both. |
| WorkerMemory.AliasesIff | src/bin/worker/core.rs:180-199 | Two addresses name the same byte if and only if they are equal or one is the absolute form of the other, an offset below the base. |
| CommandPath.ServeOn | src/bin/worker/core.rs:83-121 | The response to a memory command and the RAM after it, with the error for a core without RAM. |
| CommandPath.WriteThenRead | src/bin/worker/core.rs:83-121 | After a write that fits, a later read of the same bytes through any alias returns them, if no write in between touches them. |
| CommandPath.LastWriteRead | src/bin/worker/core.rs:83-121 | In any run of memory commands a read returns the data of the last write to its bytes, whatever was there before. |
| CommandPath.Write8Read8 | crates/mgba/src/ipc_transport.rs:65-72 | From text to text: the reply to a later read8 is the written value modulo 256, in decimal. |
| CommandPath.Write16Read16 | crates/mgba/src/ipc_transport.rs:73-80 | The same for 16 bits: the value modulo 65536, in decimal. |
| CommandPath.Write32ReadRange | crates/mgba/src/ipc_transport.rs:81-88 | The same for 32 bits: the reply to a range read of 4 is the value's little-endian bytes in hex. |
| CommandPath.MemoryReplies | crates/mgba/src/ipc_transport.rs:130-158 | The text of the reply to a write, and to memory commands outside RAM. |
| CommandPath.DecimalDenotes | crates/mgba/src/ipc_transport.rs:134-139 | The decimal text of a reply denotes the number it was printed from. |
| CommandPath.HexAt | crates/mgba/src/ipc_transport.rs:140-143 | Byte i of a hex reply is its i-th pair of digits. |
| CommandPath.HexByteDenotes | crates/mgba/src/ipc_transport.rs:140-143 | A pair of hex digits denotes its byte. |
| InputLog.InputLogBus.BeginInput | crates/streaming/src/input_log.rs:62-86 | The event is pending in its session, which is created if need be; nothing else changes. |
| InputLog.InputLogBus.FinalizeInput | crates/streaming/src/input_log.rs:98-120 | The first session in iteration order that holds the event moves it from pending to recent and publishes it. |
| InputLog.HolderIsOwner | crates/streaming/src/input_log.rs:98-120 | In every reachable state only the session an event was begun in can hold it. |
| InputLog.EventInOnePlace | crates/streaming/src/input_log.rs:62-120 | After every run an event that was begun is pending in its own session or ended exactly once, never both, and pending nowhere else. |
| InputLog.RecentIsNewest | crates/streaming/src/input_log.rs:111-128 | After every run, `recent` of a session is the newest hundred of its ended events in order, and all of them were published. |
| InputLog.EndedEventsKeepTheirData | crates/streaming/src/input_log.rs:98-120 | Every ended event is the one begun under that identifier, with only its outcome filled in. |
| InputLog.OneInput | crates/streaming/src/input_log.rs:62-120 | The shortest run: an input that begins and ends is its session's one recent event. |
| InputLog.SubscribeOpens | crates/streaming/src/input_log.rs:130-136 | Subscribing makes a session known and changes no other. |
| InputLog.BeginRecords | crates/streaming/src/input_log.rs:62-86 | A begun event is recorded field by field as it was asked for. |
| InputLog.EndingRecords | crates/streaming/src/input_log.rs:98-120 | Ending a pending event records the outcome field by field as the newest entry of its own session, leaves its other fields as they were, and touches no other session. |
| InputLog.OrderIrrelevant | crates/streaming/src/input_log.rs:98-120 | The iteration order does not matter, and ending an event has an effect if and only if it was begun and has not ended. |

## Left out

- Deflate and inflate (RFC 1951), JSON metadata, UUIDs, wall clocks: a pair of functions, opaque bytes, fresh identifiers and arbitrary numbers.
- Inflation that finishes out of order in the browser: messages are painted in arrival order.
- What exactly a viewer shows between a frame it cannot follow and the next delivered keyframe.
- Products that overflow 32 bits in the encoder: the model ends the stream, as a build with overflow checks does; a build without them wraps.
- The contents of cached keyframes replayed before the live loop: the run theorems start from arbitrary canvases instead, and nothing is claimed about the index inside a replayed entry.
- The H.264 encoder: its output is an arbitrary byte string per frame. Metrics, timestamps, traces and logging.
- The handling of viewer control messages (keyframe requests, metrics).
- A connection that breaks in the middle of a send: the stream task ends there, and the theorems hold of the run up to it.
- Overflow of the 64-bit sequence counter of the frame hub, and `usize` overflow in the pixel conversion, which needs buffers beyond 2^60 bytes.
- The order in which a dashboard polls its receivers is not modelled; arrivals interleave arbitrarily.
- Closing of a hub channel whose sender is dropped, and of the scheduler's response channels.
- Command timeouts and transport errors in the scheduler: `execute` answers the command either way, and what it answers is not part of the model.
- InstanceManager.Manager.Create: runs alone; interleavings with other calls are the subject of `InstanceAdmission`. Health checks and stale-socket clean-up are left out.
- CommandPath.WriteThenRead: no emulated frame runs between the write and the read; in the worker the game may overwrite RAM meanwhile. Save states, reset and button input are parsed but not executed.
- PixelConversion.ConvertRow: the source reads two-byte pixels in native byte order; the model is a little-endian machine.
- Units of time: clock readings and sleeps are naturals in one unit; the frame duration is any number of them.
- HTTP and WebSocket routing, authentication, configuration parsing, process spawning, sockets, libretro calls, React state and styling.
