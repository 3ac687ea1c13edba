# Verified models of gst-plugins-rs

A Dafny 4.11 project that models seven pieces of logic of gst-plugins-rs and proves what they promise.
`dafny verify dfyconfig.toml` checks all of it.

- **Demucs source separation** (`OverlapAdd`, `DemucsProtocol`, `SessionInvariant`, `DemucsSession`,
  `DemucsParameters`, `MessageFlow`, `DemucsService`). A session cuts its input into overlapping windows, a thread pool runs a network on
  them in any order, and complete output blocks are sent as weighted averages. `OverlapAdd` gives the meaning
  (overlap-add of the whole input), `DemucsProtocol` the steps and all runs of them, `DemucsSession.Session`
  the code with its loops, and `DemucsService` the parameter checks and the back-pressure of the websocket
  service.
- **Minus-1 mixer** (`MixConfig`, `MultiMixer`, `Splitter`, `Minus1Sums`, `Minus1Mixer`). Streams come and go;
  inputs are added into one wide interleaved buffer that carries a layout; a splitter cuts it up by that
  layout. Output `k` is the sum of all other inputs.
- **Thread-sharing data queue** (`QueueLevels`, `DataQueue`). Cached levels, three limits, three leak
  policies, a consumer that parks on an abortable future.
- **HLS playlist** (`HlsPlaylist`). A sliding window of segments, inherited init maps, numbering, deletion of files.
- **QUIC integers** (`QuicVarint`, section 16 of RFC 9000), the **cancellable wait** of the QUIC elements
  (`QuicWait`), and the **DASH segment timeline** compression (`DashTimeline`, section 5.3.9.6 of ISO/IEC 23009-1).

Objects that the code updates in place are classes. Each method is one critical section of the code (or a
loop inside one), and its contract ties the new state to a function of the old one; `Valid` is the invariant
that every step keeps, so it holds over every interleaving of steps. Threads, futures and the network are
not modelled beyond that: which step comes next is arbitrary.

Three promises turn out not to hold without a condition, and the condition is proved to be exact:

- A demucs session in which every window completes ends (sends its empty message) if and only if some
  window was still being processed when the terminator was queued, because queuing the terminator does not
  run the output loop (`DemucsProtocol.DrainsIff`). Every input has a run that never ends
  (`DemucsProtocol.CanHang`) and every non-empty input one that does (`DemucsProtocol.CanEnd`); a session
  without input never ends (`DemucsProtocol.EmptySessionNeverEnds`).
- Closing an HLS playlist raises every segment's number by one unless the playlist has a type by then
  (`HlsPlaylist.Context.Close`). With file deletion on, no listed segment has lost its file after an added
  segment was written if and only if there are at most `max-files` segments or
  `0 < playlist-length <= max-files` (`HlsPlaylist.Context.FilesKeptIff`); under any other setting segment
  `max-files + 1` deletes a listed file (`HlsPlaylist.ListedFileLost`).
- Resetting the canceller of the QUIC elements and then waiting leaves at most one future in flight if and
  only if the reset found no cancelled wait still in flight (`QuicWait.ResetThenBegin`). Otherwise, from every
  such state, two futures are in flight (`QuicWait.ResetTooEarly`) and the next abort can miss the second one
  (`QuicWait.AbortMissed`).

The comment on `update_playlist_state` says that playlists with a type are trimmed; the code trims those
without one, and the model follows the code.

## Model

| member | source | states |
|---|---|---|
| OverlapAdd.WeightsShape | audio/demucs/service/session.py:128-129 | the window weights form a symmetric triangle, positive and at most one, that reaches one |
| OverlapAdd.Setup.WindowAt | audio/demucs/service/session.py:214-226 | a window holds the input from its start on and zeros behind the end of the input |
| OverlapAdd.Setup.AverageOver | audio/demucs/service/session.py:355-402 | any run of windows that holds all windows covering a position has positive total weight there and gives the average over all windows |
| OverlapAdd.Setup.OneWindow | audio/demucs/service/session.py:363-402 | where one window alone covers a position, its output is kept as it is |
| OverlapAdd.Setup.TwoWindows | audio/demucs/service/session.py:363-402 | where two windows overlap, their outputs are averaged by the weights of the position in each |
| OverlapAdd.Setup.IdentityOutput | audio/demucs/service/session.py:363-402 | if the network reproduces a component of its input, the overlap-add is that component of the input |
| OverlapAdd.BlocksArePrefix | audio/demucs/service/session.py:378-408 | the first `j` output blocks hold exactly the first `min(j*C, N)` samples in order, and none of them is empty |
| OverlapAdd.Setup.BlocksStable | audio/demucs/service/session.py:321-345 | output that depends only on complete windows is not changed by further input |
| DemucsProtocol.StepKeepsInv | audio/demucs/service/session.py:200-262 | every step keeps the protocol invariant; when the terminator is queued exactly `ceil(N/S)` windows exist |
| DemucsProtocol.StepGrowsLog | audio/demucs/service/session.py:316-434 | no step retracts or changes anything already sent |
| DemucsProtocol.RunSafe | audio/demucs/service/session.py:175-434 | over every run the invariant holds and what was sent is a prefix of what is sent later |
| DemucsProtocol.RunOutput | audio/demucs/service/session.py:316-434 | in every reachable state the samples sent are the first `min(j*C, N)` of the overlap-add of the input; the only empty message is the last one of a drained session |
| DemucsProtocol.DrainedOutput | audio/demucs/service/session.py:316-434 | a drained run has sent the whole overlap-add, and two drained runs on the same input send the same messages, whatever the pushes and the order of completions |
| DemucsProtocol.IdentityRun | audio/demucs/service/session.py:316-406 | with a reproducing network a drained run returns the input unchanged, sample by sample |
| DemucsProtocol.DrainsLater | audio/demucs/service/session.py:411-434 | with unfinished windows behind the terminator, the last completion drains the session |
| DemucsProtocol.StuckForever | audio/demucs/service/session.py:240-250 | with no unfinished window behind the terminator, nothing is ever sent again |
| DemucsProtocol.DrainsIff | audio/demucs/service/session.py:240-250 | if all windows complete, the end marker is sent if and only if some window was unfinished when the terminator was queued |
| DemucsProtocol.EmptySessionNeverEnds | audio/demucs/service/session.py:240-250 | in no run of a session without input is anything ever sent, not even the end marker |
| DemucsProtocol.CanHang | audio/demucs/service/session.py:240-250 | for every input there is a run in which all windows complete, only full blocks were sent, and no continuation sends anything more |
| DemucsProtocol.CanEnd | audio/demucs/service/session.py:240-250 | for every non-empty input there is a run that sends its end marker |
| DemucsSession.Session.constructor | audio/demucs/service/session.py:139-149 | a new session is valid and has made no progress |
| DemucsSession.Session.OutputIsLog | audio/demucs/service/session.py:406-434 | all arguments of the output callback are the log that the protocol prescribes |
| DemucsSession.Session.PushData | audio/demucs/service/session.py:175-198 | data is appended to the input, an empty message finishes, after that nothing changes; nothing is output and the invariant is kept |
| DemucsSession.Session.WindowInHand | audio/demucs/service/session.py:214-238 | the window cut but not yet submitted holds the input from `k*S`, then zeros, and their number is exact |
| DemucsSession.Session.FillChunk | audio/demucs/service/session.py:214-226 | copies the first `C` frames of the flattened queue of arrays and leaves zeros where there are fewer |
| DemucsSession.Session.DropFrames | audio/demucs/service/session.py:228-238 | removes exactly the first `min(S, n)` frames of the flattened queue and keeps the counter equal to the queued lengths |
| DemucsSession.Session.ProcessQueue | audio/demucs/service/session.py:206-250 | cuts a window if there is input and otherwise queues the terminator; its asserts hold |
| DemucsSession.Session.CutChunk | audio/demucs/service/session.py:214-238 | the `k`-th window is the input from `k*S`, zero-padded, with the exact number of zeroes |
| DemucsSession.Session.QueueTerminator | audio/demucs/service/session.py:240-250 | appends the terminator without producing output |
| DemucsSession.Session.SubmitChunk | audio/demucs/service/session.py:254-262 | appends the window in hand to the deque |
| DemucsSession.Session.BlockReady | audio/demucs/service/session.py:317-345 | is true exactly if the done prefix of windows reaches the end of the block or everything up to the terminator is done; every visited window overlaps the block |
| DemucsSession.Session.Accumulate | audio/demucs/service/session.py:363-376 | in-place addition of the overlapping slice extends the block's weighted sums by one window; `to_copy > 0` |
| DemucsSession.Session.TrimLength | audio/demucs/service/session.py:378-383 | the block is cut where the padding starts |
| DemucsSession.Session.SumWindows | audio/demucs/service/session.py:351-389 | the loop visits exactly the windows that overlap the block and sums them |
| SessionInvariant.LengthExact | audio/demucs/service/session.py:378-399 | the block length after trimming is exactly the part of the block before the end of the input |
| SessionInvariant.BlockAverage | audio/demucs/service/session.py:401-402 | every sample kept has strictly positive total weight and becomes the average over all windows |
| DemucsSession.Session.MixBlock | audio/demucs/service/session.py:347-406 | the block sent is that block of the overlap-add of the whole input |
| SessionInvariant.NothingLeft | audio/demucs/service/session.py:347-348 | when only the terminator is left the block lies past the end of the input |
| SessionInvariant.VisitedIsDone | audio/demucs/service/session.py:355-361 | every window visited while building a block has its output |
| SessionInvariant.UnfinishedIsNeeded | audio/demucs/service/session.py:411-416 | a window still being processed is never spent |
| SessionInvariant.DropFront | audio/demucs/service/session.py:418-434 | the terminator is alone when it is dropped, and the block index is then the final one |
| DemucsSession.Session.DropSpent | audio/demucs/service/session.py:410-434 | afterwards no window ends at or before the next block and no window that it needs is gone |
| DemucsSession.Session.OutputBlock | audio/demucs/service/session.py:347-434 | one iteration of the output loop keeps the loop's invariant |
| SessionInvariant.LoopProgress | audio/demucs/service/session.py:317-345 | the output loop has a measure, so it terminates |
| SessionInvariant.LoopDone | audio/demucs/service/session.py:343-345 | when the loop stops, the block index is `floor(d*S/C)` for `d` leading done windows, or the final one |
| DemucsSession.Session.OutputLoop | audio/demucs/service/session.py:316-434 | outputs every block that is complete and no other |
| DemucsSession.Session.ApplyModel | audio/demucs/service/session.py:306-434 | a completion in any order takes the protocol's step and keeps the invariant |
| DemucsService.Configure | audio/demucs/service/session.py:79-137 | accepts exactly the documented parameter ranges; an accepted session has the given rate and network, the window length rounded down, the stride left by the overlap, the triangle weights and the exact latency |
| DemucsParameters.StrideInRange | audio/demucs/service/session.py:125-127 | the stride is what the overlap leaves of a window, rounded down, at least one and at most the window |
| DemucsParameters.Derived | audio/demucs/service/session.py:124-137 | stride, latency and weights are the ones described, the latency without dividing: one window more than the fewest strides that span a window |
| DemucsService.ConfiguredSetupValid | audio/demucs/service/session.py:121-137 | every accepted configuration meets the session's requirements |
| DemucsService.LatencySuffices | audio/demucs/service/session.py:135-137 | once all cut windows are done, every sample at least the reported latency behind the end of the input has been output |
| DemucsService.Service.constructor | audio/demucs/service/main.py:45-57 | the in-flight limit is the maximum of the three bounds |
| DemucsService.Service.CountMessage | audio/demucs/service/main.py:94-100 | a message counts as in flight before it is pushed |
| DemucsService.Service.PushMessage | audio/demucs/service/main.py:102-103 | pushing keeps the in-flight count and everything sent |
| DemucsService.Service.FinishInput | audio/demucs/service/main.py:111-116 | the empty message finishes the session |
| DemucsService.Service.RunProcessingThread | audio/demucs/service/session.py:200-262 | the processing thread's steps do not touch the output |
| DemucsService.Service.CompleteWindow | audio/demucs/service/session.py:306-434 | completions between the tasks' steps keep the service's invariant |
| DemucsService.Service.Deliver | audio/demucs/service/main.py:59-65 | callbacks reach the output queue in order |
| DemucsService.Service.PopOutput | audio/demucs/service/main.py:153-170 | the writer ends exactly at the end marker, and its assert that the queue is empty then holds |
| DemucsService.Service.Sent | audio/demucs/service/main.py:181-185 | the in-flight counter is never below what the writer subtracts |
| DemucsService.Service.NeverBlockedIdle | audio/demucs/service/main.py:105-109 | with nothing left to process, fewer than `2*C` samples are in flight, which is below the limit |
| DemucsService.Service.NothingInFlightAtEnd | audio/demucs/service/main.py:153-185 | after the end marker everything that came in has gone out |
| MixConfig.LayoutTiles | audio/audiomultimixer/src/audiomultimixerelement.rs:583-600 | the split ranges are contiguous, start at zero and end at the number of channels |
| MixConfig.LayoutInRange | audio/audiomultimixer/src/audiomultimixerelement.rs:583-600 | every range lies inside the buffer and holds exactly that output's channels |
| MixConfig.AddContribution | audio/audiomultimixer/src/audiomultimixerelement.rs:93-101 | a contribution is added at most once |
| MixConfig.AddOutputMix | audio/audiomultimixer/src/audiomultimixerelement.rs:161-169 | replaces the mix of the same output or appends |
| MixConfig.GetContributions | audio/audiomultimixer/src/audiomultimixerelement.rs:184-214 | the nested loops give, per channel of the wide buffer, whether the input contributes to it |
| MixConfig.Minus1Shape | audio/audiomultimixer/src/minus1mixer.rs:500-513 | in the minus-1 configuration stream `i` has exactly channel `i`, fed by all other streams, without duplicates |
| MixConfig.UpdateOutputConfig | audio/audiomultimixer/src/minus1mixer.rs:500-513 | the loops build the minus-1 configuration of the streams |
| MultiMixer.ChannelSumStep | audio/audiomultimixer/src/audiomultimixerelement.rs:684-717 | mixing an input changes a channel's sum by that input once if it contributes and not at all otherwise |
| MultiMixer.MixOneBuffer | audio/audiomultimixer/src/audiomultimixerelement.rs:650-718 | in place, adds the scaled samples at the frame offset to exactly the contributing channels and leaves all else |
| MultiMixer.Element.Negotiate | audio/audiomultimixer/src/audiomultimixerelement.rs:447-505 | a pending configuration is applied only when no buffer is in progress, together with the caps |
| MultiMixer.Element.CreateOutputBuffer | audio/audiomultimixer/src/audiomultimixerelement.rs:580-603 | a silent buffer carries the layout of the configuration in use |
| MultiMixer.Element.AggregateOneBuffer | audio/audiomultimixer/src/audiomultimixerelement.rs:606-753 | every sample of the buffer in progress stays the sum over its channel's contributors, and the layout stays that of the configuration |
| MultiMixer.Element.SetOutputConfig | audio/audiomultimixer/src/audiomultimixerelement.rs:757-770 | a new configuration is held pending |
| MultiMixer.Element.TakeBuffer | audio/audiomultimixer/src/audiomultimixerelement.rs:580-603 | the buffer pushed has the layout of the configuration it was mixed with |
| MultiMixer.Element.Reset | audio/audiomultimixer/src/audiomultimixerelement.rs:303-317 | starting and stopping forget the caps and keep the invariant |
| Splitter.ToI16 | audio/audiomultimixer/src/splitter.rs:353-358 | the cast saturates at both ends of the 16-bit range and truncates toward zero inside it |
| Splitter.SplitOutputBuf | audio/audiomultimixer/src/splitter.rs:433-467 | the nested loops copy exactly the output's channels of every frame, converted |
| Splitter.Element.RequestPad | audio/audiomultimixer/src/splitter.rs:268-323 | a taken name is refused, an unnamed pad gets the first free number from the serial on |
| Splitter.Element.ReleasePad | audio/audiomultimixer/src/splitter.rs:325-338 | only that pad goes |
| Splitter.Element.SinkChain | audio/audiomultimixer/src/splitter.rs:361-544 | the entries of the layout whose output has a pad are served, each with its channels in its output's format; every other pad gets a gap; a pad keeps its format and a new one takes what its peer chooses |
| Splitter.ServedAt | audio/audiomultimixer/src/splitter.rs:407-424 | the served entries are, in the order of the layout, the entries at increasing positions whose output has a pad |
| Splitter.AllPositions | audio/audiomultimixer/src/splitter.rs:407-424 | no entry whose output has a pad is left out |
| Minus1Sums.MixMinus | audio/audiomultimixer/src/minus1mixer.rs:11-19 | the sum of the others is the full mix minus the own input |
| Minus1Sums.S16MixMinus | audio/audiomultimixer/src/splitter.rs:353-358 | converting the sum of scaled 16-bit inputs back gives the integer sum of the others clamped to 16 bits |
| Minus1Sums.AnyOrder | audio/audiomultimixer/src/audiomultimixerelement.rs:684-717 | the order in which the pads are mixed does not matter |
| Minus1Sums.S16IsClamped | audio/audiomultimixer/src/splitter.rs:353-358 | a 16-bit output of 16-bit inputs is the clamped integer sum of the other inputs' own samples |
| Minus1Sums.F32IsSum | audio/audiomultimixer/src/audiomultimixerelement.rs:720-733 | a float output of float inputs is the sum of the other inputs' own samples |
| Minus1Sums.RoundMeaning | audio/audiomultimixer/src/audiomultimixerelement.rs:606-753 | if every active stream was mixed once, in any order, what is sent is the sum of the other streams' actual inputs, in either format and in both pure cases without conversion |
| Minus1Sums.ListeningMembers | audio/audiomultimixer/src/splitter.rs:407-424 | each active stream with a pad is served, exactly once |
| Minus1Mixer.Bin.RequestPad | audio/audiomultimixer/src/minus1mixer.rs:387-445 | a taken name is refused and nothing changes, an unnamed request gets a free number, the splitter never refuses; streams stay distinct, equal both elements' pads, and the pending configuration is theirs |
| Minus1Mixer.Bin.ReleasePad | audio/audiomultimixer/src/minus1mixer.rs:447-496 | exactly that stream leaves the streams, in order, and with it the pads of both elements and the pending configuration |
| Minus1Mixer.Bin.Negotiate | audio/audiomultimixer/src/audiomultimixerelement.rs:447-505 | without a buffer in progress the current streams become active and the splitter knows the channel count first |
| Minus1Mixer.Bin.Mix | audio/audiomultimixer/src/audiomultimixerelement.rs:606-753 | any piece of any pad is added at its frame offset, divided by the scale, and nowhere else; the invariant of the whole bin is kept |
| Minus1Mixer.Bin.PushBuffer | audio/audiomultimixer/src/splitter.rs:407-544 | end to end: each active stream with a pad gets the sum of all other active streams, frame by frame, the rest get gaps, and the splitter's range assert holds |
| Minus1Mixer.Bin.MixRound | audio/audiomultimixer/src/minus1mixer.rs:11-19 | a whole buffer, from silence to the push: with the pads mixed in an arbitrary order, output `k` is the sum of the inputs of all other active streams; for floats their own sum, for 16 bits the clamped integer sum |
| Minus1Mixer.LateFirstInput | audio/audiomultimixer/src/audiomultimixerelement.rs:481-484 | a buffer without output channels can be in progress when an input is added |
| QueueLevels.FirstTsFinds | generic/threadshare/src/dataqueue.rs:58-79 | a list's timestamp is that of its first buffer with one |
| QueueLevels.LastTsFinds | generic/threadshare/src/dataqueue.rs:81-87 | a list's last timestamp is that of its last buffer with one |
| QueueLevels.StampsAgree | generic/threadshare/src/dataqueue.rs:58-87 | an item has a first timestamp exactly if it has a last one |
| QueueLevels.BuffersSnoc | generic/threadshare/src/dataqueue.rs:57-79 | each item stands for its own buffers, events for none |
| QueueLevels.ScansOfBuffers | generic/threadshare/src/dataqueue.rs:142-155 | the levels found by scanning items are the number, the total size and the time span of all buffers, however these are grouped into lists |
| QueueLevels.RemoveItem | generic/threadshare/src/dataqueue.rs:142-189 | removing an item changes the scanned buffer and byte levels by its share, and the time level only if it has a timestamp |
| QueueLevels.LevelMeansData | generic/threadshare/src/dataqueue.rs:170-177 | a level above zero means there is a buffer or list to drop, so the `expect` never fires |
| QueueLevels.KeptRemove | generic/threadshare/src/dataqueue.rs:165-182 | a leak drops exactly one enqueued item and keeps the order of the rest |
| QueueLevels.DropOldestEffect | generic/threadshare/src/dataqueue.rs:165-189 | a leak removes exactly the first data item and no event, and the levels fall by its share |
| QueueLevels.LeaksInSequence | generic/threadshare/src/dataqueue.rs:302-361 | each limit in turn, judged by what the turns before it left, drops the oldest data item if it is reached and nothing otherwise |
| QueueLevels.EventsSurvive | generic/threadshare/src/dataqueue.rs:165-182 | if only data is dropped, all events are kept in order |
| DataQueue.Queue.constructor | generic/threadshare/src/dataqueue.rs:443-485 | a limit of zero means no limit |
| DataQueue.Queue.UpdateCurTimeLevel | generic/threadshare/src/dataqueue.rs:142-155 | the two searches over the items find the distance between the first and the last timestamp among all queued buffers, lists taken apart |
| DataQueue.Queue.TakeOldest | generic/threadshare/src/dataqueue.rs:168-182 | the oldest buffer or list is taken out, events stay in place |
| DataQueue.Queue.DequeueOldest | generic/threadshare/src/dataqueue.rs:165-196 | leaking keeps the cached levels equal to a scan and drops only data |
| DataQueue.Queue.Start | generic/threadshare/src/dataqueue.rs:228-241 | starting wakes a parked consumer |
| DataQueue.Queue.Stop | generic/threadshare/src/dataqueue.rs:243-256 | stopping wakes a parked consumer |
| DataQueue.Queue.Clear | generic/threadshare/src/dataqueue.rs:258-281 | clearing resets queue, levels and status and needs no wake-up |
| DataQueue.Queue.MakeRoom | generic/threadshare/src/dataqueue.rs:302-361 | the verdict by cached levels is the verdict by scanning the queue, for the three limits in sequence, with the answer of each policy |
| DataQueue.Queue.Push | generic/threadshare/src/dataqueue.rs:283-388 | a stopped or full queue that does not leak hands the item back, one that leaks upstream reports its status, and neither changes anything; accepted items are appended after the leaks and wake the consumer |
| DataQueue.Queue.AcceptsIff | generic/threadshare/src/dataqueue.rs:302-361 | without downstream leaking, a started queue takes an item exactly if every cached level is below its limit (time only for items with a timestamp) |
| DataQueue.Queue.RoomIs | generic/threadshare/src/dataqueue.rs:302-361 | with downstream leaking every item is taken, after dropping the oldest data, one item for each limit reached when its turn comes, and no event; what is left of the buffer level is exactly the old one without the dropped items |
| DataQueue.Queue.SinglesFit | generic/threadshare/src/dataqueue.rs:302-361 | if all buffers are queued singly, dropping one always brings the buffer level below its limit |
| QueueLevels.OneDropNotEnough | generic/threadshare/src/dataqueue.rs:302-361 | with buffer lists one drop need not bring the level below its limit |
| DataQueue.Queue.StatusMeans | generic/threadshare/src/dataqueue.rs:365-375 | the status tells whether no data has been enqueued since the last clear, or the last item was the first data |
| DataQueue.Queue.Pop | generic/threadshare/src/dataqueue.rs:401-420 | the level subtractions cannot underflow and the levels stay exact |
| DataQueue.Queue.Next | generic/threadshare/src/dataqueue.rs:392-436 | delivers the front item, ends when stopped, and parks only on an empty started queue |
| DataQueue.Queue.LevelsOfBuffers | generic/threadshare/src/dataqueue.rs:377-383 | in every reachable state the cached levels are the number, size and time span of the queued buffers |
| DataQueue.Queue.EventsNeverLost | generic/threadshare/src/dataqueue.rs:157-159 | between clears every enqueued event is delivered or queued, in order |
| DataQueue.Queue.NothingLost | generic/threadshare/src/dataqueue.rs:316-320 | without downstream leaking delivered plus queued is everything enqueued |
| DataQueue.Queue.NoLostWakeUp | generic/threadshare/src/dataqueue.rs:392-436 | a parked consumer has been woken whenever there is work or the queue is stopped |
| HlsPlaylist.WindowStep | net/hlssink3/src/playlist.rs:56-64 | removing the first segment and patching the next one moves the window by one |
| HlsPlaylist.InForceIsNearest | net/hlssink3/src/playlist.rs:57-64 | the map in force for a segment is the nearest one given at or before it |
| HlsPlaylist.WindowInForce | net/hlssink3/src/playlist.rs:49-64 | the init map in force for every retained segment is the one in the full history |
| HlsPlaylist.Playlist.AddSegment | net/hlssink3/src/playlist.rs:37-41 | appends to the window and to the history |
| HlsPlaylist.Playlist.Trim | net/hlssink3/src/playlist.rs:54-69 | leaves the last `max` segments of the history, for both kinds of playlist |
| HlsPlaylist.Playlist.UpdatePlaylistState | net/hlssink3/src/playlist.rs:49-73 | typed playlists are left alone; the media sequence number does not underflow |
| HlsPlaylist.Context.AddSegment | net/hlssink3/src/hlsbasesink.rs:674-682 | after the `n`-th add the playlist lists the last `min(n, max)` segments and starts at number `n - len` |
| HlsPlaylist.Context.WritePlaylist | net/hlssink3/src/hlsbasesink.rs:745-836 | updates; then, if the playlist was written, is untyped and files are limited and not shared, deletes down to the limit, and otherwise nothing; with a short enough playlist the one on disk names no deleted file |
| HlsPlaylist.Context.DeleteOldFiles | net/hlssink3/src/hlsbasesink.rs:818-832 | deletes the oldest files, as many as exceed the limit |
| HlsPlaylist.Context.Close | net/hlssink3/src/hlsbasesink.rs:454-463 | the closing write keeps the segments and shifts all numbers by one exactly if the playlist stays untyped |
| HlsPlaylist.Context.ListedSegments | net/hlssink3/src/playlist.rs:54-72 | after every add an untyped playlist lists the last `min(n, max)` segments, all if `max` is zero, from number `n - len` on |
| HlsPlaylist.Context.NumbersNeverChange | net/hlssink3/src/playlist.rs:71-72 | a listed segment's number is its position in the full history, and its init map is the one in force there |
| HlsPlaylist.Context.ListedFilesExist | net/hlssink3/src/hlsbasesink.rs:818-832 | with `0 < playlist-length <= max-files` no listed segment's file has been deleted |
| HlsPlaylist.Context.WrittenFilesExist | net/hlssink3/src/hlsbasesink.rs:800-832 | nor has any file that the playlist last written names, however many writes have failed since |
| HlsPlaylist.Context.FilesKeptIff | net/hlssink3/src/hlsbasesink.rs:818-832 | after an added segment was written, with deletion on, every listed file exists if and only if there are at most `max-files` segments or `0 < playlist-length <= max-files` |
| HlsPlaylist.ListedFileLost | net/hlssink3/src/hlsbasesink.rs:818-832 | under any other setting, adding `max-files + 1` segments to an empty playlist deletes the first one's file while it is listed |
| QuicVarint.RoundTrip | net/quinn/src/common.rs:126-199 | decoding an encoding, whatever follows it, gives the value and its size |
| QuicVarint.PrefixRejected | net/quinn/src/common.rs:126-184 | a strict prefix of an encoding is not accepted |
| QuicVarint.EncodeIsShortest | net/quinn/src/common.rs:111-124 | every accepted encoding is at least as long as the canonical one, and is the canonical one if equally long |
| QuicVarint.LengthIsPowerOfTwo | net/quinn/src/common.rs:133-137 | the two leading bits are the base-two logarithm of the length |
| QuicVarint.SampleEncodings | net/quinn/src/common.rs:127-184 | the one, two and four byte examples of appendix A.1 of RFC 9000 decode to their values |
| QuicVarint.StreamRoundTrip | net/quinn/src/common.rs:126-199 | a concatenation of encodings decodes to the same list |
| QuicVarint.GetVarint | net/quinn/src/common.rs:127-184 | the branches agree with the decoder of appendix A.1 of RFC 9000 |
| QuicVarint.ByteBuffer.SetVarint | net/quinn/src/common.rs:187-199 | appends the canonical encoding |
| QuicVarint.TwoBytes | net/quinn/src/common.rs:190-191 | combining the length bits of a two-byte integer with its value by shift and or is adding them |
| QuicVarint.FourBytes | net/quinn/src/common.rs:192-193 | the same for four bytes |
| QuicVarint.EightBytes | net/quinn/src/common.rs:194-195 | the same for eight bytes |
| QuicVarint.LengthBits | net/quinn/src/common.rs:133-140 | the shift and the mask of the first byte are division by 64 and its remainder |
| QuicWait.Protocol.Begin | net/quinn/src/utils.rs:78-89 | a wait starts only on an empty canceller; otherwise it fails and leaves it alone |
| QuicWait.Protocol.Resolve | net/quinn/src/utils.rs:107-120 | the future's end keeps at most one future in flight |
| QuicWait.Protocol.Finish | net/quinn/src/utils.rs:107-128 | the wait reports abortion exactly if an abort came before its final check, even if the future had finished; otherwise it returns the future's value or its timeout |
| QuicWait.Protocol.Abort | net/quinn/src/utils.rs:59-66 | aborts the future in flight; cancelled is absorbing |
| QuicWait.Protocol.UnlockStop | net/quinn/src/quinnquicsrc/imp.rs:637-643 | resetting keeps the invariant of the protocol exactly if no cancelled wait is in flight |
| QuicWait.ResetThenBegin | net/quinn/src/quinnquicsrc/imp.rs:637-643 | from every valid state, a reset followed by a wait leaves at most one future in flight if and only if no cancelled wait was in flight |
| QuicWait.ResetTooEarly | net/quinn/src/quinnquicsrc/imp.rs:637-643 | from every valid state with a cancelled wait in flight, a reset lets a second future start beside it |
| QuicWait.AbortMissed | net/quinn/src/utils.rs:122-128 | from every such state, the end of the first wait clears the second one's handle, so that the next abort misses a future in flight |
| QuicWait.EarlyReset | net/quinn/src/quinnquicsrc/imp.rs:637-643 | such a state is reached by one wait and one abort |
| DashTimeline.Compress | mux/isobmff/examples/dash_vod.rs:179-221 | expanding the entries gives all durations, neighbours differ, each entry starts where its run starts, and the repeat count does not underflow |
| DashTimeline.EntryMeans | mux/isobmff/examples/dash_vod.rs:182-193 | each entry stands for one segment plus its repeat count, all with its duration in whole milliseconds, from its own start on, and the entries together for all segments |
| DashTimeline.ShortestTimeline | mux/isobmff/examples/dash_vod.rs:179-180 | no timeline with the same durations has fewer entries |

## Left out

- Floating point: samples, weights and the overlap fraction are real numbers, so rounding is not modelled.
- Demucs model loading, per-window normalisation, tensor conversion, interleaving of sources and channels, cancellation, exceptions and websockets; the network is an arbitrary length-preserving function, one output component at a time.
- Lock-level deadlocks of the demucs session: each locked region is one atomic step.
- DemucsService.Service.Deliver: takes it that the event loop runs the callbacks in the order in which they were issued.
- DataQueue.Queue.Push: takes it that the 32-bit level counters do not overflow, and byte sizes are not truncated to 32 bits.
- DataQueue.Queue.Clear: does not model storing sticky events on the source pad.
- DataQueue.Queue.Next: one consumer only; with several, the single handle slot is overwritten.
- MultiMixer.Element.AggregateOneBuffer: excludes configurations without any output channel, which the code cannot split into frames; `Minus1Mixer.LateFirstInput` shows that such a buffer can be in progress.
- Minus1Mixer.Bin.Mix: the same exclusion.
- MultiMixer.Element.CreateOutputBuffer: the aggregator base class is represented by its source caps and its current buffer; scheduling, timestamps and multi-channel inputs are not modelled.
- MultiMixer.Element.SinkCaps: refusing a pad whose rate or channel count differs is not modelled.
- Splitter.Element.SinkChain: flow returns and events other than gaps are not modelled.
- HlsPlaylist.Context.WritePlaylist: the text of the playlist, streams, signals and clock reads are not modelled; whether the write succeeded is a parameter.
- QuicWait.Protocol.Resolve: when a future ends is arbitrary; timers and the runtime are not modelled.
- QuicVarint.ByteBuffer.SetVarint: values of 2^62 and above, on which the code panics, are excluded.
- MultiMixer.Element.RequestPad: which free number the aggregator base class gives to an unnamed pad is a parameter.
- QuicVarint.GetVarint: bytes are numbers and the shift and mask are division and remainder, which `QuicVarint.LengthBits` relates to the bit operations.
- All other plugins of the repository, and the properties, logging and pad wiring of these.
