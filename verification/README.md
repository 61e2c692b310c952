# Verified models of the QUIC streams and TLS records in Tox

Tox vendors a QUIC stack (`quic-go_mod`) and a TLS stack (`reality_mod`).  This project models
their state machines in Dafny and proves what they promise: over every run, every order of arrival
and every interleaving.

`dafny verify dfyconfig.toml` checks the whole project.

## What is modelled

* **Reassembly** (`Tiling`, `GapTree`, `FrameSorting`, `Reassembly`): the frame sorter, with its map of
  entries and its gaps, changed in place.  Entries and gaps tile the offsets from the read position on.
  For frames that arrive in any order, overlap, repeat or were split differently, what is read is the
  longest prefix of the stream that has arrived, and every callback is stored with a part of its frame, handed out
  with its data or invoked, exactly once, and never while a large part of its frame is stored.  The run stops exactly at the first frame that leaves 20000 holes.
* **Receiving** (`ReceiveStreaming`, `ReceiveRuns`): the reader on top of the sorter, with the part of the flow
  controller that checks final sizes.  The end of the stream is reported exactly after the final size, with the last
  byte unless it becomes known too late for that, and every error occurs exactly in its case.
* **Sending** (`Wire`, `FrameLedger`, `SendLedger`, `SendStates`, `SendInvariant`, `SendStreaming`, `SendRuns`):
  buffering, splitting, retransmission, FIN and reset of a stream.  A ledger counts, for every offset, the frames
  that carry it.  Frames are as large as packet, window and data allow, and no run exceeds the window.
* **End to end** (`EndToEnd`): a sender and a reader, joined by a network that loses, repeats and reorders frames.
* **Packing** (`ControlFrames`, `ControlPacking`, `Framing`): the framer, on top of the sending streams.  What the
  streams give is what is packed, and what they have in flight.
* **Scrambling** (`ClientHello`, `HelloEncoding`, `CryptoStates`, `CryptoInvariant`, `CryptoSending`, `CryptoRuns`, `CryptoParts`,
  `CryptoRoundTrip`): the ClientHello is written in any parts, sent out of order around two cuts, in frames of any
  size, and reassembled by the receiver.
* **Path MTU** (`MtuSearch`, `MtuRuns`, `MtuFinding`): the search that tolerates lost probes.
* **Stream limits** (`StreamNumbers`, `OutgoingStreams`, `OutgoingMap`, `IncomingStreams`, `IncomingMap`): waiters,
  wakeups and credit.  Sections that hold a lock and operations on a channel are atomic steps, and a blocking call is
  split into them.
* **Connection IDs** (`ConnIDs`, `ConnIDStates`, `ConnIDManaging`, `ConnIDRuns`): activation, queueing, path probing
  and retirement.
* **TLS** (`MachineBytes`, `Padding`, `RecordNonce`, `RecordPadding`, `RecordLayer`, `RecordFraming`, `RecordRuns`,
  `TicketKeys`): the constant-time padding check on machine words, nonces, TLS 1.3 records with the padding that
  imitates another server, from the bytes on the wire on, and the rotation of session ticket keys.

Where the source changes an object in place, the model is a class with the same fields.  Its methods are proved
against functions from states to states, and what holds of every run is proved of the functions.  `SendRuns.Replay`,
`CryptoRuns.Replay`, `ConnIDRuns.Replay` and `MtuFinding.Replay` run the objects themselves.  Random numbers, the clock, flow control windows and the order in
which Go iterates over a map are parameters or arbitrary choices.

## What the proofs rely on

* Frames carry parts of one stream: a peer does not send different data for the same offset.
* An authenticated cipher opens what it has sealed (`RecordNonce.Inverts`).
* The frame parser rejects NEW_CONNECTION_ID frames whose Retire Prior To exceeds their sequence number.
* Packets for STREAM frames have at most 16385 bytes; real ones have at most 1452.
* The lengths that TLS records imitate are at most 8192: longer ones are not recorded (`reality_mod/tls.go:334`).

## Where the code falls short of its intent

Each of these has a lemma with a concrete input, and a condition that says exactly when the code does what it should.

* The estimate of how much data fits a frame is exact if and only if it does not exceed 16383 bytes or the frame has no length
  (`Wire.MaxStreamDataLenExact`, `Wire.MaxCryptoDataLenExact`, `Wire.MaxStreamDataLenTooLarge`).
* A ClientHello gets out if and only if it is `Sendable`.  It is stuck if its server name is empty, and nothing of it is ever sent if
  it has an Encrypted Client Hello extension but no server name, because the sort leaves an unused cut in front
  (`CryptoRuns.SentExactly`, `CryptoParts.SentInParts`, `CryptoRuns.EchOnlyNeverSent`).
* The server name stays apart if and only if it has two bytes and does not lie in the other cut; otherwise a frame can have all of it
  (`CryptoRuns.NameWholeExactly`, `CryptoParts.NameWholeInParts`, `CryptoRuns.ShortNameSentWhole`).
* The 8-bit generation of the MTU search makes a late handler look like a current one if and only if the resets since its probe are a multiple
  of 256.  That panics, or puts a size into use that exceeds the path MTU (`MtuRuns.StaleHandler`, `MtuRuns.WrapAroundPanics`, `MtuRuns.WrapAroundExceedsMtu`).
* A stream that was reset completes if and only if no Write buffered its rest between the reset and the time when completion was due.  If
  one did, the stream never completes, whatever happens later (`SendRuns.ResetCompletes`, `SendRuns.NeverCompletes`,
  `SendRuns.CancelledWriteLingers`).
* The framer takes 25 bytes for the largest control frame of a stream.  The control frames fit every packet, in every order of the streams, if and
  only if those of the streams have at most 26 bytes, and RESET_STREAM_AT can have 33 (`ControlPacking.PackFitsExactly`,
  `ControlPacking.ResetStreamAtOverruns`).
* The last STREAM frame of a packet fits without its length, except for packets of 16384 to 16399 bytes, and of 2^30 to 2^30 + 15
  (`Framing.LastFrameFitsExactly`).
* A late NEW_CONNECTION_ID frame loses its Retire Prior To (`ConnIDRuns.HonouredExactly`, `ConnIDRuns.LateFrameDropsRetirement`).
* A repeated NEW_CONNECTION_ID frame can bring back a number that is in use or retired, if it repeats the one probed last, or retire one that is in
  use, if it is discarded; nothing else can (`ConnIDRuns.SpoilsExactly`).  It then puts the same ID on two paths, queues a retired one, or retires the active one
  (`ConnIDRuns.RepeatedFrameSharesID`, `ConnIDRuns.RepeatedFrameReturnsID`, `ConnIDRuns.RepeatedFrameRetiresActive`), although the
  comment on GetConnIDForPath excludes the first.
* A reset token that is set twice leaves the first one registered after Close (`ConnIDRuns.CloseUnregisters`, `ConnIDRuns.SecondTokenStays`).
* A call of AcceptStream that takes a signal while another one waits, and more than one stream is there, takes the other one's wakeup; that is
  the only way to lose one (`IncomingStreams.LosesWakeup`, `IncomingStreams.TwoCallsShareWakeup`).
* The padding check refuses good padding if bit 31 of the unpadded length is set (`Padding.LongPayloadRefused`).
* Padding a TLS handshake record takes more than the 8192 zeros there are, which panics, if and only if the payload has fewer than 200 bytes and
  the imitated length plus the number drawn for the noise exceeds the payload by more than 8098 bytes and the overhead.  A Finished message in
  place of the longest record always fails (`RecordPadding.PaddingExceeds`, `RecordPadding.LongestFinishedPanics`).
* The imitation is exact only for records of 1350 bytes and more: all shorter ones get noise on top (`RecordPadding.ImitationExact`).

## Model

| member | source | states |
|---|---|---|
| `Tiling.TilesPartition` | quic-go_mod/frame_sorter.go:22-37 | in every valid state, each offset from the read position on is either missing or held, never both |
| `Tiling.TilesCover` | quic-go_mod/frame_sorter.go:22-37 | entries and gaps leave no offset uncovered |
| `Tiling.WriteKeepsTiles` | quic-go_mod/frame_sorter.go:119-185 | storing an entry over a cleared range, and carving that range out of the gaps, keeps entries and gaps a tiling |
| `Tiling.CarvedMissing` | quic-go_mod/frame_sorter.go:119-169 | carving a range out of the gaps removes exactly its offsets from the missing ones |
| `GapTree.Match` | quic-go_mod/internal/utils/tree/tree.go:174-180 | the result lists, in ascending order, exactly the gaps that overlap or touch the interval |
| `GapTree.RemainingIsCarved` | quic-go_mod/frame_sorter.go:119-169 | the updates of the first and last matched gap, and the deletion of those between, carve exactly the written range |
| `FrameSorting.FrameSorter.constructor` | quic-go_mod/frame_sorter.go:30-37 | nothing is held, and one gap covers all offsets |
| `FrameSorting.FrameSorter.Push` | quic-go_mod/frame_sorter.go:39-48 | fails exactly if the frame splits a gap while there are 20000; otherwise the tiling is kept, exactly the frame's offsets are filled, and one part of the frame with all its missing bytes replaces the entries that it covers; that part keeps the callback unless it is below 128 bytes and was cut, so that a frame that is all new is stored as it is; no callback is lost |
| `FrameSorting.FrameSorter.PushImpl` | quic-go_mod/frame_sorter.go:50-187 | the same, with the duplicate reported instead of its callback being invoked |
| `FrameSorting.FrameSorter.MakeRoom` | quic-go_mod/frame_sorter.go:81-169 | entries that the frame covers are dropped or make the frame shorter, which is noted, and the range left is free of entries |
| `FrameSorting.CopiedExactly` | quic-go_mod/frame_sorter.go:100-178 | the frame counts as cut if it is shortened, or if nothing of it is missing and it ends where an entry starts |
| `FrameSorting.NewIsKept` | quic-go_mod/frame_sorter.go:171-185 | a frame of which all is missing is stored whole, with its callback |
| `FrameSorting.FrameSorter.ReplaceConsecutive` | quic-go_mod/frame_sorter.go:84-111 | shorter entries at the start of the frame are dropped; a longer one ends the replacement |
| `FrameSorting.FrameSorter.DeleteCovered` | quic-go_mod/frame_sorter.go:137-146 | all entries between the first and the last gap that the frame covers are dropped |
| `FrameSorting.FrameSorter.DeleteConsecutive` | quic-go_mod/frame_sorter.go:190-203 | the entries up to the next gap are dropped and their callbacks invoked |
| `FrameSorting.FrameSorter.Pop` | quic-go_mod/frame_sorter.go:205-214 | returns nothing exactly if the next offset is missing; otherwise the entry at the read position, whose callback is handed out |
| `FrameSorting.FrameSorter.HasMoreData` | quic-go_mod/frame_sorter.go:216-219 | whether any entry is held |
| `FrameSorting.GapCount` | quic-go_mod/frame_sorter.go:159-183 | the number of gaps grows exactly if a frame lies strictly inside a gap |
| `Reassembly.PushedPartsAgree` | quic-go_mod/frame_sorter.go:39-187 | after a push of part of the stream, all entries are parts of the stream |
| `Reassembly.ArriveFills` | quic-go_mod/frame_sorter.go:39-187 | the gaps are exactly what has not arrived |
| `Reassembly.TakeStep` | quic-go_mod/frame_sorter.go:39-215 | a step succeeds exactly if it does not leave too many holes, keeps the sorter in agreement with the byte sequence, and moves callbacks only as it should: a frame's own is stored or invoked, a read hands out stored ones; entries are only replaced by the part of the frame that is stored |
| `Reassembly.ReadOne` | quic-go_mod/frame_sorter.go:205-215 | a read extends what was read to a longer prefix of the stream, unless the next byte is missing, and hands out the callback that was stored with it |
| `Reassembly.Reassemble` | quic-go_mod/frame_sorter.go:39-219 | for every run, up to exactly the first frame that leaves 20000 holes: what was read is a prefix of the stream that has arrived; if there is no such frame, it is the longest one, books kept step by step say what is stored, what is missing and where the callbacks are, and each stored callback belongs to a frame of which a part is stored with it |
| `Reassembly.HeldNotReleased` | quic-go_mod/frame_sorter.go:39-215 | a callback that is given once is neither invoked nor handed out while a part of its frame is stored with it |
| `Reassembly.StoredFrom` | quic-go_mod/frame_sorter.go:171-187 | after every step of a run, each entry is a part of the frame that stored it, and has the callback of that frame if it has 128 bytes or more, or if all of the frame was new |
| `Reassembly.CallbackWaits` | quic-go_mod/frame_sorter.go:171-215 | so after every step, a callback that is given once is neither invoked nor handed out while 128 bytes of its frame are stored, or a part of a frame that was all new |
| `Reassembly.OneMoreHole` | quic-go_mod/frame_sorter.go:159-183 | a frame adds at most one hole to those between the bytes that have arrived |
| `Reassembly.FewFrames` | quic-go_mod/frame_sorter.go:159-183 | so the first 19999 frames are never too many |
| `Reassembly.CoveredIsComplete` | quic-go_mod/frame_sorter.go:39-215 | once the frames cover the stream, all of it is read |
| `MtuSearch.ProbeInRange` | quic-go_mod/mtu_discoverer.go:163-176 | a probe is at least the size in use, strictly above it unless the last probe was lost, and strictly below the upper end of the search |
| `MtuSearch.AckedKeeps` | quic-go_mod/mtu_discoverer.go:197-229 | the lost sizes stay sorted, above the new minimum, and not empty |
| `MtuSearch.LostKeeps` | quic-go_mod/mtu_discoverer.go:231-249 | so they do after a loss |
| `MtuSearch.LostCounts` | quic-go_mod/mtu_discoverer.go:231-249 | how many lost sizes lie in a range grows by at most the probe's own |
| `MtuSearch.AckedCounts` | quic-go_mod/mtu_discoverer.go:197-229 | an acknowledgement drops only sizes up to the probe |
| `MtuSearch.AckedRank` | quic-go_mod/mtu_discoverer.go:197-229 | an acknowledged probe lowers the lexicographic measure |
| `MtuSearch.LostRank` | quic-go_mod/mtu_discoverer.go:231-249 | so does a lost one |
| `MtuRuns.StepKeepsInv` | quic-go_mod/mtu_discoverer.go:125-249 | every event keeps the invariant of the search and of the handlers in flight |
| `MtuRuns.RunKeepsInv` | quic-go_mod/mtu_discoverer.go:125-249 | so does every run |
| `MtuRuns.Accuracy` | quic-go_mod/mtu_discoverer.go:125-249 | in every run without a late handler whose resets are a multiple of 256: no panic, one unresolved current handler exactly while a probe is in flight, the size never exceeds the path MTU, and with at most two unlucky losses the range still reaches it, so that a finished search is within 21 bytes |
| `MtuRuns.Terminates` | quic-go_mod/mtu_discoverer.go:136-176 | on one path, the measure is never negative and bounds the number of probes that are resolved |
| `MtuRuns.StaleHandler` | quic-go_mod/mtu_discoverer.go:197-249 | a late handler changes the search or panics if and only if the resets since its probe are a multiple of 256; it panics exactly without a probe in flight, and otherwise its acknowledgement puts the size of that probe into use |
| `MtuRuns.WrapAroundPanics` | quic-go_mod/mtu_discoverer.go:182-210 | a run with 256 resets that panics |
| `MtuRuns.WrapAroundExceedsMtu` | quic-go_mod/mtu_discoverer.go:182-229 | a run with 256 resets after which the size in use is 1326 on a path with MTU 1200 |
| `MtuRuns.ThreeLossesMislead` | quic-go_mod/mtu_discoverer.go:231-249 | three losses lower the upper end, two do not |
| `MtuRuns.LossIsRetried` | quic-go_mod/mtu_discoverer.go:163-249 | after a loss the search continues below the lost size, and above it again once a smaller probe has arrived: 1326, 1263, 1357 |
| `MtuFinding.MtuFinder.constructor` | quic-go_mod/mtu_discoverer.go:111-123 | starts the search |
| `MtuFinding.MtuFinder.Init` | quic-go_mod/mtu_discoverer.go:125-134 | the array holds the maximum as its only lost size |
| `MtuFinding.MtuFinder.MaxSize` | quic-go_mod/mtu_discoverer.go:140-147 | the last valid lost size |
| `MtuFinding.MtuFinder.IsDone` | quic-go_mod/mtu_discoverer.go:136-138 | the range is at most 21 bytes |
| `MtuFinding.MtuFinder.ShouldSendProbe` | quic-go_mod/mtu_discoverer.go:153-161 | no probe before the start, while one is in flight, after the end, or too early |
| `MtuFinding.MtuFinder.GetPing` | quic-go_mod/mtu_discoverer.go:163-176 | the array refines the search: the probe is in the middle between the size in use and the maximum, or the smallest lost size after a loss |
| `MtuFinding.MtuFinder.Reset` | quic-go_mod/mtu_discoverer.go:182-190 | starts again with the next generation |
| `MtuFinding.MtuFinder.OnAcked` | quic-go_mod/mtu_discoverer.go:197-229 | shifting the array in place refines dropping the sizes up to the probe |
| `MtuFinding.MtuFinder.OnLost` | quic-go_mod/mtu_discoverer.go:231-249 | shifting the array in place refines inserting the probe into the sorted sizes |
| `MtuFinding.MtuFinder.CurrentSize` | quic-go_mod/mtu_discoverer.go:178-180 | the lower end of the search |
| `MtuFinding.Replay` | quic-go_mod/mtu_discoverer.go:111-249 | for every run, up to exactly the first panic, the finder with its array ends in the state that the run function gives; in a possible run there is none, and the size reported does not exceed the path MTU |
| `Wire.MaxStreamDataLenExact` | quic-go_mod/internal/wire/stream_frame.go:118-158 | exactly the non-empty frames up to the estimate fit the budget, if and only if the estimate is at most 16383 or the frame has no length |
| `Wire.MaxStreamDataLenTooLarge` | quic-go_mod/internal/wire/stream_frame.go:136-158 | a larger budget for which the estimate does not fit |
| `Wire.MaxCryptoDataLenExact` | quic-go_mod/internal/wire/crypto_frame.go:49-70 | the same for CRYPTO frames, which always have a length |
| `Wire.SplitCorrect` | quic-go_mod/internal/wire/stream_frame.go:161-187 | the parts of a split frame carry its bytes in order, the first one fits, and the FIN stays at the end, if and only if the frame fits anyway or the estimate is exact |
| `Wire.SmallFrameSplits` | quic-go_mod/internal/wire/stream_frame.go:161-187 | frames up to 16383 bytes are split well for every packet |
| `SendLedger.SendNew` | quic-go_mod/send_stream.go:240-347 | a new frame at the write offset adds one copy of exactly its offsets |
| `SendLedger.SendQueued` | quic-go_mod/send_stream.go:359-367 | sending a queued frame again keeps every count |
| `SendLedger.SendPart` | quic-go_mod/send_stream.go:359-367 | so does splitting it |
| `SendLedger.Acknowledge` | quic-go_mod/send_stream.go:663-682 | an acknowledgement moves the frame's offsets |
| `SendLedger.Requeue` | quic-go_mod/send_stream.go:684-725 | so does a loss |
| `SendLedger.DeliveredExactly` | quic-go_mod/send_stream.go:385-411 | nothing is left to deliver exactly if the FIN and every byte are acknowledged once |
| `SendStreaming.SendStream.Write` | quic-go_mod/send_stream.go:93-105 | the written stream grows by the data, unless the stream is closed or reset; the call waits exactly if what is buffered would exceed 1452 bytes; the ledger stays balanced |
| `SendStreaming.SendStream.Resume` | quic-go_mod/send_stream.go:137-211 | a turn of the waiting call returns exactly if the rest fits the buffer, was sent or the stream was reset, then with the bytes sent; it keeps the ledger balanced, and reports completion only after a reset |
| `SendStreaming.SendStream.Close` | quic-go_mod/send_stream.go:417-441 | the ledger stays balanced, and completion is counted if it is reported |
| `SendStreaming.SendStream.PopStreamFrame` | quic-go_mod/send_stream.go:223-310 | the frame is recorded as in flight and fits the budget, unless it has only the FIN; with nothing to retransmit, the new data stays within the window and is all that is ready, or the whole window, or one more byte does not fit, with the FIN exactly at the end, and the stream is reported as blocked exactly if the window is used up; otherwise the first queued frame, or as much of it as fits; without more frames, nothing is left to send |
| `SendStreaming.SendStream.MaybeGetRetransmission` | quic-go_mod/send_stream.go:359-367 | a part of the first queued frame, from its start, that fits; nothing only if not even one byte does |
| `SendStreaming.SendStream.IsNewlyCompleted` | quic-go_mod/send_stream.go:385-411 | completion is reported the first time nothing is left |
| `SendStreaming.SendStream.OnAcked` | quic-go_mod/send_stream.go:663-682 | exactly this frame moves to the acknowledged ones, the ledger stays balanced, and completion is counted if it is reported |
| `SendStreaming.SendStream.OnLost` | quic-go_mod/send_stream.go:684-725 | exactly this frame leaves those in flight and is queued behind the others; after a reset it is dropped |
| `SendStreaming.SendStream.CancelWrite` | quic-go_mod/send_stream.go:476-540 | drops what is outstanding, and the RESET_STREAM frame is in one place from then on |
| `SendStreaming.SendStream.HandleStopSendingFrame` | quic-go_mod/send_stream.go:561-588 | the same on request of the peer |
| `SendStreaming.SendStream.GetControlFrame` | quic-go_mod/send_stream.go:593-607 | a RESET_STREAM frame exactly if one is queued, with the amount sent as its final size |
| `SendStreaming.SendStream.OnResetAcked` | quic-go_mod/send_stream.go:731-751 | completion is reported exactly if it was not, the application knows, and no Write has buffered data meanwhile |
| `SendStreaming.SendStream.OnResetLost` | quic-go_mod/send_stream.go:753-767 | the RESET_STREAM frame is queued again |
| `SendInvariant.WriteKeeps` | quic-go_mod/send_stream.go:93-135 | a Write keeps every written byte in one place: sent, buffered, or waiting in the call |
| `SendInvariant.ResumeKeeps` | quic-go_mod/send_stream.go:137-211 | so does the loop in which it waits |
| `SendInvariant.CloseKeeps` | quic-go_mod/send_stream.go:417-441 | so does Close |
| `SendInvariant.NewKeeps` | quic-go_mod/send_stream.go:312-357 | a frame with new data carries the next bytes of the stream, not beyond the window, and the FIN only at its end |
| `SendInvariant.RetransmitKeeps` | quic-go_mod/send_stream.go:359-367 | a retransmission moves bytes from the queue into flight and changes no count |
| `SendInvariant.PopKeeps` | quic-go_mod/send_stream.go:223-310 | popping a frame keeps the ledger balanced in every case |
| `SendInvariant.PopFacts` | quic-go_mod/send_stream.go:223-310 | a frame fits its budget unless it has only the FIN, and if no more is announced, nothing is left |
| `SendInvariant.PopTakes` | quic-go_mod/send_stream.go:263-357 | with nothing to retransmit, a frame takes as much new data as possible: all that is ready, or the whole window, or one more byte does not fit; there is a frame exactly if there is data that fits or a FIN to send, the FIN is set exactly behind all data, and the stream is blocked exactly if the window is used up and the flow controller says so |
| `SendInvariant.PopResends` | quic-go_mod/send_stream.go:240-262 | otherwise the first queued frame is sent whole if it fits, or as much of it as fits, and the rest stays queued; nothing only if not even one byte fits |
| `SendInvariant.AckKeeps` | quic-go_mod/send_stream.go:663-682 | an acknowledgement keeps the ledger balanced, and the counter of outstanding frames is never negative |
| `SendInvariant.LoseKeeps` | quic-go_mod/send_stream.go:684-725 | so does a loss |
| `SendInvariant.CancelKeeps` | quic-go_mod/send_stream.go:476-540 | after a cancellation the RESET_STREAM frame is in exactly one place, and nothing else is outstanding |
| `SendInvariant.StopKeeps` | quic-go_mod/send_stream.go:561-588 | the same after STOP_SENDING |
| `SendInvariant.SendResetKeeps` | quic-go_mod/send_stream.go:593-607 | a RESET_STREAM frame is sent exactly if it is queued, and carries the final size |
| `SendInvariant.ResetAckedKeeps` | quic-go_mod/send_stream.go:731-751 | the acknowledgement of the RESET_STREAM frame completes the stream exactly if the application knows and nothing was buffered |
| `SendInvariant.ResetLostKeeps` | quic-go_mod/send_stream.go:753-767 | a lost RESET_STREAM frame is queued again, once |
| `SendRuns.StepKeepsInv` | quic-go_mod/send_stream.go:93-767 | every operation keeps the ledger, the order of new frames and the record of what was sent |
| `SendRuns.RunKeepsInv` | quic-go_mod/send_stream.go:93-767 | so does every run |
| `SendRuns.Replay` | quic-go_mod/send_stream.go:93-767 | for every run, the stream object ends in exactly the state and with exactly the history that the run function gives |
| `SendRuns.Conservation` | quic-go_mod/send_stream.go:93-767 | for every run: contiguous new frames with a prefix of the written bytes, each byte in exactly one place, the counter exact, completion at most once and exactly when FIN and data are acknowledged; after a reset, the RESET_STREAM frame in exactly one place |
| `SendRuns.FlowControlled` | quic-go_mod/send_stream.go:276-292 | in every run, no frame, new or retransmitted, reaches beyond the largest end of a window that was open when a frame was asked for |
| `SendRuns.WrittenBy` | quic-go_mod/send_stream.go:93-135 | the written bytes are the data of the accepted Writes, in order |
| `SendRuns.ResetCompletes` | quic-go_mod/send_stream.go:137-211 | after a reset, once completion is due, it has been reported if and only if no Write buffered its rest meanwhile |
| `SendRuns.NeverCompletes` | quic-go_mod/send_stream.go:137-211 | after such a Write, no operation ever reports completion |
| `SendRuns.CancelledWriteLingers` | quic-go_mod/send_stream.go:137-211 | a run after which the stream never completes, whatever follows |
| `EndToEnd.Transfer` | quic-go_mod/send_stream.go:93-767 | for every run of a sender and every behaviour of the network and the reader: the reader gets a prefix of what was written, errors exactly as the frames cause them and never about the final size; its end is the end of what was written; and completion at the sender means that the reader gets everything |
| `EndToEnd.EndMeansAll` | quic-go_mod/receive_stream.go:223-248 | the end that the reader reports is that of what was written |
| `EndToEnd.CompletionMeansEnd` | quic-go_mod/send_stream.go:385-411 | if all acknowledged frames were delivered, and FIN and data are acknowledged, the reader gets to the end |
| `EndToEnd.FewArrivals` | quic-go_mod/receive_stream.go:299-315 | with room in the windows, the reader does not fail before 20000 frames have arrived |
| `ControlFrames.FromStreamLen` | quic-go_mod/framer.go:21-23 | RESET_STREAM, STOP_SENDING and MAX_STREAM_DATA frames have at most 25 bytes |
| `ControlFrames.ResetStreamAtTooLarge` | quic-go_mod/internal/wire/reset_stream_frame.go:72-79 | RESET_STREAM_AT can have 33 bytes |
| `Framing.LastFrameFits` | quic-go_mod/framer.go:257-260 | a frame that was offered the space of a length field on top fits once its own length field is gone |
| `Framing.LastFrameDoesNotFit` | quic-go_mod/framer.go:257-260 | for every packet of 16384 to 16399 bytes, or of 2^30 to 2^30 + 15, a frame that was offered the space and is one byte too large |
| `Framing.LastFrameFitsExactly` | quic-go_mod/framer.go:257-260 | for every packet size: all frames that are offered the space fit without their length, if and only if the size is not one of those |
| `Framing.DropLastLength` | quic-go_mod/framer.go:147-152 | only the last frame loses its length, and the total is corrected by what that saves |
| `Framing.Framer.QueueControlFrame` | quic-go_mod/framer.go:67-87 | frames are queued up to their limits, and an overflow is remembered |
| `Framing.Framer.AddActiveStream` | quic-go_mod/framer.go:221-228 | the stream is active and in the queue |
| `Framing.Framer.RemoveActiveStream` | quic-go_mod/framer.go:239-246 | the stream is not active, and all others are still in the queue |
| `Framing.Framer.AddStreamWithControlFrames` | quic-go_mod/framer.go:230-236 | what a stream newly has to offer is added to what it offered before, and the stream is asked for it |
| `Framing.Framer.AppendPathResponse` | quic-go_mod/framer.go:164-173 | at most one PATH_RESPONSE frame, if it fits |
| `Framing.Framer.AppendFrom` | quic-go_mod/framer.go:176-196 | exactly the frames of one stream that are taken while more than 25 bytes are left; what is left of them stays, or the stream is forgotten, and none is lost |
| `Framing.Framer.AppendStreamControlFrames` | quic-go_mod/framer.go:175-196 | for some order of the streams, exactly the frames they give in that order; none is lost, and all are sent if more than 25 bytes stay free |
| `Framing.Framer.AppendQueued` | quic-go_mod/framer.go:198-207 | the longest suffix of the queue that fits, in reverse order |
| `Framing.Framer.AppendControlFrames` | quic-go_mod/framer.go:157-210 | the packet and what still waits are those of the packing function for some order of the streams; the length is that of the frames, within the budget if the streams' frames are small, and no frame is lost |
| `Framing.Framer.GetNextStreamFrame` | quic-go_mod/framer.go:248-271 | the first stream pops a frame that fits without its length; it stays active and queued exactly if it announces more; all others are unchanged |
| `Framing.Framer.TakeTurn` | quic-go_mod/framer.go:248-271 | what the stream gives is returned and added to what it has in flight; all other streams stay as they are |
| `Framing.Framer.GiveTurns` | quic-go_mod/framer.go:100-129 | one turn for every queued stream while 128 bytes are left, each for what is left of the packet; the frames packed are exactly those that the streams gave, in order, and each stream has exactly its own in flight on top of what it had; the STREAM_DATA_BLOCKED frames are those that they reported, of which at most the last is late; the space left is negative by at most what the last frame saves |
| `Framing.Framer.AppendStreamFrames` | quic-go_mod/framer.go:100-142 | the same, and the frames that do not fit are queued: those packed and those queued are exactly the STREAM_DATA_BLOCKED frames reported, and DATA_BLOCKED if the connection is blocked |
| `Framing.Framer.AppendDataBlocked` | quic-go_mod/framer.go:131-142 | DATA_BLOCKED is packed exactly if the connection is blocked and it fits, and late exactly if it does not fit |
| `Framing.Framer.Append` | quic-go_mod/framer.go:89-155 | up to 16383 bytes: the length returned is that of the frames as encoded and at most the budget; the STREAM frames are exactly those that the streams gave in their turns, and each stream has exactly its own in flight on top of what it had; control frames packed and queued are exactly those that waited and those that report blocked streams or the blocked connection; no stream with data is forgotten |
| `Framing.FramesOfAll` | quic-go_mod/framer.go:109-115 | each frame of a packet is among those that its stream has in flight |
| `ControlPacking.SmallFramesFit` | quic-go_mod/framer.go:157-210 | if all control frames of streams have at most 26 bytes, no packet is overfull, whatever else waits and in every order |
| `ControlPacking.LargeFrameOverruns` | quic-go_mod/framer.go:176-196 | for every larger control frame of a stream, whatever else waits, an order and a packet size that it overruns |
| `ControlPacking.PackFitsExactly` | quic-go_mod/framer.go:157-210 | the control frames fit every packet in every order, if and only if those of the streams have at most 26 bytes |
| `ControlPacking.PackKeeps` | quic-go_mod/framer.go:157-210 | no control frame is lost |
| `ControlPacking.PackStreams` | quic-go_mod/framer.go:175-196 | if more than 25 bytes stay free, streams have nothing left to offer |
| `ControlPacking.PackTight` | quic-go_mod/framer.go:198-207 | a queued frame only stays if it does not fit |
| `ControlPacking.ResetStreamAtOverruns` | quic-go_mod/framer.go:176-196 | a RESET_STREAM_AT frame of 33 bytes in a packet of 26 |
| `ClientHello.FindSNIAndECH` | quic-go_mod/sni.go:19-136 | the outcome of the search, error cases included; positions lie within the message and mean what they should |
| `ClientHello.ScanExtensions` | quic-go_mod/sni.go:62-136 | the loop over extensions finds the first host_name and the first Encrypted Client Hello extension |
| `ClientHello.ScanServerNames` | quic-go_mod/sni.go:81-118 | the loop over names finds the first host_name |
| `HelloEncoding.LocatesWhatWasPut` | quic-go_mod/sni.go:19-136 | for any session ID, cipher suites, compression methods and other extensions, the server name and the Encrypted Client Hello extension of a ClientHello are located exactly where they were put |
| `HelloEncoding.ExtensionsFound` | quic-go_mod/sni.go:31-83 | the extensions are found behind parts of any length |
| `CryptoSending.InitialCryptoStream.ChosenCuts` | quic-go_mod/crypto_stream.go:160-177 | the two cuts are those of the name and of the extension, and valid ones come in ascending order, while an unused one may stay in front |
| `CryptoInvariant.ChooseCuts` | quic-go_mod/crypto_stream.go:158-177 | the cuts chosen are those of the message, and choosing them again, after some were sent, loses no byte |
| `CryptoInvariant.WriteKeeps` | quic-go_mod/crypto_stream.go:140-180 | a Write keeps every byte in one place: sent, to be sent, or in a cut |
| `CryptoInvariant.PlainKeeps` | quic-go_mod/crypto_stream.go:85-95 | so does a frame with the next bytes |
| `CryptoInvariant.SkippedKeeps` | quic-go_mod/crypto_stream.go:187-219 | so does a frame with part of a cut, after which scrambling may end |
| `CryptoInvariant.AroundKeeps` | quic-go_mod/crypto_stream.go:221-248 | so does a frame up to the next cut, which is then skipped |
| `CryptoInvariant.PopKeeps` | quic-go_mod/crypto_stream.go:182-249 | so does every frame: it is a part of what was written, and it stays clear of the cuts until they are due |
| `CryptoInvariant.PopFits` | quic-go_mod/crypto_stream.go:182-249 | a frame has data, and fits its budget if the estimate of its length is exact; it then ends at the end of the data or at an end of a cut, unless one more byte does not fit |
| `CryptoRuns.RunKeepsInv` | quic-go_mod/crypto_stream.go:131-249 | every run of writes and pops keeps all of that |
| `CryptoRuns.AnyRun` | quic-go_mod/crypto_stream.go:131-249 | for any run, whatever the budgets: only parts of what was written are sent, and all of it once the stream is drained |
| `CryptoRuns.Replay` | quic-go_mod/crypto_stream.go:131-249 | for every run, the stream object ends in exactly the state, and has sent exactly the frames, that the run function gives |
| `CryptoRuns.SentExactly` | quic-go_mod/crypto_stream.go:131-249 | for any budgets with always another packet of at least 11 bytes, a ClientHello is sent completely if and only if it needs no cuts or has a name to cut |
| `CryptoRuns.DrainsExactly` | quic-go_mod/crypto_stream.go:182-249 | from any state of a run, popping on sends everything if and only if no cut is empty or unused in front |
| `CryptoRuns.EchOnlyNeverSent` | quic-go_mod/crypto_stream.go:131-178 | a ClientHello of which no frame is ever sent, whatever the budgets |
| `CryptoRuns.NameNeverWhole` | quic-go_mod/crypto_stream.go:158-248 | no frame has the whole server name, if that has two bytes and does not lie in the other cut |
| `CryptoRuns.OneByteName` | quic-go_mod/crypto_stream.go:158-248 | a name of one byte is always sent whole |
| `CryptoRuns.HiddenName` | quic-go_mod/crypto_stream.go:158-248 | a name inside the cut of the extension is sent whole if packets are large |
| `CryptoRuns.NameWholeExactly` | quic-go_mod/crypto_stream.go:158-248 | for every ClientHello that gets out: no budgets put the whole name into one frame, if and only if it can be cut |
| `CryptoRuns.ShortNameSentWhole` | quic-go_mod/crypto_stream.go:158-248 | a ClientHello whose name is sent whole |
| `CryptoParts.WrittenIs` | quic-go_mod/crypto_stream.go:140-180 | however data is cut into parts, the stream has the cuts of the ClientHello that some of them complete, and what follows only makes the buffer longer; without one, nothing is announced |
| `CryptoParts.SentInParts` | quic-go_mod/crypto_stream.go:131-249 | however data is cut into parts, all of it is sent if and only if some of them together are a Sendable ClientHello |
| `CryptoParts.SentAlike` | quic-go_mod/crypto_stream.go:131-249 | a ClientHello in parts is sent in the same frames as in one piece |
| `CryptoParts.NameWholeInParts` | quic-go_mod/crypto_stream.go:158-248 | no parts and no budgets put the whole name into one frame, if and only if it can be cut |
| `CryptoParts.SendClientHello` | quic-go_mod/crypto_stream.go:131-249 | for any parts and any budgets: only parts of what was written are sent; all of it only if some parts are a Sendable ClientHello, and then always if every packet has room; and no frame has the whole server name if that can be cut |
| `CryptoRoundTrip.CryptoReceiver.HandleCryptoFrame` | quic-go_mod/crypto_stream.go:34-56 | both errors exactly in their cases; otherwise exactly the frame's offsets are filled, and the sorter never fails |
| `CryptoRoundTrip.CryptoReceiver.GetCryptoData` | quic-go_mod/crypto_stream.go:58-62 | the next entry, or nothing if it is missing |
| `CryptoRoundTrip.CryptoReceiver.Finish` | quic-go_mod/crypto_stream.go:64-73 | the level changes exactly if all data was read |
| `CryptoRoundTrip.FewGaps` | quic-go_mod/crypto_stream.go:34-41 | below the offset limit of crypto streams, there are never 20000 gaps |
| `CryptoRoundTrip.RoundTrip` | quic-go_mod/crypto_stream.go:34-62 | written in any parts, and delivered in any order and with repetitions, the frames that were popped yield the longest prefix of the ClientHello that has arrived, and all of it once each has arrived |
| `CryptoRoundTrip.Receive` | quic-go_mod/crypto_stream.go:34-62 | the same for any frames that are parts of a message, and all of it if they cover it |
| `OutgoingStreams.StepKeepsInv` | quic-go_mod/streams_map_outgoing.go:65-230 | every atomic step keeps the queue in order, the wakeups on the head, the opened streams consecutive and the blocked frames due |
| `OutgoingStreams.RunKeepsInv` | quic-go_mod/streams_map_outgoing.go:65-230 | so does every interleaving |
| `OutgoingStreams.NoLostWakeup` | quic-go_mod/streams_map_outgoing.go:65-230 | in every interleaving: if the largest limit that the peer has sent allows one more stream, the head of the queue and nobody else is being woken, service is first come, first served, no stream exceeds that limit, and while it does not cover all waiters, the peer was last told that it blocks |
| `OutgoingStreams.LimitIsLargest` | quic-go_mod/streams_map_outgoing.go:182-195 | in every interleaving, the limit in use is the largest one that the peer has sent |
| `OutgoingStreams.ProceedServesCaller` | quic-go_mod/streams_map_outgoing.go:114-125 | a woken waiter always finds a stream, and the head that is dropped is that waiter |
| `OutgoingStreams.CreditServesQueue` | quic-go_mod/streams_map_outgoing.go:182-195 | a limit that covers n waiters lets them all open their streams, one after the other |
| `OutgoingStreams.BlockedKeeps` | quic-go_mod/streams_map_outgoing.go:138-152 | the peer is told about its limit, once, and about each limit in turn |
| `OutgoingStreams.UnblockWakesHead` | quic-go_mod/streams_map_outgoing.go:217-230 | waking the head is enough: after any change of queue or limit, no wakeup is missing |
| `OutgoingMap.OutgoingStreamsMap.TryOpenStream` | quic-go_mod/streams_map_outgoing.go:65-79 | opens the next stream exactly if one is available and nobody waits |
| `OutgoingMap.OutgoingStreamsMap.Enter` | quic-go_mod/streams_map_outgoing.go:81-98 | opens a stream exactly if one is available and nobody waits, or else joins the queue and has the limit announced |
| `OutgoingMap.OutgoingStreamsMap.Receive` | quic-go_mod/streams_map_outgoing.go:99-112 | a waiter takes its token |
| `OutgoingMap.OutgoingStreamsMap.Wake` | quic-go_mod/streams_map_outgoing.go:114-125 | a woken call opens the next stream within the limit, leaves the head of the queue, and wakes the next one |
| `OutgoingMap.OutgoingStreamsMap.Quit` | quic-go_mod/streams_map_outgoing.go:102-110 | a cancelled call leaves the queue, and its token is passed on |
| `OutgoingMap.OutgoingStreamsMap.SetMax` | quic-go_mod/streams_map_outgoing.go:182-195 | the limit is the larger one of the old and the new; it is announced as blocking exactly if it is new and does not cover the queue, and the head of the queue has a token if it can go on |
| `ConnIDManaging.ConnIDManager.constructor` | quic-go_mod/conn_id_manager.go:45-58 | number 0 is active, and nothing else is on hand |
| `ConnIDManaging.ConnIDManager.AddFromPreferredAddress` | quic-go_mod/conn_id_manager.go:60-62 | number 1 joins the sorted queue unless it is there; an error exactly for a conflicting repetition |
| `ConnIDManaging.ConnIDManager.AddConnectionID` | quic-go_mod/conn_id_manager.go:132-166 | inserts into the sorted queue, exactly once; fails exactly for a conflicting repetition |
| `ConnIDManaging.ConnIDManager.Add` | quic-go_mod/conn_id_manager.go:64-130 | the queue stays sorted and below its limit unless there is an error; an error about empty IDs exactly if the active one is empty, and about the limit only if four are queued |
| `ConnIDManaging.ConnIDManager.Get` | quic-go_mod/conn_id_manager.go:223-244 | the first queued ID with its token exactly if the handshake is complete and the active one is the first or has been used enough while two are on hand; otherwise nothing changes |
| `ConnIDManaging.Filter` | quic-go_mod/conn_id_manager.go:103-114 | the queue is split into what stays, in order, and the numbers to retire |
| `ConnIDManaging.ConnIDManager.GetConnIDForPath` | quic-go_mod/conn_id_manager.go:250-277 | succeeds exactly if the path has an ID afterwards or none are used, and returns that |
| `ConnIDManaging.ConnIDManager.IsActiveStatelessResetToken` | quic-go_mod/conn_id_manager.go:297-311 | true exactly for the tokens of the active ID and of the probed paths |
| `ConnIDRuns.RetirePriorKeeps` | quic-go_mod/conn_id_manager.go:90-114 | exactly the queued and probing IDs below Retire Prior To are retired, each with one frame, and their tokens are given up |
| `ConnIDRuns.AcceptKeeps` | quic-go_mod/conn_id_manager.go:90-130 | an accepted frame keeps the queue sorted, above the active ID and not below what was retired, and the tokens registered exactly those in use |
| `ConnIDRuns.SwitchKeeps` | quic-go_mod/conn_id_manager.go:168-186 | the first queued ID becomes active, the old one is retired once, and the token registrations follow |
| `ConnIDRuns.GetKeeps` | quic-go_mod/conn_id_manager.go:223-244 | for a packet, the ID changes exactly when it should, and the old one is retired once |
| `ConnIDRuns.RotatesExactly` | quic-go_mod/conn_id_manager.go:223-244 | the active number changes exactly if the handshake is complete and the first ID can be replaced, or two are on hand and enough packets were sent; so no ID is used for more packets while two are on hand |
| `ConnIDRuns.RunAsGiven` | quic-go_mod/conn_id_manager.go:60-295 | in every run, each ID in use, active, queued or probing, has the number and the token that it was given with |
| `ConnIDRuns.ProbeKeeps` | quic-go_mod/conn_id_manager.go:250-277 | giving a path an ID moves it out of the queue, and retires nothing |
| `ConnIDRuns.RetirePathKeeps` | quic-go_mod/conn_id_manager.go:279-295 | retiring a path retires exactly its ID, once |
| `ConnIDRuns.StepKeepsInv` | quic-go_mod/conn_id_manager.go:60-295 | every event that does not conflict keeps the invariant of the manager |
| `ConnIDRuns.RunKeepsInv` | quic-go_mod/conn_id_manager.go:60-295 | so does every run without errors |
| `ConnIDRuns.Replay` | quic-go_mod/conn_id_manager.go:45-295 | for every run, the manager object stops exactly at the first error, with that error, and otherwise ends in exactly the state that the run function gives |
| `ConnIDRuns.CleanMeans` | quic-go_mod/conn_id_manager.go:74-130 | a number in use that is not retired is in one place: active, queued, or on one path |
| `ConnIDRuns.KnownNumber` | quic-go_mod/conn_id_manager.go:81-130 | in every reachable state, a frame queues a number that is in use or retired if and only if it repeats the one probed last, and retires a number in use if and only if it is discarded and that number is active or on a path |
| `ConnIDRuns.SpoilsExactly` | quic-go_mod/conn_id_manager.go:74-295 | an event puts a number in two places, or retires one in use, if and only if it is such a frame |
| `ConnIDRuns.RunClean` | quic-go_mod/conn_id_manager.go:60-295 | in every run without such frames, each number in use is in one place and has not been retired |
| `ConnIDRuns.RunCounts` | quic-go_mod/conn_id_manager.go:60-295 | in every run, no number is in more places than frames arrived for it, and with one frame per number each is in exactly one place |
| `ConnIDRuns.RetirePriorHonoured` | quic-go_mod/conn_id_manager.go:90-130 | in every run, no ID in use is ever below the Retire Prior To of a frame that was not discarded |
| `ConnIDRuns.HonouredExactly` | quic-go_mod/conn_id_manager.go:81-130 | a Retire Prior To is honoured if and only if its frame is not discarded, or nothing was below it anyway |
| `ConnIDRuns.CloseUnregisters` | quic-go_mod/conn_id_manager.go:188-198 | after Close, no token is registered |
| `ConnIDRuns.SecondTokenStays` | quic-go_mod/conn_id_manager.go:188-217 | unless the first token was set again: what it replaced stays registered |
| `ConnIDRuns.PreferredAddress` | quic-go_mod/conn_id_manager.go:60-62 | the ID of a preferred address keeps the invariant exactly while number 0 is active and no later ID was probed |
| `ConnIDRuns.LateFrameDropsRetirement` | quic-go_mod/conn_id_manager.go:81-88 | a run after which the active ID is below a received Retire Prior To |
| `ConnIDRuns.RepeatedFrameSharesID` | quic-go_mod/conn_id_manager.go:81-88 | a run that puts one ID on two paths |
| `ConnIDRuns.RepeatedFrameReturnsID` | quic-go_mod/conn_id_manager.go:81-88 | a run that queues a retired ID |
| `ConnIDRuns.RepeatedFrameRetiresActive` | quic-go_mod/conn_id_manager.go:74-79 | a run that retires the active ID, which stays active |
| `IncomingStreams.FirstCredit` | quic-go_mod/streams_map_incoming.go:60-70 | at first, the credit is the configured number |
| `IncomingStreams.OpenCredit` | quic-go_mod/streams_map_incoming.go:142-148 | opening a stream uses one unit of credit |
| `IncomingStreams.DeleteCredit` | quic-go_mod/streams_map_incoming.go:185-197 | a completed stream raises the limit by exactly one, unless stream numbers run out |
| `IncomingMap.IncomingStreamsMap.constructor` | quic-go_mod/streams_map_incoming.go:42-71 | no stream is open, and the credit is the configured number |
| `IncomingMap.IncomingStreamsMap.GetOrOpenStream` | quic-go_mod/streams_map_incoming.go:115-153 | an error exactly above the limit; otherwise the stream and all before it are open, or it is gone |
| `IncomingMap.IncomingStreamsMap.DeleteStream` | quic-go_mod/streams_map_incoming.go:155-199 | errors exactly for unknown and for repeated deletions; a stream that is not accepted yet is kept; otherwise it is deleted and the next limit advertised |
| `IncomingMap.IncomingStreamsMap.TryAccept` | quic-go_mod/streams_map_incoming.go:85-112 | the next stream in order, also if it was completed before |
| `IncomingMap.OpenToOpens` | quic-go_mod/streams_map_incoming.go:139-148 | the loop opens exactly the streams up to the one that is wanted, and signals the channel |
| `IncomingMap.IncomingStreamsMap.DrainChannel` | quic-go_mod/streams_map_incoming.go:73-78 | a call takes the signal, if there is one, before it takes the lock |
| `IncomingMap.IncomingStreamsMap.ReceiveSignal` | quic-go_mod/streams_map_incoming.go:96-101 | a call that waits takes the signal before it takes the lock |
| `IncomingStreams.StepKeepsInv` | quic-go_mod/streams_map_incoming.go:60-199 | every channel operation and every section under the lock keeps credit, order and what is open consistent |
| `IncomingStreams.RunKeepsInv` | quic-go_mod/streams_map_incoming.go:60-199 | so does every interleaving |
| `IncomingStreams.CreditAndOrder` | quic-go_mod/streams_map_incoming.go:60-199 | for every interleaving: streams are accepted in order, each once; open streams and credit never exceed the configured number, and equal it exactly until stream numbers run out; limits increase by one |
| `IncomingStreams.GoneExactly` | quic-go_mod/streams_map_incoming.go:92-199 | in every interleaving, a stream that was opened is in the map until it is both accepted and completed, in either order |
| `IncomingStreams.LosesWakeup` | quic-go_mod/streams_map_incoming.go:73-113 | a step loses a wakeup if and only if it takes the signal while another call waits and streams are left for both |
| `IncomingStreams.ConsiderateAwake` | quic-go_mod/streams_map_incoming.go:73-113 | in every interleaving without such steps, a call that could accept a stream is never left waiting without a signal |
| `IncomingStreams.OneCallerAwake` | quic-go_mod/streams_map_incoming.go:73-113 | with one caller, no wakeup is ever lost |
| `IncomingStreams.TwoCallsShareWakeup` | quic-go_mod/streams_map_incoming.go:73-113 | an interleaving in which one of two calls sleeps although its stream is there |
| `ReceiveStreaming.ReceiveStream.DequeueNextFrame` | quic-go_mod/receive_stream.go:239-248 | the frame that was read is released once; the next one is the last exactly if it ends at the final size |
| `ReceiveStreaming.ReceiveStream.ReadImpl` | quic-go_mod/receive_stream.go:129-237 | the next bytes of the stream; the end only at the final size, and with the last byte exactly if the final size was known when its frame was begun; waiting only if the next byte is missing |
| `ReceiveStreaming.ReceiveStream.Read` | quic-go_mod/receive_stream.go:84-106 | the same, and completion is reported once |
| `ReceiveStreaming.ReceiveStream.IsNewlyCompleted` | quic-go_mod/receive_stream.go:108-127 | completion is reported the first time the end was read and the final size is known |
| `ReceiveStreaming.ReceiveStream.UpdateHighestReceived` | quic-go_mod/internal/flowcontrol/stream_flow_controller.go:48-99 | an error exactly for inconsistent final sizes, or outside of the window |
| `ReceiveStreaming.ReceiveStream.HandleStreamFrame` | quic-go_mod/receive_stream.go:299-315 | each of the three errors exactly in its case; otherwise exactly the frame's offsets are filled, and the final size is taken, once |
| `ReceiveRuns.ReadStream` | quic-go_mod/receive_stream.go:84-315 | for every run, up to exactly the first frame that causes an error: what is read is a prefix that has arrived; without an error it is the longest one, the end is reported exactly at the size on which all FINs agree, and the stream's callbacks and stored data are where accounts settled event by event say, all of them invoked and nothing stored by the end |
| `ReceiveRuns.BufferWaits` | quic-go_mod/frame_sorter.go:171-215 | after every event, a callback that is given once has not been invoked, and is not that of the frame being read, while 128 bytes of its frame are stored, or a part of a frame that was all new |
| `ReceiveRuns.LateFin` | quic-go_mod/receive_stream.go:239-248 | a run in which the end is not reported with the last byte, because it became known only after the last frame was begun |
| `ReceiveRuns.EarlySucceeds` | quic-go_mod/receive_stream.go:299-315 | frames of one stream within the window cause no error before there are 20000 |
| `MachineBytes.IncrementValue` | reality_mod/conn.go:247-260 | the incremented bytes have the next value |
| `Padding.MaskIsBit31` | reality_mod/conn.go:295-309 | the mask is 255 if bit 31 is clear, and 0 otherwise |
| `Padding.ClearDifference` | reality_mod/conn.go:311 | all bits stay set exactly if the bytes are equal or masked out |
| `Padding.ExtractPadding` | reality_mod/conn.go:289-334 | 255 and the length exactly for good padding whose length does not look negative; 0 and one byte otherwise; nothing for an empty payload |
| `Padding.ShortPayload` | reality_mod/conn.go:295-297 | below 2^31 bytes no length looks negative |
| `Padding.LongPayloadRefused` | reality_mod/conn.go:295-297 | good padding that is refused |
| `Padding.Pad` | reality_mod/conn.go:606-614 | whole blocks, and padding that is good |
| `Padding.PadAndRemove` | reality_mod/conn.go:604-614 | removing the extracted padding gives back what was padded |
| `RecordNonce.XorNonceAead.Seal` | reality_mod/cipher_suites.go:484-494 | seals with the mask combined with the sequence number, and leaves the mask as it was |
| `RecordNonce.XorNonceAead.Open` | reality_mod/cipher_suites.go:496-506 | opens with the same nonce, and leaves the mask as it was |
| `RecordNonce.RecoverXor` | reality_mod/cipher_suites.go:484-487 | the sequence number can be read off the nonce |
| `RecordNonce.SeqValue` | reality_mod/conn.go:247-260 | record k has sequence number k, and the counter is full exactly at 2^64 - 1 |
| `RecordNonce.NoncesDiffer` | reality_mod/conn.go:521-525 | no two records under one key have the same nonce |
| `RecordLayer.UnpadInner` | reality_mod/conn.go:424-434 | the scan from the end finds payload and type, whatever the padding |
| `RecordLayer.OpenSealed` | reality_mod/conn.go:348-435 | a sealed record opens to its payload and type exactly if it is not too large |
| `RecordLayer.SealedImitates` | reality_mod/conn.go:532-600 | a sealed record has the imitated length if and only if without noise it has at least 1350 bytes and fits |
| `RecordPadding.PaddingExceeds` | reality_mod/conn.go:532-590 | the padding needs more than 8192 zeros if and only if the record is a handshake record with a payload below 200 bytes, and the imitated length plus the number drawn exceeds the payload and the overhead by more than 8098 |
| `RecordPadding.PaddingFate` | reality_mod/conn.go:561-589 | hence a short payload is safe for every draw exactly up to one length, and fails for every draw exactly from another |
| `RecordPadding.LongestFinishedPanics` | reality_mod/conn.go:548-589 | a Finished message in place of the longest record fails whatever is drawn |
| `RecordPadding.PaddedSize` | reality_mod/conn.go:561-589 | padding never makes a record larger than allowed |
| `RecordPadding.ImitationExact` | reality_mod/conn.go:561-589 | a record gets the imitated length if and only if it has at least 1350 bytes and fits |
| `RecordPadding.NoisePadding` | reality_mod/conn.go:570-585 | without a record to imitate, exactly handshake records below 1350 bytes are padded, up to that, with 100 to 349 bytes if the payload is small and 30 to 149 otherwise |
| `RecordPadding.FlightImitates` | reality_mod/conn.go:532-560 | each message of a server's flight imitates the record of its own kind, and each record is imitated once |
| `RecordLayer.HalfConn.PadRecord` | reality_mod/conn.go:528-590 | panics exactly if the padding needs more than 8192 zeros; otherwise the payload, its type and the padding, and the imitated length is used up |
| `RecordLayer.HalfConn.SetTrafficSecret` | reality_mod/conn.go:237-245 | the counter starts again with new keys |
| `RecordLayer.HalfConn.IncSeq` | reality_mod/conn.go:247-260 | the loop over the bytes increments the counter, which must not be full |
| `RecordLayer.HalfConn.Encrypt` | reality_mod/conn.go:488-630 | panics exactly if the padding needs more than 8192 zeros; otherwise the record is sealed under the counter, which moves on; its header says 23, 3, 3 and the length of the rest, as far as two bytes can; the mask is unchanged |
| `RecordLayer.HalfConn.Decrypt` | reality_mod/conn.go:348-470 | every outcome, alerts included: BadRecordMAC exactly if the cipher refuses, RecordOverflow exactly for application data that is too long; the counter moves on exactly if an encrypted record is accepted |
| `RecordLayer.FindType` | reality_mod/conn.go:424-434 | the loop finds the last byte that is not zero |
| `RecordFraming.ReadRecords` | reality_mod/conn.go:677-762 | the bytes on the wire are split into records by the lengths in their headers, up to exactly the first one that is incomplete, too large or of another version |
| `RecordFraming.DeframeExact` | reality_mod/conn.go:700-752 | records that follow each other are told apart again if and only if none is too large |
| `RecordRuns.PaddedFits` | reality_mod/conn.go:532-590 | with recorded lengths, no padded record is too large for the receiver |
| `RecordRuns.ShortMessagePanics` | reality_mod/conn.go:532-590 | a message that fits one record fails if and only if it is short and its imitated length plus the number drawn is too large |
| `RecordRuns.SafeLengths` | reality_mod/conn.go:532-590 | no message fails if the imitated lengths are at most 7850 and the overhead |
| `RecordRuns.ShownFaithful` | reality_mod/conn.go:553-558 | the receiver sees a handshake message as it is, if and only if no record of it starts like a session ticket to imitate |
| `RecordRuns.FakeTicket` | reality_mod/handshake_server_tls13.go:176-180 | the one-byte message that stands for a session ticket is seen as empty application data |
| `RecordRuns.Conn.MaxPayloadSizeForWrite` | reality_mod/conn.go:971-1016 | between 1 and 16384, growing by the payload of a TCP segment with every record until enough was sent |
| `RecordRuns.Conn.WriteRecord` | reality_mod/conn.go:1076-1110 | panics exactly if one of its records does; otherwise the records together carry exactly the data, with its type, in order |
| `RecordRuns.WireSplits` | reality_mod/conn.go:1076-1110 | what a connection has written can be split into its records if and only if none is too large, and always if the cipher adds at most 255 bytes |
| `RecordRuns.Receive` | reality_mod/conn.go:348-470 | records decrypted in order, each under its own number, give back their payloads and types |
| `RecordRuns.Transfer` | reality_mod/conn.go:488-630 | for every sequence of messages and any padding, up to exactly the first one on which the sender panics: each is received with its type, complete and in order, and both counters agree; the receiver finds the records in the bytes on the wire, if the cipher adds at most 255 |
| `TicketKeys.AtMostSeven` | reality_mod/common.go:1109-1116 | keys a day apart that were alive when the first was created are at most seven |
| `TicketKeys.FreshMeansYoung` | reality_mod/common.go:1093-1096 | while the first key is fresh, there are at most seven keys, and none has reached eight days |
| `TicketKeys.SpacedRotation` | reality_mod/common.go:1104-1116 | a rotation keeps the keys newest first and a day apart |
| `TicketKeys.UnexpiredExactly` | reality_mod/common.go:1111-1116 | no key that has not expired by the end of a rotation is dropped, and none that had expired before is kept |
| `TicketKeys.StepKeeps` | reality_mod/common.go:1093-1119 | every section keeps the keys newest first, a day apart and alive, and what it returns is fresh |
| `TicketKeys.ReturnedFresh` | reality_mod/common.go:1093-1119 | after every interleaving and for every clock that does not go back: what is returned has at most seven keys, newest first and a day apart, the first one fresh and none eight days old |
| `TicketKeys.NeverDroppedEarly` | reality_mod/common.go:1093-1119 | whatever sections run meanwhile, a key stays in use until it has expired |
| `TicketKeys.Config.FastPath` | reality_mod/common.go:1093-1096 | the keys are returned exactly if the first one is fresh, and stay as they are |
| `TicketKeys.Config.Rotate` | reality_mod/common.go:1101-1119 | the keys stay as they are if the first one is fresh; otherwise the new one comes first, and what is returned is what is stored |

## Left out

- The balanced tree behind the gaps: gaps are a map from start to end, and `GapTree.Match` and `GapTree.Least` state what the tree is used for.
- RESET_STREAM_AT and 0-RTT rejection: partial delivery changes the accounting of a reset stream.
- Cancellation of a receive stream, deadlines and shutdown errors: the reader is modelled without them.
- Buffer reuse (`PutBack` and frame pools), and the aliasing of frames between the framer and the streams.
- Window updates and auto-tuning of flow control: windows are parameters; only the check of final sizes is modelled.
- The read lock in GetOrOpenStream: its check is repeated under the write lock, and only one goroutine calls it.
- The loop that records the lengths to imitate (`reality_mod/tls.go:290-366`), and the buffer that joins handshake messages when the first length is above 512 (`reality_mod/conn.go:1136-1145`).
- TLS 1.2 and earlier, except for CBC padding.
- Handshake messages, certificates, key schedules and cryptographic primitives.
- `cmd`, `conf`, `core`, `node`, `limiter`, sockets, timers, logging and the packet packer.
- SendStreaming.SendStream.PopStreamFrame: packets of more than 16385 bytes, for which `Wire.MaxStreamDataLenExact` says when the estimate fails; the source has none.
- Framing.Framer.Append: packets of more than 16383 bytes, for which `Framing.LastFrameFitsExactly` and `Wire.MaxStreamDataLenExact` say what fails; the source has none.
- ConnIDManaging.ConnIDManager.Add: a closed manager is not given a frame that makes it switch its ID, where the source panics.
