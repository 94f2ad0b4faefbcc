# Verified models of the hard core of the RustDesk client

This project models, and proves properties of, the parts of the RustDesk client where a wrong branch is
hardest to notice by reading: how a connection is raced and who owns the WebRTC peer connection meanwhile,
how the audio jitter buffer drops old samples, where a login password came from and whether it may be
stored, how two clipboards stay in step without echoing, and the scanners and parser of the packaging
scripts. `dafny verify dfyconfig.toml` checks everything.

| file | module | what it models |
|---|---|---|
| `race.dfy` | `TransportRace` | the race that prefers a peer-to-peer path, as a loop proved against a specification over histories of completions and timer polls |
| `connection.dfy` | `Connection` | `connect`, `_start_inner`, `_start`, `secure_connection` and the offerer guards; every await may end in cancellation |
| `ice.dfy` | `IceCandidates` | the bounded buffer of remote candidates and the bridge that sends each local one twice |
| `audio_ring.dfy`, `audio.dfy` | `AudioRing`, `AudioJitter` | the sample ring over an array, the occupancy histogram, the drop rule and the output callback |
| `audio_run.dfy`, `audio_frames.dfy` | `AudioRuns`, `AudioFrames` | runs of that buffer that interleave producer and callback, and when their ring stays on a frame boundary |
| `login.dfy` | `LoginPassword` | the handler's password fields under hash, UI-login, login-error and peer-info events |
| `clipboard_proto.dfy`, `clipboard_sync.dfy` | `ClipboardProto`, `ClipboardSync` | the wire form of clipboard contents, the owner marker, and two peers exchanging clipboards |
| `scan.dfy`, `glibc.dfy` | `ChunkedScan`, `GlibcScan` | the two chunked file scanners |
| `elf.dfy` | `ElfInspection` | the ELF parser of the Android release gate |
| `common.dfy`, `bytes.dfy` | `Common`, `ByteData` | what several of these need |

How to read the model:

- A schedule of the race lists what the awaiting task observes, in order: single attempts completing, and
  polls of the preference timer. `select_ok` is a set of pending attempts that resolves on the first
  success or the last error, so an attempt that fails while others are pending changes only that set.
- In `Connection` an await is a call (`AwaitIo`, `AwaitRace`, ...) whose `requires` says that a live peer
  connection is inside an armed guard, and whose result may be that the future was dropped there. The guards
  of a running future are the slots of a `Frame`, and `Frame.Drop` is what leaving its scope does. A `Frame`
  also records, in ghost fields, what its awaits did: what the race observed and picked, how often a relay was
  asked for, whether the peer's answer was applied.
- `AudioBuffer` keeps the occupancies counted since the last pass in a ghost log next to the real ring and
  counters. `AudioRuns` says on values what appending, shrinking and playing do; the methods on the buffer are
  proved to do that, and what holds of every run is proved about the values.
- `LoginPassword` records beside the handler's fields which of its passwords came from a shared address
  book, independently of the source field that the program consults.

Properties that turned out not to hold, each with its exact condition:

- A WebRTC offerer that one request handed out, parked by the outer race of `_start` and then beaten by the
  TCP fallback, is neither closed nor returned: its guard is already disarmed. `OffererIsAbandoned` gives the
  run; `OuterRace` says, for the history the race observed and the exit it led to, that this and cancelling
  everything while it is parked are the only ways to leave the offerer neither closed nor backing the
  result. Within one request the ownership claim has no exception.
- The relay override in `connect` does not clear the KCP handle (`RelayReplacementFits`); the handle still
  fits on every run of `_start`, because no UDP or IPv6 socket is opened when a relay is forced.
- A switch-sides session that starts with a shared password in its connection token and remembers
  passwords can store that password (`StoresAfterSwitch`); every other session never does
  (`SharedPasswordIsNeverStored`).
- The 16-byte carry of the GLIBC scan suffices exactly for versions of at most nine digits
  (`ExactDigitLimit`), and the marker scan is exact exactly when a chunk is at least as long as the
  marker less one byte (`ExactChunkSize`).
- A pass drops an even number of samples, which need not be whole frames. The head of the ring stays on a
  frame boundary in every run exactly on devices with at most two channels, or with a sample rate that is a
  multiple of 80, or of 40 when the number of channels is even (`FramesSurviveIff`): six channels are safe at
  48000 Hz and not at 44100 Hz (`SixChannels`).

## Model

| member | source | states |
|---|---|---|
| `TransportRace.Race` | src/client.rs:211-319 | on every legal schedule the loop stops at the first prefix that decides the race and returns the answer read off that history; the wake-ups that history causes are counted, and there are at most 1 + others |
| `TransportRace.OnWebRtc` | src/client.rs:233-265 | one WebRTC completion: the right answer if it decides the race, otherwise the saved connection, errors and window still agree with the history, and an attempt fewer is in flight |
| `TransportRace.OnOtherOk` | src/client.rs:275-295 | the same for a success of another attempt, including the attempts put back into `select_ok` |
| `TransportRace.OnOtherErr` | src/client.rs:296-308 | the same for a failure of another attempt, which wakes the loop only when it was the last one; the exit that would lose both the error and a parked connection is unreachable |
| `TransportRace.OnTimer` | src/client.rs:311-316 | the timer wakes the loop exactly after the window and returns the parked connection, and there always is one |
| `TransportRace.Select` | src/client.rs:226-317 | whichever branch is ready, at every loop head something is in flight and a connection is parked iff the window is armed |
| `TransportRace.InitialState` | src/client.rs:217-224 | the loop starts in agreement with the empty history |
| `TransportRace.FirstRelay` | src/client.rs:237-291 | the first relayed success in a history and none before it |
| `TransportRace.VerdictWasObserved` | src/client.rs:225-318 | a returned connection is the result of some attempt |
| `TransportRace.DirectWinsOutright` | src/client.rs:235-237 | a direct result ends the run at once and is the answer |
| `TransportRace.RelayOnlyAsLastResort` | src/client.rs:205-209 | a relayed connection is returned only if no direct one was observed and either nothing is in flight or the window's length has passed since a relayed one |
| `TransportRace.WindowEndsTheRace` | src/client.rs:311-314 | a timer seen the window after the first relayed success ends the race with that relay, whatever is still in flight |
| `TransportRace.WindowIsNotCutShort` | src/client.rs:245-247 | a timer seen earlier decides nothing |
| `TransportRace.LastCompletionChooses` | src/client.rs:254-304 | when every attempt has completed, a relayed success that comes last is the answer, and after a failure that comes last the relay parked first |
| `TransportRace.SettledIff` | src/client.rs:225-274 | nothing is in flight exactly when every attempt has completed |
| `TransportRace.DecisionWakes` | src/client.rs:226-317 | the event that decides the race is one that wakes it |
| `TransportRace.WindowNeverExtended` | src/client.rs:243-248 | the window is armed by the first relayed success and by nothing later |
| `TransportRace.DirectWithinWindowWins` | src/client.rs:205-209 | a direct attempt completing before the window of the first relay has run out is the answer, on every schedule |
| `TransportRace.FailsIffEverythingFailed` | src/client.rs:251-307 | the race fails iff every attempt completed with an error |
| `TransportRace.FailureNamesBothErrors` | src/client.rs:259-301 | the failure carries an error of the WebRTC attempt and one of the others |
| `TransportRace.CompletionDecides` | src/client.rs:225-317 | the race cannot still be waiting once every attempt has completed |
| `TransportRace.SelectOk` | src/client.rs:574-578 | plain `select_ok`: the first success, or an error only when all have failed |
| `Connection.Frame.Drop` | src/client.rs:197-203 | leaving a scope closes exactly the peer connection that an armed guard holds |
| `Connection.AwaitRace` | src/client.rs:1457-1463 | the raced result is a success of one of the attempts, and a relayed one only as a last resort: nothing direct observed, and all settled or 2500 ms passed |
| `Connection.RelayIsLastResort` | src/client.rs:205-209 | the same of every observed history |
| `Connection.AwaitSelectOk` | src/client.rs:1466-1466 | the result is the first success |
| `Connection.AwaitPair` | src/client.rs:1573-1575 | relay-only ICE never reports a non-TURN pair |
| `Connection.AwaitSecure` | src/client.rs:1586-1700 | the handshake changes nothing but the security; a peer with a verified identity is keyed exactly when it signed its id, over WebRTC only when it signed the fingerprint the channel shows, and it fails only by an await or because a WebRTC channel is not bound |
| `Connection.AwaitFallbackRelay` | src/client.rs:1533-1549 | the fallback asks for one relay, which is secured and has its label and no direct flag |
| `Connection.RelayReplacementFits` | src/client.rs:1497-1503 | replacing a stream by a relay gets label and direct flag right, and the KCP handle iff there was none |
| `Connection.AwaitDirect` | src/client.rs:1399-1468 | the winner of the punch path has matching label, flag and KCP handle, is one of the transports offered, and is relayed only as a last resort |
| `Connection.AwaitStream` | src/client.rs:1455-1508 | a relay is asked for exactly when nothing was picked or one is forced and WebRTC was not picked, and only when its server is known |
| `Connection.AwaitSecured` | src/client.rs:1514-1568 | a failed handshake on WebRTC closes the offerer and asks for a relay; on any other stream it fails |
| `Connection.AwaitReturn` | src/client.rs:1569-1582 | a WebRTC stream stays direct only if ICE confirms a non-TURN pair, and then leaves its guard |
| `Connection.SecureAndReturn` | src/client.rs:1514-1582 | together: what is returned is the stream or the relay that replaced it, secured by the peer's side of that stream |
| `Connection.ConnectBody` | src/client.rs:1361-1582 | on every exit the offerer is guarded, closed or backing the result; a relay is returned exactly when one was asked for, anything else is what the race picked, and the request does not give up before it has asked for a relay unless a direct connection failed its handshake; under forced relay only a relay or WebRTC is returned, and under relay by policy nothing direct |
| `Connection.Connect` | src/client.rs:1329-1583 | the offerer handed in is closed iff it does not back the returned stream, for success, error and cancellation; label and flags describe the stream, which is permitted and secured |
| `Connection.AdoptOfferer` | src/client.rs:1010-1055 | the offerer is adopted exactly when there is an answer and applying it succeeded, after every buffered candidate was added, and closed otherwise; at each cancellation point it is still guarded |
| `Connection.AwaitRelayed` | src/client.rs:1084-1122 | the winner of the relay-response race has matching label, flag and KCP handle, is direct only over IPv6 or a non-TURN pair, and is the first success under relay by policy or without WebRTC, and otherwise relayed only as a last resort |
| `Connection.SecureRelayed` | src/client.rs:1131-1193 | the end of the relay-response path, as `Connection.SecureAndReturn` |
| `Connection.RelayResponseBody` | src/client.rs:984-1199 | the relay-response path keeps the ownership rule and the fitting of label, flag and KCP handle, is never direct under relay by policy, and replaces exactly a picked WebRTC stream whose handshake failed |
| `Connection.HandleAnswer` | src/client.rs:934-1199 | whatever is returned was granted by the message that decided: its identity secured the stream and it offered the transport |
| `Connection.PunchedBody` | src/client.rs:1231-1327 | the same for the punch path; an adopted offerer is closed when the peer's address has no port |
| `Connection.StartInnerBody` | src/client.rs:784-1230 | over any messages in three punch attempts: what is returned was granted by the first message that decides, and without one the request gives up only after three attempts or a failure |
| `Connection.StartInner` | src/client.rs:760-1327 | on every exit of a polled request the offerer is closed iff it does not back the returned stream, which is permitted, granted by the answer and secured by its identity |
| `Connection.OuterRace` | src/client.rs:545-573 | the exit is the verdict of the observed history, or a cancellation before there was one; the offerer is never both closed and backing the result, and it is neither exactly when it was parked and then the fallback's connection was returned or everything was cancelled |
| `Connection.LeftOpenIff` | src/client.rs:197-319 | for every observed history and its exit: a handed-out offerer backs the result or is left open in exactly that way |
| `Connection.Start` | src/client.rs:399-602 | for a peer id: no transport is used that the settings rule out, forced relay yields only a relay or WebRTC, relay by policy nothing direct, a proxy no WebRTC; label, flag and KCP handle always fit; the two requests are raced exactly when there is an offerer, no forced relay, and TCP punch; without that race the offerer is closed iff it does not back the result, with it as `Connection.OuterRace` says |
| `Connection.AbandonedIff` | src/client.rs:565-573 | once the outer race is decided, the offerer is lost exactly when it was parked on a relayed pair and the fallback connected |
| `Connection.ParkedIff` | src/client.rs:237-250 | while the outer race goes on, an offerer that was handed out is the parked one, and conversely |
| `Connection.OffererIsAbandoned` | src/client.rs:242-250 | a run in which the offerer is lost |
| `Connection.LastIsParked` | src/client.rs:242-250 | a handed-out stream that does not end the race is parked, with only the fallback in flight |
| `Connection.OnlyFallbackIsLeft` | src/client.rs:225-319 | after a handed-out stream was parked only the fallback can complete |
| `Connection.AfterHandOut` | src/client.rs:225-319 | a stream handed out by the preferred request is the parked one, unless it ended the race |
| `Connection.NothingBefore` | src/client.rs:225-319 | nothing completed before the preferred request while the fallback is pending |
| `IceCandidates.BufferCandidates` | src/client.rs:1200-1224 | the pending buffer is the last 64 of the accepted candidates, in order |
| `IceCandidates.AcceptedIff` | src/client.rs:581-583 | accepted are exactly the non-empty candidates that carry the session's own, non-empty key |
| `IceCandidates.AcceptedInPieces` | src/client.rs:1200-1224 | accepting goes candidate by candidate, in order |
| `IceCandidates.IceBridge.SendFirst` | src/client.rs:668-689 | a first copy that is sent is queued for its second one with the time it was sent |
| `IceCandidates.IceBridge.SendSecond` | src/client.rs:705-716 | one queued candidate leaves the queue and is sent; if the socket fails only that one is missing |
| `IceCandidates.IceBridge.ResendDue` | src/client.rs:700-720 | the `swap_remove` loop leaves nothing that was due, loses nothing and adds nothing |
| `IceCandidates.IceBridge.AtMostTwice` | src/client.rs:638-720 | each candidate is sent at most twice also when one was lost, and exactly twice once the queue is empty and it is not the lost one |
| `IceCandidates.IceBridge.ResendAt` | src/client.rs:703-719 | one turn of that loop: what is due leaves the queue, what is kept was not due, and only a failing send is lost |
| `IceCandidates.IceBridge.SendAll` | src/client.rs:665-698 | all gathered candidates get their first copy, in order, and join the queue |
| `IceCandidates.IceBridge.Round` | src/client.rs:659-720 | one turn of the bridge: every gathered candidate gets its first copy, everything sent 400 ms before the turn its second and nothing sooner, unless the socket fails; what left the queue is exactly what was sent a second time |
| `IceCandidates.IceBridge.RunBridge` | src/client.rs:649-758 | over any turns, however the bridge ends: second copies are among the first ones, first ones among the gathered, and at most one second copy is lost; while the socket works everything first sent 400 ms before the last turn has had its second copy |
| `IceCandidates.SwapRemoveLosesOne` | src/client.rs:705 | `swap_remove` removes exactly the chosen element |
| `IceCandidates.SwapRemoveKeepsTheRest` | src/client.rs:702-720 | the other elements stay, and those before the chosen one do not move |
| `AudioRing.HeapRb.Skip` | src/client.rs:2152 | the oldest samples leave the ring |
| `AudioRing.HeapRb.PushSliceOverwrite` | src/client.rs:2164-2172 | the circular array holds the last `capacity` samples of old contents and slice |
| `AudioRing.HeapRb.PopSlice` | src/client.rs:2388-2391 | the oldest samples are handed out in order and leave the ring |
| `AudioJitter.AppendToRing` | src/client.rs:2160-2174 | for every input length the ring keeps the newest samples, and the result is how many it holds |
| `AudioJitter.AudioBuffer.AppendPcm2` | src/client.rs:2160-2174 | the ring holds the newest samples of old contents and input, and the result is its length |
| `AudioJitter.AudioBuffer.constructor` | src/client.rs:2070-2081 | the buffer starts with three seconds of stereo at 48 kHz |
| `AudioJitter.AudioBuffer.Resize` | src/client.rs:2085-2093 | the capacity stays three times the rate; an unchanged rate changes nothing, a new one gives an empty ring |
| `AudioJitter.AudioBuffer.TryShrink` | src/client.rs:2095-2155 | a call within 12 s only counts; a pass drops exactly what the plain rule says, leaves all 30 counters zero, and without a resize drops at most two thirds of the lowest occupancy of the period plus one sample |
| `AudioJitter.AudioBuffer.Count` | src/client.rs:2099-2103 | exactly the bucket of the occupancy is incremented |
| `AudioJitter.ScanAndClear` | src/client.rs:2118-2140 | the one-pass scan finds the first largest bucket (bucket 0 taken as empty) and the length of the empty run, and clears every counter |
| `AudioJitter.ClearedBucketIsIrrelevant` | src/client.rs:2122-2145 | clearing bucket 0 before comparing it never changes the drop level of the plain rule |
| `AudioJitter.Dropped` | src/client.rs:2134-2154 | a drop is even and less than a third of what is buffered |
| `AudioJitter.DropRule` | src/client.rs:2118-2154 | the rule in numbers: nothing when the first largest bucket is below the sixth, otherwise a 120th of the capacity times the lower of it and four times two thirds of the empty run, rounded up to even, if more than three times that is buffered |
| `AudioJitter.UsuallyLowIsKept` | src/client.rs:2137-2142 | a buffer that is below 600 ms at least as often as at any other level is not shrunk |
| `AudioJitter.SteadyBuffer` | src/client.rs:2095-2154 | a steady buffer loses nothing below 600 ms and otherwise between three fourteenths and a quarter, up to rounding |
| `AudioJitter.HistogramTallies` | src/client.rs:2099-2103 | each counter is the number of occupancies in its tenth of a second |
| `AudioJitter.AudioBuffer.DropOldest` | src/client.rs:2134-2154 | exactly the amount the two water marks allow leaves the ring, oldest first |
| `AudioJitter.ObservedIsCounted` | src/client.rs:2099-2103 | the bucket of every occupancy of the period is not empty |
| `AudioJitter.DropIsBelowTheLowestOccupancy` | src/client.rs:2118-2153 | three times the drop is at most twice any occupancy of the period plus three |
| `AudioJitter.ClampOnlyWhenFull` | src/client.rs:2099-2102 | the histogram index exceeds 29 iff the ring is full |
| `AudioJitter.AudioBuffer.Play` | src/client.rs:2359-2400 | the callback plays the oldest samples in order and fills up with silence |
| `AudioRuns.RunAppend` | src/client.rs:2160-2174 | the buffer does what appending does on values, including how much overflows |
| `AudioRuns.RunShrink` | src/client.rs:2095-2155 | the buffer does what shrinking does on values: the counters, the time, and exactly the drop of the plain rule |
| `AudioRuns.RunPlayback` | src/client.rs:2359-2392 | the buffer does what playing does on values: exactly the oldest samples are played |
| `AudioRuns.Run` | src/client.rs:2095-2392 | over every interleaving, the buffer's ring, counters and time, the samples played and the number dropped are those of the run on values |
| `AudioRuns.RunIsAccounted` | src/client.rs:2147-2174 | over every interleaving: appended = played + dropped + buffered, the ring is the end of everything appended, and the played samples are an in-order selection of the rest |
| `AudioRuns.AppendsKeepTheNewest` | src/client.rs:2157-2174 | as long as nothing is played and no pass is made, the ring holds the newest of everything appended, however it was cut into pieces |
| `AudioFrames.RunKeepsFrames` | src/client.rs:2147-2174 | on devices that meet the condition the ring holds whole frames after every run |
| `AudioFrames.SkipIsWhole` | src/client.rs:2150 | on these devices every drop is a multiple of the channel count |
| `AudioFrames.OffBeat` | src/client.rs:2150 | with three channels or more, a load whose remainder modulo 40 is between 16 and 24 gives a drop that is no multiple |
| `AudioFrames.OddLoad` | src/client.rs:2150 | so does rounding up an odd load |
| `AudioFrames.OffBeatLevel` | src/client.rs:2099-2145 | for every sample rate that is no multiple of 40 there is a water mark with such a load, and an occupancy in whole frames that gives it |
| `AudioFrames.BreakingDrops` | src/client.rs:2095-2174 | the run that appends, plays and appends again, and passes after 12 seconds, drops exactly that amount |
| `AudioFrames.Breaks` | src/client.rs:2095-2174 | whenever that amount is no multiple of the channel count, a run of whole frames leaves the frame boundary |
| `AudioFrames.FramesSurviveIff` | src/client.rs:2085-2155 | per device, for every sample rate and channel count: whole frames survive every run iff there are at most two channels, or the rate is a multiple of 80, or of 40 with an even channel count |
| `AudioFrames.SixChannels` | src/client.rs:2150 | six channels keep whole frames at 48000 Hz and lose them at 44100 Hz |
| `LoginPassword.LoginConfigHandler.constructor` | src/client.rs:2744-2756 | a new handler remembers iff a password is stored, and takes password and source from the connection token |
| `LoginPassword.LoginConfigHandler.HandleHash` | src/client.rs:4402-4493 | one clause for each source, in the order shared, last, preset, stored, personal, built-in: it is used, with its source recorded, exactly when those before it have nothing to offer; an accepted switch and incoming-only mode leave the password alone |
| `LoginPassword.LoginConfigHandler.HandleLoginFromUi` | src/client.rs:4589-4607 | the state after a login typed in the UI, or with an empty field |
| `LoginPassword.LoginConfigHandler.HandleLoginError` | src/client.rs:4263-4276 | a wrong or missing password is forgotten, its source is not |
| `LoginPassword.LoginConfigHandler.HandlePeerInfo` | src/client.rs:3458-3514 | what the stored configuration holds afterwards, and that nothing shared or already personal is handed to the address book |
| `LoginPassword.StepKeepsSound` | src/client.rs:4402-4493 | each event keeps the invariant of `RunKeepsSound` |
| `LoginPassword.RunKeepsSound` | src/client.rs:2577-2607 | over every run: a source of `SharedAb(p)` or `PersonalAb(h)` means the password is empty, the hash of p, or h; a shared password with a forgotten source is not remembered |
| `LoginPassword.SharedPasswordIsNeverStored` | src/client.rs:3464-3483 | no run stores a shared password iff the session does not start switching sides with a shared password while remembering |
| `LoginPassword.StoresAtOnce` | src/client.rs:4409-4426 | the run that stores it: the switch is accepted and the peer answers |
| `LoginPassword.StoresAfterSwitch` | src/client.rs:4409-4426 | such a run exists also when that password was already stored before |
| `LoginPassword.TokensStayTrue` | src/client.rs:3728-3738 | a session not switching sides with a shared password never forgets a source, so the tokens it hands on are true |
| `LoginPassword.OneMoreSynced` | src/client.rs:3498-3514 | what one more peer answer hands to the personal address book was stored then and is not shared |
| `LoginPassword.Session` | src/client.rs:3498-3514 | any sequence of events on the handler itself follows the traced run, and no shared password is handed to the personal address book |
| `ClipboardProto.DimensionsRoundTrip` | src/clipboard.rs:51-59 | dimensions sent as 32-bit numbers come back accepted and unchanged iff they are positive, fit, and match the byte count |
| `ClipboardProto.ItemRoundTrip` | src/clipboard.rs:713-767 | a supported item survives the wire iff it is not an image with unsound dimensions |
| `ClipboardProto.NeverLonger` | src/clipboard.rs:726-775 | decoding never gives more items than were supported |
| `ClipboardProto.ListRoundTrip` | src/clipboard.rs:726-775 | decoding an encoded list gives exactly its supported items in order iff all its images are sound |
| `ClipboardProto.WireIsNeverLonger` | src/clipboard.rs:635-710 | wire content is the shorter of raw and compressed, and flagged compressed iff it is shorter than the raw |
| `ClipboardProto.WireForm` | src/clipboard.rs:635-723 | the format of each item on the wire, with dimensions and special name |
| `ClipboardProto.WhatIsRejected` | src/clipboard.rs:737-767 | exactly text that is no UTF-8, images whose dimensions do not match, and unknown formats are rejected |
| `ClipboardProto.AcceptedDimensions` | src/clipboard.rs:51-59 | dimensions are accepted iff they are positive, four bytes a pixel fill the data exactly, and nothing overflows 64 bits |
| `ClipboardProto.AsI32Wraps` | src/clipboard.rs:665-666 | the cast keeps the value modulo 2^32 in the signed range |
| `ClipboardSync.ClipboardContext.GetFormatsFilter` | src/clipboard.rs:401-430 | an unforced read of a marked clipboard gives nothing; any other read gives its sendable items in order |
| `ClipboardSync.HasOwnerMarker` | src/clipboard.rs:412-420 | the search finds an owner marker iff there is one |
| `ClipboardSync.Filtered` | src/clipboard.rs:421-429 | the last filter keeps exactly what is sendable, in order |
| `ClipboardSync.ClipboardContext.CheckClipboard` | src/clipboard.rs:76-120 | a message is made iff the read gives something |
| `ClipboardSync.ClipboardContext.UpdateClipboard` | src/clipboard.rs:251-291 | a received list that decodes to something is taken over with the owner marker, anything else changes nothing |
| `ClipboardSync.WithOwnerMarker` | src/clipboard.rs:284-291 | the marker of the writing side comes after everything received, and the result counts as marked |
| `ClipboardSync.MarkerIsNeverSent` | src/clipboard.rs:421-429 | a list without a marker has none on the wire |
| `ClipboardSync.ReadIsEmptyIff` | src/clipboard.rs:412-420 | content from the other side is read back only when forced |
| `ClipboardSync.StepKeepsSound` | src/clipboard.rs:97-120 | copying, unforced checking and delivering keep the invariant of `NothingEchoes` |
| `ClipboardSync.NothingEchoes` | src/clipboard.rs:97-291 | in every run of two peers without forced reads each outgoing message carries the sendable part of a local unmarked copy, never content from the other side, and never the marker |
| `ClipboardSync.CopyArrives` | src/clipboard.rs:97-291 | and a local copy that is checked and delivered arrives: the other side then holds exactly its sendable part and the marker, and sends nothing back |
| `ClipboardSync.WhatIsSent` | src/clipboard.rs:61-74 | which items of which clipboards are passed on, item by item |
| `ClipboardSync.SelectKeepsOrder` | src/clipboard.rs:421-429 | filtering keeps every item that meets the condition, each once and in order |
| `ChunkedScan.CarriesMarker` | build.py:771-783 | the loop finds the marker iff some chunk with its carry contains it, and iff the file contains it when chunks are large enough |
| `ChunkedScan.NextPiece` | build.py:781-783 | carried tail and next chunk are one contiguous piece of the file |
| `ChunkedScan.WindowCatchesTheSplit` | build.py:772-783 | an occurrence that ends in a chunk lies in the chunk with its carry |
| `ChunkedScan.SearchFromIsExact` | build.py:771-783 | from any position on, the chunked search agrees with a search of the file |
| `ChunkedScan.NeverFound` | build.py:783 | with smaller chunks the marker laid over three of them is missed |
| `ChunkedScan.ExactChunkSize` | build.py:771-783 | the search is right for every file iff a chunk is at least as long as the marker less one byte |
| `GlibcScan.FindIter` | build.py:654-655 | the leftmost non-overlapping matches reach the highest version of all matches |
| `GlibcScan.SymbolIsFound` | build.py:654-655 | for every n, a library that mentions only GLIBC_2.n, in decimal, is found to require n |
| `GlibcScan.DecimalOfDigits` | build.py:655 | reading the decimal digits of n gives n |
| `GlibcScan.SkipToRunEnd` | build.py:654 | jumping over a match skips no other match |
| `GlibcScan.MaxGlibcMinor` | build.py:644-656 | the loop returns the maximum over the pieces, and over the whole file when versions have at most nine digits |
| `GlibcScan.VersionInSlice` | build.py:654-655 | a match cut by a chunk boundary never exceeds its full value |
| `GlibcScan.ScanNeverExceeds` | build.py:644-656 | for every file and chunk size the result is at most that of a whole-file scan |
| `GlibcScan.WindowCatchesTheMatch` | build.py:656 | the 16-byte tail recovers each match of at most nine digits |
| `GlibcScan.ChunkedScanIsExact` | build.py:644-656 | chunking changes nothing for versions of at most nine digits |
| `GlibcScan.TenDigitsAreCut` | build.py:656 | a ten-digit version for which the result is too low |
| `GlibcScan.ExactDigitLimit` | build.py:644-656 | the scan is exact for all files with versions of at most k digits iff k is at most nine |
| `ElfInspection.ElfLoadAlignments` | scripts/check_android_apk.py:54-92 | for every byte string all reads are in bounds; it accepts exactly the acceptable libraries and returns the alignments of their loadable segments in order |
| `ElfInspection.CheckHeader` | scripts/check_android_apk.py:55-75 | every identification field is in bounds when it is read, and exactly the acceptable headers of the expected ABI pass |
| `ElfInspection.HeaderIff` | scripts/check_android_apk.py:55-75 | the acceptable headers in full, with the class and machine of each ABI |
| `ElfInspection.AcceptedIff` | scripts/check_android_apk.py:76-92 | what is accepted beyond the header, in full: 1 to 1024 program headers in the file, of which the loadable ones fit and at least one exists |
| `ElfInspection.ReadsFileHeader64` | scripts/check_android_apk.py:58-69 | the fields are read where the 64-bit file header of the System V ABI has them, in either byte order |
| `ElfInspection.ReadsFileHeader32` | scripts/check_android_apk.py:58-73 | the same for the 32-bit class |
| `ElfInspection.ReadsProgramHeader64` | scripts/check_android_apk.py:80-84 | the fields are read where the 64-bit program header of the System V ABI has them, in either byte order |
| `ElfInspection.ReadsProgramHeader32` | scripts/check_android_apk.py:80-84 | the same for the 32-bit class |
| `ElfInspection.UnpackPack` | scripts/check_android_apk.py:57-58 | reading a number stored in either byte order gives it back |
| `ElfInspection.HeaderInBounds` | scripts/check_android_apk.py:76-84 | each program header lies inside the data |
| `ElfInspection.CheckLoad` | scripts/check_android_apk.py:85-88 | the two tests accept exactly the segments that lie in file and memory and whose alignment is 0, 1 or a power of two with offset and address congruent |
| `ElfInspection.LowestBitTrick` | scripts/check_android_apk.py:87 | a & (a - 1) is zero iff a is a power of two |
| `ElfInspection.ReadLoads` | scripts/check_android_apk.py:78-92 | the loop accepts iff every segment is good and one is loadable |
| `ElfInspection.AlignmentsArePowers` | scripts/check_android_apk.py:87-89 | every returned alignment is 0, 1 or a power of two |
| `ElfInspection.Lacks16Kb` | scripts/check_android_apk.py:114-116 | the 16 KB test fails iff some alignment is too small or no multiple of the page |
| `ElfInspection.LargeAlignmentsAreWholePages` | scripts/check_android_apk.py:115 | after the parser, the remainder test follows from the size test |
| `ElfInspection.PassingMeansMappable` | scripts/check_android_apk.py:114-116 | in a library that passes, every loadable segment has the same position in a 16 KB page in the file and in memory |

## Left out

- Sockets, TLS, DTLS, KCP, protobuf encoding, libsodium: their outcomes are nondeterministic; SHA-256 is a function whose results have 32 bytes; compression and the UTF-8 test are functions, with decompression undoing compression.
- `ringbuf`, `tokio`, `hbb_common` and `arboard` are not part of this model; the ring is modelled from how its operations are used here, `select_ok` as first success or last error.
- Dropping a WebRTC stream is taken not to close its peer connection, as the comment at src/client.rs:1430-1431 says.
- Connection.OuterRace: the two nested requests are represented by what `Connection.StartInner` ensures of each, including that a request that is dropped has closed its offerer, and are not run side by side.
- Connection.Start: the incoming-only test, the choice of rendezvous server and the settings are inputs, and the settings do not change during a run.
- Connection.AwaitSecure: what the peer sends in the handshake is an input, one side for a WebRTC stream and one for any other, since one request does the handshake at most once on each; how an identity is verified is abstracted to whether it is.
- Connection.Connect: the timeouts computed from NAT types and earlier failures are left out, so an attempt may take any time; `direct_failures` and `update_direct` are not modelled.
- Connection.StartInner: a future that is never polled has no guard yet and is outside the claim; failure texts are not modelled.
- The ICE bridge's reading side and its stop signal, and log throttling.
- TransportRace.Race: the texts that join two errors; both errors are returned side by side.
- AudioJitter.AudioBuffer.TryShrink: the time of the last pass is a process-wide static in the source and a field here, so several buffers sharing it are not modelled; a clock that goes back only postpones a pass.
- AudioJitter.AudioBuffer.Play: the sleep of the callback before it pops, which only lets other operations run in between, and the conversion of samples; samples are only moved, so they are `real`.
- AudioRuns.Run: one device at a time; a resize starts a new run, whose first pass still sees the old device's counters.
- LoginPassword.Session: the salt is the same throughout and the peer's hash arrives before the other events; what other code writes to the stored configuration is one event that stores any password not from a shared address book.
- Login messages, two-factor login, terminal-admin prompts, and the rest of the handler's settings.
- ClipboardSync.NothingEchoes: forced reads are left out of the runs; failing reads and the cache of the last message are not modelled, nor are Android and the copying of files.
- ClipboardProto.ListRoundTrip: the marker-free special formats are those a clipboard holds; file URLs and `None` are not supported on the wire in the source either.
- ChunkedScan.CarriesMarker: every read but the last returns a full chunk, as reads of regular files do.
- GlibcScan.MaxGlibcMinor: Python's limit on converting very long digit strings to integers.
- ElfInspection.ElfLoadAlignments: which of the error texts is raised; the ZIP handling around the parser.
- The remaining packaging scripts, video, key and mouse handling, file clipboard, HTTP clients and command line: nothing there spans operations the way the above does.
