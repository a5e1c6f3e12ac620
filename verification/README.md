# H3C VPN client: a verified model

This project models the parts of the H3C VPN client that hold state or protect the machine, and proves what they
guarantee. `dafny verify dfyconfig.toml` checks all of it.

- **The data plane.** Frames `type u16-LE, len u16-BE, payload` travel over one TLS stream. `Wire` is the reference
  encoder and decoder. `FrameStream` is the daemon's own streaming codec, a class with a buffer. `H3cLink` is the C
  side, a class with the receive buffer as an array compacted in place, saved write offsets, keepalive buffer and
  timers; each of its methods is proved to do to its abstract value what a function of `Link` does. `CallEffects` says
  what one call does in terms of octets, clocks and outcomes; `Receive`, `Transmit`, `Framing`, `PeerDetection` and
  `EndToEnd` prove properties of those functions over all runs. Socket results, the clock and allocation outcomes are
  inputs.
- **The engine lifecycle.** `Lifecycle` is a step relation at lock granularity: engine threads, health probes, retry
  threads with a generation number, IPC commands and network events, interleaved arbitrarily. `Generations` needs no
  hypothesis on the interleaving; `Sessions`, `Retries` and `Stops` need that starting an engine, reacting to a network
  event and leaving `engine_run` do not overlap, and give the interleavings that show why. `Progress` and
  `SessionPaths` prove what gets done: retries, network events and commands start or pause engines, and each session
  comes up, resumes and ends as it should.
- **Routes.** `Bits`, `Text` and `Netmask` cover masks, prefixes and CIDR text; `Routes`, `LinuxRoutes`, `RouteUndo`,
  `PathProtection` and `MacRoutes` treat the route commands as updates of a map from destination to next hop;
  `RouteEffects` and `MacEffects` say for each destination what becomes of it.
  Longest-prefix lookup follows section 5.2.4.3 of RFC 1812, prefix notation section 3.1 of RFC 4632.
- **The redactor.** `Redactor` replaces secrets in log text, longest first; `RedactionEffects` says what that does to a
  text and to the list; `SingleSecret` has the exact condition for one secret of any shape.

Where the code and its own comments or design notes differ, the model follows the code:

- `push` returns the frames completed in a call only if the call ends in `Ok`; those completed before an error are
  dropped, although the comment at `crates/inode-openconnect-sys/src/lib.rs:81-82` says every push returns them.
  `FrameStream.ReturnedExactly` says for which bytes and cuts that happens; `FrameStream.FramesGetLost` is such an input.
- The C receive buffer holds at least 16384 octets but an allowed frame takes up to 16388, so a frame of the allowed
  size can overflow it (`Receive.DeliveredIffFits`); with an MTU up to 16384 packets of 16381 to 16384 octets are never
  delivered (`CallEffects.LargestAreNeverDelivered`).
- The data writer and the keepalive writer do not look at each other's offset; the stream stays framed exactly when
  neither writes into the other's begun frame (`Framing.FramedExactly`, `Framing.InterleavingBreaksFraming`).
- The contiguity test of `netmask_to_prefix` uses `(1 << prefix) - 1`: masks of one to fifteen ones are refused and
  some masks with holes are accepted (`Netmask.RightExactly`, `Netmask.WrongBothWays`). Using `32 - prefix` there
  would complete the round trip but accept every mask with a leading one (`Netmask.OtherTestIs`).
- The comment at `crates/inode-routectl/src/linux.rs:132` and the design notes at `docs/architecture.md:144` call the
  protecting routes more specific than any VPN route; nothing compares lengths (`PathProtection.ProtectedExactly`,
  `PathProtection.LongerSplitWins`).
- The design notes at `docs/architecture.md:145` say `disconnect` removes exactly what the session added. After
  reconnects over different physical paths it does not (`RouteUndo.LeftBehindExactly`), least of all after one without a
  gateway (`RouteUndo.LostGatewayLeavesRoutes`), and on macOS the preserve routes stay
  (`MacRoutes.PreservedStayExactly`).
- A stop does not always stick. `Stops.StopSticksExactly` says when: given after a failure, the next network event
  undoes it (`Stops.StopAfterFailureIsUndone`), and given after the engine has read the flag, the session ends Failed.
- Every failed session that nobody stopped is retried (`Progress.FailedSessionsAreRetried`), except after a string with
  a NUL octet: that path leaves `engine_run` before a retry is scheduled (`SessionPaths.BadStringIsNotRetried`).

## Model

| member | source | states |
|---|---|---|
| Wire.EncodeThenHead | crates/inode-openconnect-sys/src/lib.rs:54-66 | an encoded frame followed by any bytes is recognised with its type, payload and end |
| Wire.HeadThenEncode | crates/inode-openconnect-sys/src/lib.rs:97-122 | a recognised frame re-encodes to exactly the bytes it was read from |
| Wire.DecodeSound | patch/h3c-v921.patch:798-837 | frames and tail put together again are the input, every frame is within the limit, and no complete frame is left in the tail |
| Wire.DecodeEncode | patch/h3c-v921.patch:798-837 | decoding recovers exactly the frames sent, in order, and leaves exactly what follows them |
| Wire.DecodeAppend | patch/h3c-v921.patch:798-843 | decoding in two chunks with the tail kept in between is decoding in one |
| Wire.HeaderOctets | crates/inode-openconnect-sys/src/lib.rs:54-66 | the first two octets of a frame are its type, low octet first, the next two the length of its payload, high octet first, then comes the payload |
| Wire.FrameOctets | crates/inode-openconnect-sys/src/lib.rs:97-122 | octets of that form, followed by anything, are read as that frame if the payload is at most 16384 octets, and as too large otherwise |
| Wire.KnownFrames | crates/inode-openconnect-sys/src/lib.rs:112-121 | type 1 is an IPv4 packet, 02 02 00 00 the sign of life; a request for one is dropped |
| Wire.OtherTypesAreDropped | patch/h3c-v921.patch:812-834 | a frame stands for something exactly if it has type 1 or is the empty response; packets are exactly the frames of type 1 |
| FrameStream.HeadBytes | crates/inode-openconnect-sys/src/lib.rs:112-121 | comparing bytes with the keepalive response and the type field amounts to classifying the raw frame |
| FrameStream.H3cFrameStream.constructor | crates/inode-openconnect-sys/src/lib.rs:89-91 | a new stream buffers nothing |
| FrameStream.H3cFrameStream.Push | crates/inode-openconnect-sys/src/lib.rs:93-124 | the buffer becomes the undecoded tail of what was buffered and pushed; the answer is the decoded frames, or the error the head of the tail calls for, with fewer bytes had than needed |
| FrameStream.PushesRefineDecode | crates/inode-openconnect-sys/src/lib.rs:93-124 | for every sequence of pushes, errors included, the buffer is the undecoded tail of all bytes pushed and the frames completed are those of one decoding of the whole |
| FrameStream.PushesAnswerTruthfully | crates/inode-openconnect-sys/src/lib.rs:97-110 | each answer of a sequence: Ok carries the frames that push completed with less than a header left; an error gives the true numbers of the frame at the head of the buffer |
| FrameStream.ReturnedExactly | crates/inode-openconnect-sys/src/lib.rs:79-124 | the caller receives every frame of the stream exactly when each chunk, behind the bytes held back before it, ends inside a header or between frames, or completes no frame; in any case the lost frames are those completed by the other pushes |
| FrameStream.FramesGetLost | crates/inode-openconnect-sys/src/lib.rs:93-110 | for any two frames: a whole one and the header of the next in one push loses the first |
| FrameStream.TooLargeIsFinal | crates/inode-openconnect-sys/src/lib.rs:101-103 | once the header at the head is too large, every later push gives the same error, completes nothing and only grows the buffer |
| FrameStream.RoundTripExactly | crates/inode-openconnect-sys/src/lib.rs:54-124 | pushing the wire form of a list of frames on a fresh stream answers Ok with the list minus keepalive requests and an empty buffer, exactly when every payload is at most 16384 |
| FrameStream.RoundTrip | crates/inode-openconnect-sys/src/lib.rs:54-128 | the same through the class |
| H3cLink.H3cLink.constructor | patch/h3c-v921.patch:681-689 | a new connection holds nothing received or sent and its timers start now |
| H3cLink.H3cLink.ScanFrames | patch/h3c-v921.patch:798-837 | the in-place scan queues exactly the packets of the decoded buffer up to the first oversized header or failed allocation, and stops where the rest begins |
| H3cLink.H3cLink.Compact | patch/h3c-v921.patch:839-842 | moving the unparsed bytes to the front keeps them all and in order |
| H3cLink.H3cLink.ParseFrames | patch/h3c-v921.patch:789-844 | one pass over the buffer: packets queued, error and leftover bytes are those of the reference decoder |
| H3cLink.H3cLink.ReadTurn | patch/h3c-v921.patch:893-936 | one turn of the read loop: allocate, check for overflow, read no more than fits, parse |
| H3cLink.H3cLink.ReadLoop | patch/h3c-v921.patch:893-936 | the whole read loop does what its recursive description does |
| H3cLink.H3cLink.WriteDataFrame | patch/h3c-v921.patch:739-767 | offers the rest of the current frame from the saved offset; a finished packet is released and the offset reset |
| H3cLink.H3cLink.HandleOutgoing | patch/h3c-v921.patch:769-787 | takes the next packet only if none is in flight, then writes |
| H3cLink.H3cLink.StartKeepalive | patch/h3c-v921.patch:846-855 | fills the keepalive buffer and marks it pending from its first octet |
| H3cLink.H3cLink.WriteKeepalive | patch/h3c-v921.patch:857-879 | offers the rest of the keepalive; when finished it is no longer pending |
| H3cLink.H3cLink.Timers | patch/h3c-v921.patch:942-971 | a pending or due keepalive is written, and the connection must go if nothing was received for three keepalive times |
| H3cLink.H3cLink.SendPhase | patch/h3c-v921.patch:938-971 | data first, then keepalive and dead-peer check unless the data write failed or keepalives are off |
| H3cLink.H3cLink.DropInFlight | patch/h3c-v921.patch:975-982 | the packet in flight is dropped and both offsets are reset |
| H3cLink.H3cLink.Connect | patch/h3c-v921.patch:681-689 | a new session starts with an empty receive buffer, reset offsets and fresh timers |
| H3cLink.H3cLink.DoReconnect | patch/h3c-v921.patch:975-991 | drops what is in flight, then restarts the session or gives up |
| H3cLink.H3cLink.Mainloop | patch/h3c-v921.patch:881-992 | one call does to the whole connection what the function on values does, keeping every buffer bound |
| Receive.ParseInStep | patch/h3c-v921.patch:789-844 | a parser pass keeps the receiver in step with the decoder, or stops just before a packet that cannot be allocated |
| Receive.ReadLoopInStep | patch/h3c-v921.patch:893-936 | for every way to cut the stream into reads: packets queued are those of the decoded stream, the buffer is its undecoded tail and never larger than allowed, and overflow is reached only with a frame that cannot fit |
| Receive.TurnInStep | patch/h3c-v921.patch:912-931 | every turn that goes on has read at least one byte and stays in step |
| Receive.ChunkingDoesNotMatter | patch/h3c-v921.patch:893-936 | two ways of cutting the same bytes into reads leave the same queue and the same buffer |
| Receive.FreshIsQuiet | patch/h3c-v921.patch:681-689 | a fresh connection is in step with the decoder |
| Receive.RunStaysQuiet | patch/h3c-v921.patch:881-992 | in every reachable state of a connection not given up, queue and buffer are those of the decoded stream |
| Receive.FittingStreamNeverStops | patch/h3c-v921.patch:798-808 | while the peer's frames fit the buffer, neither the overflow nor the oversized branch is taken |
| Receive.BigFrameBlocks | patch/h3c-v921.patch:897-916 | behind the start of a frame that does not fit nothing is delivered, and the loop ends in overflow exactly when the buffer is full |
| Receive.DeliveredIffFits | patch/h3c-v921.patch:897-936 | for every way a packet's frame is read at a frame boundary: one that fits the buffer with its header is delivered exactly when all of it was read and never overflows; one that does not is never delivered and overflows exactly when the buffer is full |
| Receive.DeliveredPacketsFit | patch/h3c-v921.patch:893-936 | every packet a read loop hands over fits the buffer with its header |
| Receive.RunDeliversFitting | patch/h3c-v921.patch:881-992 | in every run, reconnects included, the queue only grows and every packet added fits the largest receive buffer with its header |
| Transmit.CallConserves | patch/h3c-v921.patch:881-992 | one main-loop call loses, repeats and reorders no packet; it closes a connection exactly when it reconnects, and then drops at most the packet in flight |
| Transmit.PacketsConserved | patch/h3c-v921.patch:739-787 | in every run each packet is written completely once, in flight, queued, or the one dropped by a reconnect, in order; on every connection the data bytes are whole packets and the beginning of at most one, from its first octet |
| Transmit.FreshConserves | patch/h3c-v921.patch:681-689 | on a fresh connection every packet is still queued |
| Transmit.ReconnectConserves | patch/h3c-v921.patch:975-991 | a reconnect drops at most one packet and starts the next connection with none in flight |
| CallEffects.DueKeepaliveGoesOut | patch/h3c-v921.patch:857-879 | a pending or due keepalive gives the socket the next octets of 02 00 00 00; when the last is accepted it is no longer pending and the transmit clock is set |
| CallEffects.PendingGoesOut | patch/h3c-v921.patch:938-957 | a pending keepalive is finished by the first call that reaches the timers and whose socket accepts its octets |
| CallEffects.PendingStays | patch/h3c-v921.patch:950-953 | until then it stays pending where it is, through calls that keep the connection and accept nothing of it |
| CallEffects.DataGoesOut | patch/h3c-v921.patch:739-787 | the socket gets the next octets of the packet in flight, or else of the first one queued; when the last is accepted the packet is released and the transmit clock is set |
| CallEffects.QueueDrains | patch/h3c-v921.patch:769-787 | as many calls as there are packets, each accepting all of one, send them all and in order |
| CallEffects.ReadsInOrder | patch/h3c-v921.patch:893-936 | the read loop takes the reads in order, ends for exactly one of five reasons, each with what it means, and leaves the receive clock at the last read |
| CallEffects.OneReadTakes | patch/h3c-v921.patch:897-925 | a read takes as much as the socket has, gives and the buffer has room for |
| CallEffects.AllPacketsUsed | patch/h3c-v921.patch:820-828 | the loop gives up for want of memory only after every packet that could be allocated was queued |
| CallEffects.EverythingIsRead | patch/h3c-v921.patch:893-936 | if the frames fit the buffer and no allocation fails, the loop delivers everything that is waiting, however it is read |
| CallEffects.BufferSize | patch/h3c-v921.patch:893-900 | the receive buffer has the size of the MTU or of the frame limit of 16384, whichever is more |
| CallEffects.LargestAreNeverDelivered | patch/h3c-v921.patch:893-936 | with an MTU up to 16384 a packet of 16381 to 16384 octets, although allowed, is never delivered; the loop ends in overflow exactly when 16384 octets of its frame were read |
| CallEffects.WorkCounted | patch/h3c-v921.patch:881-992 | the work a call reports is the number of frames it received and of frames it finished sending |
| CallEffects.KeepsConnectionExactly | patch/h3c-v921.patch:881-991 | a call keeps the connection exactly if the socket is open, the reads end drained or without a buffer, no write fails, and with keepalives on something was received within three keepalive times; otherwise it reconnects or gives up as the reconnect turns out |
| CallEffects.FailuresReconnect | patch/h3c-v921.patch:918-959 | a hard error of a read, of the data write or of the write of a pending keepalive costs the connection |
| CallEffects.ReconnectIsFresh | patch/h3c-v921.patch:681-689 | after a reconnect only the two queues are left of the old connection; both clocks show the time of the new session, and its MTU and keepalive time apply |
| CallEffects.SafeAfterReconnect | patch/h3c-v921.patch:975-991 | so a live idle peer that answers in time is not declared dead on the new connection either |
| Framing.WriteDataFramedExactly | patch/h3c-v921.patch:739-767 | a data write keeps the stream framed exactly if it writes nothing or no keepalive is begun |
| Framing.WriteKeepaliveFramedExactly | patch/h3c-v921.patch:857-879 | a keepalive write keeps the stream framed exactly if it writes nothing or no data frame is begun |
| Framing.FramedExactly | patch/h3c-v921.patch:938-959 | over every run the stream is framed after each write exactly when the writers keep out of each other's frames |
| Framing.KeepaliveOffStream | patch/h3c-v921.patch:739-787 | without keepalives, for all partial and blocked writes, the bytes accepted are the finished packets in order and the first octets of the current one up to the saved offset |
| Framing.WholeWritesStream | patch/h3c-v921.patch:938-959 | with keepalives and writes that take all or nothing, the wire is a sequence of whole frames |
| Framing.InterleavingBreaksFraming | patch/h3c-v921.patch:950-959 | a partial data write followed by a keepalive produces bytes that decode to nothing although both count as sent |
| EndToEnd.JointRunGood | patch/h3c-v921.patch:739-844 | the joint invariant of sender, wire and receiver holds throughout every admissible run |
| EndToEnd.QueuedIsPrefixOfDequeued | patch/h3c-v921.patch:739-844 | under any chunking the packets the receiver has queued are a prefix of those the sender has dequeued, in order and byte for byte |
| EndToEnd.QueuedIsPrefixInOperation | patch/h3c-v921.patch:739-959 | the same under either operating condition, keepalives off or writes that take all or nothing, with packets that fit and no reconnect |
| EndToEnd.NothingMissing | patch/h3c-v921.patch:739-844 | once all is read and no frame is begun, the receiver has every finished packet |
| EndToEnd.ReceiverNeverOverflows | patch/h3c-v921.patch:893-936 | in such a run the overflow and oversized branches are never taken |
| PeerDetection.PacedRunIsSafe | patch/h3c-v921.patch:942-971 | with calls at most s apart and answers within d, s + d at most two keepalive times, the dead-peer branch is never taken |
| PeerDetection.LivePeerIsSafeExactly | patch/h3c-v921.patch:942-971 | a live idle peer is never declared dead in any such run exactly when s + d is at most two keepalive times |
| PeerDetection.BusySenderNeverAsks | patch/h3c-v921.patch:942-965 | with packets of any size sent in full every second the peer is declared dead without ever being asked |
| Generations.StepIssued | crates/inode-vpnd/src/main.rs:298-336 | every step keeps generations unique and never lowers the counter |
| Generations.RunIssued | crates/inode-vpnd/src/main.rs:298-336 | the same for every interleaving of all threads |
| Generations.AtMostOneCurrent | crates/inode-vpnd/src/main.rs:304-321 | in every reachable state at most one retry thread carries the current generation |
| Generations.OutdatedRetryNeverStarts | crates/inode-vpnd/src/main.rs:312-321 | a retry thread of an older generation starts no engine in any continuation and exits at its next check |
| Sessions.StepOrderly | crates/inode-vpnd/src/main.rs:656-909 | every step that does not overlap keeps the lifecycle invariant |
| Sessions.RunOrderly | crates/inode-vpnd/src/main.rs:656-909 | the invariant holds throughout every non-overlapping run |
| Sessions.LifecycleInvariant | crates/inode-vpnd/src/main.rs:285-289 | in every such run, no engine handle means a terminal state with no command pipe, cookie or health report; there is at most one engine; a stored handle belongs to a live engine |
| Sessions.StateChangesAreEdges | crates/inode-vpnd/src/main.rs:132-145 | every state change is an edge of the state diagram |
| Retries.NoFailedSessionIsOrphaned | crates/inode-vpnd/src/main.rs:884-899 | a failed session nobody stopped, with no engine and no start under way, has exactly one retry thread of the current generation |
| Retries.EarlyRetryOrphans | crates/inode-vpnd/src/main.rs:312-320 | a retry thread that wakes before the engine has left exits, and nobody looks after the session |
| Stops.StopSticks | crates/inode-vpnd/src/main.rs:853-899 | after a stop given before the engine has read the flag or is bound for Stopped, wherever it is, or with no engine and a session that is Stopped or has no configuration, no network event and no retry starts an engine in any continuation, and an engine that exits leaves Stopped, until a start or restart |
| Stops.StopSticksExactly | crates/inode-vpnd/src/main.rs:213-267 | with no start or restart under way, every continuation of a stop settles in that way exactly when the stop is given in time |
| Stops.StopAfterFailureIsUndone | crates/inode-vpnd/src/main.rs:259-263 | a stop given after a failure is undone by the next network event, in a run in which nothing overlaps and the user asks for nothing |
| Stops.StartCompletes | crates/inode-vpnd/src/main.rs:418-457 | an undisturbed start that finds no handle stores that of a fresh engine |
| Progress.RetryStarts | crates/inode-vpnd/src/main.rs:308-333 | from any state with no engine, nothing under way and a failed session nobody stopped, the retry thread of the current generation waits while the network is down and starts an engine when it is up |
| Progress.FailedSessionsAreRetried | crates/inode-vpnd/src/main.rs:298-336 | so every such state that can be reached has a retry thread that does start an engine |
| Progress.RetryExits | crates/inode-vpnd/src/main.rs:312-333 | a retry thread exits exactly when a stop was requested, its generation is old, an engine is stored or the session is not Failed; otherwise it waits for the network or goes on to start |
| Progress.StartOutdatesRetries | crates/inode-vpnd/src/main.rs:419-428 | an accepted start leaves every retry thread with an old generation |
| Progress.FailedHasConfig | crates/inode-vpnd/src/main.rs:259-263 | in every reachable state, whatever overlaps, a failed session has a stored configuration |
| Progress.NetworkPauses | crates/inode-vpnd/src/main.rs:251-277 | a network event while a session is served makes it Reconnecting and leaves no thread over |
| Progress.PausingIsBlind | crates/inode-vpnd/src/main.rs:269-277 | the state is set without a second look at what was decided on |
| Progress.NetworkRestarts | crates/inode-vpnd/src/main.rs:259-283 | a network event starts an engine for a failed session with a configuration, stopped or not |
| Progress.NetworkIgnored | crates/inode-vpnd/src/main.rs:251-267 | every other network event changes nothing, and only those |
| Progress.StartRefused | crates/inode-vpnd/src/main.rs:418-423 | a start while a handle is stored leaves everything as it was, whatever else is going on |
| Progress.StartAccepted | crates/inode-vpnd/src/main.rs:418-457 | a start with no engine and nothing under way ends with a launched engine whose handle is stored and no stop requested |
| Progress.AcceptedStartLaunches | crates/inode-vpnd/src/main.rs:430-457 | an accepted start launches an engine and stores its handle in every state, also if a stop or anything else came between |
| Progress.RestartWaits | crates/inode-vpnd/src/main.rs:981-986 | a restart raises the stop flag and waits while a handle is stored; when it gives up it starts nothing |
| Progress.RestartCompletes | crates/inode-vpnd/src/main.rs:981-995 | once the engine is gone it starts another |
| SessionPaths.SessionComesUp | crates/inode-vpnd/src/main.rs:656-853 | when every step succeeds a launched engine ends in the main loop, Connected, with command pipe, the login's cookie and one probe that was not told to stop |
| SessionPaths.ProbeReports | crates/inode-vpnd/src/main.rs:640-654 | a probe told to stop ends; without a cookie it does nothing; with one it reports |
| SessionPaths.PauseResumes | crates/inode-vpnd/src/main.rs:855-872 | a main loop that was paused makes the session Reconnecting and is entered again |
| SessionPaths.SessionReconnects | crates/inode-vpnd/src/main.rs:563-570 | a restored session is Connected again, stop or no stop |
| SessionPaths.FailuresUnwind | crates/inode-vpnd/src/main.rs:656-875 | a failing step, or a main loop that returns for another reason than a pause, ends the session as failed |
| SessionPaths.StopIsSeen | crates/inode-vpnd/src/main.rs:857-861 | a stop requested before the main loop returns, for whatever reason, makes the session Stopped |
| SessionPaths.StopWhilePaused | crates/inode-vpnd/src/main.rs:862-868 | so does one requested before the second look at the flag |
| SessionPaths.BadStringIsNotRetried | crates/inode-vpnd/src/main.rs:660-679 | a string with a NUL octet ends the session Failed with no retry scheduled |
| SessionPaths.SessionEnds | crates/inode-vpnd/src/main.rs:878-909 | from the end of a session its engine joins the probe, clears health and cookie, and leaves: Failed with a fresh retry thread of the next generation if the session failed and no stop was requested, else Stopped with none |
| SessionPaths.EverySessionEnds | crates/inode-vpnd/src/main.rs:878-909 | so it is for every session that ends in a state of a non-overlapping run |
| Retries.TwoEngines | crates/inode-vpnd/src/main.rs:419-455 | two starts overlapping between check and stored handle leave two engines |
| Lifecycle.Shared.constructor | crates/inode-vpnd/src/main.rs:96-117 | the daemon starts Stopped, with no engine and generation zero |
| Lifecycle.Shared.SetState | crates/inode-vpnd/src/main.rs:132-142 | sets the session state and nothing else |
| Lifecycle.Shared.RequestStop | crates/inode-vpnd/src/main.rs:213-222 | raises the stop flag and cancels exactly if a command pipe is stored |
| Lifecycle.Shared.AcceptStart | crates/inode-vpnd/src/main.rs:419-428 | refused while a handle is stored; otherwise clears the stop flag and issues a generation |
| Lifecycle.Shared.SetEngine | crates/inode-vpnd/src/main.rs:190-192 | stores the engine handle in a section of its own |
| Lifecycle.Shared.MarkEngineFinished | crates/inode-vpnd/src/main.rs:285-289 | drops the command pipe and the handle |
| Lifecycle.Shared.ScheduleEngineRetry | crates/inode-vpnd/src/main.rs:298-306 | no retry after a stop request; otherwise a fresh generation |
| Lifecycle.Shared.RetryCheck | crates/inode-vpnd/src/main.rs:312-321 | a retry goes on only for the current generation, a failed state, no engine and no stop |
| Lifecycle.Shared.NetworkChanged | crates/inode-vpnd/src/main.rs:251-267 | what a network event decides under the lock |
| Lifecycle.Shared.ClearHealthAndCookie | crates/inode-vpnd/src/main.rs:408-415 | the end of a session leaves no health report and no cookie |
| Text.ParseShow | crates/inode-routectl/src/plan.rs:133-143 | a printed number is parsed back, within the type's range |
| Text.ShowOfValue | crates/inode-routectl/src/linux.rs:274-285 | digits without superfluous zeros are the printed form of their value |
| Text.ParsesExactly | crates/inode-routectl/src/plan.rs:133-143 | a text parses as a number exactly if it is the number printed, behind any zeros and at most one plus sign, and in range |
| Text.SplitJoin | crates/inode-routectl/src/plan.rs:138-139 | splitting takes apart what joining put together |
| Text.JoinSplit | crates/inode-routectl/src/plan.rs:138-139 | joining puts together what splitting took apart |
| Text.SplitOnceExactly | crates/inode-routectl/src/macos.rs:238-247 | the first separator cuts a text in two; without one there is nothing to cut |
| Bits.OrLowMask | crates/inode-routectl/src/plan.rs:156 | or-ing in the low ones fills exactly the low positions |
| Bits.AndHighMask | crates/inode-routectl/src/linux.rs:277-283 | and-ing with a mask clears exactly the low positions |
| Bits.LeadingOnesAre | crates/inode-routectl/src/plan.rs:155 | the leading zeros of the complement count the ones at the top before the first zero |
| Netmask.ParseShowIpv4 | crates/inode-routectl/src/linux.rs:274-283 | an address is read back from its printed form |
| Netmask.ShowParseIpv4 | crates/inode-routectl/src/linux.rs:274-283 | and from no other text |
| Netmask.CombineOctets | crates/inode-routectl/src/plan.rs:148-151 | the or-ing loop computes the number with these octets |
| Netmask.TestIs | crates/inode-routectl/src/plan.rs:155-156 | the contiguity test passes exactly when the mask starts with at least sixteen ones |
| Netmask.NetmaskToPrefix | crates/inode-routectl/src/plan.rs:132-160 | a number up to 32 is itself; a four-octet mask is accepted exactly if zero or starting with at least sixteen ones, and gives the count of its leading ones; all else is an error |
| Netmask.NumberIsPrefix | crates/inode-routectl/src/plan.rs:133-137 | the text of a number up to 32 gives that number |
| Netmask.MaskWordExactly | crates/inode-routectl/src/plan.rs:138-151 | a mask denotes a word exactly if it is four octets between dots |
| Netmask.BadNetmaskExactly | crates/inode-routectl/src/plan.rs:133-147 | the mask is called bad exactly if it is neither such a number nor four octets between dots |
| Netmask.PrintedMask | crates/inode-routectl/src/macos.rs:219-234 | prefix_to_netmask and the SUBNETMASK header print the mask with that many leading ones, and prefix_to_netmask all ones for longer prefixes |
| Netmask.RoundTripExactly | crates/inode-routectl/src/macos.rs:219-234 | printing a prefix and reading it back gives it for 0 and 16 to 32, an error for 1 to 15, and 32 for longer ones; the same through the SUBNETMASK header |
| Netmask.RightExactly | crates/inode-routectl/src/plan.rs:152-159 | for which dotted masks the answer is the right one |
| Netmask.WrongBothWays | crates/inode-routectl/src/plan.rs:155-158 | a mask with holes that is accepted, and one without that is refused |
| Netmask.OtherTestIs | crates/inode-routectl/src/plan.rs:155-156 | with 32 - prefix in the test every mask with a leading one would pass |
| Netmask.NetworkCidrIs | crates/inode-routectl/src/linux.rs:272-286 | for every parsable address and any prefix text the result is the network the address lies in, with host bits zero |
| Netmask.PrefixBitsExactly | crates/inode-routectl/src/linux.rs:272-276 | the prefix length is the number the text denotes, up to 32, and 32 for every other text |
| Netmask.WithoutPrefix | crates/inode-routectl/src/linux.rs:272-286 | an address printed without a prefix gives its host network, and text that is no address is passed on unchanged |
| Netmask.NetworkOf | crates/inode-routectl/src/linux.rs:276-283 | the network address is at most the address, less than one network size below it, and a multiple of that size |
| Netmask.NetworkCidrIdempotent | crates/inode-routectl/src/linux.rs:272-286 | normalising twice is normalising once |
| Netmask.SameMaskOnBothSides | crates/inode-routectl/src/macos.rs:219-247 | split_cidr reads a normalised CIDR as that network and the very mask it was made with |
| Netmask.SplitCidrExactly | crates/inode-routectl/src/macos.rs:236-247 | split_cidr answers exactly for a text with a length up to 32 behind its first slash, with what stands before the slash and the dotted mask of that length |
| Routes.LookupIsLongestMatch | crates/inode-routectl/src/linux.rs:117-156 | lookup answers with the longest entry covering the address, and with nothing only if none covers it |
| Routes.CoversRange | crates/inode-routectl/src/linux.rs:270-286 | a normal destination covers its network address up to its last host |
| Routes.InstallIs | crates/inode-routectl/src/linux.rs:148-156 | replacements up to the first failure leave the last route for each destination over the old table |
| Routes.UninstallIs | crates/inode-routectl/src/linux.rs:172-206 | deletions take out exactly the routes that match one of them in destination and hop |
| LinuxRoutes.DiscoveredPrefixIsNormal | crates/inode-routectl/src/linux.rs:251-286 | the local prefix discovered is one ip route accepts and contains the local address |
| LinuxRoutes.Router.Connect | crates/inode-routectl/src/linux.rs:89-160 | state saved first, then the commands in order up to the first failure |
| LinuxRoutes.Router.Protect | crates/inode-routectl/src/linux.rs:117-151 | installs gateway, local and preserve routes along the physical path |
| LinuxRoutes.Router.Disconnect | crates/inode-routectl/src/linux.rs:162-214 | deletes along the saved path if it is usable, else along the one discovered now; failures are ignored |
| RouteUndo.UndoIs | crates/inode-routectl/src/linux.rs:89-214 | a connect that stops at any command and a disconnect leave exactly the old routes neither replaced nor hit by a deletion |
| RouteUndo.UndoneExactly | crates/inode-routectl/src/linux.rs:89-214 | the table is restored exactly when none of its routes was replaced or equals a deleted one |
| RouteUndo.FirstConnectIsUndone | crates/inode-routectl/src/linux.rs:89-214 | from a table with none of the plan's destinations, wherever the connect stops, the table is restored |
| RouteUndo.UnsavedPathLeaks | crates/inode-routectl/src/linux.rs:72-80 | without the saved state a changed path leaves a route behind |
| RouteUndo.LeftBehindExactly | crates/inode-routectl/src/linux.rs:89-214 | after any series of connects and reconnects, whatever each discovered and wherever it stopped, disconnect leaves exactly the old table under everything that was carried out, less the routes that equal one it deletes |
| RouteUndo.NothingLeftExactly | crates/inode-routectl/src/linux.rs:89-214 | the old table comes back exactly when no old route was replaced by another or equals a deleted one and all else that was carried out equals a deleted one |
| RouteUndo.SteadyPathIsClean | crates/inode-routectl/src/linux.rs:89-214 | if the path never changes, complete or not, nothing stays behind, wherever the attempts stopped |
| RouteUndo.LostGatewayLeavesRoutes | crates/inode-routectl/src/linux.rs:117-206 | after a reconnect along a path without a gateway every physical route of the connect before stays that is not a split route too |
| RouteUndo.LocalRoutesStayExactly | crates/inode-routectl/src/linux.rs:89-214 | if every attempt succeeds along a complete path, what stays are exactly the local address and local prefix routes of earlier discoveries whose destinations the last does not have |
| PathProtection.AfterConnect | crates/inode-routectl/src/linux.rs:89-160 | a successful connect makes the table the protection theorems are about |
| RouteEffects.SucceedsExactly | crates/inode-routectl/src/linux.rs:89-160 | a connect succeeds exactly if no command fails for a reason of its own, two for the interface and one for each route, and every destination has no host bits set |
| RouteEffects.ConnectedExactly | crates/inode-routectl/src/linux.rs:89-160 | destination by destination: after a success split networks go through the tunnel device, gateway, local address, local prefix and preserve networks via the gateway and interface found if both were, and all else is as before |
| RouteEffects.SavedFirst | crates/inode-routectl/src/linux.rs:89-116 | the path found is saved before any command, and without the two interface commands no route is touched |
| RouteEffects.GatewayFirst | crates/inode-routectl/src/linux.rs:117-131 | wherever a connect stops, no destination changes before the VPN gateway has its host route |
| RouteEffects.ProtectionFirst | crates/inode-routectl/src/linux.rs:117-156 | wherever it stops, nothing goes into the tunnel before everything that is to stay outside has its route |
| RouteEffects.SinglesInOrder | crates/inode-routectl/src/linux.rs:117-144 | gateway, local address and local prefix get their routes in this order |
| RouteEffects.InOrder | crates/inode-routectl/src/linux.rs:117-156 | behind them come the preserve networks and last the split routes |
| RouteEffects.DisconnectedExactly | crates/inode-routectl/src/linux.rs:162-214 | destination by destination: disconnect takes out the split routes through the tunnel device and the protecting routes via the path saved, or found now if none is usable, and nothing else |
| PathProtection.ProtectedExactly | crates/inode-routectl/src/linux.rs:117-156 | an address keeps off the tunnel for all earlier tables without tunnel routes exactly when no split route covers it or some protecting route does and is longer than each that does |
| PathProtection.HostProtectedExactly | crates/inode-routectl/src/linux.rs:117-144 | VPN gateway and local address are safe exactly if no split route is a host route for them |
| PathProtection.NetworkProtected | crates/inode-routectl/src/linux.rs:145-150 | an address of the local prefix or a preserve CIDR is safe if every split route covering it is shorter |
| PathProtection.LongerSplitWins | crates/inode-routectl/src/linux.rs:132-156 | for every local network a split route of half its size takes addresses of it into the tunnel |
| MacRoutes.Router.Connect | crates/inode-routectl/src/macos.rs:90-132 | state saved first, then the adds in order up to the first failure |
| MacRoutes.Router.Disconnect | crates/inode-routectl/src/macos.rs:134-162 | deletes gateway, local address and readable split destinations; preserve routes are not touched |
| MacRoutes.PreservedStayExactly | crates/inode-routectl/src/macos.rs:90-162 | a successful connect and a disconnect along the same path with a gateway leave exactly the old table and the preserve routes |
| MacRoutes.StoppedAnywhere | crates/inode-routectl/src/macos.rs:90-162 | a connect that stops anywhere has added its routes up to the first that fails, cannot be read or is there already, and the disconnect takes the deleted destinations out whoever put them there |
| MacRoutes.WithoutGateway | crates/inode-routectl/src/macos.rs:109-149 | along a path without a gateway the host routes the table already held are lost, and only those |
| MacEffects.SucceedsExactly | crates/inode-routectl/src/macos.rs:90-132 | a connect succeeds exactly if no command fails for a reason of its own, every prefix length can be read, and no destination is there already or comes twice |
| MacEffects.ConnectedExactly | crates/inode-routectl/src/macos.rs:90-132 | destination by destination: after a success split networks are reached via the tunnel's address, gateway host, local address and preserve networks via the gateway found, and all else is as before |
| MacEffects.SavedFirst | crates/inode-routectl/src/macos.rs:90-100 | the path found is saved before any command, and without the interface command no route is touched |
| MacEffects.ProtectionFirst | crates/inode-routectl/src/macos.rs:106-130 | wherever a connect stops, no network goes into the tunnel before everything that is to stay outside has its route |
| MacEffects.InOrder | crates/inode-routectl/src/macos.rs:106-130 | gateway, local address, preserve networks and split networks get their routes in this order |
| MacEffects.DisconnectedExactly | crates/inode-routectl/src/macos.rs:134-162 | destination by destination: disconnect takes out gateway host, local address and split networks and nothing else |
| Redactor.Redactor.constructor | crates/inode-core/src/redact.rs:12-16 | keeps the non-empty strings, longest first |
| Redactor.Redactor.Add | crates/inode-core/src/redact.rs:18-24 | adds a new non-empty secret in its place by length and otherwise changes nothing |
| Redactor.Redactor.Redact | crates/inode-core/src/redact.rs:26-34 | replaces each secret in turn |
| Redactor.SortedByLength | crates/inode-core/src/redact.rs:14 | the list is ordered by descending length in bytes |
| Redactor.ContainsIsOccurs | crates/inode-core/src/redact.rs:29 | the test finds a secret exactly if it occurs somewhere |
| Redactor.ReplaceIsExact | crates/inode-core/src/redact.rs:30 | a replacement exchanges the leftmost occurrences for the marker and keeps everything between them |
| Redactor.ReplaceCreatesNothing | crates/inode-core/src/redact.rs:26-34 | a replacement never creates or uncovers a secret that cannot overlap the marker |
| Redactor.ClearIsComplete | crates/inode-core/src/redact.rs:26-34 | if no secret can overlap the marker, redaction removes every secret from every input |
| Redactor.CompleteExactly | crates/inode-core/src/redact.rs:26-34 | among lists of secrets free of angle brackets, redaction is complete exactly when no secret is part of the word redacted |
| Redactor.Idempotent | crates/inode-core/src/redact.rs:26-34 | if no secret can overlap the marker, redacting twice is redacting once |
| Redactor.WholeSecretDisappears | crates/inode-core/src/redact.rs:14 | longest first, a text that is a secret becomes just the marker |
| RedactionEffects.RedactsInTurn | crates/inode-core/src/redact.rs:26-34 | redaction is a chain of texts, one exchange of leftmost occurrences for each secret in the order of the list |
| RedactionEffects.ExchangesOnce | crates/inode-core/src/redact.rs:30 | each exchange has one outcome, because a text can be cut at the leftmost occurrences in only one way |
| RedactionEffects.SortIsStable | crates/inode-core/src/redact.rs:14 | the list is sorted by descending length and keeps secrets of one length in the order given |
| RedactionEffects.FilterAppend | crates/inode-core/src/redact.rs:13 | the filter goes entry by entry and in order |
| RedactionEffects.FilterKeeps | crates/inode-core/src/redact.rs:13 | it keeps every non-empty entry and drops every empty one |
| RedactionEffects.WidthIsLeast | crates/inode-core/src/redact.rs:14 | lengths are in octets: a character counts for the fewest octets of UTF-8 that hold it |
| RedactionEffects.LengthCounts | crates/inode-core/src/redact.rs:14 | so an ASCII text has as many octets as characters, and no other does |
| Redactor.OrderMatters | crates/inode-core/src/redact.rs:14 | shortest first it would not |
| Redactor.BracketsMatter | crates/inode-core/src/redact.rs:26-34 | a secret with a bracket can be created by replacing another |
| SingleSecret.CompleteExactly | crates/inode-core/src/redact.rs:26-34 | redaction with one secret of any shape is complete exactly when the secret agrees nowhere with the marker it overlaps, save where its beginning could not stand in front of a replaced occurrence |
| SingleSecret.SomeBracketsAreSafe | crates/inode-core/src/redact.rs:26-34 | a secret with a bracket for which redaction is complete |
| SingleSecret.SomeClashesAreSafe | crates/inode-core/src/redact.rs:26-34 | a secret that overlaps the marker for which it is complete all the same |

## Left out

- Retries.NoFailedSessionIsOrphaned: says nothing about moments at which a start, a network reaction or an engine's exit is half done; there the thread concerned is itself responsible.
- PathProtection.NetworkProtected: one direction, for an address; the condition that is also necessary is that of `PathProtection.ProtectedExactly`.
- Stops.StopSticksExactly: says nothing about a stop given while a start or restart is under way; the user or the network asked for an engine then.
- Redactor.ClearIsComplete: for lists of several secrets of which some can overlap the marker, only `Redactor.CompleteExactly` and, for one secret, `SingleSecret.CompleteExactly` are exact.
- Netmask.SubnetMaskOption: only for lengths 0 to 32; for others the C shift is undefined.
- Netmask.NetmaskToPrefix: the shift by 32 wraps as in a release build; a debug build panics there.
- LinuxRoutes.Router.Disconnect: deletions of routes that match always succeed, and the state file is always removed.
- MacRoutes.Router.Connect: adding a destination that is already there fails; host routes and networks of length 32 share a key.
- Text of a plan that is no CIDR stands for a destination the commands refuse; shorthand addresses that `ip` would complete are not modelled.
- Login, XML and HTTP exchange, cookie retrieval, logout and the internals of `ssl_reconnect`: a reconnect fails, or brings the resets of `h3c_connect` and any MTU and keepalive time.
- The ROUTES and DNS header tokenisers: the code does not fix where they stop.
- `ka_check_deadline` and the event loop's wake-ups: the spacing of main-loop calls is a hypothesis of `PeerDetection`.
- The TLS library's rules for repeating a write, and packet allocation, beyond their success or failure.
- The consumer of the incoming queue: packets are only ever added to it here.
- Overflow of 32-bit timer arithmetic and the values of error codes.
- Thread-spawn failures, poisoned locks, panics inside an engine, and strings with NUL octets beyond `SessionPaths.BadStringIsNotRetried` and the hypothesis that there are none.
- Debouncing of network events, retry delays and the restart timeout: any timing is allowed.
- Result of the health probe: only that a report exists.
- Subscribers, `state.json`, JSON-RPC, socket server and peer checks: I/O and serialisation.
- DNS settings, interface addresses, route metrics, and routes the kernel adds or drops by itself.
- The macOS pre-init deletion of the gateway's host route: a single command whose failure is ignored.
- Parsing the output of `ip`, `route` and `ifconfig`; only the normalisation of the discovered prefix is modelled.
- Configuration files, command line, service installation and packaging.
