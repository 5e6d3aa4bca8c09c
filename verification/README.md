# A verified model of the serial gateway

A host program shares ESP32 boards over USB serial. It frames application traffic, interleaves it with console input
over a stream that accepts bytes in pieces, admits operations from many clients to one worker per device, keeps a
bounded event history, tracks boards as they move between ports, and plans flash uploads. This project models that
logic in Dafny and proves what it is for. `dafny verify dfyconfig.toml` checks everything.

## The parts

1. **Mux codec** (`src/mux.rs`, `firmware/components/idf_remote/mux_codec.c`). `Crc32` has the CRC register and its
   algebra, `CrcBurst` the burst detection, `Mux` frames and octet stuffing (section 4.2 of RFC 1662, FCS of its
   Appendix C.3), `Reference` the values that fix both, `MuxDecoder` the incremental decoder, `MuxStream` whole
   streams, `FirmwareMux` the C codec over byte arrays, `Json` what a command prints and what the firmware's scanner
   accepts, `JsonText` the printed text read back by the grammar of RFC 8259.
2. **Application session and scheduler** (`src/application.rs`, `src/duplex.rs`, tasks of `idf_remote.c`).
   `Application` and `Duplex` hold the classes and the functions they are proved equal to. `Outputs` says what a session
   reports of what it reads, `CallOutcomes` when calls start and how they end. `DuplexRuns`, `Transmission`, `Delivery`,
   `InputText` and `Progress` reason over all sequences of calls. `SerialLine` follows the bytes of one side through
   the other side's decoder, `Protocol` puts host, wire and device together and keeps its invariant, `DeviceAnswers`
   says what the device owes for each request, `TypedRequests` what text typed at the host can do to the requests, and
   `Replies` where replies come from and what text printed by the device can do to them. `Witness` is the run their
   counterexamples share.
3. **Admission and operation store** (`src/server.rs`). `EventRing` is the bounded ring and its clients, `Store` the
   shared state with its class, `History` what each locked region keeps of operations, `Admission` the steps of one
   device's worker and submitters, `Publishing` what becomes of what a worker reads, `AdmissionRuns` and `ServiceRuns`
   all interleavings over any number of devices, and `Replays` what they mean for the answers to submits.
4. **Desktop device registry** (`src/backend/espflash.rs`): `Registry`, and `RegistryStatus` for what its statuses mean.
5. **Flash planning** (`src/plan.rs`, `src/wire.rs`): `FlashPlan` and `Upload`.

`Device` and `Decimals` are shared vocabulary.

## How it is set up

- Code that updates fields is a class or a method over arrays, proved equal to a function of the old state; the
  properties are lemmas about that function and invariants over runs of it.
- Clock readings, what each write does, parse results of JSON, number range checks, SHA-256, file contents, serialized
  event lengths and scans of the ports are parameters. Clock readings need not even be ordered: nothing relies on it.
- In `Protocol` every byte of either side goes through the decoder of the other, so a frame that an abort or a stalled
  driver cut short may still be completed by the next flag. Frames that reach the device may be lost or overtake each
  other before it acts on them, and those that reach the host may be seen twice; bytes damaged on the way count as
  lost frames. The device prints raw text whenever it has no session. A device that resets, and a host that begins to
  listen in the middle of the stream, are given nothing that the decoder of the whole stream does not report
  (`SerialLine.ResetOnlyLoses`, `ListenerSeesArrivals`). Nonces are never drawn twice, as the code counts them up, and
  the key of a typed input is not used again, as keys are operation ids.
- Text typed outside a session may contain any bytes, whole frames included. What is assumed of it is
  `Protocol.TypesNoCopy`: each request it completes that passes the device's checks was submitted just so, and is not
  also queued, on its way, in the device or handled. For requests of the session the device holds, `TypedRequests`
  shows that nothing less will do.
- No event reaches the byte limit of the event ring, 4 MiB: a read takes at most 4096 bytes, a log line 16 KiB
  (`src/logs.rs:13`), a frame payload 1024, and warnings are bounded by `src/wire.rs:113-130`. The theorems hold for
  events of any size all the same; `EventRing.EmptiedIff` and `OversizedEventIsLost` say what a larger one would do.
- In `Admission` each region that holds the lock is one step, and a read and its publication are separate steps. The
  worker is assumed not to have exited, so sending a job fails only if the channel is full.

## Where a property does not hold of the code

- **Typed requests.** The bytes of a request, typed outside a session while the device still holds the session of that
  request, reach the handler once more: `TypedRequests.TypedRequestIsHandledTwice` is such a run from the start.
  `TypedRequests.TypedCopiesGoAstray` is the exact condition, at any point of any run, also for a device that is busy
  or still holds the request: the device can call the handler twice for one request, or with one that was not
  submitted, if and only if the write does not meet `TypesNoCopy`. If the copy is still queued at the host, writing it
  does the same harm (`QueuedCopyGoesAstray`). Requests typed for a session the device does not hold are left open: it
  drops them as long as it does not.
- **Printed replies.** Text that the device prints without a session may be the bytes of an answer, and the host takes
  it for one: in `Replies.PrintedAnswerMisleads` a call completes although the handler was never called.
  `Replies.OnlyPrintedRepliesMislead` is the exact condition: the host can complete its call with an answer the device
  did not give if and only if printed text imitates an answer to that call.
- **Shared ports.** No two available records share a port after a discovery, but refreshing one record leaves the
  others stale (`Registry.RefreshCanSharePort` is a run that shows it). `RefreshSharesPortIff` gives the exact
  condition, from any registry: the others share none, and none of them is held available at the port where the scan
  finds the refreshed device.
- **Nesting.** docs/APPLICATION.md limits parameters to 16 levels of nesting. The code counts a scalar as a level of its
  own and accepts 17 levels (`Json.HostAccepts`), so the limit is 16 containers around a scalar, but 17 containers if
  the innermost ones are empty. The firmware accepts 17 containers whatever they hold
  (`Json.FirmwareAcceptsCommand`). It therefore takes everything the host sends, and `Json.DepthLimitsDiffer` says
  exactly what it takes beyond that.
- **Text after a frame.** Right after a closing flag, text that starts with the byte 1 is taken for a frame
  (`MuxStream.TextAfterFrame` is the exact condition).

## Model

| member | source | states |
|---|---|---|
| Crc32.ComputeCrc | src/mux.rs:22-31 | the bitwise loop over the masked polynomial computes the CRC of the register model |
| Crc32.StepUnstep | src/mux.rs:27-27 | one CRC step is onto: every register value is reached from the value that undoes it |
| Crc32.UnstepStep | src/mux.rs:27-27 | one CRC step is one to one: it can be undone |
| Crc32.StepLinear | src/mux.rs:27-27 | one CRC step commutes with exclusive or |
| CrcBurst.FourBytes | src/mux.rs:24-29 | absorbing four bytes is one exclusive or with their little-endian word and 32 steps |
| CrcBurst.ResidueAccepts | src/mux.rs:63-63 | the stored CRC equals the computed one if and only if the register over data and field ends at one fixed residue |
| CrcBurst.BurstChangesRegister | src/mux.rs:22-31 | messages that differ only within four consecutive bytes and agree in their register are equal |
| CrcBurst.TableForm | src/mux.rs:24-29 | absorbing a byte only needs eight steps of the low byte, as a table-driven CRC does |
| Reference.ReferenceValue | src/mux.rs:22-31 | the CRC of the digits 1 to 9 is 0xcbf43926 |
| Reference.LeadingZeroIsNoticed | src/mux.rs:23-23 | the register starts with ones: a zero byte in front of any message changes its CRC |
| Reference.EncodableMeans | src/mux.rs:34-40 | a frame can be encoded if and only if its kind is 1 to 7, it has a session and at most 1024 bytes of payload |
| Reference.KindNumbers | src/mux.rs:6-12 | the frame kinds have the numbers 1 to 7 |
| Reference.SampleOnTheWire | src/mux.rs:34-56 | one frame with both special bytes in it, byte for byte: fields and their order, byte order, CRC, escapes and flags |
| Mux.BurstRejected | src/mux.rs:58-73 | any change within four consecutive bytes of an acceptable body makes decode reject it |
| Mux.Encode | src/mux.rs:34-56 | encode succeeds exactly on encodable frames, with the stuffed wire form, and else names the first failing check |
| Mux.StuffBody | src/mux.rs:46-52 | the escaping loop produces the stuffed body |
| Mux.DecodeIffBody | src/mux.rs:58-73 | decode returns a frame exactly for the body of that frame, provided kind and session are valid |
| MuxDecoder.Decoder.Feed | src/mux.rs:91-138 | feed leaves the decoder where the byte-by-byte specification ends and reports exactly its grouped items |
| MuxDecoder.ItemsLossless | src/mux.rs:91-138 | the grouped items are the per-byte signals: nothing is lost, invented or reordered |
| MuxDecoder.RunConcat | src/mux.rs:91-138 | reading two stretches one after the other is reading their concatenation |
| MuxDecoder.ChunkIndependence | src/mux.rs:91-138 | every way of cutting a stream into reads gives the same signals and the same decoder |
| MuxStream.StuffHasNoFlag | src/mux.rs:46-52 | a stuffed body contains no flag byte |
| MuxStream.SelfSynchronisation | src/mux.rs:91-138 | from any reachable decoder state a frame ends with that frame after at most one other, non-raw signal |
| MuxStream.PartialFrame | src/mux.rs:91-138 | in any state, a proper prefix of a frame yields only what its opening flag ends |
| MuxStream.FramesDecode | src/mux.rs:91-138 | from any reachable state, frames come back in their order after at most what the first flag ends |
| MuxStream.WireInjective | src/mux.rs:34-56 | two frames never share a wire form |
| MuxStream.GotFramesAreEncodable | src/mux.rs:91-138 | the decoder only reports frames that could have been encoded |
| MuxStream.StreamRoundTrip | src/mux.rs:34-138 | decoding any mix of encoded frames and readable text returns that mix |
| MuxStream.StreamRoundTripInChunks | src/mux.rs:34-138 | and does so for every split into feed calls |
| MuxStream.TextAfterFrame | src/mux.rs:111-115 | text right after a frame comes back as text if and only if it does not start with the version byte |
| MuxStream.FrameOrCorrupt | src/mux.rs:91-138 | any bytes between two flags that begin with the version byte are the one frame they encode, or are reported as corrupt, too long ones included |
| MuxStream.CutEscapeIsCorrupt | src/mux.rs:91-138 | a body that ends in the middle of an escape is reported as corrupt |
| FirmwareMux.Get | firmware/components/idf_remote/mux_codec.c:13-18 | the loop gathers little-endian bytes of the buffer |
| FirmwareMux.Put | firmware/components/idf_remote/mux_codec.c:19-22 | the loop lays out little-endian bytes and leaves the rest of the buffer alone |
| FirmwareMux.MuxEncode | firmware/components/idf_remote/mux_codec.c:23-46 | writes at most MUX_MAX_WIRE bytes, exactly the host's wire form, or nothing and returns zero when the frame is not encodable |
| FirmwareMux.Accept | firmware/components/idf_remote/mux_codec.c:53-55 | the firmware's body check accepts exactly the bodies the host decodes |
| FirmwareMux.Deliver | firmware/components/idf_remote/mux_codec.c:56-60 | the delivered frame has the fields of the body |
| FirmwareMux.MuxFeed | firmware/components/idf_remote/mux_codec.c:47-90 | one byte moves the C decoder as the host's and returns the code of the host's signal, at the overflow boundary too |
| FirmwareMux.FeedAll | firmware/components/idf_remote/mux_codec.c:47-90 | over any byte stream the C decoder's reports mean the host decoder's trace |
| Json.CompatibleJsonText | firmware/components/idf_remote/idf_remote.c:194-221 | the one-pass scan with string flag and depth is the recursive scan |
| Json.ScanPrinted | firmware/components/idf_remote/idf_remote.c:194-221 | scanning a printed value in front of any text accepts exactly if the value fits and the rest is accepted at the same depth, so strings and escapes never disturb the tracking |
| Json.FirmwareAccepts | firmware/components/idf_remote/idf_remote.c:194-221 | the firmware accepts a printed value if and only if no text in it contains NUL and its containers nest at most 18 deep |
| Json.CommandsPassTheScan | src/application.rs:24-71 | every command the host sends passes the firmware's scan |
| Json.HostAccepts | src/application.rs:41-71 | the host accepts parameters if and only if they have at most 17 levels, no text in them contains NUL and all numbers are in range |
| Json.FirmwareAcceptsCommand | firmware/components/idf_remote/idf_remote.c:194-221 | the firmware accepts a command if and only if its parameters nest at most 17 containers and contain no NUL |
| Json.DepthLimitsDiffer | src/application.rs:41-71 | what the firmware accepts beyond the host is exactly 17 containers around a scalar, and numbers out of range; the host sends nothing else that it refuses |
| Json.CutCommandsFail | firmware/components/idf_remote/idf_remote.c:194-221 | no proper beginning of a command's text passes the firmware's scan |
| Json.PayloadExactly | src/application.rs:24-37 | a command has a payload if and only if its method has 1 to 64 bytes without NUL, its parameters are admissible and the text has at most 1024 bytes; the payload is that text |
| JsonText.PrintIsRead | src/application.rs:31-31 | read by the grammar of RFC 8259, a printed value stands for that value, and nothing is left over |
| JsonText.PrintIsInjective | src/application.rs:31-31 | two values never share a text |
| JsonText.CommandIsRead | src/application.rs:24-37 | a command's text is an object with its method and its parameters under these names |
| JsonText.NoRawNul | firmware/components/idf_remote/idf_remote.c:194-221 | in any text the scan accepts, a raw NUL only stands right behind a backslash |
| JsonText.ScanIsBalance | firmware/components/idf_remote/idf_remote.c:194-221 | of texts without strings, printed or not, the scan accepts exactly those whose brackets balance and nest at most 18 deep |
| Application.Chunks | src/application.rs:168-169 | console data is cut into non-empty pieces of at most 256 bytes that join to the data |
| Application.ReplyHasSource | src/application.rs:248-292 | a reply only comes from a frame of this session and request, of the expected kind or an error, with that payload |
| Application.FailureLasts | src/application.rs:267-268 | after a malformed response nothing later in the read is looked at |
| Application.Session.BeginConnect | src/application.rs:124-139 | a new session starts with request 1 and is not valid |
| Application.Session.AcceptHello | src/application.rs:141-149 | accepts exactly identities of protocol 1 and makes the session valid |
| Application.Session.PrepareRequest | src/application.rs:151-164 | checks in order session, command, numbers, and uses each request number once |
| Application.Session.PrepareConsole | src/application.rs:166-180 | encodes the pieces as console frames of the session |
| Application.Session.Process | src/application.rs:248-292 | goes through the decoded items with reply, reset and early failure as specified |
| Outputs.ProcessMeans | src/application.rs:248-292 | a read reports, in order, one output for each raw, corrupt, console and event item and for no other; it fails exactly for a malformed answer, ends a valid session exactly for unframed bytes, and otherwise replies with the last awaited frame |
| Outputs.AwaitedFrameIsReply | src/application.rs:262-273 | an awaited frame of the session gives a reply, unless the read fails |
| Outputs.ReadsShowText | src/application.rs:248-292 | over any reads of a stream the console text that is shown is that of the stream: its raw bytes and its console frames |
| Outputs.PrintedIsShown | src/application.rs:274-275 | what a device prints in the session is shown as it was printed, however the bytes are cut into reads and whatever call waits meanwhile |
| Outputs.NewSessionShowsText | src/application.rs:124-139 | a new session shows text without frames as it is |
| Duplex.Duplex.StartApplication | src/duplex.rs:55-96 | starts a request or a negotiation, or fails in the order of the checks |
| Duplex.Duplex.StartInput | src/duplex.rs:97-122 | queues console frames or raw pieces, one input at a time |
| Duplex.Duplex.Tick | src/duplex.rs:123-172 | one bounded write, the rotation between complete frames, and the second clock reading |
| Duplex.Duplex.Expire | src/duplex.rs:173-192 | a pending call past its deadline ends once, and a negotiation takes its session along |
| Duplex.Duplex.Feed | src/duplex.rs:193-220 | processes received bytes and settles the pending call; taking the pending call cannot fail |
| Duplex.Duplex.Abort | src/duplex.rs:221-246 | empties the scheduler and completes what it owed |
| CallOutcomes.PendingIsInTime | src/duplex.rs:173-220 | after any successful tick or feed a call that is still pending was in time at its last clock reading |
| CallOutcomes.NoCallOutlivesItsDeadline | src/duplex.rs:173-220 | in every run no call stays pending beyond its deadline |
| CallOutcomes.TimedOutMeans | src/duplex.rs:173-192 | a call times out only if it was pending and its deadline had come; a negotiation then leaves no session, any other call leaves the session alone |
| CallOutcomes.DeadlineEndsCall | src/duplex.rs:173-192 | a tick ends the pending call exactly at its deadline |
| CallOutcomes.DeadlineEndsFeed | src/duplex.rs:193-220 | a feed at the deadline ends the call once, by a reply that was in time or by timing out |
| CallOutcomes.FeedShows | src/duplex.rs:193-220 | without a session a feed shows the bytes themselves, and in a session what the session reports of them; it fails exactly if the session reports an error |
| CallOutcomes.AbortReasons | src/duplex.rs:221-246 | whatever an abort ends, it ends with the reason it was given |
| CallOutcomes.TickFailsExactly | src/duplex.rs:123-151 | a tick fails exactly if a transfer is late, the driver takes nothing, or the write fails, and then changes nothing |
| CallOutcomes.OfferIsRest | src/duplex.rs:134-136 | the driver is offered the rest of the front frame, at most 256 bytes |
| CallOutcomes.NegotiationOutcome | src/duplex.rs:193-220 | a negotiation succeeds only with an identity that names protocol 1 and leaves a valid session with it; if it fails it leaves none |
| CallOutcomes.RequestStartsExactly | src/duplex.rs:55-96 | a request is started, or refused for the first reason that applies |
| CallOutcomes.ConnectStartsExactly | src/duplex.rs:55-96 | a negotiation needs an idle scheduler with an empty queue, and queues its hello alone |
| CallOutcomes.InputStartsExactly | src/duplex.rs:97-122 | one input at a time, and in a session only a valid one |
| CallOutcomes.StartsNeedProtocolOne | src/application.rs:141-164 | in every run requests and framed inputs are only started in a session that was accepted for protocol 1 |
| CallOutcomes.QueueBelongsToSession | src/duplex.rs:55-122 | in every run, while there is a session, everything queued is a frame of that session |
| CallOutcomes.InputGivesItsResult | src/duplex.rs:153-161 | in every run an input that succeeds completes with the result it was started with |
| DuplexRuns.CallConserves | src/duplex.rs:55-246 | for every call, failed or not, what was owed plus what was started is what completed plus what is owed now |
| DuplexRuns.AbortFailsEveryKey | src/duplex.rs:221-246 | abort fails every owed key exactly once and a second abort does nothing |
| DuplexRuns.RunConserves | src/duplex.rs:55-246 | the same balance over every sequence of calls |
| DuplexRuns.NoCompletionLostOrDoubled | src/duplex.rs:55-246 | over every run started keys are the disjoint union of completed and owed keys, and none completes twice |
| Transmission.WriteKeepsLine | src/duplex.rs:132-167 | one write keeps whole frames, their order and the partial front frame |
| Transmission.CallKeepsLine | src/duplex.rs:55-246 | every call does |
| Delivery.AcceptedBytesAreFrames | src/duplex.rs:123-172 | in every run the accepted bytes are whole frames and a proper prefix of the front transfer's frame, each transfer's frames in order and once |
| Delivery.PeerDecodesFrames | src/duplex.rs:55-172 | in every run, from a call that finds the queue empty, as every started connection does, and from any state of the device's decoder, it decodes exactly the frames written since, after at most what their first flag ends |
| Delivery.InputGetsConsoleFrames | src/duplex.rs:97-122 | an input in a session is given the console frames of its data |
| Delivery.InputArrives | src/duplex.rs:97-172 | in every run, what was written of an input started in a session decodes to a prefix of its data, and to all of it once it was completed successfully |
| Delivery.DoneMeansAllSent | src/duplex.rs:153-161 | an input only succeeds when nothing of it is queued |
| InputText.DeviceReadsWhatWasTyped | src/duplex.rs:97-172 | in every run, the console text of the frames written since the queue was last empty is a prefix of the inputs started since, joined in their order, and all of it when no input is queued |
| Delivery.WritesMakeProgress | src/duplex.rs:132-151 | each successful write of n bytes leaves n bytes less to send |
| Progress.QueueEmpties | src/duplex.rs:123-172 | as many accepted ticks as there are unsent bytes and transfers leave the queue empty |
| Progress.CallWaitsInBytes | src/duplex.rs:123-172 | from when a call is queued until its frame begins exactly the bytes in front of it are written: those of other calls, and at most 550 of an input if one is ahead |
| Delivery.CallWaitsForOneInputFrame | src/duplex.rs:162-167 | from when a call is queued until its frame begins at most one input frame is completed |
| Delivery.ConsoleFrameLength | src/application.rs:166-180 | a console frame takes at most 550 bytes on the wire |
| SerialLine.FrameArrives | src/mux.rs:91-138 | each part of a frame leads the decoder on; its first byte completes at most what was left before, its last byte exactly the frame |
| SerialLine.CutFrame | src/mux.rs:91-138 | if the next flag completes a frame that was cut anywhere, the result has its kind and number and a beginning of its payload |
| SerialLine.TypingConserves | src/mux.rs:91-138 | the requests that typed bytes complete, or leave unfinished, are exactly those left before them and those they were typed into |
| SerialLine.ResetOnlyLoses | firmware/components/idf_remote/idf_remote.c:266-270 | a decoder that starts afresh in the middle of a stream reports what the old one would, but for what the next flag ends |
| SerialLine.ListenerSeesArrivals | src/application.rs:124-139 | whoever begins to listen at some point of a stream, however its bytes are cut into reads, is only given frames that the decoder of the whole stream reports |
| Protocol.RequestStarts | src/application.rs:151-164 | a started request adds one queued frame, one submission under the next number and one pending call |
| Protocol.TickFlows | src/duplex.rs:123-172 | a write conserves requests: queue, unfinished frame and completed frames hold exactly what queue, unfinished frame and typed text held |
| Protocol.AbortRequests | src/duplex.rs:221-246 | after an abort in the middle of a frame the device's decoder may still hold that request, and nothing else the handler could be called for |
| Protocol.DeviceReceivesKeeps | firmware/components/idf_remote/idf_remote.c:266-301 | the receiving task keeps the invariant: handshakes, stale sessions and full queues included |
| Protocol.DispatchKeeps | firmware/components/idf_remote/idf_remote.c:232-253 | the command task up to the handler keeps the invariant |
| Protocol.FinishKeeps | firmware/components/idf_remote/idf_remote.c:251-260 | answering after the handler keeps it |
| Protocol.OutputKeeps | firmware/components/idf_remote/idf_remote.c:80-125 | sending and printing keep it, framed or raw and cut off anywhere, and so does publishing |
| DeviceAnswers.ReceiveAnswers | firmware/components/idf_remote/idf_remote.c:266-301 | a hello is acknowledged, a request of the session is queued or, behind four others, answered with an error, and nothing else has an effect on requests |
| DeviceAnswers.DispatchAnswers | firmware/components/idf_remote/idf_remote.c:232-250 | a stale request is dropped, a malformed one answered with an error, any other given to the handler |
| DeviceAnswers.FinishAnswers | firmware/components/idf_remote/idf_remote.c:250-260 | a handler is answered for by a response if it succeeded with at most 1024 bytes, and by an error otherwise |
| DeviceAnswers.SendsItsSession | firmware/components/idf_remote/idf_remote.c:98-124 | a control frame is sent in the device's own session only, and leaves the queue in any case |
| DeviceAnswers.ResponseMeansSuccess | firmware/components/idf_remote/idf_remote.c:250-260 | in every run a response follows a handler that succeeded for that request, with the text it returned |
| DeviceAnswers.NoRequestIsForgotten | firmware/components/idf_remote/idf_remote.c:232-298 | in every run a request that was taken in is still with the device or answered, as long as the session lasts |
| DeviceAnswers.ReceivedIsAccounted | firmware/components/idf_remote/idf_remote.c:294-297 | a request of the session that comes in is with the device or answered at once |
| DeviceAnswers.QueuesAreBounded | firmware/components/idf_remote/idf_remote.c:326-328 | in every run at most four requests and eight control frames are queued |
| Protocol.StepKeeps | src/duplex.rs:55-246 | every step of host, wire and device keeps the invariant |
| Protocol.HandledAtMostOnce | firmware/components/idf_remote/idf_remote.c:232-298 | in every run in which typed text completes no copy and no request of its own, aborts and resets included, no request reaches the handler twice, and the handler sees the submitted payload |
| TypedRequests.TypedCopiesGoAstray | src/duplex.rs:97-172 | at any point of any run, for a write whose typed requests are of the device's session and not queued: steps of the device can call the handler twice for one request, or with one not submitted, if and only if the write does not meet the condition on typed text |
| TypedRequests.BreakingGoesAstray | firmware/components/idf_remote/idf_remote.c:232-298 | a typed request of the device's session that is a copy or was not submitted can reach the handler whatever the device is doing or holds |
| TypedRequests.QueuedCopyGoesAstray | src/duplex.rs:123-172 | so can a copy of a request that is still queued, once the driver takes the rest in time |
| TypedRequests.TypedRequestIsHandledTwice | firmware/components/idf_remote/idf_remote.c:232-298 | a run from the start in which one request is handled twice, because its bytes are typed while the device still holds its session |
| Protocol.SubmissionsAreDistinct | src/application.rs:151-164 | in every run a started request has a number that nothing anywhere has |
| Replies.ReplyComesFromDevice | src/duplex.rs:193-220 | in every run a call completes with a value or refusal only from a frame the device produced for that session and request, or a beginning of it, and with a response only after the handler was called with the submitted payload, unless the awaited frame was printed |
| Replies.OnlyPrintedRepliesMislead | src/duplex.rs:193-220 | at any point of any run the host can complete its call with an answer the device did not give if and only if printed text imitates an answer to that call |
| Replies.PrintedAnswerMisleads | firmware/components/idf_remote/idf_remote.c:113-118 | a run from the start in which a call completes although the handler was never called |
| EventRing.Append | src/server.rs:191-208 | the eviction loop trims the pushed ring |
| EventRing.AppendRefines | src/server.rs:191-208 | the ring stays the end of the unbounded log with its exact size within both limits, and evicts only what would break a limit |
| EventRing.LimitsAreKept | src/server.rs:191-208 | a ring holds at most 4096 events and 4 MiB, and evicts nothing as long as the next event fits |
| EventRing.EmptiedIff | src/server.rs:203-207 | the ring is left empty exactly by an event above the byte limit |
| EventRing.EventsAfter | src/server.rs:210-244 | the cursor checks and the filter loop are the polling function |
| EventRing.PollMeans | src/server.rs:210-244 | the gap error comes exactly if an event asked for was evicted and something is retained; a batch is complete exactly if something is retained or nothing was asked for |
| EventRing.ClientSeesEverything | src/server.rs:191-244 | over any interleaving a client chaining cursors has received every event once and in order, or was told of a real gap |
| EventRing.OversizedEventIsLost | src/server.rs:203-207 | an event above the limit, which no producer makes, would be lost without the gap error |
| Store.OperationIdInjective | src/server.rs:832-832 | operations of one store never share an id, whatever the device names are |
| Store.Store.Emit | src/server.rs:191-208 | appends one event to the device's log, and the ring still refines it |
| Store.Store.Events | src/server.rs:210-244 | answers polls from the ring for the log |
| Store.Store.PushOperation | src/server.rs:246-267 | evicts finished operations with their keys and artifacts down to 63, then appends |
| Store.Store.Replay | src/server.rs:705-723 | finds the operation of a known key or reports a conflict |
| Store.Store.Submit | src/server.rs:792-880 | the locked part of submit, rollback included |
| Store.Store.FinishStream | src/server.rs:1058-1107 | records every completion of a round, frees its lane and announces it |
| Store.Store.FinishHardware | src/server.rs:1357-1398 | records the end of a hardware operation |
| Store.Store.Publish | src/server.rs:968-997 | publishes a read unless the monitor is being replaced |
| History.ReplayFindsOperation | src/server.rs:705-723 | in a consistent store the lookup behind a replay succeeds and returns the operation with that key |
| History.EvictedKeeps | src/server.rs:246-267 | eviction keeps the store consistent, leaves fewer than 64 finished operations and never removes a running one |
| History.EvictsTheOldest | src/server.rs:248-265 | eviction stops at exactly 63 finished operations and takes the oldest first |
| History.RecordedKeeps | src/server.rs:825-857 | admission keeps the store consistent and adds one operation with a new id |
| History.RollbackKeeps | src/server.rs:858-878 | so does rolling an admission back |
| History.FullChannelRefuses | src/server.rs:807-880 | a new request is refused for its device, or else exactly if two jobs wait for it already |
| History.RollbackRestores | src/server.rs:858-878 | a rollback takes back the record, the operation and the flags of the request |
| History.CompletionIsRecorded | src/server.rs:1067-1106 | a completion changes only its own operation and its own lane, and is announced with its result |
| History.HardwareIsRecorded | src/server.rs:1357-1398 | a hardware result and its artifact are kept under the operation's id, and the device shows whether it is monitored, idle or faulty |
| AdmissionRuns.CompletionReleases | src/server.rs:1084-1089 | a completion frees exactly the lane of the operation it belongs to |
| AdmissionRuns.AdmissionOccupies | src/server.rs:807-828 | what the flags admit leaves at most one exclusive operation or one per lane |
| AdmissionRuns.ChannelHasRoom | src/server.rs:858-880 | a job that may be admitted fits into the channel |
| AdmissionRuns.TransitIsRetained | src/server.rs:1069-1073 | every completion of a round finds its operation |
| ServiceRuns.LookupsSucceed | src/server.rs:1067-1073 | every lookup under the lock finds its operation |
| ServiceRuns.MoveKeeps | src/server.rs:1109-1572 | every step of every worker and submitter, and every new device, keeps the invariant |
| ServiceRuns.FinishIsFinishStream | src/server.rs:1058-1107 | the completion step of the protocol has the effect of finish_stream |
| ServiceRuns.RunningIsOwed | src/server.rs:807-880 | in every interleaving running operations are the disjoint union of queued jobs, the job executed, keys the scheduler owes and completions on their way, and the flags describe them |
| ServiceRuns.SubmitNeverRollsBack | src/server.rs:858-880 | in every interleaving submit never finds the channel full and no lookup fails |
| ServiceRuns.NoConsoleDuringReplacement | src/server.rs:1485-1509 | in every interleaving no console event lies between start and end of a monitor-replacing operation |
| ServiceRuns.ConsoleComesFromNewStream | src/server.rs:1238-1255 | console events after an operation that closed the monitor come from a stream opened after that |
| ServiceRuns.HistoryIsBounded | src/server.rs:246-267 | in every interleaving keys and retained operations correspond one to one, artifacts belong to retained operations, and at most 63 operations plus two per device are retained |
| ServiceRuns.RepeatedRequestIsReplayed | src/server.rs:793-806 | a request repeated with its key while retained changes nothing and returns its operation |
| Replays.SubmitAnswers | src/server.rs:705-723 | in every interleaving a submit is answered with an operation if and only if it is retained and was admitted for this key and this very request, and refused with a conflict if and only if the key is that of a retained operation admitted for another request; either way nothing changes |
| Replays.RecordsHaveSource | src/server.rs:825-857 | in every interleaving every idempotency record comes from a submit that was admitted with that key and fingerprint |
| Replays.AdmittedOnce | src/server.rs:832-832 | no two admissions of a run have one operation id |
| Replays.NewRequestIsAdmitted | src/server.rs:807-880 | in every interleaving a request with a new key is admitted if and only if the device is free, or occupied by the other lane only |
| Publishing.PublishMeans | src/server.rs:968-997 | an output is logged as it is, with the log lines it completes, or dropped while the monitor is being replaced |
| Publishing.HeldIsPublished | src/server.rs:968-997 | all console text of a read reaches the log, in order, and no other does |
| Publishing.ReadIsHeld | src/server.rs:1448-1509 | the outputs of a read are kept for publication whether it fails or not; a failed read ends the session and all that was pending |
| Publishing.UnframedTextIsPublished | src/server.rs:1485-1509 | without a session the bytes of a read are published as they are |
| Publishing.TickMeans | src/server.rs:1402-1424 | a failed tick ends everything that was pending and gives up the stream |
| Publishing.PrepareMeans | src/server.rs:1238-1290 | the stream is kept only for a monitor operation in a session, and closed for every other hardware operation, which ends the session and says so |
| Publishing.LostStreamMeans | src/server.rs:1118-1131 | once the stream is lost everything pending ends, and the session with it |
| Publishing.NoticeMeans | src/server.rs:1003-1031 | a notice is logged and sets the status it comes with; no operation and no other device changes |
| Publishing.DeclineMeans | src/server.rs:1144-1237 | a job that cannot be started is completed with that failure, on its own lane |
| Registry.StrongMatchIsEquality | src/backend/espflash.rs:54-80 | a strong match is equality of identities with a serial number |
| Registry.SameGroup | src/backend/espflash.rs:474-490 | a locator group is one port or the callout and dial-in port of one name |
| Registry.ReconcileKeepsIdentity | src/backend/espflash.rs:391-466 | id, identity and macOS kind last, and the generation grows exactly with a change of port |
| Registry.AvailableIsLocated | src/backend/espflash.rs:410-466 | an available record is in the scan at its port with a single strong group |
| Registry.LocatedIsAvailable | src/backend/espflash.rs:411-440 | a record found so at its port is available and stays there |
| Registry.ReconcileIsIdempotent | src/backend/espflash.rs:410-466 | reconciling twice with one scan is reconciling once |
| Registry.ReconcileFindsTarget | src/backend/espflash.rs:410-466 | a record becomes available exactly if the scan finds its device beyond doubt, at that port |
| Registry.Registry.Reconcile | src/backend/espflash.rs:410-466 | the branches of reconcile_record, in place |
| Registry.Registry.Adopt | src/backend/espflash.rs:391-408 | the record moves to the candidate's port under its own id and activity |
| Registry.Registry.Discover | src/backend/espflash.rs:279-333 | reconciles, claims new groups up to 64, reconciles again; with distinct ports no two available records share one |
| Registry.Registry.Refresh | src/backend/espflash.rs:335-351 | reconciles one known record and keeps the registry's invariant |
| Registry.RegistryIsSound | src/backend/espflash.rs:279-351 | over every sequence of scans at most 64 records, one per strong identity, and no shared port after a discovery |
| Registry.RefreshSharesPortIff | src/backend/espflash.rs:335-351 | from any registry, a refresh leaves no shared port exactly if the other records share none and no other available record is held where the device is found |
| Registry.RefreshCanSharePort | src/backend/espflash.rs:335-351 | a run from the empty registry in which it does, and that the next discovery mends it |
| Registry.RecordsLast | src/backend/espflash.rs:279-466 | over every sequence of scans a record keeps id, identity and kind, and its generation counts its port changes |
| RegistryStatus.StatusMeans | src/backend/espflash.rs:410-466 | each status has its exact condition on the scan: another device at the port, the own device in two places, port gone without a place to move to, or found |
| RegistryStatus.StatusShows | src/backend/espflash.rs:391-466 | an available record shows the scan's entry at its port under its own id, activity and generation, and moves only if its port is gone, to the first port of its kind; otherwise only the status changes |
| RegistryStatus.DiscoveryIsComplete | src/backend/espflash.rs:287-322 | a discovery that leaves fewer than 64 records has taken up every group of USB ports |
| RegistryStatus.RepresentsMeans | src/backend/espflash.rs:313-317 | a record stands for a candidate of its identity in its locator group, or of its identity anywhere if that has a serial number |
| RegistryStatus.ClaimExactly | src/backend/espflash.rs:313-321 | a candidate gets a record exactly if no record has its id or stands for it; the record counts from generation 0, and no other record changes |
| RegistryStatus.NewRecords | src/backend/espflash.rs:279-333 | every record that a discovery adds is for the port a group of USB ports is known by, in generation 0, and is available there unless its device is in two places |
| RegistryStatus.GroupsAreSorted | src/backend/espflash.rs:287-298 | groups are taken up once each, in the order of their keys |
| RegistryStatus.LessMeans | src/backend/espflash.rs:287-287 | that order is the lexicographic one |
| Registry.Pick | src/backend/espflash.rs:302-312 | the callout port of a group is preferred, and else its first |
| FlashPlan.Padded | src/plan.rs:126-128 | data is padded with 0xff to the next multiple of four |
| FlashPlan.CheckIsExact | src/plan.rs:139-151 | the sorted adjacent check says exactly that no two segments share an erase sector |
| FlashPlan.SortSorts | src/plan.rs:139-139 | sorting orders by offset and permutes |
| FlashPlan.Load | src/plan.rs:110-138 | accepts exactly usable segments within 128 MiB and pads them, and else reports the first check that the first bad segment fails; no bound underflows and no sum overflows |
| FlashPlan.CheckPairs | src/plan.rs:140-151 | the loop over pairs is the adjacent check, in 64-bit arithmetic that does not overflow |
| FlashPlan.Prepare | src/plan.rs:99-157 | prepare accepts exactly the plans whose files are usable and whose erase sectors are pairwise disjoint, and returns their sorted padded segments; otherwise it reports the first check that fails |
| FlashPlan.OneError | src/plan.rs:99-157 | the error of a plan is unique, and an acceptable plan has none |
| FlashPlan.AcceptableExactly | src/plan.rs:99-157 | what prepare accepts, in bytes: 1 to 64 segments of at most 128 MiB, aligned, within 4 GiB, no two with bytes in one sector of 4096 |
| FlashPlan.PreparedHolds | src/plan.rs:110-157 | the prepared segments are the files of the plan, each whole and at its offset, and no others |
| FlashPlan.PreparedIsSound | src/plan.rs:99-157 | what it returns is aligned, padded, sorted and disjoint |
| FlashPlan.ValidateCapacity | src/plan.rs:161-170 | accepts exactly plans that end within the flash |
| Upload.FromPlan | src/wire.rs:73-106 | makes the upload form unless the padded data exceeds 32 MiB |
| Upload.Validate | src/wire.rs:113-175 | validate accepts exactly the manifests whose parts are canonical, small enough and in disjoint erase sectors, and otherwise reports the first check that fails |
| Upload.OneManifestError | src/wire.rs:113-175 | the error of a manifest is unique, and a valid manifest has none |
| Upload.ValidExactly | src/wire.rs:113-175 | what validate accepts, in numbers: names segment-0 and so on, at most 64 parts and 32 MiB, lower-case digests of 64 digits, no two parts with bytes in one sector of 4096 |
| Upload.IntoPlan | src/wire.rs:180-201 | rebuilds the plan exactly if manifest, sizes and digests agree |
| Upload.UploadRoundTrip | src/wire.rs:73-201 | every prepared plan that fits passes the server's checks and is rebuilt exactly |
| Upload.AcceptedIsSound | src/wire.rs:180-201 | whatever the server accepts is aligned, padded, sorted and in disjoint erase sectors |
| Upload.AcceptedHolds | src/wire.rs:180-201 | the plan it rebuilds holds the parts of the manifest, each with the size and the digest it names, and no others |

## Left out

- The HTTP layer, authentication, multipart bodies, server-sent events and long polling, and the command-line client: they start from requests that are already parsed here.
- USB, serial port and flashing drivers, and the Android backend: a stream is a reader and writer that may do anything, and opening it may fail.
- Checks of submit before it takes the lock (capability, availability, baud): they only refuse earlier; the locked part checks idempotency and lanes again and is what is modelled.
- ELF and partition parsing, log line decoding, colours, base64, UTF-8 and file handling: log lines a read completes are a parameter.
- JSON parsing: the result of a parse is a parameter, and so is the range check of numbers; the grammar in `JsonText` only reads printed text back.
- Out of memory on the device: every answer is printed, though a full control queue or a stalled driver may drop it.
- Overflow of event numbers, operation counts and locator generations after 2^64 steps.
- The command nonce counter itself: that it never repeats is an assumption of the protocol model.
- Registries filled from configured addresses: the registry starts empty and grows by discovery.
- Offsets written as text in a plan: segments carry numbers.
- Shutdown: whether a submit that races with it is answered.
- Registry.Registry.Discover: the callout port of a group is found by a function, not by a loop, and a locator group is a filter of the scan instead of a mutable map entry.
