# Remote-control protocols: a verified model

A Dafny 4.11 model of the parts of the repository where bytes, state and concurrency meet, with proofs of
what those parts promise. `dafny verify dfyconfig.toml` checks all of it.

| area | files | what is proved |
|---|---|---|
| protobuf wire format | `Wire`, `Utf8`, `Proto`, `WireFields` | varints are minimal, prefix-free and read back; any record a schema admits survives Marshal and Unmarshal; what a reader makes of any fields in any order, repeated or unknown |
| beyonder messages | `Messages`, `Arriving` | what Decode makes of every message a peer writes, field number by field number; every encoder's bytes in the same terms, undone by Decode through all nesting levels; none starts like a size announcement; the golden frames of the tests |
| framing | `Reassembler`, `Reassembly` | `Feed` as a class against a token law: byte conservation, exact split invariance, reassembly undoes framing for every legal chunking |
| beyonder client | `Writers`, `Client`, `Keepalive` | all interleavings of senders, reader, consumer and Close; every send can finish; exactly when a probe is sent |
| beyonder session | `Session` | Hello, Pair, SendSpecialInput and LaunchApp as methods; exactly when each succeeds, what it then did, and when it returns each error; safety of every run of calls, judged by the bytes written |
| Android TV remote | `VarintStream`, `RemoteClient`, `RemoteSession` | varint-delimited streams with concurrent writers; the client's state by the fields of the messages it handled; when dialing yields a session |
| Android TV sender | `AndroidSender` | the one-entry session cache, the single reconnect and replay; exactly when a call succeeds and what it sends |
| probe encoder | `NvEncoder` | hand-written protobuf against a reference reader; frames; distinct attempts have distinct bytes |
| probe enumeration | `Lists`, `Text`, `NvIntList`, `NvAttempts`, `NvHello`, `NvCandidates`, `NvHelloAttempts` | integer lists, the nested loops and their order, the canonical devInfo message, the candidate set and what its payloads read as, preambles |
| traffic analyser | `TlsRecords`, `FlowTable` | TLS record summaries; the incremental flow table equals the aggregate of all packets |

Code that changes state in steps is modelled by classes and methods with loops; each is proved equal to a
function of the old state, and the properties are lemmas about that function. Concurrency is modelled as
interleaved atomic steps.

## Findings

* A chunk boundary is invisible to `Reassembler.Feed` exactly when the call before it recognised no frame by
  the end of its chunk (`Reassembly.SeamExact`); elsewhere the next bytes can change the messages returned.
* A remote stream that breaks off inside a message leaves no error exactly if the break comes before the
  message's first byte or exactly between its length prefix and its payload: there `io.ReadFull` returns a plain
  end of file (`VarintStream.CutMessage`), which the reading loop does not record
  (`RemoteSession.CutUnrecordedExactly`).
* For the same reason a peer that answers and closes cleanly still yields a session
  (`RemoteSession.CleanCloseStillDials`).
* An action the remote does not have never succeeds, yet it costs the cached session exactly if the context is
  not done: the session is closed and dialed again before the call fails, and the cache is left empty if that
  dial fails (`AndroidSender.UnsupportedReconnects`). In general a Send or Launch costs the cached session
  exactly if it is for another configuration, or its first attempt fails while the context is live
  (`AndroidSender.SessionLostExactly`).
* A beyonder send that breaks off can still make the peer return a message: if what it left arrives as one chunk,
  it contributes nothing if and only if the message was announced or the piece does not decode
  (`ConcurrentSends.BrokenSendExact`). Before the call: some break of the send can deliver something if and only
  if the message is at most 2048 bytes long and some proper beginning of it decodes
  (`ConcurrentSends.BreakCanDeliver`), as the first three bytes of every special input do
  (`ConcurrentSends.BrokenSpecialInput`). The completed messages come first in any case
  (`ConcurrentSends.CompletedComeFirst`).
* `tag << 3` loses the top bits of tags from 2^60 on: such fields do not parse back, and different tags get the
  same bytes (`NvEncoder.FieldVarintExact`, `NvEncoder.WrappedTagsCollide`).
* In `parseIntList` the loop over a range ends if and only if the range stops short of the largest 64-bit
  integer; otherwise the counter wraps around (`IntList.RangeLoopEnds`, and on strings such as
  `9223372036854775807-9223372036854775807` `IntList.RangeStringEnds`). `IntList.ParseIntList` requires exactly
  that every range loop it reaches ends (`IntList.EndsExactly`).
* In the flow table, of the packets whose two ends coincide exactly the first counts as client to server and
  all others as server to client (`FlowTable.SelfFlow`); all other flows count by direction
  (`FlowTable.OrdinaryFlow`).

## Model

| member | source | states |
|---|---|---|
| Wire.VarintRoundTrip | cmd/nvprobe/main.go:721-735 | a varint below 2^64 is read back and reading stops at its end, whatever follows |
| Wire.VarintPrefixFree | cmd/nvprobe/main.go:721-735 | no varint is a prefix of another: equal streams start with equal numbers |
| Wire.VarintMinimal | cmd/nvprobe/main.go:721-735 | the encoder's form is no longer than any byte string that reads as the same value |
| Wire.AnyVarint | cmd/nvprobe/main.go:721-735 | every varint of up to ten digits, minimal or padded with zeros, is read as its value, unless the tenth digit carries more than one bit |
| Wire.Int32RoundTrip | internal/beyonder/messages.go:218-225 | an int32 field keeps its value through the 64-bit sign extension of the wire format |
| Wire.Int32Truncates | internal/beyonder/messages.go:119-151 | an int32 field that was written wider keeps its low 32 bits |
| Utf8.Utf8Exact | internal/beyonder/messages.go:62-65 | the strings that encode are exactly the byte strings that encode some sequence of Unicode scalar values |
| Proto.RoundTrip | internal/beyonder/messages.go:23-41 | whatever record a schema admits, Unmarshal gives back every field of what Marshal wrote |
| WireFields.AnyFields | internal/beyonder/messages.go:119-170 | any legal fields but groups, in any order, repeated or unknown: refused exactly if a string of the schema is not UTF-8; otherwise each field has the last value written under its number with its wire type, a repeated one all of them, one never written its default |
| WireFields.RecordOnWire | internal/beyonder/messages.go:23-41 | what Marshal writes, as a list of fields: number order, defaults left out |
| Messages.BaseDecodes | internal/beyonder/messages.go:119-151 | Decode of a wrapped payload sees exactly that service id and payload |
| Arriving.HandshakeArrives | internal/beyonder/messages.go:127-129 | service 1: the five handshake fields by number, refused exactly if the name is not UTF-8 |
| Arriving.AuthLevelArrives | internal/beyonder/messages.go:153-162 | service 10, command 1000: level, device name and capability are fields 1, 2 and 3 of the object |
| Arriving.PairingResultArrives | internal/beyonder/messages.go:163-165 | service 10, command 2101: result type, text, private key and certificate are fields 1 to 4 of the object |
| Arriving.OtherAuthArrives | internal/beyonder/messages.go:153-170 | service 10, any other command: a PIN challenge exactly if the command is 1103; the object is kept unread |
| Arriving.LauncherArrives | internal/beyonder/messages.go:132-137 | service 1009: command 3 carries a launch response with the result in field 1; any other command keeps its object unread |
| Arriving.HostInfoArrives | internal/beyonder/messages.go:138-145 | service 11: command 2101 with an object carries host information, fields 1 to 5; otherwise the envelope alone is kept |
| Arriving.OtherServiceArrives | internal/beyonder/messages.go:119-151 | any other service: the base message alone, whatever its payload |
| Arriving.HelloOnWire | internal/beyonder/messages.go:44-54 | the bytes of a hello: service 1 and a payload with command 1, the name, device os 1 and capability 81915 in fields 1, 2, 3 and 5 |
| Arriving.PairingOnWire | internal/beyonder/messages.go:57-65 | the bytes of a PIN request and of a PIN code: service 10, commands 1101 and 1105, the code in field 1 and the device id in field 2 of the object |
| Arriving.SpecialInputOnWire | internal/beyonder/messages.go:68-75 | the bytes of a special input: service 1001, request 20, accessory 5, input type 30 and the value in field 8 |
| Arriving.LaunchOnWire | internal/beyonder/messages.go:78-86 | the bytes of a launch: service 1009, command 2, the package name in field 1 of the object |
| Arriving.ProbeOnWire | internal/beyonder/messages.go:89-91 | the bytes of a probe: the time stamp in field 5 |
| Messages.HelloDecodes | internal/beyonder/messages.go:44-54 | Decode of an encoded hello recovers all handshake fields and no others |
| Messages.PinRequestDecodes | internal/beyonder/messages.go:57-59 | a PIN request always encodes and decodes to that command without an object |
| Messages.PinCodeDecodes | internal/beyonder/messages.go:62-65 | both strings come back through three levels of nesting |
| Messages.SpecialInputDecodes | internal/beyonder/messages.go:68-75 | every special input encodes, and its payload holds exactly the fields set, the input value included |
| Messages.LaunchDecodes | internal/beyonder/messages.go:78-86 | the package name comes back through three levels of nesting |
| Messages.RTTProbeDecodes | internal/beyonder/messages.go:89-116 | a probe comes back with its time stamp, and counts as RTT exactly if that is not zero |
| Messages.HelloEncodes | internal/beyonder/messages.go:44-54 | encoding a hello succeeds exactly for non-empty names in valid UTF-8 |
| Messages.PinCodeEncodes | internal/beyonder/messages.go:62-65 | encoding a PIN code succeeds exactly for valid UTF-8 strings |
| Messages.SpecialInputEncodes | internal/beyonder/messages.go:68-75 | encoding a special input never fails |
| Messages.LaunchEncodes | internal/beyonder/messages.go:78-86 | encoding a launch succeeds exactly for valid UTF-8 package names |
| Messages.EncodersNeverAnnounce | internal/beyonder/messages.go:44-91 | no encoder's frame starts with 0x20, the first byte of an announcement |
| Messages.GoldenSleepNow | internal/beyonder/messages_test.go:23-31 | the model encodes the SLEEP_NOW input to the bytes the tests expect |
| Messages.GoldenPinRequest | internal/beyonder/messages_test.go:57-61 | the model encodes the PIN request to the bytes the tests expect |
| Framing.AnnouncementForm | internal/beyonder/messages.go:218-225 | the announcement of a length below 2^31 is 0x20 and the length as a varint |
| Framing.FramesExact | internal/beyonder/messages.go:218-225 | a message of up to 2048 bytes is written alone, a longer one behind 0x20 and its length as a varint |
| Framing.FeedStep | internal/beyonder/messages.go:238-276 | one turn of the loop: what each of its four branches returns, keeps and leaves |
| Framing.Reassembler.Feed | internal/beyonder/messages.go:238-276 | the loop returns the messages, error and state of cutting the chunk into announcements and frames and decoding the frames in order; `want` and `buf` stay consistent even after errors |
| Framing.Reassembler.Reset | internal/beyonder/messages.go:279 | the parser is idle again |
| Reassembly.Conservation | internal/beyonder/messages.go:229-276 | buffered bytes and the chunk are exactly the announcements and frames recognised followed by the new buffer |
| Reassembly.ConservationAll | internal/beyonder/messages.go:229-276 | the same for any sequence of chunks |
| Reassembly.AnnouncedSizes | internal/beyonder/messages.go:238-276 | every announcement recognised is one, and the frame after it has the announced size |
| Reassembly.SplitInvariance | internal/beyonder/messages.go:238-276 | two chunks or their concatenation give the same messages, errors and state at a seamless boundary |
| Reassembly.InsideFrameIsSeamless | internal/beyonder/messages.go:241-257 | every boundary inside a framed message is seamless |
| Reassembly.SeamExact | internal/beyonder/messages.go:238-276 | after a call without error, a boundary makes no difference for any continuation if and only if it is seamless |
| Reassembly.UnfinishedAnnouncementFails | internal/beyonder/messages.go:258-271 | a chunk that is an unfinished announcement fails to decode |
| Reassembly.AnnouncementExact | internal/beyonder/messages.go:218-266 | an announcement is taken for its length if and only if that is below 2^30 |
| Reassembly.MistakenExactly | internal/beyonder/messages.go:258-266 | an encoded base message is taken for an announcement if and only if size is its first set field and in range |
| Reassembly.UnframedExact | internal/beyonder/messages.go:258-272 | a short message alone in its chunk is one frame if and only if it does not read as an announcement |
| Reassembly.ReassemblyUndoesFraming | internal/beyonder/messages.go:218-276 | messages written with Frames and cut into any chunks that respect the framing come back in order, once each; the parser ends idle or with exactly the unfinished message |
| Reassembly.SeparateWritesComeBack | internal/beyonder/messages.go:218-276 | in particular when unframed messages and announcements arrive as their own chunks and bodies are split in any way |
| Writers.StepInv | internal/beyonder/client.go:135-152 | every step of every sender keeps mutual exclusion and contiguity |
| Writers.SendsAreContiguous | internal/beyonder/client.go:135-152 | for every interleaving, with any write failing at any byte, the wire carries whole messages in mutex order, then at most a beginning of one more |
| Writers.EverySendCanFinish | internal/beyonder/client.go:135-152 | from every reachable state of a connection that has not failed there are steps after which every waiting send is on the wire, whole and in mutex order, and nobody holds the mutex |
| ConcurrentSends.ConcurrentSendsReassemble | internal/beyonder/client.go:135-152 | a peer feeding what concurrent sends wrote gets exactly the messages sent, once each, in mutex order; a send cut off in a body or behind its announcement contributes nothing |
| ConcurrentSends.CompletedComeFirst | internal/beyonder/client.go:135-152 | wherever a send broke off, the completed messages come first, once each and in order |
| ConcurrentSends.BrokenSendExact | internal/beyonder/client.go:145-150 | what a broken send left, arriving as one chunk, adds nothing to the completed messages if and only if its message was announced or the piece does not decode |
| ConcurrentSends.BreakCanDeliver | internal/beyonder/client.go:145-150 | some break of a send can deliver something if and only if the message is unframed and some proper beginning of it decodes |
| ConcurrentSends.BrokenSpecialInput | internal/beyonder/messages.go:68-75 | every special input is such a message: its first three bytes decode as a virtual-input message without payload |
| ConcurrentSends.SeparateSendsReassemble | internal/beyonder/client.go:135-152 | for every interleaving of completed sends, separate unframed writes and arbitrarily split bodies: exactly the messages, in mutex order |
| Delivery.StepInv | internal/beyonder/client.go:77-116 | every step of reader, consumer, keepalive and Close keeps the delivery invariant |
| Delivery.DeliveryIsComplete | internal/beyonder/client.go:77-116 | consumed and queued are an in-order beginning of the non-RTT messages, at most 64 are queued, and a queue closed without Close delivered everything with its cause recorded |
| Delivery.FirstErrorStays | internal/beyonder/client.go:110-116 | the first recorded error is never replaced |
| Delivery.CauseExact | internal/beyonder/client.go:77-116 | without Close, the cause a closed queue carries is the error of the first frame that did not decode, else that a read failed, or the keepalive's error if there was one |
| Delivery.ReaderWaitsExactly | internal/beyonder/client.go:77-108 | the reader waits for somebody else exactly with a message to hand over, 64 queued and Close not called |
| Delivery.ReaderRunsOut | internal/beyonder/client.go:77-108 | once the connection is closed every step of the reader brings it closer to its end, and no other step sets it back |
| Delivery.ReaderNeverStuck | internal/beyonder/client.go:77-108 | after Close the reader always has a step, even on a full queue nobody reads |
| Delivery.ReaderEnds | internal/beyonder/client.go:77-108 | once the connection is closed, steps of the reader alone end it and close the queue |
| Delivery.CloseEndsReader | internal/beyonder/client.go:154-162 | from every state in which Close was called, the rest of Close and steps of the reader alone end it and close the queue |
| Delivery.EndToEnd | internal/beyonder/client.go:77-108 | from a peer's framed messages to the consumer: exactly the non-RTT ones, in order |
| Keepalive.KeepaliveTiming | internal/beyonder/client.go:167-198 | probes are 6 s apart, and the time since RTT activity is below 5 s after a tick and below 8 s always, for every pattern of replies |
| Keepalive.ProbeRate | internal/beyonder/client.go:167-198 | any window of T has at most T/6000 + 1 probes |
| Keepalive.ProbeExact | internal/beyonder/client.go:167-198 | a tick, every 3 s, sends a probe exactly if neither Hello nor a reply nor a probe was within the last 5 s, so a reply puts the next probe off |
| Session.Client.Send | internal/beyonder/client.go:135-152 | refused before writing when the context is done, otherwise written |
| Session.Client.Wait | internal/beyonder/session.go:32-49 | the loop consumes messages in order up to the first accepted one, or reports why waiting ended |
| Session.Client.Hello | internal/beyonder/session.go:54-79 | the level, capabilities and name are those of the reply, and change only then |
| Session.Client.Pair | internal/beyonder/session.go:83-117 | the sequence of effects up to credential parsing, with every error exit |
| Session.Client.SendSpecialInput | internal/beyonder/session.go:120-132 | below the input level nothing is written; at it the call is the one that `SpecialInputExact` characterises |
| Session.Client.LaunchApp | internal/beyonder/session.go:135-161 | nothing is written below the input level; the result follows the reply |
| SessionResults.WaitLaw | internal/beyonder/session.go:32-49 | only consumed messages are added, and the one returned is the first acceptable one |
| WaitingEnds.NoCauseOnlyAfterClose | internal/beyonder/session.go:37-43 | a closed queue without a cause means Close was called; otherwise there is a cause and every decoded message was received |
| SessionResults.HelloLaw | internal/beyonder/session.go:54-79 | a Hello that succeeds leaves exactly the values of the first authorization level received and starts the keepalive exactly if RTT is supported; one that fails changes nothing |
| SessionResults.WaitExact | internal/beyonder/session.go:32-49 | a wait finds a message exactly if one it waits for arrives before the waiting ends; it is the first, and exactly those up to it have been received |
| SessionResults.WaitOver | internal/beyonder/session.go:32-49 | it reports a reason exactly if that comes before any message waited for |
| SessionResults.HelloExact | internal/beyonder/session.go:54-79 | a Hello succeeds exactly if its frame encodes and goes out and an authorization level arrives; then the whole new state and everything it did are given, the keepalive exactly with capability bit 10 |
| SessionResults.HelloFails | internal/beyonder/session.go:54-79 | each error of Hello, exactly when it is returned |
| SessionResults.SpecialInputExact | internal/beyonder/session.go:120-132 | at level 1000 the encoded input is written unless the context is done, and success is reported exactly if it goes out whole; below it nothing happens |
| SessionResults.LaunchLaw | internal/beyonder/session.go:135-161 | refused exactly below the input level, without touching the connection; otherwise success, missing app or failure exactly as the first launch result says |
| SessionResults.LaunchExact | internal/beyonder/session.go:135-161 | a launch is answered exactly if its frame goes out and a launch result arrives: 0 success, 1 not installed, anything else a failure, with the whole new state |
| SessionResults.LaunchFails | internal/beyonder/session.go:135-161 | each other error of LaunchApp, exactly when it is returned |
| SessionResults.PairLaw | internal/beyonder/session.go:83-117 | the credentials handed on are those whose parsing is the last event; a failed pairing parses none |
| SessionResults.PairAnswered | internal/beyonder/session.go:83-117 | after the request, a challenge, the code and a result: success with that result's certificate and key exactly for type 1 and both present, refused or incomplete otherwise, with the whole new state |
| SessionResults.PairExact | internal/beyonder/session.go:83-117 | it gets that far exactly if the request goes out, a challenge arrives, the PIN encodes, the code goes out and a result arrives |
| SessionResults.PairUnchallenged | internal/beyonder/session.go:83-94 | the errors before the challenge, exactly when they are returned |
| SessionResults.PairChallenged | internal/beyonder/session.go:94-109 | the errors after the challenge, exactly when they are returned |
| SessionSafety.RunsAreSafe | internal/beyonder/session.go:54-161 | in every run, input frames follow a Hello that granted the level, PIN codes a challenge to their own request, and credential parsing a successful result to a PIN code |
| SessionSafety.PairSafe | internal/beyonder/session.go:83-117 | pairing keeps a run safe and leaves the level alone |
| SessionSafety.PairNeverAuthorizes | internal/beyonder/session.go:83-161 | without a Hello no run of other calls ever writes an input frame |
| VarintStream.ReadBack | internal/atvremote/remote.go:115-156 | a reader gets the messages in order up to the first over its limit, then what follows them |
| VarintStream.StreamLaw | internal/atvremote/remote.go:115-156 | a reader gets exactly the messages and a clean end if and only if none is over the limit |
| VarintStream.PairingStreamLaw | internal/atvremote/pairing.go:260-297 | the same law for the pairing stream at 1 MiB |
| VarintStream.CutMessage | internal/atvremote/remote.go:115-137 | a cut message yields nothing, and its loss goes unnoticed exactly at two positions |
| VarintStream.Reader.Read | internal/atvremote/remote.go:115-137 | one message is taken off the stream, or the error says why not; in each case which bytes are left |
| VarintStream.RemoteWritesReadBack | internal/atvremote/remote.go:115-156 | after any interleaving of completed writes the peer reads exactly them, in mutex order, if and only if none is over 4 MiB |
| VarintStream.ConcurrentWritesReadBack | internal/atvremote/remote.go:139-156 | for every interleaving of writers a reader gets the written payloads in mutex order |
| RemoteClient.Client.SetErr | internal/atvremote/remote.go:233-242 | only the first error is kept |
| RemoteClient.Client.MarkReady | internal/atvremote/remote.go:250-254 | the latch closes at most once |
| RemoteClient.Client.MarkStarted | internal/atvremote/remote.go:256-260 | the latch closes at most once |
| RemoteClient.Client.HandleIncoming | internal/atvremote/remote.go:158-210 | the new state, reply and error are those `HandlingExact` gives for the fields of the message |
| RemoteClient.HandlingExact | internal/atvremote/remote.go:158-210 | by the fields of the message, the first one present deciding: a configure sets the features, an answered SetActive makes ready, a ping is echoed, a RemoteStart sets the power and closes both latches, and which error is returned |
| RemoteClient.Client.Run | internal/atvremote/remote.go:90-104 | handles messages up to the first failure and records why unless the stream ended cleanly; the object is then in the state that all it handled prescribes |
| RemoteClient.ApplyReflects | internal/atvremote/remote.go:158-210 | handling one message keeps the state equal to what the whole history prescribes |
| RemoteClient.LatchesAndPower | internal/atvremote/remote.go:158-260 | each latch closes at most once, started implies ready, and ready, power state and features hold exactly if the right message was handled |
| RemoteClient.StateExact | internal/atvremote/remote.go:90-260 | by the fields of the messages the loop came to: the power is that of the last RemoteStart, the features those of the last configure, each latch closed once or not at all, and the replies those due, in order |
| RemoteClient.HandledExact | internal/atvremote/remote.go:90-104 | the i-th message handled is that of the i-th turn, for exactly the turns the loop reaches that hold one |
| RemoteClient.RunErrorExact | internal/atvremote/remote.go:90-104 | an error is recorded if and only if the loop comes to garbage, an unclean end, a reply that cannot be written or a device error, and it is that turn's |
| RemoteClient.RunStopsAtFirstError | internal/atvremote/remote.go:90-104 | every message before the last one handled was handled without error, and the last one too if none is recorded |
| RemoteSession.DialExact | internal/atvremote/session.go:53-66 | in terms of the turns read and the fields of their messages: a session comes back if and only if one taken in time made the client ready and none by the end of the grace period failed; a failure gives that turn's error; the session has the power of the last RemoteStart and the features of the last configure |
| RemoteSession.Dial | internal/atvremote/session.go:53-66 | the dialing on the client object: its loop runs until readiness is no longer waited for and to the end of the grace period, and the result is the one characterised above |
| RemoteSession.CutUnrecordedExactly | internal/atvremote/remote.go:90-137 | after a cut message the loop has handled just the messages before it, and records no error exactly at two cut positions |
| RemoteSession.CleanCloseStillDials | internal/atvremote/session.go:53-66 | a clean close after readiness still yields a session |
| AndroidSender.Sender.CloseSession | adapters/out/androidtv/androidtv.go:238-244 | the cached session is closed and forgotten, the configuration cleared |
| AndroidSender.Sender.EnsureSession | adapters/out/androidtv/androidtv.go:212-236 | the cached session for the same configuration, otherwise closed and redialed |
| AndroidSender.Sender.SendAction | adapters/out/androidtv/androidtv.go:164-193 | the steps of the plan go out up to the first failure; the result is that of the last step |
| AndroidSender.Sender.Send | adapters/out/androidtv/androidtv.go:139-162 | one attempt and, with a live context, one reconnect and replay, as `CallExact` and `StepsExact` characterise them; a success tells the last step sent and its session |
| AndroidSender.Sender.Launch | adapters/out/androidtv/androidtv.go:80-103 | the same for an app link, as `LaunchSends` characterises it |
| AndroidSender.Sender.Warmup | adapters/out/androidtv/androidtv.go:73-78 | only makes sure of a session |
| AndroidSender.EnsureInv | adapters/out/androidtv/androidtv.go:212-236 | the cache stays sound and the session returned was dialed with this configuration |
| AndroidSender.CallLaw | adapters/out/androidtv/androidtv.go:80-162 | at most two dials and attempts, no retry once the context is done, every step on a session dialed for this call, and the replay shape |
| AndroidSender.TransmitExact | adapters/out/androidtv/androidtv.go:164-193 | a plan succeeds exactly if the outcome of every step is that it went out; which steps go out otherwise |
| AndroidSender.CallExact | adapters/out/androidtv/androidtv.go:80-162 | a call succeeds exactly if there is a session and every step goes out on it or, with a live context, the second dial works and every step of the recomputed plan goes out; exactly how often it dials and tries |
| AndroidSender.StepsExact | adapters/out/androidtv/androidtv.go:80-162 | exactly the steps it puts on the wire: what goes out of the plan, then, if it retries and the second dial works, what goes out of the recomputed plan on the new session |
| AndroidSender.WarmupExact | adapters/out/androidtv/androidtv.go:73-78 | a warmup succeeds exactly if the session is cached for the configuration or can be dialed, and sends nothing |
| AndroidSender.PlanShape | adapters/out/androidtv/androidtv.go:195-210 | exactly one key, except wake-up link and Home for Home or Power on a device known to be off |
| AndroidSender.SuccessfulCall | adapters/out/androidtv/androidtv.go:80-162 | a successful call sent a whole plan, that of the session it leaves cached, last of all and once, and nothing else if the first attempt succeeded |
| AndroidSender.SuccessfulSend | adapters/out/androidtv/androidtv.go:139-210 | those steps are exactly the key, or the wake-up link and Home, that the action takes in that session's power state |
| AndroidSender.SendExact | adapters/out/androidtv/androidtv.go:139-210 | a Send succeeds exactly if the remote has the action, there is a session, and all its steps in that session's power state go out, at the first or the second attempt |
| AndroidSender.LaunchSends | adapters/out/androidtv/androidtv.go:80-103 | a Launch succeeds exactly if its link goes out at the first or the second attempt, and then sent just that link on the session it leaves cached |
| AndroidSender.CacheIsSound | adapters/out/androidtv/androidtv.go:212-244 | over any calls: dialed minus closed is 0 or 1 as a session is cached, and it was dialed with the stored configuration |
| AndroidSender.UnsupportedReconnects | adapters/out/androidtv/androidtv.go:139-162 | an unsupported action never succeeds, and costs the cached session if and only if the context is not done |
| AndroidSender.SessionLostExactly | adapters/out/androidtv/androidtv.go:80-162 | any call costs the cached session if and only if it is for another configuration, or its first attempt fails with a live context |
| AndroidSender.SessionLeftExactly | adapters/out/androidtv/androidtv.go:80-162 | which session is cached after a call, and exactly when none is |
| NvEncoder.EncodeVarintLoop | cmd/nvprobe/main.go:721-735 | the shifting loop produces the varint of the value, 0 for negative ones |
| NvEncoder.FieldVarintExact | cmd/nvprobe/main.go:737-742 | a varint field parses back to its tag and value if and only if the tag is below 2^60 |
| NvEncoder.WrappedTagsCollide | cmd/nvprobe/main.go:737-742 | two different tags beyond that limit have the same bytes |
| NvEncoder.ParseBlob | cmd/nvprobe/main.go:744-750 | a length-delimited field is read back and reading goes on behind it |
| NvEncoder.MessageParses | cmd/nvprobe/main.go:574-588 | a message parses to exactly its service, command and payload fields |
| NvEncoder.PayloadParses | cmd/nvprobe/main.go:574-588 | the payload is the one supplied, or parses to exactly its input and special fields |
| NvEncoder.UnframeExact | cmd/nvprobe/main.go:590-603 | a frame can be taken off again if and only if the length fits its prefix |
| NvEncoder.FrameExact | cmd/nvprobe/main.go:590-603 | the bytes of each frame: a varint of the length, its low 32 bits most or least significant byte first, or nothing, and then the message |
| NvEncoder.DistinctOnTheWire | cmd/nvprobe/main.go:574-603 | special attempts with the same bytes and frame style are equal |
| Text.TrimSpace | cmd/nvprobe/main.go:435 | only white space at the ends is cut off, and none is left there |
| Text.TrimPadded | cmd/nvprobe/main.go:435 | white space put around a text is exactly what is taken off |
| Text.Split | cmd/nvprobe/main.go:431 | the parts hold no separator and joined with it give the input |
| Text.SplitJoined | cmd/nvprobe/main.go:431 | splitting undoes joining parts that hold no separator |
| Text.AtoiExact | cmd/nvprobe/main.go:464 | a value is read exactly from its numerals, an optional sign and digits, if it fits in 64 bits |
| Text.AtoiShow | cmd/nvprobe/main.go:444-464 | every number written in decimal, bare or signed, is read back, and rejected exactly outside the 64-bit range |
| IntList.ParseIntList | cmd/nvprobe/main.go:430-479 | strictly increasing, non-negative, exactly the union of items and ranges; fails exactly if a part is malformed or all are blank |
| IntList.WrittenItem | cmd/nvprobe/main.go:434-472 | a blank part, a number, or two numbers with a dash, with any white space around them, are read as just that; numbers beyond 64 bits and descending ranges are malformed |
| IntList.WrittenList | cmd/nvprobe/main.go:430-472 | a comma-separated list of such items is taken apart into exactly them, malformed exactly if one is, covering exactly what they cover |
| IntList.AddPart | cmd/nvprobe/main.go:434-472 | one part adds exactly what it covers, each value once, or is malformed |
| IntList.RangeLoopEnds | cmd/nvprobe/main.go:455-461 | the loop over a range ends if and only if its end is not the largest integer |
| IntList.RangeStringEnds | cmd/nvprobe/main.go:439-462 | on the string of a range: the loop it starts ends if and only if the range stops short of the largest integer |
| IntList.EndsExactly | cmd/nvprobe/main.go:439-462 | the condition ParseIntList asks for is exactly that every range loop reached ends |
| NvAttempts.BuildSpecialAttempts | cmd/nvprobe/main.go:528-572 | the ten loops append what the nesting of the axes prescribes, in order |
| NvAttempts.LoopsMembers | cmd/nvprobe/main.go:528-572 | nested loops yield exactly the attempts whose values are configured and not skipped |
| NvAttempts.LoopsNoDup | cmd/nvprobe/main.go:528-572 | lists without repetitions give attempts without repetitions |
| NvAttempts.SpecialExactlyOnce | cmd/nvprobe/main.go:528-572 | each tuple with service != command, payload not in {service, command} and input != special exactly once, and nothing else |
| NvAttempts.SpecialInOrder | cmd/nvprobe/main.go:528-572 | attempts are made in the order of the nesting: frame styles first, special inputs last, each in the order configured |
| NvAttempts.SpecialCount | cmd/nvprobe/main.go:528-572 | the number of attempts is the matching product of counts |
| DevInfoMessage.BuildHelloDevInfo | cmd/nvprobe/hello.go:290-339 | fails exactly if a listed field has no tag or is an empty name, package, android id or host; whatever sort is used, the message is the canonical one when tags differ |
| Lists.SortIsUnique | cmd/nvprobe/hello.go:330-332 | with distinct tags an unstable sort has only one result |
| DevInfoMessage.OrderIndependent | cmd/nvprobe/hello.go:290-339 | the message does not depend on the order of the fields |
| DevInfoMessage.DevInfoReadsBack | cmd/nvprobe/hello.go:290-339 | it parses to strictly ascending tags, one entry a field: name, package, android id and host as text and device os and port as numbers, each under its tag in the layout and with the value supplied for it |
| DevInfoMessage.KnownLayoutsInjective | cmd/nvprobe/hello.go:47-81 | the known layouts give every field a tag of its own |
| HelloCandidates.ResolveHelloLayouts | cmd/nvprobe/hello.go:249-271 | the loop fails for an unknown name or an empty selection, otherwise resolves the names |
| HelloCandidates.ResolvedExact | cmd/nvprobe/hello.go:249-271 | fails exactly if a name is unknown; otherwise exactly the named layouts, each once |
| HelloCandidates.Builder.AddCandidate | cmd/nvprobe/hello.go:159-167 | the kept candidates stay the deduplication of everything generated |
| HelloCandidates.BuildHelloPayloadCandidates | cmd/nvprobe/hello.go:147-247 | the loops return the deduplication of the generated combinations |
| HelloCandidates.DedupLaw | cmd/nvprobe/hello.go:157-167 | payloads are pairwise distinct, none is lost, and the first of each is kept in order |
| HelloCandidates.GeneratedMembers | cmd/nvprobe/hello.go:169-244 | what is generated is exactly the four kinds of combinations of the configuration |
| HelloCandidates.CandidateSet | cmd/nvprobe/hello.go:147-247 | the candidates are distinct, as a set exactly the described combinations, in first-generation order with the first description |
| HelloCandidates.InfoReadsBack | cmd/nvprobe/hello.go:169-244 | the devInfo of a combination reads back with the configured name, package, android id, host, device os and port under the layout's tags |
| HelloCandidates.CandidatesExact | cmd/nvprobe/hello.go:147-247 | the candidates read as exactly the capabilities, empty devInfos, devInfos and devInfos with another capability that the configuration asks for, all of them |
| HelloAttempts.CanonicalHelloParses | cmd/nvprobe/hello.go:139-145 | the canonical hello parses to service 1, command 0 and the payload |
| HelloAttempts.BuildHelloAttempts | cmd/nvprobe/hello.go:83-119 | the seven loops append every allowed tuple with every payload, in order |
| HelloAttempts.HelloExactlyOnce | cmd/nvprobe/hello.go:83-119 | each allowed tuple with each payload exactly once, and nothing else |
| HelloAttempts.AttachHelloPreambles | cmd/nvprobe/hello.go:121-137 | every attempt with every payload, or the attempts unchanged when there is nothing to combine |
| HelloAttempts.ExpandAt | cmd/nvprobe/hello.go:127-135 | the combination of attempt i and payload j stands at index i times the number of payloads plus j |
| HelloAttempts.PreamblesMultiply | cmd/nvprobe/hello.go:121-137 | preambles multiply the number of attempts and create no repetition |
| HelloAttempts.BuildEmptyAttempts | cmd/nvprobe/main.go:503-526 | the five loops append what the nesting of the axes prescribes |
| HelloAttempts.BuildAttempts | cmd/nvprobe/main.go:485-501 | the attempts of the mode, with preambles if asked for |
| HelloAttempts.BuiltExact | cmd/nvprobe/main.go:485-526 | field by field what is built in each mode: the configured tuples, each bare or, if preambles are asked for, behind a canonical hello with every candidate payload |
| HelloAttempts.NothingBuiltTwice | cmd/nvprobe/main.go:485-501 | in every mode no attempt is built twice, and preambles multiply the count |
| TlsRecords.ParseTlsRecords | research/tools/analyze_shield_pcap.py:133-149 | the indexing loop computes the summary of the payload |
| TlsRecords.RecordsReported | research/tools/analyze_shield_pcap.py:133-149 | whole records are reported with their lengths in order, then a started record as partial, nothing else |
| TlsRecords.EveryPayloadSplits | research/tools/analyze_shield_pcap.py:133-149 | every payload is whole records and a rest, so that law covers all |
| FlowTable.Analyser.Add | research/tools/analyze_shield_pcap.py:170-200 | one packet updates one flow in place and appends one event; others are skipped |
| FlowTable.Analyser.Run | research/tools/analyze_shield_pcap.py:170-200 | the loop builds the table of the packets with a payload |
| FlowTable.CountedAggregates | research/tools/analyze_shield_pcap.py:178-200 | one more packet keeps the table the aggregate of all packets so far |
| FlowTable.TableIsAggregate | research/tools/analyze_shield_pcap.py:158-200 | one flow for every 4-tuple that was first between its ends, each with the counts, bytes, records, minimal and maximal time and first direction of exactly its packets |
| FlowTable.OneFlowPerPacket | research/tools/analyze_shield_pcap.py:178-187 | no two distinct keys are reverses of each other, and every packet belongs to exactly one flow |
| FlowTable.OrdinaryFlow | research/tools/analyze_shield_pcap.py:178-191 | between different ends a flow counts the packets and bytes of its key as client to server and those of the reverse as server to client |
| FlowTable.SelfFlow | research/tools/analyze_shield_pcap.py:178-191 | where both ends coincide exactly the first packet counts as client to server and all others as server to client |
| FlowTable.Conservation | research/tools/analyze_shield_pcap.py:158-200 | packets, bytes and TLS records summed over the flows equal those of the events |

## Assumptions

* A connection is a byte stream. A failing write may deliver any beginning of its bytes; after a failed write a
  connection delivers nothing more.
* The framing laws speak of chunks that respect the framing. That an unframed message and an announcement each
  arrive in one read is what the repository asks of the connection; TLS may spread a write over two records.
* Atomic steps are the points at which goroutines can interfere: channel operations, mutex operations, reads
  and writes. Timeouts and contexts are outcomes the environment chooses.
* Keepalive time is discrete, ticks are exact and sends take no time; there is one keepalive.
* protobuf libraries follow the Protocol Buffers encoding: fields in number order, defaults omitted, last value
  wins, unknown fields and groups skipped. The schemas list the fields the code reads or writes.
* `detectLocalIP` is a parameter: the host of the hello configuration is the trimmed flag or, if that is
  empty, the detected address.
* Payload descriptions are kept as the numbers and names that the text is formatted from, and the `seen` map is
  keyed by the payload itself instead of its hexadecimal form.
* Time stamps of captured packets are reals.

## Left out

* TLS, certificates, PEM and X.509, the pairing secret and credential files: cryptography and I/O.
* Generated protobuf code, retained unknown fields, and the wire form of the Android TV `RemoteMessage`: the remote client starts from the decoded message.
* The virtual-input field for text values, which the encoders never set; received, it is skipped as unknown.
* Message.String, logs, the command line and the GTK interface: presentation only.
* Discovery, address detection, power polling, XDG storage, target resolution and the action alias table: plumbing or small case splits.
* normalizeAppLaunchTarget and the post-delays of the send methods: they only change a link's spelling or end in one of the modelled step outcomes.
* parseFrameStyles and parseStringList: string deduplication without the range logic of parseIntList.
* Packet parsing below TCP in the analyser and its printed report: header arithmetic and presentation.
- WireFields.AnyFields: fields of the deprecated group wire types are not among those a peer may write here; `Proto` skips them as the library does.
- Session.Client.Send: one event stands for the whole frame; how it is split into writes and the mutex around them are the subject of `Writers` and `ConcurrentSends`.
- Session.Client.Wait: which of a done context and a ready message wins is decided by the script of arrivals.
- ConcurrentSends.ConcurrentSendsReassemble: chunks that cut an announcement or join unframed messages are outside the framing and are excluded by its precondition, and so is a send that broke off there; `CompletedComeFirst` covers every break.
- NvAttempts.BuildSpecialAttempts: the ten nested loops are spread over four methods, two or three levels each, called in the innermost position of the one before.
