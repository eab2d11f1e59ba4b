# A formal model of the Loco2MQTT turnout bridge

Loco2MQTT bridges a model railway's LocoNet bus, reached over JMRI's line-based TCP server, to MQTT. This
project models its turnout path in Dafny, from the bytes on the socket to the messages MQTT subscribers
keep, and proves what holds over every run. It also covers three algorithms of the vendored Catch2.

**The bridge as a protocol.** An ack of a state request (OPC_LONG_ACK) carries no address; the firmware
takes it to answer the oldest address it expects. All 48 expectations are queued at once, while the requests
leave over about a second from a list shared with unrelated OFF pulses. `Bridge` is the state machine of the
main loop's calls over an ascending clock, with histories of what was scheduled, sent, expected, claimed and
published. `SendOrder`, `Attribution` and `Publication` prove the theorems over all its runs. `Components`
holds the classes, updated in place as in the firmware and proved against the machine's step functions;
`MainLoop` wires them, from the bytes of the socket on, and proves that any number of ticks of `Loop` is a run of
the machine, so the theorems hold of the objects; with `Station` it carries the attribution theorem over to them.

**The wire.** `Bits` (bitwise operations), `LocoNet` (checksum and frames, after the LocoNet Personal Use Edition 1.0: message format and
the opcodes OPC_SW_REQ, OPC_SW_REP, OPC_LONG_ACK, OPC_SW_STATE), `Codec` (hex lines), `LineFraming` (the
bounded line buffer), `Mqtt` (topics, payloads and set commands).

**Timers.** `TableQuery`, `Timers` and `Button` characterise the debounce and interval machines over whole
traces, both on the 32-bit counter and on an unbounded clock. Stored times are written as true milliseconds
and every subtraction the firmware makes is taken modulo 2^32 (`Time` shows this loses nothing).

**Catch2.** `SectionTracker` (the cycle loop that runs each leaf section once), `IsPermutation`,
`WideMultiply`.

## Assumptions

- Clock readings never decrease. Absolute due times in the scheduler do not wrap (`WrappedScanAgreesIffSameEpoch`
  says exactly what a wrap would change).
- For `AttributionIsCorrect` only: no line is lost, the station answers each request once and in order, and no
  line carries a foreign switch-state ack. `StaleEntriesShiftEveryAnswer`, `AnswersCanBeMisread` and
  `ForeignAckSpoilsEveryAnswer` say what happens otherwise.
- The retained store is that of a broker that honours the retained flag. PicoMQTT's does not, which is what the
  periodic republish is for (`LateSubscriberCatchesUp`).
- `isConnected()` may answer differently at every call; time may pass between any two clock readings.

## Code against its documentation

- `TurnoutStateRequestEncoder.h` and its .cpp say the station answers OPC_SW_STATE with OPC_SW_REP; the decoder
  and the start-up query expect OPC_LONG_ACK. The model follows the code.
- `JmriConnectionStatusPublisher.h` promises a publication on every actual change. The code reads the connection
  a second time for the payload, so it can publish the opposite of the change it saw; the model keeps both
  readings. `ToldIffLastPublicationReadAlike` says exactly when a subscriber holds the state last compared (the
  last publication read it like its comparison), `FirstPublicationMayFlip` gives an input where it does not.

## Model

| member | source | states |
|---|---|---|
| `LocoNet.ComputeLocoNetChecksum` | lib/Loco2MqttCore/src/domain/LocoNetChecksum.h:6-14 | the loop's result is the one byte that makes all bytes XOR to 0xFF |
| `LocoNet.ValidIffXorIsAllOnes` | lib/Loco2MqttCore/src/adapters/LocoNetOverTcpCodec.cpp:38-46 | the test on the last byte holds exactly for frames of at least two bytes whose bytes XOR to 0xFF (the message-format rule of the LocoNet Personal Use Edition 1.0) |
| `LocoNet.SingleByteCorruptionIsDetected` | lib/Loco2MqttCore/src/adapters/LocoNetOverTcpCodec.cpp:35-46 | a valid frame with any one byte changed, at any position, fails the checksum test |
| `LocoNet.SwReqReadsBack` | lib/Loco2MqttCore/src/turnout/TurnoutLocoNetEncoder.cpp:12-21 | for addresses 1 to 2048 both pulses are valid OPC_SW_REQ frames, differ in the output bit, are no sensor report, request or ack, and the decoder's field readers give back exactly the command |
| `LocoNet.PulseBytes` | lib/Loco2MqttCore/src/turnout/TurnoutLocoNetEncoder.cpp:12-21 | for addresses 1 to 2048 both pulses byte by byte: 0xB0, the low seven address bits, the high four with direction and output bit, and the checksum; only the first byte has its top bit set |
| `LocoNet.StateRequestReadsBack` | lib/Loco2MqttCore/src/turnout/TurnoutStateRequestEncoder.cpp:15-22 | for addresses 1 to 2048 the request is a valid OPC_SW_STATE frame, is no pulse, and carries exactly that address |
| `LocoNet.RequestBytes` | lib/Loco2MqttCore/src/turnout/TurnoutStateRequestEncoder.cpp:15-22 | for addresses 1 to 2048 the request byte by byte: 0xBC, the low seven and high four address bits, and the checksum; only the first byte has its top bit set |
| `LocoNet.AddressFromInRange` | lib/Loco2MqttCore/src/turnout/TurnoutLocoNetDecoder.cpp:17-20 | whatever the bytes, an address read off the wire lies in 1 to 2048 |
| `LocoNet.FieldsOnTheWire` | lib/Loco2MqttCore/src/turnout/TurnoutLocoNetDecoder.cpp:17-28 | whatever the opcode, bit 5 of the third byte set reads Closed and clear reads Thrown, and the address is one more than the eleven address bits |
| `LocoNet.SetBitIsOr` | lib/Loco2MqttCore/src/turnout/TurnoutLocoNetEncoder.cpp:12-21 | setting the direction or the output bit is the bitwise or with its mask |
| `Codec.HexRoundTrip` | lib/Loco2MqttCore/src/domain/LocoNetMessage.cpp:8-13 | two printed hex digits are accepted as a byte token and read back as the byte |
| `Codec.DescribeMessage` | lib/Loco2MqttCore/src/domain/LocoNetMessage.cpp:16-24 | the printing loop produces the hex bytes separated by single blanks |
| `Codec.ParseHexBytes` | lib/Loco2MqttCore/src/adapters/LocoNetOverTcpCodec.cpp:13-33 | the extraction loop yields the bytes of all whitespace-separated tokens, or nothing when one is malformed or there is none |
| `Codec.DecodeDescribe` | lib/Loco2MqttCore/src/adapters/LocoNetOverTcpCodec.cpp:54-66 | decoding the printed line gives the frame back exactly when it has at least two bytes XORing to 0xFF, and nothing otherwise |
| `Codec.CorruptedLineIsRejected` | lib/Loco2MqttCore/src/adapters/LocoNetOverTcpCodec.cpp:35-66 | the line of a valid frame with one byte altered is rejected, not read as another frame |
| `Codec.DecodeIsStable` | lib/Loco2MqttCore/src/adapters/LocoNetOverTcpCodec.cpp:54-66 | a frame decoded from any spelling of a line is valid and its canonical line decodes to the same frame |
| `Codec.SendCarriesFrame` | lib/Loco2MqttCore/src/adapters/LocoNetOverTcpCodec.cpp:49-52 | every outgoing line starts with the SEND prefix and what follows reads back as exactly the frame |
| `Codec.SendLineInFull` | lib/Loco2MqttCore/src/adapters/LocoNetOverTcpCodec.cpp:49-52 | the pulse closing turnout 1 goes out as SEND B0 00 30 7F |
| `Codec.BodyIsReadIffSpelled` | lib/Loco2MqttCore/src/adapters/LocoNetOverTcpCodec.cpp:13-33 | whatever blanks hold the words apart, a body reads as given bytes iff its words spell them one by one as two hex digits of either case; one malformed word and nothing is read |
| `LineFraming.LineAssembler.Feed` | lib/Loco2MqttCore/src/domain/LineAssembler.cpp:8-19 | a line comes out exactly on the terminator; other bytes are appended while the buffer is below its cap |
| `LineFraming.LineAssembler.FinishLine` | lib/Loco2MqttCore/src/domain/LineAssembler.cpp:21-30 | the buffer is handed out and emptied, less one trailing carriage return under a line-feed terminator |
| `LineFraming.SocketLineStream.ReadLine` | lib/Loco2MqttCore/src/adapters/WiFiClientLineStream.cpp:10-19 | returns the first line still to come out of the received bytes and leaves the others; returns none only when there is none and all bytes are read |
| `LineFraming.AssembleIsSplitTruncateStrip` | lib/Loco2MqttCore/src/domain/LineAssembler.cpp:8-30 | for every byte stream, cap and terminator, feeding byte by byte equals: split at terminators, cut each piece to the cap, strip one carriage return |
| `LineFraming.AssembleAppend` | lib/Loco2MqttCore/src/adapters/WiFiClientLineStream.cpp:10-19 | in whatever portions the bytes arrive, the lines are those of the whole stream |
| `LineFraming.PiecesRejoin` | lib/Loco2MqttCore/src/domain/LineAssembler.cpp:8-19 | the reference split loses nothing: joining its pieces and remainder gives the stream back |
| `LineFraming.PiecesAreTerminatorFree` | lib/Loco2MqttCore/src/domain/LineAssembler.cpp:8-19 | no piece of the reference split contains a terminator, so the split is the only one |
| `LineFraming.TransmissionIsDelivered` | lib/Loco2MqttCore/src/adapters/WiFiClientLineStream.h:45-49 | for any sequence of frames and other newline-free lines, the decoded frames are exactly the valid frames of up to 83 bytes, intact and in order, valid 83-byte prefixes of longer ones, and what each other line decodes to on its own |
| `Time.ElapsedOfWrappedReadings` | lib/Loco2MqttCore/src/application/TurnoutTableStartupQuery.cpp:35 | subtracting two wrapped 32-bit readings is the true difference modulo 2^32 |
| `Components.PendingLocoNetSendScheduler.SendAfter` | lib/Loco2MqttCore/src/application/PendingLocoNetSendScheduler.cpp:8-11 | appends the message with the clock reading plus the delay |
| `Components.PendingLocoNetSendScheduler.SendNow` | lib/Loco2MqttCore/src/application/PendingLocoNetSendScheduler.cpp:3-6 | hands the message to the port at once, leaving the list alone |
| `Components.PendingLocoNetSendScheduler.Update` | lib/Loco2MqttCore/src/application/PendingLocoNetSendScheduler.cpp:13-27 | the erase-while-iterating loop is a stable partition by due time: the due messages are sent in order, the others kept in order |
| `Scheduler.ScanPartitions` | lib/Loco2MqttCore/src/application/PendingLocoNetSendScheduler.cpp:13-27 | a scan loses and duplicates nothing (multiset equality) |
| `Scheduler.ScanTakesPrefixOfKind` | lib/Loco2MqttCore/src/application/PendingLocoNetSendScheduler.cpp:13-27 | messages of one kind that wait in due order are released as a prefix, whatever else is mixed in |
| `Scheduler.PendingIsWhatNoScanReleased` | lib/Loco2MqttCore/src/application/PendingLocoNetSendScheduler.cpp:8-27 | on every run the list is exactly the accepted sends, in order, that no later scan has found due |
| `Scheduler.EachSendLeavesAtFirstDueScan` | lib/Loco2MqttCore/src/application/PendingLocoNetSendScheduler.cpp:8-27 | a scan releases precisely the accepted sends for which it is the first scan not before their due time |
| `Scheduler.WrappedScanAgreesIffSameEpoch` | lib/Loco2MqttCore/src/application/PendingLocoNetSendScheduler.cpp:19 | comparing wrapped absolute times agrees with true time if and only if due time and scan lie in the same 2^32 ms epoch |
| `TableQuery.FiresExactlyWhenFirstStable` | lib/Loco2MqttCore/src/application/TurnoutTableStartupQuery.cpp:5-36 | over every trace, the query fires at an update iff it is the first of its unbroken connected run that finds 2000 ms elapsed since the run's first connected reading |
| `TableQuery.StateIsRunHistory` | lib/Loco2MqttCore/src/application/TurnoutTableStartupQuery.cpp:19-36 | after any trace the two fields are exactly: start of the current connected run, and whether it has been found stable |
| `TableQuery.FiringsAreApart` | lib/Loco2MqttCore/src/application/TurnoutTableStartupQuery.cpp:5-36 | two firings are separated by a disconnected reading and at least 2000 true milliseconds, even on the wrapping clock |
| `TableQuery.WrapIsInvisible` | lib/Loco2MqttCore/src/application/TurnoutTableStartupQuery.cpp:25-36 | with updates less than 2^32 - 2000 ms apart the debounce steps exactly as on an unbounded clock |
| `TableQuery.BatchInFull` | lib/Loco2MqttCore/src/application/TurnoutTableStartupQuery.cpp:38-47 | a batch is turnouts 1 to 48, the i-th request due 20 i ms after its own reading |
| `TableQuery.BatchIsStaggered` | lib/Loco2MqttCore/src/application/TurnoutTableStartupQuery.cpp:38-47 | consecutive requests of a batch are due at least 20 ms apart |
| `Components.TurnoutTableStartupQuery.ResetForNextConnection` | lib/Loco2MqttCore/src/application/TurnoutTableStartupQuery.cpp:19-23 | back to the start state |
| `Components.TurnoutTableStartupQuery.ReadyToQuery` | lib/Loco2MqttCore/src/application/TurnoutTableStartupQuery.cpp:25-36 | records the first connected reading and answers whether the query fires |
| `Components.TurnoutTableStartupQuery.QueryAllTurnouts` | lib/Loco2MqttCore/src/application/TurnoutTableStartupQuery.cpp:38-47 | queues expectations 1 to 48 and schedules their requests 20 ms apart, each from its own clock reading |
| `Components.TurnoutTableStartupQuery.Update` | lib/Loco2MqttCore/src/application/TurnoutTableStartupQuery.cpp:5-17 | steps the debounce and, exactly when it fires, queues and schedules one batch |
| `Components.PendingTurnoutStateAcks.Expect` | lib/Loco2MqttCore/src/turnout/PendingTurnoutStateAcks.cpp:3-6 | appends to the queue |
| `Components.PendingTurnoutStateAcks.ClaimNext` | lib/Loco2MqttCore/src/turnout/PendingTurnoutStateAcks.cpp:8-17 | takes the oldest expectation, or nothing from an empty queue |
| `Components.TurnoutLocoNetDecoder.ShouldEmitPositionChange` | lib/Loco2MqttCore/src/turnout/TurnoutLocoNetDecoder.cpp:41-50 | true iff the table did not already hold that position; the table holds it afterwards |
| `Components.TurnoutLocoNetDecoder.DecodeSwitchMessage` | lib/Loco2MqttCore/src/turnout/TurnoutLocoNetDecoder.cpp:57-63 | sensor reports are ignored, other switch messages observe their own address |
| `Components.TurnoutLocoNetDecoder.DecodeStateAck` | lib/Loco2MqttCore/src/turnout/TurnoutLocoNetDecoder.cpp:65-79 | acks of other commands and acks with no expectation are ignored; others observe the claimed address |
| `Components.TurnoutLocoNetDecoder.Decode` | lib/Loco2MqttCore/src/turnout/TurnoutLocoNetDecoder.cpp:52-55 | event, table and queue after any decodable frame |
| `Components.TurnoutLocoNetDecoder.AllKnownStates` | lib/Loco2MqttCore/src/turnout/TurnoutLocoNetDecoder.cpp:89-97 | the loop lists the table in key order |
| `TurnoutDecoder.KnownStatesListTheTable` | lib/Loco2MqttCore/src/turnout/TurnoutLocoNetDecoder.cpp:89-97 | that list has exactly the table's entries, addresses strictly ascending |
| `TurnoutDecoder.EmissionsAreObservationsWithoutRepeats` | lib/Loco2MqttCore/src/turnout/TurnoutLocoNetDecoder.cpp:41-87 | per address, the events on any frame trace are the observations with consecutive repeats removed |
| `TurnoutDecoder.TableIsLastObservation` | lib/Loco2MqttCore/src/turnout/TurnoutLocoNetDecoder.cpp:41-50 | after any trace the table holds each address's last observed position |
| `TurnoutDecoder.SilentFrames` | lib/Loco2MqttCore/src/turnout/TurnoutLocoNetDecoder.cpp:30-79 | exactly short frames, other opcodes, sensor reports, acks other than 0x3C and unexpected acks observe nothing, and they change nothing |
| `TurnoutDecoder.ObservationIsWhatIsSaid` | lib/Loco2MqttCore/src/turnout/TurnoutLocoNetDecoder.cpp:17-79 | read off the bits alone: a 0x3C ack is observed for the oldest expected address with the position bit 5 says, any other frame for what it reports by itself |
| `TurnoutDecoder.FrameLeavesPosition` | lib/Loco2MqttCore/src/turnout/TurnoutLocoNetDecoder.cpp:41-87 | after any trace, a frame with bit 5 clear leaves its turnout Thrown in the table, and with it set Closed |
| `TurnoutDecoder.FramesInFull` | lib/Loco2MqttCore/src/turnout/TurnoutLocoNetDecoder.cpp:3-36 | a request, reports, a sensor report and acks in full, with what each observes |
| `TurnoutDecoder.HandleKeepsRange` | lib/Loco2MqttCore/src/turnout/TurnoutLocoNetDecoder.cpp:52-87 | every address in table, queue or observation stays in 1 to 2048 |
| `Publication.AddressesStayInRange` | lib/Loco2MqttCore/src/turnout/TurnoutLocoNetDecoder.cpp:52-87 | on every run every address in the table or the queue, the batch addresses included, lies in 1 to 2048 |
| `Publication.PublishedTurnoutsAreInRange` | lib/Loco2MqttCore/src/application/LocoNetMessageRouter.cpp:14-55 | on every run every topic published is the status topic or that of a turnout a command can set |
| `Components.LocoNetOverTcpPort.Receive` | lib/Loco2MqttCore/src/adapters/LocoNetOverTcpPort.cpp:3-7 | gives the first decodable line, consuming the lines before it; none only when nothing decodable is left and all lines are consumed; terminates on the lines left |
| `Components.LocoNetOverTcpPort.DecodeNextMessage` | lib/Loco2MqttCore/src/adapters/LocoNetOverTcpPort.cpp:14-24 | the other half of the mutual recursion: the given line if it decodes, else the next decodable one |
| `Components.LocoNetOverTcpPort.Send` | lib/Loco2MqttCore/src/adapters/LocoNetOverTcpPort.cpp:9-12 | writes the SEND line of the frame |
| `Components.LocoNetMessageRouter.HandleMessage` | lib/Loco2MqttCore/src/application/LocoNetMessageRouter.cpp:14-39 | logs the frame, drops short ones, updates the decoder and publishes the event if there is one |
| `Components.LocoNetMessageRouter.RepublishAllKnownStatesIfDue` | lib/Loco2MqttCore/src/application/LocoNetMessageRouter.cpp:41-55 | publishes the whole table and restamps exactly when 30 s have elapsed |
| `Components.LocoNetMessageRouter.Update` | lib/Loco2MqttCore/src/application/LocoNetMessageRouter.cpp:3-12 | drains every buffered line, logs exactly the decodable ones in order, publishes their events, then republishes if due |
| `Publication.WholeLogMirrorsTable` | lib/Loco2MqttCore/src/application/LocoNetMessageRouter.cpp:14-55 | on every run, replaying the publication log (last payload per topic) gives exactly the decoder's table, besides the status topic |
| `Publication.LateSubscriberCatchesUp` | lib/Loco2MqttCore/src/application/LocoNetMessageRouter.cpp:41-55 | replaying the log from any later position gives exactly the table from the first full republish on, for good |
| `Publication.RetainedStoreMirrorsTable` | lib/Loco2MqttCore/src/turnout/TurnoutMqttEncoder.cpp:3-9 | on every run every message published is retained, and the retained payloads are exactly the decoder's table |
| `Publication.JoiningWithStoreIsEnough` | lib/Loco2MqttCore/src/turnout/TurnoutMqttEncoder.cpp:3-9 | with a broker that honours the flag, a subscriber that joins anywhere and is handed the retained payloads holds exactly the table from then on |
| `Mqtt.RepublishMirrors` | lib/Loco2MqttCore/src/application/LocoNetMessageRouter.cpp:41-55 | one republish turns any log about known turnouts, however stale, into an exact mirror |
| `Mqtt.TopicInjective` | lib/Loco2MqttCore/src/turnout/TurnoutMqttEncoder.cpp:3-9 | different addresses have different topics, none of them the status topic |
| `Mqtt.StatesInFull` | lib/Loco2MqttCore/src/turnout/TurnoutMqttEncoder.cpp:3-9 | topic, payload and retained flag of both state messages, letter by letter |
| `Mqtt.CommandAcceptedIff` | lib/Loco2MqttCore/src/application/MqttCommandRouter.cpp:5-49 | a message is acted on as a command iff its topic has `turnout` as second segment and one to four digits of value 1 to 2048 as closed third segment, and its payload is CLOSED or THROWN |
| `Mqtt.ParseFindsSegments` | lib/Loco2MqttCore/src/application/MqttCommandRouter.cpp:5-16 | any topic prefix/device/address/rest parses to its second and third segments |
| `Mqtt.ParseGivesSegments` | lib/Loco2MqttCore/src/application/MqttCommandRouter.cpp:5-16 | only topics of that shape parse |
| `Mqtt.DecimalRoundTrip` | lib/Loco2MqttCore/src/turnout/TurnoutMqttCommandDecoder.cpp:9-23 | printed numbers read back as themselves and fit four digits below 10000 |
| `Mqtt.StateMessageParsesBack` | lib/Loco2MqttCore/src/turnout/TurnoutMqttEncoder.cpp:3-9 | a turnout printed into a topic of the right shape, and its own state message, read back as that turnout |
| `Mqtt.CommandEchoesAsItsState` | lib/Loco2MqttCore/src/turnout/TurnoutMqttCommandDecoder.cpp:25-44 | both pulses of an accepted command survive the wire, decode to the command whatever acks are outstanding, and print its state topic and payload |
| `Components.MqttCommandRouter.EncodeCommand` | lib/Loco2MqttCore/src/turnout/TurnoutLocoNetEncoder.cpp:24-29 | ON pulse at once, OFF pulse 250 ms after the reading that follows it |
| `Components.MqttCommandRouter.HandleMessage` | lib/Loco2MqttCore/src/application/MqttCommandRouter.cpp:28-49 | sends pulses exactly for messages that carry a command |
| `Components.MqttCommandRouter.Update` | lib/Loco2MqttCore/src/application/MqttCommandRouter.cpp:18-26 | drains the queue; pulses and delayed sends are those of its messages, in order |
| `SendOrder.RequestsMatchExpectations` | lib/Loco2MqttCore/src/application/TurnoutTableStartupQuery.cpp:5-47 | on every run, with any reconnects, late ticks and interleaved pulses, the request addresses sent, followed by those waiting, are the addresses ever expected, in order |
| `SendOrder.FiringFollowsAllRequests` | lib/Loco2MqttCore/src/application/TurnoutTableStartupQuery.cpp:25-47 | when a batch fires, every request scheduled before is due no later than the batch's first: the 2000 ms debounce covers the 940 ms stagger |
| `SendOrder.RequestsLeaveStaggered` | lib/Loco2MqttCore/src/application/TurnoutTableStartupQuery.cpp:38-47 | on every run, whatever comes before and after, request i of a batch that fires leaves in its turn and at a scan not before its own reading plus 20 i ms |
| `SendOrder.EverySentFrameIsWellFormed` | lib/Loco2MqttCore/src/turnout/TurnoutLocoNetEncoder.cpp:12-29 | on every run every frame sent is a pulse or a state request of four bytes, only the first with its top bit set, XORing to 0xFF |
| `SendOrder.OffPulsesFollowOnPulses` | lib/Loco2MqttCore/src/turnout/TurnoutLocoNetEncoder.cpp:24-29 | on every run the k-th OFF pulse to leave is that of the k-th command, due exactly 250 ms after its ON pulse and not leaving before, and the OFF pulses waiting are those of the remaining commands |
| `SendOrder.SendsAreConserved` | lib/Loco2MqttCore/src/application/PendingLocoNetSendScheduler.cpp:8-27 | on every run each scheduled send is either released once or still waiting |
| `Attribution.KthAckIsAttributedByCount` | lib/Loco2MqttCore/src/turnout/PendingTurnoutStateAcks.cpp:3-17 | with no assumption on the station, the k-th claimed ack goes to address 1 + k mod 48 |
| `Attribution.StaleEntriesShiftEveryAnswer` | lib/Loco2MqttCore/src/turnout/PendingTurnoutStateAcks.h:8-18 | on every run with answers still owed: of the 48 acks answering the next batch, each is observed by the decoder for the turnout it answers iff the stale entries are a multiple of 48; otherwise every one is observed for another |
| `Attribution.AnswersCanBeMisread` | lib/Loco2MqttCore/src/application/TurnoutTableStartupQuery.cpp:5-36 | a concrete run with a reconnect leaves 47 stale entries, fires again, and takes the first answer for turnout 2 |
| `Attribution.ForeignAckShiftsTheRest` | lib/Loco2MqttCore/src/application/TurnoutTableStartupQuery.h:37-45 | after one foreign ack every answer is taken for the next turnout in the queue, and the last for none |
| `Attribution.ForeignAckSpoilsEveryAnswer` | lib/Loco2MqttCore/src/application/TurnoutTableStartupQuery.h:37-45 | on every run, after one foreign ack not one outstanding answer is observed for the turnout it answers |
| `Attribution.DeliveryIsReadTruly` | lib/Loco2MqttCore/src/turnout/TurnoutLocoNetDecoder.cpp:65-79 | with an in-order lossless station, the ack read next answers exactly the head of the queue |
| `Attribution.ReceivedFrameDecides` | lib/Loco2MqttCore/src/turnout/TurnoutLocoNetDecoder.cpp:41-87 | on every run a frame that says a position by its bits leaves the turnout it is taken to be about in exactly that position, and any other frame changes nothing |
| `Attribution.AttributionIsCorrect` | lib/Loco2MqttCore/src/turnout/PendingTurnoutStateAcks.h:8-18 | with an in-order lossless station and no foreign acks, after any history the table is exactly what the delivered lines truly reported, read off their bits, and the queue is answers in flight, then requests owed, then requests unsent |
| `MainLoop.Firmware.constructor` | src/main.cpp:127-157 | the components wired as in set-up start a run of the protocol |
| `MainLoop.Firmware.TickScheduler` | src/main.cpp:237 | objects that hold a world hold, after the scheduler's call, that world after one scheduler step |
| `MainLoop.Firmware.TickRouter` | src/main.cpp:238 | after the router's call they hold it after one receive step per decodable buffered line and a republish check |
| `MainLoop.Firmware.TickStatus` | src/main.cpp:239 | after the status publisher's call they hold it after one status step |
| `MainLoop.Firmware.TickQuery` | src/main.cpp:240 | after the start-up query's call they hold it after one query step |
| `MainLoop.Firmware.TickCommands` | src/main.cpp:241 | after the command router's call they hold it after one command step per queued message |
| `MainLoop.Firmware.Loop` | src/main.cpp:237-241 | a tick is exactly those steps in that order, so after any ticks the objects satisfy: the frames logged are those in the bytes received (for a well-formed transmission, the frames to be expected of it), every line written reads back to the frame sent, log and retained store mirror the table, requests match expectations, waiting OFF pulses are the latest commands' |
| `MainLoop.Firmware.LoopBesideStation` | src/main.cpp:237-241 | beside an in-order lossless station each tick leaves the decoder's table at exactly what the lines read so far truly reported, and its queue at the answers in flight, the requests owed and those unsent |
| `MainLoop.TickLeads` | lib/Loco2MqttCore/src/application/LocoNetMessageRouter.cpp:3-12 | a tick that reads the n oldest lines in flight is a possible history of the layout around the bridge |
| `Station.DeliveriesLead` | lib/Loco2MqttCore/src/adapters/LocoNetOverTcpPort.cpp:3-24 | reading the n oldest lines in flight is receiving the frames they decode to, in order |
| `Timers.RepublishWrapIsInvisible` | lib/Loco2MqttCore/src/application/LocoNetMessageRouter.cpp:41-47 | with checks less than 2^32 - 30000 ms apart the republish timer steps as on an unbounded clock |
| `Timers.RepublishNeverStarves` | lib/Loco2MqttCore/src/application/LocoNetMessageRouter.cpp:41-47 | on such runs less than 30 s separate every check from the last republish, and republishes are at least 30 s apart |
| `Timers.StatusWrapIsInvisible` | lib/Loco2MqttCore/src/application/JmriConnectionStatusPublisher.cpp:30-44 | the status publisher's states and messages are those of an unbounded clock |
| `Timers.StatusNeverStarves` | lib/Loco2MqttCore/src/application/JmriConnectionStatusPublisher.cpp:30-37 | on such runs less than 30 s separate every update from the last publication, and a publication without a change comes at least 30 s after the one before |
| `Timers.StatusInFull` | lib/Loco2MqttCore/src/application/JmriConnectionStatusPublisher.cpp:39-44 | topic, payload and retained flag of both status messages, letter by letter |
| `Timers.LastPubIsTold` | lib/Loco2MqttCore/src/application/JmriConnectionStatusPublisher.cpp:13-44 | after every update the subscriber holds the payload of the last publishing update, and every comparison since has read alike |
| `Timers.ToldIffLastPublicationReadAlike` | lib/Loco2MqttCore/src/application/JmriConnectionStatusPublisher.cpp:13-44 | the subscriber holds the state last compared iff the last publishing update read the connection alike for comparison and payload |
| `Timers.FirstPublicationMayFlip` | lib/Loco2MqttCore/src/application/JmriConnectionStatusPublisher.cpp:19-44 | a connection that drops inside the first update is told as disconnected although compared as connected |
| `Timers.SteadyReadingsAreTold` | lib/Loco2MqttCore/src/application/JmriConnectionStatusPublisher.cpp:13-44 | when comparison and publication read the connection alike, a subscriber holds each update's reading after it |
| `Timers.FlippedReadingIsToldUntilDue` | lib/Loco2MqttCore/src/application/JmriConnectionStatusPublisher.cpp:19-44 | a reading that flips between the two is published wrongly, and stays wrong over every run until the comparison changes or the interval is over |
| `Timers.LastToldIsReplayed` | lib/Loco2MqttCore/src/application/JmriConnectionStatusPublisher.cpp:39-44 | what the subscriber holds is the replay of the messages published |
| `Components.JmriConnectionStatusPublisher.PublishStatus` | lib/Loco2MqttCore/src/application/JmriConnectionStatusPublisher.cpp:39-44 | publishes a fresh connection reading and restamps |
| `Components.JmriConnectionStatusPublisher.Update` | lib/Loco2MqttCore/src/application/JmriConnectionStatusPublisher.cpp:13-17 | one status step: publishes on a changed reading and again when 30 s have elapsed since the last publication |
| `Components.JmriConnectionStatusPublisher.PublishIfChanged` | lib/Loco2MqttCore/src/application/JmriConnectionStatusPublisher.cpp:19-28 | publishes exactly when the reading differs from the last, which it then is |
| `Components.JmriConnectionStatusPublisher.RepublishIfDue` | lib/Loco2MqttCore/src/application/JmriConnectionStatusPublisher.cpp:30-37 | publishes and restamps exactly when 30 s have elapsed |
| `Timers.ActivityLed.FlashOn` | lib/Loco2MqttCore/src/application/ActivityLed.cpp:8-13 | lights the pin and restarts the window |
| `Timers.ActivityLed.Update` | lib/Loco2MqttCore/src/application/ActivityLed.cpp:15-27 | turns the pin off exactly when lit and the window is over |
| `Timers.LedLitExactlyInWindow` | lib/Loco2MqttCore/src/application/ActivityLed.cpp:8-27 | over every trace, lit iff no poll since the latest flash has come a window or more after it |
| `Timers.LedWrapIsInvisible` | lib/Loco2MqttCore/src/application/ActivityLed.cpp:24-27 | with operations less than 2^32 less one window apart the LED steps as on an unbounded clock |
| `Button.ButtonSetupModeTrigger.Update` | lib/Loco2MqttCore/src/application/ButtonSetupModeTrigger.cpp:8-15 | one step of the debounce; a request is stored exactly when true is returned |
| `Button.ButtonSetupModeTrigger.HandleActive` | lib/Loco2MqttCore/src/application/ButtonSetupModeTrigger.cpp:17-28 | an active sample starts or continues the press, cancels a release, and never requests |
| `Button.ButtonSetupModeTrigger.HandleInactive` | lib/Loco2MqttCore/src/application/ButtonSetupModeTrigger.cpp:30-43 | an inactive sample starts, continues or finishes a release |
| `Button.ButtonSetupModeTrigger.FinishReleaseIfSettled` | lib/Loco2MqttCore/src/application/ButtonSetupModeTrigger.cpp:45-61 | after 50 ms the press is over, and requests if it lasted 3000 ms |
| `Button.StateDescribesTrace` | lib/Loco2MqttCore/src/application/ButtonSetupModeTrigger.cpp:8-61 | after any trace the fields are: whether a press is unsettled and where it began, and where the inactive row began |
| `Button.RequestsExactlyAtLongPressEnd` | lib/Loco2MqttCore/src/application/ButtonSetupModeTrigger.cpp:8-61 | over every trace, true is returned exactly at the sample that first settles a press held 3000 ms from its first active sample to the start of the final inactive row |
| `Button.OneRequestPerPress` | lib/Loco2MqttCore/src/application/ButtonSetupModeTrigger.cpp:45-55 | between two requests lies the start of a new press |
| `Button.LongPressMissedIff` | lib/Loco2MqttCore/src/application/ButtonSetupModeTrigger.cpp:47-54 | on the 32-bit clock true is returned exactly at the end of a long press whose true length, from its first active sample to the start of the final inactive row, is under 2^32 ms or leaves 3000 ms or more after whole wraps |
| `Button.LongPressCanBeMissed` | lib/Loco2MqttCore/src/application/ButtonSetupModeTrigger.cpp:47-54 | a press of exactly 2^32 ms, sampled often enough, requests on an unbounded clock and not on 32 bits |
| `SectionTracker.RunContext.OpenChildOf` | lib/Catch2/include/catch2/internal/catch_test_case_tracker.cpp:65-72 | marks ancestors until one is already executing children |
| `SectionTracker.RunContext.OpenTracker` | lib/Catch2/include/catch2/internal/catch_test_case_tracker.cpp:106-111 | the tracker runs and becomes current, its parent executes children |
| `SectionTracker.RunContext.AcquireTracker` | lib/Catch2/include/catch2/internal/catch_test_case_tracker.cpp:185-214 | finds or registers the child; opens it unless complete or the cycle is over |
| `SectionTracker.RunContext.CloseTracker` | lib/Catch2/include/catch2/internal/catch_test_case_tracker.cpp:113-141 | closes the trackers still open below this one, then completes it if it ran no child or all its children are complete; the cycle is over |
| `SectionTracker.RunContext.SectionStarted` | lib/Catch2/include/catch2/internal/catch_run_context.cpp:319-342 | the section is entered exactly if its tracker is open |
| `SectionTracker.RunContext.EndSection` | lib/Catch2/include/catch2/internal/catch_run_context.cpp:388-395 | closes and pops the innermost active section |
| `SectionTracker.RunContext.RunTest` | lib/Catch2/include/catch2/internal/catch_run_context.cpp:233-252 | the cycle loop terminates after as many runs as leaves and enters every leaf section exactly once |
| `SectionTracker.SectionRunsNextLeaf` | lib/Catch2/include/catch2/internal/catch_test_case_tracker.cpp:65-141 | one pass over a section with k of its leaves done enters exactly the sections on the way to leaf k and leaves k + 1 done |
| `SectionTracker.CyclesRunLeavesInOrder` | lib/Catch2/include/catch2/internal/catch_run_context.cpp:233-252 | after n cycles exactly the first n leaves are done and the sections entered are those on the way to leaves 0 to n - 1 |
| `SectionTracker.EveryLeafRunsExactlyOnce` | lib/Catch2/include/catch2/internal/catch_run_context.cpp:233-252 | for every finite tree with distinct siblings: completion after exactly as many cycles as leaves (one without sections), every leaf entered once, no illogical state met |
| `IsPermutation.FindSentinel` | lib/Catch2/include/catch2/internal/catch_is_permutation.hpp:21-31 | the first equivalent position, or the sentinel |
| `IsPermutation.CountSentinel` | lib/Catch2/include/catch2/internal/catch_is_permutation.hpp:37-48 | the number of equivalent elements |
| `IsPermutation.CheckElementCounts` | lib/Catch2/include/catch2/internal/catch_is_permutation.hpp:74-101 | true iff counts agree at every element of the first range, though compared only at first occurrences |
| `IsPermutation.IsPermutationOf` | lib/Catch2/include/catch2/internal/catch_is_permutation.hpp:108-136 | true iff the ranges can be matched off one to one by equivalent elements |
| `IsPermutation.MatchableIffSameCounts` | lib/Catch2/include/catch2/internal/catch_is_permutation.hpp:74-136 | one-to-one matching is equal length and equal counts of every value |
| `IsPermutation.MatchableByEqualityIsMultisetEquality` | lib/Catch2/include/catch2/internal/catch_is_permutation.hpp:108-136 | under plain equality it is equality of multisets |
| `IsPermutation.SharedPrefixIsIrrelevant` | lib/Catch2/include/catch2/internal/catch_is_permutation.hpp:114-119 | skipping a shared prefix does not change the answer |
| `WideMultiply.ExtendedMultIsExact` | lib/Catch2/include/catch2/internal/catch_random_integer_helpers.hpp:83-104 | for all 64-bit operands upper * 2^64 + lower is the product |
| `WideMultiply.NoIntermediateOverflow` | lib/Catch2/include/catch2/internal/catch_random_integer_helpers.hpp:87-98 | no intermediate product or sum exceeds 64 bits |
| `Bits.OrOfDisjointWords` | lib/Catch2/include/catch2/internal/catch_random_integer_helpers.hpp:100-101 | the bitwise or of a shifted word and one below it is their sum |

## Left out

- ESP32 adapters (WiFi, NVS, mDNS, UART, GPIO, PicoMQTT): replaced by a stream of bytes, a queue of messages, a
  log and a clock; so reconnecting, lines dropped by a closed socket and the 32-entry command queue are not modelled.
- The `loconet/+/+/set` subscription filter: the command router is modelled on any topic.
- Commissioning, boot-mode choice and the captive portal; `loop` is modelled in normal mode only, from the
  scheduler's call on (the latches for MQTT and mDNS start-up would add only easy members).
- In `loop`, the button and the activity LED: they share no state with the bridge and are modelled alone.
- The list of decoder/encoder pairs in both routers: modelled with the one pair the firmware installs.
- Lines that arrive while the router is draining count as arrived before the tick.
- Components.PendingLocoNetSendScheduler.Update: due times and scan readings are compared as true times, because
  absolute times are assumed not to wrap.
- The scheduler's list is a `seq` field reassigned by each append and erase, the decoder's map and the queues
  likewise; C++ heap growth and stack depth are not modelled.
- Catch2 trackers are held in a map from path to tracker instead of linked objects; sections of one parent are
  assumed to have distinct names-and-locations, so a path names one tracker.
- SectionTracker.RunContext.CloseTracker: called for a tracker that is neither current nor above the current one,
  the original would climb past the root; the model then closes just that tracker.
- Generators, section filters, failing tests (`fail`; `NeedsAnotherRun` is kept as a state only), skipped tests
  and `aborting()`.
- Reporters, totals and messages in the run context.
- Masks by 2^k - 1 and shifts are written as remainder and division; bitwise or and exclusive or are defined bit by
  bit on naturals.
