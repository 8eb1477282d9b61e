# Starskiff: verified model of the mesh VPN's state machines

Starskiff connects devices into virtual networks. Its decisions are made in small
deterministic state machines: the anti-replay codec of every peer, the settings
protocol between server and node, user-space TCP flows, the membership and address
store, the path selection per peer, the UDP relay, and the calendar arithmetic of
the rolling log. This project models those machines in Dafny and proves what they
promise, for every input and every sequence of steps.

Objects that the program updates in place are classes. Each method is proved against
a function on the object's abstract state (a history of accepted counters, a row of a
table, a map of flows), and the laws are lemmas about those functions over whole runs.
Unsigned machine words are naturals with their bounds; `Bits` writes the bitwise
operators out as arithmetic.

| file | what it models |
|---|---|
| `Wrappers`, `Sets`, `Bits`, `Endec`, `Text` | results, machine words, finite sets, bit operators, little-endian integers, decimal numbers |
| `ReplayWindow`, `ReplayLaws` | the 128-bit shifting replay bitmap and its loss statistic |
| `Wire`, `CodecLaws`, `CodecLosses`, `FrameLaws` | frame parsing, boot-nonce generations, their statistics, sealing and opening, one codec per network |
| `SettingsServer`, `SettingsNode`, `SettingsProtocol` | managed settings: push, acknowledge, roll back |
| `FlowWire`, `FlowManager`, `FlowLaws`, `FlowLimits`, `FlowOpening`, `FlowAnswers`, `FlowOrigins`, `FlowDatagrams`, `FlowText` | FLOW messages, in-order delivery, opening of flows, which service is reached and which frames are sent, messages of other origins, datagrams and their sockets, UTF-8 |
| `TcpFraming` | length-prefixed frames and their reassembly |
| `Ipam`, `Membership`, `MembershipLaws`, `MembershipRules`, `MembershipDevices` | CIDR arithmetic, address allocation, the membership store |
| `Paths` | path selection and routing under a policy |
| `RegisterGuard`, `UdpRelay`, `RelayLaws`, `RelayLiveness` | relay registrations, nonce memory, forwarding, sweeping |
| `CivilDate`, `Logging` | day numbers and dates, log retention |

Time is an integer argument. One transaction, or one synchronous section of the
program, is one step. The network is a set of messages that are delivered later,
again, or never. Random numbers (boot nonces, device ids, flow ids), clocks, the
devices table behind the relay and the success of a socket send are arguments.

Authenticated encryption is ideal: a ledger records every encryption, and decryption
succeeds exactly on the ledger's entries. Where several keys are involved, no
ciphertext is assumed to authenticate under two of them. The MAC of a registration
verifies under the key it was made with and no other.

An IPv4 address in text form is represented by what it parses to. The standard parser
accepts one spelling per address, so the table's uniqueness of texts is uniqueness of
addresses.

## Where the program does less than it says

- `crates/skiff-core/src/logging.rs:122-125`: a file named `<stem>.log` passes the
  prefix and the suffix test and then makes the slice start after its end, so cleanup
  panics. In a build that checks arithmetic for overflow it also panics on day 00 of
  month 03 of any year (`crates/skiff-core/src/logging.rs:183`). `Logging.PanicsExactlyOn`
  shows for both builds that there are no other such names.
- `crates/skiff-core/src/protocol/flow.rs:18-22` says that a missing chunk breaks the
  stream. A chunk above the size guard is dropped before it takes a sequence number
  (`crates/skiff-node/src/flow.rs:196-202`), so the stream goes on without it;
  `FlowLimits.SentIsPrefixOfWrittenIff` gives the exact condition. The number wraps after 2^32
  chunks and then takes an old message for a new one; `FlowLimits.PrefixSafeIff`.
- `crates/skiff-node/src/flow.rs:372-377` promises that no connect overwrites an existing flow.
  That holds for accepted TCP flows. A UDP flow, or a flow of the node's own, that takes a
  number while a local connect runs for it is replaced when the connect ends:
  `FlowOpening.UdpFlowIsReplaced`, and exactly when: `FlowOpening.ReplacedIff`.
- `crates/skiff-core/src/protocol/flow.rs:79` and `:120` keep the low eight bits of an
  address length. `FlowWire.ParseOfOpen` and `FlowWire.ParseOfDatagram` give the exact
  condition under which a payload comes back.
- `crates/skiff-node/src/flow.rs:307-361` looks a flow up by its number alone. DATA of
  another peer or network under the same number enters the stream if it is in step:
  `FlowOrigins.DataEntersIff`; the exact condition for the stream to stay the sender's is
  `FlowOrigins.InOrderIffForeignHarmless`.
- `crates/skiff-node/src/flow.rs:468-518` serves a datagram whether or not its flow has an
  entry. For a number without one it opens a socket that closing a flow never closes. There
  are sockets without a flow exactly in the runs in which that happens:
  `FlowDatagrams.SocketsOwnedIff`.
- `crates/skiff-node/src/engine.rs:1746-1751` says that a direct path implies a PONG was
  seen, and that a half-open direct TCP path falls back within 30 s. A pin sets the path
  without a PONG, and so does a TCP connection that the policy allows; after that, no
  probe gives the silent path up: `Paths.PinOutlivesPolicy`, `Paths.HalfOpenTcpStays`.
  `Paths.DirectWithoutPongIff` gives the exact condition over all runs.
- `crates/skiff-server/src/relay/udp_relay.rs:123-124` says that sweeping only reclaims
  memory. That holds for registrations, keys and nonces. Sweeping the cache of unknown
  devices makes room in it, and a device remembered there is refused for ten seconds after
  it has enrolled: `RelayLaws.FullCacheShows`. The exact condition is
  `RelayLaws.SweepsVisibleIff`.
- `crates/skiff-node/src/engine.rs:1346-1351` compares an explicit empty listen list with
  the effective one, so it asks for a restart although nothing would change:
  `SettingsProtocol.EmptyListenRestarts`, and exactly then:
  `SettingsProtocol.SameContentAcknowledgedIff`.
- `crates/skiff-core/src/protocol/wire.rs:191` and `:216-219` add up the lost totals in 64
  bits, and a single jump of a counter charges nearly 2^64. Four accepted frames are enough
  to leave that range: `CodecLosses.FourFramesOverflow`. A build with overflow checks then
  panics, on retirement under the lock of the state, and any other build reads a smaller
  number. The statistic is right iff the sum fits: `CodecLosses.LostStatisticIff`.
- `crates/skiff-server/src/db.rs:65-70` has no foreign key from memberships to devices, and
  joining does not look the device up again inside its transaction. A device deleted in
  between gets a membership: `MembershipDevices.DeletedDeviceJoins`; that is the only way:
  `MembershipDevices.DevicesOkIff`.
- `crates/skiff-core/src/crypto/replay.rs:75-76` refunds a hole also for a frame that
  overtook the first one, for which none was charged: `ReplayLaws.HiddenLoss`. The count
  is exact iff there was a moment without a hole and no such frame came after it:
  `ReplayLaws.LossExactIff`.

## Model

| member | source | states |
|---|---|---|
| ReplayWindow.ReplayWindow.CheckAndSet | crates/skiff-core/src/crypto/replay.rs:45-79 | the bitmap accepts a counter exactly when it is the first, the newest, or less than 128 behind the newest and not accepted before; a refused counter changes nothing |
| ReplayWindow.ReplayWindow.Stats | crates/skiff-core/src/crypto/replay.rs:41-43 | the statistics are functions of the history of accepted counters |
| ReplayWindow.ReplayWindow.Reset | crates/skiff-core/src/crypto/replay.rs:32-38 | reset forgets the whole history |
| ReplayLaws.NoReplay | crates/skiff-core/src/crypto/replay.rs:45-79 | no counter is accepted twice in any sequence of arrivals |
| ReplayLaws.AcceptsIff | crates/skiff-core/src/crypto/replay.rs:45-79 | a counter is accepted iff it is new and at most 127 behind everything accepted |
| ReplayLaws.HighestArrival | crates/skiff-core/src/crypto/replay.rs:53-69 | the high-water mark is the highest counter that arrived, accepted or not |
| ReplayLaws.AcceptedIffTimely | crates/skiff-core/src/crypto/replay.rs:45-79 | a counter gets in iff one of its arrivals is at most 127 behind everything that arrived before it |
| ReplayLaws.AcceptedOnce | crates/skiff-core/src/crypto/replay.rs:45-79 | and then exactly one of its frames gets in |
| ReplayLaws.LossBounds | crates/skiff-core/src/crypto/replay.rs:53-78 | the loss count is at most the holes between first and highest, short by at most the overtaking frames, of which there are at most 127; without those seen plus lost is exactly the span |
| ReplayLaws.LossExactIff | crates/skiff-core/src/crypto/replay.rs:53-78 | over any run the loss count is the number of holes iff at some moment there was no hole and no frame overtook the first one after it |
| ReplayLaws.HiddenLoss | crates/skiff-core/src/crypto/replay.rs:74-77 | the run 5, 7, 4 counts no loss although 6 never came |
| ReplayLaws.OvertakenFrameHidesHole | crates/skiff-core/src/crypto/replay.rs:74-77 | the refund for an overtaking frame lowers the count while every hole stays |
| Wire.PacketCodec.Seal | crates/skiff-core/src/protocol/wire.rs:130-153 | layout of a sealed packet, the next counter, and the entry of the ledger with the clear header as associated data |
| Wire.PacketCodec.Open | crates/skiff-core/src/protocol/wire.rs:163-208 | opening a packet moves the generations and windows as the abstract codec does, in builds with and without overflow checks |
| Wire.PacketCodec.AdmitFrame | crates/skiff-core/src/protocol/wire.rs:180-207 | generation lookup, opening, retirement and replay check after authentication, or the panic under the lock |
| Wire.PacketCodec.RetireOldest | crates/skiff-core/src/protocol/wire.rs:187-193 | the oldest generation leaves and its statistics go into the retired totals; the lost total wraps at 64 bits, or panics exactly if it does not fit |
| Wire.PacketCodec.Stats | crates/skiff-core/src/protocol/wire.rs:212-221 | the loop sums retired and live statistics, the lost ones modulo 2^64; with overflow checks it panics exactly if they do not fit |
| CodecLaws.RefusalLeavesNoTrace | crates/skiff-core/src/protocol/wire.rs:180-207 | a refused frame changes neither generations nor windows |
| CodecLaws.FailedOpenLeavesNoTrace | crates/skiff-core/src/protocol/wire.rs:155-208 | a packet that does not open leaves all codec state as it was |
| CodecLaws.OnlyNewestAccepts | crates/skiff-core/src/protocol/wire.rs:197-207 | an accepted frame is of the newest generation, which then remembers its counter |
| CodecLaws.AdmitIs | crates/skiff-core/src/protocol/wire.rs:180-207 | an unknown boot nonce opens a generation and is accepted, the oldest of 32 making room; the newest accepts by the replay rule; any other refuses |
| CodecLaws.AfterWellFormed | crates/skiff-core/src/protocol/wire.rs:183-194 | in every run there are at most 32 generations with pairwise distinct boot nonces |
| CodecLaws.ReplayNeedsEviction | crates/skiff-core/src/protocol/wire.rs:180-207 | between two acceptances of one frame at least 32 generations of other boot nonces are newly opened; replays of known generations do not count |
| CodecLaws.FewRestartsNoReplay | crates/skiff-core/src/protocol/wire.rs:41-46 | with at most 32 boot nonces each frame is accepted at most once |
| CodecLaws.RetirementKeepsTotals | crates/skiff-core/src/protocol/wire.rs:186-193 | opening and retiring generations moves no sample of the true seen and lost totals |
| CodecLaws.SeenCountsAccepted | crates/skiff-core/src/protocol/wire.rs:210-221 | the seen statistic is the number of frames ever accepted, across all evictions |
| CodecLosses.LostCountsAllGenerations | crates/skiff-core/src/protocol/wire.rs:186-221 | the true lost total is the sum over all generations ever opened, at most all their holes and short by at most their overtaking frames |
| CodecLosses.LostStatisticIff | crates/skiff-core/src/protocol/wire.rs:186-221 | over any run and in either build, the lost statistic is that sum iff the sum fits 64 bits |
| CodecLosses.OpeningPanicsIff | crates/skiff-core/src/protocol/wire.rs:187-193 | a frame makes the codec panic iff, in a build with overflow checks, the retired total does not fit 64 bits with it |
| CodecLosses.RunIn | crates/skiff-core/src/protocol/wire.rs:180-207 | until then the builds are in the same state |
| CodecLosses.SmallSpansSuffice | crates/skiff-core/src/protocol/wire.rs:186-221 | nothing overflows as long as the spans from first to highest counter of all generations add up to 64 bits |
| CodecLosses.FourFramesOverflow | crates/skiff-core/src/protocol/wire.rs:212-221 | four accepted frames after which one build panics and the other reads too little |
| CodecLosses.OpensAlike | crates/skiff-core/src/protocol/wire.rs:163-208 | opening a packet is the same in both builds except for that panic |
| FrameLaws.SealedPacketParses | crates/skiff-core/src/protocol/wire.rs:74-93 | parsing a sealed packet gives back sender, type, nonce and ciphertext |
| FrameLaws.SealedLayout | crates/skiff-core/src/protocol/wire.rs:130-153 | the bytes of a sealed packet, field by field |
| FrameLaws.ParsesIff | crates/skiff-core/src/protocol/wire.rs:74-93 | a packet parses iff it is long enough and has this magic, this version and a type from 1 to 4 |
| Endec.ReadU32Is | crates/skiff-core/src/endec.rs:12-29 | the first byte counts least |
| FrameLaws.SealedFrameOpens | crates/skiff-core/src/protocol/wire.rs:130-208 | what is sealed opens to the same sender, type and payload iff the replay check admits its counter |
| FrameLaws.OpenedWasSealed | crates/skiff-core/src/protocol/wire.rs:163-208 | sender, type and payload of an opened packet are those that were sealed together |
| FrameLaws.CountersGiveDistinctNonces | crates/skiff-core/src/protocol/wire.rs:131-138 | different send counters give different nonces |
| FrameLaws.PacketOpensOnce | crates/skiff-core/src/protocol/wire.rs:163-208 | over any run of packets, forged ones included, with at most 32 authenticated boot nonces no packet opens twice |
| FrameLaws.HandleFrameFinds | crates/skiff-node/src/engine.rs:413-434 | trying the candidate codecs finds the accepting network if there is one and touches no other |
| FrameLaws.OrderOfCodecsIsIrrelevant | crates/skiff-node/src/engine.rs:413-434 | with distinct keys the outcome is the same in every order of the attempts |
| SettingsServer.SettingsTable.Get | crates/skiff-server/src/repo.rs:183-215 | the row's revision and content, or revision 0 and nothing managed |
| SettingsServer.SettingsTable.SetDeviceSettings | crates/skiff-server/src/repo.rs:286-315 | a PUT stores the content under the next revision and keeps the anchor |
| SettingsServer.SettingsTable.MarkSettingsApplied | crates/skiff-server/src/repo.rs:222-232 | the guarded confirmation, and that no other row changes |
| SettingsServer.SettingsTable.ReportSettingsFail | crates/skiff-server/src/repo.rs:239-283 | the guarded rollback, its answer, and that no other row changes |
| SettingsNode.Engine.constructor | crates/skiff-node/src/engine.rs:706-722 | the values a worker starts with |
| SettingsNode.Engine.ApplyRuntimeSettings | crates/skiff-node/src/engine.rs:1316-1355 | a restart is needed iff a managed restart-class field differs from the running one, or the listen list is explicitly empty |
| SettingsNode.Engine.ApplySettings | crates/skiff-node/src/engine.rs:1367-1389 | stale replies are ignored, restart-class changes are not acknowledged |
| SettingsNode.StartsWithManaged | crates/skiff-node/src/engine.rs:706-722 | each start value is the managed one, or its default |
| SettingsNode.AppliedByFields | crates/skiff-node/src/engine.rs:1311-1389 | revision and the five restart-class fields alone decide whether a reply is ignored, taken over or stops the worker |
| SettingsProtocol.PutTakesEffect | crates/skiff-server/src/repo.rs:286-315 | a PUT stores its content under the next revision and leaves anchor and errors alone |
| SettingsProtocol.FailReportIff | crates/skiff-server/src/repo.rs:239-283 | a fail report changes the row iff it names the current revision of an existing row; then the anchor comes back |
| SettingsProtocol.ContentIsLastWritten | crates/skiff-server/src/repo.rs:222-315 | in every reachable state the content is what the last PUT stored or a later rollback restored |
| SettingsProtocol.NodeSteps | crates/skiff-node/src/engine.rs:1367-1389 | fetching, starting, reporting and stopping leave the row alone, and what they send |
| SettingsProtocol.StepKeeps | crates/skiff-server/src/repo.rs:222-315 | every step of server, node and network keeps the invariant of the whole system |
| SettingsProtocol.AnchorWasAcknowledged | crates/skiff-server/src/repo.rs:217-232 | in every reachable state the rollback anchor is empty or the content of an acknowledged revision |
| SettingsProtocol.RollbackRestoresAcknowledged | crates/skiff-server/src/repo.rs:260-274 | a rollback restores acknowledged content, or none |
| SettingsProtocol.CurrentHeartbeatConfirms | crates/skiff-server/src/repo.rs:222-232 | a heartbeat confirms the current content iff it reports the current revision |
| SettingsProtocol.AppliedRevisionRuns | crates/skiff-node/src/engine.rs:1376-1386 | whenever a worker reports a revision, the restart-class fields it manages are the ones the worker started with |
| SettingsProtocol.NewerReply | crates/skiff-node/src/engine.rs:1316-1389 | in every reachable state a newer reply is acknowledged without restart or stops the worker without acknowledgement, and which of the two |
| SettingsProtocol.SameContentAcknowledgedIff | crates/skiff-node/src/engine.rs:1346-1386 | in every reachable state a PUT of the content that the worker has acknowledged is taken over without restart iff its listen list is not explicitly empty |
| SettingsProtocol.EmptyListenRestarts | crates/skiff-node/src/engine.rs:1346-1386 | a run in which the same settings are put twice and the worker stops |
| SettingsProtocol.ContentChangesAtMostOnce | crates/skiff-server/src/repo.rs:222-283 | after the last PUT the content changes at most once, and not at all once settled |
| SettingsProtocol.ConfirmAndRollbackSettle | crates/skiff-server/src/repo.rs:222-283 | confirming and rolling back settle the content |
| SettingsProtocol.RolledBackOnce | crates/skiff-server/src/repo.rs:257-259 | a rolled-back revision is never rolled back again |
| FlowWire.DecodeOfEncode | crates/skiff-core/src/protocol/flow.rs:50-73 | decoding inverts encoding exactly on the known flags |
| FlowWire.EncodeOfDecode | crates/skiff-core/src/protocol/flow.rs:50-73 | a decoded message encodes to the bytes it came from |
| FlowWire.MessageLayout | crates/skiff-core/src/protocol/flow.rs:6-17 | the bytes of a message field by field, and exactly what decodes |
| FlowWire.PayloadLayouts | crates/skiff-core/src/protocol/flow.rs:75-124 | the bytes of OPEN and DATAGRAM payloads |
| FlowWire.NumberText | crates/skiff-node/src/flow.rs:369 | exactly which texts are port numbers |
| FlowText.Utf8Iff | crates/skiff-core/src/protocol/flow.rs:101 | bytes pass the check for UTF-8 iff they are the encoding of Unicode text |
| FlowWire.ParseOfOpen | crates/skiff-core/src/protocol/flow.rs:76-106 | parsing inverts building an OPEN payload exactly for known protocols and addresses with a colon and at most 255 bytes |
| FlowWire.OpenOfParse | crates/skiff-core/src/protocol/flow.rs:76-106 | a parsed OPEN payload is the one built from its parts |
| FlowWire.ParseOfDatagram | crates/skiff-core/src/protocol/flow.rs:118-144 | a datagram payload comes back exactly for addresses with a colon and at most 255 bytes |
| FlowWire.PortOfEndpoint | crates/skiff-node/src/flow.rs:369 | the port comes back from `host:port` exactly if it has 16 bits, whatever the host |
| FlowManager.Manager.NewFlowId | crates/skiff-node/src/flow.rs:183-191 | the first usable one of at most 16 drawn numbers, or none |
| FlowManager.Manager.OpenFlow | crates/skiff-node/src/flow.rs:233-299 | a flow of the node's own takes a number that no flow has, and sends its OPEN |
| FlowManager.Manager.HandleOpen | crates/skiff-node/src/flow.rs:367-466 | the effect of an OPEN for TCP or UDP |
| FlowManager.Manager.ConnectEnded | crates/skiff-node/src/flow.rs:398-442 | the effect of the end of a local connect |
| FlowManager.Manager.Send | crates/skiff-node/src/flow.rs:193-219 | size guard and sequence number of an outgoing frame |
| FlowManager.Manager.Close | crates/skiff-node/src/flow.rs:223-230 | removal of a flow with its local sockets, and its CLOSE frame |
| FlowManager.Manager.HandleDatagram | crates/skiff-node/src/flow.rs:468-518 | a datagram goes to the handle of an own flow or through a local socket to a service |
| FlowManager.Manager.Receive | crates/skiff-node/src/flow.rs:307-365 | the effect of an arriving frame on flows, streams, datagrams, sockets and outgoing frames |
| FlowAnswers.FindServiceIff | crates/skiff-node/src/flow.rs:387-391 | the service found is that of the first rule for protocol and port; none is found iff there is no such rule |
| FlowAnswers.FrameSent | crates/skiff-node/src/flow.rs:193-219 | a frame is sent iff its payload has at most 65400 bytes, and with which number |
| FlowAnswers.OpenConnectsIff | crates/skiff-node/src/flow.rs:387-442 | an OPEN for an unused, idle number starts a connect, to where the first rule for its port leads, iff there is one; otherwise it is refused by one frame |
| FlowAnswers.ConnectAnswered | crates/skiff-node/src/flow.rs:398-442 | the entry and the answer at the end of a connect |
| FlowAnswers.UdpOpenAnswered | crates/skiff-node/src/flow.rs:444-462 | an OPEN for UDP is always answered, and the first one makes the entry |
| FlowAnswers.OwnFlowOpens | crates/skiff-node/src/flow.rs:233-299 | the entry and the OPEN of a flow of the node's own |
| FlowAnswers.ClosedIs | crates/skiff-node/src/flow.rs:223-230 | a closed flow loses entry and sockets, and its own peer is told |
| FlowAnswers.MessageIs | crates/skiff-node/src/flow.rs:307-365 | what DATA, CLOSE and the answers to OPEN do to an entry |
| FlowAnswers.StrayMessage | crates/skiff-node/src/flow.rs:307-365 | for a number without an entry they do nothing |
| FlowAnswers.DatagramGoes | crates/skiff-node/src/flow.rs:468-518 | a datagram goes to the own flow with room, else to where the first UDP rule for its port leads, else nowhere |
| FlowAnswers.NoPortNoEffect | crates/skiff-node/src/flow.rs:368-371 | a payload without address and port has no effect |
| FlowLaws.SenderNumbersChunks | crates/skiff-node/src/flow.rs:203-218 | a live flow sends exactly the chunks written to it, numbered from 0 modulo 2^32 |
| FlowLaws.DeliversPrefix | crates/skiff-node/src/flow.rs:324-361 | under any loss, duplication and reordering an entry delivers the first n chunks for some n |
| FlowLaws.GapClosesFlow | crates/skiff-node/src/flow.rs:339-344 | a gap removes the entry and delivers nothing |
| FlowLaws.GoneDeliversNothing | crates/skiff-node/src/flow.rs:328-357 | a removed entry delivers nothing more |
| FlowLaws.FlowIsPrefix | crates/skiff-node/src/flow.rs:193-361 | sender and receiver together: as long as DATA of this number comes from the sender, the bytes delivered are a prefix of the bytes written |
| FlowLimits.SentIsPrefixOfWrittenIff | crates/skiff-node/src/flow.rs:193-219 | over any run of a living flow, the chunks sent are a prefix of the chunks written iff no fitting chunk follows an oversized one |
| FlowLimits.InOrderDeliversAll | crates/skiff-node/src/flow.rs:345-351 | a network that keeps order and loses nothing delivers every chunk, past the wrap of the number too |
| FlowLimits.PrefixSafeIff | crates/skiff-node/src/flow.rs:331-352 | the prefix property holds for all receptions of n chunks iff n < 2^32 |
| FlowOpening.AtMostOneConnect | crates/skiff-node/src/flow.rs:367-442 | in every reachable state at most one local connect runs for a flow, and none once the flow is accepted |
| FlowOpening.OneConnectPerOpening | crates/skiff-node/src/flow.rs:374-397 | over any run, however often OPEN is repeated, a local service is connected at most once more than the flow was given up |
| FlowOpening.FreedIff | crates/skiff-node/src/flow.rs:223-230 | a flow is given up exactly by CLOSE, DATA out of step, teardown, or the failure of its connect |
| FlowOpening.ReplacedIff | crates/skiff-node/src/flow.rs:398-420 | an entry is replaced exactly if a local connect for its number ends well |
| FlowOpening.AcceptedFlowGoesOn | crates/skiff-node/src/flow.rs:372-397 | an accepted flow is never replaced or reset; it goes on until exactly the steps that remove it |
| FlowOpening.UdpFlowIsReplaced | crates/skiff-node/src/flow.rs:398-460 | a run in which a UDP flow is accepted and then replaced |
| FlowOpening.RepeatedOpenOnlyAnswers | crates/skiff-node/src/flow.rs:379-386 | a repeated OPEN changes no flow and is answered exactly if the flow is accepted |
| FlowOpening.OpenWhileConnecting | crates/skiff-node/src/flow.rs:393-397 | an OPEN during the connect starts no second one |
| FlowOpening.EntryDeliversPrefix | crates/skiff-node/src/flow.rs:324-361 | every entry, also a later one under a used number, delivers the first chunks of its sender as long as it is there and not replaced |
| FlowOpening.AcceptedFlowDelivers | crates/skiff-node/src/flow.rs:324-442 | over any run of the accepting node, from the end of the connect on the stream grows by the first chunks of the sender |
| FlowOrigins.DataEntersIff | crates/skiff-node/src/flow.rs:324-361 | DATA of any network and peer enters the stream of its number iff it carries the expected sequence number |
| FlowOrigins.OwnDataThenCloses | crates/skiff-node/src/flow.rs:331-360 | the flow's own message with that number then closes the flow |
| FlowOrigins.InOrderIffForeignHarmless | crates/skiff-node/src/flow.rs:307-361 | with arbitrary DATA of other origins the stream is always the sender's first chunks iff every such message that arrives in step is one that the sender itself made |
| FlowDatagrams.DatagramEffect | crates/skiff-node/src/flow.rs:468-518 | a datagram touches no flow, stream or outgoing frame, and opens at most the one socket it is served through |
| FlowDatagrams.SocketsOwnedIff | crates/skiff-node/src/flow.rs:223-518 | over any run local sockets belong to flows with an entry iff no datagram for a number without one was served |
| TcpFraming.FrameReassembler.Feed | crates/skiff-core/src/protocol/relay_tcp.rs:100-120 | feeding a chunk delivers exactly the whole frames of buffer and chunk, keeps the rest, and fails on an oversized header |
| TcpFraming.ReadIsUnique | crates/skiff-core/src/protocol/relay_tcp.rs:24-27 | a byte stream splits into whole frames and a rest in one way only |
| TcpFraming.PrefixLayout | crates/skiff-core/src/protocol/relay_tcp.rs:24-27 | four bytes of length, the first counting least, and the frame |
| TcpFraming.ChunkingIsInvisible | crates/skiff-core/src/protocol/relay_tcp.rs:97-120 | for every byte stream the way it is cut into chunks makes no difference |
| TcpFraming.ReassemblyRoundTrip | crates/skiff-core/src/protocol/relay_tcp.rs:24-120 | frames of at most 512 KiB come back as exactly the list that was written, with an empty buffer |
| TcpFraming.BufferBound | crates/skiff-core/src/protocol/relay_tcp.rs:103-119 | after a successful call the buffer holds less than one full frame |
| TcpFraming.OversizedHeaderFails | crates/skiff-core/src/protocol/relay_tcp.rs:108-111 | an oversized header fails the call that completes it, and none before |
| Ipam.ContainsIsRange | crates/skiff-core/src/ipam.rs:40-85 | membership by mask is membership between network and broadcast address, for every prefix |
| Ipam.BlockEnd | crates/skiff-core/src/ipam.rs:53-55 | the broadcast address ends a block of 2^(32-prefix) addresses |
| Ipam.NewIsWellFormed | crates/skiff-core/src/ipam.rs:32-38 | masking gives a well-formed block that contains the address |
| Ipam.OverlapIffShared | crates/skiff-node/src/engine.rs:1097-1105 | the two-way test is true iff the blocks share an address |
| Ipam.OverlapWarnings | crates/skiff-node/src/engine.rs:1091-1108 | the nested loop warns about exactly the pairs that share an address |
| Ipam.LowestFree | crates/skiff-core/src/ipam.rs:107-116 | the lowest unused address of a range, or none if all are used |
| Ipam.Allocate | crates/skiff-core/src/ipam.rs:103-117 | the allocation loop finds the lowest free host, nothing for /31 and /32 |
| Ipam.HostCountIsInterior | crates/skiff-core/src/ipam.rs:57-63 | the host count is the number of addresses strictly inside the block |
| Ipam.AllocationOrder | crates/skiff-core/src/ipam.rs:103-117 | repeated allocation hands out all hosts in increasing order, then nothing |
| Ipam.ManualAccepts | crates/skiff-core/src/ipam.rs:120-148 | a manual address is accepted iff it is a host of the block and free, or the device's own |
| Ipam.ManualRefuses | crates/skiff-core/src/ipam.rs:120-148 | which refusal a manual address gets, and exactly when |
| Ipam.AllocationIs | crates/skiff-core/src/ipam.rs:103-117 | the address given out is the lowest free host, and none iff there is none or the block is a /31 or /32 |
| Membership.Repo.CollectUsed | crates/skiff-server/src/repo.rs:662-671 | the loop collects exactly the addresses in use |
| Membership.Repo.EnrollDevice | crates/skiff-server/src/repo.rs:628-700 | all effects of enrollment, or none |
| Membership.Repo.JoinNetwork | crates/skiff-server/src/repo.rs:704-754 | all effects of joining by token, or none |
| Membership.Repo.InsertMembershipTx | crates/skiff-server/src/repo.rs:758-789 | choice of the address and insertion under both keys |
| Membership.Repo.AdminJoinNetwork | crates/skiff-server/src/repo.rs:792-837 | all effects of a forced join, or none |
| Membership.Repo.SetMembershipIpAtomic | crates/skiff-server/src/repo.rs:842-884 | all effects of an address change, or none |
| Membership.Repo.RemoveMembershipGuarded | crates/skiff-server/src/repo.rs:956-986 | guarded removal and the reason of a refusal |
| Membership.Repo.RemoveNetwork | crates/skiff-server/src/repo.rs:383-398 | deletion of a network with its memberships and tokens |
| Membership.Repo.ConsumeTokenUse | crates/skiff-server/src/repo.rs:549-558 | one use is taken from the token and no other row changes, iff there is one left |
| MembershipLaws.AddressesStayDistinct | crates/skiff-server/src/repo.rs:383-884 | in every reachable state each member has a host address of an existing network that no other member has |
| MembershipLaws.TokenUsesAreConserved | crates/skiff-server/src/repo.rs:549-754 | uses left plus memberships made through a token is constant, and uses left is never negative |
| MembershipLaws.JoinCost | crates/skiff-server/src/repo.rs:733-752 | a new membership costs one use, a repeated join changes nothing |
| MembershipLaws.UsedUpIff | crates/skiff-server/src/repo.rs:628-754 | enrolling and joining are refused as used up iff the valid token had no use left at the start |
| MembershipLaws.DeviceKeepsMembership | crates/skiff-server/src/repo.rs:953-986 | a device with a membership keeps one until a device or a network is deleted |
| MembershipLaws.EnrollGivesMembership | crates/skiff-server/src/repo.rs:690-698 | an enrolled device is a member |
| MembershipRules.TokenRefusals | crates/skiff-server/src/repo.rs:628-726 | enrolling and joining are refused as missing, expired, used up or without network exactly when the token is |
| MembershipRules.MadeBeforeExpiry | crates/skiff-server/src/repo.rs:628-754 | over any run, a membership made through a token is made no later than the token's expiry |
| MembershipRules.ExpiryStays | crates/skiff-server/src/repo.rs:549-558 | expiry, network and address of a token never change |
| MembershipRules.ChosenIff | crates/skiff-server/src/repo.rs:674-683 | the address is the requested one, else the token's, else the lowest free host |
| MembershipRules.EnrollIs | crates/skiff-server/src/repo.rs:628-700 | the rows of a successful enrollment: device, membership and payment, nothing else |
| MembershipRules.EnrollSucceeds | crates/skiff-server/src/repo.rs:628-700 | it succeeds whenever token, address and device number allow it |
| MembershipRules.JoinIs | crates/skiff-server/src/repo.rs:704-754 | the rows of a successful join |
| MembershipRules.AdminJoinIs | crates/skiff-server/src/repo.rs:792-837 | the rows of a forced join, and exactly when it is refused for the single network |
| MembershipRules.JoinsSucceed | crates/skiff-server/src/repo.rs:704-837 | joins succeed whenever there is an address to choose |
| MembershipRules.JoinsAgain | crates/skiff-server/src/repo.rs:733-745 | joining again returns the membership and changes nothing |
| MembershipRules.EntryRefusals | crates/skiff-server/src/repo.rs:659-690 | why a new membership is refused although the token is good |
| MembershipRules.AddressRefusals | crates/skiff-server/src/repo.rs:674-683 | the reason when there is no address |
| MembershipRules.SetIpIs | crates/skiff-server/src/repo.rs:842-884 | an address change is accepted iff the address is a host no other member has, and it is stored |
| MembershipRules.LeaveIs | crates/skiff-server/src/repo.rs:956-986 | one row goes, unless it is not there or the device's last |
| MembershipRules.DeletionsAre | crates/skiff-server/src/repo.rs:383-465 | deleting a device or a network takes exactly its rows |
| MembershipRules.TransactionSteps | crates/skiff-server/src/repo.rs:628-986 | a transaction that fails changes nothing |
| MembershipDevices.DevicesOkIff | crates/skiff-server/src/repo.rs:456-837 | over any run every membership names an existing device all the time iff no device joins that is gone by then |
| MembershipDevices.DeletedDeviceJoins | crates/skiff-server/src/repo.rs:704-754 | a run in which a deleted device gets a membership |
| Paths.PeerSession.SyncPolicy | crates/skiff-node/src/engine.rs:1276-1292 | the path after a policy is applied |
| Paths.PeerSession.AttachPeerTcp | crates/skiff-node/src/engine.rs:391-409 | the connection slot and the upgrade to direct TCP |
| Paths.PeerSession.OnFrame | crates/skiff-node/src/engine.rs:435-480 | what a frame teaches about endpoint, path and liveness |
| Paths.PeerSession.ProbePeer | crates/skiff-node/src/engine.rs:1696-1767 | the downgrade decision of a probe |
| Paths.RoutingObeysPolicy | crates/skiff-node/src/engine.rs:247-332 | direct policies never use a relay, relay policies never go direct, and exactly when a frame is dropped |
| Paths.RouteIff | crates/skiff-node/src/engine.rs:247-332 | each route exactly when it is taken, with its endpoint or connection |
| Paths.PolicyApplied | crates/skiff-node/src/engine.rs:1276-1292 | what applying a policy does to the path, and to nothing else |
| Paths.AttachIs | crates/skiff-node/src/engine.rs:391-409 | what a connection does, and exactly when it lifts the path |
| Paths.FrameIs | crates/skiff-node/src/engine.rs:435-480 | what a frame does, and exactly when a PONG teaches an endpoint |
| Paths.ProbeIs | crates/skiff-node/src/engine.rs:1745-1778 | what a probe does |
| Paths.LearnedIsLatest | crates/skiff-node/src/engine.rs:454-463 | over any run the learned endpoint is that of the latest direct PONG, unless a probe has given it up since |
| Paths.AutoInvariant | crates/skiff-node/src/engine.rs:391-480 | under Auto a learned endpoint and the direct UDP path come and go together and relay TCP is never used |
| Paths.AutoFallsBack | crates/skiff-node/src/engine.rs:1745-1778 | under Auto a direct UDP path silent for over 30 s is given up by the next probe, any other is kept |
| Paths.AutoRoutes | crates/skiff-node/src/engine.rs:278-330 | under Auto nothing is dropped and direct UDP goes to the learned endpoint |
| Paths.PinHolds | crates/skiff-node/src/session.rs:33-42 | no frame, connection or probe moves a pinned path |
| Paths.DirectAnyNeverDemotes | crates/skiff-node/src/engine.rs:1745-1753 | under DirectAny a direct path is never given up |
| Paths.DemotedIff | crates/skiff-node/src/engine.rs:1752-1778 | a probe under Auto gives a direct path up iff a PONG was seen and none for 30 s |
| Paths.PinOutlivesPolicy | crates/skiff-node/src/engine.rs:1281-1289 | a silent peer pinned to direct UDP stays there after the return to Auto |
| Paths.HalfOpenTcpStays | crates/skiff-node/src/engine.rs:391-409 | under Auto a TCP connection that carries no PONG keeps its peer on direct TCP for good |
| Paths.DirectWithoutPongIff | crates/skiff-node/src/engine.rs:1745-1751 | over every run and through every change of policy, a path is direct without a PONG iff none came and a direct pin or an allowed TCP connection was not followed by a relay pin |
| Paths.SilentPathGivenUpIff | crates/skiff-node/src/engine.rs:1745-1778 | over every such run the next probe gives a direct path up iff the policy is Auto and the last PONG of the run is over 30 s old |
| Paths.DirectPongRestoresOrder | crates/skiff-node/src/engine.rs:454-463 | one direct PONG under Auto restores the invariant from any state |
| RegisterGuard.RegisterGuard.AdmitNonce | crates/skiff-server/src/relay/register_guard.rs:26-43 | a nonce is refused while remembered, and remembered when admitted |
| RegisterGuard.RegisterGuard.SweepExpired | crates/skiff-server/src/relay/register_guard.rs:47-50 | sweeping keeps exactly the live entries |
| RegisterGuard.MemoryIsRecentUses | crates/skiff-server/src/relay/register_guard.rs:9-50 | over any run with sweeps, a nonce is remembered iff it was admitted in the last ten minutes |
| RegisterGuard.AdmittedIffNotRecent | crates/skiff-server/src/relay/register_guard.rs:25-50 | a nonce is admitted iff it was not admitted in the last ten minutes, whenever sweeps took place |
| UdpRelay.UdpRelay.KeyOf | crates/skiff-server/src/relay/udp_relay.rs:86-120 | key cache, miss cache and lookup |
| UdpRelay.UdpRelay.OnPacket | crates/skiff-server/src/relay/udp_relay.rs:154-245 | state and answer of the relay for every packet |
| UdpRelay.UdpRelay.OnRegister | crates/skiff-server/src/relay/udp_relay.rs:160-203 | authentication, nonce check and registration |
| UdpRelay.UdpRelay.OnRelay | crates/skiff-server/src/relay/udp_relay.rs:204-241 | source check, renewal and forwarding |
| UdpRelay.UdpRelay.SweepExpired | crates/skiff-server/src/relay/udp_relay.rs:131-134 | what the sweeper keeps |
| RelayLaws.ForwardedIff | crates/skiff-server/src/relay/udp_relay.rs:204-241 | a frame is forwarded iff it comes from where its live source last registered, its destination is live and the socket takes it; it goes unchanged to where the destination last registered |
| RelayLiveness.RegistrationsAreRenewals | crates/skiff-server/src/relay/udp_relay.rs:160-226 | over any run a registration is there since its last renewal, by an admitted REGISTER or an accepted RELAY, and ends 60 s after it |
| RelayLiveness.AliveIff | crates/skiff-server/src/relay/udp_relay.rs:204-226 | a device is alive iff its last renewal is at most 60 s back |
| RelayLiveness.ForwardedWhileAlive | crates/skiff-server/src/relay/udp_relay.rs:204-241 | over any run a frame is forwarded iff source and destination were renewed within 60 s, it comes from where its source last registered, and the socket takes it |
| RelayLiveness.RelayIs | crates/skiff-server/src/relay/udp_relay.rs:204-241 | what a RELAY does to the registrations |
| RelayLaws.RegisterIs | crates/skiff-server/src/relay/udp_relay.rs:160-203 | what a REGISTER does and how it is answered |
| RelayLaws.KeyLookupIs | crates/skiff-server/src/relay/udp_relay.rs:86-120 | a cached key, else a recent miss, else the devices table, and what is remembered |
| RelayLaws.SweptIs | crates/skiff-server/src/relay/udp_relay.rs:131-134 | what sweeping and forgetting a device leave |
| RelayLaws.OtherPackets | crates/skiff-server/src/relay/udp_relay.rs:154-245 | what cannot be parsed is counted as dropped, the rest ignored |
| RelayLaws.RelayCountsOnce | crates/skiff-server/src/relay/udp_relay.rs:211-240 | every RELAY is counted once, as forwarded or dropped |
| RelayLaws.EndpointMovesOnlyBy | crates/skiff-server/src/relay/udp_relay.rs:160-197 | an endpoint moves only by an authentic REGISTER with a fresh nonce, to its sender, under a key of the last five minutes |
| RelayLaws.AdmittedIff | crates/skiff-server/src/relay/udp_relay.rs:183-189 | an authentic REGISTER is admitted iff its nonce was not admitted in the last ten minutes by either relay |
| RelayLaws.KeysAreRecent | crates/skiff-server/src/relay/udp_relay.rs:86-120 | cached keys are at most five minutes old, cached misses at most ten seconds |
| RelayLaws.RegistrationSweepsAreInvisible | crates/skiff-server/src/relay/udp_relay.rs:123-137 | packets strictly later than the sweeps of registrations, keys and nonces get the same answers as without sweeping |
| RelayLaws.SweepsAreInvisible | crates/skiff-server/src/relay/udp_relay.rs:123-137 | the same for all four tables, as long as no lookup of an unknown device finds the unswept cache full and the swept one not |
| RelayLaws.SweepsVisibleIff | crates/skiff-server/src/relay/udp_relay.rs:86-137 | sweeping shows in the answer to some next packet iff there was such a lookup |
| RelayLaws.FullCacheShows | crates/skiff-server/src/relay/udp_relay.rs:86-137 | a run from the empty relay in which sweeping shows |
| CivilDate.DayRoundTrip | crates/skiff-core/src/logging.rs:36-47 | every day number gives a valid date and comes back from it |
| CivilDate.DateRoundTrip | crates/skiff-core/src/logging.rs:178-186 | every valid date gives a day number and comes back from it |
| CivilDate.DaysFollowCalendar | crates/skiff-core/src/logging.rs:36-47 | consecutive day numbers are consecutive days of the Gregorian calendar |
| CivilDate.Epoch | crates/skiff-core/src/logging.rs:36-47 | day 0 is 1 January 1970 |
| CivilDate.DateOrder | crates/skiff-core/src/logging.rs:36-47 | later days have later dates |
| Logging.DateTextParses | crates/skiff-core/src/logging.rs:25-34 | the date text of a day parses back to its date |
| Logging.RetentionRule | crates/skiff-core/src/logging.rs:113-141 | a file of day D is removed on day T iff T - D exceeds the days to keep and the year has four digits |
| Logging.RemovedIff | crates/skiff-core/src/logging.rs:119-141 | a name is removed iff it is the stem, a dot, eight digits of a date before the cutoff, and `.log` |
| Logging.ParseDateIs | crates/skiff-core/src/logging.rs:129-138 | year, month and day are the first four, the next two and the last two digits |
| Logging.PanicsExactlyOn | crates/skiff-core/src/logging.rs:122-183 | cleanup panics exactly on the stem followed by a bare `.log` and, with overflow checks, on day 00 of month 03 |
| Logging.RollingFileLogger.CleanupOld | crates/skiff-core/src/logging.rs:96-143 | the loop removes exactly the files judged too old, unless it panics |
| Logging.RollingFileLogger.WriteLine | crates/skiff-core/src/logging.rs:146-171 | roll-over, cleanup and append; the current file survives its own cleanup |

## Left out

- Sockets, tasks, TLS, WebSockets, the HTTP router, SQL text, JSON, the command line, service installation, firewall tools, TUN, secret storage and the web console.
- Real cryptography: key derivation, XChaCha20-Poly1305 and HMAC are the ideal functions described above.
- Interleavings inside one synchronous section on several threads, and the single-flight refresh of peers.
- Counters that could only overflow after 2^64 frames: `seen_total` and the totals of seen frames, the relay counters and the send counter (`Wire.PacketCodec.Seal` requires room for one more).
- FrameLaws.HandleFrameFinds: the search over codecs is a recursion on session values, not a loop over shared codec objects; aliasing of codecs is not captured.
- FlowManager.Manager.Receive: whether the handle of an own UDP flow has room, the network an address and the socket can be bound are arguments; a service address that does not parse falls back to the loopback address and is kept as text here. The repetition of OPEN every 700 ms, the reader and writer loops of a flow and the replies of a local socket are steps that happen at arbitrary times.
- FlowLaws.FlowIsPrefix: it speaks of one entry on each side, and of DATA under its number that comes from the sender; the program does not compare network and peer, and `FlowOrigins` says what other DATA does. After local teardown a write carries sequence number 0 and is not covered; for a new entry under a used number, `FlowOpening.EntryDeliversPrefix` takes as its sender the one whose messages arrive while the entry is there.
- TcpFraming.FrameReassembler.Feed: whole frames in front of an oversized one in the same call are not delivered, as in the program.
- SettingsProtocol.AppliedRevisionRuns: a field changed to unmanaged does not ask for a restart, so the worker may run with a value the content no longer names.
- SettingsProtocol.RolledBackOnce: nothing says that a rolled-back revision was tried, since the failing worker fetches the settings again before it reports.
- SettingsNode.Engine.ApplyRuntimeSettings: the fields that apply without restart (policies, exposed services) are one opaque value here; their effect on paths is in `Paths`.
- MembershipLaws.AddressesStayDistinct: an address change uses the block its handler has read, which is assumed to be the network's while the network exists.
- Membership: names of networks and devices, public keys, token texts and fingerprints, last-seen times, and the resolution of a network by name.
- Paths.PeerSession.OnFrame: answers to PINGs, round-trip times and traffic counters are not modelled.
- Paths.RoutingObeysPolicy: the queue behind relay TCP is not modelled beyond the flag that allows the fallback to UDP; a stopping engine sends nothing, and a send that fails on an open connection drops the frame.
- UdpRelay.UdpRelay.SweepExpired: the sweeper reads the clock once for all four tables; the program reads it again for the nonces.
- Logging.RollingFileLogger.WriteLine: failures of the file system and names that are not Unicode.
- TCP relay connections, presence, back-off, heartbeat pacing, rates and loss per mille would add only easy members.
