# Verified models of the zerotx control path

This project models, in Dafny, the parts of zerotx that carry its safety and data-integrity
claims, and proves what they guarantee over every input and every run.

- **RP2040 safety link** (`firmware/crsf/src`): COBS and CRC-16 framing, the CRSF packer and parser,
  the five-phase link and failsafe machine, the arm override, the debounced inputs, and the main loop
  that ties them together. `MainLoop.Rp2040` is the loop as an object over the modules' own objects;
  each method is proved against a step function (`Firmware.Step`), and `Runs`, `Failsafe` and
  `Provenance` prove what holds over whole runs, from the bytes that enter the chip to the bytes that
  leave it.
- **Its counterparts**: the bench client, the daemon's parser and link (Go), the tracker's second CRSF
  parser, and the daemon's tee that undoes the firmware's stripping. The copies are proved to agree, and
  what one end writes is proved to be what the other end acts on.
- **IO board pin map** (`firmware/io/src`): the persisted, CRC-protected EEPROM record with its staging,
  reset and boot rules, the text protocol in front of it, and the host-side configurator, end to end.
- **Run-level machines**: flight-event detector, quadrature encoder, antenna pointing, mode intervals,
  and the concurrent, resumable tile downloader.

## Reading order

`Bytes`, `Bits`, `Crc`, `CrcErrors` hold bytes and checksums; `Cobs`, `Ipc`, `IpcErrors`, `IpcClient` the framed link;
`Vectors` known answers for both; `CrsfPack`, `CrsfRx`, `CrsfTee` the radio side; `Link`, `Inputs`, `Panel`, `Failsafe`, `Provenance`,
`Firmware`, `MainLoop`, `Runs` the firmware; `PiLink` the Pi's end, `Steering` and `Reports` both ends
together; `Hal`, `Text`, `HalNames`, `HalProtocol`, `HalCommands`, `MapQuery`,
`Configurator` the IO board; `Encoder`, `Pointing`, `Aiming`, `FlightEvents`, `FlightLog`, `FlightTruth`,
`ModeIntervals`,
`TileGrid`, `TileRun`, `TileAccount`, `RateControl` the rest.

## Modelling conventions

Bytes and words are integers with their ranges; CRCs are concrete, on bits. Counters of type `uint8_t`
wrap at 256. Time is an unbounded count of microseconds since power-on that never runs backwards, and
`d` bounds the gap between two loop iterations. UART, USB and GPIO are inputs of an iteration: the bytes
ready and the levels read. Floats of the tracker, volts and rates are reals.

## Where code and expectation differ

The models follow the code. The following are theorems, not remarks:

- The stored CRC-16 is little-endian, so the difference 0x89 in the last payload byte followed by 0xA1 in
  the first CRC byte goes undetected; it is the only neighbouring two-byte error that does
  (`IpcErrors.NeighbourErrors`). The EEPROM record of the pin map has the same blind spot, in its last flag
  byte (`Hal.NeighbourDecay`).
- `state.h:18` says intents are ignored in FAILSAFE; `main.c:98-100` stores them and the link returns to OK
  (`Failsafe.BeatRestoresLink`).
- Not every arm-key event was read throughout 20 ms: the boot announcement may come from a single poll
  (`Inputs.BootEventNeedsNoWindow`; exactly which events were, `Inputs.HeldExactly`).
- The boot announcement need not be an edge, yet it runs through the override, so a key that was down all
  along can trigger a disarm write although nothing moved (`Runs.BootKeyOverwritesIntent`; exactly when,
  `Runs.UnmovedKeyDisarms` and `Runs.DisarmWithoutEdge`). It happens once: if the throttle slot is not low
  in the first iteration 20 ms after power-on, as in the boot buffer, no later intent is touched.
- The boot buffer parks slot 2 as throttle while the default override reads slot 0
  (`Provenance.BootOverrideRefused`).
- COBS decoding is not injective: a full block at the end may be followed by an optional empty one
  (`Cobs.FullBlockTwoWays`), and among packets without a zero byte that is all (`Cobs.DecodeAlike`,
  `Cobs.EncodeDecode`).
- Whatever is staged after a reset and before the reboot is lost (`Hal.ResetWins`).
- The configurator's success message is right only for entries it planned a change for or that the boot
  keeps as they were live; a stale staged value, or a default after `SET hal reset-defaults`, goes live
  unnoticed (`Configurator.StaleStagingMisleads`, `Configurator.WipeMisleads`; exactly when,
  `Configurator.ApplyAfterStaleStaging`).
- An odd number of two-bit jumps shifts the encoder's bookkeeping by half a turn (`Encoder.PhaseKept`).
- Below one request a second, the downloader's backoff raises the rate, for good
  (`RateControl.RateKeepsTarget`, `RateControl.RunRecovers`).
- For a box that ends more than one tile short of the west or the north edge of the map the downloader
  announces a wrong total, a negative one for instance (`TileGrid.NegativeTotal`; exactly when,
  `TileGrid.TotalOfBox`).

## Model

| member | source | states |
|---|---|---|
| Crc.ComputeCrc16 | firmware/crsf/src/ipc.c:13-22 | the bit loop computes the CRC-16 register fold that the error theorems are about |
| Crc.BurstChangesCrc16 | firmware/crsf/src/ipc.c:97-103 | a change confined to two neighbouring message bytes, with anything before and behind it, always changes the CRC-16 |
| Crc.LastByteBlindSpot | firmware/crsf/src/ipc.c:97-103 | a change of the last message byte leaves the high CRC byte alone exactly for the difference 0x89, and then moves the low byte by 0xA1 |
| Crc.ComputeCrc8Bitwise | firmware/tracker/src/main.cpp:135-144 | the bitwise loop (tracker, tee) computes the DVB-S2 CRC-8 |
| Crc.Crc8Table.Compute | firmware/crsf/src/crsf.c:20-36 | one table lookup a byte, with the table built on first use, gives the bitwise CRC-8 of every input |
| Crc.Crc8Table.Init | firmware/crsf/src/crsf.c:20-29 | the table built in place is the table of eight-turn remainders |
| Cobs.CobsEncode | firmware/crsf/src/ipc.c:61-85 | fails exactly when the buffer is too small for input plus two or for the encoding; otherwise leaves the encoding in the buffer |
| Cobs.CobsDecode | firmware/crsf/src/ipc.c:42-58 | fails exactly on a zero or overlong code byte, empty input or a decoded text larger than the buffer; otherwise leaves the decoded text |
| Cobs.DecodeEncode | firmware/crsf/src/ipc.c:42-85 | decoding the encoding gives the input back, for inputs of any length |
| Cobs.EncodeShape | firmware/crsf/src/ipc.c:61-85 | the encoding holds no zero and is at most n + 1 + n/254 bytes long, so 262 bytes always fit the firmware's buffers |
| Cobs.DecodedFromLength | firmware/crsf/src/ipc.c:42-58 | how long an encoding of given decoded length can be, for any decodable input, not just canonical ones |
| Cobs.EncodeDecode | firmware/crsf/src/ipc.c:42-85 | encoding undoes decoding of every decodable packet without a zero byte, except that a full last block gets an empty one behind it |
| Cobs.DecodeAlike | firmware/crsf/src/ipc.c:42-58 | exactly which two packets without a zero byte decode alike: the same one, or one that ends in a full block and the same with an empty block behind it |
| Cobs.FullBlockTwoWays | firmware/crsf/src/ipc.c:42-58 | the input: any 254 non-zero bytes behind a code of 255 decode alike with and without the trailing 1 |
| Cobs.GoEncode | tools/zerotx-bench/ipc_client.go:56-79 | the growing-slice encoder produces byte for byte the same encoding as the firmware's array encoder |
| Cobs.GoDecode | tools/zerotx-bench/ipc_client.go:81-104 | the growing-slice decoder accepts and returns the same as the firmware's, but for the buffer bound |
| Ipc.ParseInvertsRaw | firmware/crsf/src/ipc.c:97-113 | a decoded text parses to a frame if and only if it is that frame's header, payload and little-endian CRC |
| Ipc.Receiver.Feed | firmware/crsf/src/ipc.c:87-116 | one byte: the parser's new state, and the delivered frame if and only if a delimiter completes a valid, not overrun packet |
| Ipc.DaemonParser.Feed | pi/daemon/internal/ipc/parser.go:30-67 | the daemon's chunk-wise parser follows the same state machine with an unbounded decode buffer; its error is set exactly if some packet of the chunk was complete, not overrun, and not a frame |
| Ipc.GoParse | pi/daemon/internal/ipc/framing.go:107-125 | the Go frame parser computes the shared parse function |
| Ipc.GoBuild | pi/daemon/internal/ipc/framing.go:89-104 | the Go frame builder produces the firmware's wire bytes, and refuses payloads over 256 bytes |
| Ipc.Sender.Send | firmware/crsf/src/ipc.c:118-140 | success exactly with a writer and at most 256 payload bytes; then the wire grows by the frame's encoding and delimiter, else by nothing |
| Ipc.FeedAppend | firmware/crsf/src/ipc.c:87-116 | feeding in two parts is feeding the whole: how the stream is cut plays no part |
| Ipc.StreamDelivery | firmware/crsf/src/ipc.c:87-140 | from any parser state, after any garbage and one zero byte, the sent frames are delivered exactly, in order, and the parser ends empty |
| CrcErrors.NeighbourChecks | firmware/crsf/src/ipc.c:97-103 | the checksum test on any message passes again after a change of two neighbouring bytes if and only if nothing changed or it is the 0x89/0xA1 pair across the boundary of message and checksum |
| IpcErrors.NeighbourErrors | firmware/crsf/src/ipc.c:97-103 | replacing two neighbouring bytes of an accepted frame is accepted again if and only if nothing changed or it is the 0x89/0xA1 pair across the body/CRC boundary of a frame with a payload |
| IpcErrors.SingleByteErrors | firmware/crsf/src/ipc.c:97-103 | every single-byte error of an accepted frame is rejected |
| IpcClient.Client.ReadFrame | tools/zerotx-bench/ipc_client.go:214-236 | reads on past delimiters, short packets, decode and parse errors to the next good frame, and leaves the rest of the stream unread |
| IpcClient.Client.Send | tools/zerotx-bench/ipc_client.go:199-207 | frames with consecutive sequence numbers; an oversized payload is refused and uses none up |
| IpcClient.FirmwareAgrees | tools/zerotx-bench/ipc_client.go:81-147 | packet by packet, the bounded firmware parser delivers what the unbounded client accepts, less payloads over 256 bytes |
| IpcClient.FirmwareAndClientAgree | tools/zerotx-bench/ipc_client.go:214-236 | on every byte stream the firmware delivers exactly the client's frames, less those whose payload is over 256 bytes |
| IpcClient.DaemonAccepts | pi/daemon/internal/ipc/parser.go:30-67 | the daemon delivers exactly what the client accepts, for packets that fit its 265-byte buffer |
| IpcClient.FirmwareImpliesDaemon | pi/daemon/internal/ipc/parser.go:30-67 | whatever packet the firmware accepts the daemon accepts, as the same frame |
| IpcClient.ClientReadsSent | tools/zerotx-bench/ipc_client.go:214-236 | after any garbage and one delimiter the client reads exactly what a conforming sender wrote |
| CrsfPack.Pack11 | firmware/crsf/src/crsf.c:51-63 | the in-place OR loop leaves 22 bytes whose little-endian number is the sum of the masked channels times 2^(11 i); no write leaves the buffer |
| CrsfPack.PackedValue | firmware/crsf/src/crsf.c:51-63 | the packed bytes, read as one number, are the channel sum |
| CrsfPack.UnpackPacked | firmware/crsf/src/crsf.c:51-63 | every channel, masked to 11 bits, can be read back from the 22 bytes |
| CrsfPack.PackRc | firmware/crsf/src/crsf.c:65-72 | the 26-byte frame: address, length 24, type 0x16, packed channels, CRC-8 of type and payload |
| CrsfPack.RcFrameRecognised | firmware/crsf/src/crsf.c:65-72 | an emitted RC frame is a valid CRSF frame: a parser delivers it with its type and all sixteen channels |
| CrsfRx.Receiver.Byte | firmware/crsf/src/crsf.c:118-170 | one byte of the RP2040 parser: new state, and the callback's arguments if the byte completes a frame with a good checksum; buffer indices stay in bounds |
| CrsfRx.Receiver.Poll | firmware/crsf/src/crsf.c:118-170 | a poll drains at most 256 bytes, and delivers what the stream function says, in order |
| CrsfRx.TrackerParser.Byte | firmware/tracker/src/main.cpp:1160-1220 | one byte of the tracker's parser: new state, accepted frame, and the exact counts of frames seen, of bad checksums and of GPS frames |
| CrsfRx.TrackerParser.Batch | firmware/tracker/src/main.cpp:1155-1253 | a batch of the tracker's parser is its bytes one by one; seen less bad frames count the accepted ones, and the GPS counter those of type 2 |
| CrsfRx.ParsersAgree | firmware/tracker/src/main.cpp:1155-1253 | on every byte stream the two parsers stay in step and accept the same frames |
| CrsfRx.CuttingDoesNotMatter | firmware/tracker/src/main.cpp:1155-1253 | the same bytes cut into polls one way and batches another give the same frames in the same order |
| CrsfRx.WireFrameRecognised | firmware/crsf/src/crsf.c:118-170 | a valid wire frame fed to the idle parser is delivered, and leaves the parser idle |
| CrsfRx.BurstsDelivered | firmware/crsf/src/crsf.c:118-170 | valid frames with address-free noise between them are all delivered, in order |
| CrsfRx.GapResets | firmware/crsf/src/crsf.c:118-170 | 63 bytes without an address byte bring the parser back to idle from any state, and at most one frame comes of them |
| CrsfRx.BurstsFromAnywhere | firmware/crsf/src/crsf.c:118-170 | behind such a gap all frames are delivered, in order, from any parser state |
| CrsfRx.DeliveredWasSent | firmware/crsf/src/crsf.c:118-170 | whatever bytes come in, each delivered frame stands in them as a valid frame with its own checksum |
| CrsfTee.BuildFrame | pi/daemon/internal/crsftee/crsftee.go:203-216 | address, length byte, body and CRC-8 of a stripped payload; nil below two bytes |
| CrsfTee.RebuildInvertsStrip | pi/daemon/internal/crsftee/crsftee.go:203-233 | rebuilding a stripped valid wire frame gives exactly its original bytes |
| CrsfTee.StripInvertsRebuild | pi/daemon/internal/crsftee/crsftee.go:203-233 | rebuilding a stripped payload of 2 to 62 bytes gives a valid frame that the idle parser delivers as that payload |
| CrsfTee.TelemetryTunnel | firmware/crsf/src/main.c:44-57 | radio frames through the RP2040 parser (idle, or in any state behind a gap of 63 bytes), IPC, the daemon's parser in any state and the tee come out as the radio's own bytes, in order |
| Vectors.Crc16CheckValue | firmware/crsf/tests/test_ipc.c:79-83 | the CRC-16 of "123456789" is 0x29B1 |
| Vectors.HeartbeatVector | pi/daemon/internal/ipc/framing_test.go:94-112 | heartbeat 42 with payload 0x42 goes out as 04 03 2A 01 04 42 8D FF 00: frame layout, byte orders, checksum and stuffing in numbers |
| Vectors.Crc8KnownValues | pi/daemon/internal/crsftee/crsftee_test.go:12-33 | the CRC-8 of nothing, 0x00, 0xFF and 0x14 is 0x00, 0x00, 0xF9 and 0xAC |
| PiLink.BuildIntent | pi/daemon/internal/ipc/link.go:235-239 | the daemon puts slot i low byte first at bytes 2i and 2i + 1 |
| PiLink.ConfigReadsBack | pi/daemon/internal/ipc/protocol.go:150-183 | parsing an arm configuration undoes building it if both slots are below 16, and else fails |
| PiLink.HelloReadsBack | pi/daemon/internal/ipc/link.go:372-392 | parsing a hello payload undoes building it, up to 252 bytes of version string |
| PiLink.DaemonLink.SendFrame | pi/daemon/internal/ipc/link.go:394-410 | a number is used up by every frame that an open link is asked for, also by one that is too long; the port gets exactly the built frames |
| PiLink.DaemonLink.SendChannelIntent | pi/daemon/internal/ipc/link.go:221-240 | dropped before the handshake, else one intent frame |
| PiLink.DaemonLink.SendArmConfig | pi/daemon/internal/ipc/link.go:256-271 | dropped before the handshake, else one configuration frame |
| PiLink.DaemonLink.Dispatch | pi/daemon/internal/ipc/link.go:141-194 | which callback each received frame leads to, with which bytes, and how hellos are answered |
| PiLink.DaemonLink.RecordHandshakeResult | pi/daemon/internal/ipc/link.go:352-366 | the first matching version opens the gate for good |
| PiLink.GateKept | pi/daemon/internal/ipc/link.go:221-366 | over every run the gate is open if and only if a peer of version 4 has greeted or the wait was given up, and nothing that steers is sent before |
| PiLink.PiNumbers | pi/daemon/internal/ipc/link.go:394-410 | over every run the frames sent carry 0, 1, 2, ... modulo 256, and each fits the link |
| Steering.IntentReadBack | firmware/crsf/src/main.c:87-101 | the RP2040 reads the sixteen words the daemon wrote, each in its slot |
| Steering.IntentOnTheWire | firmware/crsf/src/main.c:87-101 | over whole runs, the sixteen values of the daemon's intent are the sixteen values of every RC frame, slot by slot, until another intent or a key-down |
| Steering.ConfigInForce | firmware/crsf/src/main.c:126-143 | over whole runs, the override works with the last acceptable configuration handled, read as the daemon reads it, or with slots 0 and 4, 200 and 172 |
| Steering.ConfigArrives | pi/daemon/internal/ipc/protocol.go:150-183 | a configuration the daemon sends is that one if its slots are below 16, and else changes nothing |
| Steering.KeyDownOnTheWire | firmware/crsf/src/arm_override.c:63-89 | end to end: the RC frame of an iteration that receives an intent and announces the key down carries the intent, with the configured disarm value in the configured arm slot if and only if the configured throttle slot is at or below its threshold |
| Steering.BootChannelsOnTheWire | firmware/crsf/src/state.c:21-30 | before any intent or configuration every RC frame carries 172 in slots 2 and 4 and 992 elsewhere |
| Reports.HeardIsDispatched | pi/daemon/internal/ipc/link.go:141-194 | the callbacks a list of frames leads to do not depend on the state of the link |
| Reports.RunIsHeard | firmware/crsf/src/main.c:181-257 | over whole runs, the daemon's callbacks are exactly: each radio frame as address, type, payload; each announced key level as input 1, up as 1; each press as input 2; and the numbered heartbeats; in the order of the loop |
| Reports.BeatsApart | firmware/crsf/src/main.c:242-247 | heartbeats to the Pi leave at least 200 ms apart |
| Reports.BeatsKeepUp | firmware/crsf/src/main.c:242-247 | no 200 ms pass without one |
| Reports.TeeFollowsRadio | firmware/crsf/src/main.c:44-57 | however the loop cut the radio's bytes and whatever else it sent, the tee gets exactly the frames in them |
| Reports.TunnelOverRun | firmware/crsf/src/main.c:44-57 | over whole runs, from the radio's bytes to the tee's: valid frames with noise between them come out byte for byte, through the USB wire with log lines on it and the daemon's parser in any state |
| Reports.HellosAnswered | firmware/crsf/src/main.c:103-124 | over whole runs, as many acknowledgements as hellos, each with version 4 |
| Reports.HandshakeCompletes | pi/daemon/internal/ipc/link.go:141-170 | so one hello that gets through opens the daemon's gate |
| Link.LinkState.NoteHeartbeat | firmware/crsf/src/state.c:50-55 | a beat is recorded in every phase and leads from PENDING, HOLD and FAILSAFE to OK |
| Link.LinkState.NoteUsbReady | firmware/crsf/src/state.c:57-60 | USB leads from BOOT to PENDING only |
| Link.LinkState.Tick | firmware/crsf/src/state.c:62-94 | the time-outs: OK to HOLD after 200 ms or a beat at time 0, HOLD to FAILSAFE after 600 ms |
| Link.LinkState.SetChannels | firmware/crsf/src/state.c:32-34 | replaces all sixteen slots and nothing else |
| Link.LinkState.Set | firmware/crsf/src/state.c:36-39 | writes one slot; an out-of-range index writes nothing |
| Link.LinkState.ShouldEmit | firmware/crsf/src/state.c:98-101 | emission in OK and HOLD only |
| Link.ArmOverride.SetConfig | firmware/crsf/src/arm_override.c:43-61 | accepts exactly in-range slots; a refused configuration changes nothing |
| Link.ArmOverride.OnArmKeyEdge | firmware/crsf/src/arm_override.c:63-89 | writes the disarm value into the arm slot exactly on a key-down with low throttle; every other slot and all link state stay |
| Failsafe.EmissionIsRecent | firmware/crsf/src/state.c:62-101 | over every run with loop gaps of at most d: an RC frame leaves only within 800 ms + d of the last heartbeat or intent, and only if USB was up by then |
| Failsafe.FailsafeEntry | firmware/crsf/src/state.c:62-94 | FAILSAFE is entered more than 800 ms after the last beat (unless that beat was at time 0), and at most 800 ms + 2d after it |
| Failsafe.SilenceReachesFailsafe | firmware/crsf/src/state.c:62-94 | without beats for more than 800 ms + d the link is in FAILSAFE and emits nothing |
| Failsafe.PhaseTells | firmware/crsf/src/state.c:62-94 | OK means a beat within 200 ms, HOLD that the last one is older |
| Failsafe.NeverBack | firmware/crsf/src/state.c:50-94 | once out of PENDING the link never returns to BOOT or PENDING |
| Failsafe.BeatRestoresLink | firmware/crsf/src/state.c:50-55 | one beat at a nonzero time after BOOT leads to OK, out of FAILSAFE too |
| Failsafe.EmissionsApart | firmware/crsf/src/main.c:231-240 | any two RC frames leave at least 20 ms apart |
| Failsafe.EmissionsKeepUp | firmware/crsf/src/main.c:231-240 | while the link is in OK or HOLD no 20 ms pass without an RC frame |
| Provenance.SlotProvenance | firmware/crsf/src/arm_override.c:63-89 | each slot holds what the last intent or fired override wrote there, or its boot value |
| Provenance.EmittedProvenance | firmware/crsf/src/main.c:231-240 | each channel unpacked from an emitted frame is the masked last write to its slot, or the boot value |
| Provenance.DisarmPersists | firmware/crsf/src/arm_override.c:63-89 | after a fired override the arm slot of later frames carries the disarm value until something else writes that slot |
| Provenance.DisarmReachesTheWire | firmware/crsf/src/arm_override.c:63-89 | a fired override shows in a frame within 20 ms plus one gap while the link is up |
| Provenance.BootOverrideRefused | firmware/crsf/src/arm_override.c:28-33 | the boot buffer parks slot 2 while the default override reads slot 0: before any intent or configuration no override fires |
| Inputs.HeldExactly | firmware/crsf/src/input_arm.c:37-75 | an arm-key event was read by every poll of a window of at least 20 ms if and only if the key has not read as at power-on ever since, or its first poll lies 20 ms back |
| Inputs.BootEventNeedsNoWindow | firmware/crsf/src/input_arm.c:47-59 | the input where no window was held: a run of one poll, 20 ms or later after power-on |
| Inputs.UnmovedEvent | firmware/crsf/src/input_arm.c:47-66 | after any polls, a key that has not moved is announced at a poll if and only if that is the first one 20 ms or more after power-on |
| Inputs.EdgeExactly | firmware/crsf/src/input_arm.c:61-75 | an event is an edge of the settled level if and only if an event came before or it tells another level than power-on |
| Inputs.ArmEventsAlternate | firmware/crsf/src/input_arm.c:37-75 | consecutive arm-key events alternate, are 20 ms apart, and the later one was held |
| Inputs.ArmEventsApart | firmware/crsf/src/input_arm.c:37-75 | any two arm-key events are at least 20 ms apart |
| Inputs.HeldIsAnnounced | firmware/crsf/src/input_arm.c:37-75 | a level read throughout 20 ms is the announced one at its end |
| Inputs.PressEventHeld | firmware/crsf/src/input_momentary.c:34-69 | a press is reported only after every poll of 20 ms has read pressed |
| Inputs.PressesApart | firmware/crsf/src/input_momentary.c:34-69 | a release settles between two presses, so they are at least 40 ms apart |
| Panel.InputArm.Poll | firmware/crsf/src/input_arm.c:37-75 | the polled debouncer: state, override before the event, one numbered frame exactly when it fires |
| Panel.InputMomentary.Poll | firmware/crsf/src/input_momentary.c:34-69 | the momentary twin: releases settle silently |
| Firmware.NumberedAppend | firmware/crsf/src/main.c:38-81 | numbering two lists one after the other is numbering their concatenation, across the wrap at 256 |
| Firmware.HandleSnoc | firmware/crsf/src/main.c:83-149 | handling frames as they complete is the batch form: state first, replies in order |
| Firmware.StagesTogether | firmware/crsf/src/main.c:190-227 | all stages of an iteration add up to its events in order and its messages numbered in one go |
| CrsfRx.TelemetryFits | firmware/crsf/src/main.c:47-50 | a relayed payload always fits the 64-byte buffer: the guarded return is dead code |
| MainLoop.DecodeIntent | firmware/crsf/src/main.c:93-97 | sixteen little-endian words |
| MainLoop.Rp2040.constructor | firmware/crsf/src/main.c:160-178 | the machine at power-on |
| MainLoop.Rp2040.Handle | firmware/crsf/src/main.c:83-149 | one IPC frame: exact new link, channels and override, and a numbered acknowledgement exactly for a hello |
| MainLoop.Rp2040.Receive | firmware/crsf/src/main.c:203-211 | at most 256 ready bytes go through the parser, each completed frame is handled at once |
| MainLoop.Rp2040.OnTelemetry | firmware/crsf/src/main.c:44-57 | one numbered telemetry frame with address, type and payload |
| MainLoop.Rp2040.PollRadio | firmware/crsf/src/main.c:213-216 | every frame the CRSF parser delivers is relayed, in order |
| MainLoop.Rp2040.PollPanel | firmware/crsf/src/main.c:218-227 | arm key first, momentary button second, sharing the sequence numbers |
| MainLoop.Rp2040.Emit | firmware/crsf/src/main.c:231-240 | one RC frame of the current channels exactly when the phase permits and 20 ms have passed |
| MainLoop.Rp2040.Beat | firmware/crsf/src/main.c:242-247 | the heartbeat every 200 ms with its own numbers |
| MainLoop.Rp2040.Loop | firmware/crsf/src/main.c:181-257 | one iteration over all modules is one step of the machine: exact new state, exact USB frames and exact UART bytes, and the wire stays in sync |
| Runs.HandledFromStream | firmware/crsf/src/main.c:203-211 | over whole runs, the frames handled depend on the byte stream alone, not on how iterations cut it |
| Runs.CommandsArrive | firmware/crsf/src/main.c:203-211 | after any garbage and one delimiter the firmware handles exactly the frames the Pi sends |
| Runs.MessageNumbers | firmware/crsf/src/main.c:38-81 | over every run all IPC frames but heartbeats and log lines carry 0, 1, 2, ... modulo 256 without gap, whichever module sends them |
| Runs.MessageNumber | firmware/crsf/src/main.c:38-81 | the k-th such frame of a run carries k modulo 256 |
| Runs.BeatNumbers | firmware/crsf/src/main.c:242-247 | heartbeats are numbered 0, 1, 2, ... on their own and carry their number |
| Runs.AllSendable | firmware/crsf/src/main.c:44-81 | no frame the firmware builds is ever refused by ipc_send |
| Runs.PiReadsTheRun | firmware/crsf/src/main.c:151-260 | the daemon's parser, from any state after garbage and a delimiter and with log frames anywhere in between, gets exactly what a run sent, as one gapless list of messages |
| Runs.KeyEventsAreDebounced | firmware/crsf/src/main.c:218-227 | the loop announces a key or press exactly when the debouncer's history calls for it |
| Runs.KeyEventsApart | firmware/crsf/src/input_arm.c:37-75 | two key announcements, and so two chances of an override, are 20 ms apart |
| Runs.PressEventsApart | firmware/crsf/src/input_momentary.c:34-69 | two press announcements are 40 ms apart |
| Runs.BootAnnouncesUnmovedKey | firmware/crsf/src/input_arm.c:47-66 | over whole runs, an unmoved key is announced, and run through the override, in the first iteration 20 ms or more after power-on, and in no other |
| Runs.WireOutIsEmission | firmware/crsf/src/main.c:231-240 | what an iteration writes to the UART is exactly the packed buffer of that turn |
| Runs.NoFrameWithoutPi | firmware/crsf/src/main.c:181-240 | from bytes to bytes: an RC frame leaves only within 800 ms plus one gap of an iteration that decoded a heartbeat or intent |
| Runs.FramesApart | firmware/crsf/src/main.c:231-240 | RC frames on the UART are 20 ms apart |
| Runs.DisarmOnTheWire | firmware/crsf/src/arm_override.c:63-89 | key down at low throttle: from that iteration on every RC frame carries the disarm value in the arm slot until an intent or another key-down |
| Runs.UnmovedKeyDisarms | firmware/crsf/src/arm_override.c:63-89 | over whole runs, a key down since power-on triggers a disarm write in an iteration if and only if that is the first one 20 ms or more after power-on and the throttle slot is low then |
| Runs.DisarmWithoutEdge | firmware/crsf/src/arm_override.c:63-89 | over whole runs, a disarm write comes without an edge of the settled key level if and only if the key was down at power-on and has not been announced before |
| Runs.BootKeyOverwritesIntent | firmware/crsf/src/input_arm.c:47-67 | the input: key down since power-on, a first iteration 20 ms or more later that receives an intent with low throttle; its frame carries that intent with the arm slot overwritten |
| Hal.LoadInvertsRecord | firmware/io/src/hal.cpp:176-239 | an image loads as a map if and only if it starts with that map's record and the map is legal |
| Hal.DefaultsOk | firmware/io/src/hal.cpp:61-109 | the compiled defaults are legal and use no pin twice |
| Hal.RunImplements | firmware/io/src/hal.cpp:183-326 | from any EEPROM contents, through every sequence of commands and reboots, the bytes follow a plain live/staged map |
| Hal.StagedAtNextBoot | firmware/io/src/hal.cpp:297-316 | staging leaves the live map alone; the next boot loads the last accepted value of each entry and keeps the others |
| Hal.ResetWins | firmware/io/src/hal.cpp:318-326 | a reset before the next boot boots the defaults and leaves their valid record, losing whatever was staged after it |
| Hal.AlwaysLegal | firmware/io/src/hal.cpp:183-326 | live pins are always within 2..69, and EEPROM past the record is never touched |
| Hal.CutStaging | firmware/io/src/hal.cpp:183-190 | a power cut anywhere in a staging write boots the old map, the new map or the defaults |
| Hal.NeighbourDecay | firmware/io/src/hal.cpp:207-239 | two changed neighbouring bytes anywhere in the record go unnoticed if and only if they are the 0x89/0xA1 pair in the last flag byte and the byte behind it; then exactly that flag byte differs |
| Hal.DecayDetected | firmware/io/src/hal.cpp:207-239 | one changed byte anywhere in the record is always noticed at boot |
| Hal.PinHal.WriteBufToEeprom | firmware/io/src/hal.cpp:183-190 | payload and little-endian CRC, and nothing else, are written |
| Hal.PinHal.TryLoadFromEeprom | firmware/io/src/hal.cpp:207-239 | succeeds exactly for a valid record, and then the arrays hold it; else they are untouched |
| Hal.PinHal.Boot | firmware/io/src/hal.cpp:243-252 | the map of the record, or the defaults written back |
| Hal.PinHal.Pin | firmware/io/src/hal.cpp:254-257 | the live pin, 0xFF for an id that does not exist |
| Hal.PinHal.Flags | firmware/io/src/hal.cpp:259-262 | the live flags, 0 for an id that does not exist |
| Hal.PinHal.DoStagePin | firmware/io/src/hal.cpp:297-306 | accepts exactly legal ids and pins 2..69; EEPROM changes, live map does not |
| Hal.PinHal.DoStageFlags | firmware/io/src/hal.cpp:308-316 | accepts exactly legal ids; EEPROM changes, live map does not |
| Hal.PinHal.DoResetDefaults | firmware/io/src/hal.cpp:318-326 | exactly the record's bytes become 0xFF |
| HalNames.NamesDiffer | firmware/io/src/hal.cpp:112-155 | no two entries share a protocol name |
| HalNames.PinIdByName | firmware/io/src/hal.cpp:273-282 | the linear search finds the entry with that name, or none |
| Text.NumeralReadsBack | firmware/io/src/subsystems/hal_subsystem.cpp:58-64 | a printed number consists of digits and has its value |
| Text.ScanNumeral | tools/zerotx-iohal-config/main.go:287-291 | Sscanf of a printed byte gives the byte back |
| Text.ScanHex2 | tools/zerotx-iohal-config/main.go:292-295 | Sscanf of 0x and two hex digits gives the byte back |
| Text.WordsOfJoined | firmware/io/src/protocol.cpp:53-76 | splitting words joined by spaces gives the words back, for the firmware's tokenizer and for strings.Fields |
| HalProtocol.HalSubsystem.EmitMap | firmware/io/src/subsystems/hal_subsystem.cpp:46-66 | a header and one line an entry, of the live map |
| HalProtocol.HalSubsystem.SetPinCommand | firmware/io/src/subsystems/hal_subsystem.cpp:75-106 | every refusal with its own error line and no change, else the staging and its reply |
| HalProtocol.HalSubsystem.SetFlagCommand | firmware/io/src/subsystems/hal_subsystem.cpp:108-148 | likewise for flags, with hexadecimal, binary and decimal masks |
| HalProtocol.HalSubsystem.HandleCommand | firmware/io/src/subsystems/hal_subsystem.cpp:12-44 | one command: exact new board and exact lines |
| HalProtocol.LinesFit | firmware/io/src/subsystems/hal_subsystem.cpp:46-66 | no printed line is cut off by its 64-byte buffer |
| HalProtocol.PinCommandServed | firmware/io/src/subsystems/hal_subsystem.cpp:75-106 | the printed SET hal pin is tokenised, looked up and scanned back into the staging it asks for |
| HalProtocol.FlagCommandServed | firmware/io/src/subsystems/hal_subsystem.cpp:108-148 | likewise for SET hal flag |
| HalCommands.ResetCommandWins | firmware/io/src/subsystems/hal_subsystem.cpp:150-160 | for every board: SET hal reset-defaults, then any commands but a reboot, then SET hal reboot leaves the defaults live and their valid record stored |
| HalCommands.PinCommandTakesEffect | firmware/io/src/subsystems/hal_subsystem.cpp:75-107 | the printed SET hal pin changes nothing until the reboot, and then exactly that entry, if and only if the number is in 2..69 |
| HalCommands.FlagCommandTakesEffect | firmware/io/src/subsystems/hal_subsystem.cpp:108-149 | likewise for flags, with any byte |
| HalCommands.RefusalChangesNothing | firmware/io/src/subsystems/hal_subsystem.cpp:68-165 | whatever the words, a reply that begins with "!" means that nothing has changed |
| HalCommands.SourceTold | firmware/io/src/subsystems/hal_subsystem.cpp:36-41 | GET hal source tells whether the live map came from the EEPROM or is the defaults |
| HalCommands.HexMask | firmware/io/src/subsystems/hal_subsystem.cpp:108-138 | a flag mask of 0x and two hexadecimal digits has their value |
| HalCommands.BinaryMask | firmware/io/src/subsystems/hal_subsystem.cpp:108-138 | a flag mask of 0b and binary digits has their value |
| HalCommands.DecimalMask | firmware/io/src/subsystems/hal_subsystem.cpp:108-138 | a flag mask of decimal digits has their value |
| HalCommands.DefaultTable | firmware/io/src/hal.cpp:61-109 | the 42 default pins in numbers, and no flags |
| HalCommands.NameTable | firmware/io/src/hal.cpp:112-155 | the names in letters |
| HalCommands.RecordLayout | firmware/io/src/hal.cpp:178-205 | the record byte by byte: magic, version, count, pins and flags by turns, checksum low byte first |
| HalCommands.MapFormat | firmware/io/src/subsystems/hal_subsystem.cpp:46-66 | the lines of the map, word by word |
| MapQuery.ReadMap | tools/zerotx-iohal-config/main.go:201-229 | the callback loop over arriving lines computes the listening function |
| MapQuery.EntryReadsBack | tools/zerotx-iohal-config/main.go:280-299 | one printed entry is parsed back as that entry |
| MapQuery.MapReadsBack | tools/zerotx-iohal-config/main.go:245-307 | queryMap collects exactly the map and source that emitMap printed, with any events or boot messages in between |
| Configurator.PlanStages | tools/zerotx-iohal-config/main.go:426-445 | the planned changes, pushed, stage exactly the configured flags and legal configured pins, and nothing else |
| Configurator.MakePlan | tools/zerotx-iohal-config/main.go:426-445 | the change list in entry order |
| Configurator.HasUnknown | tools/zerotx-iohal-config/main.go:410-415 | the check for names the board does not have |
| Configurator.CountBad | tools/zerotx-iohal-config/main.go:498-515 | no mismatch is counted if and only if every change shows in the queried map |
| Configurator.VerifiedIffLegal | tools/zerotx-iohal-config/main.go:498-521 | with nothing staged beforehand the verification succeeds if and only if every configured pin is in 2..69 |
| Configurator.Session.RunApply | tools/zerotx-iohal-config/main.go:400-521 | on a board with anything staged, or wiped: unknown names change nothing; else after the reboot the live map is what the plan makes of the staged one, or the defaults, and success means every planned change shows; with nothing else staged success means that every configured entry agrees and all others are unchanged |
| Configurator.SuccessExactly | tools/zerotx-iohal-config/main.go:498-521 | success is reported if and only if every entry that disagreed before agrees in the map booted |
| Configurator.ApplySound | tools/zerotx-iohal-config/main.go:400-521 | with nothing staged beforehand success means that every configured entry agrees and all others are unchanged, although SET errors are never acted upon |
| Configurator.ApplyAfterStaleStaging | tools/zerotx-iohal-config/main.go:426-521 | with something staged beforehand, or the EEPROM wiped, a reported success means agreement on an entry if and only if it had a planned change or the boot would have kept it as live |
| Configurator.StaleStagingMisleads | tools/zerotx-iohal-config/main.go:426-521 | the input: one entry staged as another value, a second to be changed; success is reported and the first is wrong |
| Configurator.WipeMisleads | tools/zerotx-iohal-config/main.go:426-521 | the input after a wipe: one entry moved as configured, a second configured as its default; success is reported and the first is wrong |
| Encoder.QuadDecoder.Tick | firmware/io/src/subsystems/encoder.cpp:53-71 | one sample; the accumulator stays within -3..3 and at most one event is emitted |
| Encoder.Conservation | firmware/io/src/subsystems/encoder.cpp:23-71 | phase change is accounted for by events, remainder and half a turn for each two-bit jump |
| Encoder.PhaseKept | firmware/io/src/subsystems/encoder.cpp:23-71 | initial phase + 4(cw - ccw) + remainder matches the phase modulo 4 if and only if the number of jumps is even |
| Encoder.ReturnLeavesNothing | firmware/io/src/subsystems/encoder.cpp:23-71 | back at the first state the remainder is 0 if and only if the number of two-bit jumps is even; without jumps bounce nets to zero |
| Encoder.EventsFollowTravel | firmware/io/src/subsystems/encoder.cpp:53-71 | events never lag or lead the motion by a whole detent |
| Pointing.WrapHalf | firmware/tracker/src/main.cpp:583-585 | the normalising loops end and give the angle in -180..180 |
| Pointing.SmoothShrinks | firmware/tracker/src/main.cpp:573-589 | the filtered azimuth stays in [0,360) and its circular distance to the sample shrinks by exactly 0.7 |
| Pointing.Converges | firmware/tracker/src/main.cpp:573-589 | towards a fixed azimuth the error is multiplied by 0.7 with every sample |
| Pointing.ElevationBounded | firmware/tracker/src/main.cpp:581 | the filtered elevation stays between the extremes fed in |
| Pointing.PosePoints | firmware/tracker/src/main.cpp:635-672 | front and rear pose both point at the requested direction at every elevation below 90, with tilt within 0..180 exactly if the elevation is not negative |
| Pointing.PanBounded | firmware/tracker/src/main.cpp:645-672 | pan within 95 degrees at every elevation |
| Aiming.PanReadsBack | firmware/tracker/src/main.cpp:593-600 | a pan angle within reach, read back from its pulse, centre and span, is the requested one to within a microsecond of travel, mirrored if inverted |
| Aiming.TiltReadsBack | firmware/tracker/src/main.cpp:611-621 | likewise for tilt, counted from the lower bound |
| Aiming.PanSaturates | firmware/tracker/src/main.cpp:593-600 | out of reach, the pan pulse stays at the bound on that side |
| Aiming.AimPoints | firmware/tracker/src/main.cpp:635-672 | end to end: the two pulses aim_at sets amount to a pose that points at the azimuth and elevation it was given |
| Aiming.FlipExactly | firmware/tracker/src/main.cpp:648-659 | rear pose beyond 95 degrees off centre, front pose up to 85, else as before; never with the flip disabled |
| Aiming.ElevationShrinks | firmware/tracker/src/main.cpp:581 | the elevation, too, closes 0.3 of the gap with every sample |
| Pointing.ReversalsApart | firmware/tracker/src/main.cpp:648-659 | over every run of fixes, commands and ticks: between two successive reversals of the flip the angle off centre moves by more than 10 degrees |
| Pointing.SlewStep | firmware/tracker/src/main.cpp:476-485 | a tick moves at most 30 us and never past the target |
| Pointing.ReachesInTime | firmware/tracker/src/main.cpp:476-485 | a fixed target is reached after exactly ceil(distance/30) ticks, and kept |
| Pointing.PulsesBounded | firmware/tracker/src/main.cpp:438-672 | with ordered bounds no pulse leaves [min,max] and none steps by more than 30 us, over every run of fixes, commands and ticks |
| Pointing.Tracker.ApplyEma | firmware/tracker/src/main.cpp:573-589 | the filter's new state |
| Pointing.Tracker.AimAt | firmware/tracker/src/main.cpp:635-672 | flip state and both clamped targets |
| Pointing.Tracker.SlewBoth | firmware/tracker/src/main.cpp:476-495 | one pass over both servos |
| FlightEvents.Detector.CheckGps | pi/daemon/cmd/zerotxd/flight_events.go:161-182 | exact new state and exact log of first satellites, lock acquired and lock lost |
| FlightEvents.Detector.CheckHome | pi/daemon/cmd/zerotxd/flight_events.go:184-193 | exact new state and exact log of home, once |
| FlightEvents.Detector.CheckMode | pi/daemon/cmd/zerotxd/flight_events.go:195-231 | exact new state and exact log of mode changes, the derived RTH and failsafe flags, and the recovery trigger |
| FlightEvents.Detector.CheckPosition | pi/daemon/cmd/zerotxd/flight_events.go:257-304 | exact new state and exact log of running peaks, logged by buckets |
| FlightEvents.Detector.CheckBattery | pi/daemon/cmd/zerotxd/flight_events.go:306-344 | exact new state and exact log of battery bands with all event details |
| FlightEvents.Detector.CheckLink | pi/daemon/cmd/zerotxd/flight_events.go:346-378 | exact new state and exact log of link bands with the recovery line at 90 |
| FlightEvents.Detector.SetArmed | pi/daemon/cmd/zerotxd/flight_events.go:133-144 | an edge logs and, on arming, resets; no edge does nothing |
| FlightEvents.Detector.Tick | pi/daemon/cmd/zerotxd/flight_events.go:149-159 | nothing while disarmed, else the six checks' states and logs in order |
| FlightEvents.Detector.SetRecoveryManager | pi/daemon/cmd/zerotxd/flight_events.go:106-112 | storing a manager wires it, storing nil unwires it |
| FlightLog.SessionLog | pi/daemon/cmd/zerotxd/flight_events.go:133-159 | a session logs the same whatever came before: armed, the ticks' events, disarmed |
| FlightLog.WholeLog | pi/daemon/cmd/zerotxd/flight_events.go:133-159 | every sequence of calls logs flight by flight, each as if it were the first, and nothing for repeated calls or ticks in between |
| FlightLog.LinkIsWorst | pi/daemon/cmd/zerotxd/flight_events.go:346-378 | the band is the worst since arming or since the last fresh quality of 90 or more |
| FlightLog.LinkLogShape | pi/daemon/cmd/zerotxd/flight_events.go:346-378 | link events form ((D|DP|P)R)* with an optional unfinished group, and the last one tells the band |
| FlightLog.LockAlternates | pi/daemon/cmd/zerotxd/flight_events.go:161-182 | lock acquired and lost alternate, and the last one tells the state |
| FlightLog.HomeOnce | pi/daemon/cmd/zerotxd/flight_events.go:184-193 | home is logged exactly once if any snapshot has it |
| FlightLog.ModeTold | pi/daemon/cmd/zerotxd/flight_events.go:195-231 | the derived flags are functions of the last non-empty mode |
| FlightLog.FailsafeOnEntry | pi/daemon/cmd/zerotxd/flight_events.go:216-230 | failsafe is announced exactly on entering its family of modes from outside |
| FlightLog.RecoveriesFollowFailsafe | pi/daemon/cmd/zerotxd/flight_events.go:216-230 | the recovery manager is triggered once for every failsafe event, in order and with its mode |
| FlightLog.RecoveryPositionIsFresh | pi/daemon/cmd/zerotxd/flight_events.go:239-255 | a position it is given is a fresh one of at least 4 satellites from the very snapshot of the failsafe |
| FlightEvents.Detector.BuildFrozenSnapshot | pi/daemon/cmd/zerotxd/flight_events.go:239-255 | the frozen snapshot: mode, and position only if fresh |
| FlightTruth.LogTruthful | pi/daemon/cmd/zerotxd/flight_events.go:161-378 | every event of a session tells the values of one of its snapshots, and its thresholds hold there in numbers |
| FlightTruth.TickTruthful | pi/daemon/cmd/zerotxd/flight_events.go:161-378 | and of the very snapshot that caused it |
| FlightTruth.TickInOrder | pi/daemon/cmd/zerotxd/flight_events.go:149-159 | a tick logs at most one event of each kind, in the order of the checks |
| FlightTruth.SatsOnce | pi/daemon/cmd/zerotxd/flight_events.go:161-173 | satellites are logged once, with the first count of the session, and never if that was 0 |
| FlightTruth.LockOnCrossing | pi/daemon/cmd/zerotxd/flight_events.go:174-182 | lock gained or lost exactly when the last count crosses 6 |
| FlightTruth.ModeOnChange | pi/daemon/cmd/zerotxd/flight_events.go:195-205 | a mode is logged exactly when it differs from the last one |
| FlightTruth.RthOnEntry | pi/daemon/cmd/zerotxd/flight_events.go:207-214 | return-to-home is announced exactly on entering it |
| FlightLog.FarthestIsMax | pi/daemon/cmd/zerotxd/flight_events.go:270-288 | the peak is the maximum of the distances seen, from 0 |
| FlightLog.PeaksTold | pi/daemon/cmd/zerotxd/flight_events.go:257-304 | the stored peaks are the running maxima |
| FlightLog.DistancesClimb | pi/daemon/cmd/zerotxd/flight_events.go:270-288 | logged distances climb through strictly higher 50 m buckets, and the last one's is the maximum's |
| FlightLog.AltitudesClimb | pi/daemon/cmd/zerotxd/flight_events.go:289-303 | likewise for altitudes in 25 m buckets |
| FlightLog.BatteryOnDrop | pi/daemon/cmd/zerotxd/flight_events.go:306-344 | a battery event exactly when the band gets worse |
| ModeIntervals.ReadModes | tools/zerotx-replay/summarise.go:121-248 | the row loop yields the intervals the rows define |
| ModeIntervals.IntervalsTile | tools/zerotx-replay/summarise.go:121-248 | from the first mode to the last sample without gap, neighbours in different modes, no negative duration, durations adding up |
| ModeIntervals.SampleCovered | tools/zerotx-replay/summarise.go:121-248 | every sample from the first mode on lies in an interval of the last non-empty mode seen |
| TileGrid.RowsFromSouth | tools/maps/sat-download/main.go:308-316 | rows are counted from the south, and each selected row is that of exactly one tile |
| TileGrid.KeyMeansStored | tools/maps/sat-download/main.go:284-316 | a tile's key is among the loaded ones if and only if its row is in the archive |
| TileGrid.ListMissing | tools/maps/sat-download/main.go:560-573 | the producer's loops list the missing tiles row by row |
| TileGrid.MissingIsUnstored | tools/maps/sat-download/main.go:529-573 | the list holds exactly the tiles of the rectangle that are not stored |
| TileGrid.MissingDistinct | tools/maps/sat-download/main.go:560-573 | no tile is enqueued twice |
| TileGrid.MissingCounted | tools/maps/sat-download/main.go:527-539 | existing and missing add up to the tiles the loops visit |
| TileGrid.TotalExactly | tools/maps/sat-download/main.go:527-539 | the announced total is that number if and only if no side of the rectangle is negative or one is zero |
| TileGrid.TotalOfBox | tools/maps/sat-download/main.go:122-146 | for the corners of a box before the clamp, the announced total is wrong if and only if the box ends more than one tile short of the west or the north edge, and the other side is not empty |
| TileGrid.NegativeTotal | tools/maps/sat-download/main.go:122-146 | the input: from 300 to 200 degrees west at level 5, three rows high, the total is -3 and there are no tiles |
| TileGrid.KeysTellTiles | tools/maps/sat-download/main.go:304-306 | the 32-bit halves of a key tell all tiles of a rectangle apart if and only if no side is longer than 2^32 |
| TileRun.TilesConserved | tools/maps/sat-download/main.go:453-579 | no step of producer, workers or writer creates, duplicates or loses sight of a tile |
| TileRun.InvKept | tools/maps/sat-download/main.go:453-579 | counters, phases and tile whereabouts agree after every step |
| TileRun.Progress | tools/maps/sat-download/main.go:453-579 | no deadlock: in every state that satisfies the invariant, cancelled or not, some step other than a cancellation is possible until runZoom returns |
| TileRun.RunsDoNotStick | tools/maps/sat-download/main.go:453-579 | so in every run from the start of a level, whatever its interleaving |
| TileRun.RunsAreBounded | tools/maps/sat-download/main.go:453-579 | no interleaving is longer than a bound known at its start |
| TileRun.LevelAccount | tools/maps/sat-download/main.go:514-579 | an uncancelled level processes every missing tile exactly once and its counters add up to the rectangle |
| TileRun.Resume | tools/maps/sat-download/main.go:514-579 | after any run, cancelled anywhere, the next one enqueues exactly what is still missing: nothing stored is fetched again |
| TileAccount.CountersTell | tools/maps/sat-download/main.go:483-512 | over every run of steps, downloaded counts the inserted bodies, notFound the 404 answers, errs the other failures and failed inserts, done all of them, and exactly the inserted tiles are written |
| TileAccount.LevelTells | tools/maps/sat-download/main.go:453-512 | from the start of a level, each result counted is that of a fetch of that very tile |
| TileAccount.EachCountedOnce | tools/maps/sat-download/main.go:514-579 | in an uncancelled level the writer counts each tile that was not stored exactly once, and no other |
| RateControl.RateController.OnThrottle | tools/maps/sat-download/main.go:391-405 | halving with its floor of 1, at most every 10 s |
| RateControl.RateController.OnSuccess | tools/maps/sat-download/main.go:407-425 | stepwise recovery 30 s after the last backoff |
| RateControl.RateKeepsTarget | tools/maps/sat-download/main.go:391-425 | the rate keeps to its target over every run if and only if the target is at least 1 or no throttle was seen; below 1 backing off raises it |
| RateControl.BackoffHalves | tools/maps/sat-download/main.go:391-405 | throttle responses at least 10 s apart halve the rate each, down to 1 |
| RateControl.RecoveryPace | tools/maps/sat-download/main.go:407-425 | n successes raise the rate by n three-hundredths of the target, or n hundredths if that is more, up to the target |
| RateControl.RecoversIn300 | tools/maps/sat-download/main.go:407-425 | 300 successes, each 30 s or more after the last backoff, restore the full rate |
| RateControl.RunRecovers | tools/maps/sat-download/main.go:391-425 | behind any run, and on any clock that never runs back, they end at the target if and only if it is at least 1 or no throttle was seen |

## Left out

- Peripherals and libraries (UART, USB-CDC, GPIO, LEDC, the EEPROM library, FreeRTOS, the watchdog, SQLite, HTTP): inputs, byte arrays, sets of rows, or bounds.
- MainLoop.Rp2040.Loop: leaves out the log frames of ipc_log (type 0x14, always number 0), because their texts are presentation; the Pi's view (Runs.PiReadsTheRun) allows them anywhere. Status LED and watchdog reset cause have no effect on the state modelled.
- MainLoop.Rp2040.Handle: leaves out its log frames likewise.
- CrsfRx.TrackerParser.Byte: ends at the accepted frame; decoding a GPS payload and the trigonometry from it to an azimuth and elevation are not part of it (module Pointing takes those as inputs).
- Clock wrap-around: 64-bit microseconds and 32-bit milliseconds are unbounded naturals.
- crsf_rx_poll calls back once per frame while it drains; the model hands the frames of one poll to the relay after it, in the same order.
- The daemon beyond its IPC link and CRSF tee (arming, mapping, recorder): only call sites matter here, so joystick loss to failsafe is not claimed end to end.
- PiLink.DaemonLink.Dispatch: takes all callbacks to be set, because an unset one only drops its call; log output and port errors are left out.
- The tee's client set and its writes to sockets; the telemetry tunnel ends at the rebuilt bytes.
- The HELLO version comparison only selects a log line; the version string of the acknowledgement is a constant payload.
- The IO board's line reader is modelled on complete lines of at most 127 characters without NUL or CR; its overlong-line error and the dispatch to other subsystems are not part of this model.
- strtol and fmt.Sscanf follow their published definitions (section 7.22.1.4 of ISO C11, 32-bit long; the Go fmt documentation); lines are ASCII.
- The configurator's -show and -export modes, JSON decoding, and read time-outs: a reply that never arrives is an error before anything is verified.
- A HAL entry's wear on the EEPROM: update writes a cell only if it differs, which leaves the same contents.
- The encoder's push button, and the button, LED, relay, servo, buzzer, LDR, VFD and LCD subsystems.
- Pointing.PulsesBounded: for one fixed configuration; while an operator changes the bounds the old target may lie outside the new ones until the next aim.
- compute_az_el, tilesForZoom and haversine: trigonometry; their results are inputs.
- The tracker's duty-cycle conversion and self-test sweep; float rounding.
- ModeIntervals.ReadModes: leaves out the other columns of the loop (minima, maxima, first and last values), which would add easy members, and rows out of order.
- fetchTile's retries and back-off: a fetch ends in one of three ways after finitely long; a failed insert is one of the writer's outcomes.
- The archive's tile contents and metadata: a stored tile is a row in a set.
- firmware/crsf/tools/m1_bench.py: a third copy of the same codec.
