# Verification model of the Mowgli RTCM-over-LoRa stack

A Dafny model of the protocol stack that carries RTCM3 corrections from a base
station to a robot over two USB-attached LoRa modems, with proofs of what each
part promises and of what the parts promise together. Verify everything with
`dafny verify dfyconfig.toml`.

The project is read bottom-up:

- `Bytes`, `Seqs`, `Wrappers`, `OrderedDict`: octets, big-endian words, and an
  insertion-ordered dictionary.
- `Crc`, `Cobs`, `Envelope`, `UsbProtocol`: the codecs, the two USB receivers
  (host and firmware) and the language they accept. `Polynomials`, `Remainders`,
  `Vectors`: the checks as remainders of polynomials, and known values; `Layouts`:
  where every field stands.
- `Ring`, `Firmware`: the modem's output ring and command machine; `Retries`: its
  retry cache over runs; `Answers`: what it answers to each command; `Listening`:
  that its radio always listens again, and how it numbers what it transmits.
- `Transport`: the host's side of the USB link; `Receiving` and `Timing`: what a tick
  hands on, and what settles a request and when. `Reports` and `Link` put host and
  modem together over a lossy wire; `LinkCases` are runs of that link worth
  knowing, and `Truncation` is what a failed write leaves on the wire.
- `Rtcm`, `Application`, `Reassembler`, `ReassemblyProperties`, `ReassemblyRuns`,
  `ReassemblyRefusals`, `Collecting`: stream parsing, fragmentation and reassembly.
- `BaseService`, `Uplink`, `InputPump`: the base's scheduler, the order and keys
  under which its fragments reach the wire, and the hand-off from the source.
  `Freshness`: which frames are sent, and that they are.
  `Collateral`: what a failed send costs.
- `EndToEnd`, `RobotService`, `TcpOutput`: the robot. `Completion`: that it publishes
  every frame whose pieces arrive in time.
- `Airwaves`, `BaseLink`, `RobotLink`, `Selection`, `Deployment`: base, modem, air,
  modem and robot as one system; `Deployment.Deployed` is the result about it, and
  `Publication` a run of it that ends with a frame published.

Conventions. Objects the source updates in place are classes whose methods are
proved against functions on values (`State()` is the value); the properties are
lemmas about those functions and about runs of them. Times are integer
milliseconds. Random session values, serial and socket results, radio results and
clock readings are inputs. Fields named as logs (`wire`, `log`, `tried`,
`messages`, `ingested`, `sent`, `all`, `air`, `emitted`, `heard`) remember what happened
and influence nothing. Limits that a result is about (800 ms, 64 frames, code 6) are
written out in its statement.

## What the proofs found

- **A refused send may still go out.** A comment in `modem.py` says that a request
  whose write fails was never accepted by the firmware. If all but the delimiter was
  written, the zero octet of the next open supplies it: `LinkCases.RefusedMayTransmit`
  gives the write and the octets, and says that the frame is then transmitted exactly
  if the modem is ready for it. `Truncation.AfterFailedWrite` says for every number
  of octets written whether the modem acts on the frame: it does if only the delimiter
  is missing, or the delimiter and the code of an empty block behind a full one, and
  otherwise not. `Uplink.RefusedUnwritten` says that a refused send has written
  nothing exactly if the transport was not ready or its sequence was used up.
  `Link.LinkPromise` therefore speaks of accepted sends.
- **A session reintroduced while its own transmission is on the air breaks the
  retry cache.** `Firmware.HandleInv` proves that this is the only way to break
  the session invariant, and `Firmware.ReintroductionBreaksTheCache` gives the
  run. With fresh sessions it cannot happen (`Link.NotReintroduced`).
- **The message counter wraps inside a session.** The application protocol
  document says the sender changes session first; the code goes from 0xFFFFFFFF to
  1. `Uplink.WrapReusesKey` says exactly when a key is reused. The end-to-end
  results exclude the step that wraps.
- **An evicted STOP replay is not always STALE_ID.** An old one is EXPIRED, because
  the age check comes first; that refusal is remembered, so later young replays are
  EXPIRED too; and after a badly addressed request under the same key a replay is an
  ID_CONFLICT. `StopCache.EvictedReplays` gives the four runs from the start, and
  `StopCache.Replay` says for every run which answer a replay gets.
- **A refused key can complete again.** A block lasts one second from the start of
  what it blocks. `ReassemblyRefusals.ReturnedTwice` returns one frame twice, and
  `ReassemblyRefusals.CompletesAgain` says that it happens exactly if every piece
  arrives again after the block.
- **A failure can cost the next frame too.** A failed or uncertain outcome clears
  whatever fragments wait. `Collateral.FailureCosts`: the frame they belong to is lost
  untried exactly if none of it had been accepted, that is, if it is not the frame
  that failed. `Collateral.NextFrameLost` is such a run.
- **A failure is not always final.** If the wire delivers a RADIO_SEND frame again
  during its transmission, or after it when the answer is no longer at hand, the
  modem refuses it. `LinkCases.DisturbedFails`: if its ring has room for the refusal
  and the refusal is read, the host reports a failure exactly if it still awaits that
  send, and the failure is false exactly if the transmission was completed or is still
  running. `LinkCases.DisturbedStarts` is the other case, a frame refused at first and
  transmitted when delivered again. `LinkCases.FalseFailureReached` gets to a false
  failure from power-up, and `Link.LinkPromise` proves that without such a delivery
  failures are true.
- **A clock that goes back stops the base.** A negative age does not encode, and the
  step raises with the fragment already taken off. `BaseService.StepInv` says exactly
  when, and `BaseService.NeverEarly` that a clock that does not go back prevents it.

## Model

| member | source | states |
|---|---|---|
| `Crc.ComputeCrc16` | tools/lora_usb/application.py:115-123 | the loop computes the bitwise CRC-16 fold from 0xFFFF; `Remainders.IsCrc16` says what that is |
| `Crc.ComputeCrc24` | tools/lora_usb/application.py:126-136 | the loop computes the bitwise CRC-24Q fold from 0; `Remainders.IsCrc24` says what that is |
| `Crc.CheckIsResidue16` | tools/lora_usb/application.py:165-179 | comparing the stored CRC-16 is the same as the CRC over everything being zero |
| `Crc.CheckIsResidue24` | tools/lora_usb/application.py:262-268 | comparing the stored CRC-24Q is the same as the CRC over everything being zero |
| `Crc.Burst16` | tools/lora_usb/application.py:115-123 | two different strings with zero residue differ outside any two consecutive octets |
| `Crc.Burst24` | tools/lora_usb/application.py:126-136 | two different strings with zero residue differ outside any three consecutive octets |
| `Remainders.IsCrc16` | tools/lora_usb/application.py:115-123 | over every message: the 16-bit check is the only one that behind the message, its first sixteen bits inverted, makes a multiple of x^16 + x^12 + x^5 + 1 |
| `Remainders.IsCrc24` | tools/lora_usb/application.py:126-136 | over every message: the 24-bit check is the only one that behind the message makes a multiple of x^24 + 0x864CFB |
| `Vectors.CheckValue16` | firmware/lora_radio/src/main.cpp:148-150 | the CRC-16 of "123456789" is 0x29B1 |
| `Vectors.CheckValue24` | tools/lora_usb/application.py:126-136 | the CRC-24Q of "123456789" is 0xCDE703 |
| `Vectors.UsbVector` | firmware/lora_radio/src/main.cpp:145-159 | the frame of the firmware's self-test, octet by octet: the self-test passes |
| `Vectors.EmptyFrame` | tools/lora_usb/application.py:262-268 | D3 00 00 47 EA 4B is valid |
| `Cobs.RoundTrip` | tools/lora_usb/protocol.py:34-75 | decoding an encoding gives back any string |
| `Cobs.EncodedShape` | tools/lora_usb/protocol.py:34-55 | an encoding has no zero and exceeds its input by at most 1 + n/254 octets |
| `Cobs.EncodeInjective` | tools/lora_usb/protocol.py:34-55 | different strings have different encodings |
| `Cobs.DecodedLength` | tools/lora_usb/protocol.py:58-75 | an accepted encoding is at most as much longer than what it decodes to |
| `Cobs.CobsEncode` | tools/lora_usb/protocol.py:34-55 | the host's loop computes the encoding |
| `Cobs.CobsDecode` | tools/lora_usb/protocol.py:58-75 | the host's loop computes the decoding, including every rejection |
| `Cobs.Enc` | firmware/lora_radio/src/main.cpp:94-120 | the firmware's in-place encoder writes the same octets |
| `Cobs.Dec` | firmware/lora_radio/src/main.cpp:121-144 | the firmware's decoder accepts the same strings up to its buffer size, with the same result |
| `Envelope.SealOpens` | firmware/lora_radio/src/main.cpp:196-210 | what is framed passes the receiver's checks and reads back |
| `Envelope.OpenSeals` | tools/lora_usb/protocol.py:98-114 | an accepted string is the framing of what it reads as |
| `Envelope.OpenInjective` | tools/lora_usb/protocol.py:98-114 | two accepted strings with the same contents are equal |
| `Envelope.BurstRejected` | tools/lora_usb/protocol.py:98-114 | a change within two consecutive octets of an accepted string is rejected |
| `Layouts.SealLayout` | tools/lora_usb/protocol.py:78-95 | a framed string octet by octet, with big-endian words at 6, 10 and 14 and the payload at 16 |
| `Layouts.PacketLayout` | firmware/lora_radio/src/main.cpp:433-446 | a packet on the air carries boot id and air number at 6 and 10, and exactly the payload |
| `UsbProtocol.ParseIffWellSealed` | tools/lora_usb/protocol.py:98-114 | the host's checks accept exactly well sealed bodies of at most 274 octets |
| `UsbProtocol.FrameRoundTrip` | tools/lora_usb/protocol.py:78-114 | an encoded frame decodes to itself |
| `UsbProtocol.StreamDecoder.Feed` | tools/lora_usb/protocol.py:214-238 | the stateful decoder emits what the run over the stream specifies, in any chunks |
| `UsbProtocol.UsbReceiver.UsbTask` | firmware/lora_radio/src/main.cpp:586-619 | the firmware's input loop hands on what its run over the stream specifies |
| `UsbProtocol.HostRunConcat` | tools/lora_usb/protocol.py:222-238 | feeding chunks one after another is feeding their concatenation |
| `UsbProtocol.LimitsUnobservable` | tools/lora_usb/protocol.py:214-238 | a segment that decodes to at most 274 octets is at most 276 long, so neither buffer limit shows |
| `UsbProtocol.SameLanguage` | firmware/lora_radio/src/main.cpp:468-484 | over every byte stream the firmware acts on exactly the frames the host's decoder emits with nonzero session and sequence |
| `UsbProtocol.Recovers` | tools/lora_usb/protocol.py:222-238 | after any garbage ending in a zero, the next valid frame is emitted |
| `UsbProtocol.EndToEndPayload` | tools/lora_usb/protocol.py:187-191 | a payload of 1 to 200 octets survives USB frame, radio packet and receive event, whatever came before |
| `Ring.PutKinds` | firmware/lora_radio/src/main.cpp:160-195 | no queued response is lost or reordered, and a full ring gives up only its oldest event, only to a response |
| `Ring.OutputRing.PutQ` | firmware/lora_radio/src/main.cpp:160-195 | the six slots with head, tail and count implement the queue operation, and the tail stays (head + count) mod 6 |
| `Ring.OutputRing.CloseGap` | firmware/lora_radio/src/main.cpp:181-182 | the shifting loop removes one entry and keeps the order of the rest |
| `Ring.OutputRing.FindEvent` | firmware/lora_radio/src/main.cpp:170-178 | the scan finds the oldest event |
| `Ring.OutputRing.Pop` | firmware/lora_radio/src/main.cpp:231-232 | taking the head removes the oldest entry |
| `Firmware.HandleInv` | firmware/lora_radio/src/main.cpp:468-585 | a command keeps the session invariant exactly unless it reintroduces the session of a transmission on the air |
| `Firmware.RadioTaskInv` | firmware/lora_radio/src/main.cpp:318-361 | radio completion and reception keep the session invariant |
| `Firmware.TxWatchdogInv` | firmware/lora_radio/src/main.cpp:362-375 | the watchdog keeps the session invariant |
| `Firmware.FlushInv` | firmware/lora_radio/src/main.cpp:211-233 | writing out keeps the invariant and writes the oldest entry |
| `Firmware.RunInv` | firmware/lora_radio/src/main.cpp:651-657 | over every orderly run: pending means transmitting for the current session and last sequence with nothing cached, and a cached answer answers the last request |
| `Retries.RetryPromise` | firmware/lora_radio/src/main.cpp:531-543 | over every orderly run: a retry of a request still remembered queues the very frame first queued in answer to it, which answers it, and leaves the radio alone |
| `Retries.AnswerStays` | firmware/lora_radio/src/main.cpp:234-245 | nothing that happens while a request is remembered replaces its answer |
| `Retries.RetryBeforeAnswer` | firmware/lora_radio/src/main.cpp:531-543 | over every orderly run: a retry before the answer leaves the transmission and the cache alone |
| `Firmware.RetryWhilePending` | firmware/lora_radio/src/main.cpp:494-499 | nothing in the session of a pending send disturbs its transmission |
| `Firmware.HandleAir` | firmware/lora_radio/src/main.cpp:421-467 | a transmission starts exactly for a new well formed send of the session, with exactly its payload |
| `Answers.AnsweredExactly` | firmware/lora_radio/src/main.cpp:468-585 | every command is answered: by the remembered frame, by a refusal with the code of the first reason that applies (1 to 8), or by what it asks for, in its session and under its sequence; a send that starts queues nothing |
| `Listening.RadioTaskListens` | firmware/lora_radio/src/main.cpp:318-361 | whatever the interrupt was for, the modem receives afterwards, unless the driver refuses, and the interrupt is cleared |
| `Listening.WatchdogExactly` | firmware/lora_radio/src/main.cpp:362-375 | a transmission is given up exactly after 2000 ms, across the wrap-around of the clock, and then the modem listens |
| `Listening.RefusedStartListens` | firmware/lora_radio/src/main.cpp:457-465 | a send the driver refuses to start leaves the modem listening and free |
| `Listening.PacketQueued` | firmware/lora_radio/src/main.cpp:291-317 | a packet received well while listening is queued for the host, unless the ring is full |
| `Listening.NeverDeafFromBoot` | firmware/lora_radio/src/main.cpp:651-657 | over every run from power-up a working radio is always transmitting or receiving, if the driver lets it listen |
| `Listening.TurnNumbers` | firmware/lora_radio/src/main.cpp:439-441 | a launch takes the next number, skipping zero, and nothing else takes one |
| `Listening.Consecutive` | firmware/lora_radio/src/main.cpp:439-441 | over every run consecutive launches carry consecutive numbers, skipping zero |
| `Layouts.ResultLayout` | firmware/lora_radio/src/main.cpp:326-333 | a result carries boot id, air number and the time it took, across the wrap-around of the clock |
| `Layouts.StatusLayout` | firmware/lora_radio/src/main.cpp:389-402 | uptime, radio state and six counters of the status, each at its place |
| `Layouts.DiagnosticsLayout` | firmware/lora_radio/src/main.cpp:403-420 | the ten counters of the diagnostics, each at its place |
| `Layouts.EventLayout` | firmware/lora_radio/src/main.cpp:291-317 | what is said of a packet: sender, number, signal, uptime, and its payload from the sixteenth octet on |
| `Firmware.ReintroductionBreaksTheCache` | firmware/lora_radio/src/main.cpp:486-519 | a concrete run after which a HELLO retry is answered with a transmission result |
| `Firmware.EnqueueBalance` | firmware/lora_radio/src/main.cpp:160-195 | queueing accounts for the event it adds or evicts |
| `Firmware.RunBalanceFromBoot` | firmware/lora_radio/src/main.cpp:291-317 | packets received while active equal events written, dropped and queued, modulo 2^32, over every run |
| `Firmware.Modem.constructor` | firmware/lora_radio/src/main.cpp:620-650 | the state after power-up |
| `Firmware.Modem.HandleOctets` | firmware/lora_radio/src/main.cpp:468-485 | the raw checks, then the command, as the specification has it |
| `Firmware.Modem.HandleHello` | firmware/lora_radio/src/main.cpp:486-520 | HELLO: session adoption, staleness, retry cache |
| `Firmware.Modem.FilterRequest` | firmware/lora_radio/src/main.cpp:521-548 | the session and sequence filter |
| `Firmware.Modem.ExecuteRequest` | firmware/lora_radio/src/main.cpp:549-585 | the accepted request and its answer |
| `Firmware.Modem.Transmit` | firmware/lora_radio/src/main.cpp:421-467 | starting a transmission, or its refusal |
| `Firmware.Modem.RunRadioTask` | firmware/lora_radio/src/main.cpp:318-361 | completion, failure and reception, as specified; `Listening.RadioTaskListens` and `LinkCases.CanComplete` say what follows |
| `Firmware.Modem.RunTxWatchdog` | firmware/lora_radio/src/main.cpp:362-375 | giving up after two seconds, with unsigned wrap-around |
| `Firmware.Modem.FlushOne` | firmware/lora_radio/src/main.cpp:211-233 | one entry leaves, written whole or lost and counted |
| `Reports.HandleHolds` | firmware/lora_radio/src/main.cpp:468-585 | what a command makes the modem say answers that command, is never a result, and is nothing if a transmission starts |
| `Reports.RadioTaskHolds` | firmware/lora_radio/src/main.cpp:318-361 | a new result or error is that of the transmission just ended |
| `Reports.TxWatchdogHolds` | firmware/lora_radio/src/main.cpp:362-375 | the watchdog reports only the transmission it gives up |
| `Reports.HandleFollows` | firmware/lora_radio/src/main.cpp:500-551 | session and sequence move only forward, to the frame's own |
| `Transport.OnFrameProps` | host/mowgli_lora/modem.py:212-269 | any frame keeps the invariant and settles at most the outstanding send, only by its own sequence: no late result completes a newer send |
| `Transport.SendAirProps` | host/mowgli_lora/modem.py:167-182 | an accepted sequence is the next one and the only outstanding send; a refusal leaves none |
| `Transport.RestartProps` | host/mowgli_lora/modem.py:366-381 | a restart settles the outstanding send, leaves the session, and awaits one HELLO or is disconnected |
| `Transport.DisconnectProps` | host/mowgli_lora/modem.py:85-111 | disconnecting settles the outstanding send and leaves nothing pending |
| `Transport.OpenProps` | host/mowgli_lora/modem.py:57-83 | opening keeps the invariant and settles nothing |
| `Transport.ExpireProps` | host/mowgli_lora/modem.py:270-291 | timeouts keep the invariant: at most 32 tombstones, none of them pending |
| `Transport.PollProps` | host/mowgli_lora/modem.py:292-304 | the diagnostics poll neither adds nor settles a send, and rotates rather than wraps |
| `Transport.TickProps` | host/mowgli_lora/modem.py:199-310 | a whole tick keeps the invariant (one request at most; none when disconnected; one HELLO until the handshake; at most 32 tombstones, none pending) and settles at most the outstanding send, once |
| `Receiving.FrameAdds` | host/mowgli_lora/modem.py:212-269 | a frame ends the session, and loses what was received, exactly under the stated condition; any other adds exactly the packet it carries |
| `Receiving.FramesAdd` | host/mowgli_lora/modem.py:210-269 | over any frames that do not end the session, what is received grows by exactly the packets of the session, in order |
| `Receiving.FramesLose` | host/mowgli_lora/modem.py:366-381 | otherwise exactly what was received before the last frame that ended a session is lost |
| `Receiving.TickHands` | host/mowgli_lora/modem.py:199-310 | a tick hands on exactly these packets, unless the session or the connection ends after them |
| `Timing.SendAnswered` | host/mowgli_lora/modem.py:227-250 | a send is settled by its result or its error, in its session and under its sequence, and by nothing else; the host is then free, or starts over if the modem was in another session |
| `Timing.HelloAnswered` | host/mowgli_lora/modem.py:217-226 | a HELLO is completed by an INFO of 22 octets, started over by a malformed one or an error, and untouched by anything else |
| `Timing.DiagnosticsAnswered` | host/mowgli_lora/modem.py:261-267 | diagnostics are answered by their frame or an error, and by nothing else |
| `Timing.SilenceEnds` | host/mowgli_lora/modem.py:270-291 | exactly after 3000 ms of silence a send is uncertain and the host free, a HELLO starts over, and diagnostics are forgotten |
| `Timing.NothingToEnd` | host/mowgli_lora/modem.py:270-291 | with nothing outstanding the clock changes nothing but what is remembered of late results |
| `Timing.SilentTick` | host/mowgli_lora/modem.py:199-310 | the same of a whole tick that reads nothing |
| `Timing.UnreadableTick` | host/mowgli_lora/modem.py:204-209 | a tick that cannot read disconnects; the outstanding send is uncertain |
| `Timing.PollsExactly` | host/mowgli_lora/modem.py:292-304 | diagnostics are asked for exactly when nothing is outstanding, the caller is idle, and a second is over since the last packet and the last poll |
| `Timing.Reopens` | host/mowgli_lora/modem.py:57-83 | a closed port is tried exactly when the reconnect delay is over, and opening it begins a new session with HELLO |
| `Transport.RunOnceFromStart` | host/mowgli_lora/modem.py:167-197 | over every call sequence each returned sequence has exactly one outcome, in order, unless outstanding |
| `Transport.WriteAll` | host/mowgli_lora/modem.py:113-127 | the write loop succeeds exactly when everything is taken; otherwise exactly what the writes before the failing one took is on the wire |
| `Truncation.CutStands` | firmware/lora_radio/src/main.cpp:121-144 | every prefix of a COBS encoding is rejected or decodes to a prefix, and to everything exactly if nothing is missing, or one octet that codes an empty block behind a full one |
| `Truncation.SufficesExactly` | firmware/lora_radio/src/main.cpp:586-619 | what was written decodes to the frame exactly if only the delimiter is missing, or also the code of an empty last block |
| `Truncation.AfterFailedWrite` | firmware/lora_radio/src/main.cpp:586-619 | after a failed write and the delimiter of the next open the modem acts on the frame exactly if that much was written, and otherwise on nothing |
| `Transport.ModemTransport.TickOnce` | host/mowgli_lora/modem.py:199-310 | the object's tick is the specified tick; `Receiving.TickHands` says what it hands on |
| `Transport.ModemTransport.Send` | host/mowgli_lora/modem.py:167-182 | the object's send is the specified send |
| `Transport.ModemTransport.IssueRequest` | host/mowgli_lora/modem.py:129-162 | one request: next sequence, write, pending entry |
| `Transport.ModemTransport.Process` | host/mowgli_lora/modem.py:214-269 | dispatch of one decoded frame; `Receiving.FrameAdds` and `Timing.SendAnswered` say what that is |
| `Transport.ModemTransport.ProcessError` | host/mowgli_lora/modem.py:326-364 | errors: correlation, late errors, session recovery |
| `Transport.ModemTransport.CheckTimeouts` | host/mowgli_lora/modem.py:270-291 | the timeout scan over a snapshot |
| `Transport.ModemTransport.RestartSession` | host/mowgli_lora/modem.py:366-381 | restart in place |
| `Transport.ModemTransport.FreshSession` | host/mowgli_lora/modem.py:133-145 | a session value different from the last, with sequence zero |
| `Transport.ModemTransport.TryOpen` | host/mowgli_lora/modem.py:57-83 | opening in place |
| `Transport.ModemTransport.Drop` | host/mowgli_lora/modem.py:85-111 | disconnecting in place |
| `Link.HostExtends` | host/mowgli_lora/modem.py:129-162 | each host step writes at most one frame: the next sequence of its session, or the HELLO of a new one |
| `Link.WireKept` | host/mowgli_lora/modem.py:133-162 | sequences strictly increase within a session, sessions are contiguous, HELLO is number one |
| `Link.NotReintroduced` | firmware/lora_radio/src/main.cpp:486-519 | with fresh sessions no delivered frame reintroduces a session on the air |
| `Link.Delivered` | firmware/lora_radio/src/main.cpp:468-585 | a delivery keeps the modem invariant; transmissions come from distinct sends in wire order, each carrying its payload |
| `Link.TruthfulStep` | host/mowgli_lora/modem.py:227-250 | only what the modem says completes or fails a send, so what is claimed is so |
| `Link.StepsInv` | host/mowgli_lora/modem.py:199-310 | the composed invariant over every possible run |
| `Link.LinkPromise` | host/mowgli_lora/modem.py:154-310 | every accepted send has one outcome; it is transmitted at most once, with exactly its payload; True means completed; False means never completed, unless a frame delivered again has disturbed the modem |
| `LinkCases.HandshakeAgrees` | host/mowgli_lora/modem.py:217-226 | the modem's answer to a new session's HELLO completes the handshake: same session, boot id and readiness on both sides |
| `LinkCases.WrongSessionRecovers` | host/mowgli_lora/modem.py:343-364 | a modem that lost the session answers so, and the host fails the send and starts a new session or disconnects |
| `LinkCases.CanComplete` | host/mowgli_lora/modem.py:167-250 | from rest every step of a send is possible, its outcome is `True`, and both ends are at rest again |
| `LinkCases.AllCanComplete` | host/mowgli_lora/modem.py:167-250 | and so is a run of any number of sends, each completed in turn |
| `LinkCases.HearsAtRest` | firmware/lora_radio/src/main.cpp:318-361 | at rest a packet received well is queued for the host at once |
| `LinkCases.ReachesRest` | host/mowgli_lora/modem.py:57-83 | from power-up the handshake can be completed, step by step |
| `LinkCases.RefusedMayTransmit` | host/mowgli_lora/modem.py:175-182 | a write that fails at the delimiter, with the zero of the next open, makes the modem see the refused send; it is then transmitted exactly if the modem is ready for it |
| `LinkCases.UnrepeatedUndisturbed` | firmware/lora_radio/src/main.cpp:521-548 | a wire that delivers nothing twice does not disturb the modem |
| `LinkCases.DisturbedFails` | firmware/lora_radio/src/main.cpp:531-543 | a send on the air or last sent is delivered again with no answer at hand and room for a refusal: it is reported failed exactly if still awaited, and the failure is true exactly if the transmission ended without completing |
| `LinkCases.DisturbedStarts` | firmware/lora_radio/src/main.cpp:549-585 | a send that starts a transmission only when delivered again makes a failure false exactly if it had already been reported failed |
| `LinkCases.FalseFailureReached` | host/mowgli_lora/modem.py:227-250 | from power-up a possible run ends with a send reported failed whose transmission was completed |
| `Airwaves.AirCarriesWrites` | firmware/lora_radio/src/main.cpp:421-467 | over every possible run the transmissions are, in order and at most once each, sends the host wrote |
| `Airwaves.TickIsRun` | host/mowgli_lora/modem.py:199-310 | a tick moves the host as its list of link steps does |
| `Airwaves.StepsHost` | host/mowgli_lora/modem.py:199-310 | the composed system moves its host as the host moves alone |
| `BaseLink.StepIsRun` | host/mowgli_lora/service.py:100-169 | a step of the base moves its host as a list of link steps does: a tick, the reading of outcomes, at most one send |
| `BaseLink.CallOfHost` | host/mowgli_lora/service.py:148-163 | whatever the base hands to `send_air` fits a USB frame |
| `BaseLink.StepFresh` | host/mowgli_lora/modem.py:133-145 | if the link run of a step is possible, every session the step draws is fresh |
| `RobotLink.HandleAnswers` | firmware/lora_radio/src/main.cpp:468-585 | a command queues at most one frame, and never a received packet |
| `RobotLink.ModemPasses` | firmware/lora_radio/src/main.cpp:291-317 | whatever the modem does, the received packets it writes are packets it heard, in order and each at most once |
| `RobotLink.TickReads` | host/mowgli_lora/modem.py:199-269 | a tick hands on payloads of the received-packet frames it read, in order, and keeps none |
| `Deployment.BaseDoesShared` | host/mowgli_lora/service.py:100-169 | a call of the base is a possible run of its link with the same host, and keeps the base's run fresh |
| `Deployment.AirTraces` | firmware/lora_radio/src/main.cpp:421-467 | what has been on the air is, in order and once each, what the base's host wrote |
| `Deployment.Deployed` | host/mowgli_lora/service.py:282-305 | base, modem, air, modem and robot together, over every run from power-up: base and link are runs of one host, everything published was ingested, and if neither air nor cable reorders or repeats, in the order of ingestion and each at most once |
| `Publication.Published` | host/mowgli_lora/service.py:282-305 | for every frame of one piece there is a run from power-up, every act of it possible, in which the base ingests the frame and the robot publishes it |
| `Rtcm.BurstRejected` | tools/lora_usb/application.py:262-268 | a change within three consecutive octets of a valid frame is rejected |
| `Layouts.HeaderBits` | tools/lora_usb/application.py:262-274 | over the bits of a frame: preamble, six reserved, ten of length, and the message number is the first twelve of the payload |
| `Layouts.RtcmExactly` | tools/lora_usb/application.py:262-268 | a string is valid exactly if it starts with 0xD3 and six zero bits, has the length its ten bits say, and its bits raised by 24 are a multiple of the generator |
| `Rtcm.NothingMissed` | host/mowgli_lora/rtcm.py:40-80 | every position of the settled input not inside an emitted frame starts no valid frame |
| `Rtcm.Greedy` | host/mowgli_lora/rtcm.py:40-80 | the scan's frames are placed left to right and nothing valid is skipped |
| `Rtcm.RecoversAll` | host/mowgli_lora/rtcm.py:40-80 | valid frames separated by runs without 0xD3 are all recovered, in order |
| `Rtcm.RtcmStreamParser.Feed` | host/mowgli_lora/rtcm.py:40-80 | the buffer-and-reinsert loop emits the frames and keeps the rest of the whole-stream scan |
| `Rtcm.RtcmStreamParser.Turn` | host/mowgli_lora/rtcm.py:56-79 | one turn of the loop at a preamble |
| `Rtcm.RtcmStreamParser.ResetStream` | host/mowgli_lora/rtcm.py:29-38 | reset discards the buffer only |
| `Rtcm.ChunkingInvisible` | host/mowgli_lora/rtcm.py:40-80 | any split into chunks gives the same frames, rest and counters as one feed |
| `Rtcm.RunsFromStart` | host/mowgli_lora/rtcm.py:29-80 | over feeds and resets every input octet is accounted for once, and at most 1028 stay buffered |
| `Application.RoundTrip` | tools/lora_usb/application.py:139-179 | an encoded frame decodes to itself |
| `Layouts.ApplicationLayout` | tools/lora_usb/application.py:139-162 | an application frame octet by octet |
| `Layouts.EncodesExactly` | tools/lora_usb/application.py:139-162 | exactly frames with session, id and at most 180 octets can be encoded |
| `Application.BurstRejected` | tools/lora_usb/application.py:165-179 | a change within two consecutive octets of an encoded frame is rejected |
| `Application.Fragment` | tools/lora_usb/application.py:277-292 | the loop cuts a valid frame into the specified fragments and refuses anything else |
| `Application.FragmentReads` | tools/lora_usb/application.py:284-292 | every fragment fits an application frame and reads back as written |
| `Application.JoinedPieces` | tools/lora_usb/application.py:385-385 | the pieces of a frame joined are the frame |
| `Reassembler.AddInv` | tools/lora_usb/application.py:325-394 | whatever arrives: at most 8 assemblies in start order, at most 64 blocked keys disjoint from them, parts of exact length |
| `Collecting.AddsExactly` | tools/lora_usb/application.py:325-394 | at every state: refused with its reason and nothing else changed, or collected, a duplicate, in conflict, or the last one missing, with what is then held, refused and returned; the oldest of eight makes room |
| `Reassembler.ExpireProps` | tools/lora_usb/application.py:310-323 | after expiry exactly the young assemblies and live blocks remain |
| `Reassembler.FragmentReassembler.AddFrame` | tools/lora_usb/application.py:325-394 | the object's add is the specified add, with eviction, conflicts and duplicates |
| `Reassembler.FragmentReassembler.ExpireAt` | tools/lora_usb/application.py:310-323 | both expiry loops |
| `Reassembler.FragmentReassembler.BlockKey` | tools/lora_usb/application.py:304-308 | blocking with its trimming loop |
| `ReassemblyProperties.CompletionLength` | tools/lora_usb/application.py:388-393 | the final length check cannot fail |
| `ReassemblyProperties.CompletionInTime` | tools/lora_usb/application.py:325-394 | only valid frames of the announced length and type complete, less than 600 ms after their assembly started |
| `ReassemblyProperties.AddFaithful` | tools/lora_usb/application.py:325-394 | from genuine fragments, in any order and number, nothing but the assigned frame comes out |
| `ReassemblyProperties.RetiredIsRefused` | tools/lora_usb/application.py:304-308 | a key taken out is blocked as the newest until a second after its start |
| `ReassemblyProperties.AddBars` | tools/lora_usb/application.py:356-387 | whichever way an add ends an assembly, by completion, conflict, eviction or expiry, its key is blocked until a second after its start |
| `ReassemblyProperties.AddRefused` | tools/lora_usb/application.py:354-355 | a blocked key yields nothing until its second is over, and stays blocked while fewer than 64 keys are blocked after it |
| `ReassemblyRefusals.NothingBeforeItsSecond` | tools/lora_usb/application.py:354-355 | over every run: a key that is finished, in conflict, evicted or expired yields nothing before a second after its start, while fewer than 64 keys are blocked from then on |
| `ReassemblyRefusals.OrderKept` | tools/lora_usb/application.py:356-363 | at every state of a run assemblies are held in the order of their starts, so eviction takes the oldest |
| `ReassemblyRefusals.CompletesAgain` | tools/lora_usb/application.py:310-323 | after its block a key is completed again exactly if every piece arrives again |
| `ReassemblyRefusals.ReturnedTwice` | tools/lora_usb/application.py:310-323 | a one-piece message that arrives twice is returned twice exactly if a second or more lies between |
| `ReassemblyRuns.Completeness` | tools/lora_usb/application.py:325-394 | if every fragment arrives in time, in any order with duplicates, while fewer than 8 other keys start assemblies, exactly one add returns the frame |
| `BaseService.TickAgrees` | host/mowgli_lora/service.py:105-118 | what a tick reports concerns exactly the fragment in flight |
| `BaseService.StepInv` | host/mowgli_lora/service.py:100-169 | after every step the fragment in flight is the outstanding send, and no outcome is unexpected; the step raises exactly if its clock reads before the arrival of the fragment it sends |
| `BaseService.NeverEarly` | host/mowgli_lora/service.py:148-159 | with a clock that does not go back no step raises |
| `BaseService.BasePromise` | host/mowgli_lora/service.py:100-169 | over every run: accepted fragments of a frame are its first pieces, in order, each once, each accepted only after the one before completed |
| `BaseService.BaseStation.StepOnce` | host/mowgli_lora/service.py:100-169 | the object's step is the specified step; `Freshness.FreshSent` and `Freshness.NextPieceSent` say what it sends |
| `BaseService.BaseStation.IngestFrames` | host/mowgli_lora/service.py:49-55 | arrival with the oldest dropped beyond 128 |
| `BaseService.BaseStation.Reset` | host/mowgli_lora/service.py:61-69 | a new source epoch drops queue and fragments |
| `BaseService.BaseStation.ReadOutcomes` | host/mowgli_lora/service.py:106-118 | the outcome loop |
| `BaseService.BaseStation.RefillFragments` | host/mowgli_lora/service.py:134-147 | the next frame is numbered and cut |
| `BaseService.BaseStation.SendNext` | host/mowgli_lora/service.py:148-167 | the next fragment is stamped with its age and sent, dropped when stale, put back when refused |
| `Freshness.DropsExactly` | host/mowgli_lora/service.py:128-130 | what stays is the queue from its first frame that is at most 800 ms old |
| `Freshness.FreshStays` | host/mowgli_lora/service.py:128-130 | with a clock that does not go back exactly the frames at most 800 ms old stay |
| `Freshness.IngestQueues` | host/mowgli_lora/service.py:49-53 | every frame read is queued, and of all that is queued the newest 128 stay |
| `Freshness.AlwaysInTime` | host/mowgli_lora/service.py:44-169 | over every run with such a clock the queue is in the order of arrival and holds at most 128 |
| `Freshness.FreshSent` | host/mowgli_lora/service.py:100-169 | a whole step: if after its tick the host is ready and nothing of an earlier frame waits, the first frame at most 800 ms old is cut under the next key and its first piece, with its age, is on the wire; the rest waits |
| `Freshness.NextPieceSent` | host/mowgli_lora/service.py:148-167 | a whole step: if the piece before got through, the next one is on the wire, or the rest is dropped if the frame is a second old |
| `Freshness.RestSent` | host/mowgli_lora/service.py:100-169 | over as many such steps as pieces wait, all of them go to the modem, in order, each with its age |
| `Collateral.FailureCosts` | host/mowgli_lora/service.py:106-118 | a failed or uncertain outcome loses the frame whose fragments wait, with nothing of it sent, exactly if it is not the frame that failed |
| `Collateral.LostForGood` | host/mowgli_lora/service.py:106-118 | of a frame so lost no fragment is ever accepted |
| `Collateral.NextFrameLost` | host/mowgli_lora/service.py:106-118 | a run from the start in which the first frame's uncertain outcome loses the second |
| `Uplink.TickMoves` | host/mowgli_lora/modem.py:199-310 | a tick writes no send, and a port newly opened has a fresh session |
| `Uplink.StepUp` | host/mowgli_lora/service.py:119-167 | a refused fragment is never written again, and keys stay distinct, when sessions are fresh |
| `Uplink.RefusedUnwritten` | host/mowgli_lora/modem.py:167-182 | a refused send has written nothing exactly if the transport was not ready or the sequence was used up |
| `Uplink.WrapReusesKey` | host/mowgli_lora/service.py:136-138 | a new key collides exactly when the counter wraps onto a key in use |
| `Uplink.WireOrder` | host/mowgli_lora/service.py:134-167 | what is on the wire is pieces of ingested frames, each at most once, in order, under distinct keys |
| `EndToEnd.ReceiveFaithful` | host/mowgli_lora/service.py:284-303 | a genuine payload yields nothing but the frame of its message |
| `EndToEnd.EndToEndIntegrity` | host/mowgli_lora/service.py:282-307 | under loss, duplication, delay and reordering everything published was ingested |
| `EndToEnd.AddParts` | tools/lora_usb/application.py:374-394 | a genuine piece adds only itself and completes only as the last one missing |
| `EndToEnd.EndToEndOrder` | host/mowgli_lora/service.py:282-307 | over a lossy link that keeps order, the published frames are an in-order subsequence of the ingested ones |
| `Completion.PublishedOnce` | host/mowgli_lora/service.py:282-307 | if every piece of a frame is heard within 600 ms of the first, in any order with repetitions and other traffic, while fewer than 8 other frames are begun, the robot publishes the frame at exactly one of the events that bear its key |
| `RobotService.Robot.StepOnce` | host/mowgli_lora/service.py:282-305 | the object's step takes, publishes, expires and flushes as specified |
| `RobotService.StepIsEvents` | host/mowgli_lora/service.py:282-305 | a step is a stretch of the end-to-end account, with the same state and output |
| `Completion.StepPublishesAll` | host/mowgli_lora/service.py:282-305 | the output of a step is that of publishing each completed frame in order and a flush |
| `InputPump.StepHandOff` | host/mowgli_lora/service.py:444-508 | every interleaved step keeps chunks of the current generation contiguous and in order |
| `InputPump.GenerationSafety` | host/mowgli_lora/service.py:590-629 | whenever the consumer first reads the generation: no put after a discard finds the queue full; ingested bytes are a prefix of the generation's; parser, queue and fragments come from them alone |
| `InputPump.WrittenIsCurrent` | host/mowgli_lora/service.py:613-629 | a fragment is written only while its generation is the current one |
| `InputPump.PutsExactly` | host/mowgli_lora/service.py:489-500 | a chunk joins the queue if it holds fewer than 64 items, and else a new generation must begin |
| `InputPump.AllHandedOver` | host/mowgli_lora/service.py:489-575 | over every interleaving each chunk read is handed over once, in order, but for the one in the reader's hand |
| `InputPump.BaseLoop.Turn` | host/mowgli_lora/service.py:613-629 | the guarded loop body on the objects |
| `TcpOutput.AdvanceStreams` | host/mowgli_lora/service.py:240-243 | a partial write moves octets from what waits to what was sent |
| `TcpOutput.PublishInv` | host/mowgli_lora/service.py:249-267 | publishing keeps every client's stream whole and the byte counters balanced |
| `TcpOutput.StreamPromise` | host/mowgli_lora/service.py:207-267 | over every run: sent then held is everything queued, in order; bounds hold; queued = sent + abandoned + held |
| `TcpOutput.PublishKeeps` | host/mowgli_lora/service.py:249-265 | a client is still connected after a publication, with exactly the frame added, if and only if it has no frame a second old, fewer than 64, and at most 64 * 1029 octets with it; survivors keep their order and are counted |
| `TcpOutput.FlushKeeps` | host/mowgli_lora/service.py:220-247 | a flush drops a client exactly if it is stale, failed or took nothing; a blocked one is unchanged, and any other loses exactly what it took |
| `TcpOutput.Accepted` | host/mowgli_lora/service.py:193-205 | newcomers are accepted in order up to sixteen clients |
| `TcpOutput.NoneMissed` | host/mowgli_lora/service.py:249-267 | over every run no connected client has missed a frame since some moment |
| `TcpOutput.TcpRtcmOutput.FlushClients` | host/mowgli_lora/service.py:220-243 | one send per client, with partial writes, drops and stale queues |
| `TcpOutput.TcpRtcmOutput.PublishFrame` | host/mowgli_lora/service.py:249-267 | the broadcast loop and the flush, as specified; `TcpOutput.PublishKeeps` and `TcpOutput.FlushKeeps` say who gets what |
| `TcpOutput.TcpRtcmOutput.AcceptClients` | host/mowgli_lora/service.py:193-205 | at most sixteen clients |
| `TcpOutput.TcpRtcmOutput.DropClient` | host/mowgli_lora/service.py:207-215 | dropping abandons exactly what the queue held |
| `StopCache.AnswerProps` | tools/lora_usb/application.py:416-443 | a request is applied exactly when it is accepted while running, and then stops |
| `StopCache.RunOnceFromStart` | tools/lora_usb/application.py:397-447 | over every run each key is applied at most once, ids increase per session, and the count is the number of stops |
| `StopCache.CachedExactly` | tools/lora_usb/application.py:408-414 | over every run a key's answer is at hand exactly if one was remembered and fewer than 64 since |
| `StopCache.SameKeyRemembered` | tools/lora_usb/application.py:416-436 | after an acceptance a request of the same key is remembered exactly if nothing is at hand and it is badly addressed or too old |
| `StopCache.Replay` | tools/lora_usb/application.py:416-443 | a replay of an accepted request changes nothing, and over every run its answer is the first one, ID_CONFLICT, EXPIRED or STALE_ID each under an exact condition on the inputs since |
| `StopCache.EvictedReplays` | tools/lora_usb/application.py:416-443 | runs of 64 other requests after which a replay is STALE_ID, EXPIRED, EXPIRED though young, and ID_CONFLICT |
| `StopCache.StopReceiver.ApplyRequest` | tools/lora_usb/application.py:416-443 | the object's answer is the specified answer |

## Left out

- Serial ports, sockets, the radio driver, threads and sleeping: only their results appear, as inputs.
- Metrics other than the counters that occur in conservation laws, logging, configuration, ROS and command-line code.
- RSSI and SNR conversion, air time, percentiles and rates: floating point without an invariant.
- Fixed-layout bodies of the application (HELLO, telemetry, ACK): only the parts other properties need.
- `Scheduler` of the mixed bench, bench runners and synthetic RTCM: not part of this model.
- The host's clock is an integer number of milliseconds; the rounding of `int((now - received_at) * 1000)` is not modelled.
- Link.LinkPromise: speaks of frames; that octets lost on the wire lose whole frames is `UsbProtocol.Recovers` and the CRC lemmas, and a corrupted frame that passes its CRC is not modelled.
- InputPump.GenerationSafety: the reader and the consumer are a transition system on values, because methods cannot express their interleaving; what each does under the lock is one step. Stopping the process while a put blocks is not modelled.
- TcpOutput.TcpRtcmOutput.PublishFrame: clients are a sequence in connection order instead of a dictionary keyed by socket; the sockets' identities play no part.
- Firmware.Modem.HandleOctets: the retry cache holds decoded frames instead of octets; `Envelope.OpenInjective` says that for accepted strings this is the same.
- Firmware.Modem.constructor: the firmware's globals other than the ring are one record updated in place, not a variable each.
- Uplink.StepUp: excludes the step in which the message counter wraps within a session, because keys are then reused (`Uplink.WrapReusesKey`).
- Uplink.WireOrder: as `Uplink.StepUp`, over runs.
- EndToEnd.EndToEndOrder: as `EndToEnd.EndToEndIntegrity`.
- EndToEnd.EndToEndIntegrity: is about the base's own run, without the step in which the message counter wraps, and takes what the robot hears as given; `Deployment.Deployed` derives that from the air and the robot's modem and transport.
- Deployment.Deployed: excludes the step in which the message counter wraps within a session (2^32 - 1 frames), after which keys are no longer one message's own (`Uplink.WrapReusesKey`); session values drawn at random are taken to be fresh; a packet altered on the air that passes the radio's and the application's CRC counts as forged.
