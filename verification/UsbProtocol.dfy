/**
 The USB framing seen from both ends: the host's frame codec and resynchronising
 stream decoder, and the firmware's receiver, which must accept the same language.
 */
module UsbProtocol {
  import opened Bytes
  import opened Wrappers
  import opened Envelope
  import Cobs

  const MAX_AIR_PAYLOAD: nat := 200
  const MAX_USB_PAYLOAD: nat := 256
  const MAX_DECODED: nat := 274
  const HOST_LIMIT: nat := 380      // the host's default `max_encoded`
  const FIRMWARE_LIMIT: nat := 278  // `UE`, the firmware's input buffer
  const RX_HEADER: nat := 16

  const HELLO: byte := 0x01
  const INFO: byte := 0x81
  const RADIO_SEND: byte := 0x02
  const RADIO_TX_RESULT: byte := 0x82
  const GET_STATUS: byte := 0x03
  const LINK_STATUS: byte := 0x83
  const GET_DIAGNOSTICS: byte := 0x04
  const DIAGNOSTICS: byte := 0x84
  const RADIO_RX: byte := 0x90
  const ERROR: byte := 0xFF

  /** `first` is the session, `second` the sequence. */
  type Frame = Sealed

  datatype ProtocolError =
    | BadIdentity | PayloadTooLarge | BadCobs | BadFrame | UnsupportedHeader
    | LengthMismatch | CrcMismatch | BadRadioPacket | BadRadioRx

  // ---- one frame ----------------------------------------------------------

  function EncodeFrame(f: Frame): (r: Result<bytes, ProtocolError>) {
    if f.first == 0 then Err(BadIdentity)
    else if |f.payload| > MAX_USB_PAYLOAD then Err(PayloadTooLarge)
    else Ok(Cobs.Encode(Seal(U, f)) + [0])
  }

  /** The host's checks, in the order the host makes them. */
  function ParseBody(b: bytes): (r: Result<Frame, ProtocolError>) {
    if |b| < 18 || |b| > MAX_DECODED || b[0] != M || b[1] != U then Err(BadFrame)
    else if b[2] != VERSION || b[4] != 0 || b[5] != 0 then Err(UnsupportedHeader)
    else if Get16(b, 14) > MAX_USB_PAYLOAD || |b| != 18 + Get16(b, 14) then Err(LengthMismatch)
    else if b[|b| - 2..] != Crc.Tail16(Crc.Crc16(b[..|b| - 2])) then Err(CrcMismatch)
    else Ok(Open(b))
  }

  function DecodeFrame(e: bytes): (r: Result<Frame, ProtocolError>) {
    match Cobs.Decode(e)
    case Err(_) => Err(BadCobs)
    case Ok(b) => ParseBody(b)
  }

  /** The host accepts exactly the well sealed strings of at most 274 octets. */
  lemma ParseIffWellSealed(b: bytes)
    ensures ParseBody(b).Ok? <==> WellSealed(U, b) && |b| <= MAX_DECODED
    ensures ParseBody(b).Ok? ==> ParseBody(b).value == Open(b)
  {
    hide Crc.Tail16, Crc.Crc16;
  }

  /** Everything that can be encoded comes back, and nothing else comes back as it. */
  lemma FrameRoundTrip(f: Frame)
    requires EncodeFrame(f).Ok?
    ensures var e := EncodeFrame(f).value;
      && e[|e| - 1] == 0 && 0 !in e[..|e| - 1] && 2 <= |e| <= 277
      && DecodeFrame(e[..|e| - 1]) == Ok(f)
    ensures forall g :: EncodeFrame(g) == EncodeFrame(f) ==> g == f
  {
    hide Cobs.Encode, Cobs.Decode, Seal, WellSealed;
    var s := Seal(U, f);
    Cobs.EncodedShape(s);
    Cobs.RoundTrip(s);
    SealOpens(U, f);
    ParseIffWellSealed(s);
    var e := EncodeFrame(f).value;
    assert e[..|e| - 1] == Cobs.Encode(s);
    forall g | EncodeFrame(g) == EncodeFrame(f) ensures g == f {
      var t := Seal(U, g);
      assert EncodeFrame(g).value[..|e| - 1] == Cobs.Encode(t);
      Cobs.EncodeInjective(s, t);
      SealOpens(U, g);
    }
  }

  // ---- the host's stream decoder -------------------------------------------

  datatype HostInput = HostInput(buffer: bytes, discarding: bool)

  const IDLE: HostInput := HostInput([], false)

  function HostByte(s: HostInput, z: byte, limit: nat): (HostInput, seq<Frame>) {
    if z == 0 then
      (IDLE, if !s.discarding && s.buffer != [] && DecodeFrame(s.buffer).Ok?
             then [DecodeFrame(s.buffer).value] else [])
    else if s.discarding then (s, [])
    else if |s.buffer| + 1 > limit then (HostInput([], true), [])
    else (HostInput(s.buffer + [z], false), [])
  }

  function HostRun(s: HostInput, data: bytes, limit: nat): (HostInput, seq<Frame>)
    decreases |data|
  {
    if data == [] then (s, [])
    else
      var (s', out) := HostByte(s, data[0], limit);
      var (s'', rest) := HostRun(s', data[1..], limit);
      (s'', out + rest)
  }

  lemma {:induction false} HostRunConcat(s: HostInput, a: bytes, b: bytes, limit: nat)
    ensures var (s1, f1) := HostRun(s, a, limit);
      var (s2, f2) := HostRun(s1, b, limit);
      HostRun(s, a + b, limit) == (s2, f1 + f2)
    decreases |a|
  {
    hide HostByte;
    if a == [] {
      assert a + b == b;
      assert [] + HostRun(s, b, limit).1 == HostRun(s, b, limit).1;
    } else {
      assert (a + b)[1..] == a[1..] + b;
      var (s', out) := HostByte(s, a[0], limit);
      HostRunConcat(s', a[1..], b, limit);
      var (s1, f1) := HostRun(s', a[1..], limit);
      assert out + (f1 + HostRun(s1, b, limit).1) == (out + f1) + HostRun(s1, b, limit).1;
    }
  }

  lemma HostRunOne(s: HostInput, z: byte, limit: nat)
    ensures HostRun(s, [z], limit) == HostByte(s, z, limit)
  {
    hide HostByte;
    assert [z][1..] == [];
    assert HostByte(s, z, limit).1 + [] == HostByte(s, z, limit).1;
  }

  lemma HostRunSnoc(s: HostInput, data: bytes, k: nat, limit: nat)
    requires k < |data|
    ensures var (s1, f1) := HostRun(s, data[..k], limit);
      var (s2, f2) := HostByte(s1, data[k], limit);
      HostRun(s, data[..k + 1], limit) == (s2, f1 + f2)
  {
    hide HostRun, HostByte;
    assert data[..k + 1] == data[..k] + [data[k]];
    HostRunConcat(s, data[..k], [data[k]], limit);
    HostRunOne(HostRun(s, data[..k], limit).0, data[k], limit);
  }

  class StreamDecoder {
    var buffer: bytes
    var discarding: bool
    const maxEncoded: nat

    constructor (maxEncoded: nat := HOST_LIMIT)
      ensures State() == IDLE && this.maxEncoded == maxEncoded
    {
      buffer, discarding := [], false;
      this.maxEncoded := maxEncoded;
    }

    function State(): HostInput
      reads this
    {
      HostInput(buffer, discarding)
    }

    method Feed(data: bytes) returns (frames: seq<Frame>)
      modifies this
      ensures (State(), frames) == HostRun(old(State()), data, maxEncoded)
    {
      hide DecodeFrame, HostRun;
      frames := [];
      ghost var start := State();
      HostRunNone(start, maxEncoded);
      assert data[..0] == [];
      for k := 0 to |data|
        invariant (State(), frames) == HostRun(start, data[..k], maxEncoded)
      {
        ghost var before, had := State(), frames;
        HostRunSnoc(start, data, k, maxEncoded);
        var z := data[k];
        if z == 0 {
          if !discarding && buffer != [] {
            match DecodeFrame(buffer)
            case Ok(f) => frames := frames + [f];
            case Err(_) =>
          }
          buffer, discarding := [], false;
        } else if !discarding {
          buffer := buffer + [z];
          if |buffer| > maxEncoded {
            buffer, discarding := [], true;
          }
        }
        assert frames == had + HostByte(before, z, maxEncoded).1;
      }
      assert data[..|data|] == data;
    }
  }

  lemma HostRunNone(s: HostInput, limit: nat)
    ensures HostRun(s, [], limit) == (s, [])
  {}

  // ---- the firmware's receiver ----------------------------------------------

  /** `seen` is what the input buffer holds; it keeps its contents while `over`. */
  datatype FirmwareInput = FirmwareInput(seen: bytes, over: bool)

  /** `handle` goes on to act on a frame exactly when it is well sealed and neither word is zero. */
  predicate Handled(b: bytes) {
    WellSealed(U, b) && Open(b).first != 0 && Open(b).second != 0
  }

  /** What the decoder hands to `handle` fits the decoded buffer. */
  predicate FirmwareAccepts(segment: bytes) {
    match Cobs.Decode(segment)
    case Ok(b) => |b| <= MAX_DECODED && Handled(b)
    case Err(_) => false
  }

  function FirmwareByte(s: FirmwareInput, z: byte): (FirmwareInput, seq<Frame>) {
    if z == 0 then
      (FirmwareInput([], false),
       if !s.over && s.seen != [] && FirmwareAccepts(s.seen)
       then [Open(Cobs.Decode(s.seen).value)] else [])
    else if s.over then (s, [])
    else if |s.seen| == FIRMWARE_LIMIT then (FirmwareInput(s.seen, true), [])
    else (FirmwareInput(s.seen + [z], false), [])
  }

  function FirmwareRun(s: FirmwareInput, data: bytes): (FirmwareInput, seq<Frame>)
    decreases |data|
  {
    if data == [] then (s, [])
    else
      var (s', out) := FirmwareByte(s, data[0]);
      var (s'', rest) := FirmwareRun(s', data[1..]);
      (s'', out + rest)
  }

  lemma {:induction false} FirmwareRunSnoc(s: FirmwareInput, data: bytes, k: nat)
    requires k < |data|
    ensures var (s1, f1) := FirmwareRun(s, data[..k]);
      var (s2, f2) := FirmwareByte(s1, data[k]);
      FirmwareRun(s, data[..k + 1]) == (s2, f1 + f2)
    decreases k
  {
    hide FirmwareByte;
    var (s', out) := FirmwareByte(s, data[0]);
    assert data[..k + 1][1..] == data[1..][..k];
    if k == 0 {
      assert FirmwareRun(s', []) == (s', []);
      assert out + [] == [] + out;
    } else {
      assert data[..k][1..] == data[1..][..k - 1];
      FirmwareRunSnoc(s', data[1..], k - 1);
      var (s1, f1) := FirmwareRun(s', data[1..][..k - 1]);
      assert out + (f1 + FirmwareByte(s1, data[k]).1) == (out + f1) + FirmwareByte(s1, data[k]).1;
    }
  }

  /** The receiver's fixed buffer, updated in place; frames handed on are returned. */
  class UsbReceiver {
    const input: array<byte>
    var inN: nat
    var over: bool

    ghost predicate Valid()
      reads this
    {
      input.Length == FIRMWARE_LIMIT && inN <= FIRMWARE_LIMIT && (over ==> inN == FIRMWARE_LIMIT)
    }

    constructor ()
      ensures Valid() && State() == FirmwareInput([], false) && fresh(input)
    {
      input := new byte[FIRMWARE_LIMIT];
      inN, over := 0, false;
    }

    ghost function State(): FirmwareInput
      reads this, input
      requires Valid()
    {
      FirmwareInput(input[..inN], over)
    }

    method UsbTask(data: bytes) returns (handled: seq<Frame>)
      requires Valid()
      modifies this`inN, this`over, input
      ensures Valid()
      ensures (State(), handled) == FirmwareRun(old(State()), data)
    {
      hide FirmwareRun, Crc.Crc16, Crc.Tail16, Get16, Get32, Cobs.Decode;
      handled := [];
      ghost var start := State();
      FirmwareRunNone(start);
      assert data[..0] == [];
      for k := 0 to |data|
        invariant Valid()
        invariant (State(), handled) == FirmwareRun(start, data[..k])
      {
        ghost var before, had := State(), handled;
        FirmwareRunSnoc(start, data, k);
        var z := data[k];
        if z == 0 {
          if !over && inN > 0 {
            var b := new byte[MAX_DECODED];
            var ok, n := Cobs.Dec(input[..inN], b);
            if ok && Handled(b[..n]) {
              handled := handled + [Open(b[..n])];
            }
          }
          inN, over := 0, false;
        } else if !over {
          if inN == input.Length {
            over := true;
          } else {
            ghost var seen := input[..inN];
            input[inN] := z;
            inN := inN + 1;
            assert input[..inN] == seen + [z];
          }
        }
        assert handled == had + FirmwareByte(before, z).1;
      }
      assert data[..|data|] == data;
    }
  }

  lemma FirmwareRunNone(s: FirmwareInput)
    ensures FirmwareRun(s, []) == (s, [])
  {}

  // ---- the two receivers accept the same language -----------------------------

  /** Both input states are functions of the octets since the last delimiter. */
  function HostAt(segment: bytes, limit: nat): HostInput {
    if |segment| <= limit then HostInput(segment, false) else HostInput([], true)
  }

  function FirmwareAt(segment: bytes): FirmwareInput {
    if |segment| <= FIRMWARE_LIMIT then FirmwareInput(segment, false)
    else FirmwareInput(segment[..FIRMWARE_LIMIT], true)
  }

  /** Frames with a session and a sequence: the commands. */
  function Commands(frames: seq<Frame>): (r: seq<Frame>) {
    if frames == [] then []
    else (if frames[0].first != 0 && frames[0].second != 0 then [frames[0]] else []) + Commands(frames[1..])
  }

  lemma CommandsOne(f: Frame)
    ensures Commands([f]) == if f.first != 0 && f.second != 0 then [f] else []
  {
    assert [f][1..] == [];
  }

  lemma CommandsConcat(a: seq<Frame>, b: seq<Frame>)
    ensures Commands(a + b) == Commands(a) + Commands(b)
  {
    if a == [] {
      assert a + b == b;
    } else {
      assert (a + b)[1..] == a[1..] + b;
    }
  }

  /** A segment whose contents fit 274 octets never reaches either input limit. */
  lemma LimitsUnobservable(segment: bytes)
    requires Cobs.Decode(segment).Ok? && |Cobs.Decode(segment).value| <= MAX_DECODED
    ensures |segment| <= 276
  {
    Cobs.DecodedLength(segment);
  }

  lemma SegmentAgrees(segment: bytes, limit: nat)
    requires 276 <= limit
    ensures var (h, a) := HostByte(HostAt(segment, limit), 0, limit);
      var (f, b) := FirmwareByte(FirmwareAt(segment), 0);
      b == Commands(a)
  {
    hide Cobs.Decode, ParseBody, Crc.Crc16, Crc.Tail16;
    match Cobs.Decode(segment)
    case Err(_) =>
    case Ok(b) =>
      ParseIffWellSealed(b);
      if |b| <= MAX_DECODED {
        LimitsUnobservable(segment);
      }
      if ParseBody(b).Ok? { CommandsOne(Open(b)); }
  }

  /**
   For every byte stream the firmware acts on exactly the frames the host's
   decoder would emit with a session and a sequence, for any host limit of 276
   or more: the limits 380 and 278 cannot be told apart.
   */
  lemma {:induction false} SameLanguageFrom(segment: bytes, data: bytes, limit: nat)
    requires 276 <= limit && 0 !in segment
    ensures FirmwareRun(FirmwareAt(segment), data).1 == Commands(HostRun(HostAt(segment, limit), data, limit).1)
    decreases |data|
  {
    hide HostByte, FirmwareByte;
    if data != [] {
      var z := data[0];
      var h, f := HostByte(HostAt(segment, limit), z, limit), FirmwareByte(FirmwareAt(segment), z);
      var next := if z == 0 then [] else segment + [z];
      InputsAt(segment, z, limit);
      if z == 0 { SegmentAgrees(segment, limit); }
      SameLanguageFrom(next, data[1..], limit);
      CommandsConcat(h.1, HostRun(h.0, data[1..], limit).1);
    }
  }

  lemma InputsAt(segment: bytes, z: byte, limit: nat)
    ensures var next := if z == 0 then [] else segment + [z];
      && HostByte(HostAt(segment, limit), z, limit).0 == HostAt(next, limit)
      && FirmwareByte(FirmwareAt(segment), z).0 == FirmwareAt(next)
      && (z != 0 ==> HostByte(HostAt(segment, limit), z, limit).1 == [] && FirmwareByte(FirmwareAt(segment), z).1 == [])
  {
    hide FirmwareAccepts, DecodeFrame;
    if z != 0 && |segment| >= FIRMWARE_LIMIT {
      assert (segment + [z])[..FIRMWARE_LIMIT] == segment[..FIRMWARE_LIMIT];
    }
  }

  lemma SameLanguage(data: bytes)
    ensures FirmwareRun(FirmwareInput([], false), data).1 == Commands(HostRun(IDLE, data, HOST_LIMIT).1)
  {
    SameLanguageFrom([], data, HOST_LIMIT);
  }

  // ---- recovery ----------------------------------------------------------------

  lemma {:induction false} HostCollects(segment: bytes, data: bytes, limit: nat)
    requires |segment| + |data| <= limit && 0 !in data
    ensures HostRun(HostAt(segment, limit), data, limit) == (HostAt(segment + data, limit), [])
    decreases |data|
  {
    hide DecodeFrame;
    if data == [] {
      assert segment + data == segment;
    } else {
      HostCollects(segment + [data[0]], data[1..], limit);
      assert segment + [data[0]] + data[1..] == segment + data;
      assert HostByte(HostAt(segment, limit), data[0], limit) == (HostAt(segment + [data[0]], limit), []);
      assert [] + HostRun(HostAt(segment + [data[0]], limit), data[1..], limit).1 == [];
    }
  }

  /**
   Whatever state the garbage left behind, once it ends in a delimiter the next
   valid frame is emitted, alone and last.
   */
  lemma Recovers(s: HostInput, garbage: bytes, f: Frame)
    requires EncodeFrame(f).Ok?
    ensures HostRun(s, garbage + [0] + EncodeFrame(f).value, HOST_LIMIT)
            == (IDLE, HostRun(s, garbage + [0], HOST_LIMIT).1 + [f])
  {
    hide EncodeFrame, DecodeFrame;
    var e := EncodeFrame(f).value;
    var g := garbage + [0];
    HostRunConcat(s, g, e, HOST_LIMIT);
    HostRunConcat(s, garbage, [0], HOST_LIMIT);
    var mid := HostRun(s, garbage, HOST_LIMIT).0;
    HostRunOne(mid, 0, HOST_LIMIT);
    FrameRoundTrip(f);
    var body := e[..|e| - 1];
    assert e == body + [0];
    HostCollects([], body, HOST_LIMIT);
    assert [] + body == body;
    HostRunConcat(IDLE, body, [0], HOST_LIMIT);
    HostRunOne(HostAt(body, HOST_LIMIT), 0, HOST_LIMIT);
    assert [] + [f] == [f];
  }

  // ---- the air and the way back ---------------------------------------------------

  /** The firmware's packet for one transmission; `first` is the boot id, `second` the air sequence. */
  function RadioPacket(boot: u32, air: u32, payload: bytes): bytes
    requires |payload| <= MAX_AIR_PAYLOAD
  {
    Seal(L, Sealed(1, boot, air, payload))
  }

  /** `received`: what a packet off the air must satisfy before it becomes an event. */
  predicate ReceivedWell(b: bytes) {
    WellSealed(L, b) && b[3] == 1 && 0 < Get16(b, 14) <= MAX_AIR_PAYLOAD
  }

  /** The event body: sender boot id, air sequence, signal metrics, uptime, then the payload. */
  function RxEvent(packet: bytes, rssi: u16, snr: u16, uptime: u32): (p: bytes)
    requires 18 <= |packet|
    ensures |p| == |packet| - 2
  {
    var s := Open(packet);
    Be32(s.first) + Be32(s.second) + Be16(rssi) + Be16(snr) + Be32(uptime) + s.payload
  }

  /** The host reads the event back; only the payload travels on. */
  function ParseRadioRx(p: bytes): (r: Result<bytes, ProtocolError>) {
    if |p| < RX_HEADER then Err(BadRadioRx) else Ok(p[RX_HEADER..])
  }

  /**
   The whole stack: what one host hands to its modem is what the other host
   reads, whatever sessions, identities, metrics and earlier input are involved.
   */
  lemma EndToEndPayload(
      payload: bytes, session: u32, sequence: u32, before: bytes,
      boot: u32, air: u32, rxSession: u32, rssi: u16, snr: u16, uptime: u32, s: HostInput, noise: bytes)
    requires 1 <= |payload| <= MAX_AIR_PAYLOAD
    requires session != 0 && sequence != 0 && rxSession != 0
    ensures var send := Sealed(RADIO_SEND, session, sequence, payload);
      && EncodeFrame(send).Ok?
      && FirmwareRun(FirmwareInput([], false), before + [0] + EncodeFrame(send).value).1
         == FirmwareRun(FirmwareInput([], false), before + [0]).1 + [send]
    ensures var packet := RadioPacket(boot, air, payload);
      var event := Sealed(RADIO_RX, rxSession, 0, RxEvent(packet, rssi, snr, uptime));
      && ReceivedWell(packet) && EncodeFrame(event).Ok?
      && HostRun(s, noise + [0] + EncodeFrame(event).value, HOST_LIMIT).1
         == HostRun(s, noise + [0], HOST_LIMIT).1 + [event]
      && ParseRadioRx(event.payload) == Ok(payload)
  {
    hide HostRun, FirmwareRun, Seal, WellSealed;
    var send := Sealed(RADIO_SEND, session, sequence, payload);
    Recovers(IDLE, before, send);
    SameLanguage(before + [0] + EncodeFrame(send).value);
    SameLanguage(before + [0]);
    CommandsConcat(HostRun(IDLE, before + [0], HOST_LIMIT).1, [send]);
    CommandsOne(send);
    var packet := RadioPacket(boot, air, payload);
    SealOpens(L, Sealed(1, boot, air, payload));
    SealedLength(Sealed(1, boot, air, payload));
    var event := Sealed(RADIO_RX, rxSession, 0, RxEvent(packet, rssi, snr, uptime));
    Recovers(s, noise, event);
    assert event.payload[RX_HEADER..] == payload;
  }

  lemma SealedLength(s: Sealed)
    requires |s.payload| < 0x1_0000
    ensures Get16(Seal(L, s), 14) == |s.payload|
  {
    hide Crc.Tail16, Crc.Crc16;
    SealOpens(L, s);
  }
}
