/** The modem firmware: one command window, a retry cache, one transmission at a time. */
module Firmware {
  import opened Bytes
  import opened Wrappers
  import opened Envelope
  import opened UsbProtocol
  import opened Ring

  const TX_WATCHDOG_MS: nat := 2000
  const E_UNSUPPORTED: u16 := 1
  const E_BAD: u16 := 2
  const E_NOTREADY: u16 := 3
  const E_WRONG: u16 := 4
  const E_BUSY: u16 := 5
  const E_STALE: u16 := 6
  const E_REUSED: u16 := 7
  const E_RADIO: u16 := 8
  const TIMED_OUT: u16 := 0xFFFF  // the radio library's unknown-error status, as a 16-bit word

  datatype Radio = Down | Recv | Transmitting

  datatype Counters = Counters(
    tx: u32, rx: u32, rxBad: u32, usbBad: u32, radio: u32, drops: u32,
    usbFrames: u32, usbAccepted: u32, sendAccepted: u32, txStarted: u32,
    rxEventQueued: u32, rxEventWritten: u32)

  /** `lastReq` and `lastResp` stand for the two buffers and their lengths; `None` is length zero. */
  datatype Fw = Fw(
    c: Counters, queue: seq<Entry>, ready: bool, irq: bool, rs: Radio,
    active: bool, session: u32, lastSeq: u32, pending: bool, haveLast: bool,
    lastReq: Option<Frame>, lastResp: Option<Frame>,
    boot: u32, airNext: u32, txSession: u32, txSeq: u32, txAir: u32, txStart: u32, txStartedMillis: u32,
    txPacket: bytes)

  /** What one call reads from the outside: clocks, the device id, and driver results. */
  datatype Env = Env(millis: u32, micros: u32, mac: bytes, started: bool, status: u16, listening: bool)

  // ---- queueing --------------------------------------------------------------

  function Enqueue(s: Fw, f: Frame, event: bool): Fw {
    var c := match PutFate(s.queue, event)
      case Stored => if event then s.c.(rxEventQueued := Inc32(s.c.rxEventQueued)) else s.c
      case StoredEvicting => s.c.(drops := Inc32(s.c.drops))
      case Refused => if event then s.c.(drops := Inc32(s.c.drops)) else s.c;
    s.(queue := Put(s.queue, Entry(f, event)), c := c)
  }

  /** `reply`: answer in the current session, remembered for an identical retry unless told otherwise. */
  function Reply(s: Fw, typ: byte, seqn: u32, payload: bytes, cache: bool): Fw {
    var f := Sealed(typ, s.session, seqn, payload);
    Enqueue(if cache then s.(lastResp := Some(f), haveLast := true) else s, f, false)
  }

  function ErrorBody(code: u16, detail: u16, typ: byte): bytes { Be16(code) + Be16(detail) + [typ] }

  function Error(s: Fw, seqn: u32, code: u16, detail: u16, typ: byte, cache: bool): Fw {
    Reply(s, ERROR, seqn, ErrorBody(code, detail, typ), cache)
  }

  /** `errorFor`: answer in the sender's own session, remembering nothing. */
  function ErrorFor(s: Fw, session: u32, seqn: u32, code: u16, typ: byte): Fw {
    Enqueue(s, Sealed(ERROR, session, seqn, ErrorBody(code, 0, typ)), false)
  }

  /** `flush`: the oldest entry leaves; it reaches the host only if it is written whole. */
  function Flush(s: Fw, room: bool, whole: bool): (Fw, Option<Frame>) {
    if s.queue == [] || !room then (s, None)
    else
      var e := s.queue[0];
      var c := if whole then (if e.event then s.c.(rxEventWritten := Inc32(s.c.rxEventWritten)) else s.c)
               else if e.event then s.c.(drops := Inc32(s.c.drops))
               else s.c.(usbBad := Inc32(s.c.usbBad));
      (s.(queue := s.queue[1..], c := c), if whole then Some(e.frame) else None)
  }

  // ---- sessions and commands ---------------------------------------------------

  function ResetSession(s: Fw, session: u32): Fw {
    s.(session := session, active := true, lastSeq := 0, haveLast := false,
       lastReq := None, lastResp := None, pending := false)
  }

  function Listen(s: Fw, ok: bool): Fw {
    if !s.ready then s
    else if ok then s.(irq := false, rs := Recv)
    else s.(irq := false, rs := Down, c := s.c.(radio := Inc32(s.c.radio)))
  }

  function InfoBody(boot: u32, ready: bool, e: Env): bytes {
    e.mac + Be32(boot) + Be32(15) + Be16(MAX_AIR_PAYLOAD) + [if ready then 1 else 0, 1] + Be32(e.millis)
  }

  function StatusBody(boot: u32, rs: Radio, c: Counters, e: Env): bytes {
    Be32(boot) + Be32(e.millis) + [match rs case Down => 0 case Recv => 1 case Transmitting => 2, 0, 0, 0]
    + Be32(c.tx) + Be32(c.rx) + Be32(c.rxBad) + Be32(c.usbBad) + Be32(c.radio) + Be32(c.drops)
  }

  function DiagnosticsBody(c: Counters, queued: nat): bytes {
    Be32(c.usbFrames) + Be32(c.usbAccepted) + Be32(c.sendAccepted) + Be32(c.txStarted) + Be32(c.tx)
    + Be32(c.rx) + Be32(c.rxEventQueued) + Be32(c.rxEventWritten) + Be32(c.drops) + Be32(queued % 0x1_0000_0000)
  }

  function TxOkBody(boot: u32, air: u32, start: u32, micros: u32): bytes {
    Be32(boot) + Be32(air) + Be32((micros as int - start as int) % 0x1_0000_0000)
  }

  /** The air sequence skips zero. */
  function AirSequence(s: Fw): (u32, u32) {
    if s.airNext == 0 then (1, 2) else (s.airNext, Inc32(s.airNext))
  }

  function SendAir(s: Fw, payload: bytes, seqn: u32, e: Env): Fw
    requires |payload| <= MAX_AIR_PAYLOAD
  {
    if !s.ready then Error(s, seqn, E_NOTREADY, 0, RADIO_SEND, true)
    else if s.rs == Transmitting || s.pending then Error(s, seqn, E_BUSY, 0, RADIO_SEND, true)
    else
      var t := Launch(s, payload, seqn, e);
      if e.started then t.(c := t.c.(txStarted := Inc32(t.c.txStarted)))
      else
        var u := t.(c := t.c.(radio := Inc32(t.c.radio)), rs := Down, pending := false);
        Listen(Error(u, seqn, E_RADIO, e.status, RADIO_SEND, true), e.listening)
  }

  /** Everything is in place before the driver is asked to start. */
  function Launch(s: Fw, payload: bytes, seqn: u32, e: Env): Fw
    requires |payload| <= MAX_AIR_PAYLOAD
  {
    var (air, next) := AirSequence(s);
    s.(airNext := next, txPacket := RadioPacket(s.boot, air, payload),
       irq := false, rs := Transmitting, pending := true,
       txSession := s.session, txSeq := seqn, txAir := air,
       txStart := e.micros, txStartedMillis := e.millis)
  }

  /** A well formed request counts as accepted. */
  function Credited(s: Fw): Fw { s.(c := s.c.(usbAccepted := Inc32(s.c.usbAccepted))) }

  function SendRequest(s: Fw, m: Frame, e: Env): Fw {
    if !(0 < |m.payload| <= MAX_AIR_PAYLOAD) then Error(s, m.second, E_BAD, 0, m.typ, true)
    else
      var ok := Credited(s);
      SendAir(ok.(c := ok.c.(sendAccepted := Inc32(ok.c.sendAccepted))), m.payload, m.second, e)
  }

  function StatusRequest(s: Fw, m: Frame, e: Env): Fw {
    if m.payload != [] then Error(s, m.second, E_BAD, 0, m.typ, true)
    else
      var ok := Credited(s);
      Reply(ok, LINK_STATUS, m.second, StatusBody(ok.boot, ok.rs, ok.c, e), true)
  }

  function DiagnosticsRequest(s: Fw, m: Frame): Fw {
    if m.payload != [] then Error(s, m.second, E_BAD, 0, m.typ, true)
    else
      var ok := Credited(s);
      Reply(ok, DIAGNOSTICS, m.second, DiagnosticsBody(ok.c, |ok.queue|), true)
  }

  function Dispatch(s: Fw, m: Frame, e: Env): Fw {
    if m.typ == RADIO_SEND then SendRequest(s, m, e)
    else if m.typ == GET_STATUS then StatusRequest(s, m, e)
    else if m.typ == GET_DIAGNOSTICS then DiagnosticsRequest(s, m)
    else Error(s, m.second, E_UNSUPPORTED, 0, m.typ, true)
  }

  /** A request that passed the session and sequence filter. */
  function Execute(s: Fw, m: Frame, e: Env): Fw {
    Dispatch(s.(lastReq := Some(m), lastSeq := m.second, haveLast := false), m, e)
  }

  /** The same sequence number again: the remembered answer, if it is the same request. */
  function Repeat(s: Fw, m: Frame): Fw {
    if s.haveLast && s.lastReq == Some(m) && s.lastResp.Some? then Enqueue(s, s.lastResp.value, false)
    else Error(s, m.second, E_REUSED, 0, m.typ, false)
  }

  function Hello(s: Fw, m: Frame, e: Env): Fw {
    if m.payload != [] then ErrorFor(s, m.first, m.second, E_BAD, m.typ)
    else if s.active && m.first == s.session && s.pending then Error(s, m.second, E_BUSY, 0, m.typ, false)
    else
      var newcomer := !s.active || m.first != s.session;
      if !newcomer && m.second < s.lastSeq then Error(s, m.second, E_STALE, 0, m.typ, false)
      else if !newcomer && m.second == s.lastSeq then Repeat(s, m)
      else Welcome(if newcomer then ResetSession(s, m.first) else s, m, e)
  }

  function Welcome(s: Fw, m: Frame, e: Env): Fw {
    var t := s.(lastReq := Some(m), lastSeq := m.second, c := s.c.(usbAccepted := Inc32(s.c.usbAccepted)));
    Reply(t, INFO, m.second, InfoBody(t.boot, t.ready, e), true)
  }

  /** `handle`, for a frame whose integrity has been checked and whose two words are not zero. */
  function Handle(s0: Fw, m: Frame, e: Env): Fw {
    var s := s0.(c := s0.c.(usbFrames := Inc32(s0.c.usbFrames)));
    if m.typ == HELLO then Hello(s, m, e) else Filter(s, m, e)
  }

  /** The session and sequence filter every other request goes through. */
  function Filter(s: Fw, m: Frame, e: Env): Fw {
    if !s.active || m.first != s.session then ErrorFor(s, m.first, m.second, E_WRONG, m.typ)
    else if m.second < s.lastSeq then Error(s, m.second, E_STALE, 0, m.typ, false)
    else if m.second == s.lastSeq then
      if s.pending then Error(s, m.second, E_BUSY, 0, m.typ, false) else Repeat(s, m)
    else if s.pending then Error(s, m.second, E_BUSY, 0, m.typ, false)
    else Execute(s, m, e)
  }

  // ---- the radio side ------------------------------------------------------------

  datatype RadioIn = RadioIn(
    finished: bool, status: u16, micros: u32, listening: bool,
    readable: bool, packet: bytes, rssi: u16, snr: u16, millis: u32)

  function Received(s: Fw, i: RadioIn): Fw {
    if !ReceivedWell(i.packet) then s.(c := s.c.(rxBad := Inc32(s.c.rxBad)))
    else
      var t := s.(c := s.c.(rx := Inc32(s.c.rx)));
      if !s.active then t
      else Enqueue(t, Sealed(RADIO_RX, s.session, 0, RxEvent(i.packet, i.rssi, i.snr, i.millis)), true)
  }

  function FinishTx(s: Fw, i: RadioIn): Fw {
    var t := s.(rs := Down);
    var mine := s.active && s.session == s.txSession;
    if i.finished then
      var u := t.(c := t.c.(tx := Inc32(t.c.tx)));
      var result := TxOkBody(s.boot, s.txAir, s.txStart, i.micros);
      if mine then Reply(u.(pending := false), RADIO_TX_RESULT, s.txSeq, result, true) else u
    else
      var u := t.(c := t.c.(radio := Inc32(t.c.radio)));
      if mine then Error(u.(pending := false), s.txSeq, E_RADIO, i.status, RADIO_SEND, true) else u
  }

  function RadioTask(s: Fw, i: RadioIn): Fw {
    if !s.irq || !s.ready then s
    else
      var t := s.(irq := false);
      if s.rs == Transmitting then Listen(FinishTx(t, i), i.listening)
      else if i.readable then Listen(Received(t, i), i.listening)
      else Listen(t.(c := t.c.(radio := Inc32(t.c.radio))), i.listening)
  }

  /** `millis() - txStartedMillis` is unsigned 32-bit subtraction. */
  predicate Overdue(s: Fw, millis: u32) {
    s.rs == Transmitting && (millis as int - s.txStartedMillis as int) % 0x1_0000_0000 >= TX_WATCHDOG_MS
  }

  function TxWatchdog(s: Fw, millis: u32, listening: bool): Fw {
    if !Overdue(s, millis) then s
    else
      var t := s.(c := s.c.(radio := Inc32(s.c.radio)), rs := Down);
      Listen(if s.active && s.session == s.txSession
             then Error(t.(pending := false), s.txSeq, E_RADIO, TIMED_OUT, RADIO_SEND, true) else t,
             listening)
  }

  /** Power-up, before and after radio initialisation. */
  function Boot(boot: u32, airNext: u32, ready: bool, listening: bool): Fw {
    Listen(Fw(Counters(0, 0, 0, 0, 0, 0, 0, 0, 0, 0, 0, 0), [], ready, false, Down, false, 0, 0, false, false,
              None, None, if boot == 0 then 1 else boot, if airNext == 0 then 1 else airNext,
              0, 0, 0, 0, 0, []), listening)
  }

  // ---- the invariant -----------------------------------------------------------------

  /** An answer that belongs to the request: its sequence, its session and its kind. */
  predicate Answers(req: Frame, resp: Frame) {
    && resp.first == req.first && resp.second == req.second
    && match resp.typ
       case 0x81 => req.typ == HELLO
       case 0x82 => req.typ == RADIO_SEND
       case 0x83 => req.typ == GET_STATUS
       case 0x84 => req.typ == GET_DIAGNOSTICS
       case 0xFF => req.typ != HELLO && 5 <= |resp.payload| && resp.payload[4] == req.typ
       case _ => false
  }

  ghost predicate Inv(s: Fw) {
    && |s.queue| <= SLOTS
    && (s.rs == Transmitting ==> s.ready && s.active)
    && (s.lastReq.Some? ==>
          && s.active && s.lastReq.value.first == s.session && s.lastReq.value.second == s.lastSeq
          && (s.lastReq.value.typ == HELLO ==> s.lastReq.value.payload == []))
    && (s.pending ==>
          && s.active && s.rs == Transmitting && s.txSession == s.session && s.txSeq == s.lastSeq && !s.haveLast
          && s.lastReq.Some? && s.lastReq.value.typ == RADIO_SEND)
    && (s.rs == Transmitting && s.session == s.txSession ==> s.pending)
    && (s.haveLast ==> s.lastReq.Some? && s.lastResp.Some? && Answers(s.lastReq.value, s.lastResp.value))
    && (s.active ==> s.session != 0)
  }

  /** A session value comes back while its own transmission is still on the air. */
  predicate Reintroduces(s: Fw, m: Frame) {
    && m.typ == HELLO && m.payload == []
    && s.rs == Transmitting && m.first == s.txSession && m.first != s.session
  }

  lemma BootInv(boot: u32, airNext: u32, ready: bool, listening: bool)
    ensures Inv(Boot(boot, airNext, ready, listening))
  {}

  lemma ErrorBodyType(code: u16, detail: u16, typ: byte)
    ensures |ErrorBody(code, detail, typ)| == 5 && ErrorBody(code, detail, typ)[4] == typ
  {}

  /** The invariant looks at neither counters nor queue contents. */
  lemma InvFrame(s: Fw, t: Fw)
    requires t == s.(queue := t.queue, c := t.c) && |t.queue| <= SLOTS && |s.queue| <= SLOTS
    ensures Inv(t) <==> Inv(s)
  {}

  /** The request is remembered and not yet answered. */
  ghost predicate Unanswered(s: Fw, m: Frame) {
    Inv(s) && s.lastReq == Some(m) && !s.haveLast && !s.pending && s.active && m.typ != HELLO
  }

  /** A remembered answer of the right kind keeps the invariant. */
  lemma ReplyInv(s: Fw, m: Frame, typ: byte, payload: bytes)
    requires Unanswered(s, m) && Answers(m, Sealed(typ, s.session, m.second, payload))
    ensures Inv(Reply(s, typ, m.second, payload, true))
  {
    hide Put, Answers;
  }

  lemma ErrorInv(s: Fw, m: Frame, code: u16, detail: u16)
    requires Unanswered(s, m)
    ensures Inv(Error(s, m.second, code, detail, m.typ, true))
  {
    hide Reply, ErrorBody;
    ErrorBodyType(code, detail, m.typ);
    ReplyInv(s, m, ERROR, ErrorBody(code, detail, m.typ));
  }

  lemma LaunchInv(s: Fw, m: Frame, e: Env)
    requires Unanswered(s, m) && m.typ == RADIO_SEND && |m.payload| <= MAX_AIR_PAYLOAD
    requires s.ready && s.rs != Transmitting
    ensures Inv(Launch(s, m.payload, m.second, e))
    ensures var t := Launch(s, m.payload, m.second, e).(rs := Down, pending := false); Unanswered(t, m) && t.rs == Down
  {
    hide RadioPacket, AirSequence;
  }

  /** The counters are free. */
  lemma CountersOpen(s: Fw, m: Frame, c: Counters)
    ensures Unanswered(s.(c := c), m) <==> Unanswered(s, m)
    ensures Inv(s.(c := c)) <==> Inv(s)
  {}

  lemma SendAirInv(s: Fw, m: Frame, e: Env)
    requires Unanswered(s, m) && m.typ == RADIO_SEND && |m.payload| <= MAX_AIR_PAYLOAD
    ensures Inv(SendAir(s, m.payload, m.second, e))
  {
    hide Inv, Error, Launch, Listen, Unanswered;
    if !s.ready {
      ErrorInv(s, m, E_NOTREADY, 0);
    } else if s.rs == Transmitting || s.pending {
      ErrorInv(s, m, E_BUSY, 0);
    } else {
      LaunchInv(s, m, e);
      var t := Launch(s, m.payload, m.second, e);
      if e.started {
        CountersOpen(t, m, t.c.(txStarted := Inc32(t.c.txStarted)));
      } else {
        var d := t.(rs := Down, pending := false);
        var u := t.(c := t.c.(radio := Inc32(t.c.radio)), rs := Down, pending := false);
        assert u == d.(c := u.c);
        CountersOpen(d, m, u.c);
        ErrorInv(u, m, E_RADIO, e.status);
        ErrorDown(u, m.second, E_RADIO, e.status, m.typ);
        ListenInv(Error(u, m.second, E_RADIO, e.status, RADIO_SEND, true), e.listening);
      }
    }
  }

  lemma ErrorDown(s: Fw, seqn: u32, code: u16, detail: u16, typ: byte)
    ensures Error(s, seqn, code, detail, typ, true).rs == s.rs
  {
    hide Put, ErrorBody;
  }

  lemma ExecuteInv(s: Fw, m: Frame, e: Env)
    requires Inv(s) && s.active && !s.pending && m.first == s.session && m.typ != HELLO
    ensures Inv(Execute(s, m, e))
  {
    assert Unanswered(s.(lastReq := Some(m), lastSeq := m.second, haveLast := false), m);
    hide Inv, Unanswered, Error, Reply, SendAir, StatusBody, DiagnosticsBody;
    var t := s.(lastReq := Some(m), lastSeq := m.second, haveLast := false);
    var ok := Credited(t);
    CountersOpen(t, m, ok.c);
    CountersOpen(t, m, ok.c.(sendAccepted := Inc32(ok.c.sendAccepted)));
    ErrorInv(t, m, E_BAD, 0);
    ErrorInv(t, m, E_UNSUPPORTED, 0);
    if m.typ == RADIO_SEND && 0 < |m.payload| <= MAX_AIR_PAYLOAD {
      SendAirInv(ok.(c := ok.c.(sendAccepted := Inc32(ok.c.sendAccepted))), m, e);
    } else if m.typ == GET_STATUS {
      AnswersPlain(m, LINK_STATUS, StatusBody(ok.boot, ok.rs, ok.c, e));
      ReplyInv(ok, m, LINK_STATUS, StatusBody(ok.boot, ok.rs, ok.c, e));
    } else if m.typ == GET_DIAGNOSTICS {
      AnswersPlain(m, DIAGNOSTICS, DiagnosticsBody(ok.c, |ok.queue|));
      ReplyInv(ok, m, DIAGNOSTICS, DiagnosticsBody(ok.c, |ok.queue|));
    }
  }

  lemma AnswersPlain(m: Frame, typ: byte, payload: bytes)
    requires (typ == LINK_STATUS && m.typ == GET_STATUS) || (typ == DIAGNOSTICS && m.typ == GET_DIAGNOSTICS)
    ensures Answers(m, Sealed(typ, m.first, m.second, payload))
  {}

  lemma FilterInv(s: Fw, m: Frame, e: Env)
    requires Inv(s) && m.typ != HELLO
    ensures Inv(Filter(s, m, e))
  {
    hide ErrorBody, Put, Execute;
    if Accepts(s, m) { ExecuteInv(s, m, e); }
  }

  /** Only the queue and the counters differ, and no transmission was started. */
  predicate Quiet(s: Fw, t: Fw) {
    t == s.(queue := t.queue, c := t.c) && t.c.txStarted == s.c.txStarted && (|s.queue| <= SLOTS ==> |t.queue| <= SLOTS)
  }

  lemma EnqueueQuiet(s: Fw, f: Frame, event: bool)
    ensures Quiet(s, Enqueue(s, f, event))
  {
    hide Put;
  }

  /** Uncached answers, errors in another session and repeats change nothing but queue and counters. */
  lemma AnswersQuiet(s: Fw, m: Frame, code: u16)
    ensures Quiet(s, Error(s, m.second, code, 0, m.typ, false))
    ensures Quiet(s, ErrorFor(s, m.first, m.second, code, m.typ))
    ensures Quiet(s, Repeat(s, m))
  {
    hide Enqueue, ErrorBody;
    EnqueueQuiet(s, Sealed(ERROR, s.session, m.second, ErrorBody(code, 0, m.typ)), false);
    EnqueueQuiet(s, Sealed(ERROR, s.session, m.second, ErrorBody(E_REUSED, 0, m.typ)), false);
    EnqueueQuiet(s, Sealed(ERROR, m.first, m.second, ErrorBody(code, 0, m.typ)), false);
    if s.lastResp.Some? { EnqueueQuiet(s, s.lastResp.value, false); }
  }

  lemma WelcomeInv(s: Fw, m: Frame, e: Env)
    requires |s.queue| <= SLOTS && s.active && !s.pending && s.session == m.first != 0
    requires s.rs == Transmitting ==> s.ready
    requires m.typ == HELLO && m.payload == []
    ensures Inv(Welcome(s, m, e)) <==> !(s.rs == Transmitting && s.session == s.txSession)
  {
    hide InfoBody, Put;
  }

  lemma HelloInv(s: Fw, m: Frame, e: Env)
    requires Inv(s) && m.first != 0 && m.typ == HELLO
    ensures Inv(Hello(s, m, e)) <==> !Reintroduces(s, m)
  {
    hide Error, ErrorFor, Repeat, Welcome;
    QueueBounded(s);
    AnswersQuiet(s, m, E_BAD);
    AnswersQuiet(s, m, E_BUSY);
    AnswersQuiet(s, m, E_STALE);
    var t := Hello(s, m, e);
    if Quiet(s, t) {
      assert Inv(t) <==> Inv(s) by {
        InvFrame(s, t);
      }
    }
    if m.payload == [] && !(s.active && m.first == s.session && s.pending) {
      if !s.active || m.first != s.session {
        WelcomeInv(ResetSession(s, m.first), m, e);
      } else if m.second > s.lastSeq {
        WelcomeInv(s, m, e);
      }
    }
  }

  /**
   The session machine keeps its invariant on every frame, exactly unless the
   frame reintroduces the session of a transmission that is still on the air.
   */
  lemma HandleInv(s: Fw, m: Frame, e: Env)
    requires Inv(s) && m.first != 0 && m.second != 0
    ensures Inv(Handle(s, m, e)) <==> !Reintroduces(s, m)
  {
    hide Hello, Filter, Inv;
    var t := s.(c := s.c.(usbFrames := Inc32(s.c.usbFrames)));
    QueueBounded(s);
    InvFrame(s, t);
    if m.typ == HELLO { HelloInv(t, m, e); } else { FilterInv(t, m, e); }
  }

  lemma QueueBounded(s: Fw)
    requires Inv(s)
    ensures |s.queue| <= SLOTS
  {}

  lemma FinishTxInv(s: Fw, i: RadioIn)
    requires Inv(s) && s.rs == Transmitting
    ensures Inv(FinishTx(s, i)) && FinishTx(s, i).rs == Down
  {
    hide ErrorBody, Put, TxOkBody;
    ErrorBodyType(E_RADIO, i.status, RADIO_SEND);
  }

  lemma ListenInv(s: Fw, ok: bool)
    requires Inv(s) && s.rs != Transmitting
    ensures Inv(Listen(s, ok))
  {}

  lemma RadioTaskInv(s: Fw, i: RadioIn)
    requires Inv(s)
    ensures Inv(RadioTask(s, i))
  {
    hide FinishTx, Listen, Put, ReceivedWell, RxEvent;
    if s.irq && s.ready {
      var t := s.(irq := false);
      if s.rs == Transmitting {
        FinishTxInv(t, i);
        ListenInv(FinishTx(t, i), i.listening);
      } else if i.readable {
        ListenInv(Received(t, i), i.listening);
      } else {
        ListenInv(t.(c := t.c.(radio := Inc32(t.c.radio))), i.listening);
      }
    }
  }

  lemma TxWatchdogInv(s: Fw, millis: u32, listening: bool)
    requires Inv(s)
    ensures Inv(TxWatchdog(s, millis, listening))
  {
    hide ErrorBody, Put;
    ErrorBodyType(E_RADIO, TIMED_OUT, RADIO_SEND);
  }

  lemma FlushInv(s: Fw, room: bool, whole: bool)
    requires Inv(s)
    ensures Inv(Flush(s, room, whole).0)
    ensures Flush(s, room, whole).1.Some? ==> s.queue != [] && Flush(s, room, whole).1.value == s.queue[0].frame
  {}

  // ---- what the invariant is for ---------------------------------------------------

  /** The fields that say what the radio is doing and has been told. */
  datatype Air = Air(
    rs: Radio, pending: bool, txSession: u32, txSeq: u32, txAir: u32, airNext: u32, txPacket: bytes, txStarted: u32)

  function AirOf(s: Fw): Air {
    Air(s.rs, s.pending, s.txSession, s.txSeq, s.txAir, s.airNext, s.txPacket, s.c.txStarted)
  }

  /** An identical retry of the last answered request queues the very same answer and touches nothing else. */
  lemma RetryIsIdempotent(s: Fw, m: Frame, e: Env)
    requires Inv(s) && s.haveLast && s.lastReq == Some(m)
    ensures var t := Handle(s, m, e);
      && t == s.(queue := t.queue, c := t.c)
      && t.queue == Put(s.queue, Entry(s.lastResp.value, false))
      && Answers(m, s.lastResp.value)
      && AirOf(t) == AirOf(s)
  {
    hide Put;
  }

  /** A retry while the transmission is still running is answered, not repeated. */
  lemma {:induction false} RetryWhilePending(s: Fw, m: Frame, e: Env)
    requires Inv(s) && s.pending && m.first == s.session
    ensures var t := Handle(s, m, e);
      t == s.(queue := t.queue, c := t.c) && AirOf(t) == AirOf(s)
  {
    hide Put;
  }

  /** `m` is accepted by the session and sequence filter. */
  predicate Accepts(s: Fw, m: Frame) {
    m.typ != HELLO && s.active && m.first == s.session && m.second > s.lastSeq && !s.pending
  }

  /** The frame starts a transmission. */
  predicate Starts(s: Fw, m: Frame, e: Env) {
    && Accepts(s, m) && m.typ == RADIO_SEND && 0 < |m.payload| <= MAX_AIR_PAYLOAD
    && s.ready && s.rs != Transmitting && e.started
  }

  /** The radio is told to transmit exactly this frame's payload. */
  predicate Launched(s: Fw, t: Fw, m: Frame) {
    && t.rs == Transmitting && t.pending && t.txSession == m.first && t.txSeq == m.second
    && |m.payload| <= MAX_AIR_PAYLOAD && t.txPacket == RadioPacket(s.boot, t.txAir, m.payload) && t.txAir != 0
    && t.c.txStarted == Inc32(s.c.txStarted)
  }

  /** No transmission is started, and a running one goes on undisturbed. */
  predicate NotLaunched(s: Fw, t: Fw) {
    && t.c.txStarted == s.c.txStarted
    && (t.rs == Transmitting ==>
          s.rs == Transmitting && t.txSession == s.txSession && t.txSeq == s.txSeq && t.txPacket == s.txPacket)
  }

  lemma ExecuteAir(s: Fw, m: Frame, e: Env)
    requires Inv(s) && Accepts(s, m)
    ensures if Starts(s, m, e) then Launched(s, Execute(s, m, e), m) else NotLaunched(s, Execute(s, m, e))
  {
    hide ErrorBody, Put, StatusBody, DiagnosticsBody, RadioPacket;
  }

  lemma WelcomeAir(s: Fw, m: Frame, e: Env)
    ensures NotLaunched(s, Welcome(s, m, e))
  {
    hide InfoBody, Put;
  }

  lemma HelloAir(s: Fw, m: Frame, e: Env)
    ensures NotLaunched(s, Hello(s, m, e))
  {
    hide Error, ErrorFor, Repeat, Welcome;
    AnswersQuiet(s, m, E_BAD);
    AnswersQuiet(s, m, E_BUSY);
    AnswersQuiet(s, m, E_STALE);
    WelcomeAir(s, m, e);
    WelcomeAir(ResetSession(s, m.first), m, e);
  }

  lemma FilterAir(s: Fw, m: Frame, e: Env)
    requires Inv(s) && m.typ != HELLO
    ensures if Starts(s, m, e) then Launched(s, Filter(s, m, e), m) else NotLaunched(s, Filter(s, m, e))
  {
    hide ErrorBody, Put, Execute, RadioPacket;
    if Accepts(s, m) { ExecuteAir(s, m, e); }
  }

  /** Only a new, well formed RADIO_SEND of the active session reaches the radio, with exactly its payload. */
  lemma HandleAir(s: Fw, m: Frame, e: Env)
    requires Inv(s)
    ensures if Starts(s, m, e) then Launched(s, Handle(s, m, e), m) else NotLaunched(s, Handle(s, m, e))
  {
    hide Hello, Filter, RadioPacket;
    var t := s.(c := s.c.(usbFrames := Inc32(s.c.usbFrames)));
    InvFrame(s, t);
    if m.typ == HELLO { HelloAir(t, m, e); } else { FilterAir(t, m, e); }
  }

  // ---- a session reintroduced on the air ----------------------------------------------

  /** The newest queued response. */
  function Newest(s: Fw): Option<Frame> {
    if s.queue == [] then None else Some(s.queue[|s.queue| - 1].frame)
  }

  /**
   The invariant cannot be kept in general: if the session of a running
   transmission is left and reintroduced, the transmission's result replaces the
   remembered INFO, and an identical retry of the HELLO gets a transmission result.
   */
  lemma ReintroductionBreaksTheCache()
    ensures
      var e := Env(0, 0, [0, 0, 0, 0, 0, 0], true, 0, true);
      var i := RadioIn(true, 0, 0, true, false, [], 0, 0, 0);
      var hello := Sealed(HELLO, 1, 1, []);
      var s1 := Handle(Boot(7, 7, true, true), hello, e);
      var s2 := Handle(s1, Sealed(RADIO_SEND, 1, 2, [9]), e);
      var s3 := Handle(s2, Sealed(HELLO, 2, 1, []), e);
      && Inv(s3) && Reintroduces(s3, hello)
      && var s4 := Handle(s3, hello, e);
      && var s5 := RadioTask(s4.(irq := true), i);
      && var s6 := Handle(s5, hello, e);
      && Newest(s6).Some? && Newest(s6).value.typ == RADIO_TX_RESULT && Newest(s6).value.second == 2
  {
    hide ErrorBody, InfoBody, RadioPacket, TxOkBody;
  }

  // ---- event conservation ---------------------------------------------------------------

  /** Equal modulo the counters' width. */
  predicate Balanced(d: int) { d % 0x1_0000_0000 == 0 }

  lemma Wraps(d: int)
    ensures Balanced(d) <==> Balanced(d + 0x1_0000_0000)
  {}

  /** Of `n` valid packets received while a session was active, each was written, dropped or is waiting. */
  ghost predicate Accounted(queue: seq<Entry>, written: u32, drops: u32, n: int) {
    Balanced(n - written - drops - |Events(queue)|)
  }

  ghost predicate EventsBalance(s: Fw, n: int) {
    |s.queue| <= SLOTS && Accounted(s.queue, s.c.rxEventWritten, s.c.drops, n)
  }

  lemma EnqueueBalance(s: Fw, f: Frame, event: bool, n: int)
    requires EventsBalance(s, n)
    ensures EventsBalance(Enqueue(s, f, event), if event then n + 1 else n)
  {
    hide Put, Events, Responses, Balanced;
    PutKinds(s.queue, Entry(f, event));
    var t := Enqueue(s, f, event);
    var d := n - s.c.rxEventWritten - s.c.drops - |Events(s.queue)|;
    var d' := (if event then n + 1 else n) - t.c.rxEventWritten - t.c.drops - |Events(t.queue)|;
    assert d' == d || d' == d + 0x1_0000_0000;
    Wraps(d);
  }

  lemma FlushBalance(s: Fw, room: bool, whole: bool, n: int)
    requires EventsBalance(s, n)
    ensures EventsBalance(Flush(s, room, whole).0, n)
  {
    hide Balanced;
    Wraps(n - s.c.rxEventWritten - s.c.drops - |Events(s.queue)|);
  }

  /** `t` differs from `s` in nothing the balance looks at. */
  predicate SameEvents(s: Fw, t: Fw) {
    t.queue == s.queue && t.c.rxEventWritten == s.c.rxEventWritten && t.c.drops == s.c.drops
  }

  lemma SameBalance(s: Fw, t: Fw, n: int)
    requires SameEvents(s, t) && EventsBalance(s, n)
    ensures EventsBalance(t, n)
  {}

  lemma ReplyBalance(s: Fw, typ: byte, seqn: u32, payload: bytes, cache: bool, n: int)
    requires EventsBalance(s, n)
    ensures EventsBalance(Reply(s, typ, seqn, payload, cache), n)
  {
    hide Accounted, Enqueue;
    var f := Sealed(typ, s.session, seqn, payload);
    var t := if cache then s.(lastResp := Some(f), haveLast := true) else s;
    SameBalance(s, t, n);
    EnqueueBalance(t, f, false, n);
  }

  lemma ListenBalance(s: Fw, ok: bool, n: int)
    requires EventsBalance(s, n)
    ensures EventsBalance(Listen(s, ok), n)
  {
    hide Accounted;
    SameBalance(s, Listen(s, ok), n);
  }

  lemma SendAirBalance(s: Fw, payload: bytes, seqn: u32, e: Env, n: int)
    requires EventsBalance(s, n) && |payload| <= MAX_AIR_PAYLOAD
    ensures EventsBalance(SendAir(s, payload, seqn, e), n)
  {
    hide EventsBalance, ErrorBody, RadioPacket, Reply, AirSequence, Listen;
    if !s.ready {
      ReplyBalance(s, ERROR, seqn, ErrorBody(E_NOTREADY, 0, RADIO_SEND), true, n);
    } else if s.rs == Transmitting || s.pending {
      ReplyBalance(s, ERROR, seqn, ErrorBody(E_BUSY, 0, RADIO_SEND), true, n);
    } else if e.started {
      SameBalance(s, SendAir(s, payload, seqn, e), n);
    } else {
      var t := Launch(s, payload, seqn, e).(rs := Down, pending := false, c := s.c.(radio := Inc32(s.c.radio)));
      SameBalance(s, t, n);
      ReplyBalance(t, ERROR, seqn, ErrorBody(E_RADIO, e.status, RADIO_SEND), true, n);
      ListenBalance(Error(t, seqn, E_RADIO, e.status, RADIO_SEND, true), e.listening, n);
    }
  }

  lemma ExecuteBalance(s: Fw, m: Frame, e: Env, n: int)
    requires EventsBalance(s, n)
    ensures EventsBalance(Execute(s, m, e), n)
  {
    hide EventsBalance, ErrorBody, StatusBody, DiagnosticsBody, SendAir, Reply;
    var t := s.(lastReq := Some(m), lastSeq := m.second, haveLast := false);
    var ok := t.(c := t.c.(usbAccepted := Inc32(t.c.usbAccepted)));
    SameBalance(s, t, n);
    SameBalance(s, ok, n);
    ReplyBalance(t, ERROR, m.second, ErrorBody(E_BAD, 0, m.typ), true, n);
    ReplyBalance(t, ERROR, m.second, ErrorBody(E_UNSUPPORTED, 0, m.typ), true, n);
    ReplyBalance(ok, LINK_STATUS, m.second, StatusBody(ok.boot, ok.rs, ok.c, e), true, n);
    ReplyBalance(ok, DIAGNOSTICS, m.second, DiagnosticsBody(ok.c, |ok.queue|), true, n);
    if m.typ == RADIO_SEND && 0 < |m.payload| <= MAX_AIR_PAYLOAD {
      var sending := ok.(c := ok.c.(sendAccepted := Inc32(ok.c.sendAccepted)));
      SameBalance(s, sending, n);
      SendAirBalance(sending, m.payload, m.second, e, n);
    }
  }

  /** Commands never create or lose an event unaccounted. */
  lemma HandleBalance(s: Fw, m: Frame, e: Env, n: int)
    requires EventsBalance(s, n)
    ensures EventsBalance(Handle(s, m, e), n)
  {
    hide Accounted, ErrorBody, InfoBody, Enqueue, Execute;
    forall t: Fw, f: Frame {:trigger Enqueue(t, f, false)} | EventsBalance(t, n)
      ensures EventsBalance(Enqueue(t, f, false), n)
    {
      EnqueueBalance(t, f, false, n);
    }
    forall t: Fw {:trigger Execute(t, m, e)} | EventsBalance(t, n)
      ensures EventsBalance(Execute(t, m, e), n)
    {
      ExecuteBalance(t, m, e, n);
    }
  }

  /** A packet counts when it is well formed and a session is active to report it to. */
  predicate Counts(s: Fw, i: RadioIn) {
    s.irq && s.ready && s.rs != Transmitting && i.readable && ReceivedWell(i.packet) && s.active
  }

  lemma FinishTxBalance(s: Fw, i: RadioIn, n: int)
    requires EventsBalance(s, n)
    ensures EventsBalance(FinishTx(s, i), n)
  {
    hide EventsBalance, ErrorBody, TxOkBody, Reply;
    var t := if i.finished then s.(rs := Down, c := s.c.(tx := Inc32(s.c.tx)))
             else s.(rs := Down, c := s.c.(radio := Inc32(s.c.radio)));
    SameBalance(s, t, n);
    SameBalance(s, t.(pending := false), n);
    var result := TxOkBody(s.boot, s.txAir, s.txStart, i.micros);
    ReplyBalance(t.(pending := false), RADIO_TX_RESULT, s.txSeq, result, true, n);
    ReplyBalance(t.(pending := false), ERROR, s.txSeq, ErrorBody(E_RADIO, i.status, RADIO_SEND), true, n);
  }

  lemma ReceivedBalance(s: Fw, i: RadioIn, n: int)
    requires EventsBalance(s, n)
    ensures EventsBalance(Received(s, i), if ReceivedWell(i.packet) && s.active then n + 1 else n)
  {
    hide EventsBalance, RxEvent, ReceivedWell, Enqueue;
    var bad := s.(c := s.c.(rxBad := Inc32(s.c.rxBad)));
    var t := s.(c := s.c.(rx := Inc32(s.c.rx)));
    SameBalance(s, bad, n);
    SameBalance(s, t, n);
    if ReceivedWell(i.packet) && s.active {
      WellLong(i.packet);
      EnqueueBalance(t, Sealed(RADIO_RX, s.session, 0, RxEvent(i.packet, i.rssi, i.snr, i.millis)), true, n);
    }
  }

  lemma WellLong(b: bytes)
    requires ReceivedWell(b)
    ensures 18 <= |b|
  {}

  lemma RadioTaskBalance(s: Fw, i: RadioIn, n: int)
    requires EventsBalance(s, n)
    ensures EventsBalance(RadioTask(s, i), if Counts(s, i) then n + 1 else n)
  {
    hide EventsBalance, FinishTx, Received, ReceivedWell, Listen;
    var t := s.(irq := false);
    SameBalance(s, t, n);
    if s.irq && s.ready {
      if s.rs == Transmitting {
        FinishTxBalance(t, i, n);
        ListenBalance(FinishTx(t, i), i.listening, n);
      } else if i.readable {
        ReceivedBalance(t, i, n);
        ListenBalance(Received(t, i), i.listening, if Counts(s, i) then n + 1 else n);
      } else {
        var u := t.(c := t.c.(radio := Inc32(t.c.radio)));
        SameBalance(s, u, n);
        ListenBalance(u, i.listening, n);
      }
    }
  }

  lemma TxWatchdogBalance(s: Fw, millis: u32, listening: bool, n: int)
    requires EventsBalance(s, n)
    ensures EventsBalance(TxWatchdog(s, millis, listening), n)
  {
    hide Accounted, ErrorBody, Enqueue;
    forall t: Fw, f: Frame {:trigger Enqueue(t, f, false)} | EventsBalance(t, n)
      ensures EventsBalance(Enqueue(t, f, false), n)
    {
      EnqueueBalance(t, f, false, n);
    }
  }

  // ---- whole runs --------------------------------------------------------------------------

  datatype Event =
    | Command(m: Frame, e: Env)
    | Interrupt
    | RadioTurn(i: RadioIn)
    | WatchdogTurn(millis: u32, listening: bool)
    | FlushTurn(room: bool, whole: bool)

  function Turn(s: Fw, v: Event): Fw {
    match v
    case Command(m, e) => Handle(s, m, e)
    case Interrupt => s.(irq := true)
    case RadioTurn(i) => RadioTask(s, i)
    case WatchdogTurn(t, l) => TxWatchdog(s, t, l)
    case FlushTurn(r, w) => Flush(s, r, w).0
  }

  function Turns(s: Fw, run: seq<Event>): Fw
    decreases |run|
  {
    if run == [] then s else Turns(Turn(s, run[0]), run[1..])
  }

  /** Packets that count over a run. */
  function Counted(s: Fw, run: seq<Event>): nat
    decreases |run|
  {
    if run == [] then 0
    else (if run[0].RadioTurn? && Counts(s, run[0].i) then 1 else 0) + Counted(Turn(s, run[0]), run[1..])
  }

  /** Every command is a frame `handle` acts on, and none reintroduces a session on the air. */
  ghost predicate Orderly(s: Fw, run: seq<Event>)
    decreases |run|
  {
    run == [] || (
      && (run[0].Command? ==> run[0].m.first != 0 && run[0].m.second != 0 && !Reintroduces(s, run[0].m))
      && Orderly(Turn(s, run[0]), run[1..]))
  }

  lemma {:induction false} RunInv(s: Fw, run: seq<Event>)
    requires Inv(s) && Orderly(s, run)
    ensures Inv(Turns(s, run))
    decreases |run|
  {
    hide Handle, RadioTask, TxWatchdog, Flush, Inv, Reintroduces;
    if run != [] {
      match run[0] {
        case Command(m, e) => HandleInv(s, m, e);
        case Interrupt => InterruptInv(s);
        case RadioTurn(i) => RadioTaskInv(s, i);
        case WatchdogTurn(t, l) => TxWatchdogInv(s, t, l);
        case FlushTurn(r, w) => FlushInv(s, r, w);
      }
      RunInv(Turn(s, run[0]), run[1..]);
    }
  }

  lemma InterruptInv(s: Fw)
    ensures Inv(s.(irq := true)) <==> Inv(s)
  {}

  /**
   Conservation over every run, orderly or not: written, dropped and waiting
   events add up to the packets received.
   */
  lemma {:induction false} RunBalance(s: Fw, run: seq<Event>, n: int)
    requires EventsBalance(s, n)
    ensures EventsBalance(Turns(s, run), n + Counted(s, run))
    decreases |run|
  {
    hide Handle, RadioTask, TxWatchdog, Flush, Accounted, Counts;
    if run != [] {
      match run[0] {
        case Command(m, e) => HandleBalance(s, m, e, n);
        case Interrupt =>
        case RadioTurn(i) => RadioTaskBalance(s, i, n);
        case WatchdogTurn(t, l) => TxWatchdogBalance(s, t, l, n);
        case FlushTurn(r, w) => FlushBalance(s, r, w, n);
      }
      var k := if run[0].RadioTurn? && Counts(s, run[0].i) then 1 else 0;
      RunBalance(Turn(s, run[0]), run[1..], n + k);
    }
  }

  lemma RunBalanceFromBoot(boot: u32, airNext: u32, ready: bool, listening: bool, run: seq<Event>)
    ensures EventsBalance(Turns(Boot(boot, airNext, ready, listening), run),
                          Counted(Boot(boot, airNext, ready, listening), run))
  {
    assert EventsBalance(Boot(boot, airNext, ready, listening), 0);
    hide Turns, Counted, Boot, Accounted;
    RunBalance(Boot(boot, airNext, ready, listening), run, 0);
  }

  // ---- the object ------------------------------------------------------------------------

  /** The ring, and the other file-level variables as one record updated in place (its `queue` stays empty). */
  class Modem {
    const ring: OutputRing
    var v: Fw

    ghost predicate Valid()
      reads this, ring
    {
      ring.Valid() && v.queue == []
    }

    ghost function State(): Fw
      reads this, ring, ring.q
      requires Valid()
    {
      v.(queue := ring.Contents())
    }

    /** `setup`, once the driver has answered. */
    constructor (boot: u32, airNext: u32, ready: bool, listening: bool)
      ensures Valid() && State() == Boot(boot, airNext, ready, listening)
      ensures fresh(ring) && fresh(ring.q)
    {
      ring := new OutputRing(Entry(Sealed(0, 0, 0, []), false));
      v := Fw(Counters(0, 0, 0, 0, 0, 0, 0, 0, 0, 0, 0, 0), [], ready, false, Down, false, 0, 0, false, false,
              None, None, if boot == 0 then 1 else boot, if airNext == 0 then 1 else airNext,
              0, 0, 0, 0, 0, []);
      new;
      assert ring.Contents() == [];
      ListenAgain(listening);
    }

    method ListenAgain(ok: bool)
      requires Valid()
      modifies this
      ensures Valid() && State() == Listen(old(State()), ok)
    {
      if !v.ready { return; }
      v := v.(irq := false);
      if ok {
        v := v.(rs := Recv);
      } else {
        v := v.(rs := Down, c := v.c.(radio := Inc32(v.c.radio)));
      }
    }

    method PutQ(f: Frame, event: bool)
      requires Valid()
      modifies this, ring`qt, ring`qn, ring.q
      ensures Valid() && State() == Enqueue(old(State()), f, event)
    {
      hide Put;
      var fate := ring.PutQ(Entry(f, event));
      match fate
      case Stored => if event { v := v.(c := v.c.(rxEventQueued := Inc32(v.c.rxEventQueued))); }
      case StoredEvicting => v := v.(c := v.c.(drops := Inc32(v.c.drops)));
      case Refused => if event { v := v.(c := v.c.(drops := Inc32(v.c.drops))); }
    }

    method SendReply(typ: byte, seqn: u32, payload: bytes, cache: bool)
      requires Valid()
      modifies this, ring, ring.q
      ensures Valid() && State() == Reply(old(State()), typ, seqn, payload, cache)
    {
      hide Enqueue;
      var f := Sealed(typ, v.session, seqn, payload);
      if cache {
        v := v.(lastResp := Some(f));
        v := v.(haveLast := true);
      }
      PutQ(f, false);
    }

    method SendError(seqn: u32, code: u16, detail: u16, typ: byte, cache: bool)
      requires Valid()
      modifies this, ring, ring.q
      ensures Valid() && State() == Error(old(State()), seqn, code, detail, typ, cache)
    {
      hide Reply, ErrorBody;
      SendReply(ERROR, seqn, ErrorBody(code, detail, typ), cache);
    }

    method SendErrorFor(ses: u32, seqn: u32, code: u16, typ: byte)
      requires Valid()
      modifies this, ring, ring.q
      ensures Valid() && State() == ErrorFor(old(State()), ses, seqn, code, typ)
    {
      hide Enqueue, ErrorBody;
      PutQ(Sealed(ERROR, ses, seqn, ErrorBody(code, 0, typ)), false);
    }

    /** Write the oldest entry if there is room; it is gone whether or not it is written whole. */
    method FlushOne(room: bool, whole: bool) returns (written: Option<Frame>)
      requires Valid()
      modifies this, ring`qh, ring`qn
      ensures Valid() && (State(), written) == Flush(old(State()), room, whole)
    {
      if ring.qn == 0 || !room {
        return None;
      }
      var e := ring.Pop();
      if whole && e.event {
        v := v.(c := v.c.(rxEventWritten := Inc32(v.c.rxEventWritten)));
      } else if !whole {
        if e.event {
          v := v.(c := v.c.(drops := Inc32(v.c.drops)));
        } else {
          v := v.(c := v.c.(usbBad := Inc32(v.c.usbBad)));
        }
      }
      return if whole then Some(e.frame) else None;
    }

    method Transmit(payload: bytes, seqn: u32, e: Env)
      requires Valid() && |payload| <= MAX_AIR_PAYLOAD
      modifies this, ring, ring.q
      ensures Valid() && State() == SendAir(old(State()), payload, seqn, e)
    {
      hide Error, Launch, Listen;
      if !v.ready {
        SendError(seqn, E_NOTREADY, 0, RADIO_SEND, true);
        return;
      }
      if v.rs == Transmitting || v.pending {
        SendError(seqn, E_BUSY, 0, RADIO_SEND, true);
        return;
      }
      Prepare(payload, seqn, e);
      if !e.started {
        v := v.(c := v.c.(radio := Inc32(v.c.radio)));
        v := v.(rs := Down, pending := false);
        SendError(seqn, E_RADIO, e.status, RADIO_SEND, true);
        ListenAgain(e.listening);
        return;
      }
      v := v.(c := v.c.(txStarted := Inc32(v.c.txStarted)));
    }

    method Prepare(payload: bytes, seqn: u32, e: Env)
      requires Valid() && |payload| <= MAX_AIR_PAYLOAD
      modifies this
      ensures Valid() && State() == Launch(old(State()), payload, seqn, e)
    {
      hide RadioPacket;
      var air := v.airNext;
      var next := Inc32(air);
      if air == 0 {
        air := next;
        next := Inc32(next);
      }
      v := v.(airNext := next, txPacket := RadioPacket(v.boot, air, payload),
              irq := false, rs := Transmitting, pending := true,
              txSession := v.session, txSeq := seqn, txAir := air,
              txStart := e.micros, txStartedMillis := e.millis);
    }

    method HandleHello(m: Frame, e: Env)
      requires Valid()
      modifies this, ring, ring.q
      ensures Valid() && State() == Hello(old(State()), m, e)
    {
      hide Error, ErrorFor, Welcome, Repeat;
      if m.payload != [] {
        SendErrorFor(m.first, m.second, E_BAD, m.typ);
        return;
      }
      if v.active && m.first == v.session && v.pending {
        SendError(m.second, E_BUSY, 0, m.typ, false);
        return;
      }
      if !v.active || m.first != v.session {
        v := ResetSession(v, m.first);
      } else if m.second < v.lastSeq {
        SendError(m.second, E_STALE, 0, m.typ, false);
        return;
      } else if m.second == v.lastSeq {
        HandleRepeat(m);
        return;
      }
      SendWelcome(m, e);
    }

    method SendWelcome(m: Frame, e: Env)
      requires Valid()
      modifies this, ring, ring.q
      ensures Valid() && State() == Welcome(old(State()), m, e)
    {
      hide Reply, InfoBody;
      v := v.(lastReq := Some(m), lastSeq := m.second);
      v := v.(c := v.c.(usbAccepted := Inc32(v.c.usbAccepted)));
      SendReply(INFO, m.second, InfoBody(v.boot, v.ready, e), true);
    }

    method HandleRepeat(m: Frame)
      requires Valid()
      modifies this, ring, ring.q
      ensures Valid() && State() == Repeat(old(State()), m)
    {
      hide Error, Enqueue;
      if v.haveLast && v.lastReq == Some(m) && v.lastResp.Some? {
        PutQ(v.lastResp.value, false);
      } else {
        SendError(m.second, E_REUSED, 0, m.typ, false);
      }
    }

    method Accept()
      requires Valid()
      modifies this
      ensures Valid() && State() == Credited(old(State()))
    {
      v := v.(c := v.c.(usbAccepted := Inc32(v.c.usbAccepted)));
    }

    method ExecuteSend(m: Frame, e: Env)
      requires Valid()
      modifies this, ring, ring.q
      ensures Valid() && State() == SendRequest(old(State()), m, e)
    {
      hide Error, SendAir;
      if !(0 < |m.payload| <= MAX_AIR_PAYLOAD) {
        SendError(m.second, E_BAD, 0, m.typ, true);
        return;
      }
      Accept();
      v := v.(c := v.c.(sendAccepted := Inc32(v.c.sendAccepted)));
      Transmit(m.payload, m.second, e);
    }

    method ExecuteStatus(m: Frame, e: Env)
      requires Valid()
      modifies this, ring, ring.q
      ensures Valid() && State() == StatusRequest(old(State()), m, e)
    {
      hide Error, Reply, StatusBody;
      if m.payload != [] {
        SendError(m.second, E_BAD, 0, m.typ, true);
        return;
      }
      Accept();
      SendReply(LINK_STATUS, m.second, StatusBody(v.boot, v.rs, v.c, e), true);
    }

    method ExecuteDiagnostics(m: Frame)
      requires Valid()
      modifies this, ring, ring.q
      ensures Valid() && State() == DiagnosticsRequest(old(State()), m)
    {
      hide Error, Reply, DiagnosticsBody;
      if m.payload != [] {
        SendError(m.second, E_BAD, 0, m.typ, true);
        return;
      }
      Accept();
      SendReply(DIAGNOSTICS, m.second, DiagnosticsBody(v.c, ring.qn), true);
    }

    method ExecuteRequest(m: Frame, e: Env)
      requires Valid()
      modifies this, ring, ring.q
      ensures Valid() && State() == Execute(old(State()), m, e)
    {
      hide Error, SendRequest, StatusRequest, DiagnosticsRequest;
      v := v.(lastReq := Some(m), lastSeq := m.second, haveLast := false);
      if m.typ == RADIO_SEND {
        ExecuteSend(m, e);
      } else if m.typ == GET_STATUS {
        ExecuteStatus(m, e);
      } else if m.typ == GET_DIAGNOSTICS {
        ExecuteDiagnostics(m);
      } else {
        SendError(m.second, E_UNSUPPORTED, 0, m.typ, true);
      }
    }

    /** `handle`, from the raw octets: bad ones are only counted. */
    method HandleOctets(b: bytes, e: Env)
      requires Valid()
      modifies this, ring, ring.q
      ensures Valid()
      ensures State() == if Handled(b) then Handle(old(State()), Open(b), e)
                         else old(State()).(c := old(v).c.(usbBad := Inc32(old(v).c.usbBad)))
    {
      hide Handle, WellSealed;
      if !WellSealed(U, b) {
        v := v.(c := v.c.(usbBad := Inc32(v.c.usbBad)));
        return;
      }
      SealedLong(b);
      var m := Open(b);
      if m.first == 0 || m.second == 0 {
        v := v.(c := v.c.(usbBad := Inc32(v.c.usbBad)));
        return;
      }
      HandleFrame(m, e);
    }

    method HandleFrame(m: Frame, e: Env)
      requires Valid()
      modifies this, ring, ring.q
      ensures Valid() && State() == Handle(old(State()), m, e)
    {
      hide Hello, Filter;
      v := v.(c := v.c.(usbFrames := Inc32(v.c.usbFrames)));
      if m.typ == HELLO {
        HandleHello(m, e);
      } else {
        FilterRequest(m, e);
      }
    }

    method FilterRequest(m: Frame, e: Env)
      requires Valid()
      modifies this, ring, ring.q
      ensures Valid() && State() == Filter(old(State()), m, e)
    {
      hide Error, ErrorFor, Repeat, Execute;
      if !v.active || m.first != v.session {
        SendErrorFor(m.first, m.second, E_WRONG, m.typ);
      } else if m.second < v.lastSeq {
        SendError(m.second, E_STALE, 0, m.typ, false);
      } else if m.second == v.lastSeq {
        if v.pending {
          SendError(m.second, E_BUSY, 0, m.typ, false);
        } else {
          HandleRepeat(m);
        }
      } else if v.pending {
        SendError(m.second, E_BUSY, 0, m.typ, false);
      } else {
        ExecuteRequest(m, e);
      }
    }

    method ReceivePacket(i: RadioIn)
      requires Valid()
      modifies this, ring, ring.q
      ensures Valid() && State() == Received(old(State()), i)
    {
      hide Enqueue, ReceivedWell, RxEvent;
      if !ReceivedWell(i.packet) {
        v := v.(c := v.c.(rxBad := Inc32(v.c.rxBad)));
        return;
      }
      WellLong(i.packet);
      v := v.(c := v.c.(rx := Inc32(v.c.rx)));
      if v.active {
        PutQ(Sealed(RADIO_RX, v.session, 0, RxEvent(i.packet, i.rssi, i.snr, i.millis)), true);
      }
    }

    method FinishTransmission(i: RadioIn)
      requires Valid()
      modifies this, ring, ring.q
      ensures Valid() && State() == FinishTx(old(State()), i)
    {
      hide Reply, Error, TxOkBody;
      v := v.(rs := Down);
      var mine := v.active && v.session == v.txSession;
      if i.finished {
        v := v.(c := v.c.(tx := Inc32(v.c.tx)));
        if mine { ReportDone(i.micros); }
      } else {
        v := v.(c := v.c.(radio := Inc32(v.c.radio)));
        if mine { ReportFailure(i.status); }
      }
    }

    method ReportDone(micros: u32)
      requires Valid()
      modifies this, ring, ring.q
      ensures Valid() && var s := old(State()).(pending := false);
        State() == Reply(s, RADIO_TX_RESULT, s.txSeq, TxOkBody(s.boot, s.txAir, s.txStart, micros), true)
    {
      hide Reply, TxOkBody;
      v := v.(pending := false);
      SendReply(RADIO_TX_RESULT, v.txSeq, TxOkBody(v.boot, v.txAir, v.txStart, micros), true);
    }

    method ReportFailure(status: u16)
      requires Valid()
      modifies this, ring, ring.q
      ensures Valid() && var s := old(State()).(pending := false);
        State() == Error(s, s.txSeq, E_RADIO, status, RADIO_SEND, true)
    {
      hide Error;
      v := v.(pending := false);
      SendError(v.txSeq, E_RADIO, status, RADIO_SEND, true);
    }

    method RunRadioTask(i: RadioIn)
      requires Valid()
      modifies this, ring, ring.q
      ensures Valid() && State() == RadioTask(old(State()), i)
    {
      hide FinishTx, Received, Listen;
      if !v.irq || !v.ready {
        return;
      }
      v := v.(irq := false);
      if v.rs == Transmitting {
        FinishTransmission(i);
      } else if i.readable {
        ReceivePacket(i);
      } else {
        v := v.(c := v.c.(radio := Inc32(v.c.radio)));
      }
      ListenAgain(i.listening);
    }

    method RunTxWatchdog(millis: u32, listening: bool)
      requires Valid()
      modifies this, ring, ring.q
      ensures Valid() && State() == TxWatchdog(old(State()), millis, listening)
    {
      hide Error, Listen;
      if v.rs != Transmitting || (millis as int - v.txStartedMillis as int) % 0x1_0000_0000 < TX_WATCHDOG_MS {
        return;
      }
      v := v.(c := v.c.(radio := Inc32(v.c.radio)));
      v := v.(rs := Down);
      if v.active && v.session == v.txSession {
        v := v.(pending := false);
        SendError(v.txSeq, E_RADIO, TIMED_OUT, RADIO_SEND, true);
      }
      ListenAgain(listening);
    }
  }

  lemma SealedLong(b: bytes)
    requires WellSealed(U, b)
    ensures 18 <= |b|
  {}
}
