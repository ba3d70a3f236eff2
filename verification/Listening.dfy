/** The modem listens whenever it is not transmitting, gives up in time, and numbers what it transmits. */
module Listening {
  import opened Bytes
  import opened Wrappers
  import opened Envelope
  import opened UsbProtocol
  import opened Ring
  import opened Firmware

  // ---- after every use of the radio ---------------------------------------------------

  /** Receiving, unless the driver refused to. */
  predicate Listens(t: Fw, listening: bool) { t.rs == (if listening then Recv else Down) && !t.irq }

  lemma ReceivedKeepsReady(s: Fw, i: RadioIn)
    ensures var t := Received(s, i); t.ready == s.ready && t.airNext == s.airNext && t.txAir == s.txAir
  {
    hide Put, ReceivedWell, RxEvent;
  }

  lemma ReplyKeepsRadio(s: Fw, typ: byte, seqn: u32, payload: bytes, cache: bool)
    ensures var t := Reply(s, typ, seqn, payload, cache);
      && t.ready == s.ready && t.rs == s.rs && t.irq == s.irq && t.active == s.active && t.session == s.session
      && t.airNext == s.airNext && t.txAir == s.txAir && t.pending == s.pending
  {
    hide Put;
  }

  lemma FinishKeepsReady(s: Fw, i: RadioIn)
    ensures var t := FinishTx(s, i); t.ready == s.ready && t.airNext == s.airNext && t.txAir == s.txAir
  {
    hide Reply, ErrorBody, TxOkBody;
    var t := s.(rs := Down);
    var u := (if i.finished then t.(c := t.c.(tx := Inc32(t.c.tx))) else t.(c := t.c.(radio := Inc32(t.c.radio))));
    var v := u.(pending := false);
    ReplyKeepsRadio(v, RADIO_TX_RESULT, s.txSeq, TxOkBody(s.boot, s.txAir, s.txStart, i.micros), true);
    ReplyKeepsRadio(v, ERROR, s.txSeq, ErrorBody(E_RADIO, i.status, RADIO_SEND), true);
  }

  /** Whatever the interrupt was for, transmission done or failed, packet read or not, the modem listens again. */
  lemma RadioTaskListens(s: Fw, i: RadioIn)
    requires s.irq && s.ready
    ensures Listens(RadioTask(s, i), i.listening) && RadioTask(s, i).ready
  {
    hide FinishTx, Received;
    FinishKeepsReady(s.(irq := false), i);
    ReceivedKeepsReady(s.(irq := false), i);
  }

  /**
   A transmission that has run for `d` milliseconds, whatever the clock's wrap-around,
   is given up exactly if `d` is two seconds or more, and then the modem listens.
   */
  lemma WatchdogExactly(s: Fw, d: nat, listening: bool)
    requires s.rs == Transmitting && s.ready && d < 0x1_0000_0000
    ensures var t := TxWatchdog(s, (s.txStartedMillis + d) % 0x1_0000_0000, listening);
      && (d < 2000 ==> t == s)
      && (d >= 2000 ==> Listens(t, listening) && (s.active && s.session == s.txSession ==> !t.pending))
  {
    hide Reply, ErrorBody;
    var millis: u32 := (s.txStartedMillis + d) % 0x1_0000_0000;
    assert (millis as int - s.txStartedMillis as int) % 0x1_0000_0000 == d;
    var u := s.(c := s.c.(radio := Inc32(s.c.radio)), rs := Down).(pending := false);
    ReplyKeepsRadio(u, ERROR, s.txSeq, ErrorBody(E_RADIO, TIMED_OUT, RADIO_SEND), true);
  }

  /** A send the driver refuses to start leaves the modem listening and free for the next. */
  lemma RefusedStartListens(s: Fw, payload: bytes, seqn: u32, e: Env)
    requires |payload| <= MAX_AIR_PAYLOAD && s.ready && s.rs != Transmitting && !s.pending && !e.started
    ensures var t := SendAir(s, payload, seqn, e); Listens(t, e.listening) && !t.pending && t.ready
  {
    hide Reply, ErrorBody, RadioPacket, AirSequence;
    var t := Launch(s, payload, seqn, e);
    var u := t.(c := t.c.(radio := Inc32(t.c.radio)), rs := Down, pending := false);
    ReplyKeepsRadio(u, ERROR, seqn, ErrorBody(E_RADIO, e.status, RADIO_SEND), true);
  }

  /** And a good packet it then hears is queued for the host, unless the ring is full. */
  lemma PacketQueued(s: Fw, i: RadioIn)
    requires s.irq && s.ready && s.rs == Recv && s.active && i.readable && ReceivedWell(i.packet)
    ensures 18 <= |i.packet|
    ensures var e := Entry(Sealed(RADIO_RX, s.session, 0, RxEvent(i.packet, i.rssi, i.snr, i.millis)), true);
      RadioTask(s, i).queue == if |s.queue| < 6 then s.queue + [e] else s.queue
  {
    hide RxEvent, ReceivedWell;
    WellLong(i.packet);
  }

  // ---- never deaf -----------------------------------------------------------------------

  predicate Hearing(s: Fw) { s.ready ==> s.rs != Down }

  /** The radio as it was, or transmitting, or listening, if the driver lets it. */
  predicate Radioed(s: Fw, t: Fw, listening: bool) {
    t.ready == s.ready && (t.rs == s.rs || t.rs == Transmitting || (listening && t.rs == Recv) || !listening)
  }

  lemma SendAirRadioed(s: Fw, payload: bytes, seqn: u32, e: Env)
    requires |payload| <= MAX_AIR_PAYLOAD
    ensures Radioed(s, SendAir(s, payload, seqn, e), e.listening)
  {
    hide Reply, ErrorBody, RadioPacket, AirSequence;
    ReplyKeepsRadio(s, ERROR, seqn, ErrorBody(E_NOTREADY, 0, RADIO_SEND), true);
    ReplyKeepsRadio(s, ERROR, seqn, ErrorBody(E_BUSY, 0, RADIO_SEND), true);
    if s.ready && s.rs != Transmitting && !s.pending && !e.started { RefusedStartListens(s, payload, seqn, e); }
  }

  lemma DispatchRadioed(s: Fw, m: Frame, e: Env)
    ensures Radioed(s, Dispatch(s, m, e), e.listening)
  {
    hide Reply, SendAir, ErrorBody, StatusBody, DiagnosticsBody;
    var ok := Credited(s);
    ReplyKeepsRadio(s, ERROR, m.second, ErrorBody(E_BAD, 0, m.typ), true);
    ReplyKeepsRadio(s, ERROR, m.second, ErrorBody(E_UNSUPPORTED, 0, m.typ), true);
    ReplyKeepsRadio(ok, LINK_STATUS, m.second, StatusBody(ok.boot, ok.rs, ok.c, e), true);
    ReplyKeepsRadio(ok, DIAGNOSTICS, m.second, DiagnosticsBody(ok.c, |ok.queue|), true);
    if |m.payload| <= MAX_AIR_PAYLOAD {
      SendAirRadioed(ok.(c := ok.c.(sendAccepted := Inc32(ok.c.sendAccepted))), m.payload, m.second, e);
    }
  }

  lemma HandleRadioed(s: Fw, m: Frame, e: Env)
    ensures Radioed(s, Handle(s, m, e), e.listening)
  {
    hide Error, ErrorFor, Repeat, Welcome, Dispatch;
    var u := s.(c := s.c.(usbFrames := Inc32(s.c.usbFrames)));
    AnswersQuiet(u, m, E_BAD);
    AnswersQuiet(u, m, E_BUSY);
    AnswersQuiet(u, m, E_STALE);
    AnswersQuiet(u, m, E_WRONG);
    DispatchRadioed(u.(lastReq := Some(m), lastSeq := m.second, haveLast := false), m, e);
    WelcomeRadioed(u, m, e);
    WelcomeRadioed(ResetSession(u, m.first), m, e);
  }

  lemma WelcomeRadioed(s: Fw, m: Frame, e: Env)
    ensures Welcome(s, m, e).ready == s.ready && Welcome(s, m, e).rs == s.rs
  {
    hide Reply, InfoBody;
    var t := s.(lastReq := Some(m), lastSeq := m.second, c := s.c.(usbAccepted := Inc32(s.c.usbAccepted)));
    ReplyKeepsRadio(t, INFO, m.second, InfoBody(t.boot, t.ready, e), true);
  }

  /** The driver lets the modem listen whenever the event makes it try. */
  predicate Lets(v: Event) {
    match v
    case Command(_, e) => e.listening
    case RadioTurn(i) => i.listening
    case WatchdogTurn(_, l) => l
    case _ => true
  }

  lemma TurnHears(s: Fw, v: Event)
    requires Hearing(s) && Lets(v)
    ensures Hearing(Turn(s, v)) && Turn(s, v).ready == s.ready
  {
    hide Handle, FinishTx, Received, Reply, ErrorBody, Put;
    match v
    case Command(m, e) => HandleRadioed(s, m, e);
    case RadioTurn(i) => if s.irq && s.ready { RadioTaskListens(s, i); }
    case WatchdogTurn(m, l) =>
      var u := s.(c := s.c.(radio := Inc32(s.c.radio)), rs := Down).(pending := false);
      ReplyKeepsRadio(u, ERROR, s.txSeq, ErrorBody(E_RADIO, TIMED_OUT, RADIO_SEND), true);
    case _ =>
  }

  /**
   Over every run from power-up a working radio is never left idle: at every moment it
   transmits or receives, as long as the driver lets the modem listen when it tries.
   */
  lemma {:induction false} NeverDeaf(s: Fw, run: seq<Event>)
    requires Hearing(s) && forall v <- run :: Lets(v)
    ensures Hearing(Turns(s, run)) && Turns(s, run).ready == s.ready
    decreases |run|
  {
    hide Turn, Hearing;
    if run != [] {
      assert run[0] in run && forall v <- run[1..] :: v in run;
      TurnHears(s, run[0]);
      NeverDeaf(Turn(s, run[0]), run[1..]);
    }
  }

  lemma NeverDeafFromBoot(boot: u32, airNext: u32, ready: bool, run: seq<Event>)
    requires forall v <- run :: Lets(v)
    ensures var t := Turns(Boot(boot, airNext, ready, true), run);
      t.ready == ready && (ready ==> t.rs == Recv || t.rs == Transmitting)
  {
    hide Turns;
    NeverDeaf(Boot(boot, airNext, ready, true), run);
  }

  // ---- the numbers of transmissions ---------------------------------------------------------

  /** The driver is about to be asked to transmit. */
  predicate Launches(s: Fw, v: Event) {
    && v.Command? && Accepts(s, v.m) && v.m.typ == RADIO_SEND && 0 < |v.m.payload| <= 200
    && s.ready && s.rs != Transmitting
  }

  /** The number after `n`; none is zero. */
  function Following(n: u32): u32 { if n == 0xFFFF_FFFF then 1 else n + 1 }

  predicate SameNumbers(s: Fw, t: Fw) { t.airNext == s.airNext && t.txAir == s.txAir }

  /** What a launch does to the numbers, and that nothing else does anything. */
  predicate Numbered(s: Fw, v: Event, t: Fw) {
    if Launches(s, v) then t.txAir == (if s.airNext == 0 then 1 else s.airNext) && t.airNext == Inc32(t.txAir)
    else SameNumbers(s, t)
  }

  lemma ExecuteNumbers(s: Fw, m: Frame, e: Env)
    requires Accepts(s, m)
    ensures Numbered(s, Command(m, e), Execute(s, m, e))
  {
    hide Reply, ErrorBody, StatusBody, DiagnosticsBody, RadioPacket;
    var u := s.(lastReq := Some(m), lastSeq := m.second, haveLast := false);
    var ok := Credited(u);
    ReplyKeepsRadio(u, ERROR, m.second, ErrorBody(E_BAD, 0, m.typ), true);
    ReplyKeepsRadio(u, ERROR, m.second, ErrorBody(E_UNSUPPORTED, 0, m.typ), true);
    ReplyKeepsRadio(ok, LINK_STATUS, m.second, StatusBody(ok.boot, ok.rs, ok.c, e), true);
    ReplyKeepsRadio(ok, DIAGNOSTICS, m.second, DiagnosticsBody(ok.c, |ok.queue|), true);
    var x := ok.(c := ok.c.(sendAccepted := Inc32(ok.c.sendAccepted)));
    ReplyKeepsRadio(x, ERROR, m.second, ErrorBody(E_NOTREADY, 0, RADIO_SEND), true);
    ReplyKeepsRadio(x, ERROR, m.second, ErrorBody(E_BUSY, 0, RADIO_SEND), true);
    if Launches(s, Command(m, e)) {
      var y := Launch(x, m.payload, m.second, e);
      var z := y.(c := y.c.(radio := Inc32(y.c.radio)), rs := Down, pending := false);
      ReplyKeepsRadio(z, ERROR, m.second, ErrorBody(E_RADIO, e.status, RADIO_SEND), true);
    }
  }

  lemma WelcomeNumbers(s: Fw, m: Frame, e: Env)
    ensures SameNumbers(s, Welcome(s, m, e))
  {
    hide Reply, InfoBody;
    var t := s.(lastReq := Some(m), lastSeq := m.second, c := s.c.(usbAccepted := Inc32(s.c.usbAccepted)));
    ReplyKeepsRadio(t, INFO, m.second, InfoBody(t.boot, t.ready, e), true);
  }

  lemma HandleNumbers(s: Fw, m: Frame, e: Env)
    ensures Numbered(s, Command(m, e), Handle(s, m, e))
  {
    hide Error, ErrorFor, Repeat, Welcome, Execute;
    var u := s.(c := s.c.(usbFrames := Inc32(s.c.usbFrames)));
    AnswersQuiet(u, m, E_BAD);
    AnswersQuiet(u, m, E_BUSY);
    AnswersQuiet(u, m, E_STALE);
    AnswersQuiet(u, m, E_WRONG);
    WelcomeNumbers(u, m, e);
    WelcomeNumbers(ResetSession(u, m.first), m, e);
    if Accepts(u, m) { ExecuteNumbers(u, m, e); }
  }

  lemma WatchdogNumbers(s: Fw, millis: u32, listening: bool)
    ensures SameNumbers(s, TxWatchdog(s, millis, listening))
  {
    hide Reply, ErrorBody;
    var u := s.(c := s.c.(radio := Inc32(s.c.radio)), rs := Down).(pending := false);
    ReplyKeepsRadio(u, ERROR, s.txSeq, ErrorBody(E_RADIO, TIMED_OUT, RADIO_SEND), true);
  }

  /** A launch takes the next number; nothing else does. */
  lemma TurnNumbers(s: Fw, v: Event)
    ensures Numbered(s, v, Turn(s, v))
  {
    hide Handle, FinishTx, Received, TxWatchdog;
    match v
    case Command(m, e) => HandleNumbers(s, m, e);
    case RadioTurn(i) =>
      FinishKeepsReady(s.(irq := false), i);
      ReceivedKeepsReady(s.(irq := false), i);
    case WatchdogTurn(m, l) => WatchdogNumbers(s, m, l);
    case _ =>
  }

  /** No event of the run is a launch. */
  predicate NoLaunch(s: Fw, run: seq<Event>)
    decreases |run|
  {
    run == [] || (!Launches(s, run[0]) && NoLaunch(Turn(s, run[0]), run[1..]))
  }

  lemma {:induction false} NumbersStay(s: Fw, run: seq<Event>)
    requires NoLaunch(s, run)
    ensures SameNumbers(s, Turns(s, run))
    decreases |run|
  {
    hide Turn, Launches;
    if run != [] {
      TurnNumbers(s, run[0]);
      NumbersStay(Turn(s, run[0]), run[1..]);
    }
  }

  /** Over every run, whatever comes between two launches, the later takes the number after the earlier. */
  lemma Consecutive(s: Fw, v: Event, run: seq<Event>, w: Event)
    requires Launches(s, v) && NoLaunch(Turn(s, v), run) && Launches(Turns(Turn(s, v), run), w)
    ensures var t := Turn(s, v);
      var u := Turn(Turns(t, run), w);
      t.txAir != 0 && u.txAir == Following(t.txAir)
  {
    hide Turn, Turns, Launches, NoLaunch;
    TurnNumbers(s, v);
    NumbersStay(Turn(s, v), run);
    TurnNumbers(Turns(Turn(s, v), run), w);
  }
}
