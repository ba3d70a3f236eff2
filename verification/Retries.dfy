/** What a retried request is answered, over whole runs of the modem. */
module Retries {
  import opened Bytes
  import opened Wrappers
  import opened Envelope
  import opened UsbProtocol
  import opened Ring
  import opened Firmware

  /** `t` says `f` next, and forgets nothing it need not. */
  predicate Offers(s: Fw, t: Fw, f: Frame) { t.queue == Put(s.queue, Entry(f, false)) }

  /** The remembered request and answer are untouched. */
  predicate SameCache(s: Fw, t: Fw) {
    t.lastReq == s.lastReq && t.haveLast == s.haveLast && t.lastResp == s.lastResp
  }

  /** An answer, if one is remembered now, has just been offered. */
  predicate NewAnswer(s: Fw, t: Fw) { t.haveLast ==> t.lastResp.Some? && Offers(s, t, t.lastResp.value) }

  /** The same cache, or another request in it. */
  predicate Replaced(s: Fw, t: Fw, m: Frame) {
    SameCache(s, t) || (t.lastReq == Some(m) && s.lastReq != Some(m) && NewAnswer(s, t))
  }

  /** The same cache, or the answer to the request in it, which had none. */
  predicate Completed(s: Fw, t: Fw) {
    SameCache(s, t) || (!s.haveLast && t.lastReq == s.lastReq && NewAnswer(s, t))
  }

  /** A remembered reply is offered. */
  lemma ReplyOffers(s: Fw, typ: byte, seqn: u32, payload: bytes)
    ensures var t := Reply(s, typ, seqn, payload, true);
      t.haveLast && t.lastResp == Some(Sealed(typ, s.session, seqn, payload)) && Offers(s, t, t.lastResp.value)
    ensures Reply(s, typ, seqn, payload, true).lastReq == s.lastReq
  {
    hide Put;
  }

  lemma ListenCache(s: Fw, ok: bool)
    ensures SameCache(s, Listen(s, ok)) && Listen(s, ok).queue == s.queue
  {}

  lemma SendAirCache(s: Fw, payload: bytes, seqn: u32, e: Env)
    requires |payload| <= MAX_AIR_PAYLOAD && !s.haveLast
    ensures var t := SendAir(s, payload, seqn, e); t.lastReq == s.lastReq && NewAnswer(s, t)
  {
    assert SameCache(s, Launch(s, payload, seqn, e)) && Launch(s, payload, seqn, e).queue == s.queue;
    hide Reply, ErrorBody, RadioPacket, Launch, Listen, Put;
    if !s.ready {
      ReplyOffers(s, ERROR, seqn, ErrorBody(E_NOTREADY, 0, RADIO_SEND));
    } else if s.rs == Transmitting || s.pending {
      ReplyOffers(s, ERROR, seqn, ErrorBody(E_BUSY, 0, RADIO_SEND));
    } else if !e.started {
      var t := Launch(s, payload, seqn, e);
      var u := t.(c := t.c.(radio := Inc32(t.c.radio)), rs := Down, pending := false);
      ReplyOffers(u, ERROR, seqn, ErrorBody(E_RADIO, e.status, RADIO_SEND));
      ListenCache(Error(u, seqn, E_RADIO, e.status, RADIO_SEND, true), e.listening);
    }
  }

  lemma ExecuteCache(s: Fw, m: Frame, e: Env)
    requires Inv(s) && Accepts(s, m)
    ensures Replaced(s, Execute(s, m, e), m)
  {
    hide Reply, ErrorBody, StatusBody, DiagnosticsBody, SendAir, Put;
    var t := s.(lastReq := Some(m), lastSeq := m.second, haveLast := false);
    var ok := t.(c := t.c.(usbAccepted := Inc32(t.c.usbAccepted)));
    if m.typ == RADIO_SEND && 0 < |m.payload| <= MAX_AIR_PAYLOAD {
      SendAirCache(ok.(c := ok.c.(sendAccepted := Inc32(ok.c.sendAccepted))), m.payload, m.second, e);
    } else if m.typ == GET_STATUS && m.payload == [] {
      ReplyOffers(ok, LINK_STATUS, m.second, StatusBody(ok.boot, ok.rs, ok.c, e));
    } else if m.typ == GET_DIAGNOSTICS && m.payload == [] {
      ReplyOffers(ok, DIAGNOSTICS, m.second, DiagnosticsBody(ok.c, |ok.queue|));
    } else {
      ReplyOffers(t, ERROR, m.second, ErrorBody(E_BAD, 0, m.typ));
      ReplyOffers(t, ERROR, m.second, ErrorBody(E_UNSUPPORTED, 0, m.typ));
    }
  }

  lemma WelcomeCache(s: Fw, m: Frame, e: Env)
    ensures var t := Welcome(s, m, e); t.lastReq == Some(m) && NewAnswer(s, t)
  {
    hide Reply, InfoBody, Put;
    var t := s.(lastReq := Some(m), lastSeq := m.second, c := s.c.(usbAccepted := Inc32(s.c.usbAccepted)));
    ReplyOffers(t, INFO, m.second, InfoBody(t.boot, t.ready, e));
  }

  lemma HelloCache(s: Fw, m: Frame, e: Env)
    requires Inv(s)
    ensures Replaced(s, Hello(s, m, e), m)
  {
    hide Error, ErrorFor, Repeat, Welcome, Put;
    AnswersQuiet(s, m, E_BAD);
    AnswersQuiet(s, m, E_BUSY);
    AnswersQuiet(s, m, E_STALE);
    WelcomeCache(ResetSession(s, m.first), m, e);
    WelcomeCache(s, m, e);
  }

  /** A command leaves the cache alone, or puts itself and its answer in. */
  lemma HandleCache(s: Fw, m: Frame, e: Env)
    requires Inv(s)
    ensures Replaced(s, Handle(s, m, e), m)
  {
    hide Hello, Execute, Error, ErrorFor, Repeat, Put;
    var t := s.(c := s.c.(usbFrames := Inc32(s.c.usbFrames)));
    InvFrame(s, t);
    AnswersQuiet(t, m, E_WRONG);
    AnswersQuiet(t, m, E_BUSY);
    AnswersQuiet(t, m, E_STALE);
    if m.typ == HELLO {
      HelloCache(t, m, e);
    } else if Accepts(t, m) {
      ExecuteCache(t, m, e);
    }
  }

  /** The radio's turn completes at most the cached request, and only if it had no answer. */
  lemma RadioTaskCache(s: Fw, i: RadioIn)
    requires Inv(s)
    ensures Completed(s, RadioTask(s, i))
  {
    hide FinishTx, Received, Listen, Put;
    if s.irq && s.ready {
      var t := s.(irq := false);
      if s.rs == Transmitting {
        FinishCache(t, i);
        ListenCache(FinishTx(t, i), i.listening);
      } else if i.readable {
        ReceivedCache(t, i);
        ListenCache(Received(t, i), i.listening);
      } else {
        ListenCache(t.(c := t.c.(radio := Inc32(t.c.radio))), i.listening);
      }
    }
  }

  lemma FinishCache(s: Fw, i: RadioIn)
    requires Inv(s) && s.rs == Transmitting
    ensures Completed(s, FinishTx(s, i))
  {
    hide Reply, ErrorBody, TxOkBody, Put;
    var t := if i.finished then s.(rs := Down, c := s.c.(tx := Inc32(s.c.tx)))
             else s.(rs := Down, c := s.c.(radio := Inc32(s.c.radio)));
    var u := t.(pending := false);
    ReplyOffers(u, RADIO_TX_RESULT, s.txSeq, TxOkBody(s.boot, s.txAir, s.txStart, i.micros));
    ReplyOffers(u, ERROR, s.txSeq, ErrorBody(E_RADIO, i.status, RADIO_SEND));
  }

  lemma ReceivedCache(s: Fw, i: RadioIn)
    ensures SameCache(s, Received(s, i))
  {
    hide Put, ReceivedWell, RxEvent;
  }

  lemma TxWatchdogCache(s: Fw, millis: u32, listening: bool)
    requires Inv(s)
    ensures Completed(s, TxWatchdog(s, millis, listening))
  {
    hide Reply, ErrorBody, Listen, Put;
    if Overdue(s, millis) {
      var t := s.(c := s.c.(radio := Inc32(s.c.radio)), rs := Down);
      var u := t.(pending := false);
      ReplyOffers(u, ERROR, s.txSeq, ErrorBody(E_RADIO, TIMED_OUT, RADIO_SEND));
      ListenCache(Error(u, s.txSeq, E_RADIO, TIMED_OUT, RADIO_SEND, true), listening);
      ListenCache(t, listening);
    }
  }

  // ---- whole runs --------------------------------------------------------------------------

  /** A command the firmware acts on that reintroduces no session on the air. */
  predicate Proper(s: Fw, v: Event) {
    v.Command? ==> v.m.first != 0 && v.m.second != 0 && !Reintroduces(s, v.m)
  }

  ghost predicate IsRun(states: seq<Fw>, run: seq<Event>) {
    && |states| == |run| + 1 && Inv(states[0])
    && forall k :: 0 <= k < |run| ==> Proper(states[k], run[k]) && states[k + 1] == Turn(states[k], run[k])
  }

  lemma TurnInv(s: Fw, v: Event)
    requires Inv(s) && Proper(s, v)
    ensures Inv(Turn(s, v))
  {
    hide Handle, RadioTask, TxWatchdog, Flush, Inv, Reintroduces;
    match v
    case Command(m, e) => HandleInv(s, m, e);
    case Interrupt => InterruptInv(s);
    case RadioTurn(i) => RadioTaskInv(s, i);
    case WatchdogTurn(t, l) => TxWatchdogInv(s, t, l);
    case FlushTurn(r, w) => FlushInv(s, r, w);
  }

  lemma {:induction false} StatesInv(states: seq<Fw>, run: seq<Event>, k: nat)
    requires IsRun(states, run) && k < |states|
    ensures Inv(states[k])
    decreases k
  {
    hide Inv, Turn, Proper;
    if k > 0 {
      StatesInv(states, run, k - 1);
      TurnInv(states[k - 1], run[k - 1]);
    }
  }

  /** One event: a request still remembered keeps its answer, and a request newly answered has just been told. */
  lemma TurnCache(s: Fw, v: Event)
    requires Inv(s)
    ensures var t := Turn(s, v);
      && (s.haveLast && t.lastReq == s.lastReq ==> SameCache(s, t))
      && (t.haveLast && !(s.haveLast && s.lastReq == t.lastReq) ==> t.lastResp.Some? && Offers(s, t, t.lastResp.value))
  {
    hide Handle, RadioTask, TxWatchdog, Inv, Put;
    match v
    case Command(m, e) => HandleCache(s, m, e);
    case RadioTurn(i) => RadioTaskCache(s, i);
    case WatchdogTurn(t, l) => TxWatchdogCache(s, t, l);
    case _ =>
  }

  /** Event `i` is the one that answers `m`. */
  predicate AnsweredAt(states: seq<Fw>, m: Frame, i: nat)
    requires i + 1 < |states|
  {
    && states[i + 1].haveLast && states[i + 1].lastReq == Some(m)
    && !(states[i].haveLast && states[i].lastReq == Some(m))
  }

  /** While the request is remembered, so is its first answer. */
  lemma {:induction false} AnswerStays(states: seq<Fw>, run: seq<Event>, m: Frame, i: nat, j: nat)
    requires IsRun(states, run) && i < j < |states| && AnsweredAt(states, m, i)
    requires forall n :: i < n <= j ==> states[n].lastReq == Some(m)
    ensures states[j].haveLast && states[j].lastResp == states[i + 1].lastResp
    decreases j
  {
    hide Inv, Turn, Proper;
    if i + 1 < j {
      AnswerStays(states, run, m, i, j - 1);
      StatesInv(states, run, j - 1);
      TurnCache(states[j - 1], run[j - 1]);
    }
  }

  /**
   Over every orderly run: let event `i` answer request `m`, whenever that comes,
   and let event `j` be a retry of `m` while it is still the request remembered.
   Then the retry offers the very frame first offered in answer, which does answer
   `m`, and the radio is not touched.
   */
  lemma RetryPromise(states: seq<Fw>, run: seq<Event>, m: Frame, e: Env, i: nat, j: nat) returns (f: Frame)
    requires IsRun(states, run) && i < j < |run| && AnsweredAt(states, m, i)
    requires forall n :: i < n <= j ==> states[n].lastReq == Some(m)
    requires run[j] == Command(m, e)
    ensures Offers(states[i], states[i + 1], f) && Offers(states[j], states[j + 1], f)
    ensures Answers(m, f) && AirOf(states[j + 1]) == AirOf(states[j])
  {
    hide Inv, Turn, Proper, Put, Handle;
    StatesInv(states, run, i);
    StatesInv(states, run, j);
    TurnCache(states[i], run[i]);
    AnswerStays(states, run, m, i, j);
    f := states[i + 1].lastResp.value;
    RetryIsIdempotent(states[j], m, e);
    TurnsCommand(states[j], m, e);
  }

  lemma TurnsCommand(s: Fw, m: Frame, e: Env)
    ensures Turn(s, Command(m, e)) == Handle(s, m, e)
  {}

  /** Before the answer there is a transmission running, and a retry does not touch it either. */
  lemma RetryBeforeAnswer(states: seq<Fw>, run: seq<Event>, m: Frame, e: Env, j: nat)
    requires IsRun(states, run) && j < |run| && run[j] == Command(m, e)
    requires states[j].pending && states[j].lastReq == Some(m)
    ensures AirOf(states[j + 1]) == AirOf(states[j]) && SameCache(states[j], states[j + 1])
  {
    hide Inv, Turn, Proper, Put, Handle;
    StatesInv(states, run, j);
    RequestSession(states[j], m);
    RetryWhilePending(states[j], m, e);
    TurnsCommand(states[j], m, e);
  }

  lemma RequestSession(s: Fw, m: Frame)
    requires Inv(s) && s.lastReq == Some(m)
    ensures m.first == s.session
  {}
}
