/** Where the modem's transmission results come from, and how its session and sequence move. */
module Reports {
  import opened Bytes
  import opened Wrappers
  import opened Envelope
  import opened UsbProtocol
  import opened Ring
  import opened Firmware

  ghost predicate InQueue(q: seq<Entry>, f: Frame) { exists i :: 0 <= i < |q| && q[i].frame == f }

  /** The modem has `f` on its way out or as its remembered answer. */
  ghost predicate Holds(s: Fw, f: Frame) { InQueue(s.queue, f) || s.lastResp == Some(f) }

  /** An answer to `m` that is not a transmission result. */
  predicate Replies(m: Frame, f: Frame) { f.first == m.first && f.second == m.second && f.typ != RADIO_TX_RESULT }

  lemma PutHolds(q: seq<Entry>, e: Entry, f: Frame)
    requires InQueue(Put(q, e), f)
    ensures InQueue(q, f) || e.frame == f
  {
    var i :| 0 <= i < |Put(q, e)| && Put(q, e)[i].frame == f;
    if i < |Put(q, e)| - 1 || PutFate(q, e.event).Refused? {
      var k := OldestEvent(q);
      if PutFate(q, e.event).StoredEvicting? && i >= k { assert q[i + 1].frame == f; } else { assert q[i].frame == f; }
    }
  }

  lemma EnqueueHolds(s: Fw, g: Frame, event: bool, f: Frame)
    requires Holds(Enqueue(s, g, event), f)
    ensures Holds(s, f) || g == f
  {
    hide Put, InQueue;
    if InQueue(Enqueue(s, g, event).queue, f) { PutHolds(s.queue, Entry(g, event), f); }
  }

  /** The same answers on hand. */
  predicate SameAnswers(s: Fw, t: Fw) { t.queue == s.queue && t.lastResp == s.lastResp }

  lemma SameHolds(s: Fw, t: Fw, f: Frame)
    requires SameAnswers(s, t)
    ensures Holds(t, f) <==> Holds(s, f)
  {}

  lemma ReplyHolds(s: Fw, typ: byte, seqn: u32, payload: bytes, cache: bool, f: Frame)
    requires Holds(Reply(s, typ, seqn, payload, cache), f)
    ensures Holds(s, f) || f == Sealed(typ, s.session, seqn, payload)
  {
    hide Enqueue, InQueue;
    var g := Sealed(typ, s.session, seqn, payload);
    EnqueueHolds(if cache then s.(lastResp := Some(g), haveLast := true) else s, g, false, f);
  }

  lemma RepeatHolds(s: Fw, m: Frame, f: Frame)
    requires Holds(Repeat(s, m), f) && m.first == s.session
    ensures Holds(s, f) || Replies(m, f)
  {
    hide Enqueue, Reply, ErrorBody, InQueue;
    if s.haveLast && s.lastReq == Some(m) && s.lastResp.Some? {
      EnqueueHolds(s, s.lastResp.value, false, f);
    } else {
      ReplyHolds(s, ERROR, m.second, ErrorBody(E_REUSED, 0, m.typ), false, f);
    }
  }

  lemma SendAirHolds(s: Fw, payload: bytes, seqn: u32, e: Env, f: Frame)
    requires |payload| <= MAX_AIR_PAYLOAD && Holds(SendAir(s, payload, seqn, e), f)
    ensures Holds(s, f) || (f.first == s.session && f.second == seqn && f.typ == ERROR)
    ensures s.ready && s.rs != Transmitting && !s.pending && e.started ==> Holds(s, f)
  {
    assert (var t := Launch(s, payload, seqn, e); SameAnswers(s, t) && t.session == s.session);
    hide Holds, ErrorBody, RadioPacket, Reply, AirSequence, Listen, Launch;
    if !s.ready {
      ReplyHolds(s, ERROR, seqn, ErrorBody(E_NOTREADY, 0, RADIO_SEND), true, f);
    } else if s.rs == Transmitting || s.pending {
      ReplyHolds(s, ERROR, seqn, ErrorBody(E_BUSY, 0, RADIO_SEND), true, f);
    } else {
      var t := Launch(s, payload, seqn, e);
      if e.started {
        SameHolds(s, t.(c := t.c.(txStarted := Inc32(t.c.txStarted))), f);
      } else {
        var u := t.(c := t.c.(radio := Inc32(t.c.radio)), rs := Down, pending := false);
        ListenSame(Error(u, seqn, E_RADIO, e.status, RADIO_SEND, true), e.listening);
        SameHolds(Error(u, seqn, E_RADIO, e.status, RADIO_SEND, true), SendAir(s, payload, seqn, e), f);
        ReplyHolds(u, ERROR, seqn, ErrorBody(E_RADIO, e.status, RADIO_SEND), true, f);
        SameHolds(s, u, f);
      }
    }
  }

  lemma ListenSame(s: Fw, ok: bool)
    ensures SameAnswers(s, Listen(s, ok))
  {}

  lemma ExecuteHolds(s: Fw, m: Frame, e: Env, f: Frame)
    requires Accepts(s, m) && Holds(Execute(s, m, e), f)
    ensures Holds(s, f) || (Replies(m, f) && !Starts(s, m, e))
  {
    hide Holds, ErrorBody, StatusBody, DiagnosticsBody, SendAir, Reply;
    var t := s.(lastReq := Some(m), lastSeq := m.second, haveLast := false);
    var ok := t.(c := t.c.(usbAccepted := Inc32(t.c.usbAccepted)));
    var sending := ok.(c := ok.c.(sendAccepted := Inc32(ok.c.sendAccepted)));
    SameHolds(s, t, f);
    SameHolds(s, ok, f);
    SameHolds(s, sending, f);
    if m.typ == RADIO_SEND && 0 < |m.payload| <= MAX_AIR_PAYLOAD {
      SendAirHolds(sending, m.payload, m.second, e, f);
    } else if m.typ == GET_STATUS && m.payload == [] {
      ReplyHolds(ok, LINK_STATUS, m.second, StatusBody(ok.boot, ok.rs, ok.c, e), true, f);
    } else if m.typ == GET_DIAGNOSTICS && m.payload == [] {
      ReplyHolds(ok, DIAGNOSTICS, m.second, DiagnosticsBody(ok.c, |ok.queue|), true, f);
    } else if m.typ in {RADIO_SEND, GET_STATUS, GET_DIAGNOSTICS} {
      ReplyHolds(t, ERROR, m.second, ErrorBody(E_BAD, 0, m.typ), true, f);
    } else {
      ReplyHolds(t, ERROR, m.second, ErrorBody(E_UNSUPPORTED, 0, m.typ), true, f);
    }
  }

  lemma WelcomeHolds(s: Fw, m: Frame, e: Env, f: Frame)
    requires Holds(Welcome(s, m, e), f) && m.first == s.session
    ensures Holds(s, f) || Replies(m, f)
  {
    hide Holds, InfoBody, Reply;
    var t := s.(lastReq := Some(m), lastSeq := m.second, c := s.c.(usbAccepted := Inc32(s.c.usbAccepted)));
    ReplyHolds(t, INFO, m.second, InfoBody(t.boot, t.ready, e), true, f);
    SameHolds(s, t, f);
  }

  lemma ResetHolds(s: Fw, session: u32, f: Frame)
    requires Holds(ResetSession(s, session), f)
    ensures Holds(s, f)
  {}

  lemma RefusalHolds(s: Fw, m: Frame, code: u16, f: Frame)
    ensures Holds(ErrorFor(s, m.first, m.second, code, m.typ), f) ==> Holds(s, f) || Replies(m, f)
    ensures m.first == s.session && Holds(Error(s, m.second, code, 0, m.typ, false), f) ==> Holds(s, f) || Replies(m, f)
  {
    hide Enqueue, ErrorBody, InQueue;
    if Holds(Error(s, m.second, code, 0, m.typ, false), f) {
      ReplyHolds(s, ERROR, m.second, ErrorBody(code, 0, m.typ), false, f);
    }
    if Holds(ErrorFor(s, m.first, m.second, code, m.typ), f) {
      EnqueueHolds(s, Sealed(ERROR, m.first, m.second, ErrorBody(code, 0, m.typ)), false, f);
    }
  }

  lemma HelloHolds(s: Fw, m: Frame, e: Env, f: Frame)
    requires Holds(Hello(s, m, e), f)
    ensures Holds(s, f) || Replies(m, f)
  {
    hide Holds, Error, ErrorFor, Repeat, Welcome;
    RefusalHolds(s, m, E_BAD, f);
    RefusalHolds(s, m, E_BUSY, f);
    RefusalHolds(s, m, E_STALE, f);
    if m.payload == [] && !(s.active && m.first == s.session && s.pending) {
      if !s.active || m.first != s.session {
        WelcomeHolds(ResetSession(s, m.first), m, e, f);
        if Holds(ResetSession(s, m.first), f) { ResetHolds(s, m.first, f); }
      } else if m.second == s.lastSeq {
        RepeatHolds(s, m, f);
      } else if m.second > s.lastSeq {
        WelcomeHolds(s, m, e, f);
      }
    }
  }

  lemma FilterHolds(s: Fw, m: Frame, e: Env, f: Frame)
    requires m.typ != HELLO && Holds(Filter(s, m, e), f)
    ensures Holds(s, f) || (Replies(m, f) && !Starts(s, m, e))
  {
    hide Holds, Error, ErrorFor, Repeat, Execute;
    RefusalHolds(s, m, E_WRONG, f);
    RefusalHolds(s, m, E_BUSY, f);
    RefusalHolds(s, m, E_STALE, f);
    if s.active && m.first == s.session && !s.pending {
      if m.second == s.lastSeq { RepeatHolds(s, m, f); }
      if m.second > s.lastSeq { ExecuteHolds(s, m, e, f); }
    }
  }

  /** What a command makes the modem say is an answer to it, never a result, and nothing if it starts a transmission. */
  lemma HandleHolds(s: Fw, m: Frame, e: Env, f: Frame)
    requires Holds(Handle(s, m, e), f)
    ensures Holds(s, f) || (Replies(m, f) && !Starts(s, m, e))
  {
    hide Holds, Hello, Filter;
    var t := s.(c := s.c.(usbFrames := Inc32(s.c.usbFrames)));
    SameHolds(s, t, f);
    if m.typ == HELLO { HelloHolds(t, m, e, f); } else { FilterHolds(t, m, e, f); }
  }

  /** The end of the transmission on the air: a full result if it finished, an error if it did not. */
  predicate Ends(s: Fw, finished: bool, f: Frame) {
    && s.rs == Transmitting && f.first == s.txSession && f.second == s.txSeq
    && (if finished then f.typ == RADIO_TX_RESULT && |f.payload| == 12 else f.typ == ERROR)
  }

  lemma FinishTxHolds(s: Fw, i: RadioIn, f: Frame)
    requires s.rs == Transmitting && Holds(FinishTx(s, i), f)
    ensures Holds(s, f) || Ends(s, i.finished, f)
  {
    hide Holds, ErrorBody, TxOkBody, Reply;
    var t := if i.finished then s.(rs := Down, c := s.c.(tx := Inc32(s.c.tx)))
             else s.(rs := Down, c := s.c.(radio := Inc32(s.c.radio)));
    var u := t.(pending := false);
    SameHolds(s, t, f);
    SameHolds(s, u, f);
    if s.active && s.session == s.txSession {
      if i.finished {
        ReplyHolds(u, RADIO_TX_RESULT, s.txSeq, TxOkBody(s.boot, s.txAir, s.txStart, i.micros), true, f);
        TxOkLength(s.boot, s.txAir, s.txStart, i.micros);
      } else {
        ReplyHolds(u, ERROR, s.txSeq, ErrorBody(E_RADIO, i.status, RADIO_SEND), true, f);
      }
    }
  }

  lemma TxOkLength(boot: u32, air: u32, start: u32, micros: u32)
    ensures |TxOkBody(boot, air, start, micros)| == 12
  {}

  lemma ReceivedHolds(s: Fw, i: RadioIn, f: Frame)
    requires Holds(Received(s, i), f)
    ensures Holds(s, f) || f.typ == RADIO_RX
  {
    hide Holds, RxEvent, ReceivedWell, Enqueue;
    var bad := s.(c := s.c.(rxBad := Inc32(s.c.rxBad)));
    var t := s.(c := s.c.(rx := Inc32(s.c.rx)));
    SameHolds(s, bad, f);
    SameHolds(s, t, f);
    if ReceivedWell(i.packet) && s.active {
      WellLong(i.packet);
      EnqueueHolds(t, Sealed(RADIO_RX, s.session, 0, RxEvent(i.packet, i.rssi, i.snr, i.millis)), true, f);
    }
  }

  /** The radio task adds a received packet, or the end of the transmission on the air. */
  lemma RadioTaskHolds(s: Fw, i: RadioIn, f: Frame)
    requires Holds(RadioTask(s, i), f)
    ensures Holds(s, f) || f.typ == RADIO_RX || (s.irq && s.ready && Ends(s, i.finished, f))
  {
    hide Holds, FinishTx, Received, Listen;
    if s.irq && s.ready {
      var t := s.(irq := false);
      SameHolds(s, t, f);
      var u := if s.rs == Transmitting then FinishTx(t, i)
               else if i.readable then Received(t, i) else t.(c := t.c.(radio := Inc32(t.c.radio)));
      ListenSame(u, i.listening);
      SameHolds(u, RadioTask(s, i), f);
      if s.rs == Transmitting {
        FinishTxHolds(t, i, f);
      } else if i.readable {
        ReceivedHolds(t, i, f);
      } else {
        SameHolds(t, u, f);
      }
    }
  }

  /** The watchdog reports an error for the transmission it gives up, and nothing else. */
  lemma TxWatchdogHolds(s: Fw, millis: u32, listening: bool, f: Frame)
    requires Holds(TxWatchdog(s, millis, listening), f)
    ensures Holds(s, f) || (Overdue(s, millis) && Ends(s, false, f))
  {
    hide Holds, ErrorBody, Reply, Listen;
    if Overdue(s, millis) {
      var t := s.(c := s.c.(radio := Inc32(s.c.radio)), rs := Down);
      var u := t.(pending := false);
      SameHolds(s, t, f);
      SameHolds(s, u, f);
      var mine := s.active && s.session == s.txSession;
      var v := if mine then Error(u, s.txSeq, E_RADIO, TIMED_OUT, RADIO_SEND, true) else t;
      ListenSame(v, listening);
      SameHolds(v, TxWatchdog(s, millis, listening), f);
      if mine { ReplyHolds(u, ERROR, s.txSeq, ErrorBody(E_RADIO, TIMED_OUT, RADIO_SEND), true, f); }
    }
  }

  /** What leaves was held, and so was what stays. */
  lemma FlushHolds(s: Fw, room: bool, whole: bool, f: Frame)
    requires Holds(Flush(s, room, whole).0, f) || Flush(s, room, whole).1 == Some(f)
    ensures Holds(s, f)
  {
    if s.queue != [] && room {
      assert s.queue[0].frame == f ==> InQueue(s.queue, f);
      forall i | 0 <= i < |s.queue[1..]| && s.queue[1..][i].frame == f
        ensures InQueue(s.queue, f)
      {
        assert s.queue[i + 1].frame == f;
      }
    }
  }

  /** How a frame moves session and sequence: not at all, or to the frame's own, forward within a session. */
  predicate Follows(s: Fw, t: Fw, m: Frame) {
    || (t.active == s.active && t.session == s.session && t.lastSeq == s.lastSeq)
    || (&& t.active && t.session == m.first && t.lastSeq == m.second
        && (s.active && s.session == m.first ==> s.lastSeq < m.second)
        && (m.typ == HELLO || (s.active && s.session == m.first)))
  }

  predicate SamePlace(s: Fw, t: Fw) { t.active == s.active && t.session == s.session && t.lastSeq == s.lastSeq }

  lemma ReplyStays(s: Fw, typ: byte, seqn: u32, payload: bytes, cache: bool)
    ensures SamePlace(s, Reply(s, typ, seqn, payload, cache))
  {
    hide Put;
  }

  lemma SendAirStays(s: Fw, payload: bytes, seqn: u32, e: Env)
    requires |payload| <= MAX_AIR_PAYLOAD
    ensures SamePlace(s, SendAir(s, payload, seqn, e))
  {
    hide Reply, ErrorBody, RadioPacket, AirSequence;
    ReplyStays(s, ERROR, seqn, ErrorBody(E_NOTREADY, 0, RADIO_SEND), true);
    ReplyStays(s, ERROR, seqn, ErrorBody(E_BUSY, 0, RADIO_SEND), true);
    var t := Launch(s, payload, seqn, e);
    var u := t.(c := t.c.(radio := Inc32(t.c.radio)), rs := Down, pending := false);
    ReplyStays(u, ERROR, seqn, ErrorBody(E_RADIO, e.status, RADIO_SEND), true);
  }

  lemma ExecuteFollows(s: Fw, m: Frame, e: Env)
    requires Accepts(s, m)
    ensures Follows(s, Execute(s, m, e), m)
  {
    hide Reply, SendAir, ErrorBody, StatusBody, DiagnosticsBody;
    var t := s.(lastReq := Some(m), lastSeq := m.second, haveLast := false);
    var ok := Credited(t);
    ReplyStays(t, ERROR, m.second, ErrorBody(E_BAD, 0, m.typ), true);
    ReplyStays(t, ERROR, m.second, ErrorBody(E_UNSUPPORTED, 0, m.typ), true);
    ReplyStays(ok, LINK_STATUS, m.second, StatusBody(ok.boot, ok.rs, ok.c, e), true);
    ReplyStays(ok, DIAGNOSTICS, m.second, DiagnosticsBody(ok.c, |ok.queue|), true);
    if |m.payload| <= MAX_AIR_PAYLOAD {
      SendAirStays(ok.(c := ok.c.(sendAccepted := Inc32(ok.c.sendAccepted))), m.payload, m.second, e);
    }
  }

  lemma WelcomeFollows(s: Fw, m: Frame, e: Env)
    requires s.active && s.session == m.first
    ensures var t := Welcome(s, m, e); t.active && t.session == m.first && t.lastSeq == m.second
  {
    hide InfoBody, Put;
  }

  lemma HandleFollows(s: Fw, m: Frame, e: Env)
    ensures Follows(s, Handle(s, m, e), m)
  {
    hide Error, ErrorFor, Repeat, Welcome, Execute;
    var t := s.(c := s.c.(usbFrames := Inc32(s.c.usbFrames)));
    AnswersQuiet(t, m, E_BAD);
    AnswersQuiet(t, m, E_BUSY);
    AnswersQuiet(t, m, E_STALE);
    AnswersQuiet(t, m, E_WRONG);
    if m.typ == HELLO {
      WelcomeFollows(ResetSession(t, m.first), m, e);
      if t.active && m.first == t.session { WelcomeFollows(t, m, e); }
    } else if Accepts(t, m) {
      ExecuteFollows(t, m, e);
    }
  }
}
