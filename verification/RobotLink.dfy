/** What passes through the robot's modem and transport: received packets, in order, and nothing else as received. */
module RobotLink {
  import opened Bytes
  import opened Wrappers
  import opened Envelope
  import opened UsbProtocol
  import opened Ring
  import opened Firmware
  import opened Selection
  import T = Transport
  import L = Link

  /** The payload of a packet off the air. */
  function Inside(packet: bytes): bytes { if 18 <= |packet| then Open(packet).payload else [] }

  function Insides(packets: seq<bytes>): (r: seq<bytes>)
    ensures |r| == |packets|
    ensures forall i :: 0 <= i < |r| ==> r[i] == Inside(packets[i])
  {
    seq(|packets|, i requires 0 <= i < |packets| => Inside(packets[i]))
  }

  /** The payload of a received-packet event, as the host reads it. */
  function Content(f: Frame): bytes {
    if f.typ != RADIO_RX then [] else match ParseRadioRx(f.payload) case Ok(p) => p case Err(_) => []
  }

  function Contents(frames: seq<Frame>): (r: seq<bytes>)
    ensures |r| == |frames|
    ensures forall i :: 0 <= i < |r| ==> r[i] == Content(frames[i])
  {
    seq(|frames|, i requires 0 <= i < |frames| => Content(frames[i]))
  }

  lemma ContentsConcat(a: seq<Frame>, b: seq<Frame>)
    ensures Contents(a + b) == Contents(a) + Contents(b)
  {}

  function Queued(q: seq<Entry>): (r: seq<Frame>)
    ensures |r| == |q|
    ensures forall i :: 0 <= i < |r| ==> r[i] == q[i].frame
  {
    seq(|q|, i requires 0 <= i < |q| => q[i].frame)
  }

  // ---- what the modem says besides -------------------------------------------------

  predicate Plain(o: Option<Frame>) { o.Some? ==> o.value.typ != RADIO_RX }

  /** At most an answer has been queued, and no answer is a received packet. */
  ghost predicate Answers(s: Fw, t: Fw) {
    && Plain(t.lastResp)
    && (t.queue == s.queue || exists g: Frame :: g.typ != RADIO_RX && t.queue == Put(s.queue, Entry(g, false)))
  }

  /** The queue, and an answer kept or forgotten. */
  predicate Alike(s: Fw, t: Fw) { t.queue == s.queue && (t.lastResp == s.lastResp || t.lastResp == None) }

  lemma AnswersFrom(s: Fw, u: Fw, t: Fw)
    requires Alike(s, u) && Answers(u, t)
    ensures Answers(s, t)
  {}

  lemma AnswersNone(s: Fw, t: Fw)
    requires Plain(s.lastResp) && Alike(s, t)
    ensures Answers(s, t)
  {}

  lemma AnswersThen(s: Fw, t: Fw, u: Fw)
    requires Answers(s, t) && Alike(t, u)
    ensures Answers(s, u)
  {}

  lemma EnqueueAnswers(s: Fw, f: Frame)
    requires Plain(s.lastResp) && f.typ != RADIO_RX
    ensures Answers(s, Enqueue(s, f, false))
  {
    hide Put;
  }

  lemma ReplyAnswers(s: Fw, typ: byte, seqn: u32, payload: bytes, cache: bool)
    requires Plain(s.lastResp) && typ != RADIO_RX
    ensures Answers(s, Reply(s, typ, seqn, payload, cache))
  {
    hide Put;
    var f := Sealed(typ, s.session, seqn, payload);
    EnqueueAnswers(if cache then s.(lastResp := Some(f), haveLast := true) else s, f);
  }

  lemma ErrorAnswers(s: Fw, seqn: u32, code: u16, detail: u16, typ: byte, cache: bool)
    requires Plain(s.lastResp)
    ensures Answers(s, Error(s, seqn, code, detail, typ, cache))
  {
    hide ErrorBody, Reply;
    ReplyAnswers(s, ERROR, seqn, ErrorBody(code, detail, typ), cache);
  }

  lemma ErrorForAnswers(s: Fw, session: u32, seqn: u32, code: u16, typ: byte)
    requires Plain(s.lastResp)
    ensures Answers(s, ErrorFor(s, session, seqn, code, typ))
  {
    hide ErrorBody, Enqueue;
    EnqueueAnswers(s, Sealed(ERROR, session, seqn, ErrorBody(code, 0, typ)));
  }

  lemma RepeatAnswers(s: Fw, m: Frame)
    requires Plain(s.lastResp)
    ensures Answers(s, Repeat(s, m))
  {
    hide Enqueue, Error;
    if s.lastResp.Some? { EnqueueAnswers(s, s.lastResp.value); }
    ErrorAnswers(s, m.second, E_REUSED, 0, m.typ, false);
  }

  lemma ListenAlike(s: Fw, ok: bool)
    ensures Alike(s, Listen(s, ok))
  {}

  lemma SendAirAnswers(s: Fw, payload: bytes, seqn: u32, e: Env)
    requires |payload| <= MAX_AIR_PAYLOAD && Plain(s.lastResp)
    ensures Answers(s, SendAir(s, payload, seqn, e))
  {
    assert Alike(s, Launch(s, payload, seqn, e));
    hide Error, Launch, Listen;
    ErrorAnswers(s, seqn, E_NOTREADY, 0, RADIO_SEND, true);
    ErrorAnswers(s, seqn, E_BUSY, 0, RADIO_SEND, true);
    var t := Launch(s, payload, seqn, e);
    if s.ready && s.rs != Transmitting && !s.pending {
      if e.started {
        AnswersNone(s, SendAir(s, payload, seqn, e));
      } else {
        var u := t.(c := t.c.(radio := Inc32(t.c.radio)), rs := Down, pending := false);
        ErrorAnswers(u, seqn, E_RADIO, e.status, RADIO_SEND, true);
        var v := Error(u, seqn, E_RADIO, e.status, RADIO_SEND, true);
        AnswersFrom(s, u, v);
        ListenAlike(v, e.listening);
        AnswersThen(s, v, Listen(v, e.listening));
      }
    }
  }

  lemma DispatchAnswers(s: Fw, m: Frame, e: Env)
    requires Plain(s.lastResp)
    ensures Answers(s, Dispatch(s, m, e))
  {
    hide Error, Reply, SendAir, StatusBody, DiagnosticsBody, Answers;
    ErrorAnswers(s, m.second, E_BAD, 0, m.typ, true);
    ErrorAnswers(s, m.second, E_UNSUPPORTED, 0, m.typ, true);
    var ok := Credited(s);
    if m.typ == RADIO_SEND && |m.payload| <= MAX_AIR_PAYLOAD {
      var u := ok.(c := ok.c.(sendAccepted := Inc32(ok.c.sendAccepted)));
      SendAirAnswers(u, m.payload, m.second, e);
      AnswersFrom(s, u, SendAir(u, m.payload, m.second, e));
    } else if m.typ == GET_STATUS {
      ReplyAnswers(ok, LINK_STATUS, m.second, StatusBody(ok.boot, ok.rs, ok.c, e), true);
      AnswersFrom(s, ok, Reply(ok, LINK_STATUS, m.second, StatusBody(ok.boot, ok.rs, ok.c, e), true));
    } else if m.typ == GET_DIAGNOSTICS {
      ReplyAnswers(ok, DIAGNOSTICS, m.second, DiagnosticsBody(ok.c, |ok.queue|), true);
      AnswersFrom(s, ok, Reply(ok, DIAGNOSTICS, m.second, DiagnosticsBody(ok.c, |ok.queue|), true));
    }
  }

  lemma WelcomeAnswers(s: Fw, m: Frame, e: Env)
    requires Plain(s.lastResp)
    ensures Answers(s, Welcome(s, m, e))
  {
    hide Reply, InfoBody, Answers;
    var t := s.(lastReq := Some(m), lastSeq := m.second, c := s.c.(usbAccepted := Inc32(s.c.usbAccepted)));
    ReplyAnswers(t, INFO, m.second, InfoBody(t.boot, t.ready, e), true);
    AnswersFrom(s, t, Reply(t, INFO, m.second, InfoBody(t.boot, t.ready, e), true));
  }

  lemma HelloAnswers(s: Fw, m: Frame, e: Env)
    requires Plain(s.lastResp)
    ensures Answers(s, Hello(s, m, e))
  {
    hide Error, ErrorFor, Repeat, Welcome, Answers;
    ErrorForAnswers(s, m.first, m.second, E_BAD, m.typ);
    ErrorAnswers(s, m.second, E_BUSY, 0, m.typ, false);
    ErrorAnswers(s, m.second, E_STALE, 0, m.typ, false);
    RepeatAnswers(s, m);
    WelcomeAnswers(s, m, e);
    var u := ResetSession(s, m.first);
    WelcomeAnswers(u, m, e);
    AnswersFrom(s, u, Welcome(u, m, e));
  }

  lemma FilterAnswers(s: Fw, m: Frame, e: Env)
    requires Plain(s.lastResp)
    ensures Answers(s, Filter(s, m, e))
  {
    hide Error, ErrorFor, Repeat, Dispatch, Answers;
    ErrorForAnswers(s, m.first, m.second, E_WRONG, m.typ);
    ErrorAnswers(s, m.second, E_BUSY, 0, m.typ, false);
    ErrorAnswers(s, m.second, E_STALE, 0, m.typ, false);
    RepeatAnswers(s, m);
    var u := s.(lastReq := Some(m), lastSeq := m.second, haveLast := false);
    DispatchAnswers(u, m, e);
    AnswersFrom(s, u, Dispatch(u, m, e));
  }

  lemma HandleAnswers(s: Fw, m: Frame, e: Env)
    requires Plain(s.lastResp)
    ensures Answers(s, Handle(s, m, e))
  {
    hide Hello, Filter, Answers;
    var u := s.(c := s.c.(usbFrames := Inc32(s.c.usbFrames)));
    HelloAnswers(u, m, e);
    FilterAnswers(u, m, e);
    AnswersFrom(s, u, Handle(s, m, e));
  }

  lemma FinishTxAnswers(s: Fw, i: RadioIn)
    requires Plain(s.lastResp)
    ensures Answers(s, FinishTx(s, i))
  {
    hide Error, Reply, TxOkBody, Answers;
    var t := s.(rs := Down);
    var u := if i.finished then t.(c := t.c.(tx := Inc32(t.c.tx))) else t.(c := t.c.(radio := Inc32(t.c.radio)));
    var v := u.(pending := false);
    AnswersNone(s, u);
    ReplyAnswers(v, RADIO_TX_RESULT, s.txSeq, TxOkBody(s.boot, s.txAir, s.txStart, i.micros), true);
    ErrorAnswers(v, s.txSeq, E_RADIO, i.status, RADIO_SEND, true);
    if s.active && s.session == s.txSession { AnswersFrom(s, v, FinishTx(s, i)); }
  }

  lemma TxWatchdogAnswers(s: Fw, millis: u32, listening: bool)
    requires Plain(s.lastResp)
    ensures Answers(s, TxWatchdog(s, millis, listening))
  {
    hide Error, Listen, Answers;
    var t := s.(c := s.c.(radio := Inc32(s.c.radio)), rs := Down);
    var u := t.(pending := false);
    ErrorAnswers(u, s.txSeq, E_RADIO, TIMED_OUT, RADIO_SEND, true);
    AnswersNone(s, s);
    AnswersNone(s, t);
    var failed := Error(u, s.txSeq, E_RADIO, TIMED_OUT, RADIO_SEND, true);
    var v := if s.active && s.session == s.txSession then failed else t;
    AnswersFrom(s, u, Error(u, s.txSeq, E_RADIO, TIMED_OUT, RADIO_SEND, true));
    ListenAlike(v, listening);
    AnswersThen(s, v, Listen(v, listening));
  }

  // ---- the modem passes packets on in order ------------------------------------------

  /** Everything the modem has written or is about to. */
  function Output(x: L.System): seq<Frame> { x.emitted + Queued(x.fw.queue) }

  /** The received packets in the output are packets heard, in the order they were heard. */
  ghost predicate Passes(x: L.System, heard: seq<bytes>) {
    Plain(x.fw.lastResp) && Traces(Contents(Output(x)), Insides(heard))
  }

  /** The radio task is about to read a well-formed packet. */
  predicate Hears(s: Fw, i: RadioIn) {
    s.irq && s.ready && s.rs != Transmitting && i.readable && ReceivedWell(i.packet)
  }

  /** One entry put into the ring: the oldest event may leave. */
  lemma PutTraces(before: seq<Frame>, q: seq<Entry>, e: Entry, b: seq<bytes>, c: seq<bytes>)
    requires Traces(Contents(before + Queued(q)), b) && Traces([Content(e.frame)], c)
    ensures Traces(Contents(before + Queued(Put(q, e))), b + c)
  {
    hide Traces, Content;
    var l := Contents(before + Queued(q));
    match PutFate(q, e.event)
    case Refused => TracesMore(l, b, c);
    case Stored =>
      TracesConcat(l, b, [Content(e.frame)], c);
      assert Contents(before + Queued(q + [e])) == l + [Content(e.frame)];
    case StoredEvicting =>
      var k := OldestEvent(q);
      GapTraces(before, q, k, b);
      var m := Contents(before + Queued(q[..k] + q[k + 1..]));
      TracesConcat(m, b, [Content(e.frame)], c);
      assert Contents(before + Queued(q[..k] + q[k + 1..] + [e])) == m + [Content(e.frame)];
  }

  lemma GapTraces(before: seq<Frame>, q: seq<Entry>, k: nat, b: seq<bytes>)
    requires Traces(Contents(before + Queued(q)), b) && k < |q|
    ensures Traces(Contents(before + Queued(q[..k] + q[k + 1..])), b)
  {
    hide Traces, Content;
    var l := Contents(before + Queued(q));
    var n := |before| + k;
    assert l == l[..n] + [l[n]] + l[n + 1..];
    TracesGap(l[..n], [l[n]], l[n + 1..], b);
    assert Contents(before + Queued(q[..k] + q[k + 1..])) == l[..n] + l[n + 1..];
  }

  lemma PlainContent(f: Frame)
    requires f.typ != RADIO_RX
    ensures Traces([Content(f)], [])
  {
    EmptyMatters();
    TracesMute([]);
  }

  lemma AnswersPass(x: L.System, y: L.System, heard: seq<bytes>)
    requires Passes(x, heard) && Answers(x.fw, y.fw) && y.emitted == x.emitted
    ensures Passes(y, heard)
  {
    hide Traces, Content, Put, Matters;
    if y.fw.queue != x.fw.queue {
      var g: Frame :| g.typ != RADIO_RX && y.fw.queue == Put(x.fw.queue, Entry(g, false));
      PlainContent(g);
      PutTraces(x.emitted, x.fw.queue, Entry(g, false), Insides(heard), []);
      assert Insides(heard) + [] == Insides(heard);
    }
  }

  /** What the host will read of a packet is the packet's payload. */
  lemma EventContent(packet: bytes, session: u32, rssi: u16, snr: u16, uptime: u32)
    requires 18 <= |packet|
    ensures Content(Sealed(RADIO_RX, session, 0, RxEvent(packet, rssi, snr, uptime))) == Inside(packet)
  {
    var s := Open(packet);
    var p := RxEvent(packet, rssi, snr, uptime);
    assert p[RX_HEADER..] == s.payload;
  }

  lemma ReceivedPasses(x: L.System, y: L.System, i: RadioIn, heard: seq<bytes>)
    requires Passes(x, heard) && y.emitted == x.emitted && Alike(Received(x.fw, i), y.fw)
    ensures Passes(y, if ReceivedWell(i.packet) then heard + [i.packet] else heard)
  {
    hide Traces, Content, Put, Inside, ReceivedWell, RxEvent;
    if ReceivedWell(i.packet) {
      var b := [i.packet];
      assert Insides(heard + b) == Insides(heard) + Insides(b);
      assert Insides([i.packet]) == [Inside(i.packet)];
      WellLong(i.packet);
      if x.fw.active {
        var f := Sealed(RADIO_RX, x.fw.session, 0, RxEvent(i.packet, i.rssi, i.snr, i.millis));
        EventContent(i.packet, x.fw.session, i.rssi, i.snr, i.millis);
        TracesSelf([Content(f)]);
        PutTraces(x.emitted, x.fw.queue, Entry(f, true), Insides(heard), [Inside(i.packet)]);
      } else {
        TracesMore(Contents(Output(x)), Insides(heard), [Inside(i.packet)]);
      }
    }
  }

  lemma RadioPasses(x: L.System, y: L.System, i: RadioIn, heard: seq<bytes>)
    requires Passes(x, heard) && y.emitted == x.emitted && y.fw == RadioTask(x.fw, i)
    ensures Passes(y, if Hears(x.fw, i) then heard + [i.packet] else heard)
  {
    hide Passes, Received, FinishTx, Listen, ReceivedWell, Answers;
    if x.fw.irq && x.fw.ready {
      var z := x.(fw := x.fw.(irq := false));
      SamePasses(x, z, heard);
      if x.fw.rs == Transmitting {
        PlainNow(x, heard);
        FinishTxAnswers(z.fw, i);
        ListenAlike(FinishTx(z.fw, i), i.listening);
        AnswersThen(z.fw, FinishTx(z.fw, i), y.fw);
        AnswersPass(z, y, heard);
      } else if i.readable {
        ListenAlike(Received(z.fw, i), i.listening);
        ReceivedPasses(z, y, i, heard);
      } else {
        var t := z.fw.(c := z.fw.c.(radio := Inc32(z.fw.c.radio)));
        ListenAlike(t, i.listening);
        SamePasses(x, y, heard);
      }
    } else {
      SamePasses(x, y, heard);
    }
  }

  lemma PlainNow(x: L.System, heard: seq<bytes>)
    requires Passes(x, heard)
    ensures Plain(x.fw.lastResp)
  {}

  lemma SamePasses(x: L.System, y: L.System, heard: seq<bytes>)
    requires Passes(x, heard) && y.emitted == x.emitted && Alike(x.fw, y.fw)
    ensures Passes(y, heard)
  {}

  lemma FlushPasses(x: L.System, room: bool, whole: bool, heard: seq<bytes>)
    requires Passes(x, heard)
    ensures Passes(L.Step(x, L.Flush(room, whole)), heard)
  {
    hide Traces, Content;
    var q := x.fw.queue;
    var y := L.Step(x, L.Flush(room, whole));
    if q != [] && room {
      if whole {
        assert Output(y) == Output(x);
      } else {
        var none: seq<Entry> := [];
        assert none + q[1..] == q[..0] + q[0 + 1..] && none + q[1..] == q[1..];
        GapTraces(x.emitted, q, 0, Insides(heard));
      }
    }
  }

  lemma BootPasses(x: L.System, b: u32, n: u32, r: bool, l: bool, heard: seq<bytes>)
    requires Passes(x, heard)
    ensures Passes(x.(fw := Boot(b, n, r, l)), heard)
  {
    hide Traces, Content;
    var y := x.(fw := Boot(b, n, r, l));
    var a, g := Contents(x.emitted), Contents(Queued(x.fw.queue));
    ContentsConcat(x.emitted, Queued(x.fw.queue));
    assert a + g + [] == a + g && a + [] == a;
    TracesGap(a, g, [], Insides(heard));
    assert Output(y) == x.emitted;
  }

  /** Whatever the modem does, it passes on what it hears, in order. */
  lemma ModemPasses(x: L.System, a: L.Action, heard: seq<bytes>)
    requires Passes(x, heard) && L.OfModem(a)
    ensures Passes(L.Step(x, a), if a.Radio? && Hears(x.fw, a.i) then heard + [a.i.packet] else heard)
  {
    hide Passes, Hears, Handle, RadioTask, TxWatchdog, Boot, Starts, L.Disturbs, L.Complete, L.Finishes, Answers;
    PlainNow(x, heard);
    var y := L.Step(x, a);
    match a
    case Deliver(k, e) =>
      if k < |x.host.wire| {
        HandleAnswers(x.fw, x.host.wire[k], e);
        AnswersPass(x, y, heard);
      }
    case Interrupt => SamePasses(x, y, heard);
    case Radio(i) => RadioPasses(x, y, i, heard);
    case Watchdog(m, l) =>
      TxWatchdogAnswers(x.fw, m, l);
      AnswersPass(x, y, heard);
    case Flush(r, w) => FlushPasses(x, r, w, heard);
    case Reboot(b, n, r, l) =>
      BootPasses(x, b, n, r, l, heard);
      SamePasses(x.(fw := y.fw), y, heard);
  }

  // ---- the transport reads packets in order ----------------------------------------------

  /** The payloads waiting for the service: as before, none, or one more. */
  predicate Reads(h: T.Host, t: T.Host, f: Frame) {
    t.received == h.received || t.received == [] || t.received == h.received + [Content(f)]
  }

  predicate Keeps(h: T.Host, t: T.Host) { t.received == h.received || t.received == [] }

  lemma IssueKeeps(h: T.Host, typ: byte, payload: bytes, w: T.Write, reconnect: int)
    ensures Keeps(h, T.Issue(h, typ, payload, w, reconnect).0)
  {
    hide T.Settle;
  }

  lemma RestartKeeps(h: T.Host, w: T.Write, reconnect: int)
    ensures T.Restart(h, w, reconnect).received == []
  {
    hide T.Settle;
  }

  lemma OpenKeeps(h: T.Host, now: int, o: T.Opening, reconnect: int)
    ensures Keeps(h, T.OpenPort(h, now, o, reconnect))
  {
    hide T.Settle;
  }

  lemma ErrorKeeps(h: T.Host, f: Frame, w: T.Write, reconnect: int)
    ensures Keeps(h, T.OnError(h, f, w, reconnect))
  {
    hide T.Restart;
    if f.second in h.pending.vals {
      var typ := h.pending.vals[f.second].typ;
      var t := h.(pending := h.pending.Del(f.second),
                  outcomes := h.outcomes + if typ == RADIO_SEND then [(f.second, T.Failed)] else []);
      RestartKeeps(t, w, reconnect);
    }
  }

  lemma FrameReads(h: T.Host, f: Frame, w: T.Write, reconnect: int)
    ensures Reads(h, T.OnFrame(h, f, w, reconnect), f)
  {
    hide T.Restart, T.OnError, ParseRadioRx;
    RestartKeeps(h, w, reconnect);
    ErrorKeeps(h, f, w, reconnect);
  }

  lemma {:induction false} TimeoutsKeep(h: T.Host, order: seq<u32>, now: int, w: T.Write, reconnect: int)
    ensures Keeps(h, T.Timeouts(h, order, now, w, reconnect))
    decreases |order|
  {
    hide T.Restart, T.TrimTombs;
    if order != [] {
      var s := order[0];
      if s !in h.pending.vals || now - h.pending.vals[s].started <= T.RESPONSE_MS {
        TimeoutsKeep(h, order[1..], now, w, reconnect);
      } else {
        var t := h.(pending := h.pending.Del(s));
        RestartKeeps(t, w, reconnect);
        var u := if h.pending.vals[s].typ == RADIO_SEND
                 then t.(tombs := T.TrimTombs(t.tombs.Set(s, now)), outcomes := t.outcomes + [(s, T.Uncertain)]) else t;
        TimeoutsKeep(u, order[1..], now, w, reconnect);
      }
    }
  }

  lemma ExpireKeeps(h: T.Host, now: int, w: T.Write, reconnect: int)
    ensures Keeps(h, T.Expire(h, now, w, reconnect))
  {
    hide T.Timeouts, T.ExpireTombs;
    TimeoutsKeep(h.(tombs := T.ExpireTombs(h.tombs, now)), h.pending.order, now, w, reconnect);
  }

  lemma PollKeeps(h: T.Host, idle: bool, now: int, w: T.Write, reconnect: int)
    ensures Keeps(h, T.Poll(h, idle, now, w, reconnect))
  {
    hide T.Restart, T.Issue;
    RestartKeeps(h, w, reconnect);
    IssueKeeps(h.(lastDiagnostics := now), GET_DIAGNOSTICS, [], w, reconnect);
  }

  function FramesOf(frames: seq<(Frame, T.Write)>): (r: seq<Frame>)
    ensures |r| == |frames|
    ensures forall i :: 0 <= i < |r| ==> r[i] == frames[i].0
  {
    seq(|frames|, i requires 0 <= i < |frames| => frames[i].0)
  }

  lemma OneRead(h: T.Host, t: T.Host, f: Frame, seen: seq<bytes>)
    requires Traces(h.received, seen) && Reads(h, t, f)
    ensures Traces(t.received, seen + [Content(f)])
  {
    hide Traces, Content;
    TracesSelf([Content(f)]);
    TracesConcat(h.received, seen, [Content(f)], [Content(f)]);
    TracesMore(h.received, seen, [Content(f)]);
    TracesNone(seen + [Content(f)]);
  }

  /** The payloads received are contents of the frames read, in order. */
  lemma {:induction false} FramesRead(h: T.Host, frames: seq<(Frame, T.Write)>, reconnect: int, seen: seq<bytes>)
    requires Traces(h.received, seen)
    ensures Traces(T.OnFrames(h, frames, reconnect).received, seen + Contents(FramesOf(frames)))
    decreases |frames|
  {
    hide Traces, Content, T.OnFrame;
    if frames == [] {
      assert seen + Contents(FramesOf(frames)) == seen;
    } else {
      var f, w := frames[0].0, frames[0].1;
      var t := T.OnFrame(h, f, w, reconnect);
      FrameReads(h, f, w, reconnect);
      OneRead(h, t, f, seen);
      FramesRead(t, frames[1..], reconnect, seen + [Content(f)]);
      assert seen + [Content(f)] + Contents(FramesOf(frames[1..])) == seen + Contents(FramesOf(frames));
    }
  }

  /** A tick hands on contents of the frames it read, in order, and leaves none behind. */
  lemma TickReads(h: T.Host, i: T.TickIn, reconnect: int)
    requires h.received == []
    ensures var (t, payloads) := T.Tick(h, i, reconnect);
      t.received == [] && Traces(payloads, Contents(FramesOf(i.frames)))
  {
    hide Traces, Content, T.OpenPort, T.OnFrames, T.Expire, T.Poll, Contents;
    var a := T.OpenPort(h, i.at, i.opening, reconnect);
    OpenKeeps(h, i.at, i.opening, reconnect);
    var seen := Contents(FramesOf(i.frames));
    TracesNone(seen);
    TracesNone([]);
    if a.connected && i.readable {
      var b := T.OnFrames(a, i.frames, reconnect);
      FramesRead(a, i.frames, reconnect, []);
      assert [] + seen == seen;
      var c := T.Expire(b, i.now, i.timeout, reconnect);
      ExpireKeeps(b, i.now, i.timeout, reconnect);
      PollKeeps(c, i.idle, i.now, i.poll, reconnect);
    }
  }
}
