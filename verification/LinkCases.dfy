/** Particular runs of the link: how the two ends meet, how a send goes through, and where certainty ends. */
module LinkCases {
  import opened Bytes
  import opened Wrappers
  import opened Envelope
  import opened UsbProtocol
  import opened Transport
  import opened OrderedDict
  import opened Reports
  import opened Truncation
  import opened Link
  import F = Firmware
  import Ring
  import Listening

  // ---- a refused send --------------------------------------------------------------------

  /** The modem would start a transmission for the next send of this host. */
  predicate Willing(x: System, p: bytes, e: F.Env) {
    && x.fw.active && x.fw.session == x.host.session && x.fw.lastSeq <= x.host.sequence && !x.fw.pending
    && x.fw.ready && x.fw.rs != F.Transmitting && e.started && 0 < |p| <= MAX_AIR_PAYLOAD
  }

  /**
   A send that `send_air` refused because its write failed: if all but the delimiter
   was written, which the driver can do, the delimiter of the next open makes the
   modem act on the frame; and then it is transmitted if and only if the modem is
   willing, with exactly the payload.
   */
  lemma RefusedMayTransmit(x: System, p: bytes, w: Write, e: F.Env) returns (counts: seq<nat>)
    requires Inv(x.host) && Ready(x.host) && x.host.sequence < U32_MAX && |p| <= MAX_USB_PAYLOAD && !w.ok
    requires F.Inv(x.fw)
    ensures var f := Sealed(RADIO_SEND, x.host.session, x.host.sequence + 1, p);
      && EncodeFrame(f).Ok?
      && var raw := EncodeFrame(f).value;
      && |counts| == |raw| && FailsAfter(raw, counts, 1)
      && FirmwareRun(FirmwareInput([], false), raw[..Taken(raw, counts, 1)] + [0]) == (FirmwareInput([], false), [f])
    ensures var y := Step(x, HostSend(p, w));
      var z := Step(y, Deliver(|x.host.wire|, e));
      && SendAir(x.host, p, w, RECONNECT).1 == NotSent && z.sends == x.sends
      && (|z.air| == |x.air| + 1 <==> Willing(x, p, e))
      && (Willing(x, p, e) ==> Carries(z.air[|x.air|].packet, p))
  {
    hide F.Inv, F.Handle, Carries, RadioPacket, EncodeFrame, FirmwareRun, Taken;
    var f := Sealed(RADIO_SEND, x.host.session, x.host.sequence + 1, p);
    counts := RefusedReaches(f);
    SendExtends(x.host, p, w.(draw := 1));
    assert HostAfter(x.host, HostSend(p, w)).wire == x.host.wire + [f];
    F.HandleAir(x.fw, f, e);
    if Willing(x, p, e) { PacketCarries(x.fw.boot, F.Handle(x.fw, f, e).txAir, p); }
  }

  /** A write that fails on the delimiter alone, and the delimiter that comes with the next open. */
  lemma RefusedReaches(f: Frame) returns (counts: seq<nat>)
    requires |f.payload| <= MAX_USB_PAYLOAD && f.first != 0 && f.second != 0
    ensures EncodeFrame(f).Ok?
    ensures var raw := EncodeFrame(f).value;
      && |counts| == |raw| && FailsAfter(raw, counts, 1)
      && FirmwareRun(FirmwareInput([], false), raw[..Taken(raw, counts, 1)] + [0]) == (FirmwareInput([], false), [f])
  {
    assert EncodeFrame(f).Ok?;
    hide EncodeFrame, FirmwareRun, Taken, Suffices;
    var raw := EncodeFrame(f).value;
    FrameRoundTrip(f);
    counts := AllButDelimiter(raw);
    SufficesExactly(f, |raw| - 1);
    AfterFailedWrite(f, |raw| - 1);
  }

  // ---- how the two ends find each other -----------------------------------------------------

  lemma InfoReads(boot: u32, ready: bool, e: F.Env)
    requires |e.mac| == 6
    ensures var b := F.InfoBody(boot, ready, e); |b| == 22 && Get32(b, 6) == boot && (b[16] != 0 <==> ready)
  {
    var b := F.InfoBody(boot, ready, e);
    var rest := Be32(15) + Be16(MAX_AIR_PAYLOAD) + [if ready then 1 else 0, 1] + Be32(e.millis);
    assert b == e.mac + Be32(boot) + rest;
    Be32RoundTrip(e.mac, boot, rest);
    assert b[16] == rest[6];
  }

  lemma ErrorReads(code: u16, detail: u16, typ: byte)
    ensures var b := F.ErrorBody(code, detail, typ); |b| == 5 && Get16(b, 0) == code && b[4] == typ
  {
    var none: bytes := [];
    assert none + Be16(code) + (Be16(detail) + [typ]) == F.ErrorBody(code, detail, typ);
    Be16RoundTrip(none, code, Be16(detail) + [typ]);
  }

  /** A new response is the newest entry, unless the ring is full of responses. */
  lemma Answered(q: seq<Ring.Entry>, f: Frame)
    requires |q| <= Ring.SLOTS && |Ring.Responses(q)| < Ring.SLOTS
    ensures var r := Ring.Put(q, Ring.Entry(f, false)); |r| > 0 && r[|r| - 1] == Ring.Entry(f, false)
  {
    hide Ring.Responses, Ring.Events;
    Ring.PutKinds(q, Ring.Entry(f, false));
    Ring.KindsCount(q);
  }

  /** The modem has room for a response, if need be in place of an event. */
  predicate Room(s: F.Fw) { |s.queue| <= Ring.SLOTS && |Ring.Responses(s.queue)| < Ring.SLOTS }

  /** The modem's answer to a new session's HELLO completes the handshake, and the host learns what the modem said. */
  lemma HandshakeAgrees(h: Host, s: F.Fw, m: Frame, e: F.Env, w: Write)
    requires Inv(h) && Awaits(h, m.second, HELLO) && m == Sealed(HELLO, h.session, m.second, [])
    requires |e.mac| == 6 && Room(s) && !(s.active && s.session == m.first)
    ensures var t := F.Handle(s, m, e);
      && F.Newest(t).Some?
      && var g := OnFrame(h, F.Newest(t).value, w, RECONNECT);
      && t.active && t.session == g.session == h.session && t.lastSeq == g.sequence && !t.pending
      && t.rs == s.rs && t.ready == s.ready
      && g.handshake && g.bootId == Some(s.boot) && g.radioReady == s.ready && g.pending.order == []
  {
    hide F.InfoBody, Restart, Ring.Put, Ring.Responses;
    InfoReads(s.boot, s.ready, e);
    DelOnly(h, m.second);
    Answered(s.queue, Sealed(INFO, m.first, m.second, F.InfoBody(s.boot, s.ready, e)));
  }

  /** A modem that has lost the session says so, and the host starts a new one or disconnects. */
  lemma WrongSessionRecovers(h: Host, s: F.Fw, m: Frame, e: F.Env, w: Write)
    requires Inv(h) && w.draw != 0 && h.session == m.first && Room(s)
    requires m.typ in {RADIO_SEND, GET_DIAGNOSTICS} && Awaits(h, m.second, m.typ)
    requires !s.active || s.session != m.first
    ensures var t := F.Handle(s, m, e);
      && F.Newest(t).Some?
      && var g := OnFrame(h, F.Newest(t).value, w, RECONNECT);
      && g.session != h.session && !g.handshake
      && (g.connected ==> Awaits(g, 1, HELLO) && g.sequence == 1)
      && (m.typ == RADIO_SEND ==> g.outcomes == h.outcomes + [(m.second, Failed)])
  {
    hide F.ErrorBody, Restart, Ring.Put, Ring.Responses;
    ErrorReads(F.E_WRONG, 0, m.typ);
    Answered(s.queue, Sealed(ERROR, m.first, m.second, F.ErrorBody(F.E_WRONG, 0, m.typ)));
    DelOnly(h, m.second);
    var mid := h.(pending := h.pending.Del(m.second),
                  outcomes := h.outcomes + if m.typ == RADIO_SEND then [(m.second, Failed)] else []);
    RestartProps(mid, w, RECONNECT);
    RestartOutcomes(mid, w, RECONNECT);
    RestartAwaits(mid, w);
  }

  lemma RestartAwaits(h: Host, w: Write)
    ensures !Restart(h, w, RECONNECT).handshake
  {
    hide Settle;
  }

  // ---- the link can deliver --------------------------------------------------------------------

  /** The modem is free for the next send of its session. */
  predicate Idle(s: F.Fw, session: u32, last: u32) {
    s.active && s.session == session && s.lastSeq == last && !s.pending && s.ready && |s.queue| == 0
  }

  /** The modem's part of one send: started, finished, reported, and the modem free and listening again. */
  lemma Transmission(s: F.Fw, m: Frame, e: F.Env, i: F.RadioIn)
    requires F.Inv(s) && F.Starts(s, m, e) && |s.queue| == 0 && i.finished
    ensures var t := F.Handle(s, m, e).(irq := true);
      && t.rs == F.Transmitting && t.ready && |t.queue| == 0
      && var u := F.RadioTask(t, i);
      && |u.queue| == 1
      && F.Flush(u, true, true).1
        == Some(Sealed(RADIO_TX_RESULT, m.first, m.second, F.TxOkBody(t.boot, t.txAir, t.txStart, i.micros)))
      && Idle(F.Flush(u, true, true).0, m.first, m.second)
      && (i.listening ==> F.Flush(u, true, true).0.rs == F.Recv)
  {
    hide F.TxOkBody, RadioPacket;
    StartQuietly(s, m, e);
    FinishReports(F.Handle(s, m, e).(irq := true), i);
  }

  lemma FinishReports(t: F.Fw, i: F.RadioIn)
    requires t.irq && t.ready && t.rs == F.Transmitting && t.active && t.session == t.txSession && i.finished
    requires |t.queue| == 0
    ensures var u := F.RadioTask(t, i);
      && |u.queue| == 1
      && u.queue[0].frame
        == Sealed(RADIO_TX_RESULT, t.session, t.txSeq, F.TxOkBody(t.boot, t.txAir, t.txStart, i.micros))
      && u.active && u.session == t.session && u.lastSeq == t.lastSeq && !u.pending && u.ready
      && (i.listening ==> u.rs == F.Recv)
  {
    hide F.TxOkBody;
  }

  lemma StartQuietly(s: F.Fw, m: Frame, e: F.Env)
    requires F.Inv(s) && F.Starts(s, m, e)
    ensures var t := F.Handle(s, m, e);
      && t.queue == s.queue && t.rs == F.Transmitting && t.ready && t.active
      && t.session == m.first && t.txSession == m.first && t.txSeq == m.second && t.lastSeq == m.second
  {
    hide RadioPacket, F.AirSequence;
  }

  /** Both ends at rest in one session. */
  predicate AtRest(x: System) {
    && Ready(x.host) && x.host.sequence < U32_MAX && x.at < |x.host.wire|
    && x.fw.active && x.fw.session == x.host.session && x.fw.lastSeq <= x.host.sequence
    && !x.fw.pending && x.fw.ready && x.fw.rs == F.Recv && |x.fw.queue| == 0
  }

  /**
   From rest a send can be completed: host, wire, modem and radio each take their
   steps, every one of them is possible, and the outcome is `Completed`.
   */
  lemma CanComplete(x: System, p: bytes, w: Write, e: F.Env, i: F.RadioIn)
    requires SysInv(x) && AtRest(x) && 0 < |p| <= MAX_AIR_PAYLOAD
    requires w.ok && w.draw != 0 && e.started && i.finished
    ensures var a := Step(x, HostSend(p, w));
      var b := Step(a, Deliver(|x.host.wire|, e));
      var c := Step(b, Interrupt);
      var d := Step(c, Radio(i));
      var g := Step(d, Flush(true, true));
      && Enabled(x, HostSend(p, w)) && Enabled(a, Deliver(|x.host.wire|, e)) && Enabled(b, Interrupt)
      && Enabled(c, Radio(i)) && Enabled(d, Flush(true, true))
      && var r := F.Flush(d.fw, true, true).1;
      && r.Some? && Enabled(g, HostFrame(r.value, w))
      && var y := Step(g, HostFrame(r.value, w));
      && y.settled == x.settled + [Settled(x.host.session, x.host.sequence + 1, Completed)]
      && |y.air| == |x.air| + 1 && y.air[|x.air|].done
      && SysInv(y) && y.host.session == x.host.session && y.host.sequence == x.host.sequence + 1
      && (i.listening && x.host.sequence + 1 < U32_MAX ==> AtRest(y))
  {
    hide SysInv, Step, Enabled, F.Flush, F.Starts, Awaits, Idle;
    var f := Sealed(RADIO_SEND, x.host.session, x.host.sequence + 1, p);
    var a := Step(x, HostSend(p, w));
    SendStep(x, p, w);
    WillStart(x, f, e);
    StepSys(x, HostSend(p, w));
    AirSteps(a, |x.host.wire|, f, e, i);
    var b := Step(a, Deliver(|x.host.wire|, e));
    StepSys(a, Deliver(|x.host.wire|, e));
    StepSys(b, Interrupt);
    var d := Step(Step(b, Interrupt), Radio(i));
    StepSys(Step(b, Interrupt), Radio(i));
    StepSys(d, Flush(true, true));
    var g := Step(d, Flush(true, true));
    var r := F.Flush(d.fw, true, true).1.value;
    OneAwaited(g);
    LastStep(g, r, w);
    StepSys(g, HostFrame(r, w));
    if i.listening && x.host.sequence + 1 < U32_MAX { Rests(Step(g, HostFrame(r, w))); }
  }

  lemma Rests(y: System)
    requires Ready(y.host) && y.host.sequence < U32_MAX && y.at < |y.host.wire|
    requires Idle(y.fw, y.host.session, y.host.sequence) && y.fw.rs == F.Recv
    ensures AtRest(y)
  {}

  lemma OneAwaited(g: System)
    requires SysInv(g)
    ensures OnePending(g.host)
  {
    hide WireInv, ModemInv, Reported, Truthful, SendLog, Accounts;
  }

  /** Both ends stay so without the host having anything to send: what the modem then hears well is queued at once. */
  lemma HearsAtRest(x: System, i: F.RadioIn)
    requires AtRest(x) && i.readable && ReceivedWell(i.packet)
    ensures var y := Step(Step(x, Interrupt), Radio(i));
      && |i.packet| >= 18
      && y.fw.queue == [Ring.Entry(Sealed(RADIO_RX, x.host.session, 0,
           RxEvent(i.packet, i.rssi, i.snr, i.millis)), true)]
      && y.host == x.host && (i.listening ==> y.fw.rs == F.Recv)
  {
    hide RxEvent, ReceivedWell, F.RadioTask;
    var s := x.fw.(irq := true);
    Listening.PacketQueued(s, i);
    Listening.RadioTaskListens(s, i);
    var none: seq<Ring.Entry> := [];
    assert s.queue == none;
    var one := Ring.Entry(Sealed(RADIO_RX, s.session, 0, RxEvent(i.packet, i.rssi, i.snr, i.millis)), true);
    assert none + [one] == [one];
  }

  /** The send is accepted and its frame is on the wire. */
  lemma SendStep(x: System, p: bytes, w: Write)
    requires SysInv(x) && AtRest(x) && |p| <= MAX_USB_PAYLOAD && w.ok && w.draw != 0
    ensures var a := Step(x, HostSend(p, w));
      && Enabled(x, HostSend(p, w)) && a.fw == x.fw && a.at == x.at && a.air == x.air && a.settled == x.settled
      && x.at < |x.host.wire| < |a.host.wire|
      && a.host.wire[|x.host.wire|] == Sealed(RADIO_SEND, x.host.session, x.host.sequence + 1, p)
      && a.host.session == x.host.session && Awaits(a.host, x.host.sequence + 1, RADIO_SEND)
      && a.sessions == x.sessions + {a.host.session}
      && a.host.connected && a.host.handshake && a.host.radioReady && a.host.sequence == x.host.sequence + 1
  {
    hide Inv, WireInv, ModemInv, Reported, Truthful, SendLog, Accounts, SendAir, Awaits;
    SendsFrame(x.host, p, w);
    Nothing(x.host, Step(x, HostSend(p, w)).host, x.settled);
  }

  /** The modem's steps, from delivery to the written result. */
  lemma AirSteps(a: System, k: nat, f: Frame, e: F.Env, i: F.RadioIn)
    requires F.Inv(a.fw) && F.Starts(a.fw, f, e) && |a.fw.queue| == 0 && i.finished
    requires a.at < k < |a.host.wire| && a.host.wire[k] == f
    ensures var b := Step(a, Deliver(k, e));
      var c := Step(b, Interrupt);
      var d := Step(c, Radio(i));
      var g := Step(d, Flush(true, true));
      var r := F.Flush(d.fw, true, true).1;
      && Enabled(a, Deliver(k, e)) && Enabled(b, Interrupt) && Enabled(c, Radio(i)) && Enabled(d, Flush(true, true))
      && g.host == a.host && g.settled == a.settled && |g.air| == |a.air| + 1 && g.air[|a.air|].done
      && r.Some? && r.value in g.emitted
      && r.value.typ == RADIO_TX_RESULT && r.value.first == f.first && r.value.second == f.second
      && |r.value.payload| == 12
      && g.at == k && Idle(g.fw, f.first, f.second) && (i.listening ==> g.fw.rs == F.Recv)
  {
    hide Idle, F.Inv, F.Handle, F.RadioTask, F.TxOkBody, F.Starts, F.Flush;
    Transmission(a.fw, f, e, i);
    var t := F.Handle(a.fw, f, e).(irq := true);
    TxOkLength(t.boot, t.txAir, t.txStart, i.micros);
  }

  lemma LastStep(g: System, r: Frame, w: Write)
    requires r in g.emitted && w.draw != 0 && Awaits(g.host, r.second, RADIO_SEND) && r.first == g.host.session
    requires r.typ == RADIO_TX_RESULT && |r.payload| == 12 && OnePending(g.host)
    ensures var y := Step(g, HostFrame(r, w));
      && Enabled(g, HostFrame(r, w)) && y.air == g.air && y.fw == g.fw && y.at == g.at && SettledOnly(g.host, y.host)
      && y.settled == g.settled + [Settled(g.host.session, r.second, Completed)]
  {
    hide OnFrame;
    ResultCompletes(g.host, r, w, g.settled);
  }

  lemma SendsFrame(h: Host, p: bytes, w: Write)
    requires Inv(h) && Ready(h) && h.sequence < U32_MAX && |p| <= MAX_USB_PAYLOAD && w.ok && w.draw != 0
    ensures var (t, r) := SendAir(h, p, w, RECONNECT);
      && r.Accepted? && t.wire == h.wire + [Sealed(RADIO_SEND, h.session, h.sequence + 1, p)] && t.session == h.session
      && t.sequence == h.sequence + 1 && t.outcomes == h.outcomes && Awaits(t, t.sequence, RADIO_SEND)
      && t.connected && t.handshake && t.radioReady
  {}

  lemma Nothing(h: Host, t: Host, settled: seq<Settled>)
    requires t.outcomes == h.outcomes
    ensures settled + Tag(h.session, News(h, t)) == settled
  {}

  lemma WillStart(x: System, f: Frame, e: F.Env)
    requires SysInv(x) && AtRest(x) && e.started
    requires f.typ == RADIO_SEND && f.first == x.host.session && f.second == x.host.sequence + 1
    requires 0 < |f.payload| <= MAX_AIR_PAYLOAD
    ensures F.Inv(x.fw) && F.Starts(x.fw, f, e) && |x.fw.queue| == 0 && x.host.sequence < U32_MAX
  {}

  /** The host is as it was, with nothing pending any more. */
  predicate SettledOnly(h: Host, t: Host) {
    && t.session == h.session && t.sequence == h.sequence && t.wire == h.wire && t.connected == h.connected
    && t.handshake == h.handshake && t.radioReady == h.radioReady && t.pending.order == []
  }

  lemma ResultCompletes(h: Host, r: Frame, w: Write, settled: seq<Settled>)
    requires Awaits(h, r.second, RADIO_SEND) && r.first == h.session && r.typ == RADIO_TX_RESULT && |r.payload| == 12
    requires OnePending(h)
    ensures var t := OnFrame(h, r, w, RECONNECT);
      && SettledOnly(h, t)
      && settled + Tag(h.session, News(h, t)) == settled + [Settled(h.session, r.second, Completed)]
  {
    DelOnly(h, r.second);
    var t := OnFrame(h, r, w, RECONNECT);
    assert t.outcomes == h.outcomes + [(r.second, Completed)];
    assert News(h, t) == [(r.second, Completed)];
  }

  // ---- from power-up to rest -----------------------------------------------------------------

  lemma {:induction false} OneMore(x: System, run: seq<Action>, a: Action)
    requires Possible(x, run) && Enabled(Steps(x, run), a)
    ensures Possible(x, run + [a]) && Steps(x, run + [a]) == Step(Steps(x, run), a)
    decreases |run|
  {
    hide Step, Enabled;
    if |run| == 0 {
      var none: seq<Action> := [];
      assert run + [a] == [a] && [a][1..] == none;
      assert Steps(Step(x, a), none) == Step(x, a) && Possible(Step(x, a), none);
    } else {
      assert (run + [a])[0] == run[0] && (run + [a])[1..] == run[1..] + [a];
      OneMore(Step(x, run[0]), run[1..], a);
    }
  }

  lemma StepSys(x: System, a: Action)
    requires SysInv(x) && Enabled(x, a)
    ensures SysInv(Step(x, a))
  {
    assert !OfModem(a) ==> Step(x, a) == HostStep(x, a) by {
      hide HostStep;
    }
    hide SysInv, Step, Enabled;
    if OfModem(a) { ModemStep(x, a); } else { HostMove(x, a); }
  }

  /** What is needed of the environment for a handshake. */
  predicate Friendly(w: Write, e: F.Env) { w.ok && w.draw != 0 && |e.mac| == 6 }

  /** The port opens, the HELLO arrives, its answer is written and read. */
  function Handshake(w: Write, e: F.Env, x: System): seq<Action> {
    var a := Step(x, HostOpen(0, Opening(true, true, w)));
    var b := Step(a, Deliver(0, e));
    var r := F.Flush(b.fw, true, true).1;
    [HostOpen(0, Opening(true, true, w)), Deliver(0, e), Flush(true, true)]
    + (if r.Some? then [HostFrame(r.value, w)] else [])
  }

  /** From power-up the two ends can come to rest. */
  lemma ReachesRest(session: u32, boot: u32, airNext: u32, w: Write, e: F.Env)
    requires session != 0 && w.draw != session && Friendly(w, e)
    ensures var x := Begin(session, boot, airNext, true, true);
      && Possible(x, Handshake(w, e, x))
      && var y := Steps(x, Handshake(w, e, x));
      && SysInv(y) && AtRest(y) && !y.disturbed && y.sessions <= {session, w.draw}
  {
    hide SysInv, Step, Enabled, AtRest, F.Flush;
    var x := Begin(session, boot, airNext, true, true);
    BeginInv(session, boot, airNext, true, true);
    var a1, a2, a3 := HostOpen(0, Opening(true, true, w)), Deliver(0, e), Flush(true, true);
    Opens(x, w);
    var a := Step(x, a1);
    StepSys(x, a1);
    Greets(a, e, w);
    var b := Step(a, a2);
    StepSys(a, a2);
    var c := Step(b, a3);
    StepSys(b, a3);
    var a4 := HostFrame(F.Flush(b.fw, true, true).1.value, w);
    StepSys(c, a4);
    FourSteps(x, a1, a2, a3, a4);
    assert Handshake(w, e, x) == [a1, a2, a3, a4];
  }

  lemma FourSteps(x: System, a: Action, b: Action, c: Action, d: Action)
    requires Enabled(x, a) && Enabled(Step(x, a), b) && Enabled(Step(Step(x, a), b), c)
    requires Enabled(Step(Step(Step(x, a), b), c), d)
    ensures Possible(x, [a, b, c, d]) && Steps(x, [a, b, c, d]) == Step(Step(Step(Step(x, a), b), c), d)
  {
    hide Step, Enabled;
    var none: seq<Action> := [];
    assert Possible(x, none) && Steps(x, none) == x;
    OneMore(x, none, a);
    OneMore(x, none + [a], b);
    OneMore(x, none + [a] + [b], c);
    OneMore(x, none + [a] + [b] + [c], d);
    assert none + [a] + [b] + [c] + [d] == [a, b, c, d];
  }

  /** The host after opening: a HELLO is on the wire and awaited. */
  lemma Opens(x: System, w: Write)
    requires x == Begin(x.host.session, x.fw.boot, x.fw.airNext, true, true) && x.host.session != 0
    requires w.ok && w.draw != 0 && w.draw != x.host.session
    ensures var a := HostOpen(0, Opening(true, true, w));
      && Enabled(x, a)
      && var y := Step(x, a);
      && y.fw == x.fw && y.at == -1 && y.air == [] && !y.disturbed && Inv(y.host) && y.host.connected
      && y.host.wire == [Sealed(HELLO, w.draw, 1, [])] && y.host.session == w.draw && y.host.sequence == 1
      && Awaits(y.host, 1, HELLO) && y.sessions == x.sessions + {w.draw}
  {
    OpenProps(x.host, 0, Opening(true, true, w), RECONNECT);
    var none: seq<Frame> := [];
    assert none + [Sealed(HELLO, w.draw, 1, [])] == [Sealed(HELLO, w.draw, 1, [])];
  }

  /** The modem's answer reaches the host: both are at rest. */
  lemma Greets(a: System, e: F.Env, w: Write)
    requires a.at == -1 && a.air == [] && !a.disturbed && Friendly(w, e)
    requires a.fw == F.Boot(a.fw.boot, a.fw.airNext, true, true)
    requires Inv(a.host) && a.host.connected && a.host.session != 0 && a.host.sequence == 1
    requires a.host.wire == [Sealed(HELLO, a.host.session, 1, [])] && Awaits(a.host, 1, HELLO)
    ensures Enabled(a, Deliver(0, e))
    ensures var b := Step(a, Deliver(0, e));
      var c := Step(b, Flush(true, true));
      var r := F.Flush(b.fw, true, true).1;
      && Enabled(b, Flush(true, true)) && r.Some? && Enabled(c, HostFrame(r.value, w))
      && var y := Step(c, HostFrame(r.value, w));
      && AtRest(y) && !y.disturbed && y.sessions == a.sessions + {a.host.session}
  {
    hide F.InfoBody, OnFrame, Ring.Put, Ring.Responses;
    var m := Sealed(HELLO, a.host.session, 1, []);
    NoResponses();
    HandshakeAgrees(a.host, a.fw, m, e, w);
    HelloOnly(a.fw, m, e);
    var b := Step(a, Deliver(0, e));
    OnInfoSession(a.host, F.Newest(b.fw).value, w);
  }

  lemma NoResponses()
    ensures |Ring.Responses([])| == 0
  {}

  /** An empty ring holds just the answer; nothing starts. */
  lemma HelloOnly(s: F.Fw, m: Frame, e: F.Env)
    requires m.typ == HELLO && m.payload == [] && |s.queue| == 0 && !s.active
    ensures |F.Handle(s, m, e).queue| == 1 && F.Newest(F.Handle(s, m, e)) == Some(F.Handle(s, m, e).queue[0].frame)
    ensures F.Newest(F.Handle(s, m, e)).value.typ == INFO && !F.Starts(s, m, e)
    ensures F.Newest(F.Handle(s, m, e)).value.first == m.first && F.Newest(F.Handle(s, m, e)).value.second == m.second
    ensures |F.Newest(F.Handle(s, m, e)).value.payload| == |F.InfoBody(s.boot, s.ready, e)|
  {
    hide F.InfoBody;
  }

  /** A complete INFO changes neither session nor connection. */
  lemma OnInfoSession(h: Host, f: Frame, w: Write)
    requires OnFrame(h, f, w, RECONNECT).handshake
    requires f.typ == INFO && f.first == h.session && Awaits(h, f.second, HELLO)
    ensures OnFrame(h, f, w, RECONNECT).session == h.session ==>
      && OnFrame(h, f, w, RECONNECT).connected == h.connected && OnFrame(h, f, w, RECONNECT).sequence == h.sequence
      && OnFrame(h, f, w, RECONNECT).wire == h.wire
  {
    hide Restart;
    RestartAwaits(h, w);
  }

  /** Completed, each of `n` sends in turn after the one numbered `last`. */
  function AllCompleted(session: u32, last: nat, n: nat): seq<Settled>
    requires last + n < U32_MAX
  {
    seq(n, k requires 0 <= k < n => Settled(session, last + 1 + k, Completed))
  }

  /** And so can any number of sends, one after the other: a run leads from rest through all of them to rest. */
  lemma {:induction false} AllCanComplete(x: System, ps: seq<bytes>, w: Write, e: F.Env, i: F.RadioIn)
    returns (run: seq<Action>)
    requires SysInv(x) && AtRest(x) && x.host.sequence + |ps| < U32_MAX
    requires forall k :: 0 <= k < |ps| ==> 0 < |ps[k]| <= MAX_AIR_PAYLOAD
    requires w.ok && w.draw != 0 && e.started && i.finished && i.listening
    ensures Possible(x, run)
    ensures var y := Steps(x, run);
      && SysInv(y) && AtRest(y) && y.host.session == x.host.session
      && y.settled == x.settled + AllCompleted(x.host.session, x.host.sequence, |ps|)
    decreases |ps|
  {
    hide SysInv, Step, Enabled, Possible, Steps, AtRest, Idle, F.Flush;
    if |ps| == 0 {
      run := [];
      Standing(x);
    } else {
      var first, y := OneSend(x, ps[0], w, e, i);
      var rest := AllCanComplete(y, ps[1..], w, e, i);
      run := first + rest;
      OneThen(x, first, rest);
      Counted(x.settled, x.host.session, x.host.sequence, |ps|);
    }
  }

  lemma Standing(x: System)
    requires x.host.sequence < U32_MAX
    ensures Possible(x, []) && Steps(x, []) == x
    ensures x.settled == x.settled + AllCompleted(x.host.session, x.host.sequence, 0)
  {}

  lemma Counted(settled: seq<Settled>, session: u32, last: nat, n: nat)
    requires n > 0 && last + n < U32_MAX
    ensures settled + [Settled(session, last + 1, Completed)] + AllCompleted(session, last + 1, n - 1)
      == settled + AllCompleted(session, last, n)
  {}

  lemma OneSend(x: System, p: bytes, w: Write, e: F.Env, i: F.RadioIn) returns (run: seq<Action>, y: System)
    requires SysInv(x) && AtRest(x) && x.host.sequence + 1 < U32_MAX && 0 < |p| <= MAX_AIR_PAYLOAD
    requires w.ok && w.draw != 0 && e.started && i.finished && i.listening
    ensures Possible(x, run) && Steps(x, run) == y
    ensures SysInv(y) && AtRest(y) && y.host.session == x.host.session && y.host.sequence == x.host.sequence + 1
    ensures y.settled == x.settled + [Settled(x.host.session, x.host.sequence + 1, Completed)]
  {
    CanComplete(x, p, w, e, i);
    hide SysInv, Step, Enabled, F.Flush, AtRest;
    var a1, a2, a3, a4 := HostSend(p, w), Deliver(|x.host.wire|, e), Interrupt, Radio(i);
    FourSteps(x, a1, a2, a3, a4);
    var d := Steps(x, [a1, a2, a3, a4]);
    OneMore(x, [a1, a2, a3, a4], Flush(true, true));
    var a6 := HostFrame(F.Flush(d.fw, true, true).1.value, w);
    OneMore(x, [a1, a2, a3, a4] + [Flush(true, true)], a6);
    run := [a1, a2, a3, a4] + [Flush(true, true)] + [a6];
    y := Steps(x, run);
  }

  lemma {:induction false} OneThen(x: System, run: seq<Action>, more: seq<Action>)
    requires Possible(x, run) && Possible(Steps(x, run), more)
    ensures Possible(x, run + more) && Steps(x, run + more) == Steps(Steps(x, run), more)
    decreases |run|
  {
    hide Step, Enabled;
    if run == [] {
      assert run + more == more;
    } else {
      assert (run + more)[0] == run[0] && (run + more)[1..] == run[1..] + more;
      OneThen(Step(x, run[0]), run[1..], more);
    }
  }

  // ---- where certainty ends ----------------------------------------------------------------------

  /** Every delivery goes forward. */
  ghost predicate Unrepeated(x: System, run: seq<Action>)
    decreases |run|
  {
    run == [] || ((run[0].Deliver? ==> x.at < run[0].k) && Unrepeated(Step(x, run[0]), run[1..]))
  }

  /** A wire that delivers nothing twice leaves the modem undisturbed, so its failures are final. */
  lemma {:induction false} UnrepeatedUndisturbed(x: System, run: seq<Action>)
    requires !x.disturbed && Unrepeated(x, run)
    ensures !Steps(x, run).disturbed
    decreases |run|
  {
    hide F.Handle, F.RadioTask, F.TxWatchdog, F.Flush, F.Boot, F.Starts, HostAfter, Finishes;
    if run != [] { UnrepeatedUndisturbed(Step(x, run[0]), run[1..]); }
  }

  /** A send that is not new and has no answer at hand is answered by an error, and by nothing else. */
  lemma ErrorAnswer(s: F.Fw, m: Frame, e: F.Env)
    requires m.typ == RADIO_SEND && Room(s) && !(s.haveLast && s.lastReq == Some(m))
    requires s.active && s.session == m.first ==> m.second <= s.lastSeq
    ensures var t := F.Handle(s, m, e);
      F.Newest(t).Some? && Complains(F.Newest(t).value, m) && t.rs == s.rs && !F.Starts(s, m, e)
  {
    hide F.ErrorBody, Ring.Put, Ring.Responses;
    ErrorQueued(s.queue, m, F.E_WRONG);
    ErrorQueued(s.queue, m, F.E_BUSY);
    ErrorQueued(s.queue, m, F.E_STALE);
    ErrorQueued(s.queue, m, F.E_REUSED);
  }

  /** An error in answer to the send `m`. */
  predicate Complains(r: Frame, m: Frame) {
    r.typ == ERROR && r.first == m.first && r.second == m.second && |r.payload| == 5 && r.payload[4] == RADIO_SEND
  }

  lemma ErrorQueued(q: seq<Ring.Entry>, m: Frame, code: u16)
    requires m.typ == RADIO_SEND && |q| <= Ring.SLOTS && |Ring.Responses(q)| < Ring.SLOTS
    ensures var f := Sealed(ERROR, m.first, m.second, F.ErrorBody(code, 0, m.typ));
      var r := Ring.Put(q, Ring.Entry(f, false));
      |r| > 0 && r[|r| - 1].frame == f && Complains(f, m)
  {
    hide F.ErrorBody;
    ErrorReads(code, 0, m.typ);
    Answered(q, Sealed(ERROR, m.first, m.second, F.ErrorBody(code, 0, m.typ)));
  }

  /** The host takes an error for its outstanding send as a failure. */
  lemma ErrorFails(h: Host, r: Frame, w: Write, settled: seq<Settled>)
    requires Inv(h) && w.draw != 0 && Awaits(h, r.second, RADIO_SEND) && r.first == h.session
    requires r.typ == ERROR && |r.payload| == 5 && r.payload[4] == RADIO_SEND
    ensures var t := OnFrame(h, r, w, RECONNECT);
      && (t.session == h.session || t.session == w.draw || w.draw == h.session)
      && settled + Tag(h.session, News(h, t)) == settled + [Settled(h.session, r.second, Failed)]
  {
    hide Restart;
    var t := OnFrame(h, r, w, RECONNECT);
    DelOnly(h, r.second);
    var mid := h.(pending := h.pending.Del(r.second), outcomes := h.outcomes + [(r.second, Failed)]);
    RestartProps(mid, w, RECONNECT);
    RestartOutcomes(mid, w, RECONNECT);
    assert t.outcomes == h.outcomes + [(r.second, Failed)];
    assert News(h, t) == [(r.second, Failed)];
  }

  /** An error for anything else it ignores. */
  lemma ErrorIgnored(h: Host, r: Frame, w: Write, settled: seq<Settled>)
    requires r.typ == ERROR && |r.payload| == 5 && r.payload[4] == RADIO_SEND
    requires !(r.first == h.session && Awaits(h, r.second, RADIO_SEND))
    ensures var t := OnFrame(h, r, w, RECONNECT);
      t.session == h.session && t.wire == h.wire && settled + Tag(h.session, News(h, t)) == settled
  {
    hide Restart;
    assert h.outcomes[|h.outcomes|..] == [];
  }

  /** The frame last transmitted, and the modem with no answer to it at hand. */
  predicate Unsettling(x: System) {
    && |x.air| > 0 && x.air[|x.air| - 1].at == x.at && 0 <= x.at < |x.host.wire|
    && !(x.fw.haveLast && x.fw.lastReq == Some(x.host.wire[x.at]))
  }

  /** The host awaits the outcome of that frame. */
  predicate Awaited(x: System)
    requires 0 <= x.at < |x.host.wire|
  {
    x.host.wire[x.at].first == x.host.session && Awaits(x.host, x.host.wire[x.at].second, RADIO_SEND)
  }

  /** The modem writes its next `n` entries. */
  function Written(x: System, n: nat): System
    decreases n
  {
    if n == 0 then x else Written(Step(x, Flush(true, true)), n - 1)
  }

  lemma {:induction false} WritesAll(x: System, n: nat)
    requires SysInv(x) && n == |x.fw.queue|
    ensures var y := Written(x, n);
      && SysInv(y) && Reached(x, y) && y == x.(fw := y.fw, emitted := y.emitted) && y.fw.rs == x.fw.rs
      && (forall f <- x.emitted :: f in y.emitted) && (forall q <- x.fw.queue :: q.frame in y.emitted)
    decreases n
  {
    hide SysInv, Possible, Steps;
    if n == 0 {
      assert Possible(x, []) && Steps(x, []) == x by { NoSteps(x); }
    } else {
      var z := Step(x, Flush(true, true));
      StepSys(x, Flush(true, true));
      WritesAll(z, n - 1);
      StepReaches(x, Flush(true, true), Written(z, n - 1));
      assert x.fw.queue[0].frame in z.emitted;
      forall q <- x.fw.queue
        ensures q.frame in Written(z, n - 1).emitted
      {
        if q != x.fw.queue[0] { assert q in x.fw.queue[1..]; }
      }
    }
  }

  lemma NoSteps(x: System)
    ensures Possible(x, []) && Steps(x, []) == x
  {}

  /** Some possible run leads from `x` to `y`. */
  ghost predicate Reached(x: System, y: System) { exists run :: Possible(x, run) && Steps(x, run) == y }

  lemma StepReaches(x: System, a: Action, y: System)
    requires Enabled(x, a) && Reached(Step(x, a), y)
    ensures Reached(x, y)
  {
    hide Step, Enabled;
    var run :| Possible(Step(x, a), run) && Steps(Step(x, a), run) == y;
    var all := [a] + run;
    assert all[0] == a && all[1..] == run;
    assert Possible(x, all) && Steps(x, all) == y;
  }

  /**
   The steps that follow: the frame is delivered again, everything the modem has is
   written, and its answer is read.
   */
  function Disturbance(x: System, e: F.Env, w: Write): System
    requires 0 <= x.at < |x.host.wire|
  {
    var b := Step(x, Deliver(x.at, e));
    var c := Written(b, |b.fw.queue|);
    if F.Newest(b.fw).Some? then Step(c, HostFrame(F.Newest(b.fw).value, w)) else c
  }

  /**
   Then the host reports a failure exactly if it still awaits that send; and the
   failure is false exactly if the transmission was completed or is still running.
   */
  lemma DisturbedFails(x: System, e: F.Env, w: Write)
    requires SysInv(x) && Unsettling(x) && Room(x.fw) && w.draw != 0 && w.draw !in x.sessions
    ensures var y := Disturbance(x, e, w);
      && Reached(x, y) && y.disturbed && SysInv(y) && y.air == x.air && OnAir(y.fw) == OnAir(x.fw)
      && x.host.wire <= y.host.wire
      && y.settled
         == x.settled + (if Awaited(x) then [Settled(x.host.session, x.host.wire[x.at].second, Failed)] else [])
      && (FailedTruly(x) ==> (FailedTruly(y) <==> !Awaited(x) || (!x.air[|x.air| - 1].done && !OnAir(x.fw))))
  {
    assert 0 <= x.at < |x.host.wire|;
    hide SysInv, Step, Enabled, FailedTruly, Unsettling, Reached, Awaits, Complains;
    var m := x.host.wire[x.at];
    UnsettlingFacts(x);
    Refuses(x, e);
    var b := Step(x, Deliver(x.at, e));
    var c := Written(b, |b.fw.queue|);
    hide Written, F.Newest;
    var r := F.Newest(b.fw).value;
    ReadsError(c, m, r, w);
    ReachedStep(x, c, HostFrame(r, w));
    var y := Step(c, HostFrame(r, w));
    if Awaited(x) { Judged(x, y, m); } else { SameFailures(x, y); }
  }

  /** The host reads the refusal. */
  lemma ReadsError(c: System, m: Frame, r: Frame, w: Write)
    requires SysInv(c) && r in c.emitted && Complains(r, m) && w.draw != 0 && w.draw !in c.sessions
    requires c.host.session in c.sessions && c.host.session != 0 && Inv(c.host)
    ensures var y := Step(c, HostFrame(r, w));
      var awaited := m.first == c.host.session && Awaits(c.host, m.second, RADIO_SEND);
      && SysInv(y) && Enabled(c, HostFrame(r, w)) && c.host.wire <= y.host.wire
      && (awaited || y.host.wire == c.host.wire)
      && y == c.(host := y.host, settled := y.settled, sessions := y.sessions)
      && y.settled == c.settled + (if awaited then [Settled(c.host.session, m.second, Failed)] else [])
  {
    hide SysInv, OnFrame, Awaits, Inv;
    if m.first == c.host.session && Awaits(c.host, m.second, RADIO_SEND) {
      ErrorFails(c.host, r, w, c.settled);
    } else {
      ErrorIgnored(c.host, r, w, c.settled);
    }
    StepSys(c, HostFrame(r, w));
    HostExtends(c.host, HostFrame(r, w));
    Prefix(c.host, Step(c, HostFrame(r, w)).host);
  }

  /** The modem refuses the frame, and writes the refusal. */
  lemma Refuses(x: System, e: F.Env)
    requires SysInv(x) && Unsettling(x) && Room(x.fw)
    ensures var b := Step(x, Deliver(x.at, e));
      var c := Written(b, |b.fw.queue|);
      && F.Newest(b.fw).Some? && Complains(F.Newest(b.fw).value, x.host.wire[x.at]) && F.Newest(b.fw).value in c.emitted
      && SysInv(c) && Reached(x, c) && c.disturbed && OnAir(c.fw) == OnAir(x.fw)
      && c == x.(fw := c.fw, emitted := c.emitted, disturbed := true)
  {
    hide SysInv, F.Handle, F.Starts, Written, Reached;
    UnsettlingFacts(x);
    ErrorAnswer(x.fw, x.host.wire[x.at], e);
    var b := Step(x, Deliver(x.at, e));
    StepSys(x, Deliver(x.at, e));
    WritesAll(b, |b.fw.queue|);
    assert b.fw.queue[|b.fw.queue| - 1] in b.fw.queue;
    StepReaches(x, Deliver(x.at, e), Written(b, |b.fw.queue|));
  }

  /** A failure put on record for the frame last transmitted. */
  lemma Judged(x: System, y: System, m: Frame)
    requires SysInv(x) && SysInv(y) && Unsettling(x) && m == x.host.wire[x.at]
    requires y.air == x.air && y.sends == x.sends && x.host.wire <= y.host.wire && OnAir(y.fw) == OnAir(x.fw)
    requires y.settled == x.settled + [Settled(m.first, m.second, Failed)]
    ensures FailedTruly(x) ==> (FailedTruly(y) <==> !x.air[|x.air| - 1].done && !OnAir(x.fw))
  {
    hide SysInv, FailedTruly;
    LastOf(x.settled, Settled(m.first, m.second, Failed));
    if FailedTruly(y) { FalseFailed(y, m, |x.settled|); }
    if FailedTruly(x) && !x.air[|x.air| - 1].done && !OnAir(x.fw) { TrueFailed(x, y, m); }
  }

  lemma SameFailures(x: System, y: System)
    requires y.air == x.air && y.sends == x.sends && y.settled == x.settled && OnAir(y.fw) == OnAir(x.fw)
    requires y.host.wire == x.host.wire
    ensures FailedTruly(y) <==> FailedTruly(x)
  {
    assert forall j, s :: Unfinished(y, j, s) <==> Unfinished(x, j, s);
  }

  /** A failure of what was neither completed nor is running is true. */
  lemma TrueFailed(x: System, y: System, m: Frame)
    requires SysInv(x) && SysInv(y) && FailedTruly(x) && Unsettling(x) && m == x.host.wire[x.at]
    requires y.air == x.air && y.sends == x.sends && x.host.wire <= y.host.wire && OnAir(y.fw) == OnAir(x.fw)
    requires y.settled == x.settled + [Settled(m.first, m.second, Failed)]
    requires !x.air[|x.air| - 1].done && !OnAir(x.fw)
    ensures FailedTruly(y)
  {
    hide Inv, F.Inv, AirState, Reported, SendLog, Claims, SendKeys, SettledKeys, Truthful, Accounts, Ordered, Carries;
    Matched(x);
    Matched(y);
    forall i, j | 0 <= i < |y.settled| && y.settled[i].outcome == Failed
      ensures Unfinished(y, j, y.sends[i])
    {
      if Transmits(y, j, y.sends[i]) {
        if i < |x.settled| {
          assert y.settled[i] == x.settled[i];
          assert Unfinished(x, j, x.sends[i]);
        } else {
          KeyUnique(y.host.wire, y.air[j].at, x.at, m.first, m.second);
        }
      }
    }
  }

  /**
   The other disturbance: a frame refused before is delivered again and starts a
   transmission. If the host had recorded the refusal, that failure is now false;
   if it had not, no failure is made false.
   */
  lemma DisturbedStarts(x: System, e: F.Env)
    requires SysInv(x) && FailedTruly(x) && 0 <= x.at < |x.host.wire| && F.Starts(x.fw, x.host.wire[x.at], e)
    ensures var m, y := x.host.wire[x.at], Step(x, Deliver(x.at, e));
      FailedTruly(y) <==> Settled(m.first, m.second, Failed) !in x.settled
  {
    hide SysInv, F.Handle, F.Starts, FailedTruly;
    var m, y := x.host.wire[x.at], Step(x, Deliver(x.at, e));
    StepSys(x, Deliver(x.at, e));
    StartsOnAir(x, e);
    if Settled(m.first, m.second, Failed) in x.settled {
      var i :| 0 <= i < |x.settled| && x.settled[i] == Settled(m.first, m.second, Failed);
      if FailedTruly(y) { FalseFailed(y, m, i); }
    } else {
      NoneFalse(x, y, m);
    }
  }

  lemma StartsOnAir(x: System, e: F.Env)
    requires SysInv(x) && 0 <= x.at < |x.host.wire| && F.Starts(x.fw, x.host.wire[x.at], e)
    ensures OnAir(F.Handle(x.fw, x.host.wire[x.at], e)) && !OnAir(x.fw)
  {
    hide Inv, F.Inv, WireInv, Reported, Truthful, SendLog, Accounts, AirLog, AirState, F.Handle;
    F.HandleAir(x.fw, x.host.wire[x.at], e);
  }

  lemma NoneFalse(x: System, y: System, m: Frame)
    requires SysInv(x) && SysInv(y) && FailedTruly(x) && !OnAir(x.fw)
    requires Settled(m.first, m.second, Failed) !in x.settled
    requires y.host == x.host && y.sends == x.sends && y.settled == x.settled && 0 <= x.at < |x.host.wire|
    requires m == x.host.wire[x.at] && |y.air| == |x.air| + 1 && y.air[..|x.air|] == x.air
    requires y.air[|x.air|].at == x.at && !y.air[|x.air|].done
    ensures FailedTruly(y)
  {
    hide Inv, F.Inv, AirState, Reported, SendLog, Claims, SendKeys, SettledKeys, Truthful, Accounts, Ordered, Carries;
    Matched(x);
    forall i, j | 0 <= i < |y.settled| && y.settled[i].outcome == Failed
      ensures Unfinished(y, j, y.sends[i])
    {
      if Transmits(y, j, y.sends[i]) {
        assert x.settled[i] in x.settled;
        if j < |x.air| {
          assert y.air[j] == x.air[j];
          assert Unfinished(x, j, x.sends[i]);
        }
      }
    }
  }

  lemma LastOf(settled: seq<Settled>, o: Settled)
    ensures |settled + [o]| == |settled| + 1 && (settled + [o])[|settled|] == o
  {}

  /** What the invariant says of the frame last transmitted. */
  lemma UnsettlingFacts(x: System)
    requires SysInv(x) && Unsettling(x)
    ensures var m := x.host.wire[x.at];
      && m.typ == RADIO_SEND && Inv(x.host) && x.host.session in x.sessions && x.host.session != 0
      && (x.fw.active && x.fw.session == m.first ==> m.second <= x.fw.lastSeq)
  {
    hide F.Inv, Carries, Reported, Truthful, SendLog, Accounts;
  }

  /** A failure recorded for the frame last transmitted. */
  lemma FalseFailed(y: System, m: Frame, i: nat)
    requires SysInv(y) && FailedTruly(y) && i < |y.settled| && y.settled[i] == Settled(m.first, m.second, Failed)
    requires |y.air| > 0 && y.air[|y.air| - 1].at < |y.host.wire| && y.host.wire[y.air[|y.air| - 1].at] == m
    ensures !y.air[|y.air| - 1].done && !OnAir(y.fw)
  {
    hide Inv, WireInv, ModemInv, Reported, SendLog, Claims, SendKeys, SettledKeys, Truthful, Accounts;
    Matched(y);
    assert Unfinished(y, |y.air| - 1, y.sends[i]);
    assert Transmits(y, |y.air| - 1, y.sends[i]);
  }

  /**
   It happens: from rest a send is delivered, delivered again while it is on the
   air, and reported as failed; then its transmission is completed.
   */
  lemma FalseFailure(x: System, p: bytes, w: Write, e: F.Env, v: Write, i: F.RadioIn) returns (y: System)
    requires SysInv(x) && AtRest(x) && 0 < |p| <= MAX_AIR_PAYLOAD && w.ok && w.draw != 0 && e.started && i.finished
    requires v.draw != 0 && v.draw !in x.sessions
    ensures Reached(x, y) && !FailedTruly(y)
    ensures y.settled == x.settled + [Settled(x.host.session, x.host.sequence + 1, Failed)]
    ensures |y.air| == |x.air| + 1 && y.air[|x.air|].done
    ensures Key(y.host.wire, y.air[|x.air|].at, x.host.session, x.host.sequence + 1)
  {
    hide SysInv, Step, Enabled, F.Starts, Awaits, Disturbance, Unsettling, FailedTruly, Reached;
    var f := Sealed(RADIO_SEND, x.host.session, x.host.sequence + 1, p);
    var k := |x.host.wire|;
    var a := Step(x, HostSend(p, w));
    SendStep(x, p, w);
    WillStart(x, f, e);
    StepSys(x, HostSend(p, w));
    var b := Step(a, Deliver(k, e));
    Underway(a, k, f, e);
    StepSys(a, Deliver(k, e));
    SameSessions(x, a);
    DisturbedFails(b, e, v);
    var d := Disturbance(b, e, v);
    FinishesThen(d, i);
    y := Step(Step(d, Interrupt), Radio(i));
    LastOf(x.settled, Settled(f.first, f.second, Failed));
    if FailedTruly(y) { FalseFailed(y, f, |x.settled|); }
    ReachedStep(b, d, Interrupt);
    ReachedStep(b, Step(d, Interrupt), Radio(i));
    StepReaches(a, Deliver(k, e), y);
    StepReaches(x, HostSend(p, w), y);
  }

  /** The first delivery starts the transmission. */
  lemma Underway(a: System, k: nat, f: Frame, e: F.Env)
    requires F.Inv(a.fw) && F.Starts(a.fw, f, e) && |a.fw.queue| == 0 && a.at < k < |a.host.wire| && a.host.wire[k] == f
    requires f.first == a.host.session && Awaits(a.host, f.second, RADIO_SEND)
    ensures var b := Step(a, Deliver(k, e));
      && Enabled(a, Deliver(k, e)) && Unsettling(b) && Awaited(b) && Room(b.fw)
      && b.at == k && b.host == a.host && b.settled == a.settled
      && b.sessions == a.sessions && |b.air| == |a.air| + 1 && b.air[|a.air|].at == k && OnAir(b.fw)
  {
    hide F.Inv, F.Handle, F.Starts;
    StartQuietly(a.fw, f, e);
    StartsPending(a.fw, f, e);
  }

  lemma StartsPending(s: F.Fw, m: Frame, e: F.Env)
    requires F.Inv(s) && F.Starts(s, m, e)
    ensures !F.Handle(s, m, e).haveLast
  {
    hide RadioPacket, F.AirSequence;
  }

  /** An accepted send draws no session. */
  lemma SameSessions(x: System, a: System)
    requires SysInv(x) && a.host.session == x.host.session && a.sessions == x.sessions + {a.host.session}
    ensures a.sessions == x.sessions
  {
    hide Inv, ModemInv, Reported, Truthful, SendLog, Accounts, Ordered;
  }

  /** The radio finishes what is on the air. */
  lemma FinishesThen(d: System, i: F.RadioIn)
    requires SysInv(d) && OnAir(d.fw) && i.finished && |d.air| > 0
    ensures var y := Step(Step(d, Interrupt), Radio(i));
      && Enabled(d, Interrupt) && Enabled(Step(d, Interrupt), Radio(i))
      && SysInv(y) && y.settled == d.settled && y.host == d.host
      && |y.air| == |d.air| && y.air[|d.air| - 1].done && y.air[|d.air| - 1].at == d.air[|d.air| - 1].at
  {
    hide SysInv, F.RadioTask;
    StepSys(d, Interrupt);
    StepSys(Step(d, Interrupt), Radio(i));
    ReadyNow(d);
  }

  lemma ReadyNow(d: System)
    requires SysInv(d) && OnAir(d.fw)
    ensures d.fw.ready
  {
    hide Inv, WireInv, Reported, Truthful, SendLog, Accounts, AirLog, AirState;
  }

  // ---- both, from power-up -------------------------------------------------------------------------

  lemma ReachedStep(x: System, y: System, a: Action)
    requires Reached(x, y) && Enabled(y, a)
    ensures Reached(x, Step(y, a))
  {
    hide Step, Enabled;
    var run :| Possible(x, run) && Steps(x, run) == y;
    OneMore(x, run, a);
  }

  /** From power-up a run can end with a failure on record for a send whose transmission was completed. */
  lemma FalseFailureReached(session: u32, boot: u32, airNext: u32, w: Write, e: F.Env, p: bytes, v: Write, i: F.RadioIn)
    requires session != 0 && w.draw != session && Friendly(w, e) && 0 < |p| <= MAX_AIR_PAYLOAD
    requires e.started && i.finished && v.draw != 0 && v.draw != session && v.draw != w.draw
    ensures exists y :: Reached(Begin(session, boot, airNext, true, true), y) && !FailedTruly(y)
  {
    hide SysInv, Step, AtRest, FailedTruly, Reached, Possible, Steps, Handshake;
    var x := Begin(session, boot, airNext, true, true);
    ReachesRest(session, boot, airNext, w, e);
    var y := FalseFailure(Steps(x, Handshake(w, e, x)), p, w, e, v, i);
    ReachedThrough(x, Handshake(w, e, x), y);
  }

  lemma {:induction false} ReachedThrough(x: System, run: seq<Action>, y: System)
    requires Possible(x, run) && Reached(Steps(x, run), y)
    ensures Reached(x, y)
    decreases |run|
  {
    hide Step, Enabled, Reached;
    if run != [] {
      ReachedThrough(Step(x, run[0]), run[1..], y);
      StepReaches(x, run[0], y);
    }
  }
}
