/**
 Host and modem together. Towards the modem the wire is a FIFO that may lose,
 delay or repeat what it carries; towards the host anything the modem ever wrote
 may turn up in any order, any number of times, or never. Either end may drop the
 connection and the modem may restart. Session values are fresh.
 */
module Link {
  import opened Bytes
  import opened Wrappers
  import opened Envelope
  import opened UsbProtocol
  import opened Transport
  import opened OrderedDict
  import opened Reports
  import F = Firmware
  import Ring

  /** One transmission: the wire position of the frame that started it, the packet, and whether it was completed. */
  datatype Tx = Tx(at: nat, packet: bytes, done: bool)

  /** A send `send_air` accepted, with the wire position of its frame. */
  datatype Send = Send(session: u32, sequence: u32, payload: bytes, at: nat)

  datatype Settled = Settled(session: u32, sequence: u32, outcome: Outcome)

  /**
   `at` is the wire position last delivered, -1 before the first; the wire may deliver
   it again, and `disturbed` says that doing so has upset the modem; `sessions` are
   the values drawn so far.
   */
  datatype System = System(
    host: Host, fw: F.Fw, at: int, disturbed: bool, emitted: seq<Frame>, air: seq<Tx>,
    sends: seq<Send>, settled: seq<Settled>, sessions: set<u32>)

  datatype Action =
    | HostOpen(now: int, o: Opening)
    | HostFrame(f: Frame, w: Write)
    | HostExpire(now: int, w: Write)
    | HostPoll(idle: bool, now: int, w: Write)
    | HostDrop(now: int)
    | HostSend(payload: bytes, w: Write)
    | HostTake
    | HostCollect
    | Deliver(k: nat, e: F.Env)
    | Interrupt
    | Radio(i: F.RadioIn)
    | Watchdog(millis: u32, listening: bool)
    | Flush(room: bool, whole: bool)
    | Reboot(boot: u32, airNext: u32, ready: bool, listening: bool)

  const RECONNECT: int := 1000

  function HostAfter(h: Host, a: Action): Host {
    match a
    case HostOpen(now, o) => OpenPort(h, now, o, RECONNECT)
    case HostFrame(f, w) => OnFrame(h, f, w, RECONNECT)
    case HostExpire(now, w) => Expire(h, now, w, RECONNECT)
    case HostPoll(idle, now, w) => Poll(h, idle, now, w, RECONNECT)
    case HostDrop(now) => Disconnect(h, now, RECONNECT)
    case HostSend(p, w) => SendAir(h, p, w, RECONNECT).0
    case HostTake => TakeOutcomes(h)
    case HostCollect => h.(received := [])
    case _ => h
  }

  /** Outcomes reported by a step belong to the session the host was in. */
  function Tag(session: u32, o: seq<(u32, Outcome)>): (r: seq<Settled>)
    ensures |r| == |o|
    ensures forall i :: 0 <= i < |o| ==> r[i] == Settled(session, o[i].0, o[i].1)
  {
    seq(|o|, i requires 0 <= i < |o| => Settled(session, o[i].0, o[i].1))
  }

  /** The outcomes a host step adds. */
  function News(h: Host, t: Host): seq<(u32, Outcome)> {
    if |h.outcomes| <= |t.outcomes| then t.outcomes[|h.outcomes|..] else []
  }

  predicate AcceptsSend(h: Host, a: Action) { a.HostSend? && SendAir(h, a.payload, a.w, RECONNECT).1.Accepted? }

  function HostStep(x: System, a: Action): System {
    var t := HostAfter(x.host, a);
    x.(host := t,
       sends := if !AcceptsSend(x.host, a) then x.sends
                else x.sends + [Send(t.session, t.sequence, a.payload, |x.host.wire|)],
       settled := x.settled + Tag(x.host.session, News(x.host, t)),
       sessions := x.sessions + {t.session})
  }

  /** The transmission on the air is over, successfully. */
  predicate Finishes(s: F.Fw, i: F.RadioIn) { s.irq && s.ready && s.rs == F.Transmitting && i.finished }

  function Complete(air: seq<Tx>): seq<Tx> {
    if air == [] then air else air[|air| - 1 := air[|air| - 1].(done := true)]
  }

  /**
   A frame delivered a second time upsets the modem: it starts a transmission that it
   did not start before, or it is the one on the air or last sent and the modem has
   no answer to it at hand.
   */
  predicate Disturbs(x: System, k: nat, e: F.Env)
    requires k < |x.host.wire|
  {
    k == x.at &&
    (F.Starts(x.fw, x.host.wire[k], e)
     || (|x.air| > 0 && x.air[|x.air| - 1].at == k && !(x.fw.haveLast && x.fw.lastReq == Some(x.host.wire[k]))))
  }

  function Step(x: System, a: Action): System {
    match a
    case Deliver(k, e) =>
      if k < |x.host.wire| then
        var t := F.Handle(x.fw, x.host.wire[k], e);
        x.(fw := t, at := k, disturbed := x.disturbed || Disturbs(x, k, e),
           air := if F.Starts(x.fw, x.host.wire[k], e) then x.air + [Tx(k, t.txPacket, false)] else x.air)
      else x
    case Interrupt => x.(fw := x.fw.(irq := true))
    case Radio(i) => x.(fw := F.RadioTask(x.fw, i), air := if Finishes(x.fw, i) then Complete(x.air) else x.air)
    case Watchdog(m, l) => x.(fw := F.TxWatchdog(x.fw, m, l))
    case Flush(r, w) =>
      var (t, out) := F.Flush(x.fw, r, w);
      x.(fw := t, emitted := if out.Some? then x.emitted + [out.value] else x.emitted)
    case Reboot(b, n, r, l) => x.(fw := F.Boot(b, n, r, l))
    case _ => HostStep(x, a)
  }

  predicate Draws(a: Action) {
    match a
    case HostOpen(_, o) => o.w.draw != 0
    case HostFrame(_, w) => w.draw != 0
    case HostExpire(_, w) => w.draw != 0
    case HostPoll(_, _, w) => w.draw != 0
    case HostSend(p, w) => w.draw != 0 && |p| <= MAX_USB_PAYLOAD
    case _ => true
  }

  /** What the environment may do: deliver in order, echo only what was emitted, and draw fresh sessions. */
  ghost predicate Enabled(x: System, a: Action) {
    && Draws(a)
    && (a.Deliver? ==> x.at <= a.k < |x.host.wire|)
    && (a.HostFrame? ==> a.f in x.emitted)
    && (HostAfter(x.host, a).session != x.host.session ==> HostAfter(x.host, a).session !in x.sessions)
  }

  function Begin(session: u32, boot: u32, airNext: u32, ready: bool, listening: bool): System {
    System(Start(session), F.Boot(boot, airNext, ready, listening), -1, false, [], [], [], [], {session})
  }

  // ---- what the host puts on the wire -------------------------------------------

  /** How one host step extends the wire: at most one frame, the next of its session, or the HELLO of a new one. */
  ghost predicate Extends(h: Host, t: Host) {
    && |h.wire| <= |t.wire| <= |h.wire| + 1 && t.wire[..|h.wire|] == h.wire
    && (|t.wire| == |h.wire| + 1 ==>
          var f := t.wire[|h.wire|];
          && f.first == t.session && f.second == t.sequence && 0 < t.sequence
          && (t.session == h.session ==> h.sequence < t.sequence)
          && (f.typ == HELLO <==> t.sequence == 1))
    && (t.session == h.session ==> h.sequence <= t.sequence)
    && (t.session != h.session && |t.wire| == |h.wire| ==> t.sequence == 0)
    && (t.session == h.session && |t.wire| == |h.wire| ==> t.sequence == h.sequence)
  }

  lemma ExtendsNot(h: Host, t: Host)
    requires t.wire == h.wire && t.session == h.session && t.sequence == h.sequence
    ensures Extends(h, t)
  {}

  lemma IssueExtends(h: Host, g: Host, typ: byte, payload: bytes, w: Write)
    requires h.connected && h.sequence < U32_MAX && |payload| <= MAX_USB_PAYLOAD
    requires typ == HELLO <==> h.sequence == 0
    requires g.wire == h.wire
    requires if g.session == h.session then g.sequence == h.sequence else h.sequence == 0
    ensures Extends(g, Issue(h, typ, payload, w, RECONNECT).0)
    ensures var t := Issue(h, typ, payload, w, RECONNECT).0;
      && t.wire == h.wire + [Sealed(typ, h.session, h.sequence + 1, payload)]
      && t.session == h.session && t.sequence == h.sequence + 1
  {}

  lemma RestartExtends(h: Host, w: Write)
    requires h.connected && w.draw != 0 && h.session != 0
    ensures Extends(h, Restart(h, w, RECONNECT))
  {
    var mid := Abandoned(h, w.draw);
    IssueExtends(mid, h, HELLO, [], w);
  }

  lemma HostExtends(h: Host, a: Action)
    requires Inv(h) && Draws(a)
    ensures Extends(h, HostAfter(h, a))
  {
    var t := HostAfter(h, a);
    match a
    case HostOpen(now, o) => OpenExtends(h, now, o);
    case HostFrame(f, w) => FrameExtends(h, f, w);
    case HostExpire(now, w) => ExpireExtends(h, now, w);
    case HostPoll(idle, now, w) => PollExtends(h, idle, now, w);
    case HostDrop(now) => ExtendsNot(h, t);
    case HostSend(p, w) => SendExtends(h, p, w);
    case HostTake => ExtendsNot(h, t);
    case HostCollect => ExtendsNot(h, t);
    case _ => ExtendsNot(h, t);
  }

  lemma OpenExtends(h: Host, now: int, o: Opening)
    requires Inv(h) && o.w.draw != 0
    ensures Extends(h, OpenPort(h, now, o, RECONNECT))
  {
    var t := OpenPort(h, now, o, RECONNECT);
    if h.connected || now < h.nextAttempt || !o.found {
      ExtendsNot(h, t);
    } else {
      var mid := BeginFresh(h.(connected := true, pending := Dict([], map[])), o.w.draw);
      if o.delimiter { IssueExtends(mid, h, HELLO, [], o.w); }
    }
  }

  lemma FrameExtends(h: Host, f: Frame, w: Write)
    requires Inv(h) && w.draw != 0
    ensures Extends(h, OnFrame(h, f, w, RECONNECT))
  {
    hide Restart;
    var t := OnFrame(h, f, w, RECONNECT);
    if f.second in h.pending.vals {
      RestartExtends(h, w);
      if f.first == h.session && f.typ == ERROR { ErrorExtends(h, f, w); }
      else if t.wire == h.wire && t.session == h.session && t.sequence == h.sequence { ExtendsNot(h, t); }
    } else {
      ExtendsNot(h, t);
    }
  }

  lemma ErrorExtends(h: Host, f: Frame, w: Write)
    requires Inv(h) && w.draw != 0 && f.second in h.pending.vals
    ensures Extends(h, OnError(h, f, w, RECONNECT))
  {
    hide Restart;
    var typ := h.pending.vals[f.second].typ;
    var mid := h.(pending := h.pending.Del(f.second),
                  outcomes := h.outcomes + if typ == RADIO_SEND then [(f.second, Failed)] else []);
    RestartExtends(mid, w);
    ExtendsNot(h, mid);
    ExtendsNot(h, h);
  }

  lemma ExpireExtends(h: Host, now: int, w: Write)
    requires Inv(h) && w.draw != 0
    ensures Extends(h, Expire(h, now, w, RECONNECT))
  {
    hide Restart, TrimTombs, ExpireTombs;
    var g := h.(tombs := ExpireTombs(h.tombs, now));
    var t := Expire(h, now, w, RECONNECT);
    if h.pending.order == [] {
      ExtendsNot(h, t);
    } else {
      var s := h.sequence;
      assert h.pending.order == [s];
      TimeoutsOne(g, s, now, w, RECONNECT);
      RestartExtends(g.(pending := g.pending.Del(s)), w);
      hide Timeouts;
      if t.wire == h.wire && t.session == h.session && t.sequence == h.sequence { ExtendsNot(h, t); }
    }
  }

  lemma PollExtends(h: Host, idle: bool, now: int, w: Write)
    requires Inv(h) && w.draw != 0
    ensures Extends(h, Poll(h, idle, now, w, RECONNECT))
  {
    hide Restart;
    var t := Poll(h, idle, now, w, RECONNECT);
    if h.handshake {
      RestartExtends(h, w);
      if h.sequence < U32_MAX { IssueExtends(h.(lastDiagnostics := now), h, GET_DIAGNOSTICS, [], w); }
    }
    ExtendsNot(h, h);
  }

  lemma SendExtends(h: Host, p: bytes, w: Write)
    requires Inv(h) && w.draw != 0 && |p| <= MAX_USB_PAYLOAD
    ensures Extends(h, SendAir(h, p, w, RECONNECT).0)
    ensures SendAir(h, p, w, RECONNECT).1.Accepted? ==>
      var t := SendAir(h, p, w, RECONNECT).0;
      t.wire == h.wire + [Sealed(RADIO_SEND, t.session, t.sequence, p)]
  {
    hide Restart;
    if Ready(h) {
      RestartExtends(h, w);
      if h.sequence < U32_MAX { IssueExtends(h, h, RADIO_SEND, p, w); }
    }
    ExtendsNot(h, h);
  }

  // ---- the wire invariant ---------------------------------------------------------

  /** Sessions are contiguous on the wire, sequences increase within one, and HELLO is exactly number one. */
  ghost predicate Ordered(wire: seq<Frame>) {
    && (forall i :: 0 <= i < |wire| ==>
          wire[i].second > 0 && wire[i].first != 0 && (wire[i].typ == HELLO <==> wire[i].second == 1))
    && (forall i, j :: 0 <= i < j < |wire| && wire[i].first == wire[j].first ==> wire[i].second < wire[j].second)
    && (forall i, j, k :: 0 <= i < k < j < |wire| && wire[i].first == wire[j].first ==> wire[k].first == wire[i].first)
  }

  ghost predicate WireInv(h: Host, sessions: set<u32>) {
    && Ordered(h.wire)
    && h.session in sessions
    && (forall i :: 0 <= i < |h.wire| ==> h.wire[i].first in sessions)
    && (forall i :: 0 <= i < |h.wire| && h.wire[i].first == h.session ==>
          h.wire[i].second <= h.sequence && h.wire[|h.wire| - 1].first == h.session)
  }

  lemma WireKept(h: Host, t: Host, sessions: set<u32>)
    requires WireInv(h, sessions) && Extends(h, t) && t.session != 0
    requires t.session != h.session ==> t.session !in sessions
    ensures WireInv(t, sessions + {t.session})
  {
    if |t.wire| == |h.wire| {
      assert t.wire == h.wire;
    } else {
      var f := t.wire[|h.wire|];
      assert t.wire == h.wire + [f];
      OrderedKept(h.wire, f);
    }
  }

  /** A frame of the newest session, or of one never seen, keeps the order. */
  lemma OrderedKept(wire: seq<Frame>, f: Frame)
    requires Ordered(wire)
    requires f.second > 0 && f.first != 0 && (f.typ == HELLO <==> f.second == 1)
    requires forall i :: 0 <= i < |wire| && wire[i].first == f.first ==>
               wire[i].second < f.second && wire[|wire| - 1].first == f.first
    ensures Ordered(wire + [f])
  {
    var w := wire + [f];
    forall i, k, j | 0 <= i < k < j < |w| && w[i].first == w[j].first
      ensures w[k].first == w[i].first
    {
      if j == |wire| && k < |wire| - 1 { assert wire[i].first == wire[|wire| - 1].first; }
    }
  }

  // ---- the modem's side -------------------------------------------------------------

  predicate Carries(packet: bytes, payload: bytes) { ReceivedWell(packet) && Open(packet).payload == payload }

  lemma PacketCarries(boot: u32, air: u32, payload: bytes)
    requires 0 < |payload| <= MAX_AIR_PAYLOAD
    ensures Carries(RadioPacket(boot, air, payload), payload)
  {
    hide Seal, WellSealed;
    SealOpens(L, Sealed(1, boot, air, payload));
    SealedLength(Sealed(1, boot, air, payload));
  }

  /** Transmissions come from distinct RADIO_SEND frames already delivered, in wire order, each carrying its payload. */
  ghost predicate AirLog(wire: seq<Frame>, at: int, air: seq<Tx>) {
    && (forall j :: 0 <= j < |air| ==>
          && air[j].at <= at && air[j].at < |wire| && wire[air[j].at].typ == RADIO_SEND
          && Carries(air[j].packet, wire[air[j].at].payload))
    && (forall i, j :: 0 <= i < j < |air| ==> air[i].at < air[j].at)
  }

  predicate Key(wire: seq<Frame>, at: nat, session: u32, sequence: u32) {
    at < |wire| && wire[at].first == session && wire[at].second == sequence
  }

  /** Nothing of the session beyond `last` has been transmitted. */
  ghost predicate UpTo(wire: seq<Frame>, air: seq<Tx>, session: u32, last: u32) {
    forall j :: 0 <= j < |air| && air[j].at < |wire| && wire[air[j].at].first == session ==>
      wire[air[j].at].second <= last
  }

  /** The newest transmission has this key and is not complete. */
  predicate Running(wire: seq<Frame>, air: seq<Tx>, session: u32, sequence: u32) {
    |air| > 0 && !air[|air| - 1].done && Key(wire, air[|air| - 1].at, session, sequence)
  }

  /** What the modem's registers know of the log. */
  ghost predicate AirState(wire: seq<Frame>, fw: F.Fw, air: seq<Tx>) {
    && (fw.active ==> UpTo(wire, air, fw.session, fw.lastSeq))
    && (fw.rs == F.Transmitting ==> Running(wire, air, fw.txSession, fw.txSeq))
  }

  ghost predicate ModemInv(wire: seq<Frame>, at: int, fw: F.Fw, air: seq<Tx>) {
    F.Inv(fw) && AirLog(wire, at, air) && AirState(wire, fw, air)
  }

  /** Nothing of a session was transmitted before its HELLO. */
  lemma HelloFirst(wire: seq<Frame>, at: int, air: seq<Tx>, k: nat)
    requires Ordered(wire) && AirLog(wire, at, air) && at <= k < |wire| && wire[k].typ == HELLO
    ensures forall j :: 0 <= j < |air| ==> wire[air[j].at].first != wire[k].first
  {
    hide Carries;
    forall j | 0 <= j < |air|
      ensures wire[air[j].at].first != wire[k].first
    {
      var p := air[j].at;
      assert p <= k && wire[p].typ == RADIO_SEND && p != k;
    }
  }

  /** A frame not yet passed cannot be the HELLO of the session on the air. */
  lemma NotReintroduced(wire: seq<Frame>, at: int, fw: F.Fw, air: seq<Tx>, k: nat)
    requires Ordered(wire) && AirLog(wire, at, air) && AirState(wire, fw, air) && at <= k < |wire|
    ensures !F.Reintroduces(fw, wire[k])
  {
    if wire[k].typ == HELLO { HelloFirst(wire, at, air, k); }
  }

  /** A frame beyond everything transmitted in its session is beyond everything transmitted. */
  lemma Advanced(wire: seq<Frame>, at: int, air: seq<Tx>, last: u32, k: nat)
    requires AirLog(wire, at, air) && at <= k < |wire| && wire[k].second > last && UpTo(wire, air, wire[k].first, last)
    ensures forall j :: 0 <= j < |air| ==> air[j].at < k
  {
    hide Carries;
    forall j | 0 <= j < |air|
      ensures air[j].at < k
    {
      assert air[j].at <= at;
    }
  }

  lemma LogGrows(wire: seq<Frame>, at: int, air: seq<Tx>, k: nat, packet: bytes)
    requires AirLog(wire, at, air) && at <= k < |wire| && wire[k].typ == RADIO_SEND && Carries(packet, wire[k].payload)
    requires forall j :: 0 <= j < |air| ==> air[j].at < k
    ensures AirLog(wire, k, air + [Tx(k, packet, false)])
    ensures Running(wire, air + [Tx(k, packet, false)], wire[k].first, wire[k].second)
  {
    hide Carries;
  }

  lemma Delivered(wire: seq<Frame>, at: int, fw: F.Fw, air: seq<Tx>, k: nat, e: F.Env)
    requires Ordered(wire) && ModemInv(wire, at, fw, air) && at <= k < |wire|
    ensures var t := F.Handle(fw, wire[k], e);
      ModemInv(wire, k, t, if F.Starts(fw, wire[k], e) then air + [Tx(k, t.txPacket, false)] else air)
  {
    assert AirLog(wire, k, air) by {
      hide Carries;
    }
    hide F.Inv, F.Handle, F.Reintroduces, Carries, Ordered, AirLog, UpTo, Follows;
    var m, t := wire[k], F.Handle(fw, wire[k], e);
    NotReintroduced(wire, at, fw, air, k);
    Named(wire, k);
    F.HandleInv(fw, m, e);
    F.HandleAir(fw, m, e);
    HandleFollows(fw, m, e);
    // The frame's effect on session and sequence keeps the bound.
    assert t.active ==> UpTo(wire, air, t.session, t.lastSeq) by {
      hide Carries, Ordered, AirLog;
      if wire[k].typ == HELLO { HelloFirst(wire, at, air, k); }
    }
    if F.Starts(fw, m, e) {
      hide RadioPacket;
      PacketCarries(fw.boot, t.txAir, m.payload);
      Pending(t);
      Advanced(wire, at, air, fw.lastSeq, k);
      LogGrows(wire, at, air, k, t.txPacket);
      assert UpTo(wire, air + [Tx(k, t.txPacket, false)], wire[k].first, wire[k].second);
    } else {
    }
  }

  lemma Named(wire: seq<Frame>, k: nat)
    requires Ordered(wire) && k < |wire|
    ensures wire[k].first != 0 && wire[k].second != 0
  {}

  lemma Pending(t: F.Fw)
    requires F.Inv(t) && t.pending
    ensures t.active && t.txSession == t.session && t.txSeq == t.lastSeq
  {}

  // ---- the radio's turn ---------------------------------------------------------------

  /** Session and sequence stay, and no transmission begins. */
  predicate Calm(s: F.Fw, t: F.Fw) {
    && t.active == s.active && t.session == s.session && t.lastSeq == s.lastSeq
    && (t.rs == F.Transmitting ==> s.rs == F.Transmitting && t.txSession == s.txSession && t.txSeq == s.txSeq)
  }

  /** Answering touches neither session nor radio. */
  lemma ReplyCalm(s: F.Fw, typ: byte, seqn: u32, payload: bytes, cache: bool)
    ensures Calm(s, F.Reply(s, typ, seqn, payload, cache)) && F.Reply(s, typ, seqn, payload, cache).rs == s.rs
  {
    hide F.Enqueue;
    var f := Sealed(typ, s.session, seqn, payload);
    F.EnqueueQuiet(if cache then s.(lastResp := Some(f), haveLast := true) else s, f, false);
  }

  lemma ListenCalm(s: F.Fw, ok: bool)
    ensures Calm(s, F.Listen(s, ok)) && (s.ready || s.rs != F.Transmitting ==> F.Listen(s, ok).rs != F.Transmitting)
  {}

  lemma FinishCalm(s: F.Fw, i: F.RadioIn)
    ensures Calm(s, F.FinishTx(s, i)) && F.FinishTx(s, i).rs == F.Down
  {
    hide F.ErrorBody, F.Reply, F.TxOkBody;
    var t := if i.finished then s.(rs := F.Down, c := s.c.(tx := Inc32(s.c.tx)))
             else s.(rs := F.Down, c := s.c.(radio := Inc32(s.c.radio)));
    ReplyCalm(t.(pending := false), RADIO_TX_RESULT, s.txSeq, F.TxOkBody(s.boot, s.txAir, s.txStart, i.micros), true);
    ReplyCalm(t.(pending := false), ERROR, s.txSeq, F.ErrorBody(F.E_RADIO, i.status, RADIO_SEND), true);
  }

  lemma ReceivedCalm(s: F.Fw, i: F.RadioIn)
    ensures Calm(s, F.Received(s, i)) && F.Received(s, i).rs == s.rs
  {
    hide F.Enqueue, ReceivedWell, RxEvent;
    if ReceivedWell(i.packet) {
      F.WellLong(i.packet);
      F.EnqueueQuiet(s.(c := s.c.(rx := Inc32(s.c.rx))),
                     Sealed(RADIO_RX, s.session, 0, RxEvent(i.packet, i.rssi, i.snr, i.millis)), true);
    }
  }

  lemma RadioCalm(s: F.Fw, i: F.RadioIn)
    ensures Calm(s, F.RadioTask(s, i)) && (s.irq && s.ready ==> F.RadioTask(s, i).rs != F.Transmitting)
  {
    hide F.FinishTx, F.Received, F.Listen;
    var t := s.(irq := false);
    FinishCalm(t, i);
    ReceivedCalm(t, i);
    ListenCalm(F.FinishTx(t, i), i.listening);
    ListenCalm(F.Received(t, i), i.listening);
    ListenCalm(t.(c := t.c.(radio := Inc32(t.c.radio))), i.listening);
  }

  lemma WatchdogCalm(s: F.Fw, millis: u32, listening: bool)
    ensures Calm(s, F.TxWatchdog(s, millis, listening))
    ensures F.Overdue(s, millis) ==> F.TxWatchdog(s, millis, listening).rs != F.Transmitting
  {
    hide F.ErrorBody, F.Reply, F.Listen;
    var t := s.(c := s.c.(radio := Inc32(s.c.radio)), rs := F.Down);
    var u := F.Error(t.(pending := false), s.txSeq, F.E_RADIO, F.TIMED_OUT, RADIO_SEND, true);
    ReplyCalm(t.(pending := false), ERROR, s.txSeq, F.ErrorBody(F.E_RADIO, F.TIMED_OUT, RADIO_SEND), true);
    ListenCalm(t, listening);
    ListenCalm(u, listening);
  }

  lemma FlushCalm(s: F.Fw, room: bool, whole: bool)
    ensures Calm(s, F.Flush(s, room, whole).0)
  {}

  lemma CalmState(wire: seq<Frame>, s: F.Fw, t: F.Fw, air: seq<Tx>)
    requires AirState(wire, s, air) && Calm(s, t)
    ensures AirState(wire, t, air)
  {
    hide UpTo;
  }

  lemma CompleteLog(wire: seq<Frame>, at: int, air: seq<Tx>)
    requires AirLog(wire, at, air)
    ensures AirLog(wire, at, Complete(air))
  {
    hide Carries;
  }

  lemma CompleteState(wire: seq<Frame>, s: F.Fw, t: F.Fw, air: seq<Tx>)
    requires AirState(wire, s, air) && Calm(s, t) && t.rs != F.Transmitting
    ensures AirState(wire, t, Complete(air))
  {}

  // ---- what the modem reports ------------------------------------------------------------

  /** A transmission with this key was completed. */
  ghost predicate Done(wire: seq<Frame>, air: seq<Tx>, session: u32, sequence: u32) {
    exists j :: 0 <= j < |air| && air[j].done && Key(wire, air[j].at, session, sequence)
  }

  /** The wire is past the frame with this key, no transmission of it was completed, and none is on the air. */
  ghost predicate Dead(wire: seq<Frame>, at: int, air: seq<Tx>, onAir: bool, session: u32, sequence: u32) {
    && (exists k :: 0 <= k <= at && Key(wire, k, session, sequence))
    && (forall j :: 0 <= j < |air| && Key(wire, air[j].at, session, sequence) ==>
          !air[j].done && !(onAir && j == |air| - 1))
  }

  /** The modem has said `f`, or has it ready. */
  ghost predicate Says(fw: F.Fw, emitted: seq<Frame>, f: Frame) { Holds(fw, f) || f in emitted }

  predicate OnAir(fw: F.Fw) { fw.rs == F.Transmitting }

  /** What a frame from the modem means for the transmissions; errors mean something only while undisturbed. */
  ghost predicate Means(wire: seq<Frame>, at: int, air: seq<Tx>, onAir: bool, disturbed: bool, f: Frame) {
    && (f.typ == RADIO_TX_RESULT ==> |f.payload| == 12 && Done(wire, air, f.first, f.second))
    && (f.typ == ERROR && !disturbed ==> Dead(wire, at, air, onAir, f.first, f.second))
  }

  ghost predicate Reported(x: System) {
    forall f: Frame :: Says(x.fw, x.emitted, f) ==> Means(x.host.wire, x.at, x.air, OnAir(x.fw), x.disturbed, f)
  }

  /** What a step may do to the log without unsaying anything. */
  ghost predicate Later(x: System, y: System) {
    && x.host.wire <= y.host.wire && Ordered(y.host.wire) && x.at <= y.at && y.at < |y.host.wire|
    && (x.disturbed ==> y.disturbed)
    && |x.air| <= |y.air| <= |x.air| + 1
    && (forall j :: 0 <= j < |x.air| ==>
          && x.air[j].at == y.air[j].at && x.air[j].at <= x.at
          && (x.air[j].done ==> y.air[j].done)
          && (y.air[j].done ==> x.air[j].done || (OnAir(x.fw) && j == |x.air| - 1)))
    && (|x.air| < |y.air| ==> !y.air[|x.air|].done && y.air[|x.air|].at == y.at && (!y.disturbed ==> x.at < y.at))
    && (OnAir(y.fw) ==> OnAir(x.fw) || |x.air| < |y.air|)
  }

  lemma DoneLater(x: System, y: System, session: u32, sequence: u32)
    requires Done(x.host.wire, x.air, session, sequence) && Later(x, y)
    ensures Done(y.host.wire, y.air, session, sequence)
  {
    var j :| 0 <= j < |x.air| && x.air[j].done && Key(x.host.wire, x.air[j].at, session, sequence);
    assert y.air[j].done && Key(y.host.wire, y.air[j].at, session, sequence);
  }

  lemma DeadLater(x: System, y: System, session: u32, sequence: u32)
    requires Dead(x.host.wire, x.at, x.air, OnAir(x.fw), session, sequence) && Later(x, y)
    requires !y.disturbed && x.at < |x.host.wire|
    ensures Dead(y.host.wire, y.at, y.air, OnAir(y.fw), session, sequence)
  {
    var k :| 0 <= k <= x.at && Key(x.host.wire, k, session, sequence);
    assert Key(y.host.wire, k, session, sequence);
    forall j | 0 <= j < |y.air| && Key(y.host.wire, y.air[j].at, session, sequence)
      ensures !y.air[j].done && !(OnAir(y.fw) && j == |y.air| - 1)
    {
      KeyUnique(y.host.wire, k, y.air[j].at, session, sequence);
      if j < |x.air| { assert Key(x.host.wire, x.air[j].at, session, sequence); }
    }
  }

  /** Two frames with one key are one frame. */
  lemma KeyUnique(wire: seq<Frame>, a: nat, b: nat, session: u32, sequence: u32)
    requires Ordered(wire) && Key(wire, a, session, sequence) && Key(wire, b, session, sequence)
    ensures a == b
  {}

  lemma MeansLater(x: System, y: System, f: Frame)
    requires Means(x.host.wire, x.at, x.air, OnAir(x.fw), x.disturbed, f) && Later(x, y) && x.at < |x.host.wire|
    ensures Means(y.host.wire, y.at, y.air, OnAir(y.fw), y.disturbed, f)
  {
    hide Done, Dead;
    if f.typ == RADIO_TX_RESULT { DoneLater(x, y, f.first, f.second); }
    if f.typ == ERROR && !y.disturbed { DeadLater(x, y, f.first, f.second); }
  }

  /** Enough to look at what the step makes the modem say anew. */
  lemma ReportedLater(x: System, y: System)
    requires Reported(x) && Later(x, y) && x.at < |x.host.wire|
    requires forall f: Frame :: Says(y.fw, y.emitted, f) ==>
               Says(x.fw, x.emitted, f) || Means(y.host.wire, y.at, y.air, OnAir(y.fw), y.disturbed, f)
    ensures Reported(y)
  {
    hide Means, Later, Says;
    forall f: Frame | Says(y.fw, y.emitted, f)
      ensures Means(y.host.wire, y.at, y.air, OnAir(y.fw), y.disturbed, f)
    {
      if Says(x.fw, x.emitted, f) { MeansLater(x, y, f); }
    }
  }

  lemma DeliveredLater(x: System, k: nat, e: F.Env)
    requires Ordered(x.host.wire) && ModemInv(x.host.wire, x.at, x.fw, x.air)
    requires x.at <= k < |x.host.wire|
    ensures Later(x, Step(x, Deliver(k, e)))
  {
    hide F.Inv, F.Handle, F.Starts, Ordered, AirState, AirLog, Later;
    var y := Step(x, Deliver(k, e));
    var m := x.host.wire[k];
    assert OnAir(F.Handle(x.fw, m, e)) && !F.Starts(x.fw, m, e) ==> OnAir(x.fw) by {
      hide F.Inv, F.Handle, F.Starts;
      F.HandleAir(x.fw, m, e);
    }
    LogPlaces(x.host.wire, x.at, x.air);
    if F.Starts(x.fw, x.host.wire[k], e) {
      assert k == x.at ==> y.disturbed;
      LaterAdds(x, y, Tx(k, y.fw.txPacket, false));
    } else {
      LaterSame(x, y);
    }
  }

  lemma LogPlaces(wire: seq<Frame>, at: int, air: seq<Tx>)
    requires AirLog(wire, at, air)
    ensures forall j :: 0 <= j < |air| ==> air[j].at <= at
  {
    hide Carries;
  }

  lemma LaterAdds(x: System, y: System, tx: Tx)
    requires y.host.wire == x.host.wire && Ordered(y.host.wire) && x.at <= y.at < |y.host.wire|
    requires (x.disturbed || y.at == x.at ==> y.disturbed) && y.air == x.air + [tx] && tx.at == y.at && !tx.done
    requires forall j :: 0 <= j < |x.air| ==> x.air[j].at <= x.at
    ensures Later(x, y)
  {
    hide Ordered, OnAir;
  }

  lemma LaterSame(x: System, y: System)
    requires y.host.wire == x.host.wire && Ordered(y.host.wire) && x.at <= y.at < |y.host.wire|
    requires (x.disturbed ==> y.disturbed) && y.air == x.air && (OnAir(y.fw) ==> OnAir(x.fw))
    requires forall j :: 0 <= j < |x.air| ==> x.air[j].at <= x.at
    ensures Later(x, y)
  {
    hide Ordered, OnAir;
  }

  /** An answer the modem did not have to a frame that started nothing, then or before. */
  lemma AnsweredDead(x: System, k: nat, e: F.Env, f: Frame, onAir: bool)
    requires Ordered(x.host.wire) && F.Inv(x.fw) && AirLog(x.host.wire, x.at, x.air) && x.at <= k < |x.host.wire|
    requires Replies(x.host.wire[k], f) && !Disturbs(x, k, e) && !Holds(x.fw, f)
    requires Holds(F.Handle(x.fw, x.host.wire[k], e), f)
    ensures Dead(x.host.wire, k, x.air, onAir, f.first, f.second)
  {
    hide Carries, F.Inv, F.Handle, Holds, F.Starts;
    var wire := x.host.wire;
    assert Key(wire, k, f.first, f.second);
    if x.fw.haveLast && x.fw.lastReq == Some(wire[k]) { RetryHolds(x.fw, wire[k], e, f); }
    forall j | 0 <= j < |x.air|
      ensures !Key(wire, x.air[j].at, f.first, f.second)
    {
      if Key(wire, x.air[j].at, f.first, f.second) { KeyUnique(wire, x.air[j].at, k, f.first, f.second); }
    }
  }

  /** A retry with its answer at hand says nothing new. */
  lemma RetryHolds(s: F.Fw, m: Frame, e: F.Env, f: Frame)
    requires F.Inv(s) && s.haveLast && s.lastReq == Some(m) && Holds(F.Handle(s, m, e), f)
    ensures Holds(s, f)
  {
    assert s.lastResp.Some?;
    hide F.Inv, F.Handle, Ring.Put, InQueue;
    F.RetryIsIdempotent(s, m, e);
    if InQueue(F.Handle(s, m, e).queue, f) { PutHolds(s.queue, Ring.Entry(s.lastResp.value, false), f); }
  }

  lemma DeliveredReports(x: System, k: nat, e: F.Env)
    requires Ordered(x.host.wire) && ModemInv(x.host.wire, x.at, x.fw, x.air) && Reported(x)
    requires x.at <= k < |x.host.wire|
    ensures var y := Step(x, Deliver(k, e)); Reported(y) && Later(x, y)
  {
    hide Holds, Reported, Ordered, Later, Dead, Done, F.Inv, F.Handle, F.Starts, AirState, AirLog;
    var y := Step(x, Deliver(k, e));
    DeliveredLater(x, k, e);
    forall f: Frame | Says(y.fw, y.emitted, f) && !Says(x.fw, x.emitted, f)
      ensures Means(y.host.wire, y.at, y.air, OnAir(y.fw), y.disturbed, f)
    {
      HandleHolds(x.fw, x.host.wire[k], e, f);
      if !y.disturbed { AnsweredDead(x, k, e, f, OnAir(y.fw)); }
    }
    ReportedLater(x, y);
  }

  /** The transmission on the air ends: its key is done, or dead. */
  lemma EndedMeans(x: System, y: System, finished: bool, f: Frame)
    requires Ordered(x.host.wire) && AirLog(x.host.wire, x.at, x.air) && AirState(x.host.wire, x.fw, x.air)
    requires y.host.wire == x.host.wire && y.at == x.at && y.disturbed == x.disturbed && !OnAir(y.fw)
    requires y.air == if finished then Complete(x.air) else x.air
    requires Ends(x.fw, finished, f)
    ensures Means(y.host.wire, y.at, y.air, OnAir(y.fw), y.disturbed, f)
  {
    hide Carries, UpTo, Ordered;
    var wire, j := x.host.wire, |x.air| - 1;
    assert Key(wire, x.air[j].at, f.first, f.second);
    if finished {
      assert y.air[j].done && Key(wire, y.air[j].at, f.first, f.second);
    } else {
      forall i | 0 <= i < |x.air| && Key(wire, x.air[i].at, f.first, f.second)
        ensures i == j
      {
        KeyUnique(wire, x.air[i].at, x.air[j].at, f.first, f.second);
      }
    }
  }

  lemma RadioReports(x: System, i: F.RadioIn)
    requires Ordered(x.host.wire) && ModemInv(x.host.wire, x.at, x.fw, x.air) && Reported(x) && x.at < |x.host.wire|
    ensures var y := Step(x, Radio(i)); Reported(y) && Later(x, y)
  {
    hide Holds, Reported, Ordered, Means, F.Inv, F.RadioTask, AirState, Carries, UpTo;
    var y := Step(x, Radio(i));
    RadioCalm(x.fw, i);
    assert Later(x, y);
    hide AirLog, Later;
    forall f: Frame | Says(y.fw, y.emitted, f) && !Says(x.fw, x.emitted, f)
      ensures Means(y.host.wire, y.at, y.air, OnAir(y.fw), y.disturbed, f)
    {
      RadioTaskHolds(x.fw, i, f);
      if f.typ == RADIO_RX {
        EventMeans(y, f);
      } else {
        assert x.fw.ready;
        EndedMeans(x, y, i.finished, f);
      }
    }
    ReportedLater(x, y);
  }

  lemma EventMeans(y: System, f: Frame)
    requires f.typ == RADIO_RX
    ensures Means(y.host.wire, y.at, y.air, OnAir(y.fw), y.disturbed, f)
  {}

  lemma WatchdogReports(x: System, m: u32, l: bool)
    requires Ordered(x.host.wire) && ModemInv(x.host.wire, x.at, x.fw, x.air) && Reported(x) && x.at < |x.host.wire|
    ensures var y := Step(x, Watchdog(m, l)); Reported(y) && Later(x, y)
  {
    hide Holds, Reported, Ordered, Means, F.Inv, F.TxWatchdog, AirState, Carries;
    var y := Step(x, Watchdog(m, l));
    WatchdogCalm(x.fw, m, l);
    assert Later(x, y);
    hide AirLog, Later;
    forall f: Frame | Says(y.fw, y.emitted, f) && !Says(x.fw, x.emitted, f)
      ensures Means(y.host.wire, y.at, y.air, OnAir(y.fw), y.disturbed, f)
    {
      TxWatchdogHolds(x.fw, m, l, f);
      EndedMeans(x, y, false, f);
    }
    ReportedLater(x, y);
  }

  /** Flushing only moves what is said; a restart and an interrupt say nothing. */
  lemma QuietReports(x: System, a: Action)
    requires Ordered(x.host.wire) && AirLog(x.host.wire, x.at, x.air) && Reported(x) && x.at < |x.host.wire|
    requires a.Flush? || a.Interrupt? || a.Reboot?
    ensures var y := Step(x, a); Reported(y) && Later(x, y)
  {
    hide Holds, Reported, Ordered, Means, F.Flush, Carries;
    var y := Step(x, a);
    if a.Flush? { FlushCalm(x.fw, a.room, a.whole); }
    assert Later(x, y);
    hide AirLog, Later;
    forall f: Frame | Says(y.fw, y.emitted, f)
      ensures Says(x.fw, x.emitted, f)
    {
      match a
      case Flush(r, w) => if f !in x.emitted { FlushHolds(x.fw, r, w, f); }
      case Reboot(b, n, r, l) => BootHolds(b, n, r, l, f);
      case _ => SameHolds(x.fw, y.fw, f);
    }
    ReportedLater(x, y);
  }

  lemma BootHolds(b: u32, n: u32, r: bool, l: bool, f: Frame)
    ensures !Holds(F.Boot(b, n, r, l), f)
  {}

  // ---- the host's side ---------------------------------------------------------------------

  /** Every accepted send put its frame on the wire, each at a place of its own. */
  ghost predicate SendLog(wire: seq<Frame>, sends: seq<Send>) {
    && (forall i :: 0 <= i < |sends| ==>
          && sends[i].at < |wire|
          && wire[sends[i].at] == Sealed(RADIO_SEND, sends[i].session, sends[i].sequence, sends[i].payload))
    && (forall i, j :: 0 <= i < j < |sends| ==> sends[i].at < sends[j].at)
  }

  function SendKeys(sends: seq<Send>): (r: seq<(u32, u32)>)
    ensures |r| == |sends|
  {
    seq(|sends|, i requires 0 <= i < |sends| => (sends[i].session, sends[i].sequence))
  }

  function SettledKeys(settled: seq<Settled>): (r: seq<(u32, u32)>)
    ensures |r| == |settled|
  {
    seq(|settled|, i requires 0 <= i < |settled| => (settled[i].session, settled[i].sequence))
  }

  function PendingKey(h: Host): seq<(u32, u32)> {
    if Awaits(h, h.sequence, RADIO_SEND) then [(h.session, h.sequence)] else []
  }

  /** Accepted sends and their outcomes match one to one, in order, but for the send still outstanding. */
  ghost predicate Accounts(sends: seq<Send>, settled: seq<Settled>, h: Host) {
    SendKeys(sends) == SettledKeys(settled) + PendingKey(h)
  }

  /** What an outcome claims: a completed transmission, or none and none to come. */
  ghost predicate Claims(x: System, o: Settled) {
    && (o.outcome == Completed ==> Done(x.host.wire, x.air, o.session, o.sequence))
    && (o.outcome == Failed && !x.disturbed ==> Dead(x.host.wire, x.at, x.air, OnAir(x.fw), o.session, o.sequence))
  }

  ghost predicate Truthful(x: System) { forall o <- x.settled :: Claims(x, o) }

  lemma ClaimsLater(x: System, y: System, o: Settled)
    requires Claims(x, o) && Later(x, y) && x.at < |x.host.wire|
    ensures Claims(y, o)
  {
    hide Done, Dead;
    if o.outcome == Completed { DoneLater(x, y, o.session, o.sequence); }
    if o.outcome == Failed && !y.disturbed { DeadLater(x, y, o.session, o.sequence); }
  }

  lemma TruthfulLater(x: System, y: System)
    requires Truthful(x) && Later(x, y) && x.at < |x.host.wire|
    requires forall o <- y.settled :: o in x.settled || Claims(y, o)
    ensures Truthful(y)
  {
    hide Claims, Later;
    forall o <- y.settled
      ensures Claims(y, o)
    {
      if o in x.settled { ClaimsLater(x, y, o); }
    }
  }

  /** One settlement moves one key from outstanding to settled. */
  lemma AccountsSettle(sends: seq<Send>, settled: seq<Settled>, h: Host, t: Host)
    requires Accounts(sends, settled, h) && Settles(h, t)
    ensures Accounts(sends, settled + Tag(h.session, News(h, t)), t)
  {
    var news := t.outcomes[|h.outcomes|..];
    assert |Sequences(news)| == |news| && (|news| == 1 ==> Sequences(news) == [news[0].0]);
    var tagged := Tag(h.session, news);
    if |news| == 0 {
      Seqs.Units(settled);
      assert |tagged| == 0 && settled + tagged == settled;
      assert PendingSend(t) == PendingSend(h);
    } else {
      assert |Sequences(news) + PendingSend(t)| == |news| + |PendingSend(t)|;
      assert |news| == 1 && |PendingSend(t)| == 0 && Sequences(news)[0] == (Sequences(news) + PendingSend(t))[0];
      assert SettledKeys(settled + tagged) == SettledKeys(settled) + PendingKey(h);
      Seqs.Units(SettledKeys(settled + tagged));
    }
  }

  lemma AccountsSend(sends: seq<Send>, settled: seq<Settled>, h: Host, t: Host, payload: bytes, at: nat)
    requires Accounts(sends, settled, h)
    requires !Awaits(h, h.sequence, RADIO_SEND) && Awaits(t, t.sequence, RADIO_SEND) && t.outcomes == h.outcomes
    ensures Accounts(sends + [Send(t.session, t.sequence, payload, at)], settled + Tag(h.session, News(h, t)), t)
  {
    Seqs.Units(settled);
    assert settled + Tag(h.session, News(h, t)) == settled;
    Seqs.Units(SettledKeys(settled));
    var s := Send(t.session, t.sequence, payload, at);
    assert SendKeys(sends + [s]) == SendKeys(sends) + [(s.session, s.sequence)];
  }

  /** Every host step but an accepted send settles at most the outstanding send. */
  lemma HostSettles(h: Host, a: Action)
    requires Inv(h) && Draws(a) && !a.HostTake? && !AcceptsSend(h, a)
    ensures Inv(HostAfter(h, a)) && Settles(h, HostAfter(h, a))
  {
    hide OpenPort, OnFrame, Expire, Poll, Disconnect, SendAir, Settles;
    match a
    case HostOpen(now, o) => OpenProps(h, now, o, RECONNECT);
    case HostFrame(f, w) => OnFrameProps(h, f, w, RECONNECT);
    case HostExpire(now, w) => ExpireProps(h, now, w, RECONNECT);
    case HostPoll(idle, now, w) => PollProps(h, idle, now, w, RECONNECT);
    case HostDrop(now) => DisconnectProps(h, now, RECONNECT);
    case HostSend(p, w) => SendAirProps(h, p, w, RECONNECT);
    case HostTake =>
    case HostCollect =>
      assert (var t := h.(received := []); Inv(t) && Settles(h, t)) by {
        SettlesNone(h, h.(received := []));
      }
    case _ => SettlesSelf(h);
  }

  // ---- only the modem settles a send for certain ------------------------------------------------

  /** Outcomes are only added, and all that are added are uncertain. */
  ghost predicate Unsure(h: Host, t: Host) {
    && h.outcomes <= t.outcomes
    && forall i :: |h.outcomes| <= i < |t.outcomes| ==> t.outcomes[i].1 == Uncertain
  }

  lemma {:induction false} SettleTag(pending: Dict<u32, Request>, order: seq<u32>, o: Outcome)
    ensures forall i :: 0 <= i < |Settle(pending, order, o)| ==> Settle(pending, order, o)[i].1 == o
    decreases |order|
  {
    if order != [] { SettleTag(pending, order[1..], o); }
  }

  lemma DisconnectUnsure(h: Host, now: int)
    ensures Unsure(h, Disconnect(h, now, RECONNECT))
  {
    SettleTag(h.pending, h.pending.order, Uncertain);
  }

  lemma IssueUnsure(h: Host, typ: byte, payload: bytes, w: Write)
    ensures Unsure(h, Issue(h, typ, payload, w, RECONNECT).0)
  {
    hide Disconnect;
    if h.sequence < U32_MAX {
      var f := Sealed(typ, h.session, h.sequence + 1, payload);
      DisconnectUnsure(h.(sequence := h.sequence + 1, wire := h.wire + [f]), w.now);
    }
  }

  lemma OpenUnsure(h: Host, now: int, o: Opening)
    ensures Unsure(h, OpenPort(h, now, o, RECONNECT))
  {
    hide Issue, Disconnect;
    DisconnectUnsure(h, now);
    var mid := BeginFresh(h.(connected := true, pending := Dict([], map[])), o.w.draw);
    DisconnectUnsure(mid, o.w.now);
    IssueUnsure(mid, HELLO, [], o.w);
  }

  lemma ExpireUnsure(h: Host, now: int, w: Write)
    requires Inv(h) && w.draw != 0
    ensures Unsure(h, Expire(h, now, w, RECONNECT))
  {
    hide Restart, TrimTombs, ExpireTombs;
    var g := h.(tombs := ExpireTombs(h.tombs, now));
    if h.pending.order != [] {
      var s := h.sequence;
      assert h.pending.order == [s];
      TimeoutsOne(g, s, now, w, RECONNECT);
      DelOnly(g, s);
      hide Timeouts;
      RestartOutcomes(g.(pending := g.pending.Del(s)), w, RECONNECT);
    }
  }

  lemma HostUnsure(h: Host, a: Action)
    requires Inv(h) && Draws(a) && !a.HostTake? && !a.HostFrame?
    ensures Unsure(h, HostAfter(h, a))
  {
    hide OpenPort, Expire, Poll, Disconnect, SendAir, Settles, Inv;
    match a
    case HostOpen(now, o) => OpenUnsure(h, now, o);
    case HostExpire(now, w) => ExpireUnsure(h, now, w);
    case HostPoll(idle, now, w) => PollProps(h, idle, now, w, RECONNECT);
    case HostDrop(now) => DisconnectUnsure(h, now);
    case HostSend(p, w) => SendAirProps(h, p, w, RECONNECT);
    case _ =>
  }

  /** Outcome `o` is what frame `f` says about its own send. */
  predicate Settling(f: Frame, o: Outcome) {
    || (f.typ == RADIO_TX_RESULT && o == if |f.payload| == 12 then Completed else Failed)
    || (f.typ == ERROR && o == Failed)
  }

  /** A frame settles at most the send it names, and only if it is a result or an error. */
  lemma FrameSettles(h: Host, f: Frame, w: Write)
    requires Inv(h) && w.draw != 0
    ensures var t := OnFrame(h, f, w, RECONNECT);
      t.outcomes == h.outcomes ||
      (f.first == h.session && exists o :: t.outcomes == h.outcomes + [(f.second, o)] && Settling(f, o))
  {
    hide OnError, OnInfo, ParseRadioRx;
    var t := OnFrame(h, f, w, RECONNECT);
    if f.first == h.session && f.typ == ERROR {
      ErrorSettles(h, f, w);
    } else if f.first == h.session && f.typ == INFO {
      OnInfoProps(h, f, w, RECONNECT);
    } else if t.outcomes != h.outcomes {
      assert Settling(f, if |f.payload| == 12 then Completed else Failed);
    }
  }

  lemma ErrorSettles(h: Host, f: Frame, w: Write)
    requires Inv(h) && w.draw != 0 && f.typ == ERROR && f.first == h.session
    ensures var t := OnError(h, f, w, RECONNECT);
      t.outcomes == h.outcomes || t.outcomes == h.outcomes + [(f.second, Failed)]
  {
    hide Restart;
    if f.second in h.pending.vals {
      DelOnly(h, f.second);
      var typ := h.pending.vals[f.second].typ;
      var mid := h.(pending := h.pending.Del(f.second),
                    outcomes := h.outcomes + if typ == RADIO_SEND then [(f.second, Failed)] else []);
      RestartOutcomes(mid, w, RECONNECT);
      Seqs.Units(h.outcomes);
    }
  }

  /** Only what the modem says completes or fails a send, so what is claimed is so. */
  lemma TruthfulStep(x: System, a: Action)
    requires Inv(x.host) && Enabled(x, a) && !OfModem(a) && !a.HostTake?
    requires Reported(x) && Truthful(x) && x.at < |x.host.wire|
    requires Later(x, HostStep(x, a))
    ensures Truthful(HostStep(x, a))
  {
    hide HostAfter, Done, Dead, Holds, Later, Inv, Means;
    var h, t := x.host, HostAfter(x.host, a);
    var y := HostStep(x, a);
    Added(h, t);
    forall o <- y.settled | o !in x.settled
      ensures Claims(y, o)
    {
      var n :| 0 <= n < |News(h, t)| && o == Settled(h.session, News(h, t)[n].0, News(h, t)[n].1);
      assert News(h, t)[n] == t.outcomes[|h.outcomes| + n];
      NewOutcome(h, a, |h.outcomes| + n);
      if o.outcome != Uncertain {
        assert Says(x.fw, x.emitted, a.f);
        MeansClaims(x, a.f, o);
        ClaimsLater(x, y, o);
      }
    }
    TruthfulLater(x, y);
  }

  lemma Added(h: Host, t: Host)
    ensures forall o <- Tag(h.session, News(h, t)) ::
      exists n :: 0 <= n < |News(h, t)| && o == Settled(h.session, News(h, t)[n].0, News(h, t)[n].1)
  {
    var g := Tag(h.session, News(h, t));
    forall o <- g
      ensures exists n :: 0 <= n < |News(h, t)| && o == Settled(h.session, News(h, t)[n].0, News(h, t)[n].1)
    {
      var n :| 0 <= n < |g| && g[n] == o;
      assert o == Settled(h.session, News(h, t)[n].0, News(h, t)[n].1);
    }
  }

  lemma MeansClaims(x: System, f: Frame, o: Settled)
    requires Means(x.host.wire, x.at, x.air, OnAir(x.fw), x.disturbed, f) && Settling(f, o.outcome)
    requires o.session == f.first && o.sequence == f.second
    ensures Claims(x, o)
  {
    hide Done, Dead;
  }

  /** A certain outcome comes from a frame that says so. */
  lemma NewOutcome(h: Host, a: Action, i: nat)
    requires Inv(h) && Draws(a) && !a.HostTake? && |h.outcomes| <= i < |HostAfter(h, a).outcomes|
    ensures var o := HostAfter(h, a).outcomes[i];
      o.1 != Uncertain ==> a.HostFrame? && Settling(a.f, o.1) && a.f.first == h.session && a.f.second == o.0
  {
    hide OnFrame, Inv, Settling;
    if a.HostFrame? {
      FrameSettles(h, a.f, a.w);
      var t := OnFrame(h, a.f, a.w, RECONNECT);
      var o :| t.outcomes == h.outcomes + [(a.f.second, o)] && Settling(a.f, o);
    } else {
      HostUnsure(h, a);
      hide HostAfter;
    }
  }

  // ---- one step of the whole -----------------------------------------------------------------

  ghost predicate SysInv(x: System) {
    && Inv(x.host) && WireInv(x.host, x.sessions) && x.at < |x.host.wire|
    && ModemInv(x.host.wire, x.at, x.fw, x.air)
    && Reported(x) && Truthful(x)
    && SendLog(x.host.wire, x.sends) && Accounts(x.sends, x.settled, x.host)
  }

  predicate OfModem(a: Action) {
    a.Deliver? || a.Interrupt? || a.Radio? || a.Watchdog? || a.Flush? || a.Reboot?
  }

  lemma BeginInv(session: u32, boot: u32, airNext: u32, ready: bool, listening: bool)
    requires session != 0
    ensures SysInv(Begin(session, boot, airNext, ready, listening))
  {
    F.BootInv(boot, airNext, ready, listening);
  }

  /** A longer wire changes nothing for the modem. */
  lemma WireGrows(wire: seq<Frame>, wire': seq<Frame>, at: int, fw: F.Fw, air: seq<Tx>)
    requires ModemInv(wire, at, fw, air) && wire <= wire'
    ensures ModemInv(wire', at, fw, air)
  {
    hide F.Inv, Carries;
  }

  lemma ModemKept(x: System, a: Action)
    requires WireInv(x.host, x.sessions) && ModemInv(x.host.wire, x.at, x.fw, x.air) && Enabled(x, a) && OfModem(a)
    ensures var y := Step(x, a); ModemInv(y.host.wire, y.at, y.fw, y.air)
  {
    hide F.Inv, F.Handle, F.RadioTask, F.TxWatchdog, F.Flush, F.Boot, F.Starts, Calm, AirLog, AirState, Ordered,
         Complete;
    var wire := x.host.wire;
    match a
    case Deliver(k, e) => Delivered(wire, x.at, x.fw, x.air, k, e);
    case Interrupt => F.InterruptInv(x.fw); InterruptState(wire, x.fw, x.air);
    case Radio(i) =>
      F.RadioTaskInv(x.fw, i);
      RadioCalm(x.fw, i);
      CompleteLog(wire, x.at, x.air);
      if Finishes(x.fw, i) {
        CompleteState(wire, x.fw, F.RadioTask(x.fw, i), x.air);
      } else {
        CalmState(wire, x.fw, F.RadioTask(x.fw, i), x.air);
      }
    case Watchdog(m, l) =>
      F.TxWatchdogInv(x.fw, m, l);
      WatchdogCalm(x.fw, m, l);
      CalmState(wire, x.fw, F.TxWatchdog(x.fw, m, l), x.air);
    case Flush(r, w) =>
      F.FlushInv(x.fw, r, w);
      FlushCalm(x.fw, r, w);
      CalmState(wire, x.fw, F.Flush(x.fw, r, w).0, x.air);
    case Reboot(b, n, r, l) =>
      F.BootInv(b, n, r, l);
      BootState(wire, b, n, r, l, x.air);
    case _ =>
  }

  lemma InterruptState(wire: seq<Frame>, s: F.Fw, air: seq<Tx>)
    requires AirState(wire, s, air)
    ensures AirState(wire, s.(irq := true), air)
  {}

  lemma BootState(wire: seq<Frame>, b: u32, n: u32, r: bool, l: bool, air: seq<Tx>)
    ensures AirState(wire, F.Boot(b, n, r, l), air)
  {}

  lemma ModemReports(x: System, a: Action)
    requires Ordered(x.host.wire) && ModemInv(x.host.wire, x.at, x.fw, x.air) && Reported(x) && x.at < |x.host.wire|
    requires Enabled(x, a) && OfModem(a)
    ensures Reported(Step(x, a)) && Later(x, Step(x, a))
  {
    hide Ordered, Reported, Later, AirState, Step, F.Inv, HostAfter;
    match a
    case Deliver(k, e) => DeliveredReports(x, k, e);
    case Radio(i) => RadioReports(x, i);
    case Watchdog(m, l) => WatchdogReports(x, m, l);
    case _ => QuietReports(x, a);
  }

  lemma ModemStep(x: System, a: Action)
    requires SysInv(x) && Enabled(x, a) && OfModem(a)
    ensures SysInv(Step(x, a))
  {
    hide Inv, ModemInv, Reported, SendLog, Accounts, Truthful, F.Handle, F.RadioTask, F.TxWatchdog, F.Flush, F.Boot,
      F.Starts, Finishes, Ordered, HostAfter;
    ModemKept(x, a);
    ModemReports(x, a);
    TruthfulLater(x, Step(x, a));
  }

  /** The host's accounts survive every one of its steps. */
  lemma HostAccounts(x: System, a: Action)
    requires Inv(x.host) && Draws(a) && Accounts(x.sends, x.settled, x.host) && SendLog(x.host.wire, x.sends)
    requires Extends(x.host, HostAfter(x.host, a))
    ensures var y := HostStep(x, a);
      Inv(y.host) && Accounts(y.sends, y.settled, y.host) && SendLog(y.host.wire, y.sends)
  {
    hide OpenPort, OnFrame, Expire, Poll, Disconnect, SendAir, Settles, Inv;
    var h, t := x.host, HostAfter(x.host, a);
    assert SendLog(t.wire, x.sends);
    if a.HostTake? {
      TakeKeeps(h);
      Seqs.Units(x.settled);
      assert x.settled + Tag(h.session, News(h, t)) == x.settled;
    } else if AcceptsSend(h, a) {
      SendAirProps(h, a.payload, a.w, RECONNECT);
      SendExtends(h, a.payload, a.w);
      assert |PendingSend(h)| == 0 && |PendingSend(t)| == 1;
      AccountsSend(x.sends, x.settled, h, t, a.payload, |h.wire|);
    } else {
      HostSettles(h, a);
      AccountsSettle(x.sends, x.settled, h, t);
    }
  }

  lemma TakeKeeps(h: Host)
    requires Inv(h)
    ensures var t := TakeOutcomes(h); Inv(t) && PendingKey(t) == PendingKey(h) && |News(h, t)| == 0
  {}

  lemma HostLater(x: System, a: Action)
    requires SysInv(x) && Enabled(x, a) && !OfModem(a)
    requires Ordered(HostStep(x, a).host.wire) && x.host.wire <= HostStep(x, a).host.wire
    ensures Later(x, HostStep(x, a))
  {
    hide Inv, WireInv, AirState, F.Inv, Carries, Reported, SendLog, Accounts, Truthful, HostAfter, Enabled, Ordered;
  }

  lemma HostMove(x: System, a: Action)
    requires SysInv(x) && Enabled(x, a) && !OfModem(a)
    ensures SysInv(Step(x, a))
  {
    hide Inv, ModemInv, Reported, SendLog, Accounts, Truthful, HostAfter, Extends, Ordered, Later;
    var y := HostStep(x, a);
    HostExtends(x.host, a);
    HostAccounts(x, a);
    Alive(y.host);
    WireKept(x.host, y.host, x.sessions);
    Prefix(x.host, y.host);
    HostLater(x, a);
    if a.HostTake? { TakeNews(x); TruthfulLater(x, y); } else { TruthfulStep(x, a); }
    WireGrows(x.host.wire, y.host.wire, x.at, x.fw, x.air);
    ReportedLater(x, y);
  }

  lemma TakeNews(x: System)
    requires Inv(x.host)
    ensures HostStep(x, HostTake).settled == x.settled
  {
    TakeKeeps(x.host);
    Seqs.Units(x.settled);
  }

  lemma Alive(h: Host)
    requires Inv(h)
    ensures h.session != 0
  {}

  lemma Prefix(h: Host, t: Host)
    requires Extends(h, t)
    ensures h.wire <= t.wire
  {}

  // ---- every run -------------------------------------------------------------------------------

  function Steps(x: System, run: seq<Action>): System
    decreases |run|
  {
    if run == [] then x else Steps(Step(x, run[0]), run[1..])
  }

  ghost predicate Possible(x: System, run: seq<Action>)
    decreases |run|
  {
    run == [] || (Enabled(x, run[0]) && Possible(Step(x, run[0]), run[1..]))
  }

  lemma {:induction false} StepsInv(x: System, run: seq<Action>)
    requires SysInv(x) && Possible(x, run)
    ensures SysInv(Steps(x, run))
    decreases |run|
  {
    hide SysInv, Enabled, F.Handle, F.RadioTask, F.TxWatchdog, F.Flush, F.Boot, F.Starts, HostAfter;
    if run != [] {
      if OfModem(run[0]) { ModemStep(x, run[0]); } else { HostMove(x, run[0]); }
      StepsInv(Step(x, run[0]), run[1..]);
    }
  }

  /** Transmission `j` is that of the send. */
  predicate Transmits(x: System, j: int, s: Send) {
    0 <= j < |x.air| && Key(x.host.wire, x.air[j].at, s.session, s.sequence)
  }

  /** Accepted sends are distinct, and have one outcome each, in order, but for the one outstanding. */
  ghost predicate SettledOnce(x: System) {
    && SendKeys(x.sends) == SettledKeys(x.settled) + PendingKey(x.host)
    && forall i, j :: 0 <= i < j < |x.sends| ==> SendKeys(x.sends)[i] != SendKeys(x.sends)[j]
  }

  /** Whatever its outcome, a send is transmitted at most once. */
  ghost predicate TransmittedOnce(x: System) {
    forall s, j, k :: s in x.sends && Transmits(x, j, s) && Transmits(x, k, s) ==> j == k
  }

  /** What is transmitted for a send is its payload. */
  ghost predicate TransmittedWhole(x: System) {
    forall s, j :: s in x.sends && Transmits(x, j, s) ==> Carries(x.air[j].packet, s.payload)
  }

  /** `Completed` means the send's transmission took place and was completed. */
  ghost predicate CompletedTruly(x: System) {
    |x.settled| <= |x.sends|
    && forall i :: 0 <= i < |x.settled| && x.settled[i].outcome == Completed ==>
         exists j :: Transmits(x, j, x.sends[i]) && x.air[j].done
  }

  /** If transmission `j` is the send's, it was not completed and is not running. */
  predicate Unfinished(x: System, j: int, s: Send) {
    Transmits(x, j, s) ==> !x.air[j].done && !(OnAir(x.fw) && j == |x.air| - 1)
  }

  /** `Failed` means no transmission of the send was completed, nor is one running that could be. */
  ghost predicate FailedTruly(x: System) {
    |x.settled| <= |x.sends|
    && forall i, j :: 0 <= i < |x.settled| && x.settled[i].outcome == Failed ==> Unfinished(x, j, x.sends[i])
  }

  /** The link's promise, over every possible run; a failure is certain while the modem is undisturbed. */
  lemma LinkPromise(session: u32, boot: u32, airNext: u32, ready: bool, listening: bool, run: seq<Action>)
    requires session != 0 && Possible(Begin(session, boot, airNext, ready, listening), run)
    ensures var x := Steps(Begin(session, boot, airNext, ready, listening), run);
      && SettledOnce(x) && TransmittedOnce(x) && TransmittedWhole(x) && CompletedTruly(x)
      && (!x.disturbed ==> FailedTruly(x))
  {
    hide SysInv, Possible, Steps, SettledOnce, TransmittedOnce, TransmittedWhole, CompletedTruly, FailedTruly;
    var x := Steps(Begin(session, boot, airNext, ready, listening), run);
    BeginInv(session, boot, airNext, ready, listening);
    StepsInv(Begin(session, boot, airNext, ready, listening), run);
    OnceSettled(x);
    OnceTransmitted(x);
    TrulySettled(x);
  }

  lemma OnceSettled(x: System)
    requires SysInv(x)
    ensures SettledOnce(x)
  {
    hide Inv, ModemInv, Ordered, Reported, Truthful;
    forall i, j | 0 <= i < j < |x.sends|
      ensures SendKeys(x.sends)[i] != SendKeys(x.sends)[j]
    {
      var (s, q) := SendKeys(x.sends)[i];
      if SendKeys(x.sends)[j] == (s, q) { KeyUnique(x.host.wire, x.sends[i].at, x.sends[j].at, s, q); }
    }
  }

  lemma OnceTransmitted(x: System)
    requires SysInv(x)
    ensures TransmittedOnce(x) && TransmittedWhole(x)
  {
    hide Inv, F.Inv, Ordered, Carries, Reported, AirState, Truthful;
    var wire := x.host.wire;
    forall s, j, k | s in x.sends && Transmits(x, j, s) && Transmits(x, k, s)
      ensures j == k
    {
      KeyUnique(wire, x.air[j].at, x.air[k].at, s.session, s.sequence);
    }
    forall s, j | s in x.sends && Transmits(x, j, s)
      ensures Carries(x.air[j].packet, s.payload)
    {
      KeyUnique(wire, x.air[j].at, s.at, s.session, s.sequence);
    }
  }

  lemma TrulySettled(x: System)
    requires SysInv(x)
    ensures CompletedTruly(x) && (!x.disturbed ==> FailedTruly(x))
  {
    hide Inv, WireInv, ModemInv, Reported, SendLog, Accounts, Truthful, CompletedTruly, FailedTruly;
    TrulyCompleted(x);
    if !x.disturbed { TrulyFailed(x); }
  }

  lemma TrulyCompleted(x: System)
    requires Accounts(x.sends, x.settled, x.host) && Truthful(x)
    ensures CompletedTruly(x)
  {
    hide Accounts, Truthful, Claims, Transmits;
    Matched(x);
    forall i | 0 <= i < |x.settled| && x.settled[i].outcome == Completed
      ensures exists j :: 0 <= j < |x.air| && Transmits(x, j, x.sends[i]) && x.air[j].done
    {
      DoneTransmits(x, x.sends[i], x.settled[i]);
    }
  }

  lemma TrulyFailed(x: System)
    requires Accounts(x.sends, x.settled, x.host) && Truthful(x) && !x.disturbed
    ensures FailedTruly(x)
  {
    hide Accounts, Truthful, Claims, Transmits, Unfinished;
    Matched(x);
    forall i, j | 0 <= i < |x.settled| && x.settled[i].outcome == Failed
      ensures Unfinished(x, j, x.sends[i])
    {
      DeadTransmits(x, x.sends[i], x.settled[i], j);
    }
  }

  /** Outcome number `i` is that of send number `i`. */
  lemma Matched(x: System)
    requires Accounts(x.sends, x.settled, x.host) && Truthful(x)
    ensures |x.settled| <= |x.sends|
    ensures forall i :: 0 <= i < |x.settled| ==>
      && x.settled[i].session == x.sends[i].session && x.settled[i].sequence == x.sends[i].sequence
      && Claims(x, x.settled[i])
  {
    hide Claims;
    var keys := SendKeys(x.sends);
    assert |keys| == |x.settled| + |PendingKey(x.host)|;
    forall i | 0 <= i < |x.settled|
      ensures x.settled[i].session == x.sends[i].session && x.settled[i].sequence == x.sends[i].sequence
      ensures Claims(x, x.settled[i])
    {
      assert keys[i] == SettledKeys(x.settled)[i];
      assert x.settled[i] in x.settled;
    }
  }

  lemma DoneTransmits(x: System, s: Send, o: Settled)
    requires Claims(x, o) && o.outcome == Completed && o.session == s.session && o.sequence == s.sequence
    ensures exists j :: 0 <= j < |x.air| && Transmits(x, j, s) && x.air[j].done
  {
    var j :| 0 <= j < |x.air| && x.air[j].done && Key(x.host.wire, x.air[j].at, s.session, s.sequence);
    assert Transmits(x, j, s);
  }

  lemma DeadTransmits(x: System, s: Send, o: Settled, j: int)
    requires Claims(x, o) && o.outcome == Failed && !x.disturbed && o.session == s.session && o.sequence == s.sequence
    ensures Unfinished(x, j, s)
  {}
}
