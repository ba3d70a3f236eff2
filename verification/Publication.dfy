/** A run of the whole deployment, from power-up, in which the robot publishes what the base ingested. */
module Publication {
  import opened Bytes
  import opened Wrappers
  import opened Envelope
  import opened UsbProtocol
  import opened Transport
  import opened BaseService
  import opened BaseLink
  import opened RobotLink
  import opened Airwaves
  import opened Collateral
  import A = Application
  import Crc
  import D = Deployment
  import E = EndToEnd
  import F = Firmware
  import L = Link
  import Cases = LinkCases
  import R = Reassembler
  import S = RobotService
  import Refusals = ReassemblyRefusals
  import Runs = ReassemblyRuns
  import Uplink
  import Ring
  import Rtcm

  // ---- runs, one act at a time ----------------------------------------------------------

  /** Some run leads from `w` to `v`. */
  ghost predicate Comes(w: D.World, v: D.World) { exists acts :: D.Happens(w, acts) && D.Run(w, acts) == v }

  lemma ComesSelf(w: D.World)
    ensures Comes(w, w)
  {
    assert D.Happens(w, []) && D.Run(w, []) == w;
  }

  lemma {:induction false} OneMore(w: D.World, acts: seq<D.Act>, a: D.Act)
    requires D.Happens(w, acts) && D.May(D.Run(w, acts), a)
    ensures D.Happens(w, acts + [a]) && D.Run(w, acts + [a]) == D.Do(D.Run(w, acts), a)
    decreases |acts|
  {
    hide D.Do, D.May;
    if |acts| == 0 {
      var none: seq<D.Act> := [];
      assert acts + [a] == [a] && [a][1..] == none;
      assert D.Happens(D.Do(w, a), none) && D.Run(D.Do(w, a), none) == D.Do(w, a);
    } else {
      assert (acts + [a])[0] == acts[0] && (acts + [a])[1..] == acts[1..] + [a];
      OneMore(D.Do(w, acts[0]), acts[1..], a);
    }
  }

  lemma GoesOn(w: D.World, v: D.World, a: D.Act)
    requires Comes(w, v) && D.May(v, a)
    ensures Comes(w, D.Do(v, a))
  {
    hide D.Do, D.May;
    var acts :| D.Happens(w, acts) && D.Run(w, acts) == v;
    OneMore(w, acts, a);
  }

  // ---- the modems -------------------------------------------------------------------------

  function Info(s: F.Fw, e: F.Env): bytes { F.InfoBody(s.boot, true, e) }

  predicate Bare(s: F.Fw) { s == F.Boot(s.boot, s.airNext, true, true) }

  /** A modem in session 2 that listens. */
  predicate Listens(s: F.Fw) {
    s.active && s.session == 2 && s.lastSeq == 1 && !s.pending && s.ready && s.rs == F.Recv
  }

  lemma Greeting(s: F.Fw, e: F.Env)
    requires Bare(s)
    ensures var t := F.Handle(s, Sealed(HELLO, 2, 1, []), e);
      && F.Inv(t) && Listens(t) && t.boot == s.boot
      && t.queue == [Ring.Entry(Sealed(INFO, 2, 1, Info(s, e)), false)]
      && !F.Starts(s, Sealed(HELLO, 2, 1, []), e)
  {
    hide F.InfoBody;
    F.BootInv(s.boot, s.airNext, true, true);
    F.HandleInv(s, Sealed(HELLO, 2, 1, []), e);
  }

  lemma Transmitting(s: F.Fw, p: bytes, e: F.Env)
    requires F.Inv(s) && Listens(s) && 0 < |p| <= MAX_AIR_PAYLOAD && e.started
    ensures var f := Sealed(RADIO_SEND, 2, 2, p);
      F.Starts(s, f, e) && L.Carries(F.Handle(s, f, e).txPacket, p)
  {
    hide F.Handle, L.Carries, RadioPacket;
    var f := Sealed(RADIO_SEND, 2, 2, p);
    F.HandleAir(s, f, e);
    L.PacketCarries(s.boot, F.Handle(s, f, e).txAir, p);
  }

  function Heard(i: F.RadioIn): Frame
    requires 18 <= |i.packet|
  {
    Sealed(RADIO_RX, 2, 0, RxEvent(i.packet, i.rssi, i.snr, i.millis))
  }

  lemma Hearing(s: F.Fw, i: F.RadioIn)
    requires Listens(s) && s.irq && |s.queue| == 1 && i.readable && ReceivedWell(i.packet)
    ensures 18 <= |i.packet| && Hears(s, i)
    ensures F.RadioTask(s, i).queue == s.queue + [Ring.Entry(Heard(i), true)]
  {
    hide RxEvent, ReceivedWell;
    F.WellLong(i.packet);
  }

  // ---- the base's calls are possible ---------------------------------------------------------

  /** The session never changes. */
  ghost predicate Steady(h: Host, run: seq<L.Action>)
    decreases |run|
  {
    run == [] || (L.HostAfter(h, run[0]).session == h.session && Steady(L.HostAfter(h, run[0]), run[1..]))
  }

  lemma {:induction false} SteadyAllowed(x: L.System, run: seq<L.Action>)
    requires Steady(x.host, run) && forall a <- run :: !L.OfModem(a) && (a.HostFrame? ==> a.f in x.emitted)
    ensures Allowed(x, run)
    decreases |run|
  {
    hide L.HostAfter, L.Step;
    if run != [] {
      assert run[0] in run && forall a <- run[1..] :: a in run;
      StepHost(x, run[0]);
      SteadyAllowed(L.Step(x, run[0]), run[1..]);
    }
  }

  lemma SteadyOn(h: Host, a: L.Action, t: Host, rest: seq<L.Action>)
    requires t == L.HostAfter(h, a) && t.session == h.session && Steady(t, rest)
    ensures Steady(h, [a] + rest)
  {
    hide L.HostAfter;
    assert ([a] + rest)[1..] == rest;
  }

  function Opens(): L.Action { L.HostOpen(0, Opening(true, true, At(2, 0))) }

  function Clock(idle: bool): seq<L.Action> {
    [L.HostExpire(0, At(3, 0))] + ([L.HostPoll(idle, 0, At(4, 0))] + ([L.HostCollect] + [L.HostTake]))
  }

  /** Nothing is due. */
  predicate Quiet(h: Host) { h.received == [] && h.outcomes == [] && Expire(h, 0, At(3, 0), L.RECONNECT) == h }

  lemma ClockSteady(h: Host, idle: bool, rest: seq<L.Action>)
    requires Quiet(h) && !(idle && h.handshake) && Steady(h, rest)
    ensures Steady(h, Clock(idle) + rest)
  {
    hide Expire;
    SteadyOn(h, L.HostTake, h, rest);
    SteadyOn(h, L.HostCollect, h, [L.HostTake] + rest);
    SteadyOn(h, L.HostPoll(idle, 0, At(4, 0)), h, [L.HostCollect] + ([L.HostTake] + rest));
    var behind := [L.HostPoll(idle, 0, At(4, 0))] + ([L.HostCollect] + ([L.HostTake] + rest));
    SteadyOn(h, L.HostExpire(0, At(3, 0)), h, behind);
    assert Clock(idle) + rest == [L.HostExpire(0, At(3, 0))] + behind;
  }

  lemma Named(h: Host, i: TickIn, frames: seq<(Frame, Write)>, idle: bool)
    requires i == Turn(frames, 0).(idle := idle) && OpenPort(h, 0, i.opening, L.RECONNECT).connected
    ensures TickActions(h, i) + [L.HostTake] == [Opens()] + (FrameActions(frames) + Clock(idle))
  {
    hide OpenPort, FrameActions;
  }

  lemma OpenedQuiet()
    ensures Quiet(OPENED) && OPENED.session == 2 && !OPENED.handshake && OPENED.connected
  {
    TickOpens();
  }

  lemma GreetedQuiet(id: u32)
    ensures Quiet(Greeted(id))
  {}

  /** Opening: the only new session is the one drawn. */
  lemma FirstAllowed(x: L.System, r: bytes)
    requires x.host == Start(1) && 2 !in x.sessions
    ensures Allowed(x, CallActions(Arrived(r, r), StepCall(Turn([], 0), 0, At(5, 0))))
  {
    hide L.Step, L.HostAfter, L.Steps, Allowed, Steady, Clock, Quiet, TickActions, Tick, Prepare, Refill, Handed;
    FirstActions(r);
    OpenedQuiet();
    NoMore(OPENED);
    ClockSteady(OPENED, false, []);
    assert Clock(false) + [] == Clock(false);
    OpensHost();
    StepHost(x, Opens());
    ClockHost();
    SteadyAllowed(L.Step(x, Opens()), Clock(false));
    AllowedOn(x, Opens(), Clock(false));
  }

  lemma FirstActions(r: bytes)
    ensures CallActions(Arrived(r, r), StepCall(Turn([], 0), 0, At(5, 0))) == [Opens()] + Clock(false)
  {
    hide Expire, Prepare, Refill, Clock, Tick, TickActions;
    var b := Arrived(r, r);
    TickOpens();
    OpenedQuiet();
    PrepareHost(b, Turn([], 0), 0);
    RefillHost(Prepare(b, Turn([], 0), 0, L.RECONNECT));
    Named(Start(1), Turn([], 0), [], false);
    assert FrameActions([]) + Clock(false) == Clock(false);
    assert [Opens()] + Clock(false) + [] == [Opens()] + Clock(false);
  }

  lemma ClockHost()
    ensures forall a <- Clock(false) :: !L.OfModem(a) && !a.HostFrame?
  {}

  lemma NoMore(h: Host)
    ensures Steady(h, [])
  {}

  lemma OpensHost()
    ensures L.HostAfter(Start(1), Opens()) == OPENED && L.HostAfter(OPENED, Opens()) == OPENED
  {
    TickOpens();
  }

  lemma AllowedOn(x: L.System, a: L.Action, rest: seq<L.Action>)
    requires Permits(x, a) && Allowed(L.Step(x, a), rest)
    ensures Allowed(x, [a] + rest)
  {
    hide L.Step, Permits;
    assert ([a] + rest)[1..] == rest;
  }

  /** The modem's INFO is read, and one fragment is sent, all in one session. */
  lemma SecondAllowed(x: L.System, info: bytes, r: bytes)
    requires Rtcm.Valid(r) && 0 < |r| <= A.PIECE && SaysReady(info)
    requires x.host == OPENED && Sealed(INFO, 2, 1, info) in x.emitted
    ensures var i := Turn([(Sealed(INFO, 2, 1, info), At(3, 0))], 0);
      Allowed(x, CallActions(Afresh(r, r), StepCall(i, 0, At(5, 0))))
  {
    hide L.Step, Expire, Prepare, Refill, Allowed, Steady, Rtcm.Valid, OnFrame, Handed, Get32, SaysReady, First;
    var frames := [(Sealed(INFO, 2, 1, info), At(3, 0))];
    var b, i := Afresh(r, r), Turn(frames, 0);
    var h := Greeted(Get32Of(info));
    TickGreets(info);
    GreetedQuiet(Get32Of(info));
    PrepareHost(b, i, 0);
    var c := Prepare(b, i, 0, L.RECONNECT);
    RefillHost(c);
    hide TickActions, Tick;
    OpensHost();
    OpenedQuiet();
    Named(x.host, i.(idle := false), frames, false);
    var send := BaseLink.Sends(Refill(c), 0, At(5, 0));
    SendSteady(Refill(c), h);
    ClockSteady(h, false, send);
    SteadyOn(OPENED, L.HostFrame(frames[0].0, frames[0].1), h, Clock(false) + send);
    assert FrameActions(frames) == [L.HostFrame(frames[0].0, frames[0].1)] by {
      assert |frames[1..]| == 0;
    }
    var rest := [L.HostFrame(frames[0].0, frames[0].1)] + (Clock(false) + send);
    SteadyOn(OPENED, Opens(), OPENED, rest);
    assert [Opens()] + ([L.HostFrame(frames[0].0, frames[0].1)] + Clock(false)) + send == [Opens()] + rest;
    SteadyAllowed(x, [Opens()] + rest);
  }

  function Get32Of(info: bytes): u32
    requires SaysReady(info)
  {
    Get32(info, 6)
  }

  lemma SendSteady(b: Base, h: Host)
    requires b.host == h && h.connected && h.sequence < U32_MAX
    ensures Steady(h, BaseLink.Sends(b, 0, At(5, 0)))
  {
    hide Handed, Settle;
    if Handed(b, 0).Some? {
      var a := L.HostSend(Handed(b, 0).value, At(5, 0));
      NoMore(L.HostAfter(h, a));
      assert [a] + [] == [a];
      SteadyOn(h, a, L.HostAfter(h, a), []);
    }
    NoMore(h);
  }

  lemma PrepareId(b: Base, i: TickIn, now: int)
    ensures Prepare(b, i, now, L.RECONNECT).messageId in {0, b.messageId}
  {
    hide Tick, Consume, DropStale;
    var t := Tick(b.host, i.(idle := Idle(b)), L.RECONNECT).0;
    Uplink.ConsumeId(b.(host := TakeOutcomes(t)), t.outcomes);
  }

  // ---- the base's half ---------------------------------------------------------------------------

  /** Nothing has happened at the robot. */
  predicate Aside(w: D.World, robot: D.Start) {
    w.down == D.LinkStart(robot) && w.robot == R.EMPTY && w.published == []
  }

  /** How both start: session 1, a radio that works. */
  predicate Fit(s: D.Start) { s.session == 1 && s.ready && s.listening }

  lemma Opened(base: D.Start, robot: D.Start, r: bytes) returns (w: D.World)
    requires Fit(base) && Rtcm.Valid(r) && 0 < |r| <= A.PIECE
    ensures Comes(D.Power(base, robot), w) && D.Shared(base, w) && Aside(w, robot) && w.base == Afresh(r, r)
    ensures Bare(w.up.fw) && w.up.air == []
  {
    hide D.Shared, D.May, Allowed, Ingest, Step, Rtcm.Valid, CallActions, L.Steps, Comes, First;
    var w0 := D.Power(base, robot);
    ComesSelf(w0);
    D.PowerShared(base, robot);
    Arrive(r, r);
    var c1 := IngestCall([r, r], 0);
    MayDo(w0, c1);
    GoesOn(w0, w0, D.BaseDoes(c1));
    D.BaseDoesShared(base, w0, c1);
    var w1 := D.Do(w0, D.BaseDoes(c1));
    NothingMoves(w0, c1);
    var c2 := StepCall(Turn([], 0), 0, At(5, 0));
    FirstAllowed(w1.up, r);
    StepOpens(r, r);
    MayDo(w1, c2);
    GoesOn(w0, w1, D.BaseDoes(c2));
    D.BaseDoesShared(base, w1, c2);
    w := D.Do(w1, D.BaseDoes(c2));
    Moved(base, w1, c2);
  }

  /** A call is possible whose link run is. */
  lemma MayDo(w: D.World, c: BaseCall)
    requires Callable(w.base, c) && w.base.messageId < U32_MAX
    requires c.IngestCall? || Allowed(w.up, CallActions(w.base, c))
    ensures D.May(w, D.BaseDoes(c))
  {
    hide Prepare, StepActions;
    if c.StepCall? { PrepareId(w.base, c.i, c.now); }
  }

  lemma NothingMoves(w: D.World, c: BaseCall)
    requires c.IngestCall?
    ensures D.Do(w, D.BaseDoes(c)).up == w.up
  {}

  /** A call of the base leaves its modem as it is. */
  lemma Moved(base: D.Start, w: D.World, c: BaseCall)
    requires base.session != 0 && D.Shared(base, w) && Callable(w.base, c)
    ensures var t := D.Do(w, D.BaseDoes(c)); t.up.fw == w.up.fw && t.up.emitted == w.up.emitted && t.up.air == w.up.air
  {
    hide L.Steps, CallActions, BaseInv, Callable, Perform, D.Shared;
    D.BaseHolds(base, w);
    CallOfHost(w.base, c);
    D.HostOnly(CallActions(w.base, c));
    D.HostLeaves(w.up, CallActions(w.base, c));
  }

  /** The base's fragment is on the air. */
  lemma OnAir(base: D.Start, robot: D.Start, r: bytes, e: F.Env) returns (w: D.World)
    requires Fit(base) && Rtcm.Valid(r) && 0 < |r| <= A.PIECE && |e.mac| == 6 && e.started
    ensures Comes(D.Power(base, robot), w) && Aside(w, robot)
    ensures |w.up.air| == 1 && L.Carries(w.up.air[0].packet, Payload(r))
  {
    hide D.Shared, D.May, Allowed, Step, Rtcm.Valid, CallActions, L.Steps, Comes, First, L.Step, Payload, SaysReady,
         F.Inv, L.Carries, Bare, Info;
    var w0 := D.Power(base, robot);
    var w2 := Opened(base, robot, r);
    D.LinkHolds(base, w2);
    var info := Info(w2.up.fw, e);
    Greets(base, w2, e);
    var w3 := D.Do(w2, D.BaseModem(L.Deliver(0, e)));
    var w4 := D.Do(w3, D.BaseModem(L.Flush(true, true)));
    GoesOn(w0, w2, D.BaseModem(L.Deliver(0, e)));
    GoesOn(w0, w3, D.BaseModem(L.Flush(true, true)));
    D.BaseModemShared(base, w2, L.Deliver(0, e));
    D.BaseModemShared(base, w3, L.Flush(true, true));
    var c := StepCall(Turn([(Sealed(INFO, 2, 1, info), At(3, 0))], 0), 0, At(5, 0));
    SecondAllowed(w4.up, info, r);
    StepSends(info, r, r);
    MayDo(w4, c);
    GoesOn(w0, w4, D.BaseDoes(c));
    D.BaseDoesShared(base, w4, c);
    var w5 := D.Do(w4, D.BaseDoes(c));
    Moved(base, w4, c);
    PayloadFits(r);
    Sent(base, w5, Get32Of(info), r, e);
    GoesOn(w0, w5, D.BaseModem(L.Deliver(1, e)));
    w := D.Do(w5, D.BaseModem(L.Deliver(1, e)));
  }

  /** The modem is told HELLO and writes its INFO. */
  lemma Greets(base: D.Start, w: D.World, e: F.Env)
    requires base.session != 0 && D.Shared(base, w) && w.base.host == OPENED && Bare(w.up.fw) && |e.mac| == 6
    ensures var v := D.Do(w, D.BaseModem(L.Deliver(0, e)));
      var u := D.Do(v, D.BaseModem(L.Flush(true, true)));
      && D.May(w, D.BaseModem(L.Deliver(0, e))) && D.May(v, D.BaseModem(L.Flush(true, true)))
      && SaysReady(Info(w.up.fw, e)) && Sealed(INFO, 2, 1, Info(w.up.fw, e)) in u.up.emitted
      && u.base == w.base && u.up.host == w.up.host && u.up.air == w.up.air
      && Listens(u.up.fw) && F.Inv(u.up.fw)
  {
    hide D.Shared, F.Handle, F.Starts, F.InfoBody, Bare, F.Inv, L.Disturbs;
    D.LinkHolds(base, w);
    Greeting(w.up.fw, e);
    Cases.InfoReads(w.up.fw.boot, true, e);
    F.FlushInv(F.Handle(w.up.fw, Sealed(HELLO, 2, 1, []), e), true, true);
  }

  lemma PayloadFits(r: bytes)
    requires Rtcm.Valid(r) && 0 < |r| <= A.PIECE
    ensures 0 < |Payload(r)| <= MAX_AIR_PAYLOAD
    ensures E.Fragment(Payload(r)) == Some(First(r))
  {
    assert First(r).typ == A.RTCM_FRAGMENT by {
      hide Rtcm.Valid;
    }
    hide Rtcm.Valid, A.Encode, A.Decode, A.FragmentAt;
    A.PiecesCover(|r|);
    A.FragmentReads(r, A.Key(2, 1), 0, 0);
    OnePiece(r, A.Key(2, 1));
    var f := First(r);
    assert A.Encode(f).Ok? ==> 0 < |A.Encode(f).value| <= MAX_AIR_PAYLOAD by {
      hide Crc.Crc16, Crc.Tail16;
    }
  }

  /** The modem starts the transmission. */
  lemma Sent(base: D.Start, w: D.World, id: u32, r: bytes, e: F.Env)
    requires base.session != 0 && D.Shared(base, w) && Rtcm.Valid(r) && 0 < |r| <= A.PIECE
    requires w.base.host == Sending(id, Payload(r)) && 0 < |Payload(r)| <= MAX_AIR_PAYLOAD && e.started
    requires F.Inv(w.up.fw) && Listens(w.up.fw) && w.up.air == []
    ensures var v := D.Do(w, D.BaseModem(L.Deliver(1, e)));
      D.May(w, D.BaseModem(L.Deliver(1, e))) && |v.up.air| == 1 && L.Carries(v.up.air[0].packet, Payload(r))
  {
    hide D.Shared, F.Handle, F.Starts, F.Inv, L.Disturbs, Payload, Rtcm.Valid, L.Carries;
    D.LinkHolds(base, w);
    Transmitting(w.up.fw, Payload(r), e);
    assert w.up.host.wire[1] == Sealed(RADIO_SEND, 2, 2, Payload(r));
  }

  // ---- the robot's half --------------------------------------------------------------------------

  /** The robot's port is open. */
  lemma RobotOpens(w: D.World, robot: D.Start)
    requires Aside(w, robot) && Fit(robot)
    ensures var v := D.Do(w, D.RobotDoes(Turn([], 0), 0, []));
      && D.May(w, D.RobotDoes(Turn([], 0), 0, []))
      && v.up == w.up && v.robot == R.EMPTY && v.published == []
      && v.down.host == OPENED && Bare(v.down.fw) && v.down.emitted == []
  {
    hide L.Steps, TickActions, R.Expire, Tick;
    var run := TickActions(w.down.host, Turn([], 0));
    TickOpens();
    TickIsRun(w.down.host, Turn([], 0));
    D.TickOfHosts(w.down.host, Turn([], 0));
    StepsHost(w.down, run);
    D.HostLeaves(w.down, run);
    NothingExpires();
    assert S.Take(R.EMPTY, [], 0) == (R.EMPTY, []);
  }

  lemma NothingExpires()
    ensures R.Expire(R.EMPTY, 0) == R.EMPTY
  {}

  /** The robot's modem takes a step that hears nothing. */
  lemma RobotModemDoes(w: D.World, v: D.World, a: L.Action)
    requires Comes(w, v) && L.OfModem(a) && !a.Radio?
    ensures var u := D.Do(v, D.RobotModem(a, 0)); Comes(w, u) && u == v.(down := L.Step(v.down, a))
  {
    hide L.Step, Comes;
    GoesOn(w, v, D.RobotModem(a, 0));
  }

  /** Its modem is told HELLO and interrupted. */
  lemma RobotGreets(w0: D.World, w: D.World, e: F.Env) returns (v: D.World)
    requires Comes(w0, w) && w.down.host == OPENED && Bare(w.down.fw) && w.down.emitted == []
    ensures Comes(w0, v) && v == w.(down := v.down) && v.down.host == OPENED && v.down.emitted == []
    ensures Listens(v.down.fw) && v.down.fw.irq && |v.down.fw.queue| == 1
  {
    hide F.Handle, F.Starts, F.InfoBody, Bare, L.Disturbs, Comes, F.Inv, D.Do;
    Greeting(w.down.fw, e);
    RobotModemDoes(w0, w, L.Deliver(0, e));
    var u := D.Do(w, D.RobotModem(L.Deliver(0, e), 0));
    RobotModemDoes(w0, u, L.Interrupt);
    v := D.Do(u, D.RobotModem(L.Interrupt, 0));
  }

  /** It hears the packet, and writes both what it has to say. */
  lemma RobotHears(w0: D.World, w: D.World, i: F.RadioIn) returns (v: D.World)
    requires Comes(w0, w) && w.down.host == OPENED && w.down.emitted == []
    requires Listens(w.down.fw) && w.down.fw.irq && |w.down.fw.queue| == 1
    requires i.readable && ReceivedWell(i.packet) && |w.up.air| == 1 && w.up.air[0].packet == i.packet
    ensures 18 <= |i.packet| && Comes(w0, v) && v == w.(down := v.down, heard := v.heard, heardAt := v.heardAt)
    ensures v.down.host == OPENED && |v.down.emitted| == 2 && v.down.emitted[1] == Heard(i)
  {
    hide F.RadioTask, ReceivedWell, RxEvent, Comes, Hears, L.Complete, L.Finishes, Inside, Listens;
    Hearing(w.down.fw, i);
    GoesOn(w0, w, D.RobotModem(L.Radio(i), 0));
    var u := D.Do(w, D.RobotModem(L.Radio(i), 0));
    assert u == w.(down := u.down, heard := u.heard, heardAt := u.heardAt);
    hide D.Do, D.May;
    RobotModemDoes(w0, u, L.Flush(true, true));
    var z := D.Do(u, D.RobotModem(L.Flush(true, true), 0));
    RobotModemDoes(w0, z, L.Flush(true, true));
    v := D.Do(z, D.RobotModem(L.Flush(true, true), 0));
  }

  lemma TickHears(f: Frame, p: bytes)
    requires f.typ == RADIO_RX && f.first == 2 && ParseRadioRx(f.payload) == Ok(p)
    ensures Tick(OPENED, Turn([(f, At(3, 0))], 0), L.RECONNECT).1 == [p]
  {
    var one := [(f, At(3, 0))];
    assert |one[1..]| == 0;
    var h := OPENED.(received := [p]);
    var none: seq<bytes> := [];
    assert none + [p] == [p];
    assert OnFrame(OPENED, f, At(3, 0), L.RECONNECT) == h;
    assert OnFrames(OPENED, one, L.RECONNECT) == h;
    TimeoutsOne(h, 1, 0, At(3, 0), L.RECONNECT);
    assert Expire(h, 0, At(3, 0), L.RECONNECT) == h;
  }

  /** The fragment of a frame of one piece completes it. */
  lemma Completes(r: bytes)
    requires Rtcm.Valid(r) && 0 < |r| <= A.PIECE
    ensures S.Take(R.EMPTY, [Payload(r)], 0).1 == [r]
  {
    hide Rtcm.Valid, E.Fragment, R.Add, A.FragmentAt, Payload;
    PayloadFits(r);
    Refusals.ReturnedTwice(r, A.Key(2, 1), 0);
    A.PiecesCover(|r|);
    var run := [Runs.Arrival(First(r), 0), Runs.Arrival(First(r), 0)];
    assert Runs.OutcomeAt(R.EMPTY, run, 0) == R.Add(R.EMPTY, First(r), 0).1;
    var one := [Payload(r)];
    assert |one[1..]| == 0;
  }

  /**
   It happens: from power-up of both, for any frame of one piece, there is a run
   in which the base ingests it and the robot publishes it.
   */
  lemma Published(base: D.Start, robot: D.Start, r: bytes, e: F.Env, i: F.RadioIn)
    requires Fit(base) && Fit(robot) && Rtcm.Valid(r) && 0 < |r| <= A.PIECE
    requires |e.mac| == 6 && e.started && i.readable
    ensures exists acts ::
      D.Happens(D.Power(base, robot), acts) && D.Run(D.Power(base, robot), acts).published == [r]
  {
    hide Rtcm.Valid, D.Do, D.May, L.Carries, Payload, D.Run, D.Happens, Aside, Bare, ReceivedWell;
    var w0 := D.Power(base, robot);
    var w := OnAir(base, robot, r, e);
    RobotOpens(w, robot);
    GoesOn(w0, w, D.RobotDoes(Turn([], 0), 0, []));
    var v := D.Do(w, D.RobotDoes(Turn([], 0), 0, []));
    var j := i.(packet := w.up.air[0].packet);
    CarriesWell(j.packet, Payload(r));
    var z := RobotGreets(w0, v, e);
    var u := RobotHears(w0, z, j);
    RobotPublishes(u, j, r);
    var last := D.RobotDoes(Turn([(Heard(j), At(3, 0))], 0), 0, [1]);
    GoesOn(w0, u, last);
  }

  lemma CarriesWell(packet: bytes, p: bytes)
    requires L.Carries(packet, p)
    ensures ReceivedWell(packet) && 18 <= |packet| && Inside(packet) == p
  {
    F.WellLong(packet);
  }

  lemma RobotPublishes(u: D.World, i: F.RadioIn, r: bytes)
    requires Rtcm.Valid(r) && 0 < |r| <= A.PIECE && 18 <= |i.packet| && Inside(i.packet) == Payload(r)
    requires u.robot == R.EMPTY && u.published == [] && u.down.host == OPENED
    requires |u.down.emitted| == 2 && u.down.emitted[1] == Heard(i)
    ensures var a := D.RobotDoes(Turn([(Heard(i), At(3, 0))], 0), 0, [1]);
      D.May(u, a) && D.Do(u, a).published == [r]
  {
    hide Rtcm.Valid, RxEvent, ParseRadioRx, Payload, Inside, L.Steps, Tick, TickActions, S.Take, R.Expire;
    EventContent(i.packet, 2, i.rssi, i.snr, i.millis);
    Parsed(i);
    TickHears(Heard(i), Payload(r));
    Completes(r);
    var none: seq<bytes> := [];
    assert none + [r] == [r];
  }

  lemma Parsed(i: F.RadioIn)
    requires 18 <= |i.packet|
    ensures ParseRadioRx(Heard(i).payload) == Ok(Inside(i.packet))
  {
    EventContent(i.packet, 2, i.rssi, i.snr, i.millis);
    hide Inside;
  }
}
