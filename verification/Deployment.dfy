/**
 Base, modem, air, modem, robot: the base's run and the run of its link share one
 host, the robot's modem hears packets its link has put on the air, and what the
 robot publishes comes from its own modem and transport.
 */
module Deployment {
  import opened Bytes
  import opened Wrappers
  import opened UsbProtocol
  import opened Transport
  import opened BaseService
  import opened Uplink
  import opened BaseLink
  import opened RobotLink
  import opened Selection
  import opened Airwaves
  import E = EndToEnd
  import L = Link
  import R = Reassembler
  import S = RobotService

  /**
   `up` is the base's link and `down` the robot's. The history: the base's states
   and calls and the run of its link; the packets the robot's modem read, with
   their places on the air; the frames the robot's host read, with their places in
   what its modem wrote; and the robot's events.
   */
  datatype World = World(
    up: L.System, base: Base, upRun: seq<L.Action>, states: seq<Base>, calls: seq<BaseCall>,
    down: L.System, robot: R.State, published: seq<bytes>,
    heard: seq<bytes>, heardAt: seq<nat>, taken: seq<Frame>, takenAt: seq<nat>, events: seq<E.Event>)

  datatype Act =
    | BaseDoes(c: BaseCall)
    | BaseModem(m: L.Action)
    | RobotDoes(i: TickIn, now: int, at: seq<nat>)
    | RobotModem(m: L.Action, place: nat)

  /** Values drawn at power-up: a host's session, a modem's identity, first air sequence and radio. */
  datatype Start = Start(session: u32, boot: u32, airNext: u32, ready: bool, listening: bool)

  function LinkStart(s: Start): L.System { L.Begin(s.session, s.boot, s.airNext, s.ready, s.listening) }

  function Power(base: Start, robot: Start): World {
    var b := BaseService.Begin(base.session);
    World(LinkStart(base), b, [], [b], [], LinkStart(robot), R.EMPTY, [], [], [], [], [], [])
  }

  function Do(w: World, a: Act): World {
    match a
    case BaseDoes(c) =>
      var (run, b) := (CallActions(w.base, c), Perform(w.base, c, L.RECONNECT));
      w.(up := L.Steps(w.up, run), base := b, upRun := w.upRun + run, states := w.states + [b], calls := w.calls + [c])
    case BaseModem(m) =>
      w.(up := L.Step(w.up, m), upRun := w.upRun + [m])
    case RobotDoes(i, now, at) =>
      var payloads := Tick(w.down.host, i, L.RECONNECT).1;
      var (s, frames) := S.Take(w.robot, payloads, now);
      w.(down := L.Steps(w.down, TickActions(w.down.host, i)), robot := R.Expire(s, now),
         published := w.published + frames, taken := w.taken + FramesOf(i.frames), takenAt := w.takenAt + at,
         events := w.events + S.Hears(payloads, now) + [E.Expire(now)])
    case RobotModem(m, at) =>
      var t := w.(down := L.Step(w.down, m));
      if m.Radio? && Hears(w.down.fw, m.i) then t.(heard := w.heard + [m.i.packet], heardAt := w.heardAt + [at]) else t
  }

  /**
   What may happen next. The base runs and draws fresh sessions, no counter of
   messages wraps, its modem's link is possible; the robot's host reads what its
   modem has written; and a packet the robot would take for a fragment has been on
   the air. Anything may be lost, held back or heard again.
   */
  ghost predicate May(w: World, a: Act) {
    match a
    case BaseDoes(c) =>
      && Callable(w.base, c) && Allowed(w.up, CallActions(w.base, c))
      && (c.StepCall? ==> Prepare(w.base, c.i, c.now, L.RECONNECT).messageId < U32_MAX)
    case BaseModem(m) => L.OfModem(m) && L.Enabled(w.up, m)
    case RobotDoes(i, now, at) =>
      && |at| == |i.frames|
      && forall k :: 0 <= k < |at| ==>
           at[k] < |w.down.emitted| && w.down.emitted[at[k]] == i.frames[k].0
    case RobotModem(m, at) =>
      && L.OfModem(m)
      && (m.Radio? && Hears(w.down.fw, m.i) && Matters(Inside(m.i.packet)) ==>
            at < |w.up.air| && w.up.air[at].packet == m.i.packet)
  }

  function Run(w: World, acts: seq<Act>): World
    decreases |acts|
  {
    if acts == [] then w else Run(Do(w, acts[0]), acts[1..])
  }

  ghost predicate Happens(w: World, acts: seq<Act>)
    decreases |acts|
  {
    acts == [] || (May(w, acts[0]) && Happens(Do(w, acts[0]), acts[1..]))
  }

  // ---- the base and its link share one host --------------------------------------------

  ghost predicate Shared(start: Start, w: World) {
    && IsFreshRun(w.states, w.calls, L.RECONNECT) && w.states[0] == BaseService.Begin(start.session)
    && w.base == w.states[|w.calls|]
    && L.Possible(LinkStart(start), w.upRun) && L.Steps(LinkStart(start), w.upRun) == w.up
    && w.up.host == w.base.host
    && SeenBy(w.states, |w.calls|) <= w.up.sessions
  }

  lemma LinkHolds(start: Start, w: World)
    requires start.session != 0 && Shared(start, w)
    ensures L.SysInv(w.up) && w.up.host.session in w.up.sessions
    ensures w.up.host == w.base.host && w.up.at < |w.up.host.wire|
  {
    hide L.SysInv, L.Possible, L.Steps, IsFreshRun, SeenBy;
    L.BeginInv(start.session, start.boot, start.airNext, start.ready, start.listening);
    L.StepsInv(LinkStart(start), w.upRun);
    SessionIn(w.up);
  }

  lemma SessionIn(x: L.System)
    requires L.SysInv(x)
    ensures x.host.session in x.sessions && x.at < |x.host.wire|
  {}

  lemma BaseHolds(start: Start, w: World)
    requires start.session != 0 && Shared(start, w)
    ensures BaseInv(w.base)
  {
    hide BaseInv, L.Possible, L.Steps, SeenBy, Trail, Keys;
    RunUp(start.session, w.states, w.calls, L.RECONNECT, |w.calls|);
  }

  /** What a call permits is a possible run of the link, and fresh. */
  lemma BaseDoesShared(start: Start, w: World, c: BaseCall)
    requires start.session != 0 && Shared(start, w) && May(w, BaseDoes(c))
    ensures Shared(start, Do(w, BaseDoes(c)))
    ensures Do(w, BaseDoes(c)).up.air == w.up.air
  {
    hide L.Possible, L.Steps, IsFreshRun, SeenBy, BaseInv, Perform, Prepare, Allowed, CallActions, Seen, HostSteps,
         FreshStep, L.SysInv, Callable;
    var run := CallActions(w.base, c);
    LinkHolds(start, w);
    BaseHolds(start, w);
    CallOfHost(w.base, c);
    AllowedPossible(w.up, run);
    StepsConcat(LinkStart(start), w.upRun, run);
    CallIsRun(w.base, c);
    HostOnly(run);
    StepsHost(w.up, run);
    SessionsGrow(w.up, run);
    CallFresh(w, c);
    LengthOf(w.states, w.calls);
    RunLonger(w.states, w.calls, c);
    SeenMore(w.states, Perform(w.base, c, L.RECONNECT));
    var t := Do(w, BaseDoes(c));
    assert t.states[|t.calls|] == t.base;
  }

  lemma LengthOf(states: seq<Base>, calls: seq<BaseCall>)
    requires IsFreshRun(states, calls, L.RECONNECT)
    ensures |states| == |calls| + 1
  {}

  lemma HostOnly(run: seq<L.Action>)
    requires forall a <- run :: OfHost(a)
    ensures forall a <- run :: !L.OfModem(a)
  {
    hide L.Draws;
  }

  lemma SeenMore(states: seq<Base>, s: Base)
    requires |states| > 0
    ensures SeenBy(states + [s], |states|) == Seen(SeenBy(states, |states| - 1), s)
  {
    hide Seen;
    SeenPrefix(states, s, |states| - 1);
  }

  lemma CallFresh(w: World, c: BaseCall)
    requires w.up.host == w.base.host && w.up.host.session in w.up.sessions
    requires IsFreshRun(w.states, w.calls, L.RECONNECT) && w.base == w.states[|w.calls|]
    requires SeenBy(w.states, |w.calls|) <= w.up.sessions && BaseInv(w.base) && Callable(w.base, c)
    requires L.Possible(w.up, CallActions(w.base, c))
    requires c.StepCall? ==> Prepare(w.base, c.i, c.now, L.RECONNECT).messageId < U32_MAX
    ensures c.StepCall? ==> FreshStep(w.base, c.i, c.now, c.w, L.RECONNECT, SeenBy(w.states, |w.calls|))
    ensures Seen(SeenBy(w.states, |w.calls|), Perform(w.base, c, L.RECONNECT))
            <= L.Steps(w.up, CallActions(w.base, c)).sessions
  {
    hide L.Possible, BaseInv, Prepare, StepActions, Step, FreshStep, Callable;
    var seen := SeenBy(w.states, |w.calls|);
    match c
    case StepCall(i, now, v) => StepFresh(w.up, w.base, i, now, v, seen);
    case IngestCall(raws, now) =>
      IngestKeeps(w.base, raws, now);
      SeenLast(w.states, |w.calls|);
    case ResetCall => SeenLast(w.states, |w.calls|);
  }

  lemma SeenLast(states: seq<Base>, k: nat)
    requires k < |states|
    ensures states[k].session in SeenBy(states, k) && states[k].host.session in SeenBy(states, k)
  {}

  lemma BaseModemShared(start: Start, w: World, m: L.Action)
    requires start.session != 0 && Shared(start, w) && May(w, BaseModem(m))
    ensures Shared(start, Do(w, BaseModem(m)))
  {
    hide L.Possible, L.Steps, IsFreshRun, SeenBy, L.Enabled, L.Step;
    StepsConcat(LinkStart(start), w.upRun, [m]);
    StepsOne(w.up, m);
    ModemHost(w.up, m);
  }

  /** The modem does not touch the host, and takes nothing back from the air. */
  lemma ModemHost(x: L.System, m: L.Action)
    requires L.OfModem(m)
    ensures var y := L.Step(x, m); y.host == x.host && y.sessions == x.sessions && Packets(x.air) <= Packets(y.air)
  {
    hide L.F.Handle, L.F.RadioTask, L.F.TxWatchdog, L.F.Flush, L.F.Boot, L.F.Starts, L.Disturbs;
  }

  function Packets(air: seq<L.Tx>): (r: seq<bytes>)
    ensures |r| == |air|
    ensures forall i :: 0 <= i < |r| ==> r[i] == air[i].packet
  {
    seq(|air|, i requires 0 <= i < |air| => air[i].packet)
  }

  // ---- what the robot hears and reads ------------------------------------------------------

  ghost predicate OnTheAir(w: World) { Places(Insides(w.heard), Insides(Packets(w.up.air)), w.heardAt) }

  ghost predicate OnTheWire(w: World) {
    && |w.takenAt| == |w.taken|
    && forall k :: 0 <= k < |w.taken| ==> w.takenAt[k] < |w.down.emitted| && w.down.emitted[w.takenAt[k]] == w.taken[k]
  }

  /** The payload of an event, if it has one. */
  function Said(e: E.Event): bytes { if e.Heard? then e.payload else [] }

  function AllSaid(events: seq<E.Event>): (r: seq<bytes>)
    ensures |r| == |events|
    ensures forall i :: 0 <= i < |r| ==> r[i] == Said(events[i])
  {
    seq(|events|, i requires 0 <= i < |events| => Said(events[i]))
  }

  /**
   The robot's own account: packets pass its modem and transport in order, and
   its service is the end-to-end robot.
   */
  ghost predicate Robotic(w: World) {
    && Passes(w.down, w.heard) && w.down.host.received == []
    && Traces(AllSaid(w.events), Contents(w.taken))
    && w.robot == E.After(w.events) && w.published == S.Raws(E.Published(w.events))
  }

  lemma HeardLater(w: World, t: World)
    requires OnTheAir(w) && t.heard == w.heard && t.heardAt == w.heardAt && Packets(w.up.air) <= Packets(t.up.air)
    ensures OnTheAir(t)
  {
    hide Matters, Inside;
  }

  lemma HeardMore(w: World, packet: bytes, at: nat)
    requires OnTheAir(w)
    requires Matters(Inside(packet)) ==> at < |w.up.air| && w.up.air[at].packet == packet
    ensures OnTheAir(w.(heard := w.heard + [packet], heardAt := w.heardAt + [at]))
  {
    hide Matters, Inside;
  }

  lemma RobotModemKeeps(w: World, m: L.Action, at: nat)
    requires May(w, RobotModem(m, at)) && OnTheAir(w) && OnTheWire(w) && Robotic(w)
    ensures var t := Do(w, RobotModem(m, at)); OnTheAir(t) && OnTheWire(t) && Robotic(t)
  {
    hide L.Step, Passes, Hears, OnTheAir, Traces, E.After, E.Published, Matters, Inside;
    ModemPasses(w.down, m, w.heard);
    ModemHost(w.down, m);
    ModemEmits(w.down, m);
    var t := w.(down := L.Step(w.down, m));
    HeardLater(w, t);
    if m.Radio? && Hears(w.down.fw, m.i) { HeardMore(t, m.i.packet, at); }
  }

  lemma ModemEmits(x: L.System, m: L.Action)
    requires L.OfModem(m)
    ensures x.emitted <= L.Step(x, m).emitted
  {
    hide L.F.Handle, L.F.RadioTask, L.F.TxWatchdog, L.F.Boot, L.F.Starts, L.Disturbs, L.Complete, L.Finishes;
  }

  lemma RobotDoesKeeps(w: World, i: TickIn, now: int, at: seq<nat>)
    requires May(w, RobotDoes(i, now, at)) && OnTheAir(w) && OnTheWire(w) && Robotic(w)
    ensures var t := Do(w, RobotDoes(i, now, at)); OnTheAir(t) && OnTheWire(t) && Robotic(t)
  {
    hide L.Steps, Traces, E.After, E.Published, Matters, Inside, Content, Tick, TickActions, S.Take, R.Expire,
         HostSteps,         OnTheAir;
    var t := Do(w, RobotDoes(i, now, at));
    var run := TickActions(w.down.host, i);
    var payloads := Tick(w.down.host, i, L.RECONNECT).1;
    TickOfHosts(w.down.host, i);
    TickIsRun(w.down.host, i);
    StepsHost(w.down, run);
    HostLeaves(w.down, run);
    TickReads(w.down.host, i, L.RECONNECT);
    S.StepIsEvents(w.events, payloads, now);
    assert AllSaid(w.events + S.Hears(payloads, now) + [E.Expire(now)]) == AllSaid(w.events) + payloads + [[]];
    TracesConcat(AllSaid(w.events), Contents(w.taken), payloads, Contents(FramesOf(i.frames)));
    EmptyMatters();
    TracesMute([]);
    ContentsConcat(w.taken, FramesOf(i.frames));
    TracesConcat(AllSaid(w.events) + payloads, Contents(t.taken), [[]], []);
    assert Contents(t.taken) + [] == Contents(t.taken);
    HeardLater(w, t);
    SamePasses(w.down, t.down, w.heard);
  }

  lemma {:induction false} FramesAreHost(frames: seq<(Frame, Write)>)
    ensures forall a <- FrameActions(frames) :: !L.OfModem(a)
    decreases |frames|
  {
    if frames != [] { FramesAreHost(frames[1..]); }
  }

  lemma TickOfHosts(h: Host, i: TickIn)
    ensures forall a <- TickActions(h, i) :: !L.OfModem(a)
  {
    hide OpenPort;
    FramesAreHost(i.frames);
  }

  lemma {:induction false} HostLeaves(x: L.System, run: seq<L.Action>)
    requires forall a <- run :: !L.OfModem(a)
    ensures var y := L.Steps(x, run); y.fw == x.fw && y.emitted == x.emitted && y.air == x.air
    decreases |run|
  {
    hide L.Step;
    if run != [] {
      assert run[0] in run && forall a <- run[1..] :: a in run;
      StepHost(x, run[0]);
      HostLeaves(L.Step(x, run[0]), run[1..]);
    }
  }

  // ---- every run -----------------------------------------------------------------------------

  ghost predicate Holds(start: Start, w: World) { Shared(start, w) && OnTheAir(w) && OnTheWire(w) && Robotic(w) }

  lemma PowerShared(base: Start, robot: Start)
    ensures Shared(base, Power(base, robot))
  {
    hide L.Step, L.Enabled, FreshStep, Callable, Perform;
  }

  lemma PowerRobotic(base: Start, robot: Start)
    ensures Robotic(Power(base, robot))
  {
    hide Matters, Content, Inside, Traces, S.Raws, E.Receive;
    var w := Power(base, robot);
    TracesNone(Insides([]));
    TracesNone(Contents([]));
    assert Contents(Output(w.down)) == [] && AllSaid([]) == [];
    var none: seq<(nat, bytes)> := [];
    assert E.Published([]) == none && |S.Raws(none)| == 0;
  }

  lemma DoHolds(start: Start, w: World, a: Act)
    requires start.session != 0 && Holds(start, w) && May(w, a)
    ensures Holds(start, Do(w, a))
  {
    hide Shared, OnTheAir, OnTheWire, Robotic, May;
    match a {
      case BaseDoes(c) =>
        BaseDoesShared(start, w, c);
        BaseDoesApart(w, c);
        HeardLater(w, Do(w, a));
        SameRobot(w, Do(w, a));
      case BaseModem(m) =>
        BaseModemShared(start, w, m);
        BaseModemApart(w, m);
        HeardLater(w, Do(w, a));
        SameRobot(w, Do(w, a));
      case RobotDoes(i, now, at) =>
        RobotDoesKeeps(w, i, now, at);
        SameBase(start, w, Do(w, a));
      case RobotModem(m, at) =>
        RobotModemKeeps(w, m, at);
        SameBase(start, w, Do(w, a));
    }
  }

  lemma BaseDoesApart(w: World, c: BaseCall)
    ensures var t := Do(w, BaseDoes(c));
      && t.heard == w.heard && t.heardAt == w.heardAt && t.down == w.down && t.robot == w.robot
      && t.published == w.published && t.taken == w.taken && t.takenAt == w.takenAt && t.events == w.events
  {}

  lemma BaseModemApart(w: World, m: L.Action)
    requires May(w, BaseModem(m))
    ensures var t := Do(w, BaseModem(m));
      && t.heard == w.heard && t.heardAt == w.heardAt && t.down == w.down && t.robot == w.robot
      && t.published == w.published && t.taken == w.taken && t.takenAt == w.takenAt && t.events == w.events
      && Packets(w.up.air) <= Packets(t.up.air)
  {
    hide L.Step, L.Enabled;
    ModemHost(w.up, m);
  }

  lemma SameRobot(w: World, t: World)
    requires OnTheWire(w) && Robotic(w)
    requires t.heard == w.heard && t.down == w.down && t.robot == w.robot && t.published == w.published
    requires t.taken == w.taken && t.takenAt == w.takenAt && t.events == w.events
    ensures OnTheWire(t) && Robotic(t)
  {
    hide Passes, Traces, E.After, E.Published, Content;
  }

  lemma SameBase(start: Start, w: World, t: World)
    requires Shared(start, w)
    requires t.up == w.up && t.base == w.base && t.upRun == w.upRun && t.states == w.states && t.calls == w.calls
    ensures Shared(start, t)
  {
    hide IsFreshRun, L.Possible, L.Steps, SeenBy;
  }

  lemma {:induction false} RunHolds(start: Start, w: World, acts: seq<Act>)
    requires start.session != 0 && Holds(start, w) && Happens(w, acts)
    ensures Holds(start, Run(w, acts))
    decreases |acts|
  {
    hide Holds, May, Do;
    if acts != [] {
      DoHolds(start, w, acts[0]);
      RunHolds(start, Do(w, acts[0]), acts[1..]);
    }
  }

  // ---- from the wire to what is published ------------------------------------------------------

  /** The host reads what its modem writes in order, each frame at most once. */
  ghost predicate InTurn(at: seq<nat>) { forall i, j :: 0 <= i < j < |at| ==> at[i] < at[j] }

  /** What was transmitted was written by the base, in order. */
  lemma AirTraces(start: Start, w: World)
    requires start.session != 0 && Shared(start, w)
    ensures Traces(Insides(Packets(w.up.air)), WireSends(w.base.host.wire))
  {
    hide L.Possible, L.Steps, IsFreshRun, SeenBy, WireSends, Matters;
    AirCarriesWrites(start.session, start.boot, start.airNext, start.ready, start.listening, w.upRun);
    var at :| Selected(Carried(w.up.air), WireSends(w.base.host.wire), at);
    Contained(w.up.air);
    assert Places(Carried(w.up.air), WireSends(w.base.host.wire), at) && Rising(Carried(w.up.air), at);
  }

  lemma Contained(air: seq<L.Tx>)
    requires forall t <- air :: 18 <= |t.packet|
    ensures Insides(Packets(air)) == Carried(air)
  {
    forall i | 0 <= i < |air|
      ensures Insides(Packets(air))[i] == Carried(air)[i]
    {
      assert air[i] in air;
    }
  }

  lemma WrittenTraces(w: World)
    requires Robotic(w)
    ensures Traces(Contents(w.down.emitted), Insides(w.heard))
  {
    hide Traces, Content, Inside, E.After, E.Published;
    var a, g := Contents(w.down.emitted), Contents(Queued(w.down.fw.queue));
    ContentsConcat(w.down.emitted, Queued(w.down.fw.queue));
    assert a + g + [] == a + g && a + [] == a;
    TracesGap(a, g, [], Insides(w.heard));
  }

  lemma Sourced(start: Start, w: World)
    requires start.session != 0 && Holds(start, w)
    ensures Among(AllSaid(w.events), WireSends(w.base.host.wire))
    ensures InTurn(w.takenAt) && Rising(Insides(w.heard), w.heardAt)
            ==> Traces(AllSaid(w.events), WireSends(w.base.host.wire))
  {
    assert Places(Contents(w.taken), Contents(w.down.emitted), w.takenAt)
        && (InTurn(w.takenAt) ==> Rising(Contents(w.taken), w.takenAt)) by {
      hide Matters, Content;
    }
    hide Traces, Places, Rising, Shared, WireSends, Content, Inside, Among, Passes, E.After, E.Published, OnTheWire;
    var said, read, written := AllSaid(w.events), Contents(w.taken), Contents(w.down.emitted);
    var heard, air, wire := Insides(w.heard), Insides(Packets(w.up.air)), WireSends(w.base.host.wire);
    AirTraces(start, w);
    WrittenTraces(w);
    TracesAmong(said, read);
    PlacesAmong(read, written, w.takenAt);
    TracesAmong(written, heard);
    PlacesAmong(heard, air, w.heardAt);
    TracesAmong(air, wire);
    AmongThrough(said, read, written);
    AmongThrough(said, written, heard);
    AmongThrough(said, heard, air);
    AmongThrough(said, air, wire);
    if InTurn(w.takenAt) && Rising(heard, w.heardAt) {
      Traced(read, written, w.takenAt);
      Traced(heard, air, w.heardAt);
      TracesThrough(said, read, written);
      TracesThrough(said, written, heard);
      TracesThrough(said, heard, air);
      TracesThrough(said, air, wire);
    }
  }

  /** `out` is `all` at strictly increasing positions. */
  ghost predicate Within(out: seq<bytes>, all: seq<bytes>, at: seq<nat>) {
    |at| == |out| && InTurn(at) && forall k :: 0 <= k < |out| ==> at[k] < |all| && all[at[k]] == out[k]
  }

  /**
   Everything together, from power-up and at every state of every run. The base's
   calls and the steps of its link are runs of one host, so what was proved of
   either holds here. The robot publishes nothing the base did not ingest. If
   neither the air nor the robot's cable turns its traffic round or repeats it,
   the robot publishes in the order of ingestion, each frame at most once.
   */
  lemma Deployed(base: Start, robot: Start, acts: seq<Act>)
    requires base.session != 0 && Happens(Power(base, robot), acts)
    ensures var w := Run(Power(base, robot), acts);
      && IsFreshRun(w.states, w.calls, L.RECONNECT) && w.states[0] == BaseService.Begin(base.session)
      && w.base == w.states[|w.calls|]
      && L.Possible(LinkStart(base), w.upRun) && w.up == L.Steps(LinkStart(base), w.upRun) && w.up.host == w.base.host
    ensures var w := Run(Power(base, robot), acts);
      forall raw <- w.published :: raw in w.base.ingested
    ensures var w := Run(Power(base, robot), acts);
      InTurn(w.takenAt) && Rising(Insides(w.heard), w.heardAt) ==> exists at :: Within(w.published, w.base.ingested, at)
  {
    assert Holds(base, Power(base, robot)) by {
      hide Shared, Robotic, Matters, Content, Inside, L.Begin;
      PowerShared(base, robot);
      PowerRobotic(base, robot);
    }
    hide IsFreshRun, L.Possible, L.Steps, SeenBy, Happens, OnTheAir, OnTheWire, Robotic, Rising, Run;
    RunHolds(base, Power(base, robot), acts);
    var w := Run(Power(base, robot), acts);
    Sourced(base, w);
    Untouched(base, w);
    if InTurn(w.takenAt) && Rising(Insides(w.heard), w.heardAt) { var _ := Ordered(base, w); }
  }

  lemma Untouched(start: Start, w: World)
    requires start.session != 0 && Holds(start, w) && Among(AllSaid(w.events), WireSends(w.base.host.wire))
    ensures forall raw <- w.published :: raw in w.base.ingested
  {
    hide IsFreshRun, L.Possible, L.Steps, SeenBy, OnTheAir, OnTheWire, Passes, Traces, E.After, E.Published, E.Fragment,
         WireSends;
    forall e <- w.events | e.Heard? && E.Fragment(e.payload).Some?
      ensures e.payload in WireSends(w.base.host.wire)
    {
      var i :| 0 <= i < |w.events| && w.events[i] == e;
      assert AllSaid(w.events)[i] == e.payload;
    }
    LengthOf(w.states, w.calls);
    E.EndToEndIntegrity(start.session, w.states, w.calls, L.RECONNECT, |w.calls|, w.events);
    forall raw <- w.published
      ensures raw in w.base.ingested
    {
      var i :| 0 <= i < |w.published| && w.published[i] == raw;
      assert E.Published(w.events)[i] in E.Published(w.events);
    }
  }

  lemma Ordered(start: Start, w: World) returns (at: seq<nat>)
    requires start.session != 0 && Holds(start, w) && Traces(AllSaid(w.events), WireSends(w.base.host.wire))
    ensures Within(w.published, w.base.ingested, at)
  {
    hide IsFreshRun, L.Possible, L.Steps, SeenBy, OnTheAir, OnTheWire, Passes, E.After, E.Published, E.Fragment,
         WireSends;
    var source :| Places(AllSaid(w.events), WireSends(w.base.host.wire), source) && Rising(AllSaid(w.events), source);
    LengthOf(w.states, w.calls);
    Related(w.events);
    E.EndToEndOrder(start.session, w.states, w.calls, L.RECONNECT, |w.calls|, w.events, source);
    at :| E.Subsequence(E.Published(w.events), w.base.ingested, at);
  }

  lemma Related(events: seq<E.Event>)
    ensures forall i :: 0 <= i < |events| && E.Relevant(events[i]) ==>
      Matters(AllSaid(events)[i]) && AllSaid(events)[i] == events[i].payload
  {}
}
