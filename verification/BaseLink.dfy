/** A step of the base as a run of the link: the same host, the same freshness. */
module BaseLink {
  import opened Bytes
  import opened Wrappers
  import opened UsbProtocol
  import opened Transport
  import opened BaseService
  import opened Uplink
  import opened Airwaves
  import A = Application
  import L = Link
  import Rtcm
  import Seqs

  // ---- the steps of the host in one step of the base --------------------------------

  /** The payload the base hands to `send_air`, if it calls it. */
  function Handed(b: Base, now: int): Option<bytes> {
    if b.inFlight.Some? || b.fragments == [] || !Ready(b.host) || !(0 <= now - b.fragments[0].at < A.TTL_MS) then None
    else
      match A.Encode(b.fragments[0].frame.(age := now - b.fragments[0].at))
      case Ok(p) => Some(p)
      case Err(_) => None
  }

  function Sends(b: Base, now: int, w: Write): seq<L.Action> {
    if b.host.connected && Handed(b, now).Some? then [L.HostSend(Handed(b, now).value, w)] else []
  }

  function StepActions(b: Base, i: TickIn, now: int, w: Write): seq<L.Action> {
    TickActions(b.host, i.(idle := Idle(b))) + [L.HostTake] + Sends(Refill(Prepare(b, i, now, L.RECONNECT)), now, w)
  }

  function CallActions(b: Base, c: BaseCall): seq<L.Action> {
    match c
    case StepCall(i, now, w) => StepActions(b, i, now, w)
    case IngestCall(_, _) => []
    case ResetCall => []
  }

  lemma TrySendHost(b: Base, now: int, w: Write)
    ensures TrySend(b, now, w, L.RECONNECT).host
            == if Handed(b, now).Some? then SendAir(b.host, Handed(b, now).value, w, L.RECONNECT).0 else b.host
    ensures TrySend(b, now, w, L.RECONNECT).session == b.session
  {
    hide SendAir, A.Encode, NextIndex;
  }

  lemma RefillHost(b: Base)
    ensures Refill(b).host == b.host && Refill(b).session == b.session
  {
    hide Rtcm.Valid;
  }

  lemma PrepareHost(b: Base, i: TickIn, now: int)
    ensures var c := Prepare(b, i, now, L.RECONNECT);
      c.host == TakeOutcomes(Tick(b.host, i.(idle := Idle(b)), L.RECONNECT).0) && c.session == c.host.session
  {
    hide Tick, Consume, DropStale;
    var t := Tick(b.host, i.(idle := Idle(b)), L.RECONNECT).0;
    ConsumeKeeps(b.(host := TakeOutcomes(t)), t.outcomes);
  }

  lemma SendsRun(b: Base, now: int, w: Write)
    ensures HostSteps(b.host, Sends(b, now, w))
            == if b.host.connected then TrySend(b, now, w, L.RECONNECT).host else b.host
  {
    hide SendAir, TrySend, Handed;
    TrySendHost(b, now, w);
    if b.host.connected && Handed(b, now).Some? { RunOne(b.host, L.HostSend(Handed(b, now).value, w)); }
  }

  /** A step of the base moves its host as its list of link actions does. */
  lemma StepIsRun(b: Base, i: TickIn, now: int, w: Write)
    ensures var c := Prepare(b, i, now, L.RECONNECT);
      var s := Step(b, i, now, w, L.RECONNECT);
      && HostSteps(b.host, TickActions(b.host, i.(idle := Idle(b))) + [L.HostTake]) == c.host
      && HostSteps(b.host, StepActions(b, i, now, w)) == s.host
      && s.session == c.session == c.host.session
  {
    hide Tick, TickActions, HostSteps, Prepare, Refill, TrySend, Sends, Handed;
    var j := i.(idle := Idle(b));
    var t := Tick(b.host, j, L.RECONNECT).0;
    var c := Prepare(b, i, now, L.RECONNECT);
    PrepareHost(b, i, now);
    TickIsRun(b.host, j);
    HostStepsConcat(b.host, TickActions(b.host, j), [L.HostTake]);
    RunOne(t, L.HostTake);
    RefillHost(c);
    TrySendHost(Refill(c), now, w);
    HostStepsConcat(b.host, TickActions(b.host, j) + [L.HostTake], Sends(Refill(c), now, w));
    SendsRun(Refill(c), now, w);
  }

  lemma CallIsRun(b: Base, c: BaseCall)
    ensures HostSteps(b.host, CallActions(b, c)) == Perform(b, c, L.RECONNECT).host
  {
    hide Step, StepActions;
    match c
    case StepCall(i, now, w) => StepIsRun(b, i, now, w);
    case IngestCall(raws, now) => IngestKeeps(b, raws, now);
    case ResetCall =>
  }

  // ---- what the environment may do, what the code itself makes sure of -----------------

  /** The modem's frames come from the modem, and a new session is fresh. */
  ghost predicate Permits(x: L.System, a: L.Action) {
    && (a.HostFrame? ==> a.f in x.emitted)
    && (L.HostAfter(x.host, a).session != x.host.session ==> L.HostAfter(x.host, a).session !in x.sessions)
  }

  ghost predicate Allowed(x: L.System, run: seq<L.Action>)
    decreases |run|
  {
    run == [] || (Permits(x, run[0]) && Allowed(L.Step(x, run[0]), run[1..]))
  }

  predicate OfHost(a: L.Action) { L.Draws(a) && !L.OfModem(a) }

  lemma {:induction false} AllowedPossible(x: L.System, run: seq<L.Action>)
    requires Allowed(x, run) && forall a <- run :: OfHost(a)
    ensures L.Possible(x, run)
    decreases |run|
  {
    hide L.Step, L.HostAfter, L.Draws;
    if run != [] {
      assert run[0] in run && forall a <- run[1..] :: a in run;
      AllowedPossible(L.Step(x, run[0]), run[1..]);
    }
  }

  lemma {:induction false} FramesOfHost(frames: seq<(Frame, Write)>)
    requires forall x <- frames :: x.1.draw != 0
    ensures forall a <- FrameActions(frames) :: OfHost(a)
    decreases |frames|
  {
    if frames != [] {
      assert frames[0] in frames;
      FramesOfHost(frames[1..]);
    }
  }

  lemma TickOfHost(h: Host, i: TickIn)
    requires Drawn(i)
    ensures forall a <- TickActions(h, i) :: OfHost(a)
  {
    hide OpenPort;
    FramesOfHost(i.frames);
  }

  /** What is handed to `send_air` always fits. */
  lemma HandedFits(b: Base, now: int)
    requires BaseInv(b) && !b.crashed && Handed(b, now).Some?
    ensures |Handed(b, now).value| <= MAX_USB_PAYLOAD
  {
    hide BaseInv, A.Encode, GenuineTry, NextIndex;
    Uplink.Next(b, now - b.fragments[0].at);
  }

  lemma CallOfHost(b: Base, c: BaseCall)
    requires BaseInv(b) && Callable(b, c)
    ensures forall a <- CallActions(b, c) :: OfHost(a)
  {
    hide BaseInv, Prepare, Refill, Handed, TickActions;
    if c.StepCall? {
      TickOfHost(b.host, c.i.(idle := Idle(b)));
      var d := Prepare(b, c.i, c.now, L.RECONNECT);
      PrepareInv(b, c.i, c.now, L.RECONNECT);
      RefillInv(d);
      if Handed(Refill(d), c.now).Some? { HandedFits(Refill(d), c.now); }
    }
  }

  // ---- freshness -----------------------------------------------------------------------

  lemma {:induction false} StepsConcat(x: L.System, a: seq<L.Action>, b: seq<L.Action>)
    ensures L.Steps(x, a + b) == L.Steps(L.Steps(x, a), b)
    ensures L.Possible(x, a + b) <==> L.Possible(x, a) && L.Possible(L.Steps(x, a), b)
    decreases |a|
  {
    hide L.Step, L.Enabled;
    if |a| == 0 {
      assert a + b == b;
    } else {
      assert (a + b)[0] == a[0] && (a + b)[1..] == a[1..] + b;
      StepsConcat(L.Step(x, a[0]), a[1..], b);
    }
  }

  lemma StepsOne(x: L.System, a: L.Action)
    ensures L.Steps(x, [a]) == L.Step(x, a) && (L.Possible(x, [a]) <==> L.Enabled(x, a))
  {
    hide L.Step, L.Enabled;
    assert |[a][1..]| == 0;
  }

  lemma StepHost(x: L.System, a: L.Action)
    requires !L.OfModem(a)
    ensures var y := L.Step(x, a);
      && y.host == L.HostAfter(x.host, a) && x.sessions <= y.sessions && y.host.session in y.sessions
      && y.fw == x.fw && y.emitted == x.emitted && y.air == x.air
  {
    hide L.HostAfter;
  }

  /** A possible host step renews the session with a fresh value. */
  lemma StepRenews(x: L.System, a: L.Action, seen: set<u32>)
    requires L.Enabled(x, a) && seen <= x.sessions
    ensures Renews(x.host, L.HostAfter(x.host, a), seen)
  {
    hide L.HostAfter;
  }

  lemma {:induction false} FramesFresh(x: L.System, frames: seq<(Frame, Write)>, seen: set<u32>)
    requires L.Possible(x, FrameActions(frames)) && seen <= x.sessions
    ensures FreshFrames(x.host, frames, L.RECONNECT, seen)
    ensures var y := L.Steps(x, FrameActions(frames));
      seen <= y.sessions && y.host == OnFrames(x.host, frames, L.RECONNECT)
    decreases |frames|
  {
    hide OnFrame, L.Step;
    if frames != [] {
      var a := L.HostFrame(frames[0].0, frames[0].1);
      assert ([a] + FrameActions(frames[1..]))[1..] == FrameActions(frames[1..]);
      StepHost(x, a);
      StepRenews(x, a, seen);
      FramesFresh(L.Step(x, a), frames[1..], seen);
    }
  }

  lemma OneRenews(x: L.System, a: L.Action, rest: seq<L.Action>, seen: set<u32>)
    requires L.Possible(x, [a] + rest) && seen <= x.sessions && !L.OfModem(a)
    ensures var y := L.Step(x, a);
      && Renews(x.host, y.host, seen) && y.host == L.HostAfter(x.host, a)
      && seen <= y.sessions && L.Possible(y, rest)
  {
    hide L.HostAfter, L.Step, L.Enabled;
    StepsConcat(x, [a], rest);
    StepsOne(x, a);
    StepHost(x, a);
    StepRenews(x, a, seen);
  }

  lemma TickFresh(x: L.System, i: TickIn, seen: set<u32>)
    requires L.Possible(x, TickActions(x.host, i)) && seen <= x.sessions
    ensures FreshTick(x.host, i, L.RECONNECT, seen)
  {
    hide L.Step, L.Steps, L.Possible, OpenPort, OnFrames, Expire, Poll, Disconnect, FreshFrames, Renews;
    var a := OpenPort(x.host, i.at, i.opening, L.RECONNECT);
    var opening := L.HostOpen(i.at, i.opening);
    if !a.connected {
      assert [opening] + [] == [opening];
      OneRenews(x, opening, [], seen);
    } else if !i.readable {
      assert [opening] + [L.HostDrop(i.at)] == [opening, L.HostDrop(i.at)];
      OneRenews(x, opening, [L.HostDrop(i.at)], seen);
    } else {
      var expire, poll := L.HostExpire(i.now, i.timeout), L.HostPoll(i.idle, i.now, i.poll);
      var rest := [expire, poll, L.HostCollect];
      Seqs.Assoc([opening], FrameActions(i.frames), rest);
      OneRenews(x, opening, FrameActions(i.frames) + rest, seen);
      var y := L.Step(x, opening);
      StepsConcat(y, FrameActions(i.frames), rest);
      FramesFresh(y, i.frames, seen);
      var z := L.Steps(y, FrameActions(i.frames));
      assert rest == [expire] + ([poll] + [L.HostCollect]);
      OneRenews(z, expire, [poll] + [L.HostCollect], seen);
      OneRenews(L.Step(z, expire), poll, [L.HostCollect], seen);
    }
  }

  lemma {:induction false} SessionsGrow(x: L.System, run: seq<L.Action>)
    requires (forall a <- run :: !L.OfModem(a)) && x.host.session in x.sessions
    ensures var y := L.Steps(x, run);
      && x.sessions <= y.sessions && y.host.session in y.sessions
      && y.fw == x.fw && y.emitted == x.emitted && y.air == x.air
    decreases |run|
  {
    hide L.Step;
    if run != [] {
      assert run[0] in run && forall a <- run[1..] :: a in run;
      StepHost(x, run[0]);
      SessionsGrow(L.Step(x, run[0]), run[1..]);
    }
  }

  /** A possible run of a step's actions draws fresh sessions, and what it draws is remembered. */
  lemma StepFresh(x: L.System, b: Base, i: TickIn, now: int, w: Write, seen: set<u32>)
    requires x.host == b.host && x.host.session in x.sessions && seen <= x.sessions
    requires BaseInv(b) && Callable(b, StepCall(i, now, w))
    requires L.Possible(x, StepActions(b, i, now, w)) && Prepare(b, i, now, L.RECONNECT).messageId < U32_MAX
    ensures FreshStep(b, i, now, w, L.RECONNECT, seen)
    ensures Seen(seen, Step(b, i, now, w, L.RECONNECT)) <= L.Steps(x, StepActions(b, i, now, w)).sessions
  {
    hide L.Steps, L.Possible, FreshTick, Prepare, Refill, BaseInv, Handed, TickActions, Step, HostSteps;
    var j := i.(idle := Idle(b));
    var tick, take := TickActions(b.host, j), [L.HostTake];
    var c := Prepare(b, i, now, L.RECONNECT);
    var send := Sends(Refill(c), now, w);
    CallOfHost(b, StepCall(i, now, w));
    StepIsRun(b, i, now, w);
    StepsConcat(x, tick + take, send);
    StepsConcat(x, tick, take);
    TickFresh(x, j, seen);
    var y := L.Steps(x, tick + take);
    PartsOfHost(tick + take, send);
    StepsHost(x, tick + take);
    SessionsGrow(x, tick + take);
    StepsHost(x, tick + take + send);
    SessionsGrow(y, send);
    RefillHost(c);
    SendFresh(y, Refill(c), now, w, seen + {c.session});
    StepHostIs(b, i, now, w);
  }

  lemma PartsOfHost(a: seq<L.Action>, b: seq<L.Action>)
    requires forall x <- a + b :: OfHost(x)
    ensures (forall x <- a :: !L.OfModem(x)) && (forall x <- b :: !L.OfModem(x)) && (forall x <- a + b :: !L.OfModem(x))
  {
    hide L.Draws;
    forall x | x in a || x in b
      ensures !L.OfModem(x)
    {
      assert x in a + b;
    }
  }

  lemma StepHostIs(b: Base, i: TickIn, now: int, w: Write)
    ensures var c := Prepare(b, i, now, L.RECONNECT);
      Step(b, i, now, w, L.RECONNECT).host
      == if c.host.connected then TrySend(Refill(c), now, w, L.RECONNECT).host else c.host
  {
    hide Prepare, Refill, TrySend;
  }

  lemma SendFresh(y: L.System, b: Base, now: int, w: Write, seen: set<u32>)
    requires y.host == b.host && L.Possible(y, Sends(b, now, w)) && seen <= y.sessions
    ensures b.host.connected ==> Renews(b.host, TrySend(b, now, w, L.RECONNECT).host, seen)
  {
    hide L.HostAfter, L.Possible, SendAir, TrySend, Handed;
    TrySendHost(b, now, w);
    if b.host.connected && Handed(b, now).Some? {
      var a := L.HostSend(Handed(b, now).value, w);
      StepsOne(y, a);
      StepRenews(y, a, seen);
      SendAfter(b.host, Handed(b, now).value, w);
    }
  }

  lemma SendAfter(h: Host, p: bytes, w: Write)
    ensures L.HostAfter(h, L.HostSend(p, w)) == SendAir(h, p, w, L.RECONNECT).0
  {
    hide SendAir;
  }

  // ---- runs, one call longer ---------------------------------------------------------------

  lemma {:induction false} SeenPrefix(states: seq<Base>, s: Base, k: nat)
    requires k < |states|
    ensures SeenBy(states + [s], k) == SeenBy(states, k)
  {
    hide Seen;
    if k > 0 { SeenPrefix(states, s, k - 1); }
  }

  lemma RunLonger(states: seq<Base>, calls: seq<BaseCall>, c: BaseCall)
    requires IsFreshRun(states, calls, L.RECONNECT)
    requires var b := states[|calls|];
      Callable(b, c)
      && (c.StepCall? ==> FreshStep(b, c.i, c.now, c.w, L.RECONNECT, SeenBy(states, |calls|)))
    ensures IsFreshRun(states + [Perform(states[|calls|], c, L.RECONNECT)], calls + [c], L.RECONNECT)
  {
    hide FreshStep, Perform, Callable, SeenBy;
    var s := Perform(states[|calls|], c, L.RECONNECT);
    var more, all := states + [s], calls + [c];
    forall k | 0 <= k < |all|
      ensures Callable(more[k], all[k]) && more[k + 1] == Perform(more[k], all[k], L.RECONNECT)
      ensures all[k].StepCall? ==>
        FreshStep(more[k], all[k].i, all[k].now, all[k].w, L.RECONNECT, SeenBy(more, k))
    {
      SeenPrefix(states, s, k);
      if k < |calls| { assert all[k] == calls[k] && more[k] == states[k] && more[k + 1] == states[k + 1]; }
    }
  }
}
