/** How the link, the host's calls and the end-to-end account fit together. */
module Airwaves {
  import opened Bytes
  import opened Envelope
  import opened UsbProtocol
  import opened Transport
  import opened Uplink
  import L = Link

  // ---- the air carries writes, in order -------------------------------------------

  /** How many sends were written before position `k`. */
  function SendsBefore(wire: seq<Frame>, k: nat): nat
    requires k <= |wire|
  {
    |WireSends(wire[..k])|
  }

  lemma {:induction false} SendsPrefix(wire: seq<Frame>, k: nat)
    requires k <= |wire|
    ensures WireSends(wire[..k]) <= WireSends(wire)
    decreases |wire|
  {
    if k == |wire| {
      assert wire[..k] == wire;
    } else {
      var n := |wire| - 1;
      assert wire[..n][..k] == wire[..k];
      SendsPrefix(wire[..n], k);
    }
  }

  /** A RADIO_SEND frame is the send of its number. */
  lemma SendAt(wire: seq<Frame>, k: nat)
    requires k < |wire| && wire[k].typ == RADIO_SEND
    ensures SendsBefore(wire, k) < |WireSends(wire)| && WireSends(wire)[SendsBefore(wire, k)] == wire[k].payload
    ensures SendsBefore(wire, k + 1) == SendsBefore(wire, k) + 1
  {
    assert wire[..k + 1] == wire[..k] + [wire[k]];
    WireSendsAppend(wire[..k], wire[k]);
    SendsPrefix(wire, k + 1);
    assert WireSends(wire[..k + 1])[SendsBefore(wire, k)] == wire[k].payload;
  }

  lemma SendsGrow(wire: seq<Frame>, k: nat, l: nat)
    requires k <= l <= |wire|
    ensures SendsBefore(wire, k) <= SendsBefore(wire, l)
  {
    assert wire[..l][..k] == wire[..k];
    SendsPrefix(wire[..l], k);
  }

  /** What the transmissions carry. */
  function Carried(air: seq<L.Tx>): (r: seq<bytes>)
    requires forall t <- air :: 18 <= |t.packet|
    ensures |r| == |air|
    ensures forall i :: 0 <= i < |r| ==> r[i] == Open(air[i].packet).payload
  {
    seq(|air|, i requires 0 <= i < |air| => assert air[i] in air; Open(air[i].packet).payload)
  }

  /** `heard` is `written` at strictly increasing positions. */
  ghost predicate Selected(heard: seq<bytes>, written: seq<bytes>, at: seq<nat>) {
    && |at| == |heard|
    && (forall i :: 0 <= i < |at| ==> at[i] < |written| && written[at[i]] == heard[i])
    && (forall i, j :: 0 <= i < j < |at| ==> at[i] < at[j])
  }

  /**
   Over every possible run of host, modem and wire, the transmissions are, in
   order and each at most once, sends the host has written.
   */
  lemma AirCarriesWrites(
      session: u32, boot: u32, airNext: u32, ready: bool, listening: bool, run: seq<L.Action>)
    requires session != 0 && L.Possible(L.Begin(session, boot, airNext, ready, listening), run)
    ensures var x := L.Steps(L.Begin(session, boot, airNext, ready, listening), run);
      && (forall t <- x.air :: 18 <= |t.packet|)
      && exists at :: Selected(Carried(x.air), WireSends(x.host.wire), at)
  {
    hide L.SysInv, L.Possible, L.Steps, Selected, WireSends;
    var x := L.Steps(L.Begin(session, boot, airNext, ready, listening), run);
    L.BeginInv(session, boot, airNext, ready, listening);
    L.StepsInv(L.Begin(session, boot, airNext, ready, listening), run);
    LogOf(x);
    var at := AirSelects(x.host.wire, x.at, x.air);
  }

  lemma LogOf(x: L.System)
    requires L.SysInv(x)
    ensures L.AirLog(x.host.wire, x.at, x.air)
  {}

  lemma AirSelects(wire: seq<Frame>, last: int, air: seq<L.Tx>) returns (at: seq<nat>)
    requires L.AirLog(wire, last, air)
    ensures forall t <- air :: 18 <= |t.packet|
    ensures Selected(Carried(air), WireSends(wire), at)
  {
    assert forall t <- air :: 18 <= |t.packet|;
    hide WireSends, SendsBefore, ReceivedWell;
    at := [];
    for n := 0 to |air|
      invariant |at| == n && forall i :: 0 <= i < n ==> air[i].at < |wire| && at[i] == SendsBefore(wire, air[i].at)
    {
      at := at + [SendsBefore(wire, air[n].at)];
    }
    forall i | 0 <= i < |at|
      ensures at[i] < |WireSends(wire)| && WireSends(wire)[at[i]] == Carried(air)[i]
    {
      SendAt(wire, air[i].at);
    }
    forall i, j | 0 <= i < j < |at|
      ensures at[i] < at[j]
    {
      SendAt(wire, air[i].at);
      SendsGrow(wire, air[i].at + 1, air[j].at);
    }
  }

  // ---- a tick is a run of host steps --------------------------------------------------

  function FrameActions(frames: seq<(Frame, Write)>): (r: seq<L.Action>)
    decreases |frames|
  {
    if frames == [] then [] else [L.HostFrame(frames[0].0, frames[0].1)] + FrameActions(frames[1..])
  }

  /** The host's steps in one tick. */
  function TickActions(h: Host, i: TickIn): seq<L.Action> {
    var a := OpenPort(h, i.at, i.opening, L.RECONNECT);
    if !a.connected then [L.HostOpen(i.at, i.opening)]
    else if !i.readable then [L.HostOpen(i.at, i.opening), L.HostDrop(i.at)]
    else [L.HostOpen(i.at, i.opening)] + FrameActions(i.frames)
         + [L.HostExpire(i.now, i.timeout), L.HostPoll(i.idle, i.now, i.poll), L.HostCollect]
  }

  function HostSteps(h: Host, run: seq<L.Action>): Host
    decreases |run|
  {
    if run == [] then h else HostSteps(L.HostAfter(h, run[0]), run[1..])
  }

  lemma {:induction false} HostStepsConcat(h: Host, a: seq<L.Action>, b: seq<L.Action>)
    ensures HostSteps(h, a + b) == HostSteps(HostSteps(h, a), b)
    decreases |a|
  {
    hide L.HostAfter;
    if |a| == 0 {
      assert a + b == b;
    } else {
      assert (a + b)[0] == a[0] && (a + b)[1..] == a[1..] + b;
      HostStepsConcat(L.HostAfter(h, a[0]), a[1..], b);
    }
  }

  lemma {:induction false} FramesRun(h: Host, frames: seq<(Frame, Write)>)
    ensures HostSteps(h, FrameActions(frames)) == OnFrames(h, frames, L.RECONNECT)
    decreases |frames|
  {
    hide OnFrame;
    if frames != [] {
      var a := L.HostFrame(frames[0].0, frames[0].1);
      assert ([a] + FrameActions(frames[1..]))[1..] == FrameActions(frames[1..]);
      FramesRun(OnFrame(h, frames[0].0, frames[0].1, L.RECONNECT), frames[1..]);
    }
  }

  lemma RunOne(h: Host, a: L.Action)
    ensures HostSteps(h, [a]) == L.HostAfter(h, a)
  {
    hide L.HostAfter;
    assert |[a][1..]| == 0;
  }

  /** What the link says of single steps it says of ticks: a tick is a run of them. */
  lemma TickIsRun(h: Host, i: TickIn)
    ensures HostSteps(h, TickActions(h, i)) == Tick(h, i, L.RECONNECT).0
  {
    hide OpenPort, Disconnect, OnFrames, Expire, Poll, HostSteps;
    var opening := L.HostOpen(i.at, i.opening);
    var a := OpenPort(h, i.at, i.opening, L.RECONNECT);
    RunOne(h, opening);
    if a.connected && !i.readable {
      HostStepsConcat(h, [opening], [L.HostDrop(i.at)]);
      RunOne(a, L.HostDrop(i.at));
      assert [opening] + [L.HostDrop(i.at)] == [opening, L.HostDrop(i.at)];
    } else if a.connected {
      var expire, poll := L.HostExpire(i.now, i.timeout), L.HostPoll(i.idle, i.now, i.poll);
      var b := OnFrames(a, i.frames, L.RECONNECT);
      var c := Expire(b, i.now, i.timeout, L.RECONNECT);
      HostStepsConcat(h, [opening], FrameActions(i.frames));
      FramesRun(a, i.frames);
      HostStepsConcat(h, [opening] + FrameActions(i.frames), [expire, poll, L.HostCollect]);
      HostStepsConcat(b, [expire], [poll] + [L.HostCollect]);
      HostStepsConcat(c, [poll], [L.HostCollect]);
      RunOne(b, expire);
      RunOne(c, poll);
      RunOne(Poll(c, i.idle, i.now, i.poll, L.RECONNECT), L.HostCollect);
      assert [expire] + ([poll] + [L.HostCollect]) == [expire, poll, L.HostCollect];
    }
  }

  /** In the whole system, a run of host steps takes the host where it would go alone. */
  lemma {:induction false} StepsHost(x: L.System, run: seq<L.Action>)
    requires forall a <- run :: !L.OfModem(a)
    ensures L.Steps(x, run).host == HostSteps(x.host, run)
    decreases |run|
  {
    hide L.HostAfter;
    if run != [] {
      assert run[0] in run && forall a <- run[1..] :: a in run;
      StepsHost(L.Step(x, run[0]), run[1..]);
    }
  }
}
