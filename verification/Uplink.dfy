/** In what order, and under which keys, the base's fragments reach the wire when sessions are fresh. */
module Uplink {
  import opened Bytes
  import opened Wrappers
  import opened Envelope
  import opened UsbProtocol
  import opened Transport
  import opened OrderedDict
  import opened BaseService
  import A = Application
  import Rtcm
  import Seqs

  // ---- the transport adds no send of its own -----------------------------------

  /** The payloads of the RADIO_SEND frames, in order. */
  function WireSends(wire: seq<Frame>): seq<bytes>
    decreases |wire|
  {
    if wire == [] then []
    else
      var f := wire[|wire| - 1];
      WireSends(wire[..|wire| - 1]) + if f.typ == RADIO_SEND then [f.payload] else []
  }

  lemma WireSendsAppend(wire: seq<Frame>, f: Frame)
    ensures WireSends(wire + [f]) == if f.typ == RADIO_SEND then WireSends(wire) + [f.payload] else WireSends(wire)
  {
    assert (wire + [f])[..|wire|] == wire;
    Seqs.Units(WireSends(wire));
  }

  /** No send is written, and the port is not opened. */
  predicate Still(h: Host, t: Host) {
    WireSends(t.wire) == WireSends(h.wire) && (t.connected ==> h.connected)
  }

  lemma IssueStill(h: Host, typ: byte, payload: bytes, w: Write, reconnect: int)
    requires typ != RADIO_SEND
    ensures Still(h, Issue(h, typ, payload, w, reconnect).0)
  {
    hide Settle;
    if h.sequence < U32_MAX { WireSendsAppend(h.wire, Sealed(typ, h.session, h.sequence + 1, payload)); }
  }

  lemma RestartStill(h: Host, w: Write, reconnect: int)
    ensures Still(h, Restart(h, w, reconnect))
  {
    hide Issue, WireSends, Settle;
    var mid := Abandoned(h, w.draw);
    IssueStill(mid, HELLO, [], w, reconnect);
  }

  lemma OpenMoves(h: Host, now: int, o: Opening, reconnect: int)
    ensures var t := OpenPort(h, now, o, reconnect);
      WireSends(t.wire) == WireSends(h.wire) && (t.connected && !h.connected ==> t.session != h.session)
  {
    hide WireSends, Settle;
    var mid := BeginFresh(h.(connected := true, pending := Dict([], map[])), o.w.draw);
    IssueStill(mid, HELLO, [], o.w, reconnect);
  }

  lemma FrameStill(h: Host, f: Frame, w: Write, reconnect: int)
    ensures Still(h, OnFrame(h, f, w, reconnect))
  {
    hide Restart, WireSends, ParseRadioRx;
    RestartStill(h, w, reconnect);
    if f.second in h.pending.vals {
      var typ := h.pending.vals[f.second].typ;
      var mid := h.(pending := h.pending.Del(f.second),
                    outcomes := h.outcomes + if typ == RADIO_SEND then [(f.second, Failed)] else []);
      RestartStill(mid, w, reconnect);
    }
  }

  lemma {:induction false} TimeoutsStill(h: Host, order: seq<u32>, now: int, w: Write, reconnect: int)
    ensures Still(h, Timeouts(h, order, now, w, reconnect))
    decreases |order|
  {
    hide Restart, WireSends, TrimTombs;
    if order != [] {
      var s := order[0];
      if s !in h.pending.vals || now - h.pending.vals[s].started <= RESPONSE_MS {
        TimeoutsStill(h, order[1..], now, w, reconnect);
      } else {
        var t := h.(pending := h.pending.Del(s));
        var u := if h.pending.vals[s].typ == RADIO_SEND
                 then t.(tombs := TrimTombs(t.tombs.Set(s, now)), outcomes := t.outcomes + [(s, Uncertain)]) else t;
        RestartStill(t, w, reconnect);
        TimeoutsStill(u, order[1..], now, w, reconnect);
      }
    }
  }

  lemma ExpireStill(h: Host, now: int, w: Write, reconnect: int)
    ensures Still(h, Expire(h, now, w, reconnect))
  {
    hide Timeouts, WireSends, ExpireTombs;
    TimeoutsStill(h.(tombs := ExpireTombs(h.tombs, now)), h.pending.order, now, w, reconnect);
  }

  lemma PollStill(h: Host, idle: bool, now: int, w: Write, reconnect: int)
    ensures Still(h, Poll(h, idle, now, w, reconnect))
  {
    hide Restart, Issue, WireSends;
    RestartStill(h, w, reconnect);
    IssueStill(h.(lastDiagnostics := now), GET_DIAGNOSTICS, [], w, reconnect);
  }

  // ---- fresh sessions ---------------------------------------------------------------

  /** A session left behind is replaced by one not seen before. */
  predicate Renews(h: Host, t: Host, seen: set<u32>) { t.session == h.session || t.session !in seen }

  ghost predicate FreshFrames(h: Host, frames: seq<(Frame, Write)>, reconnect: int, seen: set<u32>)
    decreases |frames|
  {
    frames == [] || (
      var t := OnFrame(h, frames[0].0, frames[0].1, reconnect);
      Renews(h, t, seen) && FreshFrames(t, frames[1..], reconnect, seen))
  }

  /** Every session drawn during the tick is fresh. */
  ghost predicate FreshTick(h: Host, i: TickIn, reconnect: int, seen: set<u32>) {
    var a := OpenPort(h, i.at, i.opening, reconnect);
    && Renews(h, a, seen)
    && (a.connected && i.readable ==>
          var b := OnFrames(a, i.frames, reconnect);
          var c := Expire(b, i.now, i.timeout, reconnect);
          && FreshFrames(a, i.frames, reconnect, seen) && Renews(b, c, seen)
          && Renews(c, Poll(c, i.idle, i.now, i.poll, reconnect), seen))
  }

  /** No send is written; a new session is fresh, and so is the session of a port newly opened. */
  ghost predicate Moves(h: Host, t: Host, seen: set<u32>) {
    && WireSends(t.wire) == WireSends(h.wire) && Renews(h, t, seen)
    && (t.connected && !h.connected ==> t.session !in seen)
  }

  lemma MovesTwice(a: Host, b: Host, c: Host, seen: set<u32>)
    requires Moves(a, b, seen) && Moves(b, c, seen)
    ensures Moves(a, c, seen)
  {
    hide WireSends;
  }

  lemma {:induction false} FramesMove(h: Host, frames: seq<(Frame, Write)>, reconnect: int, seen: set<u32>)
    requires FreshFrames(h, frames, reconnect, seen)
    ensures Moves(h, OnFrames(h, frames, reconnect), seen)
    decreases |frames|
  {
    hide OnFrame, WireSends;
    if frames != [] {
      var t := OnFrame(h, frames[0].0, frames[0].1, reconnect);
      FrameStill(h, frames[0].0, frames[0].1, reconnect);
      FramesMove(t, frames[1..], reconnect, seen);
      MovesTwice(h, t, OnFrames(t, frames[1..], reconnect), seen);
    }
  }

  lemma TickMoves(h: Host, i: TickIn, reconnect: int, seen: set<u32>)
    requires FreshTick(h, i, reconnect, seen)
    ensures Moves(h, Tick(h, i, reconnect).0, seen)
  {
    hide OpenPort, OnFrames, Expire, Poll, WireSends, FreshFrames;
    var a := OpenPort(h, i.at, i.opening, reconnect);
    OpenMoves(h, i.at, i.opening, reconnect);
    if a.connected && i.readable {
      var b := OnFrames(a, i.frames, reconnect);
      FramesMove(a, i.frames, reconnect, seen);
      MovesTwice(h, a, b, seen);
      var c := Expire(b, i.now, i.timeout, reconnect);
      ExpireStill(b, i.now, i.timeout, reconnect);
      MovesTwice(h, b, c, seen);
      var d := Poll(c, i.idle, i.now, i.poll, reconnect);
      PollStill(c, i.idle, i.now, i.poll, reconnect);
      MovesTwice(h, c, d, seen);
    }
  }

  // ---- the trail of fragments written --------------------------------------------------

  predicate Before(a: Try, message: int, index: int) {
    a.message < message || (a.message == message && a.index < index)
  }

  /** The payload is that piece of that message, encoded. */
  ghost predicate GenuineTry(messages: seq<Message>, t: Try) {
    && t.message < |messages|
    && var m := messages[t.message];
    && Sound(m) && t.index < A.Pieces(|m.raw|)
    && exists age: u16 :: age < A.TTL_MS && A.Encode(A.FragmentAt(m.raw, m.key, age, t.index)) == Ok(t.payload)
  }

  function Payloads(tried: seq<Try>): (r: seq<bytes>)
    ensures |r| == |tried|
    ensures forall i :: 0 <= i < |r| ==> r[i] == tried[i].payload
  {
    seq(|tried|, i requires 0 <= i < |tried| => tried[i].payload)
  }

  ghost predicate Trail(messages: seq<Message>, tried: seq<Try>) {
    && (forall i :: 0 <= i < |tried| ==> GenuineTry(messages, tried[i]))
    && (forall i, j :: 0 <= i < j < |tried| ==> Before(tried[i], tried[j].message, tried[j].index))
  }

  /** The next waiting fragment has not been written, or it has and can never be again. */
  predicate Armed(b: Base) {
    b.fragments == [] || |b.tried| == 0
    || Before(b.tried[|b.tried| - 1], |b.messages| - 1, NextIndex(b))
  }

  predicate Blocked(b: Base) { !(b.host.connected && b.host.session == b.session) }

  /** Keys in use: below the current id in the current session, and none in a session not yet adopted. */
  ghost predicate Keys(messages: seq<Message>, session: u32, messageId: u32, next: u32, seen: set<u32>) {
    && (forall m <- messages :: m.key.session in seen)
    && (forall m <- messages :: m.key.session == session ==> m.key.id <= messageId)
    && (next != session ==> forall m <- messages :: m.key.session != next)
    && (forall i, j :: 0 <= i < j < |messages| ==> messages[i].key != messages[j].key)
  }

  ghost predicate UpInv(b: Base, seen: set<u32>) {
    && BaseInv(b)
    && b.session in seen && b.host.session in seen
    && Trail(b.messages, b.tried) && WireSends(b.host.wire) == Payloads(b.tried)
    && (b.crashed || Armed(b) || Blocked(b))
    && Keys(b.messages, b.session, b.messageId, b.host.session, seen)
  }

  function Seen(seen: set<u32>, b: Base): set<u32> { seen + {b.session, b.host.session} }

  /** Nothing a fresh tick does brings a blocked fragment back. */
  lemma PrepareUp(b: Base, i: TickIn, now: int, reconnect: int, seen: set<u32>)
    requires UpInv(b, seen) && !b.crashed && Drawn(i) && FreshTick(b.host, i.(idle := Idle(b)), reconnect, seen)
    ensures var c := Prepare(b, i, now, reconnect);
      && BaseInv(c) && !c.crashed && c.session == c.host.session && c.messages == b.messages && c.tried == b.tried
      && WireSends(c.host.wire) == Payloads(c.tried)
      && (c.host.connected ==> Armed(c))
      && (Armed(c) || Blocked(c))
      && Keys(c.messages, c.session, c.messageId, c.session, seen)
  {
    hide Tick, Consume, BaseInv, FreshTick, WireSends, DropStale, Trail;
    var j := i.(idle := Idle(b));
    var t := Tick(b.host, j, reconnect).0;
    PrepareInv(b, i, now, reconnect);
    TickMoves(b.host, j, reconnect, seen);
    var d := b.(host := TakeOutcomes(t));
    var e := Consume(d, t.outcomes);
    ConsumeKeeps(d, t.outcomes);
    ConsumeId(d, t.outcomes);
  }

  lemma {:induction false} ConsumeId(b: Base, outcomes: seq<(u32, Outcome)>)
    ensures Consume(b, outcomes).messageId == b.messageId
    decreases |outcomes|
  {
    if outcomes != [] { ConsumeId(ConsumeOne(b, outcomes[0]), outcomes[1..]); }
  }

  lemma TrailGrows(messages: seq<Message>, m: Message, tried: seq<Try>)
    requires Trail(messages, tried)
    ensures Trail(messages + [m], tried)
    ensures forall i :: 0 <= i < |tried| ==> Before(tried[i], |messages|, 0)
  {
    hide A.FragmentAt, A.Encode, Sound;
    forall i | 0 <= i < |tried|
      ensures GenuineTry(messages + [m], tried[i]) && Before(tried[i], |messages|, 0)
    {
      assert GenuineTry(messages, tried[i]);
    }
  }

  lemma RefillUp(b: Base, seen: set<u32>)
    requires BaseInv(b) && !b.crashed && b.session == b.host.session && Trail(b.messages, b.tried) && Armed(b)
    requires b.messageId < U32_MAX && Keys(b.messages, b.session, b.messageId, b.session, seen)
    ensures var c := Refill(b);
      && BaseInv(c) && !c.crashed && c.session == b.session && c.host == b.host && c.tried == b.tried
      && Trail(c.messages, c.tried) && Armed(c)
      && Keys(c.messages, c.session, c.messageId, c.session, seen + {b.session})
  {
    hide BaseInv, A.FragmentAt, Rtcm.Valid, Trail;
    RefillInv(b);
    if b.fragments == [] && b.queue != [] {
      var m := Message(b.queue[0].raw, A.Key(b.session, b.messageId + 1), b.queue[0].number);
      TrailGrows(b.messages, m, b.tried);
    }
  }

  /**
   The counter wraps within a session, so a new message's key is its own exactly
   unless the counter is at its end and the session's first key was used.
   */
  lemma WrapReusesKey(b: Base, seen: set<u32>)
    requires Keys(b.messages, b.session, b.messageId, b.session, seen)
    requires b.fragments == [] && b.queue != [] && Rtcm.Valid(b.queue[0].raw) && |b.queue[0].raw| <= Rtcm.MAX_FRAME
    ensures var c := Refill(b);
      (forall i, j :: 0 <= i < j < |c.messages| ==> c.messages[i].key != c.messages[j].key)
      <==> (b.messageId < U32_MAX || forall m <- b.messages :: m.key != A.Key(b.session, 1))
  {
    hide Rtcm.Valid;
    var c := Refill(b);
    var n := |b.messages|;
    assert c.messages[n].key == A.Key(b.session, if b.messageId == U32_MAX then 1 else b.messageId + 1);
    if m :| m in b.messages && m.key == A.Key(b.session, 1) {
      var i :| 0 <= i < n && b.messages[i] == m;
      assert c.messages[i] == m;
    }
  }

  lemma TrailTry(messages: seq<Message>, tried: seq<Try>, t: Try)
    requires Trail(messages, tried) && GenuineTry(messages, t)
    requires |tried| == 0 || Before(tried[|tried| - 1], t.message, t.index)
    ensures Trail(messages, tried + [t])
  {
    hide GenuineTry;
  }

  lemma TrySendUp(b: Base, now: int, w: Write, reconnect: int, seen: set<u32>)
    requires BaseInv(b) && !b.crashed && b.session == b.host.session && w.draw != 0
    requires Trail(b.messages, b.tried) && Armed(b) && WireSends(b.host.wire) == Payloads(b.tried)
    requires Keys(b.messages, b.session, b.messageId, b.session, seen) && b.session in seen
    requires Renews(b.host, TrySend(b, now, w, reconnect).host, seen)
    ensures UpInv(TrySend(b, now, w, reconnect), Seen(seen, TrySend(b, now, w, reconnect)))
    ensures TrySend(b, now, w, reconnect).session == b.session
  {
    hide BaseInv, SendAir, Trail, WireSends, A.Encode, NextIndex, GenuineTry;
    TrySendInv(b, now, w, reconnect);
    var c := TrySend(b, now, w, reconnect);
    if b.inFlight.None? && b.fragments != [] && Ready(b.host) && 0 <= now - b.fragments[0].at < A.TTL_MS {
      var age := now - b.fragments[0].at;
      Next(b, age);
      var encoded := A.Encode(b.fragments[0].frame.(age := age)).value;
      var (t, r) := SendAir(b.host, encoded, w, reconnect);
      Written(b.host, encoded, w, reconnect);
      var y := Try(|b.messages| - 1, NextIndex(b), encoded);
      if b.host.sequence < U32_MAX {
        TrailTry(b.messages, b.tried, y);
        assert Payloads(b.tried + [y]) == Payloads(b.tried) + [encoded];
        if r.Accepted? { NextAfter(b, c); }
      } else {
        SameNext(b, c);
      }
    }
  }

  /** The next waiting fragment, encoded, is a genuine try. */
  lemma Next(b: Base, age: u16)
    requires BaseInv(b) && !b.crashed && b.fragments != [] && age < A.TTL_MS
    ensures b.messages != [] && A.Encode(b.fragments[0].frame.(age := age)).Ok?
    ensures |A.Encode(b.fragments[0].frame.(age := age)).value| <= A.MAX_FRAME
    ensures GenuineTry(b.messages,
      Try(|b.messages| - 1, NextIndex(b), A.Encode(b.fragments[0].frame.(age := age)).value))
  {
    hide A.FragmentAt, A.Encode, NextIndex, Waiting, LogInv, Agrees, Rtcm.Valid, Sound;
    WaitingEncodes(b, age);
    WaitingSound(b);
  }

  lemma NextAfter(b: Base, c: Base)
    requires BaseInv(b) && !b.crashed && b.fragments != [] && c.fragments == b.fragments[1..]
      && c.messages == b.messages
    ensures c.fragments != [] ==> NextIndex(c) == NextIndex(b) + 1
  {
    hide A.FragmentAt;
  }

  lemma SameNext(b: Base, c: Base)
    requires c.fragments == b.fragments && c.messages == b.messages
    ensures NextIndex(c) == NextIndex(b)
  {}

  /** What `send_air` writes, and that after a failure the session or the connection is gone. */
  lemma Written(h: Host, payload: bytes, w: Write, reconnect: int)
    requires Ready(h) && |payload| <= MAX_USB_PAYLOAD && w.draw != 0
    ensures var (t, r) := SendAir(h, payload, w, reconnect);
      && WireSends(t.wire) == (if h.sequence < U32_MAX then WireSends(h.wire) + [payload] else WireSends(h.wire))
      && (r.Accepted? ==> h.sequence < U32_MAX && t.session == h.session)
      && (!r.Accepted? ==> !t.connected || t.session != h.session)
  {
    hide WireSends, Settle;
    if h.sequence < U32_MAX {
      WireSendsAppend(h.wire, Sealed(RADIO_SEND, h.session, h.sequence + 1, payload));
    } else {
      RestartStill(h, w, reconnect);
    }
  }

  /** A refused send has written nothing exactly if the transport was not ready or the sequence was used up. */
  lemma RefusedUnwritten(h: Host, payload: bytes, w: Write, reconnect: int)
    requires |payload| <= MAX_USB_PAYLOAD && w.draw != 0 && !SendAir(h, payload, w, reconnect).1.Accepted?
    ensures WireSends(SendAir(h, payload, w, reconnect).0.wire) == WireSends(h.wire)
            <==> !Ready(h) || h.sequence == U32_MAX
  {
    hide WireSends, Issue, Restart;
    if Ready(h) { Written(h, payload, w, reconnect); }
    assert |WireSends(h.wire) + [payload]| != |WireSends(h.wire)|;
  }

  /** Every session drawn during the step is fresh, and the message counter does not wrap. */
  ghost predicate FreshStep(b: Base, i: TickIn, now: int, w: Write, reconnect: int, seen: set<u32>)
  {
    && FreshTick(b.host, i.(idle := Idle(b)), reconnect, seen)
    && var c := Prepare(b, i, now, reconnect);
    && c.messageId < U32_MAX
    && Renews(c.host, Step(b, i, now, w, reconnect).host, seen + {c.session})
  }

  lemma StepUp(b: Base, i: TickIn, now: int, w: Write, reconnect: int, seen: set<u32>)
    requires UpInv(b, seen) && !b.crashed && Drawn(i) && w.draw != 0 && FreshStep(b, i, now, w, reconnect, seen)
    ensures UpInv(Step(b, i, now, w, reconnect), Seen(seen, Step(b, i, now, w, reconnect)))
  {
    hide BaseInv, Prepare, Refill, TrySend, Trail, WireSends, FreshTick, Armed, Keys;
    var c := Prepare(b, i, now, reconnect);
    PrepareUp(b, i, now, reconnect, seen);
    if c.host.connected {
      RefillUp(c, seen);
      TrySendUp(Refill(c), now, w, reconnect, seen + {c.session});
      assert Seen(seen + {c.session}, Step(b, i, now, w, reconnect)) == Seen(seen, Step(b, i, now, w, reconnect));
    } else {
      KeysMore(c.messages, c.session, c.messageId, c.session, seen, Seen(seen, c));
    }
  }

  lemma KeysMore(messages: seq<Message>, session: u32, messageId: u32, next: u32, seen: set<u32>, more: set<u32>)
    requires Keys(messages, session, messageId, next, seen) && seen <= more
    ensures Keys(messages, session, messageId, next, more)
  {}

  // ---- numbering -------------------------------------------------------------------

  /** Messages, then queued frames, are ingested frames in their order of arrival. */
  ghost predicate Numbered(ingested: seq<bytes>, messages: seq<Message>, queue: seq<Arrival>) {
    && (forall m <- messages :: m.number < |ingested| && ingested[m.number] == m.raw)
    && (forall a <- queue :: a.number < |ingested| && ingested[a.number] == a.raw)
    && (forall i, j :: 0 <= i < j < |messages| ==> messages[i].number < messages[j].number)
    && (forall i, j :: 0 <= i < j < |queue| ==> queue[i].number < queue[j].number)
    && (forall m <- messages, a <- queue :: m.number < a.number)
  }

  lemma {:induction false} StaleSuffix(queue: seq<Arrival>, now: int) returns (k: nat)
    ensures k <= |queue| && DropStale(queue, now) == queue[k..]
    decreases |queue|
  {
    if queue != [] && now - queue[0].at > FRESH_MS {
      k := StaleSuffix(queue[1..], now);
      assert queue[1..][k..] == queue[k + 1..];
      k := k + 1;
    } else {
      k := 0;
      assert queue[0..] == queue;
    }
  }

  lemma NumberedSuffix(ingested: seq<bytes>, messages: seq<Message>, queue: seq<Arrival>, k: nat)
    requires Numbered(ingested, messages, queue) && k <= |queue|
    ensures Numbered(ingested, messages, queue[k..])
  {}

  lemma PrepareNumbered(b: Base, i: TickIn, now: int, reconnect: int)
    requires Numbered(b.ingested, b.messages, b.queue)
    ensures var c := Prepare(b, i, now, reconnect); Numbered(c.ingested, c.messages, c.queue)
  {
    hide Tick, Consume, Numbered, DropStale;
    var t := Tick(b.host, i.(idle := Idle(b)), reconnect).0;
    ConsumeKeeps(b.(host := TakeOutcomes(t)), t.outcomes);
    var k := StaleSuffix(b.queue, now);
    NumberedSuffix(b.ingested, b.messages, b.queue, k);
  }

  lemma RefillNumbered(b: Base)
    requires Numbered(b.ingested, b.messages, b.queue)
    ensures var c := Refill(b); Numbered(c.ingested, c.messages, c.queue)
  {
    hide Rtcm.Valid;
    if b.queue != [] {
      assert b.queue[0] in b.queue;
      NumberedSuffix(b.ingested, b.messages, b.queue, 1);
    }
  }

  lemma StepNumbered(b: Base, i: TickIn, now: int, w: Write, reconnect: int)
    requires Numbered(b.ingested, b.messages, b.queue)
    ensures var c := Step(b, i, now, w, reconnect); Numbered(c.ingested, c.messages, c.queue)
  {
    hide Prepare, Refill, Numbered, SendAir, A.Encode, NextIndex;
    PrepareNumbered(b, i, now, reconnect);
    RefillNumbered(Prepare(b, i, now, reconnect));
  }

  lemma {:induction false} IngestNumbered(b: Base, raws: seq<bytes>, now: int)
    requires Numbered(b.ingested, b.messages, b.queue)
    ensures var c := Ingest(b, raws, now); Numbered(c.ingested, c.messages, c.queue)
    decreases |raws|
  {
    if raws != [] {
      var q := b.queue + [Arrival(raws[0], now, |b.ingested|)];
      assert Numbered(b.ingested + [raws[0]], b.messages, q);
      NumberedSuffix(b.ingested + [raws[0]], b.messages, q, 1);
      hide Numbered;
      IngestNumbered(IngestOne(b, raws[0], now), raws[1..], now);
    }
  }

  // ---- whole runs --------------------------------------------------------------------

  /** The sessions in use up to state `k`. */
  function SeenBy(states: seq<Base>, k: nat): set<u32>
    requires k < |states|
  {
    if k == 0 then {states[0].session, states[0].host.session} else Seen(SeenBy(states, k - 1), states[k])
  }

  /** A run in which every session drawn is fresh and no message counter wraps. */
  ghost predicate IsFreshRun(states: seq<Base>, calls: seq<BaseCall>, reconnect: int) {
    && IsRun(states, calls, reconnect)
    && forall k :: 0 <= k < |calls| && calls[k].StepCall? ==>
         FreshStep(states[k], calls[k].i, calls[k].now, calls[k].w, reconnect, SeenBy(states, k))
  }

  lemma PerformUp(b: Base, c: BaseCall, reconnect: int, seen: set<u32>)
    requires UpInv(b, seen) && Callable(b, c)
    requires c.StepCall? ==> FreshStep(b, c.i, c.now, c.w, reconnect, seen)
    ensures UpInv(Perform(b, c, reconnect), Seen(seen, Perform(b, c, reconnect)))
  {
    hide BaseInv, Step, FreshStep, Trail, WireSends, Keys, NextIndex;
    var d := Perform(b, c, reconnect);
    PerformInv(b, c, reconnect);
    match c {
      case StepCall(i, now, w) => StepUp(b, i, now, w, reconnect, seen);
      case IngestCall(raws, now) =>
        IngestKeeps(b, raws, now);
        SameNext(b, d);
        KeysMore(b.messages, b.session, b.messageId, b.host.session, seen, Seen(seen, d));
      case ResetCall => KeysMore(b.messages, b.session, b.messageId, b.host.session, seen, Seen(seen, d));
    }
  }

  lemma PerformNumbered(b: Base, c: BaseCall, reconnect: int)
    requires Numbered(b.ingested, b.messages, b.queue) && Callable(b, c)
    ensures var d := Perform(b, c, reconnect); Numbered(d.ingested, d.messages, d.queue)
  {
    hide Step;
    match c
    case StepCall(i, now, w) => StepNumbered(b, i, now, w, reconnect);
    case IngestCall(raws, now) => IngestNumbered(b, raws, now);
    case ResetCall =>
  }

  lemma {:induction false} RunUp(session: u32, states: seq<Base>, calls: seq<BaseCall>, reconnect: int, k: nat)
    requires session != 0 && IsFreshRun(states, calls, reconnect) && states[0] == Begin(session) && k < |states|
    ensures UpInv(states[k], SeenBy(states, k))
    ensures Numbered(states[k].ingested, states[k].messages, states[k].queue)
  {
    hide UpInv, Numbered, Perform, Callable, FreshStep, Seen;
    if k == 0 {
      BeginUp(session);
    } else {
      RunUp(session, states, calls, reconnect, k - 1);
      PerformUp(states[k - 1], calls[k - 1], reconnect, SeenBy(states, k - 1));
      PerformNumbered(states[k - 1], calls[k - 1], reconnect);
    }
  }

  lemma BeginUp(session: u32)
    requires session != 0
    ensures UpInv(Begin(session), {Begin(session).session, Begin(session).host.session}) && Numbered([], [], [])
  {
    BeginInv(session);
  }

  /**
   What the base has put on the wire at any time: pieces of ingested frames, each
   at most once, message by message and piece by piece in order, under keys no two
   messages share.
   */
  lemma WireOrder(session: u32, states: seq<Base>, calls: seq<BaseCall>, reconnect: int, k: nat)
    requires session != 0 && IsFreshRun(states, calls, reconnect) && states[0] == Begin(session) && k < |states|
    ensures var b := states[k];
      && WireSends(b.host.wire) == Payloads(b.tried) && Trail(b.messages, b.tried)
      && (forall i, j :: 0 <= i < j < |b.messages| ==> b.messages[i].key != b.messages[j].key)
      && (forall m <- b.messages :: m.number < |b.ingested| && b.ingested[m.number] == m.raw)
      && (forall i, j :: 0 <= i < j < |b.messages| ==> b.messages[i].number < b.messages[j].number)
  {
    hide BaseInv, Trail, WireSends, IsFreshRun, Armed;
    RunUp(session, states, calls, reconnect, k);
  }
}
