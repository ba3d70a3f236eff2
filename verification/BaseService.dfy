/** The base station's scheduler: frames in, fragments out, one outstanding send. */
module BaseService {
  import opened Bytes
  import opened Wrappers
  import opened UsbProtocol
  import opened Transport
  import opened OrderedDict
  import A = Application
  import Rtcm
  import Seqs

  const MAX_QUEUED: nat := 128
  const FRESH_MS: int := 800

  /** `number` counts all frames ever ingested. */
  datatype Arrival = Arrival(raw: bytes, at: int, number: nat)

  datatype Unsent = Unsent(frame: A.Frame, at: int)

  /** One ingested frame cut into fragments under one key. */
  datatype Message = Message(raw: bytes, key: A.Key, number: nat)

  /** A fragment the transport accepted: of which message, which piece, and what became of it. */
  datatype Accept = Accept(message: nat, index: nat, frame: A.Frame, sequence: u32, outcome: Option<Outcome>)

  /** A fragment written to the modem, whether or not the whole write succeeded. */
  datatype Try = Try(message: nat, index: nat, payload: bytes)

  /**
   `unexpected` is the metric of that name; `crashed` says that the step raised. The
   last four fields remember what was ingested, cut, accepted and written.
   */
  datatype Base = Base(
    host: Host, queue: seq<Arrival>, fragments: seq<Unsent>, inFlight: Option<u32>, session: u32, messageId: u32,
    unexpected: nat, crashed: bool,
    ingested: seq<bytes>, messages: seq<Message>, log: seq<Accept>, tried: seq<Try>)

  // ---- ingress ---------------------------------------------------------------

  function IngestOne(b: Base, raw: bytes, now: int): Base {
    var q := b.queue + [Arrival(raw, now, |b.ingested|)];
    b.(queue := if |q| > MAX_QUEUED then q[1..] else q, ingested := b.ingested + [raw])
  }

  function Ingest(b: Base, raws: seq<bytes>, now: int): Base
    decreases |raws|
  {
    if raws == [] then b else Ingest(IngestOne(b, raws[0], now), raws[1..], now)
  }

  function ResetSource(b: Base): Base { b.(queue := [], fragments := []) }

  // ---- one step --------------------------------------------------------------

  predicate Idle(b: Base) { b.queue == [] && b.fragments == [] && b.inFlight.None? }

  function Noted(log: seq<Accept>, o: Outcome): seq<Accept> {
    if log == [] then log else log[|log| - 1 := log[|log| - 1].(outcome := Some(o))]
  }

  function ConsumeOne(b: Base, o: (u32, Outcome)): Base {
    if b.inFlight != Some(o.0) then b.(unexpected := b.unexpected + 1)
    else b.(inFlight := None, fragments := if o.1.Completed? then b.fragments else [], log := Noted(b.log, o.1))
  }

  function Consume(b: Base, outcomes: seq<(u32, Outcome)>): Base
    decreases |outcomes|
  {
    if outcomes == [] then b else Consume(ConsumeOne(b, outcomes[0]), outcomes[1..])
  }

  function Follow(b: Base): Base {
    if b.host.session == b.session then b
    else b.(session := b.host.session, messageId := 0, fragments := [], inFlight := None)
  }

  function DropStale(queue: seq<Arrival>, now: int): seq<Arrival>
    decreases |queue|
  {
    if queue != [] && now - queue[0].at > FRESH_MS then DropStale(queue[1..], now) else queue
  }

  function Wrap(frames: seq<A.Frame>, at: int): (r: seq<Unsent>)
    ensures |r| == |frames|
    ensures forall i :: 0 <= i < |r| ==> r[i] == Unsent(frames[i], at)
  {
    seq(|frames|, i requires 0 <= i < |frames| => Unsent(frames[i], at))
  }

  function Refill(b: Base): Base {
    if b.fragments != [] || b.queue == [] then b
    else
      var (raw, id) := (b.queue[0].raw, if b.messageId == U32_MAX then 1 else Inc32(b.messageId));
      var c := b.(queue := b.queue[1..], messageId := id);
      if Rtcm.Valid(raw) && |raw| <= Rtcm.MAX_FRAME then
        var key := A.Key(b.session, id);
        c.(fragments := Wrap(A.Fragments(raw, key, 0), b.queue[0].at),
           messages := b.messages + [Message(raw, key, b.queue[0].number)])
      else c
  }

  /** Which piece of the newest message is next. */
  function NextIndex(b: Base): nat {
    if b.messages == [] then 0
    else
      var n := A.Pieces(|b.messages[|b.messages| - 1].raw|);
      if n < |b.fragments| then 0 else n - |b.fragments|
  }

  /** The encoder raises, with the fragment already taken off the queue. */
  function Raise(b: Base): Base
    requires b.fragments != []
  {
    b.(fragments := b.fragments[1..], crashed := true)
  }

  function TrySend(b: Base, now: int, w: Write, reconnect: int): Base {
    if b.inFlight.Some? || b.fragments == [] || !Ready(b.host) then b
    else if now - b.fragments[0].at >= A.TTL_MS then b.(fragments := [])
    else if now < b.fragments[0].at then Raise(b)
    else
      var frame := b.fragments[0].frame.(age := now - b.fragments[0].at);
      match A.Encode(frame)
      case Err(_) => Raise(b)
      case Ok(encoded) =>
        var (t, r) := SendAir(b.host, encoded, w, reconnect);
        var n := if b.messages == [] then 0 else |b.messages| - 1;
        var c := b.(host := t, tried := if b.host.sequence < U32_MAX then b.tried + [Try(n, NextIndex(b), encoded)]
                                        else b.tried);
        if r.Accepted? then
          c.(fragments := b.fragments[1..], inFlight := Some(r.sequence),
             log := b.log + [Accept(n, NextIndex(b), frame, r.sequence, None)])
        else c
  }

  /** Everything queued arrived by `now`. */
  ghost predicate AtMost(b: Base, now: int) {
    (forall a <- b.queue :: a.at <= now) && (forall u <- b.fragments :: u.at <= now)
  }

  /** The part of a step before the port is known to be open. */
  function Prepare(b: Base, i: TickIn, now: int, reconnect: int): Base {
    var t := Tick(b.host, i.(idle := Idle(b)), reconnect).0;
    var c := Follow(Consume(b.(host := TakeOutcomes(t)), t.outcomes));
    c.(queue := DropStale(c.queue, now))
  }

  function Step(b: Base, i: TickIn, now: int, w: Write, reconnect: int): Base {
    var c := Prepare(b, i, now, reconnect);
    if c.host.connected then TrySend(Refill(c), now, w, reconnect) else c
  }

  lemma {:induction false} DropStaleAtMost(queue: seq<Arrival>, now: int)
    ensures forall a <- DropStale(queue, now) :: a in queue && now - DropStale(queue, now)[0].at <= FRESH_MS
    decreases |queue|
  {
    if queue != [] && now - queue[0].at > FRESH_MS { DropStaleAtMost(queue[1..], now); }
  }

  lemma {:induction false} ConsumeKeeps(b: Base, outcomes: seq<(u32, Outcome)>)
    ensures var c := Consume(b, outcomes);
      && c.queue == b.queue && c.session == b.session && c.host == b.host
      && c.messages == b.messages && c.ingested == b.ingested && c.tried == b.tried
      && (c.fragments == b.fragments || c.fragments == [])
    decreases |outcomes|
  {
    if outcomes != [] { ConsumeKeeps(ConsumeOne(b, outcomes[0]), outcomes[1..]); }
  }

  lemma PrepareAtMost(b: Base, i: TickIn, now: int, reconnect: int)
    requires AtMost(b, now)
    ensures AtMost(Prepare(b, i, now, reconnect), now)
  {
    hide Tick, Consume;
    var t := Tick(b.host, i.(idle := Idle(b)), reconnect).0;
    ConsumeKeeps(b.(host := TakeOutcomes(t)), t.outcomes);
    DropStaleAtMost(b.queue, now);
  }

  lemma RefillAtMost(b: Base, now: int)
    requires AtMost(b, now)
    ensures AtMost(Refill(b), now)
  {
    hide Rtcm.Valid;
  }

  // ---- agreement with the transport ---------------------------------------------

  function Flight(b: Base): seq<u32> { if b.inFlight.Some? then [b.inFlight.value] else [] }

  /** `in_flight` is exactly the transport's outstanding send; nothing reported is left unread. */
  ghost predicate Agrees(b: Base) {
    && Inv(b.host) && b.host.outcomes == [] && PendingSend(b.host) == Flight(b)
    && (b.inFlight.Some? ==> b.host.session == b.session)
    && b.session != 0
  }

  /** What a tick reports is read without surprise. */
  lemma TickAgrees(b: Base, t: Host)
    requires Agrees(b) && Inv(t) && Settles(b.host, t)
    ensures var c := Consume(b.(host := TakeOutcomes(t)), t.outcomes);
      && Inv(c.host) && c.host.outcomes == [] && PendingSend(c.host) == Flight(c)
      && (c.inFlight.Some? ==> c.host.session == c.session)
      && c.unexpected == b.unexpected
    ensures var d := b.(host := TakeOutcomes(t));
      var c := Consume(d, t.outcomes);
      || (t.outcomes == [] && c == d)
      || (|t.outcomes| == 1 && b.inFlight == Some(t.outcomes[0].0) && c == ConsumeOne(d, t.outcomes[0]))
  {
    hide Inv;
    TakeInv(t);
    var h := b.host;
    assert t.outcomes[|h.outcomes|..] == t.outcomes;
    SequencesCount(t.outcomes);
    var c := b.(host := TakeOutcomes(t));
    if |t.outcomes| == 0 {
      assert PendingSend(t) == PendingSend(h);
    } else {
      assert |Sequences(t.outcomes) + PendingSend(t)| == |t.outcomes| + |PendingSend(t)|;
      assert |t.outcomes| == 1 && |PendingSend(t)| == 0;
      assert Sequences(t.outcomes)[0] == (Sequences(t.outcomes) + PendingSend(t))[0];
      ConsumeSingle(c, t.outcomes);
    }
  }

  lemma ConsumeSingle(b: Base, o: seq<(u32, Outcome)>)
    requires |o| == 1
    ensures Consume(b, o) == ConsumeOne(b, o[0])
  {
    assert o[1..] == [];
  }

  lemma SequencesCount(o: seq<(u32, Outcome)>)
    ensures |Sequences(o)| == |o| && (|o| == 1 ==> Sequences(o) == [o[0].0])
  {}

  lemma TakeInv(h: Host)
    requires Inv(h)
    ensures Inv(TakeOutcomes(h)) && PendingSend(TakeOutcomes(h)) == PendingSend(h) && h.session != 0
  {}

  // ---- the order of sending --------------------------------------------------------

  /**
   One accepted fragment after another: the next piece of the same message, after
   its success, or the first of a later one.
   */
  predicate Next(a: Accept, b: Accept) {
    if b.index == 0 then a.message < b.message
    else a.message == b.message && b.index == a.index + 1 && a.outcome == Some(Completed)
  }

  ghost predicate Sound(m: Message) {
    Rtcm.Valid(m.raw) && |m.raw| <= Rtcm.MAX_FRAME && m.key.session != 0 && m.key.id != 0
  }

  /** An accepted fragment is the piece of its message that it says it is, and was fresh. */
  ghost predicate Genuine(messages: seq<Message>, a: Accept) {
    && a.message < |messages| && Sound(messages[a.message])
    && a.index < A.Pieces(|messages[a.message].raw|) && a.frame.age < A.TTL_MS
    && a.frame == A.FragmentAt(messages[a.message].raw, messages[a.message].key, a.frame.age, a.index)
  }

  ghost predicate LogInv(messages: seq<Message>, log: seq<Accept>, inFlight: Option<u32>) {
    && (forall i :: 0 <= i < |log| ==> Genuine(messages, log[i]))
    && (|log| > 0 ==> log[0].index == 0)
    && (forall i :: 0 < i < |log| ==> Next(log[i - 1], log[i]))
    && (forall i :: 0 <= i < |log| - 1 ==> log[i].outcome.Some?)
    && (if inFlight.Some? then |log| > 0 && log[|log| - 1].outcome.None? && log[|log| - 1].sequence == inFlight.value
        else |log| > 0 ==> log[|log| - 1].outcome.Some?)
  }

  /** The waiting fragments are the tail of the newest message, whose earlier pieces were the last accepted. */
  ghost predicate Waiting(b: Base) {
    b.fragments != [] ==>
      && b.messages != []
      && var n := |b.messages| - 1;
      && var m := b.messages[n];
      && Sound(m) && m.key == A.Key(b.session, b.messageId) && |b.fragments| <= A.Pieces(|m.raw|)
      && (forall i :: 0 <= i < |b.fragments| ==>
            b.fragments[i].frame == A.FragmentAt(m.raw, m.key, 0, NextIndex(b) + i))
      && (if NextIndex(b) == 0 then |b.log| == 0 || b.log[|b.log| - 1].message < n
          else |b.log| > 0 && var a := b.log[|b.log| - 1];
            a.message == n && a.index == NextIndex(b) - 1 && (a.outcome == Some(Completed) || a.outcome == None))
  }

  ghost predicate BaseInv(b: Base) {
    Agrees(b) && LogInv(b.messages, b.log, b.inFlight) && (b.crashed || Waiting(b))
  }

  lemma NotedLog(messages: seq<Message>, log: seq<Accept>, s: u32, o: Outcome)
    requires LogInv(messages, log, Some(s))
    ensures LogInv(messages, Noted(log, o), None)
  {
    hide A.FragmentAt, Rtcm.Valid;
    var l := Noted(log, o);
    var n := |log| - 1;
    forall i | 0 < i < |l|
      ensures Next(l[i - 1], l[i])
    {
      assert Next(log[i - 1], log[i]);
    }
    assert Genuine(messages, log[n]);
  }

  /** The outcome of the outstanding fragment: only a success leaves the rest of its message waiting. */
  lemma ConsumeOneInv(b: Base, o: (u32, Outcome))
    requires LogInv(b.messages, b.log, b.inFlight) && Waiting(b) && b.inFlight == Some(o.0)
    ensures var c := ConsumeOne(b, o); LogInv(c.messages, c.log, c.inFlight) && Waiting(c)
  {
    hide A.FragmentAt, Rtcm.Valid, Next, Genuine, Sound;
    NotedLog(b.messages, b.log, o.0, o.1);
  }

  lemma FollowInv(b: Base)
    requires Inv(b.host) && b.host.outcomes == [] && PendingSend(b.host) == Flight(b)
    requires b.inFlight.Some? ==> b.host.session == b.session
    requires LogInv(b.messages, b.log, b.inFlight) && Waiting(b)
    ensures BaseInv(Follow(b)) && Follow(b).unexpected == b.unexpected && Follow(b).session == b.host.session
  {
    hide A.FragmentAt, Rtcm.Valid, LogInv, Sound;
    TakeInv(b.host);
    hide Inv;
  }

  lemma WaitingFrame(b: Base, c: Base)
    requires Waiting(b) && c.fragments == b.fragments && c.messages == b.messages && c.log == b.log
    requires c.session == b.session && c.messageId == b.messageId
    ensures Waiting(c)
  {
    hide A.FragmentAt, Rtcm.Valid, Sound;
  }

  lemma PrepareInv(b: Base, i: TickIn, now: int, reconnect: int)
    requires BaseInv(b) && !b.crashed && Drawn(i)
    ensures var c := Prepare(b, i, now, reconnect);
      BaseInv(c) && !c.crashed && c.unexpected == b.unexpected && c.session == c.host.session
  {
    hide Tick, Consume, Inv, Settles, LogInv, Waiting, DropStale;
    var j := i.(idle := Idle(b));
    var t := Tick(b.host, j, reconnect).0;
    TickProps(b.host, j, reconnect);
    TickAgrees(b, t);
    var d := b.(host := TakeOutcomes(t));
    WaitingFrame(b, d);
    var e := Consume(d, t.outcomes);
    if t.outcomes != [] { ConsumeOneInv(d, t.outcomes[0]); }
    FollowInv(e);
    var f := Follow(e);
    WaitingFrame(f, f.(queue := DropStale(f.queue, now)));
  }

  lemma LogGrows(messages: seq<Message>, m: Message, log: seq<Accept>, inFlight: Option<u32>)
    requires LogInv(messages, log, inFlight)
    ensures LogInv(messages + [m], log, inFlight)
  {
    hide A.FragmentAt, Sound, Next;
    forall i | 0 <= i < |log|
      ensures Genuine(messages + [m], log[i])
    {
      assert Genuine(messages, log[i]);
    }
  }

  lemma RefillInv(b: Base)
    requires BaseInv(b) && !b.crashed && b.session == b.host.session
    ensures BaseInv(Refill(b)) && !Refill(b).crashed && Refill(b).host == b.host && Refill(b).session == b.session
    ensures Refill(b).unexpected == b.unexpected
  {
    hide Inv, LogInv, A.FragmentAt, Rtcm.Valid;
    if b.fragments == [] && b.queue != [] {
      var c := Refill(b);
      var raw := b.queue[0].raw;
      if Rtcm.Valid(raw) && |raw| <= Rtcm.MAX_FRAME {
        LogGrows(b.messages, Message(raw, A.Key(b.session, c.messageId), b.queue[0].number), b.log, b.inFlight);
        if |b.log| > 0 { LastMessage(b.messages, b.log, b.inFlight); }
      }
    }
  }

  lemma LastMessage(messages: seq<Message>, log: seq<Accept>, inFlight: Option<u32>)
    requires LogInv(messages, log, inFlight) && |log| > 0
    ensures log[|log| - 1].message < |messages|
  {
    hide A.FragmentAt, Sound, Next;
    assert Genuine(messages, log[|log| - 1]);
  }

  /** A waiting fragment always fits an application frame. */
  lemma WaitingEncodes(b: Base, age: u16)
    requires Waiting(b) && b.fragments != []
    ensures b.messages != []
    ensures var f := b.fragments[0].frame.(age := age);
      var m := b.messages[|b.messages| - 1];
      && f == A.FragmentAt(m.raw, m.key, age, NextIndex(b)) && NextIndex(b) < A.Pieces(|m.raw|)
      && A.Encode(f).Ok? && |A.Encode(f).value| <= A.MAX_FRAME
  {
    hide Rtcm.Valid, A.Piece, A.MetaOf;
    var m := b.messages[|b.messages| - 1];
    A.FragmentReads(m.raw, m.key, age, NextIndex(b));
    assert b.fragments[0].frame == A.FragmentAt(m.raw, m.key, 0, NextIndex(b) + 0);
  }

  lemma LogAccept(messages: seq<Message>, log: seq<Accept>, a: Accept)
    requires LogInv(messages, log, None) && Genuine(messages, a) && a.outcome == None
    requires if |log| == 0 then a.index == 0 else Next(log[|log| - 1], a)
    ensures LogInv(messages, log + [a], Some(a.sequence))
  {
    hide A.FragmentAt, Sound, Next, Genuine;
  }

  /** Handing over the next fragment. */
  lemma AcceptInv(b: Base, age: u16, sequence: u32, t: Host)
    requires LogInv(b.messages, b.log, None) && b.inFlight == None && Waiting(b) && b.fragments != [] && age < A.TTL_MS
    ensures
      var a := Accept(|b.messages| - 1, NextIndex(b), b.fragments[0].frame.(age := age), sequence, None);
      var c := b.(host := t, fragments := b.fragments[1..], inFlight := Some(sequence), log := b.log + [a]);
      LogInv(c.messages, c.log, c.inFlight) && Waiting(c)
  {
    hide A.FragmentAt, Sound, LogInv, NextIndex, Waiting;
    WaitingEncodes(b, age);
    var a := Accept(|b.messages| - 1, NextIndex(b), b.fragments[0].frame.(age := age), sequence, None);
    AcceptNext(b, a);
    LogAccept(b.messages, b.log, a);
    var c := b.(host := t, fragments := b.fragments[1..], inFlight := Some(sequence), log := b.log + [a]);
    AcceptWaiting(b, c, a);
  }

  /** The next fragment is genuine and follows what was accepted last. */
  lemma AcceptNext(b: Base, a: Accept)
    requires LogInv(b.messages, b.log, None) && Waiting(b) && b.fragments != [] && a.frame.age < A.TTL_MS
    requires a == Accept(|b.messages| - 1, NextIndex(b), b.fragments[0].frame.(age := a.frame.age), a.sequence, None)
    ensures Genuine(b.messages, a)
    ensures if |b.log| == 0 then a.index == 0 else Next(b.log[|b.log| - 1], a)
  {
    hide LogInv, Genuine, Waiting, NextIndex, Next;
    AcceptGenuine(b, a);
    if |b.log| > 0 { Answered(b.messages, b.log); }
    AcceptFollows(b, a);
  }

  lemma AcceptGenuine(b: Base, a: Accept)
    requires Waiting(b) && b.fragments != [] && a.frame.age < A.TTL_MS
    requires a == Accept(|b.messages| - 1, NextIndex(b), b.fragments[0].frame.(age := a.frame.age), a.sequence, None)
    ensures Genuine(b.messages, a)
  {
    hide A.FragmentAt, Rtcm.Valid, Waiting, NextIndex, Sound, A.Encode;
    WaitingEncodes(b, a.frame.age);
    WaitingSound(b);
  }

  lemma WaitingSound(b: Base)
    requires Waiting(b) && b.fragments != []
    ensures b.messages != [] && Sound(b.messages[|b.messages| - 1])
  {
    hide A.FragmentAt, Sound;
  }

  lemma AcceptFollows(b: Base, a: Accept)
    requires Waiting(b) && b.fragments != [] && a.message == |b.messages| - 1 && a.index == NextIndex(b)
    requires |b.log| > 0 ==> b.log[|b.log| - 1].outcome.Some?
    ensures if |b.log| == 0 then a.index == 0 else Next(b.log[|b.log| - 1], a)
  {
    hide A.FragmentAt, Sound, NextIndex;
  }

  /** What waits behind an accepted fragment. */
  lemma AcceptWaiting(b: Base, c: Base, a: Accept)
    requires Waiting(b) && b.fragments != [] && b.messages != []
    requires a.message == |b.messages| - 1 && a.index == NextIndex(b) && a.outcome == None
    requires c.fragments == b.fragments[1..] && c.messages == b.messages && c.log == b.log + [a]
    requires c.session == b.session && c.messageId == b.messageId
    ensures Waiting(c)
  {
    hide A.FragmentAt, Rtcm.Valid;
    if c.fragments != [] {
      forall i | 0 <= i < |c.fragments|
        ensures c.fragments[i].frame
          == A.FragmentAt(c.messages[|c.messages| - 1].raw, c.messages[|c.messages| - 1].key, 0, NextIndex(c) + i)
      {
        assert c.fragments[i] == b.fragments[i + 1];
      }
    }
  }

  lemma Answered(messages: seq<Message>, log: seq<Accept>)
    requires LogInv(messages, log, None) && |log| > 0
    ensures log[|log| - 1].outcome.Some?
  {
    hide Genuine, Next;
  }

  /** The fragment to be sent next arrived, by the clock, after now. */
  predicate Early(b: Base, now: int) {
    b.inFlight.None? && b.fragments != [] && Ready(b.host) && now < b.fragments[0].at
  }

  lemma TrySendInv(b: Base, now: int, w: Write, reconnect: int)
    requires BaseInv(b) && !b.crashed && b.session == b.host.session && w.draw != 0
    ensures BaseInv(TrySend(b, now, w, reconnect)) && TrySend(b, now, w, reconnect).unexpected == b.unexpected
    ensures TrySend(b, now, w, reconnect).crashed <==> Early(b, now)
  {
    hide SendAir, Inv, LogInv, Waiting, Settles, NextIndex, A.Encode;
    if b.inFlight.None? && b.fragments != [] && Ready(b.host) {
      var c := TrySend(b, now, w, reconnect);
      if now - b.fragments[0].at >= A.TTL_MS {
        NoneWaiting(c);
      } else if now >= b.fragments[0].at {
        var age := now - b.fragments[0].at;
        WaitingEncodes(b, age);
        var encoded := A.Encode(b.fragments[0].frame.(age := age)).value;
        var (t, r) := SendAir(b.host, encoded, w, reconnect);
        SendAirProps(b.host, encoded, w, reconnect);
        if r.Accepted? {
          AcceptInv(b, age, r.sequence, t);
          WaitingFrame(c.(tried := b.tried), c);
          assert PendingSend(t) == [r.sequence];
        } else {
          WaitingFrame(b, c);
        }
      }
    }
  }

  lemma NoneWaiting(b: Base)
    requires b.fragments == []
    ensures Waiting(b)
  {}

  /**
   One step, whatever the modem does: the agreement holds, and no outcome is
   unexpected. The step raises exactly if its clock reads before the arrival of the
   fragment it is about to send.
   */
  lemma StepInv(b: Base, i: TickIn, now: int, w: Write, reconnect: int)
    requires BaseInv(b) && !b.crashed && Drawn(i) && w.draw != 0
    ensures BaseInv(Step(b, i, now, w, reconnect)) && Step(b, i, now, w, reconnect).unexpected == b.unexpected
    ensures var c := Prepare(b, i, now, reconnect);
      Step(b, i, now, w, reconnect).crashed <==> c.host.connected && Early(Refill(c), now)
  {
    hide BaseInv, Prepare, Refill, TrySend, Early;
    PrepareInv(b, i, now, reconnect);
    var c := Prepare(b, i, now, reconnect);
    if c.host.connected {
      RefillInv(c);
      TrySendInv(Refill(c), now, w, reconnect);
    }
  }

  /** With a clock that does not go back no step raises. */
  lemma NeverEarly(b: Base, i: TickIn, now: int, w: Write, reconnect: int)
    requires BaseInv(b) && !b.crashed && Drawn(i) && w.draw != 0 && AtMost(b, now)
    ensures !Step(b, i, now, w, reconnect).crashed
  {
    hide BaseInv, Prepare, Refill, Step;
    StepInv(b, i, now, w, reconnect);
    PrepareAtMost(b, i, now, reconnect);
    RefillAtMost(Prepare(b, i, now, reconnect), now);
  }

  // ---- whole runs --------------------------------------------------------------------

  datatype BaseCall = StepCall(i: TickIn, now: int, w: Write) | IngestCall(raws: seq<bytes>, now: int) | ResetCall

  /** The service is running, and every draw is a legal session value. */
  predicate Callable(b: Base, c: BaseCall) {
    !b.crashed && (c.StepCall? ==> Drawn(c.i) && c.w.draw != 0)
  }

  function Perform(b: Base, c: BaseCall, reconnect: int): Base {
    match c
    case StepCall(i, now, w) => Step(b, i, now, w, reconnect)
    case IngestCall(raws, now) => Ingest(b, raws, now)
    case ResetCall => ResetSource(b)
  }

  /** The states of a run, each a legal call after the one before. */
  ghost predicate IsRun(states: seq<Base>, calls: seq<BaseCall>, reconnect: int) {
    && |states| == |calls| + 1
    && forall k :: 0 <= k < |calls| ==>
         Callable(states[k], calls[k]) && states[k + 1] == Perform(states[k], calls[k], reconnect)
  }

  function Begin(session: u32): Base { Base(Start(session), [], [], None, session, 0, 0, false, [], [], [], []) }

  /** Ingress touches the queue only. */
  lemma {:induction false} IngestKeeps(b: Base, raws: seq<bytes>, now: int)
    ensures Ingest(b, raws, now) == b.(queue := Ingest(b, raws, now).queue, ingested := b.ingested + raws)
    decreases |raws|
  {
    if raws != [] {
      var c := IngestOne(b, raws[0], now);
      assert c == b.(queue := c.queue, ingested := b.ingested + [raws[0]]);
      hide IngestOne;
      IngestKeeps(c, raws[1..], now);
      Seqs.Assoc(b.ingested, [raws[0]], raws[1..]);
      assert [raws[0]] + raws[1..] == raws;
    } else {
      Seqs.Units(b.ingested);
    }
  }

  lemma PerformInv(b: Base, c: BaseCall, reconnect: int)
    requires BaseInv(b) && Callable(b, c)
    ensures BaseInv(Perform(b, c, reconnect)) && Perform(b, c, reconnect).unexpected == b.unexpected
  {
    hide Inv, LogInv, Waiting, Step;
    match c
    case StepCall(i, now, w) => StepInv(b, i, now, w, reconnect);
    case IngestCall(raws, now) =>
      IngestKeeps(b, raws, now);
      WaitingFrame(b, Ingest(b, raws, now));
    case ResetCall => NoneWaiting(ResetSource(b));
  }

  /**
   What one message's fragments look like in the log: consecutive, in order, from
   the first piece on, each once, and each but the last completed before the next.
   */
  ghost predicate InOrder(log: seq<Accept>) {
    && (forall i, j :: 0 <= i < j < |log| && log[i].message == log[j].message ==>
          log[j].index == log[i].index + (j - i) && log[i].outcome == Some(Completed))
    && (forall i :: 0 <= i < |log| && log[i].index > 0 ==>
          i > 0 && log[i - 1].message == log[i].message && log[i - 1].index == log[i].index - 1)
    && (forall i, j :: 0 <= i < j < |log| ==> log[i].message <= log[j].message)
  }

  lemma {:induction false} Ordered(messages: seq<Message>, log: seq<Accept>, inFlight: Option<u32>)
    requires LogInv(messages, log, inFlight)
    ensures InOrder(log)
  {
    hide Genuine;
    forall i, j | 0 <= i < j < |log|
      ensures log[i].message <= log[j].message
      ensures log[i].message == log[j].message ==>
        log[j].index == log[i].index + (j - i) && log[i].outcome == Some(Completed)
    {
      Between(messages, log, inFlight, i, j);
    }
    forall i | 0 <= i < |log| && log[i].index > 0
      ensures i > 0 && log[i - 1].message == log[i].message && log[i - 1].index == log[i].index - 1
    {
      if i > 0 { assert Next(log[i - 1], log[i]); }
    }
  }

  lemma {:induction false} Between(messages: seq<Message>, log: seq<Accept>, inFlight: Option<u32>, i: nat, j: nat)
    requires LogInv(messages, log, inFlight) && i < j < |log|
    ensures log[i].message <= log[j].message
    ensures log[i].message == log[j].message ==>
      log[j].index == log[i].index + (j - i) && log[i].outcome == Some(Completed)
    decreases j - i
  {
    hide Genuine;
    assert Next(log[j - 1], log[j]);
    if i < j - 1 { Between(messages, log, inFlight, i, j - 1); }
  }

  /**
   The scheduler's promise, over every run and at every state of it: the
   outstanding send is the one in flight, no outcome is unexpected, and what was
   accepted is genuine pieces in order, none after a failure in its message.
   */
  lemma {:induction false} BasePromise(session: u32, states: seq<Base>, calls: seq<BaseCall>, reconnect: int)
    requires session != 0 && IsRun(states, calls, reconnect) && states[0] == Begin(session)
    ensures forall k :: 0 <= k < |states| ==>
      var b := states[k];
      && PendingSend(b.host) == Flight(b) && b.unexpected == 0
      && InOrder(b.log) && (forall a <- b.log :: Genuine(b.messages, a))
  {
    hide BaseInv, InOrder, Genuine, IsRun;
    forall k | 0 <= k < |states|
      ensures var b := states[k];
        && PendingSend(b.host) == Flight(b) && b.unexpected == 0
        && InOrder(b.log) && (forall a <- b.log :: Genuine(b.messages, a))
    {
      RunInv(session, states, calls, reconnect, k);
      Promised(states[k]);
    }
  }

  lemma Promised(b: Base)
    requires BaseInv(b)
    ensures PendingSend(b.host) == Flight(b) && InOrder(b.log) && (forall a <- b.log :: Genuine(b.messages, a))
  {
    hide InOrder, Genuine, Waiting, Inv;
    Ordered(b.messages, b.log, b.inFlight);
  }

  lemma {:induction false} RunInv(session: u32, states: seq<Base>, calls: seq<BaseCall>, reconnect: int, k: nat)
    requires session != 0 && IsRun(states, calls, reconnect) && states[0] == Begin(session) && k < |states|
    ensures BaseInv(states[k]) && states[k].unexpected == 0
  {
    hide BaseInv, Perform, Callable;
    if k == 0 {
      BeginInv(session);
    } else {
      RunInv(session, states, calls, reconnect, k - 1);
      PerformInv(states[k - 1], calls[k - 1], reconnect);
    }
  }

  lemma BeginInv(session: u32)
    requires session != 0
    ensures BaseInv(Begin(session))
  {}

  // ---- the object -----------------------------------------------------------------------

  class BaseStation {
    const transport: ModemTransport
    var queue: seq<Arrival>
    var fragments: seq<Unsent>
    var inFlight: Option<u32>
    var session: u32
    var messageId: u32
    var unexpected: nat
    var crashed: bool
    var ingested: seq<bytes>
    ghost var messages: seq<Message>
    ghost var log: seq<Accept>
    ghost var tried: seq<Try>

    constructor (transport: ModemTransport)
      requires transport.session != 0 && transport.State() == Start(transport.session)
      ensures State() == Begin(transport.session) && this.transport == transport
    {
      this.transport := transport;
      queue, fragments, inFlight, session, messageId, unexpected := [], [], None, transport.session, 0, 0;
      crashed, ingested, messages, log, tried := false, [], [], [], [];
    }

    ghost function State(): Base
      reads this, transport
    {
      Base(transport.State(), queue, fragments, inFlight, session, messageId, unexpected, crashed, ingested, messages,
           log, tried)
    }

    method IngestFrames(raws: seq<bytes>, now: int)
      modifies this
      ensures State() == Ingest(old(State()), raws, now)
    {
      hide ModemTransport.State;
      ghost var goal := Ingest(State(), raws, now);
      var k := 0;
      assert raws[0..] == raws;
      while k < |raws|
        invariant k <= |raws| && Ingest(State(), raws[k..], now) == goal
      {
        assert raws[k..][1..] == raws[k + 1..];
        IngestFrame(raws[k], now);
        k := k + 1;
      }
      assert |raws[k..]| == 0;
    }

    method IngestFrame(raw: bytes, now: int)
      modifies this
      ensures State() == IngestOne(old(State()), raw, now)
    {
      hide ModemTransport.State;
      queue := queue + [Arrival(raw, now, |ingested|)];
      if |queue| > MAX_QUEUED {
        queue := queue[1..];
      }
      ingested := ingested + [raw];
    }

    method Reset()
      modifies this`queue, this`fragments
      ensures State() == ResetSource(old(State()))
    {
      queue, fragments := [], [];
    }

    /** Read what became of the fragment in flight. */
    method ReadOutcomes()
      modifies this, transport
      ensures State() == Consume(old(State()).(host := TakeOutcomes(old(State()).host)), old(State()).host.outcomes)
    {
      hide TakeOutcomes, Noted, ModemTransport.State;
      var outcomes := transport.Take();
      ghost var goal := Consume(State(), outcomes);
      var k := 0;
      assert outcomes[0..] == outcomes;
      while k < |outcomes|
        invariant k <= |outcomes| && Consume(State(), outcomes[k..]) == goal
        invariant transport.State() == TakeOutcomes(old(State()).host)
      {
        assert outcomes[k..][1..] == outcomes[k + 1..];
        ReadOne(outcomes[k]);
        k := k + 1;
      }
      assert |outcomes[k..]| == 0;
    }

    method ReadOne(o: (u32, Outcome))
      modifies this
      ensures State() == ConsumeOne(old(State()), o)
    {
      hide Noted, ModemTransport.State;
      if inFlight != Some(o.0) {
        unexpected := unexpected + 1;
        return;
      }
      inFlight := None;
      if o.1 != Completed {
        fragments := [];
      }
      log := Noted(log, o.1);
    }

    method FollowSession()
      modifies this
      ensures State() == Follow(old(State()))
    {
      if transport.session != session {
        session, messageId, fragments, inFlight := transport.session, 0, [], None;
      }
    }

    method DropOld(now: int)
      modifies this`queue
      ensures State() == old(State()).(queue := DropStale(old(queue), now))
    {
      while queue != [] && now - queue[0].at > FRESH_MS
        invariant DropStale(queue, now) == DropStale(old(queue), now)
        decreases |queue|
      {
        queue := queue[1..];
      }
    }

    method RefillFragments()
      modifies this
      ensures State() == Refill(old(State()))
    {
      hide Rtcm.Valid, ModemTransport.State;
      if fragments != [] || queue == [] {
        return;
      }
      var frame := queue[0];
      queue := queue[1..];
      messageId := if messageId == U32_MAX then 1 else Inc32(messageId);
      var cut := A.Fragment(frame.raw, session, messageId, 0);
      if cut.Ok? {
        ghost var key := A.Key(session, messageId);
        fragments := Wrap(cut.value, frame.at);
        messages := messages + [Message(frame.raw, key, frame.number)];
      }
    }

    /** Sending the next fragment; the encoder raises for one that has not arrived yet. */
    method SendNext(now: int, w: Write)
      modifies this, transport
      ensures State() == TrySend(old(State()), now, w, transport.reconnect)
    {
      hide SendAir, A.Encode, ModemTransport.State;
      var ready := transport.IsReady();
      if inFlight.Some? || fragments == [] || !ready {
        return;
      }
      var next := fragments[0];
      var age := now - next.at;
      if age >= A.TTL_MS {
        fragments := [];
        return;
      }
      if age < 0 {
        fragments, crashed := fragments[1..], true;
        return;
      }
      var encoded := A.Encode(next.frame.(age := age));
      if encoded.Err? {
        fragments, crashed := fragments[1..], true;
      } else {
        ghost var newest := if messages == [] then 0 else |messages| - 1;
        ghost var entry := Accept(newest, NextIndex(State()), next.frame.(age := age), 0, None);
        if transport.sequence < U32_MAX {
          tried := tried + [Try(entry.message, entry.index, encoded.value)];
        }
        SequenceHere();
        var sent := transport.Send(encoded.value, w);
        if sent.Accepted? {
          fragments := fragments[1..];
          inFlight := Some(sent.sequence);
          log := log + [entry.(sequence := sent.sequence)];
        }
      }
    }

    method StepOnce(i: TickIn, now: int, w: Write)
      modifies this, transport
      ensures State() == Step(old(State()), i, now, w, transport.reconnect)
    {
      hide Tick, Consume, Refill, TrySend, ModemTransport.State;
      PrepareStep(i, now);
      if !transport.connected {
        ConnectedHere();
        return;
      }
      ConnectedHere();
      RefillFragments();
      SendNext(now, w);
    }

    lemma SequenceHere()
      ensures State().host.sequence == transport.sequence
    {}

    lemma ConnectedHere()
      ensures State().host.connected == transport.connected
    {}

    method PrepareStep(i: TickIn, now: int)
      modifies this, transport
      ensures State() == Prepare(old(State()), i, now, transport.reconnect)
    {
      hide Tick, Consume, ModemTransport.State, Follow, DropStale;
      var idle := queue == [] && fragments == [] && inFlight.None?;
      var _ := transport.TickOnce(i.(idle := idle));
      ReadOutcomes();
      FollowSession();
      DropOld(now);
    }
  }
}
