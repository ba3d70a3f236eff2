/** What the base still sends: every frame at most 800 milliseconds old, the oldest first, and its pieces in turn. */
module Freshness {
  import opened Bytes
  import opened Wrappers
  import opened Envelope
  import opened UsbProtocol
  import opened Transport
  import opened OrderedDict
  import opened BaseService
  import A = Application
  import Rtcm
  import Seqs

  // ---- what stays queued --------------------------------------------------------------

  predicate Old(a: Arrival, now: int) { now - a.at > 800 }

  /** Dropping stops at the first frame that is not old. */
  lemma {:induction false} DropsExactly(queue: seq<Arrival>, now: int) returns (k: nat)
    ensures k <= |queue| && DropStale(queue, now) == queue[k..]
    ensures forall j :: 0 <= j < k ==> Old(queue[j], now)
    ensures k < |queue| ==> !Old(queue[k], now)
    decreases |queue|
  {
    if queue != [] && Old(queue[0], now) {
      var m := DropsExactly(queue[1..], now);
      k := m + 1;
      assert queue[1..][m..] == queue[k..];
      assert forall j :: 0 < j < k ==> queue[j] == queue[1..][j - 1];
    } else {
      k := 0;
    }
  }

  /** Everything queued arrived no later than what is queued behind it, and by `now`. */
  ghost predicate InTime(queue: seq<Arrival>, now: int) {
    && (forall i, j :: 0 <= i < j < |queue| ==> queue[i].at <= queue[j].at)
    && (forall i :: 0 <= i < |queue| ==> queue[i].at <= now)
  }

  /** With a clock that does not go back, exactly the frames that are not old stay. */
  lemma FreshStays(queue: seq<Arrival>, now: int)
    requires InTime(queue, now)
    ensures forall j :: 0 <= j < |queue| ==> (queue[j] in DropStale(queue, now) <==> !Old(queue[j], now))
  {
    var k := DropsExactly(queue, now);
    forall j | 0 <= j < |queue|
      ensures queue[j] in queue[k..] <==> !Old(queue[j], now)
    {
      if j < k {
        forall m | k <= m < |queue|
          ensures queue[m] != queue[j]
        {
          assert queue[k].at <= queue[m].at;
        }
      } else {
        assert queue[j] == queue[k..][j - k];
        assert queue[k].at <= queue[j].at;
      }
    }
  }

  // ---- what is queued -------------------------------------------------------------------

  /** The newest `n`. */
  function Newest(queue: seq<Arrival>, n: nat): seq<Arrival> { if |queue| <= n then queue else queue[|queue| - n..] }

  /** The frames of one read, numbered on from `count`. */
  function Arriving(raws: seq<bytes>, now: int, count: nat): seq<Arrival> {
    seq(|raws|, k requires 0 <= k < |raws| => Arrival(raws[k], now, count + k))
  }

  /** Every frame read is queued, and of all that is queued the newest 128 are kept. */
  lemma {:induction false} IngestQueues(b: Base, raws: seq<bytes>, now: int)
    requires |b.queue| <= 128
    ensures Ingest(b, raws, now).queue == Newest(b.queue + Arriving(raws, now, |b.ingested|), 128)
    decreases |raws|
  {
    hide IngestOne, Newest, Arriving;
    if raws != [] {
      var one := Arrival(raws[0], now, |b.ingested|);
      var rest := Arriving(raws[1..], now, |b.ingested| + 1);
      var c := IngestOne(b, raws[0], now);
      OneQueued(b, raws[0], now);
      IngestQueues(c, raws[1..], now);
      ArrivingOn(raws, now, |b.ingested|);
      NewestOn(b.queue, one, rest);
      Seqs.Assoc(b.queue, [one], rest);
    } else {
      NoneArriving(b.queue, now, |b.ingested|);
    }
  }

  lemma OneQueued(b: Base, raw: bytes, now: int)
    requires |b.queue| <= 128
    ensures IngestOne(b, raw, now).queue == Newest(b.queue + [Arrival(raw, now, |b.ingested|)], 128)
    ensures |IngestOne(b, raw, now).queue| <= 128 && |IngestOne(b, raw, now).ingested| == |b.ingested| + 1
  {}

  lemma NoneArriving(queue: seq<Arrival>, now: int, count: nat)
    requires |queue| <= 128
    ensures queue == Newest(queue + Arriving([], now, count), 128)
  {}

  lemma ArrivingOn(raws: seq<bytes>, now: int, count: nat)
    requires raws != []
    ensures Arriving(raws, now, count) == [Arrival(raws[0], now, count)] + Arriving(raws[1..], now, count + 1)
  {}

  lemma NewestOn(queue: seq<Arrival>, a: Arrival, more: seq<Arrival>)
    requires |queue| <= 128
    ensures Newest(Newest(queue + [a], 128) + more, 128) == Newest(queue + [a] + more, 128)
  {}

  // ---- over whole runs --------------------------------------------------------------------

  /** No call reads its clock before `now`, or before the call ahead of it. */
  predicate Forward(calls: seq<BaseCall>, now: int)
    decreases |calls|
  {
    calls == []
    || match calls[0]
       case StepCall(_, t, _) => now <= t && Forward(calls[1..], t)
       case IngestCall(_, t) => now <= t && Forward(calls[1..], t)
       case ResetCall => Forward(calls[1..], now)
  }

  function ClockAfter(c: BaseCall, now: int): int {
    match c
    case StepCall(_, t, _) => t
    case IngestCall(_, t) => t
    case ResetCall => now
  }

  ghost predicate QueueInv(b: Base, now: int) { |b.queue| <= 128 && InTime(b.queue, now) }

  lemma SuffixInTime(queue: seq<Arrival>, k: nat, now: int, later: int)
    requires k <= |queue| && InTime(queue, now) && now <= later
    ensures InTime(queue[k..], later)
  {}

  /** A step leaves what follows the old frames, less the one it takes to cut. */
  lemma StepQueue(b: Base, i: TickIn, now: int, w: Write, reconnect: int) returns (k: nat)
    ensures k <= |b.queue| && Step(b, i, now, w, reconnect).queue == b.queue[k..]
  {
    hide Tick, Consume, TrySend, DropStale, Rtcm.Valid;
    var t := Tick(b.host, i.(idle := Idle(b)), reconnect).0;
    ConsumeKeeps(b.(host := TakeOutcomes(t)), t.outcomes);
    k := DropsExactly(b.queue, now);
    var c := Prepare(b, i, now, reconnect);
    assert c.queue == b.queue[k..];
    var d := Refill(c);
    assert TrySend(d, now, w, reconnect).queue == d.queue by {
      TrySendQueue(d, now, w, reconnect);
    }
    if c.host.connected && d.queue != c.queue {
      k := k + 1;
    }
  }

  lemma TrySendQueue(b: Base, now: int, w: Write, reconnect: int)
    ensures TrySend(b, now, w, reconnect).queue == b.queue
  {
    hide SendAir, A.Encode, NextIndex;
  }

  lemma IngestInTime(b: Base, raws: seq<bytes>, now: int, later: int)
    requires QueueInv(b, now) && now <= later
    ensures QueueInv(Ingest(b, raws, later), later)
  {
    hide Ingest;
    IngestQueues(b, raws, later);
  }

  lemma CallInTime(b: Base, c: BaseCall, now: int, reconnect: int)
    requires QueueInv(b, now) && now <= ClockAfter(c, now)
    ensures QueueInv(Perform(b, c, reconnect), ClockAfter(c, now))
  {
    hide Step, Ingest;
    match c
    case StepCall(i, t, w) =>
      var k := StepQueue(b, i, t, w, reconnect);
      SuffixInTime(b.queue, k, now, t);
    case IngestCall(raws, t) => IngestInTime(b, raws, now, t);
    case ResetCall =>
  }

  /** With a clock that does not go back, the queue is in the order of arrival at every state of every run. */
  lemma {:induction false} AlwaysInTime(b: Base, calls: seq<BaseCall>, now: int, reconnect: int)
    requires QueueInv(b, now) && Forward(calls, now)
    ensures QueueInv(After(b, calls, reconnect), LastClock(calls, now))
    decreases |calls|
  {
    hide Perform, QueueInv;
    if calls != [] {
      CallInTime(b, calls[0], now, reconnect);
      AlwaysInTime(Perform(b, calls[0], reconnect), calls[1..], ClockAfter(calls[0], now), reconnect);
    }
  }

  function LastClock(calls: seq<BaseCall>, now: int): int
    decreases |calls|
  {
    if calls == [] then now else LastClock(calls[1..], ClockAfter(calls[0], now))
  }

  function After(b: Base, calls: seq<BaseCall>, reconnect: int): Base
    decreases |calls|
  {
    if calls == [] then b else After(Perform(b, calls[0], reconnect), calls[1..], reconnect)
  }

  // ---- what a step sends ---------------------------------------------------------------------

  /** The transport would take a send. */
  predicate Free(t: Host) { t.connected && t.handshake && t.radioReady && t.pending.order == [] }

  /** The host after the tick of a step. */
  function Ticked(b: Base, i: TickIn, reconnect: int): Host { Tick(b.host, i.(idle := Idle(b)), reconnect).0 }

  /** Nothing of an earlier frame waits: none did, its session is over, or its fragment did not get through. */
  predicate Cleared(b: Base, t: Host) {
    b.fragments == [] || t.session != b.session || (t.outcomes != [] && t.outcomes[0].1 != Completed)
  }

  /** The key of the next message. */
  function NextKey(b: Base, t: Host): A.Key {
    if t.session != b.session then A.Key(t.session, 1)
    else A.Key(b.session, if b.messageId == 0xFFFF_FFFF then 1 else b.messageId + 1)
  }

  /** What goes to the modem when piece `n` of the frame is sent at that age. */
  function OnWire(raw: bytes, key: A.Key, age: u16, n: nat): bytes
    requires Rtcm.Valid(raw) && |raw| <= Rtcm.MAX_FRAME && n < A.Pieces(|raw|) && key.session != 0 && key.id != 0
  {
    A.FragmentReads(raw, key, age, n);
    A.Encode(A.FragmentAt(raw, key, age, n)).value
  }

  /** The rest of a frame, from piece `n` on, waits to be sent. */
  ghost predicate Remain(fragments: seq<Unsent>, raw: bytes, key: A.Key, at: int, n: nat)
    requires Rtcm.Valid(raw) && |raw| <= Rtcm.MAX_FRAME
  {
    && |fragments| + n == A.Pieces(|raw|)
    && forall j :: 0 <= j < |fragments| ==> fragments[j] == Unsent(A.FragmentAt(raw, key, 0, n + j), at)
  }

  /** The host has put the send of `p` on the wire and awaits its result; `s` is its sequence. */
  ghost predicate Sent(t: Host, h: Host, p: bytes, s: u32)
    requires t.sequence < 0xFFFF_FFFF
  {
    && h.wire == t.wire + [Sealed(RADIO_SEND, t.session, t.sequence + 1, p)]
    && s == t.sequence + 1 && h.sequence == s && h.session == t.session && h.connected && Awaits(h, s, RADIO_SEND)
  }

  lemma SentAlike(t: Host, u: Host, h: Host, p: bytes, s: u32)
    requires t.sequence < 0xFFFF_FFFF && u == TakeOutcomes(t) && Sent(u, h, p, s)
    ensures Sent(t, h, p, s)
  {}

  lemma HandsOver(t: Host, p: bytes, w: Write, reconnect: int)
    requires Free(t) && t.sequence < 0xFFFF_FFFF && |p| <= MAX_USB_PAYLOAD && w.ok
    ensures SendAir(t, p, w, reconnect).1 == Accepted(t.sequence + 1)
    ensures Sent(t, SendAir(t, p, w, reconnect).0, p, t.sequence + 1)
  {}

  /** What a step finds after its tick, if the transport is free: nothing is in flight. */
  lemma AfterTick(b: Base, i: TickIn, now: int, reconnect: int)
    requires BaseInv(b) && !b.crashed && Drawn(i) && Free(Ticked(b, i, reconnect))
    ensures var t := Ticked(b, i, reconnect);
      var c := Prepare(b, i, now, reconnect);
      && Inv(t) && c.host == TakeOutcomes(t) && Free(c.host) && c.host.connected && !c.crashed
      && c.inFlight.None? && c.session == t.session != 0
      && c.messages == b.messages && c.tried == b.tried && c.queue == DropStale(b.queue, now)
      && c.fragments == (if Cleared(b, t) then [] else b.fragments)
      && c.messageId == (if t.session != b.session then 0 else b.messageId)
  {
    hide Tick, Consume, Settles, LogInv, Waiting, DropStale, Noted;
    var j := i.(idle := Idle(b));
    var t := Tick(b.host, j, reconnect).0;
    TickProps(b.host, j, reconnect);
    TickAgrees(b, t);
    TakeInv(t);
    var d := b.(host := TakeOutcomes(t));
    ConsumeKeeps(d, t.outcomes);
    NothingOut(t);
  }

  lemma NothingOut(t: Host)
    requires Inv(t) && Free(t)
    ensures Free(TakeOutcomes(t)) && PendingSend(t) == [] && PendingSend(TakeOutcomes(t)) == []
  {}

  lemma {:induction false} DropsTo(queue: seq<Arrival>, now: int, n: nat)
    requires n < |queue| && (forall j :: 0 <= j < n ==> now - queue[j].at > 800) && now - queue[n].at <= 800
    ensures DropStale(queue, now) == queue[n..]
  {
    if n > 0 {
      assert forall j :: 0 <= j < n - 1 ==> queue[1..][j] == queue[j + 1];
      DropsTo(queue[1..], now, n - 1);
      assert queue[1..][n - 1..] == queue[n..];
    }
  }

  /** The newest message is that frame under that key, and its pieces from `n` on wait. */
  ghost predicate Pending(d: Base, m: Message, at: int, n: nat) {
    && Rtcm.Valid(m.raw) && |m.raw| <= Rtcm.MAX_FRAME && m.key.session != 0 && m.key.id != 0
    && d.messages != [] && d.messages[|d.messages| - 1] == m
    && Remain(d.fragments, m.raw, m.key, at, n)
  }

  lemma SomePieces(raw: bytes)
    requires Rtcm.Valid(raw)
    ensures 0 < A.Pieces(|raw|)
  {}

  lemma Cut(c: Base)
    requires c.fragments == [] && c.queue != [] && c.session != 0
    requires Rtcm.Valid(c.queue[0].raw) && |c.queue[0].raw| <= Rtcm.MAX_FRAME
    ensures var id: u32 := if c.messageId == 0xFFFF_FFFF then 1 else c.messageId + 1;
      var m := Message(c.queue[0].raw, A.Key(c.session, id), c.queue[0].number);
      var d := Refill(c);
      && d == c.(queue := c.queue[1..], messageId := id, fragments := d.fragments, messages := c.messages + [m])
      && Pending(d, m, c.queue[0].at, 0) && d.fragments != [] && 0 < A.Pieces(|c.queue[0].raw|)
  {
    hide A.FragmentAt, Rtcm.Valid;
    SomePieces(c.queue[0].raw);
  }

  /** With the transport free, the next piece of the newest message is handed over, unless it is a second old. */
  lemma PieceGoes(d: Base, m: Message, at: int, n: nat, now: int, w: Write, reconnect: int)
    requires Free(d.host) && d.inFlight.None? && Pending(d, m, at, n) && d.fragments != []
    requires 0 <= now - at < 1000 && d.host.sequence < 0xFFFF_FFFF && w.ok
    ensures var y := TrySend(d, now, w, reconnect);
      && n < A.Pieces(|m.raw|) && Sent(d.host, y.host, OnWire(m.raw, m.key, now - at, n), d.host.sequence + 1)
      && y == d.(host := y.host, fragments := d.fragments[1..], inFlight := Some(d.host.sequence + 1),
                 log := y.log,
                 tried := d.tried + [Try(|d.messages| - 1, n, OnWire(m.raw, m.key, now - at, n))])
      && Pending(y, m, at, n + 1)
      && |y.log| == |d.log| + 1 && y.log[..|d.log|] == d.log
      && y.log[|d.log|].message == |d.messages| - 1 && y.log[|d.log|].index == n
  {
    hide A.FragmentAt, Rtcm.Valid, SendAir, Sent, A.Encode, A.Pieces;
    var frame := A.FragmentAt(m.raw, m.key, 0, n).(age := now - at);
    assert d.fragments[0] == Unsent(A.FragmentAt(m.raw, m.key, 0, n), at);
    Aged(m.raw, m.key, now - at, n);
    var p := OnWire(m.raw, m.key, now - at, n);
    HandsOver(d.host, p, w, reconnect);
    assert NextIndex(d) == n;
    RemainOn(d.fragments, m.raw, m.key, at, n);
  }

  lemma Aged(raw: bytes, key: A.Key, age: u16, n: nat)
    requires Rtcm.Valid(raw) && |raw| <= Rtcm.MAX_FRAME && n < A.Pieces(|raw|) && key.session != 0 && key.id != 0
    ensures A.FragmentAt(raw, key, 0, n).(age := age) == A.FragmentAt(raw, key, age, n)
    ensures A.Encode(A.FragmentAt(raw, key, age, n)).Ok?
    ensures A.Encode(A.FragmentAt(raw, key, age, n)).value == OnWire(raw, key, age, n)
    ensures |OnWire(raw, key, age, n)| <= MAX_USB_PAYLOAD
  {
    hide Rtcm.Valid, A.Piece, A.MetaOf;
    A.FragmentReads(raw, key, age, n);
  }

  lemma RemainOn(fragments: seq<Unsent>, raw: bytes, key: A.Key, at: int, n: nat)
    requires Rtcm.Valid(raw) && |raw| <= Rtcm.MAX_FRAME && Remain(fragments, raw, key, at, n) && fragments != []
    ensures Remain(fragments[1..], raw, key, at, n + 1)
  {
    hide A.FragmentAt, Rtcm.Valid;
  }

  /**
   A whole step. If after its tick the transport is free and nothing of an earlier
   frame waits, the first frame in the queue that is at most 800 ms old is cut under
   the next key, and its first piece, with its age, is handed to the modem. The rest
   waits behind it; the frames after it stay queued, and those before it are gone.
   */
  lemma FreshSent(b: Base, i: TickIn, now: int, w: Write, reconnect: int, n: nat)
    requires BaseInv(b) && !b.crashed && Drawn(i) && w.ok
    requires Free(Ticked(b, i, reconnect)) && Cleared(b, Ticked(b, i, reconnect))
    requires Ticked(b, i, reconnect).sequence < 0xFFFF_FFFF
    requires n < |b.queue| && (forall j :: 0 <= j < n ==> now - b.queue[j].at > 800)
    requires 0 <= now - b.queue[n].at <= 800
    requires Rtcm.Valid(b.queue[n].raw) && |b.queue[n].raw| <= Rtcm.MAX_FRAME
    ensures var t := Ticked(b, i, reconnect);
      var y := Step(b, i, now, w, reconnect);
      var a := b.queue[n];
      var key := NextKey(b, t);
      && key.session != 0 && key.id != 0 && 0 < A.Pieces(|a.raw|)
      && Sent(t, y.host, OnWire(a.raw, key, now - a.at, 0), t.sequence + 1)
      && y.inFlight == Some(t.sequence + 1) && y.session == t.session && y.messageId == key.id && !y.crashed
      && y.tried == b.tried + [Try(|b.messages|, 0, OnWire(a.raw, key, now - a.at, 0))]
      && y.messages == b.messages + [Message(a.raw, key, a.number)]
      && Remain(y.fragments, a.raw, key, a.at, 1) && y.queue == b.queue[n + 1..]
  {
    hide BaseInv, Tick, Prepare, Refill, TrySend, Free, Cleared, Rtcm.Valid, Sent, Remain, A.Pieces;
    AfterTick(b, i, now, reconnect);
    var t := Ticked(b, i, reconnect);
    DropsTo(b.queue, now, n);
    var c := Prepare(b, i, now, reconnect);
    Cut(c);
    var m := Message(c.queue[0].raw, NextKey(b, t), c.queue[0].number);
    PieceGoes(Refill(c), m, c.queue[0].at, 0, now, w, reconnect);
    var sent := OnWire(m.raw, m.key, now - c.queue[0].at, 0);
    SentAlike(t, c.host, Step(b, i, now, w, reconnect).host, sent, t.sequence + 1);
  }

  /** Piece `n` went to the modem with that age, and the pieces after it wait. */
  ghost predicate PieceSent(b: Base, t: Host, y: Base, m: Message, at: int, n: nat, age: u16)
    requires t.sequence < 0xFFFF_FFFF
  {
    && Pending(y, m, at, n + 1) && n < A.Pieces(|m.raw|)
    && Sent(t, y.host, OnWire(m.raw, m.key, age, n), t.sequence + 1) && y.inFlight == Some(t.sequence + 1)
    && b.messages != [] && y.tried == b.tried + [Try(|b.messages| - 1, n, OnWire(m.raw, m.key, age, n))]
  }

  /**
   A whole step while the rest of a frame waits. If after its tick the transport is
   free, what was in flight got through and the session goes on, the next piece is
   handed over with its age; if the frame is a second old, the rest is dropped instead.
   */
  lemma NextPieceSent(b: Base, i: TickIn, now: int, w: Write, reconnect: int, m: Message, at: int, n: nat)
    requires BaseInv(b) && !b.crashed && Drawn(i) && w.ok
    requires Pending(b, m, at, n) && b.fragments != [] && at <= now
    requires Free(Ticked(b, i, reconnect)) && !Cleared(b, Ticked(b, i, reconnect))
    requires Ticked(b, i, reconnect).sequence < 0xFFFF_FFFF
    ensures var t := Ticked(b, i, reconnect);
      var y := Step(b, i, now, w, reconnect);
      && y.queue == DropStale(b.queue, now) && y.messages == b.messages && !y.crashed
      && if now - at >= 1000 then y.fragments == [] && y.host == TakeOutcomes(t) && y.tried == b.tried
         else PieceSent(b, t, y, m, at, n, now - at)
  {
    hide BaseInv, Tick, Prepare, TrySend, Free, Rtcm.Valid, Sent, Remain, A.Pieces, Cleared;
    AfterTick(b, i, now, reconnect);
    var t := Ticked(b, i, reconnect);
    var c := Prepare(b, i, now, reconnect);
    assert Refill(c) == c;
    if now - at < 1000 {
      PieceGoes(c, m, at, n, now, w, reconnect);
      SentAlike(t, c.host, Step(b, i, now, w, reconnect).host, OnWire(m.raw, m.key, now - at, n), t.sequence + 1);
    } else {
      TooOld(c, m, at, n, now, w, reconnect);
    }
  }

  lemma TooOld(d: Base, m: Message, at: int, n: nat, now: int, w: Write, reconnect: int)
    requires Free(d.host) && d.inFlight.None? && Pending(d, m, at, n) && d.fragments != [] && now - at >= 1000
    ensures TrySend(d, now, w, reconnect) == d.(fragments := [])
  {
    hide A.FragmentAt, Rtcm.Valid, A.Encode, SendAir, A.Pieces;
  }

  // ---- a whole frame ---------------------------------------------------------------------------

  datatype Turn = Turn(i: TickIn, now: int, w: Write)

  function Took(b: Base, r: Turn, reconnect: int): Base { Step(b, r.i, r.now, r.w, reconnect) }

  function TookAll(b: Base, turns: seq<Turn>, reconnect: int): Base
    decreases |turns|
  {
    if turns == [] then b else TookAll(Took(b, turns[0], reconnect), turns[1..], reconnect)
  }

  /** At each step the piece before has got through, in the same session, and the frame is not yet a second old. */
  ghost predicate Smooth(b: Base, turns: seq<Turn>, at: int, reconnect: int)
    decreases |turns|
  {
    turns == []
    || (var r := turns[0];
        var t := Ticked(b, r.i, reconnect);
        && Drawn(r.i) && r.w.ok && r.w.draw != 0 && 0 <= r.now - at < 1000
        && Free(t) && !Cleared(b, t) && t.sequence < 0xFFFF_FFFF
        && Smooth(Took(b, r, reconnect), turns[1..], at, reconnect))
  }

  /** What is written in such steps: the pieces from `n` on, in order, each with its age. */
  function Rest(m: Message, number: nat, at: int, n: nat, turns: seq<Turn>): seq<Try>
    requires Rtcm.Valid(m.raw) && |m.raw| <= Rtcm.MAX_FRAME && m.key.session != 0 && m.key.id != 0
    requires n + |turns| <= A.Pieces(|m.raw|) && forall k :: 0 <= k < |turns| ==> 0 <= turns[k].now - at < 1000
  {
    seq(|turns|, k requires 0 <= k < |turns| => Try(number, n + k, OnWire(m.raw, m.key, turns[k].now - at, n + k)))
  }

  lemma {:induction false} SmoothAges(b: Base, turns: seq<Turn>, at: int, reconnect: int)
    requires Smooth(b, turns, at, reconnect)
    ensures forall k :: 0 <= k < |turns| ==> 0 <= turns[k].now - at < 1000
    decreases |turns|
  {
    hide Took, Free, Cleared, Ticked;
    if turns != [] {
      SmoothAges(Took(b, turns[0], reconnect), turns[1..], at, reconnect);
      assert forall k :: 0 < k < |turns| ==> turns[k] == turns[1..][k - 1];
    }
  }

  /** The whole frame is sent: in as many such steps as pieces wait, they all go to the modem, in order. */
  lemma {:induction false} RestSent(b: Base, turns: seq<Turn>, reconnect: int, m: Message, at: int, n: nat)
    requires BaseInv(b) && !b.crashed && Pending(b, m, at, n) && |turns| == |b.fragments|
    requires Smooth(b, turns, at, reconnect)
    ensures n + |turns| == A.Pieces(|m.raw|) && forall k :: 0 <= k < |turns| ==> 0 <= turns[k].now - at < 1000
    ensures var y := TookAll(b, turns, reconnect);
      && y.tried == b.tried + Rest(m, |b.messages| - 1, at, n, turns)
      && y.fragments == [] && y.messages == b.messages
    decreases |turns|
  {
    hide BaseInv, Took, Smooth, OnWire, A.Pieces, Rtcm.Valid, Pending, Rest, Step, Ticked, Free, Cleared;
    SmoothAges(b, turns, at, reconnect);
    Waits(b, m, at, n);
    if turns == [] { NoRest(b, m, |b.messages| - 1, at, n); }
    if turns != [] {
      var c := Took(b, turns[0], reconnect);
      OneTurn(b, turns, reconnect, m, at, n);
      RestSent(c, turns[1..], reconnect, m, at, n + 1);
      RestOn(b.tried, m, |b.messages| - 1, at, n, turns);
    }
  }

  lemma OneTurn(b: Base, turns: seq<Turn>, reconnect: int, m: Message, at: int, n: nat)
    requires BaseInv(b) && !b.crashed && Pending(b, m, at, n) && |turns| == |b.fragments| > 0
    requires Smooth(b, turns, at, reconnect)
    ensures var c := Took(b, turns[0], reconnect);
      && n < A.Pieces(|m.raw|) && 0 <= turns[0].now - at < 1000
      && BaseInv(c) && !c.crashed && Pending(c, m, at, n + 1) && c.messages == b.messages && b.messages != []
      && c.tried == b.tried + [Try(|b.messages| - 1, n, OnWire(m.raw, m.key, turns[0].now - at, n))]
      && |turns[1..]| == |c.fragments| && Smooth(c, turns[1..], at, reconnect)
  {
    hide BaseInv, Step, Free, Cleared, Ticked, Sent, OnWire, A.Pieces, Rtcm.Valid, Remain, Drawn, DropStale;
    var r := turns[0];
    NextPieceSent(b, r.i, r.now, r.w, reconnect, m, at, n);
    StepInv(b, r.i, r.now, r.w, reconnect);
    Waits(b, m, at, n);
    Waits(Took(b, r, reconnect), m, at, n + 1);
  }

  lemma Waits(b: Base, m: Message, at: int, n: nat)
    requires Pending(b, m, at, n)
    ensures Rtcm.Valid(m.raw) && |m.raw| <= Rtcm.MAX_FRAME && m.key.session != 0 && m.key.id != 0 && b.messages != []
    ensures n + |b.fragments| == A.Pieces(|m.raw|)
  {}

  lemma NoRest(b: Base, m: Message, number: nat, at: int, n: nat)
    requires Rtcm.Valid(m.raw) && |m.raw| <= Rtcm.MAX_FRAME && m.key.session != 0 && m.key.id != 0
    requires n == A.Pieces(|m.raw|)
    ensures b.tried == b.tried + Rest(m, number, at, n, [])
  {}

  lemma RestOn(tried: seq<Try>, m: Message, number: nat, at: int, n: nat, turns: seq<Turn>)
    requires Rtcm.Valid(m.raw) && |m.raw| <= Rtcm.MAX_FRAME && m.key.session != 0 && m.key.id != 0
    requires n + |turns| <= A.Pieces(|m.raw|) && forall k :: 0 <= k < |turns| ==> 0 <= turns[k].now - at < 1000
    requires turns != []
    ensures tried + [Try(number, n, OnWire(m.raw, m.key, turns[0].now - at, n))]
      + Rest(m, number, at, n + 1, turns[1..]) == tried + Rest(m, number, at, n, turns)
  {
    hide OnWire, Rtcm.Valid, A.Pieces;
  }
}
