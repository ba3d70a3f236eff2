/** What a failed send costs: the rest of its frame, and sometimes the next frame as well. */
module Collateral {
  import opened Bytes
  import opened Wrappers
  import opened Envelope
  import opened UsbProtocol
  import opened Transport
  import opened OrderedDict
  import opened BaseService
  import A = Application
  import Crc
  import Rtcm

  /** No piece of message `n` was accepted, and none is waiting to be. */
  ghost predicate Lost(b: Base, n: nat) {
    && n < |b.messages| && (forall a <- b.log :: a.message != n)
    && (b.fragments == [] || n < |b.messages| - 1)
  }

  // ---- exactly when -----------------------------------------------------------------

  lemma {:induction false} Earlier(messages: seq<Message>, log: seq<Accept>, inFlight: Option<u32>, n: nat)
    requires LogInv(messages, log, inFlight) && (|log| > 0 ==> log[|log| - 1].message < n)
    ensures forall a <- log :: a.message != n
  {
    hide Genuine, Next;
    forall a <- log
      ensures a.message != n
    {
      var i :| 0 <= i < |log| && log[i] == a;
      if i < |log| - 1 { Between(messages, log, inFlight, i, |log| - 1); }
    }
  }

  lemma TrySendLost(b: Base, now: int, w: Write, reconnect: int, n: nat)
    requires Lost(b, n)
    ensures Lost(TrySend(b, now, w, reconnect), n)
  {
    hide SendAir, A.Encode, NextIndex;
  }

  lemma {:induction false} ConsumeLost(b: Base, outcomes: seq<(u32, Outcome)>, n: nat)
    requires Lost(b, n)
    ensures Lost(Consume(b, outcomes), n)
    decreases |outcomes|
  {
    hide Noted, Lost;
    if outcomes != [] {
      ConsumeOneLost(b, outcomes[0], n);
      ConsumeLost(ConsumeOne(b, outcomes[0]), outcomes[1..], n);
    }
  }

  lemma ConsumeOneLost(b: Base, o: (u32, Outcome), n: nat)
    requires Lost(b, n)
    ensures Lost(ConsumeOne(b, o), n)
  {
    var c := ConsumeOne(b, o);
    forall a <- c.log
      ensures a.message != n
    {
      var i :| 0 <= i < |c.log| && c.log[i] == a;
      assert b.log[i] in b.log && b.log[i].message == a.message;
    }
  }

  /** The step after its outcomes have been read. */
  lemma RestLost(e: Base, now: int, w: Write, reconnect: int, n: nat)
    requires Lost(e, n)
    ensures var f := Follow(e);
      var c := f.(queue := DropStale(f.queue, now));
      Lost(if c.host.connected then TrySend(Refill(c), now, w, reconnect) else c, n)
  {
    assert Lost(Follow(e), n);
    hide Refill, TrySend, Follow, DropStale;
    var f := Follow(e);
    var c := f.(queue := DropStale(f.queue, now));
    SameLost(f, c, n);
    assert Lost(Refill(c), n) by {
      hide Rtcm.Valid;
    }
    TrySendLost(Refill(c), now, w, reconnect, n);
  }

  lemma SameLost(b: Base, c: Base, n: nat)
    requires Lost(b, n) && c.messages == b.messages && c.log == b.log && c.fragments == b.fragments
    ensures Lost(c, n)
  {}

  /** What was accepted is not lost, whatever comes. */
  lemma AcceptedStays(b: Base, c: Base, n: nat, j: nat)
    requires j < |b.log| && b.log[j].message == n && |b.log| <= |c.log| && c.log[j].message == n
    ensures !Lost(c, n)
  {
    assert c.log[j] in c.log;
  }

  lemma {:induction false} ConsumeLog(b: Base, outcomes: seq<(u32, Outcome)>)
    ensures var c := Consume(b, outcomes);
      |c.log| == |b.log| && forall j :: 0 <= j < |b.log| ==> c.log[j].message == b.log[j].message
    decreases |outcomes|
  {
    if outcomes != [] { ConsumeLog(ConsumeOne(b, outcomes[0]), outcomes[1..]); }
  }

  lemma StepLog(b: Base, i: TickIn, now: int, w: Write, reconnect: int)
    ensures var c := Step(b, i, now, w, reconnect);
      |b.log| <= |c.log| && forall j :: 0 <= j < |b.log| ==> c.log[j].message == b.log[j].message
  {
    hide Tick, Consume, SendAir, A.Encode, NextIndex, DropStale, Rtcm.Valid;
    var t := Tick(b.host, i.(idle := Idle(b)), reconnect).0;
    ConsumeLog(b.(host := TakeOutcomes(t)), t.outcomes);
  }

  /**
   A failed or uncertain outcome clears the fragments that wait. The frame they
   belong to is then lost without a piece of it ever sent exactly if none of it had
   been accepted, that is, if it is not the frame that failed.
   */
  lemma FailureCosts(b: Base, i: TickIn, now: int, w: Write, reconnect: int)
    requires BaseInv(b) && !b.crashed && Drawn(i) && b.fragments != []
    requires var t := Tick(b.host, i.(idle := Idle(b)), reconnect).0;
      |t.outcomes| > 0 && !t.outcomes[0].1.Completed?
    ensures b.messages != [] && b.log != []
    ensures var n := |b.messages| - 1;
      && (Lost(Step(b, i, now, w, reconnect), n) <==> NextIndex(b) == 0)
      && (NextIndex(b) == 0 <==> b.log[|b.log| - 1].message != n)
  {
    hide Tick, Consume, Inv, Settles, LogInv, NextIndex, Follow, DropStale, Refill, TrySend, Lost, Noted, A.FragmentAt;
    var j := i.(idle := Idle(b));
    var t := Tick(b.host, j, reconnect).0;
    TickProps(b.host, j, reconnect);
    TickAgrees(b, t);
    var d := b.(host := TakeOutcomes(t));
    var o := t.outcomes[0];
    var e := ConsumeOne(d, o);
    InFlightLog(b);
    var n := |b.messages| - 1;
    WaitingOf(b);
    if NextIndex(b) == 0 {
      Earlier(b.messages, b.log, b.inFlight, n);
      assert Lost(ConsumeOne(d, o), n) by {
        ConsumeOneLost(d.(fragments := []), o, n);
      }
      RestLost(e, now, w, reconnect, n);
    } else {
      StepLog(b, i, now, w, reconnect);
      AcceptedStays(b, Step(b, i, now, w, reconnect), n, |b.log| - 1);
    }
  }

  lemma InFlightLog(b: Base)
    requires LogInv(b.messages, b.log, b.inFlight) && b.inFlight.Some?
    ensures |b.log| > 0
  {
    hide Genuine, Next;
  }

  lemma WaitingOf(b: Base)
    requires Waiting(b) && b.fragments != [] && |b.log| > 0
    ensures |b.messages| > 0
    ensures var last, n := b.log[|b.log| - 1].message, |b.messages| - 1;
      if NextIndex(b) == 0 then last < n else last == n
  {
    hide A.FragmentAt, NextIndex;
  }

  // ---- for good ---------------------------------------------------------------------

  lemma StepLost(b: Base, i: TickIn, now: int, w: Write, reconnect: int, n: nat)
    requires Lost(b, n)
    ensures Lost(Step(b, i, now, w, reconnect), n)
  {
    hide Tick, Consume, Follow, DropStale, Refill, TrySend, Lost;
    var t := Tick(b.host, i.(idle := Idle(b)), reconnect).0;
    var d := b.(host := TakeOutcomes(t));
    SameLost(b, d, n);
    ConsumeLost(d, t.outcomes, n);
    RestLost(Consume(d, t.outcomes), now, w, reconnect, n);
  }

  lemma PerformLost(b: Base, c: BaseCall, reconnect: int, n: nat)
    requires Lost(b, n)
    ensures Lost(Perform(b, c, reconnect), n)
  {
    hide Step;
    match c
    case StepCall(i, now, w) => StepLost(b, i, now, w, reconnect, n);
    case IngestCall(raws, now) => IngestKeeps(b, raws, now);
    case ResetCall =>
  }

  /** Once lost, no piece of the frame is ever accepted. */
  lemma {:induction false} LostForGood(states: seq<Base>, calls: seq<BaseCall>, reconnect: int, n: nat, k: nat, j: nat)
    requires IsRun(states, calls, reconnect) && k <= j < |states| && Lost(states[k], n)
    ensures forall a <- states[j].log :: a.message != n
    ensures Lost(states[j], n)
    decreases j
  {
    hide Perform, Callable;
    if k < j {
      LostForGood(states, calls, reconnect, n, k, j - 1);
      PerformLost(states[j - 1], calls[j - 1], reconnect, n);
    }
  }

  // ---- it happens -------------------------------------------------------------------

  const RECONNECT: int := 1000

  function At(draw: u32, now: int): Write { Write(draw, true, now) }

  function Turn(frames: seq<(Frame, Write)>, now: int): TickIn {
    TickIn(now, Opening(true, true, At(2, now)), true, frames, now, At(3, now), At(4, now), false)
  }

  const OPENED: Host := Host(true, 2, 1, None, false, false, Dict([1], map[1 := Request(HELLO, 0)]), [], [],
                             Dict([], map[]), 0, 0, 0, [Sealed(HELLO, 2, 1, [])])

  function Greeted(id: u32): Host {
    OPENED.(bootId := Some(id), handshake := true, radioReady := true, pending := Dict([], map[]))
  }

  function Sending(id: u32, p: bytes): Host {
    var h := Greeted(id);
    h.(sequence := 2, wire := h.wire + [Sealed(RADIO_SEND, 2, 2, p)],
       pending := Dict([2], map[2 := Request(RADIO_SEND, 0)]))
  }

  function TimedOut(id: u32, p: bytes): Host {
    Sending(id, p).(pending := Dict([], map[]), outcomes := [(2, Uncertain)], tombs := Dict([2], map[2 := 3001]))
  }

  lemma TickOpens()
    ensures Tick(Start(1), Turn([], 0), RECONNECT) == (OPENED, [])
    ensures OpenPort(Start(1), 0, Opening(true, true, At(2, 0)), RECONNECT) == OPENED
    ensures Expire(OPENED, 0, At(3, 0), RECONNECT) == OPENED
  {
    SetEmpty(1, Request(HELLO, 0));
    var none: seq<Frame> := [];
    assert none + [Sealed(HELLO, 2, 1, [])] == [Sealed(HELLO, 2, 1, [])];
    assert OpenPort(Start(1), 0, Opening(true, true, At(2, 0)), RECONNECT) == OPENED;
    TimeoutsOne(OPENED, 1, 0, At(3, 0), RECONNECT);
    assert Expire(OPENED, 0, At(3, 0), RECONNECT) == OPENED;
  }

  /** An INFO that says the radio is ready. */
  predicate SaysReady(info: bytes) { |info| == 22 && info[16] != 0 }

  lemma TickGreets(info: bytes)
    requires SaysReady(info)
    ensures OnFrame(OPENED, Sealed(INFO, 2, 1, info), At(3, 0), RECONNECT) == Greeted(Get32(info, 6))
    ensures Tick(OPENED, Turn([(Sealed(INFO, 2, 1, info), At(3, 0))], 0), RECONNECT).0 == Greeted(Get32(info, 6))
  {
    var f := Sealed(INFO, 2, 1, info);
    assert map[1 := Request(HELLO, 0)] - {1} == map[];
    var none: seq<u32> := [];
    assert [1][1..] == none && Without(none, 1) == none;
    assert OnFrame(OPENED, f, At(3, 0), RECONNECT) == Greeted(Get32(info, 6));
    var one := [(f, At(3, 0))];
    assert |one[1..]| == 0;
    assert OnFrames(OPENED, one, RECONNECT) == Greeted(Get32(info, 6));
  }

  lemma Sends(id: u32, p: bytes)
    requires |p| <= MAX_USB_PAYLOAD
    ensures SendAir(Greeted(id), p, At(5, 0), RECONNECT) == (Sending(id, p), Accepted(2))
  {
    SetEmpty(2, Request(RADIO_SEND, 0));
  }

  lemma TickWaits(id: u32, p: bytes)
    ensures Tick(Sending(id, p), Turn([], 0), RECONNECT).0 == Sending(id, p)
  {
    TimeoutsOne(Sending(id, p), 2, 0, At(3, 0), RECONNECT);
    assert Expire(Sending(id, p), 0, At(3, 0), RECONNECT) == Sending(id, p);
  }

  lemma TickTimesOut(id: u32, p: bytes)
    ensures Tick(Sending(id, p), Turn([], 3001), RECONNECT).0 == TimedOut(id, p)
  {
    TimeoutsOne(Sending(id, p), 2, 3001, At(3, 3001), RECONNECT);
    assert map[2 := Request(RADIO_SEND, 0)] - {2} == map[];
    var none: seq<u32> := [];
    assert [2][1..] == none && Without(none, 2) == none;
    var tombs: map<u32, int> := map[];
    assert tombs[2 := 3001] == map[2 := 3001];
    var os: seq<(u32, Outcome)> := [];
    assert os + [(2, Uncertain)] == [(2, Uncertain)];
    assert Expire(Sending(id, p), 3001, At(3, 3001), RECONNECT) == TimedOut(id, p);
  }

  /** The two frames cut, each in one piece. */
  function First(r: bytes): A.Frame
    requires Rtcm.Valid(r) && 0 < |r| <= A.PIECE
  {
    A.PiecesCover(|r|);
    A.FragmentAt(r, A.Key(2, 1), 0, 0)
  }

  lemma OnePiece(r: bytes, key: A.Key)
    requires Rtcm.Valid(r) && 0 < |r| <= A.PIECE && key.session != 0 && key.id != 0
    ensures A.Pieces(|r|) == 1
    ensures Wrap(A.Fragments(r, key, 0), 0) == [Unsent(A.FragmentAt(r, key, 0, 0), 0)]
    ensures A.Encode(A.FragmentAt(r, key, 0, 0)).Ok? && |A.Encode(A.FragmentAt(r, key, 0, 0)).value| <= MAX_USB_PAYLOAD
  {
    hide Rtcm.Valid, A.Encode;
    A.PiecesCover(|r|);
    A.FragmentReads(r, key, 0, 0);
    var f := A.FragmentAt(r, key, 0, 0);
    assert A.Encode(f).Ok? ==> |A.Encode(f).value| <= MAX_USB_PAYLOAD by {
      hide Crc.Crc16, Crc.Tail16;
    }
  }

  /** The state after the port has been opened. */
  function Afresh(r1: bytes, r2: bytes): Base
    requires Rtcm.Valid(r1) && 0 < |r1| <= A.PIECE
  {
    Base(OPENED, [Arrival(r2, 0, 1)], [Unsent(First(r1), 0)], None, 2, 1, 0, false,
         [r1, r2], [Message(r1, A.Key(2, 1), 0)], [], [])
  }

  function Payload(r1: bytes): bytes
    requires Rtcm.Valid(r1) && 0 < |r1| <= A.PIECE
  {
    match A.Encode(First(r1)) case Ok(p) => p case Err(_) => []
  }

  /** The state with the first frame's only fragment in flight. */
  function Away(id: u32, r1: bytes, r2: bytes): Base
    requires Rtcm.Valid(r1) && 0 < |r1| <= A.PIECE
  {
    Afresh(r1, r2).(host := Sending(id, Payload(r1)), fragments := [], inFlight := Some(2),
                    log := [Accept(0, 0, First(r1), 2, None)], tried := [Try(0, 0, Payload(r1))])
  }

  /** The state with the second frame cut behind it. */
  function Behind(id: u32, r1: bytes, r2: bytes): Base
    requires Rtcm.Valid(r1) && 0 < |r1| <= A.PIECE && Rtcm.Valid(r2) && 0 < |r2| <= A.PIECE
  {
    A.PiecesCover(|r2|);
    Away(id, r1, r2).(queue := [], fragments := [Unsent(A.FragmentAt(r2, A.Key(2, 2), 0, 0), 0)], messageId := 2,
                  messages := [Message(r1, A.Key(2, 1), 0), Message(r2, A.Key(2, 2), 1)])
  }

  /** Both frames have arrived, nothing else has happened. */
  function Arrived(r1: bytes, r2: bytes): Base {
    Begin(1).(queue := [Arrival(r1, 0, 0), Arrival(r2, 0, 1)], ingested := [r1, r2])
  }

  lemma Arrive(r1: bytes, r2: bytes)
    ensures Ingest(Begin(1), [r1, r2], 0) == Arrived(r1, r2)
  {
    var none: seq<bytes> := [];
    assert [r1, r2][1..] == [r2] && [r2][1..] == none;
    assert none + [r1] == [r1] && [r1] + [r2] == [r1, r2];
    var one := IngestOne(Begin(1), r1, 0);
    assert one.queue == [Arrival(r1, 0, 0)];
    assert [Arrival(r1, 0, 0)] + [Arrival(r2, 0, 1)] == [Arrival(r1, 0, 0), Arrival(r2, 0, 1)];
    assert Ingest(IngestOne(one, r2, 0), none, 0) == IngestOne(one, r2, 0);
    assert Ingest(one, [r2], 0) == IngestOne(one, r2, 0);
  }

  lemma StepOpens(r1: bytes, r2: bytes)
    requires Rtcm.Valid(r1) && 0 < |r1| <= A.PIECE
    ensures Step(Arrived(r1, r2), Turn([], 0), 0, At(5, 0), RECONNECT) == Afresh(r1, r2)
  {
    hide Tick, A.FragmentAt, A.Encode, Rtcm.Valid, A.Fragments, Wrap;
    TickOpens();
    OnePiece(r1, A.Key(2, 1));
    var b := Arrived(r1, r2);
    var none: seq<Message> := [];
    assert b.queue[1..] == [Arrival(r2, 0, 1)] && none + [Message(r1, A.Key(2, 1), 0)] == [Message(r1, A.Key(2, 1), 0)];
  }

  lemma StepSends(info: bytes, r1: bytes, r2: bytes)
    requires SaysReady(info) && Rtcm.Valid(r1) && 0 < |r1| <= A.PIECE
    ensures Step(Afresh(r1, r2), Turn([(Sealed(INFO, 2, 1, info), At(3, 0))], 0), 0, At(5, 0), RECONNECT)
         == Away(Get32(info, 6), r1, r2)
  {
    hide Tick, SendAir, A.FragmentAt, A.Encode, Rtcm.Valid, A.Fragments, Get32;
    TickGreets(info);
    var id := Get32(info, 6);
    OnePiece(r1, A.Key(2, 1));
    Sends(id, Payload(r1));
    var b := Afresh(r1, r2);
    NoAge(r1);
    var none: seq<Unsent> := [];
    var noLog: seq<Accept> := [];
    var noTry: seq<Try> := [];
    assert b.fragments[1..] == none;
    assert noLog + [Accept(0, 0, First(r1), 2, None)] == [Accept(0, 0, First(r1), 2, None)];
    assert noTry + [Try(0, 0, Payload(r1))] == [Try(0, 0, Payload(r1))];
  }

  lemma NoAge(r: bytes)
    requires Rtcm.Valid(r) && 0 < |r| <= A.PIECE
    ensures First(r).(age := 0) == First(r)
  {
    hide Rtcm.Valid;
  }

  lemma StepCuts(id: u32, r1: bytes, r2: bytes)
    requires Rtcm.Valid(r1) && 0 < |r1| <= A.PIECE && Rtcm.Valid(r2) && 0 < |r2| <= A.PIECE
    ensures Step(Away(id, r1, r2), Turn([], 0), 0, At(5, 0), RECONNECT) == Behind(id, r1, r2)
  {
    hide Tick, A.FragmentAt, A.Encode, Rtcm.Valid, A.Fragments, Wrap, Payload;
    TickWaits(id, Payload(r1));
    OnePiece(r2, A.Key(2, 2));
    var none: seq<Arrival> := [];
    assert Away(id, r1, r2).queue[1..] == none;
    assert [Message(r1, A.Key(2, 1), 0)] + [Message(r2, A.Key(2, 2), 1)]
        == [Message(r1, A.Key(2, 1), 0), Message(r2, A.Key(2, 2), 1)];
  }

  /** The calls: two frames arrive, the port opens, the modem answers, the first frame is sent and times out. */
  function Calls(info: bytes, r1: bytes, r2: bytes): seq<BaseCall> {
    [IngestCall([r1, r2], 0), StepCall(Turn([], 0), 0, At(5, 0)),
     StepCall(Turn([(Sealed(INFO, 2, 1, info), At(3, 0))], 0), 0, At(5, 0)),
     StepCall(Turn([], 0), 0, At(5, 0)), StepCall(Turn([], 3001), 3001, At(5, 3001))]
  }

  function States(id: u32, r1: bytes, r2: bytes): seq<Base>
    requires Rtcm.Valid(r1) && 0 < |r1| <= A.PIECE && Rtcm.Valid(r2) && 0 < |r2| <= A.PIECE
  {
    [Begin(1), Arrived(r1, r2), Afresh(r1, r2), Away(id, r1, r2), Behind(id, r1, r2),
     Step(Behind(id, r1, r2), Turn([], 3001), 3001, At(5, 3001), RECONNECT)]
  }

  /**
   From the start, for any two frames of one piece and any INFO that says the radio
   is ready: the first frame is sent, its outcome is uncertain, and the second is
   lost for good without ever having been tried.
   */
  lemma NextFrameLost(info: bytes, r1: bytes, r2: bytes)
    requires SaysReady(info)
    requires Rtcm.Valid(r1) && 0 < |r1| <= A.PIECE && Rtcm.Valid(r2) && 0 < |r2| <= A.PIECE
    ensures IsRun(States(Get32(info, 6), r1, r2), Calls(info, r1, r2), RECONNECT)
    ensures var b := States(Get32(info, 6), r1, r2)[5];
      b.messages == Behind(Get32(info, 6), r1, r2).messages && b.messages[1].raw == r2 && Lost(b, 1)
  {
    hide Step, Ingest, BaseInv, Rtcm.Valid, A.FragmentAt, Payload, Turn, Get32, Lost;
    var id := Get32(info, 6);
    var states, calls := States(id, r1, r2), Calls(info, r1, r2);
    Arrive(r1, r2);
    StepOpens(r1, r2);
    StepSends(info, r1, r2);
    StepCuts(id, r1, r2);
    Drawings(info);
    assert IsRun(states, calls, RECONNECT);
    RunInv(1, states, calls, RECONNECT, 4);
    LastStep(id, r1, r2);
  }

  lemma Drawings(info: bytes)
    ensures Drawn(Turn([], 0)) && Drawn(Turn([], 3001)) && Drawn(Turn([(Sealed(INFO, 2, 1, info), At(3, 0))], 0))
  {}

  lemma LastStep(id: u32, r1: bytes, r2: bytes)
    requires Rtcm.Valid(r1) && 0 < |r1| <= A.PIECE && Rtcm.Valid(r2) && 0 < |r2| <= A.PIECE
    requires BaseInv(Behind(id, r1, r2))
    ensures var b := Step(Behind(id, r1, r2), Turn([], 3001), 3001, At(5, 3001), RECONNECT);
      b.messages == Behind(id, r1, r2).messages && Lost(b, 1)
  {
    hide Tick, A.FragmentAt, A.Encode, Rtcm.Valid, Payload, BaseInv, SendAir, Lost;
    TickTimesOut(id, Payload(r1));
    Drawings([]);
    OnePiece(r2, A.Key(2, 2));
    ConsumeSingle(Behind(id, r1, r2).(host := TakeOutcomes(TimedOut(id, Payload(r1)))), [(2, Uncertain)]);
    FailureCosts(Behind(id, r1, r2), Turn([], 3001), 3001, At(5, 3001), RECONNECT);
  }

  /** There are such frames. */
  lemma SomeFrame() returns (r: bytes)
    ensures Rtcm.Valid(r) && 0 < |r| <= A.PIECE
  {
    hide Crc.Crc24, Crc.Tail24;
    var head: bytes := [0xD3, 0, 0];
    r := head + Crc.Tail24(Crc.Crc24(head));
    assert r[..|r| - 3] == head && r[|r| - 3..] == Crc.Tail24(Crc.Crc24(head));
  }
}
