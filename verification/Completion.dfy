/** The robot publishes every frame whose pieces arrive in time, once, and its clients get what it publishes. */
module Completion {
  import opened Bytes
  import opened Wrappers
  import opened EndToEnd
  import A = Application
  import R = Reassembler
  import P = ReassemblyProperties
  import Runs = ReassemblyRuns
  import Rtcm
  import S = RobotService
  import Tcp = TcpOutput
  import Seqs

  // ---- what the robot hears, as arrivals of fragments ------------------------------------

  /** No fragment of anything: adding it only expires what is late. */
  const BLANK: A.Frame := A.Frame(A.STOP_REQUEST, 0, 0, 0, [])

  /** The event is a fragment that can be collected under `k`. */
  predicate Bears(e: Event, k: A.Key) {
    && e.Heard? && A.Decode(e.payload).Ok?
    && var f := A.Decode(e.payload).value;
      f.typ == 0x30 && A.KeyOf(f) == k && R.Collectable(f)
  }

  function ArrivalOf(e: Event): (r: seq<Runs.Arrival>)
    ensures |r| <= 1
  {
    match e
    case Expire(now) => [Runs.Arrival(BLANK, now)]
    case Heard(payload, now) =>
      match Fragment(payload)
      case Some(f) => [Runs.Arrival(f, now)]
      case None => []
  }

  function Arrivals(events: seq<Event>): seq<Runs.Arrival>
    decreases |events|
  {
    if events == [] then []
    else Arrivals(events[..|events| - 1]) + ArrivalOf(events[|events| - 1])
  }

  lemma BlankExpires(s: R.State, now: int)
    ensures R.Add(s, BLANK, now) == (R.Expire(s, now), R.Rejected(A.FragmentBody))
  {
    hide R.Expire;
  }

  /** An event does to the reassembler what its arrival does. */
  lemma SameEffect(s: R.State, e: Event)
    ensures var a := ArrivalOf(e);
      var (t, out) := Receive(s, e);
      if a == [] then t == s && out == None
      else
        var (u, o) := R.Add(s, a[0].frame, a[0].now);
        t == u && out == (if o.Complete? then Some(o.raw) else None)
  {
    hide R.Add, R.Expire, A.Decode;
    if e.Expire? { BlankExpires(s, e.now); }
  }

  lemma {:induction false} PrefixState(s: R.State, run: seq<Runs.Arrival>, more: seq<Runs.Arrival>, n: nat)
    requires n <= |run|
    ensures Runs.StateAfter(s, run + more, n) == Runs.StateAfter(s, run, n)
    decreases n
  {
    hide R.Add;
    if n > 0 {
      PrefixState(s, run, more, n - 1);
      assert (run + more)[n - 1] == run[n - 1];
    }
  }

  /** The robot's state, event by event, is the reassembler's, arrival by arrival. */
  lemma {:induction false} StateIs(events: seq<Event>, es: seq<Event>)
    ensures After(events + es) == Runs.StateAfter(After(events), Arrivals(es), |Arrivals(es)|)
    decreases |es|
  {
    hide R.Add, Receive;
    if es == [] {
      assert events + es == events;
    } else {
      var front, e := es[..|es| - 1], es[|es| - 1];
      assert events + es == (events + front) + [e];
      S.OneEvent(events + front, e);
      StateIs(events, front);
      var run := Arrivals(front);
      SameEffect(After(events + front), e);
      PrefixState(After(events), run, ArrivalOf(e), |run|);
      if ArrivalOf(e) == [] { Seqs.Units(run); }
    }
  }

  /** The arrivals of a prefix are a prefix of the arrivals. */
  lemma {:induction false} ArrivalsPrefix(es: seq<Event>, n: nat)
    requires n <= |es|
    ensures |Arrivals(es[..n])| <= |Arrivals(es)| && Arrivals(es[..n]) == Arrivals(es)[..|Arrivals(es[..n])|]
    decreases |es|
  {
    if n < |es| {
      assert es[..|es| - 1][..n] == es[..n];
      ArrivalsPrefix(es[..|es| - 1], n);
    } else {
      assert es[..n] == es;
    }
  }

  /** Event `n` and its arrival, if it has one, yield the same. */
  lemma YieldIs(events: seq<Event>, es: seq<Event>, n: nat)
    requires n < |es| && ArrivalOf(es[n]) != []
    ensures var run := Arrivals(es);
      var at := |Arrivals(es[..n])|;
      && at < |run| && [run[at]] == ArrivalOf(es[n])
      && var o := Runs.OutcomeAt(After(events), run, at);
        Receive(After(events + es[..n]), es[n]).1 == (if o.Complete? then Some(o.raw) else None)
  {
    hide R.Add, Receive, ArrivalOf, After;
    var run, front := Arrivals(es), Arrivals(es[..n]);
    assert es[..n + 1][..n] == es[..n] && es[..n + 1][n] == es[n];
    assert Arrivals(es[..n + 1]) == front + ArrivalOf(es[n]);
    ArrivalsPrefix(es, n + 1);
    ArrivalsPrefix(es, n);
    StateIs(events, es[..n]);
    assert front + run[|front|..] == run;
    PrefixState(After(events), front, run[|front|..], |front|);
    SameEffect(After(events + es[..n]), es[n]);
  }

  /** Every arrival is that of some event. */
  lemma {:induction false} EventOf(es: seq<Event>, j: nat) returns (n: nat)
    requires j < |Arrivals(es)|
    ensures n < |es| && |Arrivals(es[..n])| == j && ArrivalOf(es[n]) == [Arrivals(es)[j]]
    decreases |es|
  {
    var front := es[..|es| - 1];
    if j < |Arrivals(front)| {
      n := EventOf(front, j);
      assert front[..n] == es[..n];
    } else {
      n := |es| - 1;
    }
  }

  lemma BearsOwn(e: Event, k: A.Key)
    ensures Bears(e, k) <==> e.Heard? && ArrivalOf(e) != [] && Runs.Own(ArrivalOf(e)[0], k)
  {
    hide A.Decode;
  }

  // ---- completeness, from payloads to publications ------------------------------------------

  /** What the robot publishes at an event. */
  lemma {:induction false} PublishedAt(events: seq<Event>, n: nat, raw: bytes)
    ensures (n, raw) in Published(events)
      <==> n < |events| && Receive(After(events[..n]), events[n]).1 == Some(raw)
    decreases |events|
  {
    hide Receive, After;
    if events != [] {
      var front := events[..|events| - 1];
      PublishedAt(front, n, raw);
      if n < |front| { assert front[..n] == events[..n]; }
    }
  }

  /** Nothing is published at event `n`. */
  ghost predicate Silent(events: seq<Event>, n: nat) { forall r: bytes :: (n, r) !in Published(events) }

  /** When the event happens. */
  function When(e: Event): int { match e case Heard(_, now) => now case Expire(now) => now }

  /** Piece `i` of the frame, sent less than a second after its source. */
  ghost predicate IsPiece(e: Event, k: A.Key, raw: bytes, i: nat)
    requires Rtcm.Valid(raw) && |raw| <= 1029 && i < A.Pieces(|raw|)
  {
    && e.Heard? && A.Decode(e.payload).Ok?
    && var f := A.Decode(e.payload).value;
      f.age < 1000 && f == A.FragmentAt(raw, k, f.age, i)
  }

  ghost predicate SomePiece(e: Event, k: A.Key, raw: bytes)
    requires Rtcm.Valid(raw) && |raw| <= 1029
  {
    exists i: nat :: i < A.Pieces(|raw|) && IsPiece(e, k, raw, i)
  }

  ghost predicate PieceHeard(es: seq<Event>, k: A.Key, raw: bytes, i: nat)
    requires Rtcm.Valid(raw) && |raw| <= 1029 && i < A.Pieces(|raw|)
  {
    exists n :: 0 <= n < |es| && IsPiece(es[n], k, raw, i)
  }

  /**
   The events begin with a piece of the frame, under a key neither held nor refused by
   then; all that bears the key is pieces of the frame; everything happens within 600 ms of
   the first; fewer than eight other frames are begun; and every piece is heard.
   */
  ghost predicate HeardInTime(s: R.State, es: seq<Event>, k: A.Key, raw: bytes) {
    && Rtcm.Valid(raw) && |raw| <= 1029 && R.Inv(s)
    && es != [] && SomePiece(es[0], k, raw)
    && k !in R.Expire(s, When(es[0])).items.vals && k !in R.Expire(s, When(es[0])).blocked.vals
    && (forall n :: 0 <= n < |es| ==> When(es[n]) - When(es[0]) < 600)
    && (forall n :: 0 <= n < |es| ==> Bears(es[n], k) ==> SomePiece(es[n], k, raw))
    && |Runs.Opened(s, Arrivals(es), k, |Arrivals(es)|)| < 8
    && (forall i: nat :: i < A.Pieces(|raw|) ==> PieceHeard(es, k, raw, i))
  }

  /** A piece can always be collected. */
  lemma PieceBears(e: Event, k: A.Key, raw: bytes, i: nat)
    requires Rtcm.Valid(raw) && |raw| <= 1029 && i < A.Pieces(|raw|) && IsPiece(e, k, raw, i)
    ensures Bears(e, k)
    ensures ArrivalOf(e) == [Runs.Arrival(A.Decode(e.payload).value, When(e))]
    ensures Runs.FreshPiece(ArrivalOf(e)[0].frame, k, raw) && ArrivalOf(e)[0].frame.body[4] as nat == i
  {
    hide A.Decode, Rtcm.Valid, A.Piece, A.MetaOf, R.WellShaped;
    var f := A.Decode(e.payload).value;
    P.FragmentShaped(raw, k, f.age, i);
  }

  lemma ArrivalWhen(e: Event)
    requires ArrivalOf(e) != []
    ensures ArrivalOf(e)[0].now == When(e)
    ensures e.Expire? ==> ArrivalOf(e)[0].frame == BLANK
  {
    hide A.Decode;
  }

  lemma BlankNotOwn(now: int, k: A.Key)
    ensures !Runs.Own(Runs.Arrival(BLANK, now), k)
  {
    hide R.WellShaped;
  }

  lemma OwnArrival(s: R.State, es: seq<Event>, k: A.Key, raw: bytes, j: nat)
    requires HeardInTime(s, es, k, raw) && j < |Arrivals(es)|
    ensures var a := Arrivals(es)[j];
      && a.now - When(es[0]) < 600 && (Runs.Own(a, k) ==> Runs.FreshPiece(a.frame, k, raw))
  {
    hide Bears, ArrivalOf, Arrivals, Runs.Own, Runs.FreshPiece, Runs.Opened, R.Expire, R.Inv, IsPiece, PieceHeard;
    var n := EventOf(es, j);
    ArrivalWhen(es[n]);
    BearsOwn(es[n], k);
    BlankNotOwn(When(es[n]), k);
    var a := Arrivals(es)[j];
    assert a == ArrivalOf(es[n])[0];
    if Runs.Own(a, k) {
      assert a == Runs.Arrival(a.frame, a.now);
      var i: nat :| i < A.Pieces(|raw|) && IsPiece(es[n], k, raw, i);
      PieceBears(es[n], k, raw, i);
    }
  }

  lemma FirstArrival(es: seq<Event>)
    requires es != [] && ArrivalOf(es[0]) != []
    ensures Arrivals(es) != [] && Arrivals(es)[0] == ArrivalOf(es[0])[0]
  {
    hide ArrivalOf;
    ArrivalsPrefix(es, 1);
    assert es[..1][..0] == [] && es[..1][0] == es[0];
    assert Arrivals(es[..1]) == Arrivals(es[..1][..0]) + ArrivalOf(es[0]);
  }

  lemma Delivered(s: R.State, es: seq<Event>, k: A.Key, raw: bytes)
    requires HeardInTime(s, es, k, raw)
    ensures Runs.Delivery(s, Arrivals(es), k, raw)
  {
    hide Bears, ArrivalOf, Arrivals, Runs.Own, Runs.FreshPiece, Runs.Opened, R.Expire, R.Inv, IsPiece, PieceHeard;
    var run := Arrivals(es);
    var i: nat :| i < A.Pieces(|raw|) && IsPiece(es[0], k, raw, i);
    PieceBears(es[0], k, raw, i);
    BearsOwn(es[0], k);
    FirstArrival(es);
    ArrivalWhen(es[0]);
    forall a <- run
      ensures a.now - run[0].now < 600 && (Runs.Own(a, k) ==> Runs.FreshPiece(a.frame, k, raw))
    {
      var j :| 0 <= j < |run| && run[j] == a;
      OwnArrival(s, es, k, raw, j);
    }
  }

  lemma {:induction false} SeenHas(run: seq<Runs.Arrival>, k: A.Key, j: nat, n: nat)
    requires j < n <= |run| && Runs.Own(run[j], k)
    ensures |run[j].frame.body| >= 6 && run[j].frame.body[4] as nat in Runs.Seen(run, k, n)
    decreases n
  {
    hide R.WellShaped;
    OwnLong(run[j], k);
    if j < n - 1 { SeenHas(run, k, j, n - 1); }
  }

  lemma OwnLong(a: Runs.Arrival, k: A.Key)
    requires Runs.Own(a, k)
    ensures |a.frame.body| >= 6
  {}

  lemma AllSeen(s: R.State, es: seq<Event>, k: A.Key, raw: bytes)
    requires HeardInTime(s, es, k, raw)
    ensures Runs.Seen(Arrivals(es), k, |Arrivals(es)|) == R.Below(A.Pieces(|raw|))
  {
    Delivered(s, es, k, raw);
    hide Bears, ArrivalOf, Arrivals, Runs.Own, Runs.FreshPiece, Runs.Opened, R.Expire, R.Inv, Runs.Seen, Runs.Delivery;
    hide IsPiece, R.Below;
    var run := Arrivals(es);
    Runs.SeenGrows(s, run, k, raw, |run|, |run|);
    forall i <- R.Below(A.Pieces(|raw|))
      ensures i in Runs.Seen(run, k, |run|)
    {
      BelowIs(A.Pieces(|raw|), i);
      assert PieceHeard(es, k, raw, i);
      var n :| 0 <= n < |es| && IsPiece(es[n], k, raw, i);
      PieceBears(es[n], k, raw, i);
      BearsOwn(es[n], k);
      var j := ArrivesAt(es, n);
      SeenHas(run, k, j, |run|);
    }
  }

  lemma BelowIs(n: nat, i: nat)
    requires i in R.Below(n)
    ensures i < n
  {}

  lemma ArrivesAt(es: seq<Event>, n: nat) returns (j: nat)
    requires n < |es| && ArrivalOf(es[n]) != []
    ensures j < |Arrivals(es)| && Arrivals(es)[j] == ArrivalOf(es[n])[0]
  {
    hide ArrivalOf;
    j := |Arrivals(es[..n])|;
    assert es[..n + 1][..n] == es[..n] && es[..n + 1][n] == es[n];
    assert Arrivals(es[..n + 1]) == Arrivals(es[..n]) + ArrivalOf(es[n]);
    ArrivalsPrefix(es, n + 1);
  }

  /**
   Completeness of the robot. Let every piece of a frame be heard, in any order, with
   any repetitions and anything else in between, within 600 ms of the first, while
   fewer than eight other frames are begun. Then the robot publishes the frame, at one
   of these events, and nothing at any other event that bears its key.
   */
  lemma PublishedOnce(events: seq<Event>, es: seq<Event>, k: A.Key, raw: bytes) returns (m: nat)
    requires HeardInTime(After(events), es, k, raw)
    ensures m < |es| && Bears(es[m], k) && (|events| + m, raw) in Published(events + es)
    ensures forall n :: 0 <= n < |es| && n != m && Bears(es[n], k) ==> Silent(events + es, |events| + n)
  {
    hide HeardInTime, Runs.Delivery, Runs.Seen, R.Below, Published, After, Arrivals, Bears, Silent;
    Delivered(After(events), es, k, raw);
    AllSeen(After(events), es, k, raw);
    m := PublishedFrom(events, es, k, raw);
  }

  lemma PublishedFrom(events: seq<Event>, es: seq<Event>, k: A.Key, raw: bytes) returns (m: nat)
    requires Runs.Delivery(After(events), Arrivals(es), k, raw)
    requires Runs.Seen(Arrivals(es), k, |Arrivals(es)|) == R.Below(A.Pieces(|raw|))
    ensures m < |es| && Bears(es[m], k) && (|events| + m, raw) in Published(events + es)
    ensures forall n :: 0 <= n < |es| && n != m && Bears(es[n], k) ==> Silent(events + es, |events| + n)
  {
    hide Runs.Delivery, Runs.Seen, R.Below, Runs.OutcomeAt, Published, After, Receive, Arrivals, ArrivalOf, Bears;
    hide Runs.Own, Silent;
    var run := Arrivals(es);
    var j := Runs.Completeness(After(events), run, k, raw);
    m := EventOf(es, j);
    YieldIs(events, es, m);
    BearsOwn(es[m], k);
    OwnHeard(es[m], k);
    Placed(events, es, m, raw);
    forall n | 0 <= n < |es| && n != m && Bears(es[n], k)
      ensures Silent(events + es, |events| + n)
    {
      BearsOwn(es[n], k);
      YieldIs(events, es, n);
      Apart(es, m, n);
      StaysSilent(events, es, n);
    }
  }

  lemma StaysSilent(events: seq<Event>, es: seq<Event>, n: nat)
    requires n < |es| && Receive(After(events + es[..n]), es[n]).1 == None
    ensures Silent(events + es, |events| + n)
  {
    hide Receive, After, Published;
    var at, all := |events| + n, events + es;
    forall r: bytes
      ensures (at, r) !in Published(all)
    {
      Placed(events, es, n, r);
    }
  }

  lemma OwnHeard(e: Event, k: A.Key)
    requires ArrivalOf(e) != [] && Runs.Own(ArrivalOf(e)[0], k)
    ensures e.Heard?
  {}

  lemma Placed(events: seq<Event>, es: seq<Event>, n: nat, raw: bytes)
    requires n < |es|
    ensures (|events| + n, raw) in Published(events + es) <==> Receive(After(events + es[..n]), es[n]).1 == Some(raw)
  {
    hide Receive, After, Published;
    PublishedAt(events + es, |events| + n, raw);
    assert (events + es)[..|events| + n] == events + es[..n] && (events + es)[|events| + n] == es[n];
  }

  /** Different events with arrivals have different arrivals. */
  lemma Apart(es: seq<Event>, m: nat, n: nat)
    requires m < |es| && n < |es| && m != n && ArrivalOf(es[m]) != [] && ArrivalOf(es[n]) != []
    ensures |Arrivals(es[..m])| != |Arrivals(es[..n])|
  {
    hide ArrivalOf;
    var low, high := if m < n then m else n, if m < n then n else m;
    assert es[..high][..low + 1] == es[..low + 1];
    ArrivalsPrefix(es[..high], low + 1);
    assert es[..low + 1][..low] == es[..low] && es[..low + 1][low] == es[low];
    assert Arrivals(es[..low + 1]) == Arrivals(es[..low]) + ArrivalOf(es[low]);
  }

  // ---- from publications to the clients ---------------------------------------------------------

  /** What a step of the robot does to its output: each frame in turn, and a flush. */
  function Calls(frames: seq<bytes>, sockets: seq<S.Sockets>, last: S.Sockets): seq<Tcp.Call>
    requires |frames| <= |sockets|
  {
    if frames == [] then [Tcp.FlushCall(last.before, last.now, last.answers)]
    else
      var k := sockets[0];
      [Tcp.PublishCall(frames[0], k.before, k.between, k.now, k.answers)] + Calls(frames[1..], sockets[1..], last)
  }

  /**
   The output of a step is that of these calls, and what they publish is exactly the
   frames completed; so a client that stays connected misses none of them.
   */
  lemma {:induction false} StepPublishesAll(
    o: Tcp.Output, frames: seq<bytes>, sockets: seq<S.Sockets>, last: S.Sockets)
    requires |frames| <= |sockets|
    ensures var calls := Calls(frames, sockets, last);
      && Tcp.DoAll(o, calls)
         == Tcp.Flush(S.PublishEach(o, frames, sockets), last.before, last.now, last.answers)
      && Tcp.Raws(calls) == frames
    decreases |frames|
  {
    hide Tcp.Publish, Tcp.Flush;
    var none: seq<Tcp.Call> := [];
    var calls := Calls(frames, sockets, last);
    if frames == [] {
      assert calls[1..] == none;
      assert Tcp.DoAll(Tcp.Do(o, calls[0]), none) == Tcp.Do(o, calls[0]);
      assert Tcp.Raws(none) == [];
    } else {
      var k := sockets[0];
      assert calls[1..] == Calls(frames[1..], sockets[1..], last);
      StepPublishesAll(
        Tcp.Publish(o, frames[0], k.before, k.between, k.now, k.answers), frames[1..], sockets[1..], last);
      assert [frames[0]] + frames[1..] == frames;
    }
  }
}
