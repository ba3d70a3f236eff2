/** From the base's RTCM input to the robot's output, over an air link that forges nothing. */
module EndToEnd {
  import opened Bytes
  import opened Wrappers
  import opened BaseService
  import opened Uplink
  import A = Application
  import R = Reassembler
  import P = ReassemblyProperties
  import Rtcm

  // ---- the robot ---------------------------------------------------------------

  datatype Event = Heard(payload: bytes, now: int) | Expire(now: int)

  /** The robot takes decodable RTCM fragments; everything else it only counts. */
  function Fragment(payload: bytes): Option<A.Frame> {
    match A.Decode(payload)
    case Ok(f) => if f.typ == A.RTCM_FRAGMENT then Some(f) else None
    case Err(_) => None
  }

  function Receive(s: R.State, e: Event): (R.State, Option<bytes>) {
    match e
    case Expire(now) => (R.Expire(s, now), None)
    case Heard(payload, now) =>
      match Fragment(payload)
      case None => (s, None)
      case Some(f) =>
        var (t, out) := R.Add(s, f, now);
        (t, if out.Complete? then Some(out.raw) else None)
  }

  /** The robot's state after the events. */
  function After(events: seq<Event>): R.State
    decreases |events|
  {
    if events == [] then R.EMPTY else Receive(After(events[..|events| - 1]), events[|events| - 1]).0
  }

  /** What it published, and at which event. */
  function Published(events: seq<Event>): seq<(nat, bytes)>
    decreases |events|
  {
    if events == [] then []
    else
      var n := |events| - 1;
      var out := Receive(After(events[..n]), events[n]).1;
      Published(events[..n]) + if out.Some? then [(n, out.value)] else []
  }

  // ---- what is on the air -------------------------------------------------------

  /** The frame assigned to each key. */
  function Assigned(messages: seq<Message>): map<A.Key, bytes>
    decreases |messages|
  {
    if messages == [] then map[]
    else
      var n := |messages| - 1;
      Assigned(messages[..n])[messages[n].key := messages[n].raw]
  }

  ghost predicate DistinctKeys(messages: seq<Message>) {
    forall i, j :: 0 <= i < j < |messages| ==> messages[i].key != messages[j].key
  }

  lemma {:induction false} AssignedAt(messages: seq<Message>, i: nat)
    requires DistinctKeys(messages) && i < |messages|
    ensures messages[i].key in Assigned(messages) && Assigned(messages)[messages[i].key] == messages[i].raw
    decreases |messages|
  {
    var n := |messages| - 1;
    if i < n {
      assert messages[..n][i] == messages[i];
      AssignedAt(messages[..n], i);
    }
  }

  /** A fragment written by the base decodes, at the robot, to that piece of its message. */
  lemma TryReads(messages: seq<Message>, t: Try)
    requires GenuineTry(messages, t)
    ensures var m := messages[t.message];
      && Fragment(t.payload).Some?
      && var f := Fragment(t.payload).value;
      && f.age < A.TTL_MS && f == A.FragmentAt(m.raw, m.key, f.age, t.index) && A.KeyOf(f) == m.key
  {
    hide A.Encode, A.Decode, Rtcm.Valid, A.Piece;
    var m := messages[t.message];
    var age: u16 :| age < A.TTL_MS && A.Encode(A.FragmentAt(m.raw, m.key, age, t.index)) == Ok(t.payload);
    A.FragmentReads(m.raw, m.key, age, t.index);
  }

  lemma TryGenuine(messages: seq<Message>, t: Try)
    requires GenuineTry(messages, t) && DistinctKeys(messages)
    ensures Fragment(t.payload).Some? && P.Genuine(Fragment(t.payload).value, Assigned(messages))
    ensures Assigned(messages)[A.KeyOf(Fragment(t.payload).value)] == messages[t.message].raw
  {
    hide Fragment, A.FragmentAt, Rtcm.Valid;
    TryReads(messages, t);
    AssignedAt(messages, t.message);
  }

  /** What is heard is what the base wrote, or nothing the robot takes for a fragment. */
  ghost predicate Unforged(tried: seq<Try>, e: Event) {
    e.Heard? && Fragment(e.payload).Some? ==> exists t :: t in tried && t.payload == e.payload
  }

  // ---- integrity under loss, duplication, delay and reordering ------------------------

  lemma ExpireFaithful(s: R.State, now: int, sent: map<A.Key, bytes>)
    requires R.Inv(s) && P.Faithful(s, sent)
    ensures R.Inv(R.Expire(s, now)) && P.Faithful(R.Expire(s, now), sent)
  {
    hide R.Expire, P.Holds, R.Inv;
    R.ExpireProps(s, now);
  }

  lemma ReceiveFaithful(messages: seq<Message>, tried: seq<Try>, s: R.State, e: Event)
    requires Trail(messages, tried) && DistinctKeys(messages) && Unforged(tried, e)
    requires R.Inv(s) && P.Faithful(s, Assigned(messages))
    ensures var (t, out) := Receive(s, e);
      && R.Inv(t) && P.Faithful(t, Assigned(messages))
      && (out.Some? ==> exists y :: y in tried && y.message < |messages| && out.value == messages[y.message].raw)
  {
    hide R.Inv, P.Faithful, R.Add, R.Expire, P.Genuine, Assigned, Fragment, GenuineTry;
    match e
    case Expire(now) => ExpireFaithful(s, now, Assigned(messages));
    case Heard(payload, now) =>
      if Fragment(payload).Some? {
        var t :| t in tried && t.payload == payload;
        InRange(messages, t);
        TryGenuine(messages, t);
        P.AddFaithful(s, Fragment(payload).value, now, Assigned(messages));
      }
  }

  lemma InRange(messages: seq<Message>, t: Try)
    requires GenuineTry(messages, t)
    ensures t.message < |messages|
  {}

  lemma {:induction false} AfterFaithful(messages: seq<Message>, tried: seq<Try>, events: seq<Event>)
    requires Trail(messages, tried) && DistinctKeys(messages) && forall e <- events :: Unforged(tried, e)
    ensures R.Inv(After(events)) && P.Faithful(After(events), Assigned(messages))
    decreases |events|
  {
    hide R.Inv, Receive, Trail, Unforged, DistinctKeys;
    if events == [] {
      EmptyFaithful(Assigned(messages));
    } else {
      hide P.Faithful;
      var n := |events| - 1;
      AfterFaithful(messages, tried, events[..n]);
      ReceiveFaithful(messages, tried, After(events[..n]), events[n]);
    }
  }

  lemma EmptyFaithful(sent: map<A.Key, bytes>)
    ensures R.Inv(R.EMPTY) && P.Faithful(R.EMPTY, sent)
  {}

  /** Everything published is the frame of some message, whatever the air does to the packets short of forging them. */
  lemma {:induction false} Integrity(messages: seq<Message>, tried: seq<Try>, events: seq<Event>)
    requires Trail(messages, tried) && DistinctKeys(messages) && forall e <- events :: Unforged(tried, e)
    ensures forall p <- Published(events) :: exists m :: m in messages && m.raw == p.1
    decreases |events|
  {
    hide R.Inv, P.Faithful, Receive, Trail, Unforged, DistinctKeys;
    if events != [] {
      var n := |events| - 1;
      Integrity(messages, tried, events[..n]);
      AfterFaithful(messages, tried, events[..n]);
      ReceiveFaithful(messages, tried, After(events[..n]), events[n]);
      var out := Receive(After(events[..n]), events[n]).1;
      if out.Some? {
        var y :| y in tried && y.message < |messages| && out.value == messages[y.message].raw;
        assert messages[y.message] in messages;
      }
    }
  }

  /**
   End to end: over every fresh run of the base and everything the robot may hear
   of what reached the wire, what the robot publishes was ingested.
   */
  lemma EndToEndIntegrity(
      session: u32, states: seq<Base>, calls: seq<BaseCall>, reconnect: int, k: nat, events: seq<Event>)
    requires session != 0 && IsFreshRun(states, calls, reconnect) && states[0] == Begin(session) && k < |states|
    requires forall e <- events :: e.Heard? && Fragment(e.payload).Some? ==> e.payload in WireSends(states[k].host.wire)
    ensures forall p <- Published(events) :: p.1 in states[k].ingested
  {
    hide IsFreshRun, Trail, WireSends, Fragment, Published;
    var b := states[k];
    WireOrder(session, states, calls, reconnect, k);
    forall e <- events
      ensures Unforged(b.tried, e)
    {
      if e.Heard? && Fragment(e.payload).Some? {
        var i :| 0 <= i < |b.tried| && Payloads(b.tried)[i] == e.payload;
        assert b.tried[i] in b.tried;
      }
    }
    Integrity(b.messages, b.tried, events);
  }

  // ---- order over a lossy link that keeps it ---------------------------------------------

  predicate Relevant(e: Event) { e.Heard? && Fragment(e.payload).Some? }

  /** `source` says which write each fragment heard is: later ones are later writes. */
  ghost predicate InSequence(tried: seq<Try>, events: seq<Event>, source: seq<nat>) {
    && |source| == |events|
    && (forall i :: 0 <= i < |events| && Relevant(events[i]) ==>
          source[i] < |tried| && tried[source[i]].payload == events[i].payload)
    && (forall i, j :: 0 <= i < j < |events| && Relevant(events[i]) && Relevant(events[j]) ==> source[i] < source[j])
  }

  /** Piece `j` under `key` is among the first `n` writes. */
  ghost predicate Supplied(messages: seq<Message>, tried: seq<Try>, n: nat, key: A.Key, j: nat) {
    exists k :: 0 <= k < n && k < |tried| && tried[k].message < |messages|
                && messages[tried[k].message].key == key && tried[k].index == j
  }

  predicate Collected(s: R.State, key: A.Key, j: nat) { key in s.items.vals && j in s.items.vals[key].parts }

  /** Everything collected was supplied. */
  ghost predicate Stocked(messages: seq<Message>, tried: seq<Try>, n: nat, s: R.State) {
    forall key, j :: Collected(s, key, j) ==> Supplied(messages, tried, n, key, j)
  }

  /** Adding a genuine piece adds that piece, and completes only if it was the only one missing. */
  lemma AddParts(s: R.State, f: A.Frame, now: int, sent: map<A.Key, bytes>, i: nat)
    requires R.Inv(s) && P.Faithful(s, sent) && A.KeyOf(f) in sent
    requires var raw := sent[A.KeyOf(f)];
      Rtcm.Valid(raw) && |raw| <= Rtcm.MAX_FRAME && i < A.Pieces(|raw|) && f == A.FragmentAt(raw, A.KeyOf(f), f.age, i)
    ensures var (t, out) := R.Add(s, f, now);
      && (forall key, j :: Collected(t, key, j) ==> Collected(s, key, j) || (key == A.KeyOf(f) && j == i))
      && (out.Complete? ==> out.raw == sent[A.KeyOf(f)])
      && (out.Complete? ==> forall j :: 0 <= j < A.Pieces(|out.raw|) && j != i ==> Collected(s, A.KeyOf(f), j))
  {
    hide R.Expire, R.Open, R.Store, Rtcm.Valid, R.Inv, P.Holds;
    var key := A.KeyOf(f);
    var raw := sent[key];
    A.FragmentReads(raw, key, f.age, i);
    P.FragmentShaped(raw, key, f.age, i);
    R.ExpireProps(s, now);
    var t := R.Expire(s, now);
    if f.age < A.TTL_MS && key !in t.blocked.vals {
      var m := A.MetaOf(raw);
      R.OpenInv(t, key, m, now);
      var u := R.Open(t, key, m, now);
      P.HoldsNothing(R.Assembly(now, m, map[]), raw);
      P.StoreElsewhere(u, key, raw, i);
      StoreParts(u, key, raw, i);
      var out := R.Add(s, f, now).1;
      if out.Complete? {
        forall j | 0 <= j < A.Pieces(|out.raw|) && j != i
          ensures Collected(s, key, j)
        {
          assert j in u.items.vals[key].parts;
        }
      }
    }
  }

  lemma StoreParts(s: R.State, key: A.Key, raw: bytes, i: nat)
    requires R.Inv(s) && key in s.items.vals && P.Holds(s.items.vals[key], raw) && i < A.Pieces(|raw|)
    ensures var (t, out) := R.Store(s, key, A.MetaOf(raw), i, A.Piece(raw, i));
      && (key in t.items.vals ==> forall j <- t.items.vals[key].parts :: j in s.items.vals[key].parts || j == i)
      && (out.Complete? ==> out.raw == raw)
      && (out.Complete? ==> forall j :: 0 <= j < A.Pieces(|raw|) && j != i ==> j in s.items.vals[key].parts)
  {
    hide R.Retire, Rtcm.Valid, R.Shaped, P.Holds, A.MetaOf;
    P.HoldsValid(s.items.vals[key], raw);
    P.StorePiece(s, key, raw, i);
    var a := s.items.vals[key];
    if i !in a.parts {
      var a' := a.(parts := a.parts[i := A.Piece(raw, i)]);
      var u := s.(items := s.items.Set(key, a'));
      R.RetireItems(u, key);
      if a'.parts.Keys == R.Below(A.Pieces(|raw|)) {
        forall j | 0 <= j < A.Pieces(|raw|) && j != i
          ensures j in a.parts
        {
          assert j in a'.parts.Keys;
        }
      }
    }
  }

  lemma Distinguished(messages: seq<Message>, i: nat, j: nat)
    requires DistinctKeys(messages) && i < |messages| && j < |messages| && messages[i].key == messages[j].key
    ensures i == j
  {}

  /** The writes of one message come in the order of its pieces. */
  lemma LaterPiece(messages: seq<Message>, tried: seq<Try>, i: nat, j: nat)
    requires Trail(messages, tried) && i < j < |tried| && tried[i].message == tried[j].message
    ensures tried[i].index < tried[j].index
  {
    hide GenuineTry;
    assert Before(tried[i], tried[j].message, tried[j].index);
  }

  /** The robot hears write number `k`, having heard only earlier ones: it completes a frame only by its last piece. */
  lemma ReceiveStocked(messages: seq<Message>, tried: seq<Try>, k: nat, s: R.State, payload: bytes, now: int)
    requires Trail(messages, tried) && DistinctKeys(messages) && k < |tried| && tried[k].payload == payload
    requires R.Inv(s) && P.Faithful(s, Assigned(messages)) && Stocked(messages, tried, k, s)
    ensures var (t, out) := Receive(s, Heard(payload, now));
      && Stocked(messages, tried, k + 1, t)
      && (out.Some? ==> tried[k].message < |messages| && out.value == messages[tried[k].message].raw
                        && tried[k].index == A.Pieces(|out.value|) - 1)
  {
    hide R.Inv, P.Faithful, R.Add, Fragment, A.FragmentAt, Rtcm.Valid, Trail, DistinctKeys, Assigned, A.Pieces,
         Supplied;
    var y := tried[k];
    GenuineAt(messages, tried, k);
    var m := messages[y.message];
    TryReads(messages, y);
    TryGenuine(messages, y);
    var f := Fragment(payload).value;
    GenuineParts(messages, y);
    AddParts(s, f, now, Assigned(messages), y.index);
    var (t, out) := R.Add(s, f, now);
    forall key, j | Collected(t, key, j)
      ensures Supplied(messages, tried, k + 1, key, j)
    {
      if Collected(s, key, j) {
        SuppliedLater(messages, tried, k, key, j);
      } else {
        SuppliedBy(messages, tried, k);
      }
    }
    var last := A.Pieces(|m.raw|) - 1;
    if out.Complete? && y.index != last {
      assert 0 <= last < A.Pieces(|out.raw|);
      assert Collected(s, A.KeyOf(f), last);
      assert Supplied(messages, tried, k, m.key, last);
      NotYet(messages, tried, k, last);
    }
  }

  lemma GenuineAt(messages: seq<Message>, tried: seq<Try>, k: nat)
    requires Trail(messages, tried) && k < |tried|
    ensures GenuineTry(messages, tried[k]) && tried[k].message < |messages|
  {}

  lemma GenuineParts(messages: seq<Message>, t: Try)
    requires GenuineTry(messages, t)
    ensures var m := messages[t.message];
      Rtcm.Valid(m.raw) && |m.raw| <= Rtcm.MAX_FRAME && t.index < A.Pieces(|m.raw|)
  {}

  lemma SuppliedLater(messages: seq<Message>, tried: seq<Try>, n: nat, key: A.Key, j: nat)
    requires Supplied(messages, tried, n, key, j)
    ensures forall m :: m >= n ==> Supplied(messages, tried, m, key, j)
  {}

  lemma SuppliedBy(messages: seq<Message>, tried: seq<Try>, k: nat)
    requires k < |tried| && tried[k].message < |messages|
    ensures Supplied(messages, tried, k + 1, messages[tried[k].message].key, tried[k].index)
  {}

  /** A later piece of a message cannot have been heard before an earlier one. */
  lemma NotYet(messages: seq<Message>, tried: seq<Try>, k: nat, j: nat)
    requires Trail(messages, tried) && DistinctKeys(messages) && k < |tried| && tried[k].message < |messages|
    requires tried[k].index < j
    ensures !Supplied(messages, tried, k, messages[tried[k].message].key, j)
  {
    hide Trail, DistinctKeys;
    var key := messages[tried[k].message].key;
    if Supplied(messages, tried, k, key, j) {
      var i :| 0 <= i < k && tried[i].message < |messages|
               && messages[tried[i].message].key == key && tried[i].index == j;
      Distinguished(messages, tried[i].message, tried[k].message);
      LaterPiece(messages, tried, i, k);
    }
  }

  lemma StockedLater(messages: seq<Message>, tried: seq<Try>, n: nat, m: nat, s: R.State)
    requires Stocked(messages, tried, n, s) && n <= m
    ensures Stocked(messages, tried, m, s)
  {
    hide Supplied;
    forall key, j | Collected(s, key, j)
      ensures Supplied(messages, tried, m, key, j)
    {
      SuppliedLater(messages, tried, n, key, j);
    }
  }

  lemma ExpireStocked(messages: seq<Message>, tried: seq<Try>, n: nat, s: R.State, now: int)
    requires R.Inv(s) && Stocked(messages, tried, n, s)
    ensures Stocked(messages, tried, n, R.Expire(s, now))
  {
    hide R.Inv, R.Expire, Supplied;
    R.ExpireProps(s, now);
  }

  lemma SequenceUnforged(tried: seq<Try>, events: seq<Event>, source: seq<nat>)
    requires InSequence(tried, events, source)
    ensures forall e <- events :: Unforged(tried, e)
  {
    hide Fragment;
    forall e <- events
      ensures Unforged(tried, e)
    {
      var i :| 0 <= i < |events| && events[i] == e;
      if Relevant(e) { assert tried[source[i]] in tried; }
    }
  }

  lemma SequencePrefix(tried: seq<Try>, events: seq<Event>, source: seq<nat>, n: nat)
    requires InSequence(tried, events, source) && n <= |events|
    ensures InSequence(tried, events[..n], source[..n])
  {
    hide Relevant;
  }

  lemma {:induction false} AfterStocked(
      messages: seq<Message>, tried: seq<Try>, events: seq<Event>, source: seq<nat>, bound: nat)
    requires Trail(messages, tried) && DistinctKeys(messages) && InSequence(tried, events, source)
    requires forall i :: 0 <= i < |events| && Relevant(events[i]) ==> source[i] < bound
    ensures Stocked(messages, tried, bound, After(events))
    decreases |events|
  {
    hide Trail, DistinctKeys, Stocked, R.Inv, P.Faithful, R.Expire, R.Add, Fragment;
    if events == [] {
      NothingStocked(messages, tried, bound);
    } else {
      var n := |events| - 1;
      SequencePrefix(tried, events, source, n);
      var e, s := events[n], After(events[..n]);
      SequenceUnforged(tried, events[..n], source[..n]);
      AfterFaithful(messages, tried, events[..n]);
      if Relevant(e) {
        var k := source[n];
        AfterStocked(messages, tried, events[..n], source[..n], k);
        ReceiveStocked(messages, tried, k, s, e.payload, e.now);
        StockedLater(messages, tried, k + 1, bound, Receive(s, e).0);
      } else {
        AfterStocked(messages, tried, events[..n], source[..n], bound);
        if e.Expire? { ExpireStocked(messages, tried, bound, s, e.now); }
      }
    }
  }

  lemma NothingStocked(messages: seq<Message>, tried: seq<Try>, n: nat)
    ensures Stocked(messages, tried, n, R.EMPTY)
  {}

  /** A publication is the frame whose last piece was just heard. */
  ghost predicate Last(messages: seq<Message>, tried: seq<Try>, events: seq<Event>, source: seq<nat>, p: (nat, bytes)) {
    && p.0 < |events| && p.0 < |source| && Relevant(events[p.0]) && source[p.0] < |tried|
    && var y := tried[source[p.0]];
    && y.message < |messages| && p.1 == messages[y.message].raw && y.index == A.Pieces(|p.1|) - 1
  }

  lemma LastWidens(
      messages: seq<Message>, tried: seq<Try>, events: seq<Event>, source: seq<nat>, n: nat, p: (nat, bytes))
    requires n <= |events| == |source| && Last(messages, tried, events[..n], source[..n], p)
    ensures Last(messages, tried, events, source, p) && p.0 < n
  {
    hide Relevant;
  }

  lemma {:induction false} PublishedLast(messages: seq<Message>, tried: seq<Try>, events: seq<Event>, source: seq<nat>)
    requires Trail(messages, tried) && DistinctKeys(messages) && InSequence(tried, events, source)
    ensures forall p <- Published(events) :: Last(messages, tried, events, source, p)
    ensures forall i, j :: 0 <= i < j < |Published(events)| ==> Published(events)[i].0 < Published(events)[j].0
    decreases |events|
  {
    hide Trail, DistinctKeys, Stocked, R.Inv, P.Faithful, R.Expire, R.Add, Fragment, Last, Relevant;
    if events != [] {
      var n := |events| - 1;
      var e, s := events[n], After(events[..n]);
      SequencePrefix(tried, events, source, n);
      SequenceUnforged(tried, events[..n], source[..n]);
      PublishedLast(messages, tried, events[..n], source[..n]);
      var out := Receive(s, e).1;
      if out.Some? {
        Publishes(s, e);
        AfterFaithful(messages, tried, events[..n]);
        AfterStocked(messages, tried, events[..n], source[..n], source[n]);
        ReceiveStocked(messages, tried, source[n], s, e.payload, e.now);
        IsLast(messages, tried, events, source, n, out.value);
      }
      var earlier := Published(events[..n]);
      forall i | 0 <= i < |earlier|
        ensures Last(messages, tried, events, source, earlier[i]) && earlier[i].0 < n
      {
        LastWidens(messages, tried, events, source, n, earlier[i]);
      }
      forall p <- Published(events)
        ensures Last(messages, tried, events, source, p)
      {
        var i :| 0 <= i < |Published(events)| && Published(events)[i] == p;
        if i < |earlier| { assert p == earlier[i]; }
      }
    }
  }

  lemma Publishes(s: R.State, e: Event)
    requires Receive(s, e).1.Some?
    ensures Relevant(e)
  {}

  lemma IsLast(messages: seq<Message>, tried: seq<Try>, events: seq<Event>, source: seq<nat>, n: nat, raw: bytes)
    requires n < |events| == |source| && Relevant(events[n]) && source[n] < |tried|
    requires tried[source[n]].message < |messages| && raw == messages[tried[source[n]].message].raw
    requires tried[source[n]].index == A.Pieces(|raw|) - 1
    ensures Last(messages, tried, events, source, (n, raw))
  {}

  /** `out` is `all` at the strictly increasing positions `at`. */
  ghost predicate Subsequence(out: seq<(nat, bytes)>, all: seq<bytes>, at: seq<nat>) {
    && |at| == |out|
    && (forall k :: 0 <= k < |out| ==> at[k] < |all| && all[at[k]] == out[k].1)
    && (forall i, j :: 0 <= i < j < |at| ==> at[i] < at[j])
  }

  /** Two publications are of different messages, the later of the later message. */
  lemma LaterMessage(
      messages: seq<Message>, tried: seq<Try>, events: seq<Event>, source: seq<nat>, p: (nat, bytes), q: (nat, bytes))
    requires Trail(messages, tried) && InSequence(tried, events, source) && p.0 < q.0
    requires Last(messages, tried, events, source, p) && Last(messages, tried, events, source, q)
    ensures tried[source[p.0]].message < tried[source[q.0]].message
  {
    hide GenuineTry, Relevant, A.Pieces;
    var i, j := source[p.0], source[q.0];
    assert i < j;
    assert Before(tried[i], tried[j].message, tried[j].index);
  }

  /**
   End to end, in order: over a link that loses packets but keeps their order and
   duplicates none, the robot publishes ingested frames, each at most once, in the
   order the base ingested them.
   */
  lemma EndToEndOrder(
      session: u32, states: seq<Base>, calls: seq<BaseCall>, reconnect: int, k: nat,
      events: seq<Event>, source: seq<nat>)
    requires session != 0 && IsFreshRun(states, calls, reconnect) && states[0] == Begin(session) && k < |states|
    requires |source| == |events|
    requires forall i :: 0 <= i < |events| && Relevant(events[i]) ==>
      source[i] < |WireSends(states[k].host.wire)| && WireSends(states[k].host.wire)[source[i]] == events[i].payload
    requires forall i, j :: 0 <= i < j < |events| && Relevant(events[i]) && Relevant(events[j]) ==>
      source[i] < source[j]
    ensures exists at :: Subsequence(Published(events), states[k].ingested, at)
  {
    hide IsFreshRun, Trail, WireSends, Fragment, Published, Relevant, Last;
    var b := states[k];
    WireOrder(session, states, calls, reconnect, k);
    PublishedLast(b.messages, b.tried, events, source);
    var out := Published(events);
    forall i | 0 <= i < |out|
      ensures Last(b.messages, b.tried, events, source, out[i])
    {
      assert out[i] in out;
    }
    var at := Numbers(b.messages, b.tried, events, source, out);
    forall i, j | 0 <= i < j < |at|
      ensures at[i] < at[j]
    {
      LaterNumber(b, events, source, out[i], out[j]);
    }
    forall i | 0 <= i < |out|
      ensures at[i] < |b.ingested| && b.ingested[at[i]] == out[i].1
    {
      LastRaw(b, events, source, out[i]);
    }
    assert Subsequence(out, b.ingested, at);
  }

  /** Where each publication was ingested. */
  lemma {:induction false} Numbers(
      messages: seq<Message>, tried: seq<Try>, events: seq<Event>, source: seq<nat>, out: seq<(nat, bytes)>)
      returns (at: seq<nat>)
    requires forall i :: 0 <= i < |out| ==> Last(messages, tried, events, source, out[i])
    ensures |at| == |out|
    ensures forall i :: 0 <= i < |at| ==>
      Last(messages, tried, events, source, out[i]) && at[i] == NumberOf(messages, tried, events, source, out[i])
  {
    hide Last, NumberOf;
    at := [];
    for n := 0 to |out|
      invariant |at| == n
      invariant forall i :: 0 <= i < n ==>
        Last(messages, tried, events, source, out[i]) && at[i] == NumberOf(messages, tried, events, source, out[i])
    {
      at := at + [NumberOf(messages, tried, events, source, out[n])];
    }
  }

  ghost function NumberOf(
      messages: seq<Message>, tried: seq<Try>, events: seq<Event>, source: seq<nat>, p: (nat, bytes)): nat
    requires Last(messages, tried, events, source, p)
  {
    messages[tried[source[p.0]].message].number
  }

  lemma LastRaw(b: Base, events: seq<Event>, source: seq<nat>, p: (nat, bytes))
    requires Last(b.messages, b.tried, events, source, p)
    requires forall m <- b.messages :: m.number < |b.ingested| && b.ingested[m.number] == m.raw
    ensures var n := NumberOf(b.messages, b.tried, events, source, p); n < |b.ingested| && b.ingested[n] == p.1
  {
    hide Relevant;
    assert b.messages[b.tried[source[p.0]].message] in b.messages;
  }

  lemma LaterNumber(b: Base, events: seq<Event>, source: seq<nat>, p: (nat, bytes), q: (nat, bytes))
    requires Trail(b.messages, b.tried) && InSequence(b.tried, events, source) && p.0 < q.0
    requires Last(b.messages, b.tried, events, source, p) && Last(b.messages, b.tried, events, source, q)
    requires forall i, j :: 0 <= i < j < |b.messages| ==> b.messages[i].number < b.messages[j].number
    ensures NumberOf(b.messages, b.tried, events, source, p) < NumberOf(b.messages, b.tried, events, source, q)
  {
    hide Trail, InSequence, Relevant;
    LaterMessage(b.messages, b.tried, events, source, p, q);
  }
}
