/** Broadcasting RTCM frames to TCP clients that take bytes at their own pace, or not at all. */
module TcpOutput {
  import opened Bytes
  import Rtcm
  import Seqs

  const MAX_CLIENTS: nat := 16
  const MAX_FRAMES: nat := 64
  const MAX_BYTES: nat := 64 * Rtcm.MAX_FRAME
  const TTL_MS: int := 1000

  datatype Queued = Queued(raw: bytes, at: int, offset: nat)

  /** A connection and its queue; `sent` and `all` remember the bytes it took and the frames queued to it. */
  datatype Client = Client(id: nat, frames: seq<Queued>, sent: bytes, all: seq<bytes>)

  datatype Books = Books(queued: nat, sent: nat, abandoned: nat)

  /** Clients in the order they connected, those dropped, and the byte counters. */
  datatype Output = Output(clients: seq<Client>, gone: seq<Client>, books: Books)

  /** What one `send` call on a client's socket does. */
  datatype Answer = WouldBlock | Failed | Took(n: int)

  // ---- one client ------------------------------------------------------------

  function Rest(q: Queued): bytes { if q.offset <= |q.raw| then q.raw[q.offset..] else [] }

  /** The bytes a queue still holds, in order. */
  function Pending(frames: seq<Queued>): bytes {
    if frames == [] then [] else Rest(frames[0]) + Pending(frames[1..])
  }

  function Concat(all: seq<bytes>): bytes
    decreases |all|
  {
    if all == [] then [] else Concat(all[..|all| - 1]) + all[|all| - 1]
  }

  predicate Stale(c: Client, now: int) { c.frames != [] && now - c.frames[0].at >= TTL_MS }

  /** What becomes of a client: it is kept, having taken `n` bytes, or dropped. */
  datatype Visit = Keep(c: Client, n: nat) | Drop

  /** `n` bytes of the first frame have gone. */
  function Advance(c: Client, n: nat): Client
    requires c.frames != []
  {
    var q := c.frames[0];
    var taken := Rest(q)[..if n <= |Rest(q)| then n else |Rest(q)|];
    var q' := q.(offset := q.offset + |taken|);
    c.(frames := if q'.offset == |q.raw| then c.frames[1..] else c.frames[0 := q'], sent := c.sent + taken)
  }

  /** The socket never takes more than it is offered. */
  function FlushOne(c: Client, now: int, a: Answer): Visit {
    if c.frames == [] then Keep(c, 0)
    else if Stale(c, now) then Drop
    else match a
      case WouldBlock => Keep(c, 0)
      case Failed => Drop
      case Took(n) =>
        if n <= 0 then Drop
        else Keep(Advance(c, n), if n <= |Rest(c.frames[0])| then n else |Rest(c.frames[0])|)
  }

  function PublishOne(c: Client, raw: bytes, now: int): Visit {
    if Stale(c, now) then Drop
    else if |c.frames| >= MAX_FRAMES || |Pending(c.frames)| + |raw| > MAX_BYTES then Drop
    else Keep(c.(frames := c.frames + [Queued(raw, now, 0)], all := c.all + [raw]), 0)
  }

  // ---- all clients -----------------------------------------------------------

  /** Record the visit of `c`; `queued` bytes were added if it was kept. */
  function Record(o: Output, c: Client, v: Visit, queued: nat): Output {
    match v
    case Keep(c', n) =>
      o.(clients := o.clients + [c'], books := o.books.(sent := o.books.sent + n, queued := o.books.queued + queued))
    case Drop => o.(gone := o.gone + [c], books := o.books.(abandoned := o.books.abandoned + |Pending(c.frames)|))
  }

  function AnswerOf(answers: map<nat, Answer>, id: nat): Answer { if id in answers then answers[id] else WouldBlock }

  function FlushAll(o: Output, todo: seq<Client>, now: int, answers: map<nat, Answer>): Output
    decreases |todo|
  {
    if todo == [] then o
    else FlushAll(Record(o, todo[0], FlushOne(todo[0], now, AnswerOf(answers, todo[0].id)), 0), todo[1..], now, answers)
  }

  function PublishAll(o: Output, todo: seq<Client>, raw: bytes, now: int): Output
    decreases |todo|
  {
    if todo == [] then o
    else PublishAll(Record(o, todo[0], PublishOne(todo[0], raw, now), |raw|), todo[1..], raw, now)
  }

  /** Connections beyond the sixteenth are closed at once. */
  function Accept(o: Output, ids: seq<nat>): Output
    decreases |ids|
  {
    if ids == [] then o
    else if |o.clients| >= MAX_CLIENTS then Accept(o, ids[1..])
    else Accept(o.(clients := o.clients + [Client(ids[0], [], [], [])]), ids[1..])
  }

  function Flush(o: Output, ids: seq<nat>, now: int, answers: map<nat, Answer>): Output {
    var a := Accept(o, ids);
    FlushAll(a.(clients := []), a.clients, now, answers)
  }

  function Publish(o: Output, raw: bytes, ids: seq<nat>, more: seq<nat>, now: int, answers: map<nat, Answer>): Output {
    var a := Accept(o, ids);
    Flush(PublishAll(a.(clients := []), a.clients, raw, now), more, now, answers)
  }

  // ---- the invariant ---------------------------------------------------------------

  /** What went out followed by what waits is everything queued, in order. */
  ghost predicate Streams(c: Client) { c.sent + Pending(c.frames) == Concat(c.all) }

  ghost predicate Bounded(c: Client) {
    && |c.frames| <= MAX_FRAMES && |Pending(c.frames)| <= MAX_BYTES
    && (forall q <- c.frames :: q.offset <= |q.raw|)
  }

  function Held(clients: seq<Client>): nat
    decreases |clients|
  {
    if clients == [] then 0 else Held(clients[..|clients| - 1]) + |Pending(clients[|clients| - 1].frames)|
  }

  /** Every client, connected or gone, has seen a prefix of what was queued to it. */
  ghost predicate Whole(o: Output) {
    && Sound(o.clients)
    && (forall c <- o.gone :: c.sent <= Concat(c.all))
  }

  ghost predicate Balances(o: Output, held: nat) { o.books.queued == o.books.sent + o.books.abandoned + held }

  ghost predicate Inv(o: Output) { Whole(o) && |o.clients| <= MAX_CLIENTS && Balances(o, Held(o.clients)) }

  lemma ConcatAppend(all: seq<bytes>, raw: bytes)
    ensures Concat(all + [raw]) == Concat(all) + raw
  {
    assert (all + [raw])[..|all|] == all;
  }

  lemma {:induction false} PendingAppend(frames: seq<Queued>, q: Queued)
    ensures Pending(frames + [q]) == Pending(frames) + Rest(q)
    decreases |frames|
  {
    if |frames| == 0 {
      assert frames + [q] == [q] && [q][1..] == [];
      Seqs.Units(Rest(q));
    } else {
      assert (frames + [q])[0] == frames[0] && (frames + [q])[1..] == frames[1..] + [q];
      PendingAppend(frames[1..], q);
      Seqs.Assoc(Rest(frames[0]), Pending(frames[1..]), Rest(q));
    }
  }

  /** Taking bytes moves them from the front of what waits to the end of what went out. */
  lemma AdvanceStreams(c: Client, n: nat)
    requires Streams(c) && Bounded(c) && c.frames != []
    ensures var k := if n <= |Rest(c.frames[0])| then n else |Rest(c.frames[0])|;
      var c' := Advance(c, n);
      Streams(c') && Bounded(c') && |Pending(c'.frames)| + k == |Pending(c.frames)|
  {
    hide Concat, Pending, Rest;
    var q := c.frames[0];
    assert q in c.frames;
    var k := if n <= |Rest(q)| then n else |Rest(q)|;
    var c' := Advance(c, n);
    AdvancePending(c.frames, k);
    PendingStep(c.frames);
    Seqs.Split(Rest(q), k);
    Seqs.Assoc(Rest(q)[..k], Rest(q)[k..], Pending(c.frames[1..]));
    Seqs.Assoc(c.sent, Rest(q)[..k], Pending(c'.frames));
  }

  lemma PendingStep(frames: seq<Queued>)
    requires frames != []
    ensures Pending(frames) == Rest(frames[0]) + Pending(frames[1..])
    ensures frames[0].offset <= |frames[0].raw| ==> |Rest(frames[0])| == |frames[0].raw| - frames[0].offset
  {}

  /** The queue with `k` bytes of its first frame gone. */
  lemma AdvancePending(frames: seq<Queued>, k: nat)
    requires frames != [] && frames[0].offset <= |frames[0].raw| && k <= |Rest(frames[0])|
    ensures var q' := frames[0].(offset := frames[0].offset + k);
      var left := if q'.offset == |q'.raw| then frames[1..] else frames[0 := q'];
      Pending(left) == Rest(frames[0])[k..] + Pending(frames[1..])
  {
    var q := frames[0];
    var q' := q.(offset := q.offset + k);
    assert Rest(q') == Rest(q)[k..];
    if q'.offset == |q'.raw| {
      assert |Rest(q')| == 0;
    } else {
      assert frames[0 := q'][1..] == frames[1..];
    }
  }

  lemma FlushOneProps(c: Client, now: int, a: Answer)
    requires Streams(c) && Bounded(c)
    ensures match FlushOne(c, now, a)
            case Keep(c', n) => Streams(c') && Bounded(c') && |Pending(c'.frames)| + n == |Pending(c.frames)|
            case Drop => true
  {
    hide Streams, Bounded, Advance;
    if a.Took? && a.n > 0 && c.frames != [] { AdvanceStreams(c, a.n); }
  }

  lemma PublishOneProps(c: Client, raw: bytes, now: int)
    requires Streams(c) && Bounded(c)
    ensures match PublishOne(c, raw, now)
            case Keep(c', n) =>
              && Streams(c') && Bounded(c') && n == 0
              && |Pending(c'.frames)| == |Pending(c.frames)| + |raw|
            case Drop => true
  {
    hide Concat, Pending;
    PendingAppend(c.frames, Queued(raw, now, 0));
    assert raw[0..] == raw;
    ConcatAppend(c.all, raw);
    Seqs.Assoc(c.sent, Pending(c.frames), raw);
  }

  lemma StreamsPrefix(c: Client)
    requires Streams(c)
    ensures c.sent <= Concat(c.all)
  {}

  lemma HeldAppend(clients: seq<Client>, c: Client)
    ensures Held(clients + [c]) == Held(clients) + |Pending(c.frames)|
  {
    assert (clients + [c])[..|clients|] == clients;
  }

  /** One visit keeps every stream whole and the books balanced. */
  lemma RecordProps(o: Output, c: Client, v: Visit, queued: nat, after: nat)
    requires Whole(o) && Streams(c) && Balances(o, Held(o.clients) + |Pending(c.frames)| + after)
    requires v.Keep? ==> Streams(v.c) && Bounded(v.c) && |Pending(v.c.frames)| + v.n == |Pending(c.frames)| + queued
    ensures var r := Record(o, c, v, queued); Whole(r) && Balances(r, Held(r.clients) + after)
    ensures |Record(o, c, v, queued).clients| <= |o.clients| + 1
  {
    hide Streams, Bounded, Concat, Pending, Held;
    match v
    case Keep(c', n) => HeldAppend(o.clients, c');
    case Drop => StreamsPrefix(c);
  }

  ghost predicate Sound(todo: seq<Client>) { forall c <- todo :: Streams(c) && Bounded(c) }

  lemma SoundStep(todo: seq<Client>)
    requires Sound(todo) && todo != []
    ensures Streams(todo[0]) && Bounded(todo[0]) && Sound(todo[1..])
    ensures Waiting(todo) == |Pending(todo[0].frames)| + Waiting(todo[1..])
  {
    hide Streams, Bounded, Pending;
  }

  lemma {:induction false} FlushAllProps(o: Output, todo: seq<Client>, now: int, answers: map<nat, Answer>)
    requires Whole(o) && Sound(todo) && Balances(o, Held(o.clients) + Waiting(todo))
    ensures var r := FlushAll(o, todo, now, answers);
      Whole(r) && Balances(r, Held(r.clients)) && |r.clients| <= |o.clients| + |todo|
    decreases |todo|
  {
    hide Streams, Bounded, Whole, Balances, FlushOne, Record, Held, Pending, Waiting, Sound;
    if todo == [] {
      WaitingNone();
    } else {
      SoundStep(todo);
      var v := FlushOne(todo[0], now, AnswerOf(answers, todo[0].id));
      FlushOneProps(todo[0], now, AnswerOf(answers, todo[0].id));
      RecordProps(o, todo[0], v, 0, Waiting(todo[1..]));
      FlushAllProps(Record(o, todo[0], v, 0), todo[1..], now, answers);
    }
  }

  lemma {:induction false} PublishAllProps(o: Output, todo: seq<Client>, raw: bytes, now: int)
    requires Whole(o) && Sound(todo) && Balances(o, Held(o.clients) + Waiting(todo))
    ensures var r := PublishAll(o, todo, raw, now);
      Whole(r) && Balances(r, Held(r.clients)) && |r.clients| <= |o.clients| + |todo|
    decreases |todo|
  {
    hide Streams, Bounded, Whole, Balances, PublishOne, Record, Held, Pending, Waiting, Sound;
    if todo == [] {
      WaitingNone();
    } else {
      SoundStep(todo);
      var v := PublishOne(todo[0], raw, now);
      PublishOneProps(todo[0], raw, now);
      RecordProps(o, todo[0], v, |raw|, Waiting(todo[1..]));
      PublishAllProps(Record(o, todo[0], v, |raw|), todo[1..], raw, now);
    }
  }

  lemma WaitingNone()
    ensures Waiting([]) == 0
  {}

  /** The bytes held by the clients still to visit. */
  function Waiting(todo: seq<Client>): nat {
    if todo == [] then 0 else |Pending(todo[0].frames)| + Waiting(todo[1..])
  }

  lemma {:induction false} WaitingHeld(todo: seq<Client>)
    ensures Waiting(todo) == Held(todo)
    decreases |todo|
  {
    if |todo| == 1 {
      assert todo[..0] == [] && todo[1..] == [];
    } else if |todo| > 1 {
      var n := |todo| - 1;
      WaitingHeld(todo[1..]);
      WaitingHeld(todo[1..n]);
      WaitingHeld(todo[..n]);
      assert todo[1..][..n - 1] == todo[1..n] && todo[..n][1..] == todo[1..n];
    }
  }

  lemma {:induction false} AcceptProps(o: Output, ids: seq<nat>)
    requires Inv(o)
    ensures Inv(Accept(o, ids))
    decreases |ids|
  {
    if ids != [] {
      if |o.clients| >= MAX_CLIENTS {
        AcceptProps(o, ids[1..]);
      } else {
        var c := Client(ids[0], [], [], []);
        HeldAppend(o.clients, c);
        hide Held;
        AcceptProps(o.(clients := o.clients + [c]), ids[1..]);
      }
    }
  }

  lemma FlushInv(o: Output, ids: seq<nat>, now: int, answers: map<nat, Answer>)
    requires Inv(o)
    ensures Inv(Flush(o, ids, now, answers))
  {
    hide Streams, Bounded;
    AcceptProps(o, ids);
    var a := Accept(o, ids);
    WaitingHeld(a.clients);
    FlushAllProps(a.(clients := []), a.clients, now, answers);
  }

  lemma MidInv(o: Output, raw: bytes, ids: seq<nat>, now: int)
    requires Inv(o)
    ensures var a := Accept(o, ids); Inv(PublishAll(a.(clients := []), a.clients, raw, now))
  {
    hide Streams, Bounded;
    AcceptProps(o, ids);
    var a := Accept(o, ids);
    WaitingHeld(a.clients);
    PublishAllProps(a.(clients := []), a.clients, raw, now);
  }

  /** Publishing, with whatever connects, blocks, fails or is partly written meanwhile. */
  lemma PublishInv(o: Output, raw: bytes, ids: seq<nat>, more: seq<nat>, now: int, answers: map<nat, Answer>)
    requires Inv(o)
    ensures Inv(Publish(o, raw, ids, more, now, answers))
  {
    hide Inv, Flush, Accept, PublishAll;
    MidInv(o, raw, ids, now);
    var a := Accept(o, ids);
    FlushInv(PublishAll(a.(clients := []), a.clients, raw, now), more, now, answers);
  }

  // ---- who is kept, and what he gets ----------------------------------------------------

  /** Places in a list of `n`, in order. */
  ghost predicate Places(at: seq<nat>, n: nat) {
    (forall j :: 0 <= j < |at| ==> at[j] < n) && (forall i, j :: 0 <= i < j < |at| ==> at[i] < at[j])
  }

  /** The oldest waiting frame is less than a second old, fewer than 64 wait, and `size` more octets fit. */
  predicate KeepsUp(c: Client, size: nat, now: int) {
    && (c.frames == [] || now - c.frames[0].at < 1000)
    && |c.frames| < 64 && |Pending(c.frames)| + size <= 64 * 1029
  }

  /** The frame is queued behind what waits, and nothing else changes. */
  predicate Given(c: Client, d: Client, raw: bytes, now: int) {
    d == Client(c.id, c.frames + [Queued(raw, now, 0)], c.sent, c.all + [raw])
  }

  /** The clients with `at` are exactly those that keep up, each given the frame; the others are gone. */
  ghost predicate Published(
    before: seq<Client>, after: seq<Client>, gone: seq<Client>, at: seq<nat>, raw: bytes, now: int)
  {
    && Places(at, |before|) && |after| == |at|
    && (forall i :: 0 <= i < |before| ==> (i in at <==> KeepsUp(before[i], |raw|, now)))
    && (forall j :: 0 <= j < |at| ==> Given(before[at[j]], after[j], raw, now))
    && (forall i :: 0 <= i < |before| && i !in at ==> before[i] in gone)
  }

  /** One place further in the list. */
  function Shifted(at: seq<nat>, first: bool): (r: seq<nat>)
    ensures |r| == |at| + if first then 1 else 0
  {
    (if first then [0] else []) + seq(|at|, j requires 0 <= j < |at| => at[j] + 1)
  }

  lemma ShiftedIs(at: seq<nat>, first: bool, n: nat)
    requires Places(at, n)
    ensures var r := Shifted(at, first);
      && Places(r, n + 1) && (0 in r <==> first)
      && (forall i :: 0 <= i < n ==> (i + 1 in r <==> i in at))
  {
    var r := Shifted(at, first);
    var d := if first then 1 else 0;
    forall i | 0 <= i < n
      ensures i + 1 in r <==> i in at
    {
      if i in at {
        var j :| 0 <= j < |at| && at[j] == i;
        assert r[j + d] == i + 1;
      }
    }
  }

  /** All the visits recorded, one after another. */
  function RecordAll(o: Output, todo: seq<Client>, vs: seq<Visit>, queued: nat): Output
    requires |vs| == |todo|
    decreases |todo|
  {
    if todo == [] then o else RecordAll(Record(o, todo[0], vs[0], queued), todo[1..], vs[1..], queued)
  }

  /** Those kept are at the places `at`, as their visits left them; the others are gone. */
  ghost predicate Selected(todo: seq<Client>, vs: seq<Visit>, after: seq<Client>, gone: seq<Client>, at: seq<nat>) {
    && |vs| == |todo| && Places(at, |todo|) && |after| == |at|
    && (forall i :: 0 <= i < |todo| ==> (i in at <==> vs[i].Keep?))
    && (forall j :: 0 <= j < |at| ==> vs[at[j]].Keep? && after[j] == vs[at[j]].c)
    && (forall i :: 0 <= i < |todo| && i !in at ==> todo[i] in gone)
  }

  lemma {:induction false} RecordAllSelects(o: Output, todo: seq<Client>, vs: seq<Visit>, queued: nat)
      returns (at: seq<nat>)
    requires |vs| == |todo|
    ensures var r := RecordAll(o, todo, vs, queued);
      && o.clients <= r.clients && o.gone <= r.gone
      && Selected(todo, vs, r.clients[|o.clients|..], r.gone, at)
    decreases |todo|
  {
    hide Selected, Pending;
    if todo == [] {
      at := [];
      assert Selected(todo, vs, [], o.gone, at) by { NoneSelected(o.gone); }
      assert o.clients[|o.clients|..] == [];
    } else {
      var p := Record(o, todo[0], vs[0], queued);
      var rest := RecordAllSelects(p, todo[1..], vs[1..], queued);
      at := Shifted(rest, vs[0].Keep?);
      var r := RecordAll(p, todo[1..], vs[1..], queued);
      if vs[0].Keep? {
        assert r.clients[|o.clients|] == p.clients[|o.clients|] == vs[0].c;
        assert r.clients[|o.clients|..] == [vs[0].c] + r.clients[|p.clients|..];
      } else {
        assert p.gone[|o.gone|] == todo[0] && r.gone[|o.gone|] == todo[0];
      }
      SelectedMore(todo, vs, r.clients[|p.clients|..], r.gone, rest);
    }
  }

  lemma NoneSelected(gone: seq<Client>)
    ensures Selected([], [], [], gone, [])
  {}

  lemma SelectedMore(todo: seq<Client>, vs: seq<Visit>, after: seq<Client>, gone: seq<Client>, at: seq<nat>)
    requires |vs| == |todo| && todo != [] && Selected(todo[1..], vs[1..], after, gone, at)
    requires vs[0].Drop? ==> todo[0] in gone
    ensures Selected(todo, vs, if vs[0].Keep? then [vs[0].c] + after else after, gone, Shifted(at, vs[0].Keep?))
  {
    var r := Shifted(at, vs[0].Keep?);
    ShiftedIs(at, vs[0].Keep?, |todo| - 1);
    assert forall i :: 1 <= i < |todo| ==> todo[i] == todo[1..][i - 1] && vs[i] == vs[1..][i - 1];
    forall i | 0 <= i < |todo|
      ensures i in r <==> vs[i].Keep?
      ensures i !in r ==> todo[i] in gone
    {
      if i > 0 { ShiftedAt(at, vs[0].Keep?, |todo| - 1, i); }
    }
    hide Places;
    ShiftedAfter(vs, after, at);
  }

  lemma ShiftedAt(at: seq<nat>, first: bool, n: nat, i: nat)
    requires Places(at, n) && 0 < i <= n
    ensures i in Shifted(at, first) <==> i - 1 in at
  {
    ShiftedIs(at, first, n);
    assert (i - 1) + 1 == i;
  }

  lemma ShiftedAfter(vs: seq<Visit>, after: seq<Client>, at: seq<nat>)
    requires vs != [] && |after| == |at|
    requires forall j :: 0 <= j < |at| ==> at[j] < |vs| - 1 && vs[1..][at[j]].Keep? && after[j] == vs[1..][at[j]].c
    ensures var r := Shifted(at, vs[0].Keep?);
      var all := if vs[0].Keep? then [vs[0].c] + after else after;
      |all| == |r| && forall j :: 0 <= j < |r| ==> r[j] < |vs| && vs[r[j]].Keep? && all[j] == vs[r[j]].c
  {}

  function PublishVisits(todo: seq<Client>, raw: bytes, now: int): (vs: seq<Visit>)
    ensures |vs| == |todo|
    ensures forall i :: 0 <= i < |vs| ==> vs[i] == PublishOne(todo[i], raw, now)
  {
    seq(|todo|, i requires 0 <= i < |todo| => PublishOne(todo[i], raw, now))
  }

  lemma {:induction false} PublishAllRecords(o: Output, todo: seq<Client>, raw: bytes, now: int)
    ensures PublishAll(o, todo, raw, now) == RecordAll(o, todo, PublishVisits(todo, raw, now), |raw|)
    decreases |todo|
  {
    hide PublishOne, Record;
    if todo != [] {
      PublishAllRecords(Record(o, todo[0], PublishOne(todo[0], raw, now), |raw|), todo[1..], raw, now);
      assert PublishVisits(todo, raw, now)[1..] == PublishVisits(todo[1..], raw, now);
    }
  }

  /**
   A publication, up to its final flush: of the clients accepted exactly those that
   keep up stay, in their order, each with the frame queued behind what it had; the
   others are dropped.
   */
  lemma PublishKeeps(o: Output, raw: bytes, ids: seq<nat>, now: int) returns (at: seq<nat>)
    ensures var a := Accept(o, ids);
      var r := PublishAll(a.(clients := []), a.clients, raw, now);
      Published(a.clients, r.clients, r.gone, at, raw, now) && |r.clients| == |at|
  {
    hide PublishAll, RecordAll, Accept, Pending;
    var a := Accept(o, ids);
    var e := a.(clients := []);
    var vs := PublishVisits(a.clients, raw, now);
    PublishAllRecords(e, a.clients, raw, now);
    at := RecordAllSelects(e, a.clients, vs, |raw|);
    var r := PublishAll(e, a.clients, raw, now);
    assert r.clients[|e.clients|..] == r.clients;
  }

  /** Nothing waits, or the oldest frame is less than a second old and the socket blocks or takes something. */
  predicate StaysOn(c: Client, now: int, a: Answer) {
    c.frames == [] || (now - c.frames[0].at < 1000 && (a == WouldBlock || (a.Took? && a.n > 0)))
  }

  /** What a socket takes leaves the front of the queue, at most the rest of one frame; otherwise nothing moves. */
  ghost predicate Served(c: Client, d: Client, a: Answer) {
    if c.frames == [] || !a.Took? then d == c
    else
      var q := c.frames[0];
      && d.id == c.id && d.all == c.all && q.offset <= |q.raw|
      && (if 0 < a.n < |q.raw| - q.offset then
            && d.frames == [Queued(q.raw, q.at, q.offset + a.n)] + c.frames[1..]
            && d.sent == c.sent + q.raw[q.offset..q.offset + a.n]
          else d.frames == c.frames[1..] && d.sent == c.sent + q.raw[q.offset..])
  }

  ghost predicate Flushed(
    before: seq<Client>, after: seq<Client>, gone: seq<Client>, at: seq<nat>, now: int, answers: map<nat, Answer>)
  {
    && Places(at, |before|) && |after| == |at|
    && (forall i :: 0 <= i < |before| ==> (i in at <==> StaysOn(before[i], now, AnswerOf(answers, before[i].id))))
    && (forall j :: 0 <= j < |at| ==> Served(before[at[j]], after[j], AnswerOf(answers, before[at[j]].id)))
    && (forall i :: 0 <= i < |before| && i !in at ==> before[i] in gone)
  }

  lemma FlushOneServes(c: Client, now: int, a: Answer)
    requires Bounded(c)
    ensures var v := FlushOne(c, now, a);
      (v.Keep? <==> StaysOn(c, now, a)) && (v.Keep? ==> Served(c, v.c, a))
  {
    hide Pending;
    if c.frames != [] && a.Took? && a.n > 0 {
      var q := c.frames[0];
      assert q in c.frames;
      var d := Advance(c, a.n);
      if a.n < |q.raw| - q.offset {
        assert q.raw[q.offset..][..a.n] == q.raw[q.offset..q.offset + a.n];
        assert c.frames[0 := q.(offset := q.offset + a.n)] == [q.(offset := q.offset + a.n)] + c.frames[1..];
      } else {
        assert q.raw[q.offset..][..|Rest(q)|] == q.raw[q.offset..];
      }
    }
  }

  function FlushVisits(todo: seq<Client>, now: int, answers: map<nat, Answer>): (vs: seq<Visit>)
    ensures |vs| == |todo|
    ensures forall i :: 0 <= i < |vs| ==> vs[i] == FlushOne(todo[i], now, AnswerOf(answers, todo[i].id))
  {
    seq(|todo|, i requires 0 <= i < |todo| => FlushOne(todo[i], now, AnswerOf(answers, todo[i].id)))
  }

  lemma {:induction false} FlushAllRecords(o: Output, todo: seq<Client>, now: int, answers: map<nat, Answer>)
    ensures FlushAll(o, todo, now, answers) == RecordAll(o, todo, FlushVisits(todo, now, answers), 0)
    decreases |todo|
  {
    hide FlushOne, Record, AnswerOf;
    if todo != [] {
      var v := FlushOne(todo[0], now, AnswerOf(answers, todo[0].id));
      FlushAllRecords(Record(o, todo[0], v, 0), todo[1..], now, answers);
      assert FlushVisits(todo, now, answers)[1..] == FlushVisits(todo[1..], now, answers);
    }
  }

  /**
   A flush: of the clients accepted exactly those stay, in their order, that have
   nothing waiting, or no stale frame and a socket that blocks or takes something;
   and what each has taken is the next octets of its first frame.
   */
  lemma FlushKeeps(o: Output, ids: seq<nat>, now: int, answers: map<nat, Answer>) returns (at: seq<nat>)
    requires Inv(o)
    ensures var a := Accept(o, ids);
      var r := Flush(o, ids, now, answers);
      Flushed(a.clients, r.clients, r.gone, at, now, answers)
  {
    hide FlushAll, RecordAll, Accept, Streams, Bounded, FlushOne, StaysOn, Served, AnswerOf;
    AcceptProps(o, ids);
    var a := Accept(o, ids);
    var e := a.(clients := []);
    var vs := FlushVisits(a.clients, now, answers);
    FlushAllRecords(e, a.clients, now, answers);
    at := RecordAllSelects(e, a.clients, vs, 0);
    var r := FlushAll(e, a.clients, now, answers);
    assert r.clients[|e.clients|..] == r.clients;
    forall c <- a.clients
      ensures var v := FlushOne(c, now, AnswerOf(answers, c.id));
        && (v.Keep? <==> StaysOn(c, now, AnswerOf(answers, c.id)))
        && (v.Keep? ==> Served(c, v.c, AnswerOf(answers, c.id)))
    {
      FlushOneServes(c, now, AnswerOf(answers, c.id));
    }
  }

  function Newcomers(ids: seq<nat>): (r: seq<Client>)
    ensures |r| == |ids|
    ensures forall i :: 0 <= i < |r| ==> r[i] == Client(ids[i], [], [], [])
  {
    seq(|ids|, i requires 0 <= i < |ids| => Client(ids[i], [], [], []))
  }

  lemma NewcomersStep(ids: seq<nat>, n: nat)
    requires 0 < n <= |ids|
    ensures Newcomers(ids[..n]) == [Client(ids[0], [], [], [])] + Newcomers(ids[1..][..n - 1])
  {}

  function Least(a: nat, b: nat): nat { if a <= b then a else b }

  /** Connections are taken, in order, until there are sixteen. */
  lemma {:induction false} Accepted(o: Output, ids: seq<nat>)
    requires |o.clients| <= 16
    ensures Accept(o, ids) == o.(clients := o.clients + Newcomers(ids[..Least(|ids|, 16 - |o.clients|)]))
    decreases |ids|
  {
    var n := Least(|ids|, 16 - |o.clients|);
    if n == 0 {
      assert Newcomers(ids[..0]) == [] && o.clients + [] == o.clients;
      if ids != [] { Accepted(o, ids[1..]); }
    } else {
      var c := Client(ids[0], [], [], []);
      var p := o.(clients := o.clients + [c]);
      Accepted(p, ids[1..]);
      hide Accept;
      NewcomersStep(ids, n);
      Seqs.Assoc(o.clients, [c], Newcomers(ids[1..][..n - 1]));
    }
  }

  // ---- whole runs ----------------------------------------------------------------------

  datatype Call =
    | PublishCall(raw: bytes, ids: seq<nat>, more: seq<nat>, now: int, answers: map<nat, Answer>)
    | FlushCall(ids: seq<nat>, now: int, answers: map<nat, Answer>)

  function Do(o: Output, c: Call): Output {
    match c
    case PublishCall(raw, ids, more, now, answers) => Publish(o, raw, ids, more, now, answers)
    case FlushCall(ids, now, answers) => Flush(o, ids, now, answers)
  }

  function DoAll(o: Output, calls: seq<Call>): Output
    decreases |calls|
  {
    if calls == [] then o else DoAll(Do(o, calls[0]), calls[1..])
  }

  const START: Output := Output([], [], Books(0, 0, 0))

  lemma {:induction false} RunInv(o: Output, calls: seq<Call>)
    requires Inv(o)
    ensures Inv(DoAll(o, calls))
    decreases |calls|
  {
    hide Inv, Publish, Flush;
    if calls != [] {
      match calls[0] {
        case PublishCall(raw, ids, more, now, answers) => PublishInv(o, raw, ids, more, now, answers);
        case FlushCall(ids, now, answers) => FlushInv(o, ids, now, answers);
      }
      RunInv(Do(o, calls[0]), calls[1..]);
    }
  }

  /**
   Over every run: what a client has taken is a prefix of the frames queued to it,
   joined in order, and while it is connected the rest is what its queue holds;
   queues keep their bounds; and every byte queued was sent, abandoned or is held.
   */
  lemma StreamPromise(calls: seq<Call>)
    ensures var o := DoAll(START, calls);
      && |o.clients| <= MAX_CLIENTS
      && (forall c <- o.clients :: c.sent + Pending(c.frames) == Concat(c.all))
      && (forall c <- o.clients :: |c.frames| <= MAX_FRAMES && |Pending(c.frames)| <= MAX_BYTES)
      && (forall c <- o.gone :: c.sent <= Concat(c.all))
      && o.books.queued == o.books.sent + o.books.abandoned + Held(o.clients)
  {
    hide DoAll, Concat, Pending, Held;
    StartInv();
    RunInv(START, calls);
  }

  lemma StartInv()
    ensures Inv(START)
  {}

  // ---- no client misses a frame while connected -------------------------------------------

  /** The frames published, in order. */
  function Raws(calls: seq<Call>): seq<bytes>
    decreases |calls|
  {
    if calls == [] then [] else (if calls[0].PublishCall? then [calls[0].raw] else []) + Raws(calls[1..])
  }

  /** What has been queued to the client is everything published from some moment on. */
  ghost predicate Since(c: Client, raws: seq<bytes>) { |c.all| <= |raws| && c.all == raws[|raws| - |c.all|..] }

  ghost predicate Tails(clients: seq<Client>, raws: seq<bytes>) { forall c <- clients :: Since(c, raws) }

  lemma AcceptTails(o: Output, ids: seq<nat>, raws: seq<bytes>)
    requires |o.clients| <= MAX_CLIENTS && Tails(o.clients, raws)
    ensures Tails(Accept(o, ids).clients, raws)
  {
    hide Accept;
    Accepted(o, ids);
    assert raws[|raws|..] == [];
  }

  lemma FlushTails(o: Output, ids: seq<nat>, now: int, answers: map<nat, Answer>, raws: seq<bytes>)
    requires Inv(o) && Tails(o.clients, raws)
    ensures Tails(Flush(o, ids, now, answers).clients, raws)
  {
    hide Accept, Flush, Streams, Bounded, StaysOn, AnswerOf;
    AcceptTails(o, ids, raws);
    var at := FlushKeeps(o, ids, now, answers);
    var a, r := Accept(o, ids).clients, Flush(o, ids, now, answers).clients;
    forall c <- r
      ensures Since(c, raws)
    {
      var j :| 0 <= j < |r| && r[j] == c;
      assert c.all == a[at[j]].all && a[at[j]] in a;
    }
  }

  lemma PublishTails(o: Output, raw: bytes, ids: seq<nat>, now: int, raws: seq<bytes>)
    requires |o.clients| <= MAX_CLIENTS && Tails(o.clients, raws)
    ensures var a := Accept(o, ids);
      Tails(PublishAll(a.(clients := []), a.clients, raw, now).clients, raws + [raw])
  {
    hide Accept, PublishAll, KeepsUp;
    AcceptTails(o, ids, raws);
    var at := PublishKeeps(o, raw, ids, now);
    var a := Accept(o, ids);
    var r := PublishAll(a.(clients := []), a.clients, raw, now).clients;
    forall c <- r
      ensures Since(c, raws + [raw])
    {
      var j :| 0 <= j < |r| && r[j] == c;
      var b := a.clients[at[j]];
      assert Given(b, c, raw, now) && b in a.clients && Since(b, raws);
      assert (raws + [raw])[|raws| - |b.all|..] == raws[|raws| - |b.all|..] + [raw];
    }
  }

  lemma DoTails(o: Output, c: Call, raws: seq<bytes>)
    requires Inv(o) && Tails(o.clients, raws)
    ensures Inv(Do(o, c)) && Tails(Do(o, c).clients, raws + if c.PublishCall? then [c.raw] else [])
  {
    hide Inv, Accept, Flush, PublishAll, Tails;
    match c
    case PublishCall(raw, ids, more, now, answers) =>
      PublishInv(o, raw, ids, more, now, answers);
      FewClients(o);
      PublishTails(o, raw, ids, now, raws);
      MidInv(o, raw, ids, now);
      var a := Accept(o, ids);
      FlushTails(PublishAll(a.(clients := []), a.clients, raw, now), more, now, answers, raws + [raw]);
    case FlushCall(ids, now, answers) =>
      FlushInv(o, ids, now, answers);
      FlushTails(o, ids, now, answers, raws);
      Seqs.Units(raws);
  }

  lemma FewClients(o: Output)
    requires Inv(o)
    ensures |o.clients| <= MAX_CLIENTS
  {}

  lemma {:induction false} RunTails(o: Output, calls: seq<Call>, raws: seq<bytes>)
    requires Inv(o) && Tails(o.clients, raws)
    ensures Tails(DoAll(o, calls).clients, raws + Raws(calls))
    decreases |calls|
  {
    hide Inv, Do, Tails;
    if calls == [] {
      Seqs.Units(raws);
    } else {
      var one := if calls[0].PublishCall? then [calls[0].raw] else [];
      DoTails(o, calls[0], raws);
      RunTails(Do(o, calls[0]), calls[1..], raws + one);
      Seqs.Assoc(raws, one, Raws(calls[1..]));
    }
  }

  /** Taken and waiting together are the frames published since some moment, joined. */
  ghost predicate Gapless(c: Client, raws: seq<bytes>) {
    exists k :: 0 <= k <= |raws| && c.sent + Pending(c.frames) == Concat(raws[k..])
  }

  lemma TailGapless(c: Client, raws: seq<bytes>)
    requires Since(c, raws) && Streams(c)
    ensures Gapless(c, raws)
  {
    hide Concat, Pending;
    var k := |raws| - |c.all|;
    assert c.sent + Pending(c.frames) == Concat(raws[k..]);
  }

  lemma TailsGapless(o: Output, raws: seq<bytes>)
    requires Inv(o) && Tails(o.clients, raws)
    ensures forall c <- o.clients :: Gapless(c, raws)
  {
    hide Gapless, Since, Streams, Bounded, Held;
    forall c <- o.clients
      ensures Gapless(c, raws)
    {
      TailGapless(c, raws);
    }
  }

  /**
   Over every run no connected client has missed a frame: what it has taken, and what
   still waits for it, is exactly what was published since some moment.
   */
  lemma NoneMissed(calls: seq<Call>)
    ensures forall c <- DoAll(START, calls).clients :: Gapless(c, Raws(calls))
  {
    hide DoAll, Raws, Gapless, Inv, Tails;
    StartInv();
    RunInv(START, calls);
    assert Tails(START.clients, []) by { NoTails(); }
    RunTails(START, calls, []);
    assert [] + Raws(calls) == Raws(calls);
    TailsGapless(DoAll(START, calls), Raws(calls));
  }

  lemma NoTails()
    ensures Tails([], [])
  {}

  // ---- the object ---------------------------------------------------------------------------

  class TcpRtcmOutput {
    var clients: seq<Client>
    var gone: seq<Client>
    var bytesQueued: nat
    var bytesSent: nat
    var bytesAbandoned: nat

    constructor ()
      ensures State() == START
    {
      clients, gone, bytesQueued, bytesSent, bytesAbandoned := [], [], 0, 0, 0;
    }

    function State(): Output
      reads this
    {
      Output(clients, gone, Books(bytesQueued, bytesSent, bytesAbandoned))
    }

    /** The state with the first `k` clients visited, as the folds see it. */
    ghost function Visited(k: nat): Output
      reads this
      requires k <= |clients|
    {
      State().(clients := clients[..k])
    }

    /** The bytes a queue holds, summed frame by frame. */
    method QueuedBytes(frames: seq<Queued>) returns (n: nat)
      ensures n == |Pending(frames)|
    {
      n := 0;
      var k := 0;
      assert frames[0..] == frames;
      while k < |frames|
        invariant k <= |frames| && n + |Pending(frames[k..])| == |Pending(frames)|
      {
        PendingStep(frames[k..]);
        assert frames[k..][1..] == frames[k + 1..];
        n := n + |Rest(frames[k])|;
        k := k + 1;
      }
    }

    method AcceptClients(ids: seq<nat>)
      modifies this`clients
      ensures State() == Accept(old(State()), ids)
    {
      var k := 0;
      ghost var goal := Accept(State(), ids);
      assert ids[0..] == ids;
      while k < |ids|
        invariant k <= |ids| && Accept(State(), ids[k..]) == goal
      {
        assert ids[k..][1..] == ids[k + 1..];
        if |clients| < MAX_CLIENTS {
          clients := clients + [Client(ids[k], [], [], [])];
        }
        k := k + 1;
      }
    }

    /** `_drop`: the client at `at` leaves, and what it had not taken is abandoned. */
    method DropClient(at: nat)
      requires at < |clients|
      modifies this
      ensures clients == old(clients)[..at] + old(clients)[at + 1..]
      ensures Visited(at) == Record(old(Visited(at)), old(clients)[at], Drop, 0)
      ensures forall queued :: Record(old(Visited(at)), old(clients)[at], Drop, queued) == Visited(at)
    {
      var pending := QueuedBytes(clients[at].frames);
      gone := gone + [clients[at]];
      clients := clients[..at] + clients[at + 1..];
      bytesAbandoned := bytesAbandoned + pending;
      assert clients[..at] == old(clients)[..at];
    }

    method KeepClient(at: nat, c: Client, sent: nat, queued: nat)
      requires at < |clients|
      modifies this
      ensures clients == old(clients)[at := c]
      ensures Visited(at + 1) == Record(old(Visited(at)), old(clients)[at], Keep(c, sent), queued)
    {
      clients := clients[at := c];
      bytesSent := bytesSent + sent;
      bytesQueued := bytesQueued + queued;
      assert clients[..at + 1] == old(clients)[..at] + [c];
    }

    method FlushClients(ids: seq<nat>, now: int, answers: map<nat, Answer>)
      modifies this
      ensures State() == Flush(old(State()), ids, now, answers)
    {
      hide Record, FlushOne, Accept;
      AcceptClients(ids);
      var todo := clients;
      var k, at := 0, 0;
      ghost var goal := FlushAll(State().(clients := []), todo, now, answers);
      assert todo[0..] == todo && clients[..0] == [];
      while k < |todo|
        invariant k <= |todo| && at <= |clients| && clients[at..] == todo[k..]
        invariant FlushAll(Visited(at), todo[k..], now, answers) == goal
      {
        Tail(clients, at, todo, k);
        var v := FlushOne(todo[k], now, AnswerOf(answers, todo[k].id));
        match v {
          case Keep(c, n) => KeepClient(at, c, n, 0); at := at + 1;
          case Drop => DropClient(at);
        }
        k := k + 1;
      }
      assert |todo[k..]| == 0 && clients[..at] == clients;
    }

    method PublishFrame(raw: bytes, ids: seq<nat>, more: seq<nat>, now: int, answers: map<nat, Answer>)
      returns (delivered: nat)
      modifies this
      ensures State() == Publish(old(State()), raw, ids, more, now, answers)
      ensures var a := Accept(old(State()), ids);
        delivered == |PublishAll(a.(clients := []), a.clients, raw, now).clients|
    {
      hide Record, PublishOne, Accept, Flush;
      AcceptClients(ids);
      var todo := clients;
      var k, at := 0, 0;
      delivered := 0;
      ghost var goal := PublishAll(State().(clients := []), todo, raw, now);
      assert todo[0..] == todo && clients[..0] == [];
      while k < |todo|
        invariant k <= |todo| && at <= |clients| && clients[at..] == todo[k..] && delivered == at
        invariant PublishAll(Visited(at), todo[k..], raw, now) == goal
      {
        Tail(clients, at, todo, k);
        var v := PublishOne(todo[k], raw, now);
        match v {
          case Keep(c, n) =>
            KeepClient(at, c, n, |raw|);
            delivered := delivered + 1;
            at := at + 1;
          case Drop => DropClient(at);
        }
        k := k + 1;
      }
      assert |todo[k..]| == 0 && clients[..at] == clients;
      FlushClients(more, now, answers);
    }
  }

  lemma Tail(clients: seq<Client>, at: nat, todo: seq<Client>, k: nat)
    requires at <= |clients| && k < |todo| && clients[at..] == todo[k..]
    ensures at < |clients| && clients[at] == todo[k] && clients[at + 1..] == todo[k + 1..]
    ensures todo[k..][0] == todo[k] && todo[k..][1..] == todo[k + 1..]
  {
    assert clients[at..][0] == todo[k..][0];
    assert clients[at..][1..] == clients[at + 1..] && todo[k..][1..] == todo[k + 1..];
  }
}
