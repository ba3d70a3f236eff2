/**
 Over whole runs: assemblies stay in start order, and what is finished, in
 conflict, evicted or late stays refused.
 */
module ReassemblyRefusals {
  import opened Bytes
  import opened Wrappers
  import opened Application
  import opened OrderedDict
  import opened Reassembler
  import opened ReassemblyProperties
  import opened ReassemblyRuns
  import Rtcm

  /** The clock does not go back. */
  ghost predicate Clock(run: seq<Arrival>) { forall i, j :: 0 <= i < j < |run| ==> run[i].now <= run[j].now }

  lemma {:induction false} StatesInv(s: State, run: seq<Arrival>, n: nat)
    requires Inv(s) && n <= |run|
    ensures Inv(StateAfter(s, run, n))
    decreases n
  {
    hide Inv, Add;
    if n > 0 {
      StatesInv(s, run, n - 1);
      AddInv(StateAfter(s, run, n - 1), run[n - 1].frame, run[n - 1].now);
    }
  }

  // ---- start order ---------------------------------------------------------------

  /** At every state of a run the assemblies are held in the order they were started. */
  lemma {:induction false} OrderKept(s: State, run: seq<Arrival>, n: nat)
    requires Inv(s) && Clock(run) && 0 < n <= |run| && InOrder(s, run[0].now)
    ensures InOrder(StateAfter(s, run, n), run[n - 1].now)
    decreases n
  {
    hide Inv, Add, InOrder;
    var t, a := StateAfter(s, run, n - 1), run[n - 1];
    StatesInv(s, run, n - 1);
    if n > 1 {
      OrderKept(s, run, n - 1);
      OrderLater(t, run[n - 2].now, a.now);
    }
    AddInv(t, a.frame, a.now);
  }

  lemma OrderLater(s: State, now: int, later: int)
    requires InOrder(s, now) && now <= later
    ensures InOrder(s, later)
  {}

  // ---- refusal ---------------------------------------------------------------------

  /** The keys blocked by arrivals `m` to `n - 1`. */
  function BlockedIn(s: State, run: seq<Arrival>, m: nat, n: nat): set<Key>
    requires n <= |run|
    decreases n
  {
    if n <= m then {}
    else BlockedIn(s, run, m, n - 1) + Blocks(StateAfter(s, run, n - 1), run[n - 1].frame, run[n - 1].now)
  }

  lemma {:induction false} BlockedGrows(s: State, run: seq<Arrival>, m: nat, n: nat, later: set<Key>)
    requires m < n <= |run|
    ensures |later + BlockedIn(s, run, m, n - 1)| <= |later + BlockedIn(s, run, m, n)|
  {
    hide Blocks;
    Within(BlockedIn(s, run, m, n - 1), BlockedIn(s, run, m, n), later);
  }

  /** A refused key stays refused through the run, and its arrivals yield nothing. */
  lemma {:induction false} RefusedRun(
      s: State, run: seq<Arrival>, k: Key, until: int, later: set<Key>, m: nat, n: nat)
    requires Inv(s) && m <= n <= |run| && Refused(StateAfter(s, run, m), k, until, later)
    requires forall j :: m <= j < n ==> run[j].now < until
    requires |later + BlockedIn(s, run, m, n)| < MAX_BLOCKED
    ensures Refused(StateAfter(s, run, n), k, until, later + BlockedIn(s, run, m, n))
    ensures forall j :: m <= j < n && KeyOf(run[j].frame) == k ==> OutcomeAt(s, run, j).Rejected?
    decreases n
  {
    hide Inv, Add, Refused, Blocks;
    if n == m {
      RefusedWider(StateAfter(s, run, n), k, until, later, later + BlockedIn(s, run, m, n));
    } else {
      var t, a := StateAfter(s, run, n - 1), run[n - 1];
      var before := later + BlockedIn(s, run, m, n - 1);
      BlockedGrows(s, run, m, n, later);
      RefusedRun(s, run, k, until, later, m, n - 1);
      StatesInv(s, run, n - 1);
      assert before + Blocks(t, a.frame, a.now) == later + BlockedIn(s, run, m, n);
      AddRefused(t, a.frame, a.now, k, until, before);
    }
  }

  /** Arrival `n` ends the collecting of `k`: by completion, conflict, eviction or expiry. */
  predicate EndsAt(s: State, run: seq<Arrival>, k: Key, n: nat)
    requires n < |run|
  {
    && k in Blocks(StateAfter(s, run, n), run[n].frame, run[n].now)
    && k !in StateAfter(s, run, n + 1).items.vals
  }

  /** When what arrival `n` ends was started. */
  function StartAt(s: State, run: seq<Arrival>, k: Key, n: nat): int
    requires n < |run|
  {
    BlockedStart(StateAfter(s, run, n), run[n].frame, run[n].now, k)
  }

  /**
   Over every run: once a key is finished, in conflict, evicted or expired, its
   arrivals yield nothing before a second after its start, while fewer than 64 keys
   are blocked from then on.
   */
  lemma NothingBeforeItsSecond(s: State, run: seq<Arrival>, k: Key, n: nat, j: nat)
    requires Inv(s) && Clock(run) && n < j < |run| && EndsAt(s, run, k, n)
    requires KeyOf(run[j].frame) == k && run[j].now < StartAt(s, run, k, n) + TTL_MS
    requires |BlockedIn(s, run, n, j + 1)| < MAX_BLOCKED
    ensures OutcomeAt(s, run, j).Rejected?
  {
    hide Inv, Add, Refused, Blocks, BlockedStart, OutcomeAt;
    var t, a := StateAfter(s, run, n), run[n];
    var until := StartAt(s, run, k, n) + TTL_MS;
    StatesInv(s, run, n);
    AddBars(t, a.frame, a.now, k);
    var first := Blocks(t, a.frame, a.now);
    BlockedFrom(s, run, n, j + 1);
    RefusedRun(s, run, k, until, first, n + 1, j + 1);
  }

  /** The first arrival's keys and the rest's. */
  lemma {:induction false} BlockedFrom(s: State, run: seq<Arrival>, m: nat, n: nat)
    requires m < n <= |run|
    ensures Blocks(StateAfter(s, run, m), run[m].frame, run[m].now) + BlockedIn(s, run, m + 1, n)
         == BlockedIn(s, run, m, n)
    decreases n
  {
    hide Blocks;
    if m + 1 < n { BlockedFrom(s, run, m, n - 1); }
  }

  // ---- after the second is over ------------------------------------------------------

  lemma {:induction false} BlockedValue(s: State, keys: seq<Key>, now: int, k: Key)
    requires Inv(s) && k in s.blocked.vals
    ensures var r := ExpireItems(s, keys, now);
      k !in r.items.vals && (k in r.blocked.vals ==> r.blocked.vals[k] == s.blocked.vals[k])
    decreases |keys|
  {
    assert k !in s.items.vals;
    hide Retire, Shaped, Unfinished;
    if keys != [] {
      var x := keys[0];
      var t := ExpireOne(s, x, now);
      ExpireOneProps(s, x, now);
      if t != s { RetireValue(s, x, k); }
      if k in t.blocked.vals {
        BlockedValue(t, keys[1..], now, k);
      } else {
        ForgottenStays(t, keys[1..], now, k);
      }
    }
  }

  lemma RetireValue(s: State, x: Key, k: Key)
    requires Inv(s) && x in s.items.vals && x != k
    ensures k in Retire(s, x).blocked.vals ==> k in s.blocked.vals && Retire(s, x).blocked.vals[k] == s.blocked.vals[k]
  {
    BlockedSize(s, x);
    Disjoint(s, x);
    RetireItems(s, x);
    var v := s.items.vals[x].started + TTL_MS;
    s.blocked.SetLastValid(x, v);
    TrimProps(s.blocked.SetLast(x, v));
  }

  lemma {:induction false} ForgottenStays(s: State, keys: seq<Key>, now: int, k: Key)
    requires Inv(s) && k !in s.items.vals && k !in s.blocked.vals
    ensures k !in ExpireItems(s, keys, now).items.vals && k !in ExpireItems(s, keys, now).blocked.vals
    decreases |keys|
  {
    hide Retire, Shaped, Unfinished;
    if keys != [] {
      var x := keys[0];
      var t := ExpireOne(s, x, now);
      ExpireOneProps(s, x, now);
      if t != s { RetireValue(s, x, k); }
      ForgottenStays(t, keys[1..], now, k);
    }
  }

  /** At its time a block ends. */
  lemma Released(s: State, k: Key, until: int, later: set<Key>, now: int)
    requires Inv(s) && Refused(s, k, until, later) && until <= now
    ensures k !in Expire(s, now).items.vals && k !in Expire(s, now).blocked.vals
  {
    hide ExpireItems, ExpireBlocks, Shaped, Unfinished, InOrder;
    BlockedValue(s, s.items.order, now, k);
    var u := ExpireItems(s, s.items.order, now);
    ExpireItemsInv(s, s.items.order, now);
    ShapedBlocked(u);
    ExpireBlocksProps(u.blocked, u.blocked.order, now);
    ExpireProps(s, now);
  }

  /** After expiry `k` is neither held nor refused. */
  predicate Gone(s: State, k: Key, now: int) {
    k !in Expire(s, now).items.vals && k !in Expire(s, now).blocked.vals
  }

  /** An arrival that cannot be collected under `k` does not bring it back. */
  lemma GoneStays(s: State, f: Frame, now: int, k: Key, later: int)
    requires Inv(s) && Gone(s, k, now) && !(KeyOf(f) == k && Collectable(f))
    ensures Gone(Add(s, f, now).0, k, later)
  {
    hide Expire, AddTo, Collectable, Shaped, Unfinished;
    ExpireProps(s, now);
    AddToElsewhere(Expire(s, now), f, now, k);
    AddInv(s, f, now);
    AbsentGone(Add(s, f, now).0, k, later);
  }

  lemma AddToElsewhere(t: State, f: Frame, now: int, k: Key)
    requires Inv(t) && k !in t.items.vals && k !in t.blocked.vals && !(KeyOf(f) == k && Collectable(f))
    ensures k !in AddTo(t, f, now).0.items.vals && k !in AddTo(t, f, now).0.blocked.vals
  {
    hide Open, Store, Retire, Shaped, Unfinished, InOrder, MakeRoom;
    if Collectable(f) && KeyOf(f) !in t.blocked.vals {
      var m := MetaIn(f.body);
      OpenInv(t, KeyOf(f), m, now);
      var u := Open(t, KeyOf(f), m, now);
      OpenElsewhere(t, KeyOf(f), m, now, k);
      StoreShape(u, KeyOf(f), m, f.body[4] as int, f.body[6..]);
      RetireValue(u, KeyOf(f), k);
      RetireItems(u, KeyOf(f));
    }
  }

  lemma OpenElsewhere(t: State, x: Key, m: Meta, now: int, k: Key)
    requires Inv(t) && k !in t.items.vals && k !in t.blocked.vals && k != x
    ensures k !in Open(t, x, m, now).items.vals && k !in Open(t, x, m, now).blocked.vals
  {
    hide Retire, Shaped, Unfinished, InOrder;
    MakeRoomProps(t, now);
    if MakeRoom(t) != t {
      RetireValue(t, t.items.order[0], k);
    }
  }

  lemma AbsentGone(s: State, k: Key, now: int)
    requires Inv(s) && k !in s.items.vals && k !in s.blocked.vals
    ensures Gone(s, k, now)
  {
    hide ExpireItems, ExpireBlocks, Shaped, Unfinished, InOrder;
    ForgottenStays(s, s.items.order, now, k);
    var u := ExpireItems(s, s.items.order, now);
    ExpireItemsInv(s, s.items.order, now);
    ShapedBlocked(u);
    ExpireBlocksProps(u.blocked, u.blocked.order, now);
  }

  /** A refused key is gone at any arrival after its time that none of its own has preceded. */
  lemma {:induction false} GoneBy(s: State, run: seq<Arrival>, k: Key, until: int, later: set<Key>, p: nat)
    requires Inv(s) && Clock(run) && p < |run| && Refused(s, k, until, later) && until <= run[p].now
    requires |later + BlockedIn(s, run, 0, p)| < MAX_BLOCKED
    requires forall j :: 0 <= j < p && Own(run[j], k) ==> run[j].now < until
    ensures Gone(StateAfter(s, run, p), k, run[p].now)
    decreases p
  {
    hide Inv, Add, Refused, Blocks, Own, Gone, Expire;
    StatesInv(s, run, p);
    if p == 0 || run[p - 1].now < until {
      RefusedRun(s, run, k, until, later, 0, p);
      Released(StateAfter(s, run, p), k, until, later + BlockedIn(s, run, 0, p), run[p].now);
      IsGone(StateAfter(s, run, p), k, run[p].now);
    } else {
      StatesInv(s, run, p - 1);
      BlockedGrows(s, run, 0, p, later);
      GoneBy(s, run, k, until, later, p - 1);
      NotOwn(run[p - 1], k);
      GoneStays(StateAfter(s, run, p - 1), run[p - 1].frame, run[p - 1].now, k, run[p].now);
    }
  }

  lemma IsGone(s: State, k: Key, now: int)
    requires k !in Expire(s, now).items.vals && k !in Expire(s, now).blocked.vals
    ensures Gone(s, k, now)
  {}

  lemma NotOwn(a: Arrival, k: Key)
    ensures Own(a, k) <==> KeyOf(a.frame) == k && Collectable(a.frame)
  {}

  /** Nothing of the key is returned while its block lasts. */
  lemma NoneBefore(s: State, run: seq<Arrival>, k: Key, until: int, later: set<Key>, j: nat)
    requires Inv(s) && Clock(run) && j < |run| && Refused(s, k, until, later) && run[j].now < until && Own(run[j], k)
    requires |later + BlockedIn(s, run, 0, j + 1)| < MAX_BLOCKED
    ensures OutcomeAt(s, run, j).Rejected?
  {
    hide Inv, Refused, BlockedIn, OutcomeAt;
    RefusedRun(s, run, k, until, later, 0, j + 1);
    assert KeyOf(run[j].frame) == k;
  }

  /** The run from arrival `p` on, as a run of its own. */
  lemma {:induction false} Suffix(s: State, run: seq<Arrival>, p: nat, n: nat)
    requires p <= |run| && n <= |run| - p
    ensures StateAfter(StateAfter(s, run, p), run[p..], n) == StateAfter(s, run, p + n)
    decreases n
  {
    hide Add;
    if n > 0 { Suffix(s, run, p, n - 1); }
  }

  /** The frame is returned by some arrival. */
  ghost predicate Returned(s: State, run: seq<Arrival>, k: Key, raw: bytes) {
    exists j :: 0 <= j < |run| && Own(run[j], k) && OutcomeAt(s, run, j) == Complete(raw)
  }

  /**
   A key that has been refused can be completed again. Let `p` be its first arrival
   after the block has ended; then the frame is returned if and only if every piece
   arrives again from `p` on.
   */
  lemma CompletesAgain(s: State, run: seq<Arrival>, k: Key, raw: bytes, until: int, later: set<Key>, p: nat)
    requires Inv(s) && Clock(run) && p < |run| && Refused(s, k, until, later)
    requires until <= run[p].now && Own(run[p], k)
    requires forall j :: 0 <= j < p && Own(run[j], k) ==> run[j].now < until
    requires |later + BlockedIn(s, run, 0, p)| < MAX_BLOCKED
    requires Rtcm.Valid(raw) && |raw| <= Rtcm.MAX_FRAME
    requires forall j :: p <= j < |run| ==> run[j].now - run[p].now < TIMEOUT_MS
    requires forall j :: p <= j < |run| && Own(run[j], k) ==> FreshPiece(run[j].frame, k, raw)
    requires |Opened(StateAfter(s, run, p), run[p..], k, |run| - p)| < MAX_HELD
    ensures Returned(s, run, k, raw) <==> Seen(run[p..], k, |run| - p) == Below(Pieces(|raw|))
  {
    hide Inv, Add, Refused, Blocks, OutcomeAt, Opened, Own, FreshPiece, Rtcm.Valid, Expire, Below, Delivery, Clock,
      StateAfter, BlockedIn, Seen, Pieces;
    var t, rest := StateAfter(s, run, p), run[p..];
    AgainDelivers(s, run, k, raw, until, later, p);
    if Seen(rest, k, |rest|) == Below(Pieces(|raw|)) {
      var j := Completeness(t, rest, k, raw);
      SuffixOutcome(s, run, p, j);
      assert run[p + j] == rest[j];
    } else {
      forall j | 0 <= j < |run| && Own(run[j], k)
        ensures OutcomeAt(s, run, j) != Complete(raw)
      {
        if j < p {
          BlockedUpTo(s, run, j + 1, p, later);
          NoneBefore(s, run, k, until, later, j);
        } else {
          NotYetAgain(s, run, k, raw, p, j);
        }
      }
    }
  }

  lemma NotYetAgain(s: State, run: seq<Arrival>, k: Key, raw: bytes, p: nat, j: nat)
    requires p <= j < |run| && Own(run[j], k) && Delivery(StateAfter(s, run, p), run[p..], k, raw)
    requires Seen(run[p..], k, |run| - p) != Below(Pieces(|raw|))
    ensures OutcomeAt(s, run, j) == Nothing
  {
    hide Delivery, OutcomeAt, Below, Seen, StateAfter, Own;
    assert run[j] == run[p..][j - p];
    SuffixOutcome(s, run, p, j - p);
    NotYet(StateAfter(s, run, p), run[p..], k, raw, j - p);
  }

  lemma AgainDelivers(s: State, run: seq<Arrival>, k: Key, raw: bytes, until: int, later: set<Key>, p: nat)
    requires Inv(s) && Clock(run) && p < |run| && Refused(s, k, until, later)
    requires until <= run[p].now && Own(run[p], k)
    requires forall j :: 0 <= j < p && Own(run[j], k) ==> run[j].now < until
    requires |later + BlockedIn(s, run, 0, p)| < MAX_BLOCKED
    requires Rtcm.Valid(raw) && |raw| <= Rtcm.MAX_FRAME
    requires forall j :: p <= j < |run| ==> run[j].now - run[p].now < TIMEOUT_MS
    requires forall j :: p <= j < |run| && Own(run[j], k) ==> FreshPiece(run[j].frame, k, raw)
    requires |Opened(StateAfter(s, run, p), run[p..], k, |run| - p)| < MAX_HELD
    ensures Delivery(StateAfter(s, run, p), run[p..], k, raw)
  {
    hide Inv, Add, Refused, Blocks, Opened, Own, FreshPiece, Rtcm.Valid, Expire, StateAfter, BlockedIn;
    var rest := run[p..];
    StatesInv(s, run, p);
    GoneBy(s, run, k, until, later, p);
    forall a <- rest
      ensures a.now - rest[0].now < TIMEOUT_MS && (Own(a, k) ==> FreshPiece(a.frame, k, raw))
    {
      var i :| 0 <= i < |rest| && rest[i] == a;
      assert rest[i] == run[p + i];
    }
  }

  lemma {:induction false} BlockedUpTo(s: State, run: seq<Arrival>, m: nat, n: nat, later: set<Key>)
    requires m <= n <= |run|
    ensures |later + BlockedIn(s, run, 0, m)| <= |later + BlockedIn(s, run, 0, n)|
    decreases n
  {
    hide Blocks;
    if m < n {
      BlockedUpTo(s, run, m, n - 1, later);
      BlockedGrows(s, run, 0, n, later);
    }
  }

  /**
   It happens: a message of one piece that arrives twice is returned twice if, and
   only if, the second arrival is a second or more after the first.
   */
  lemma ReturnedTwice(raw: bytes, k: Key, at: nat)
    requires Rtcm.Valid(raw) && |raw| <= PIECE
    ensures var f := FragmentAt(raw, k, 0, 0);
      var run := [Arrival(f, 0), Arrival(f, at)];
      && OutcomeAt(EMPTY, run, 0) == Complete(raw)
      && (OutcomeAt(EMPTY, run, 1) == Complete(raw) <==> at >= TTL_MS)
  {
    hide Add, Rtcm.Valid, Expire, Pieces, Opens, Blocks, Refused;
    assert Pieces(|raw|) == 1 by { OnePiece(raw); }
    var f := FragmentAt(raw, k, 0, 0);
    FragmentShaped(raw, k, 0, 0);
    var one, run := [Arrival(f, 0)], [Arrival(f, 0), Arrival(f, at)];
    var t := Add(EMPTY, f, 0).0;
    EmptyStart(k);
    assert StateAfter(EMPTY, run, 1) == t;
    assert Seen(one, k, 1) == Below(1);
    assert Opened(EMPTY, one, k, 1) == {};
    var j := Completeness(EMPTY, one, k, raw);
    FirstFinishes(raw, k);
    var again := [Arrival(f, at)];
    assert StateAfter(t, again, 0) == t && OutcomeAt(t, again, 0) == OutcomeAt(EMPTY, run, 1);
    if at >= TTL_MS {
      assert again[0..] == again;
      assert Seen(again, k, 1) == Below(1);
      assert Opened(t, again, k, 1) == {};
      CompletesAgain(t, again, k, raw, TTL_MS, {}, 0);
    } else {
      BlocksFew(t, f, at);
      assert {} + Blocks(t, f, at) == Blocks(t, f, at);
      AddRefused(t, f, at, k, TTL_MS, {});
    }
  }

  lemma OnePiece(raw: bytes)
    requires Rtcm.Valid(raw) && |raw| <= PIECE
    ensures Pieces(|raw|) == 1 && |raw| <= Rtcm.MAX_FRAME && Below(1) == {0}
  {
    hide Rtcm.Valid;
    ValidSize(raw);
    assert Below(1) == Below(0) + {0};
  }

  lemma EmptyStart(k: Key)
    ensures Inv(EMPTY) && k !in Expire(EMPTY, 0).items.vals && k !in Expire(EMPTY, 0).blocked.vals
  {
    AbsentGone(EMPTY, k, 0);
  }

  lemma FirstFinishes(raw: bytes, k: Key)
    requires Rtcm.Valid(raw) && |raw| <= PIECE
    ensures var t := Add(EMPTY, FragmentAt(raw, k, 0, 0), 0).0; Inv(t) && Refused(t, k, TTL_MS, {})
  {
    hide Rtcm.Valid, Expire, Open, Store, Shaped, Unfinished, InOrder, Held, Holds, Free, Pieces;
    OnePiece(raw);
    var f := FragmentAt(raw, k, 0, 0);
    FragmentShaped(raw, k, 0, 0);
    EmptyStart(k);
    ExpireProps(EMPTY, 0);
    assert Free(EMPTY, k, 0, {}) by { EmptyFree(k); }
    assert {} + {0} == Below(1);
    AddOwn(EMPTY, Arrival(f, 0), k, raw, 0, 0, {}, {}, {});
  }

  lemma EmptyFree(k: Key)
    ensures Free(EMPTY, k, 0, {})
  {
    hide Expire;
    EmptyStart(k);
    ExpireProps(EMPTY, 0);
  }

  lemma SuffixOutcome(s: State, run: seq<Arrival>, p: nat, j: nat)
    requires p <= |run| && j < |run| - p
    ensures OutcomeAt(StateAfter(s, run, p), run[p..], j) == OutcomeAt(s, run, p + j)
  {
    hide Add;
    Suffix(s, run, p, j);
  }

  /** While a piece is missing nothing is returned. */
  lemma NotYet(s: State, run: seq<Arrival>, k: Key, raw: bytes, j: nat)
    requires Delivery(s, run, k, raw) && j < |run| && Own(run[j], k)
    requires Seen(run, k, |run|) != Below(Pieces(|raw|))
    ensures OutcomeAt(s, run, j) == Nothing
  {
    hide Delivery, OutcomeAt, Below, Seen;
    SeenGrows(s, run, k, raw, j + 1, |run|);
    OutcomeOfOwn(s, run, k, raw, j);
  }
}
