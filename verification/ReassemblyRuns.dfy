/** Completeness over whole runs, and the object that carries the state. */
module ReassemblyRuns {
  import opened Bytes
  import opened Wrappers
  import opened Application
  import opened OrderedDict
  import opened Reassembler
  import opened ReassemblyProperties
  import Rtcm

  datatype Arrival = Arrival(frame: Frame, now: int)

  /** The state after the first `n` arrivals. */
  function StateAfter(s: State, run: seq<Arrival>, n: nat): State
    requires n <= |run|
  {
    if n == 0 then s else Add(StateAfter(s, run, n - 1), run[n - 1].frame, run[n - 1].now).0
  }

  /** What arrival `n` yields. */
  function OutcomeAt(s: State, run: seq<Arrival>, n: nat): Outcome
    requires n < |run|
  {
    Add(StateAfter(s, run, n), run[n].frame, run[n].now).1
  }

  /** The arrival can be collected under `k`. */
  predicate Own(a: Arrival, k: Key) { KeyOf(a.frame) == k && Collectable(a.frame) }

  /** Piece indices of `k` among the first `n` arrivals. */
  function Seen(run: seq<Arrival>, k: Key, n: nat): set<nat>
    requires n <= |run|
  {
    if n == 0 then {} else Seen(run, k, n - 1) + (if Own(run[n - 1], k) then {run[n - 1].frame.body[4] as nat} else {})
  }

  /** Keys other than `k` under which one of the first `n` arrivals starts an assembly. */
  function Opened(s: State, run: seq<Arrival>, k: Key, n: nat): (r: set<Key>)
    requires n <= |run|
    ensures k !in r
  {
    if n == 0 then {}
    else
      var a := run[n - 1];
      Opened(s, run, k, n - 1)
      + (if Opens(StateAfter(s, run, n - 1), a.frame, a.now) && KeyOf(a.frame) != k then {KeyOf(a.frame)} else {})
  }

  /** A fragment of `raw`, sent less than a second after its source. */
  ghost predicate FreshPiece(f: Frame, k: Key, raw: bytes) {
    && Rtcm.Valid(raw) && |raw| <= Rtcm.MAX_FRAME && f.age < TTL_MS
    && exists i :: 0 <= i < Pieces(|raw|) && f == FragmentAt(raw, k, f.age, i)
  }

  /**
   The run starts with a fragment of `raw` under a key neither held nor refused by
   then; all that can be collected under that key are fresh fragments of `raw`;
   everything arrives within 600 ms of the first; and fewer than eight other keys
   start meanwhile.
   */
  ghost predicate Delivery(s: State, run: seq<Arrival>, k: Key, raw: bytes) {
    && Inv(s) && Rtcm.Valid(raw) && |raw| <= Rtcm.MAX_FRAME
    && run != [] && Own(run[0], k)
    && k !in Expire(s, run[0].now).items.vals && k !in Expire(s, run[0].now).blocked.vals
    && (forall a <- run :: a.now - run[0].now < TIMEOUT_MS)
    && (forall a <- run :: Own(a, k) ==> FreshPiece(a.frame, k, raw))
    && |Opened(s, run, k, |run|)| < MAX_HELD
  }

  /** The keys that can be held beside `k`: those held at the start, and those started since. */
  function Company(s: State, run: seq<Arrival>, k: Key): (r: set<Key>)
    requires run != []
  {
    Expire(s, run[0].now).items.vals.Keys + Opened(s, run, k, |run|)
  }

  /** `k` has collected exactly the pieces in `seen`. */
  ghost predicate Collecting(
    s: State, k: Key, raw: bytes, start: int, seen: set<nat>, young: set<Key>, later: set<Key>)
  {
    && Inv(s) && s.items.vals.Keys <= later + {k}
    && k in s.items.vals && Held(s, k, s.items.vals[k], young)
    && s.items.vals[k].started == start && Holds(s.items.vals[k], raw) && s.items.vals[k].parts.Keys == seen
  }

  /** Changing what `k` has collected, or a counter, moves no key. */
  lemma HeldSet(s: State, t: State, k: Key, a: Assembly, young: set<Key>)
    requires k in s.items.vals && Held(s, k, s.items.vals[k], young) && t.items == s.items.Set(k, a)
    ensures Held(t, k, a, young) && t.items.vals.Keys == s.items.vals.Keys
  {}

  /** `k` is finished: refused until a second after its start, beside nothing but its company. */
  ghost predicate Finished(s: State, k: Key, start: int, later: set<Key>) {
    Inv(s) && Refused(s, k, start + TTL_MS, later) && s.items.vals.Keys <= later
  }

  /** One more piece of `raw`, once the assembly is open. */
  lemma StoreOwn(s: State, k: Key, raw: bytes, i: nat, start: int, seen: set<nat>, young: set<Key>, later: set<Key>)
    requires Collecting(s, k, raw, start, seen, young, later) && k !in later && i < Pieces(|raw|)
    ensures var (t, out) := Store(s, k, MetaOf(raw), i, Piece(raw, i));
      if seen + {i} == Below(Pieces(|raw|)) && i !in seen
      then out == Complete(raw) && Finished(t, k, start, later)
      else out == Nothing && Collecting(t, k, raw, start, seen + {i}, young, later)
  {
    hide Rtcm.Valid, Inv, Holds, Store, Below, Piece, Collecting, Finished;
    if i in seen {
      StoreDuplicate(s, k, raw, i, start, seen, young, later);
      assert seen + {i} == seen;
    } else {
      StoreNew(s, k, raw, i, start, seen, young, later);
    }
  }

  lemma StoreDuplicate(
      s: State, k: Key, raw: bytes, i: nat, start: int, seen: set<nat>, young: set<Key>, later: set<Key>)
    requires Collecting(s, k, raw, start, seen, young, later) && i in seen && i < Pieces(|raw|)
    ensures var (t, out) := Store(s, k, MetaOf(raw), i, Piece(raw, i));
      out == Nothing && Collecting(t, k, raw, start, seen, young, later)
  {
    hide Rtcm.Valid, Inv, Holds, Store, Below, Piece, Held, InOrder;
    var a := s.items.vals[k];
    HoldsValid(a, raw);
    StorePiece(s, k, raw, i);
    StorePieceMeta(raw, i);
    StoreInv(s, k, MetaOf(raw), i, Piece(raw, i), 0);
    assert s.items.Set(k, s.items.vals[k]) == s.items by {
      assert s.items.vals[k := s.items.vals[k]] == s.items.vals;
    }
    HeldSet(s, s.(duplicates := s.duplicates + 1), k, a, young);
  }

  lemma StoreNew(
      s: State, k: Key, raw: bytes, i: nat, start: int, seen: set<nat>, young: set<Key>, later: set<Key>)
    requires Collecting(s, k, raw, start, seen, young, later) && k !in later && i !in seen && i < Pieces(|raw|)
    ensures var (t, out) := Store(s, k, MetaOf(raw), i, Piece(raw, i));
      if seen + {i} == Below(Pieces(|raw|))
      then out == Complete(raw) && Finished(t, k, start, later)
      else out == Nothing && Collecting(t, k, raw, start, seen + {i}, young, later)
  {
    hide Retire, Rtcm.Valid, Inv, Holds, Store, Below, Piece, Held, Finished, InOrder;
    var a := s.items.vals[k];
    HoldsValid(a, raw);
    StorePiece(s, k, raw, i);
    StorePieceMeta(raw, i);
    var a' := a.(parts := a.parts[i := Piece(raw, i)]);
    var u := s.(items := s.items.Set(k, a'));
    assert a'.parts.Keys == seen + {i};
    if seen + {i} == Below(Pieces(|raw|)) {
      RetireFinishes(s, k, start, later);
      RetireSame(s, u, k, a');
    } else {
      StoreInv(s, k, MetaOf(raw), i, Piece(raw, i), 0);
      HeldSet(s, u, k, a', young);
    }
  }

  lemma RetireFinishes(s: State, k: Key, start: int, later: set<Key>)
    requires Inv(s) && k in s.items.vals && s.items.vals[k].started == start && s.items.vals.Keys <= later + {k}
    ensures Finished(Retire(s, k), k, start, later)
  {
    hide Retire, Shaped, Unfinished, Refused;
    RetireInv(s, k);
    RetiredIsRefused(s, k);
    RefusedWider(Retire(s, k), k, start + TTL_MS, {}, later);
    RetireItems(s, k);
  }

  /** The first arrival under `k` finds it neither held nor refused. */
  ghost predicate Free(s: State, k: Key, now: int, later: set<Key>) {
    && Inv(s) && k !in Expire(s, now).items.vals && k !in Expire(s, now).blocked.vals
    && Expire(s, now).items.vals.Keys <= later
  }

  /** An arrival under `k`, before the frame is complete. */
  lemma AddOwn(
      s: State, a: Arrival, k: Key, raw: bytes, i: nat, start: int, seen: set<nat>, young: set<Key>, later: set<Key>)
    requires Own(a, k) && k !in later && k !in young && a.frame.age < TTL_MS
    requires Rtcm.Valid(raw) && |raw| <= Rtcm.MAX_FRAME && i < Pieces(|raw|)
    requires a.frame == FragmentAt(raw, k, a.frame.age, i)
    requires if seen == {} then Free(s, k, a.now, later) && start == a.now
             else Collecting(s, k, raw, start, seen, young, later) && a.now - start < TIMEOUT_MS
    ensures var (t, out) := Add(s, a.frame, a.now);
      if seen + {i} == Below(Pieces(|raw|)) && i !in seen
      then out == Complete(raw) && Finished(t, k, start, later)
      else out == Nothing && Collecting(t, k, raw, start, seen + {i}, young, later)
  {
    hide Expire, Open, Store, Rtcm.Valid, Shaped, Unfinished, Holds, Finished;
    FragmentShaped(raw, k, a.frame.age, i);
    ExpireProps(s, a.now);
    var t := Expire(s, a.now);
    var m := MetaOf(raw);
    if seen == {} {
      OpenInv(t, k, m, a.now);
      OpenOwn(t, k, m, a.now, young);
      HoldsNothing(Assembly(a.now, m, map[]), raw);
      assert Collecting(Open(t, k, m, a.now), k, raw, start, {}, young, later);
    } else {
      ExpireHeld(s, a.now, k, s.items.vals[k], young);
      HeldNotBlocked(t, k);
      OpenInv(t, k, m, a.now);
    }
    StoreOwn(Open(t, k, m, a.now), k, raw, i, start, seen, young, later);
  }

  lemma HeldNotBlocked(s: State, k: Key)
    requires Inv(s) && k in s.items.vals
    ensures k !in s.blocked.vals
  {}

  lemma OpenOwn(s: State, k: Key, m: Meta, now: int, young: set<Key>)
    requires Inv(s) && k !in s.items.vals && k !in young
    ensures Held(Open(s, k, m, now), k, Assembly(now, m, map[]), young)
  {
    hide Retire, Shaped, Unfinished;
    MakeRoomProps(s, now);
    var t := MakeRoom(s);
    Orders(t);
    AfterNew(t.items.order, k);
  }

  /** An add holds at most one key more, the one it opens, and blocks none that was neither held nor opened. */
  lemma AddKeys(s: State, f: Frame, now: int, members: set<Key>)
    requires Inv(s) && s.items.vals.Keys <= members && (Opens(s, f, now) ==> KeyOf(f) in members)
    ensures Add(s, f, now).0.items.vals.Keys <= members && Blocks(s, f, now) <= members
  {
    hide Expire, Open, Store, Shaped, Unfinished;
    ExpireProps(s, now);
    var t := Expire(s, now);
    if Collectable(f) && KeyOf(f) !in t.blocked.vals {
      Stages(t, f, now);
      var m := MetaIn(f.body);
      var u := Open(t, KeyOf(f), m, now);
      OpenInv(t, KeyOf(f), m, now);
      StoreShape(u, KeyOf(f), m, f.body[4] as int, f.body[6..]);
      RetireItems(u, KeyOf(f));
    }
  }

  /** Where the run stands after `n` arrivals. */
  ghost predicate Stands(s: State, run: seq<Arrival>, k: Key, raw: bytes, n: nat)
    requires 1 <= n <= |run|
  {
    StandsAs(StateAfter(s, run, n), k, raw, run[0].now, Seen(run, k, n),
             Opened(s, run, k, |run|), Company(s, run, k))
  }

  /** The standing, with the state and the sets named. */
  ghost predicate StandsAs(
      t: State, k: Key, raw: bytes, start: int, seen: set<nat>, young: set<Key>, later: set<Key>) {
    if seen == Below(Pieces(|raw|)) then Finished(t, k, start, later)
    else Collecting(t, k, raw, start, seen, young, later)
  }

  /** Any other arrival changes nothing for `k`. */
  lemma AdvanceOther(
      t: State, a: Arrival, k: Key, raw: bytes, start: int, seen: set<nat>, young: set<Key>, later: set<Key>)
    requires StandsAs(t, k, raw, start, seen, young, later)
    requires !Own(a, k) && a.now - start < TIMEOUT_MS && young <= later
    requires Opens(t, a.frame, a.now) ==> KeyOf(a.frame) in young
    requires |young| < MAX_HELD && |later| < MAX_BLOCKED
    ensures StandsAs(Add(t, a.frame, a.now).0, k, raw, start, seen, young, later)
  {
    hide Add, Shaped, Unfinished, Holds, Held, Refused, InOrder, Opens, Blocks;
    AddInv(t, a.frame, a.now);
    if seen == Below(Pieces(|raw|)) {
      AddKeys(t, a.frame, a.now, later);
      assert later + Blocks(t, a.frame, a.now) == later;
      AddRefused(t, a.frame, a.now, k, start + TTL_MS, later);
    } else {
      AddKeys(t, a.frame, a.now, later + {k});
      AddHeld(t, a.frame, a.now, k, t.items.vals[k], young);
      HeldSame(Add(t, a.frame, a.now).0, k, t.items.vals[k], young);
    }
  }

  /** An arrival of `k` itself. */
  lemma AdvanceOwn(
      t: State, a: Arrival, k: Key, raw: bytes, start: int, seen: set<nat>, young: set<Key>, later: set<Key>)
    requires Own(a, k) && FreshPiece(a.frame, k, raw) && a.now - start < TIMEOUT_MS
    requires k !in young && k !in later && |later| < MAX_BLOCKED
    requires if seen == {} then Free(t, k, a.now, later) && start == a.now
             else StandsAs(t, k, raw, start, seen, young, later)
    ensures a.frame.body[4] as nat < Pieces(|raw|)
    ensures var (u, out) := Add(t, a.frame, a.now);
      var seen' := seen + {a.frame.body[4] as nat};
      && (seen == Below(Pieces(|raw|)) ==> out.Rejected? && StandsAs(u, k, raw, start, seen, young, later))
      && (seen != Below(Pieces(|raw|)) ==>
            out == (if seen' == Below(Pieces(|raw|)) then Complete(raw) else Nothing)
            && StandsAs(u, k, raw, start, seen', young, later))
  {
    hide Add, Shaped, Unfinished, Holds, Held, Refused, InOrder, Rtcm.Valid, Free, Blocks;
    var i :| 0 <= i < Pieces(|raw|) && a.frame == FragmentAt(raw, k, a.frame.age, i);
    FragmentShaped(raw, k, a.frame.age, i);
    if seen == Below(Pieces(|raw|)) && seen != {} {
      AddInv(t, a.frame, a.now);
      RefusedOpens(t, a.frame, a.now, k, start + TTL_MS, later);
      AddKeys(t, a.frame, a.now, later);
      assert later + Blocks(t, a.frame, a.now) == later;
      AddRefused(t, a.frame, a.now, k, start + TTL_MS, later);
    } else {
      AddOwn(t, a, k, raw, i, start, seen, young, later);
      if i in seen { assert seen + {i} == seen; }
    }
  }

  /** A refused key is not opened before its time. */
  lemma RefusedOpens(s: State, f: Frame, now: int, k: Key, until: int, later: set<Key>)
    requires Inv(s) && Refused(s, k, until, later) && now < until && KeyOf(f) == k && s.items.vals.Keys <= later
    requires |later| < MAX_BLOCKED
    ensures !Opens(s, f, now)
  {
    hide Expire, Shaped, Unfinished;
    ExpireProps(s, now);
    assert later + Left(s, Expire(s, now)) == later;
    ExpireRefused(s, now, k, until, later);
  }

  /** Arrival `n`, what it yields under `k`, and where the run stands after it. */
  lemma Advance(s: State, run: seq<Arrival>, k: Key, raw: bytes, n: nat)
    requires Delivery(s, run, k, raw) && n < |run|
    requires n > 0 ==> Stands(s, run, k, raw, n)
    ensures Stands(s, run, k, raw, n + 1)
    ensures Own(run[n], k) && Seen(run, k, n) == Below(Pieces(|raw|)) ==> OutcomeAt(s, run, n).Rejected?
    ensures Own(run[n], k) && Seen(run, k, n) != Below(Pieces(|raw|)) ==>
      OutcomeAt(s, run, n) == if Seen(run, k, n + 1) == Below(Pieces(|raw|)) then Complete(raw) else Nothing
  {
    hide Add, StandsAs, FreshPiece, Inv, Rtcm.Valid, Opened, Below, Pieces, Expire, Opens, Own, Delivery, Company, Free;
    var later, young := Company(s, run, k), Opened(s, run, k, |run|);
    var t, a := StateAfter(s, run, n), run[n];
    DeliveryAt(s, run, k, raw, n);
    if Own(a, k) {
      if n > 0 { SeenFirst(s, run, k, raw, n); }
      AdvanceOwn(t, a, k, raw, run[0].now, Seen(run, k, n), young, later);
      SeenBelow(s, run, k, raw, n);
      if Seen(run, k, n) == Below(Pieces(|raw|)) {
        assert Seen(run, k, n + 1) == Seen(run, k, n);
      }
    } else {
      OpenedAt(s, run, k, n, |run|);
      AdvanceOther(t, a, k, raw, run[0].now, Seen(run, k, n), young, later);
      assert Seen(run, k, n + 1) == Seen(run, k, n);
    }
  }

  /** What a delivery says of arrival `n` and of the sets. */
  lemma DeliveryAt(s: State, run: seq<Arrival>, k: Key, raw: bytes, n: nat)
    requires Delivery(s, run, k, raw) && n < |run|
    ensures var later, young := Company(s, run, k), Opened(s, run, k, |run|);
      && |young| < MAX_HELD && |later| < MAX_BLOCKED && young <= later && k !in young && k !in later
      && run[n].now - run[0].now < TIMEOUT_MS && (Own(run[n], k) ==> FreshPiece(run[n].frame, k, raw))
      && Own(run[0], k) && Free(s, k, run[0].now, later) && Below(Pieces(|raw|)) != {}
  {
    hide FreshPiece, Inv, Rtcm.Valid, Opened, Expire, Own, Below, Pieces;
    LaterSmall(s, run, k);
    assert Below(Pieces(|raw|)) != {} && 1 <= Pieces(|raw|) by {
      ValidSize(raw);
      PiecesCover(|raw|);
      assert 0 in Below(Pieces(|raw|));
    }
    assert run[n] in run;
  }

  /** What arrival `n` opens is among the opened. */
  lemma {:induction false} OpenedAt(s: State, run: seq<Arrival>, k: Key, n: nat, m: nat)
    requires n < m <= |run| && !Own(run[n], k)
    ensures Opens(StateAfter(s, run, n), run[n].frame, run[n].now) ==> KeyOf(run[n].frame) in Opened(s, run, k, m)
    decreases m
  {
    hide Add, Expire, Collectable;
    if Opens(StateAfter(s, run, n), run[n].frame, run[n].now) {
      assert Collectable(run[n].frame) by {
        hide Expire;
      }
    }
    if n < m - 1 { OpenedAt(s, run, k, n, m - 1); }
  }

  lemma HeldSame(t: State, k: Key, a: Assembly, young: set<Key>)
    requires Held(t, k, a, young)
    ensures k in t.items.vals && t.items.vals[k] == a
  {}

  lemma LaterSmall(s: State, run: seq<Arrival>, k: Key)
    requires Inv(s) && run != [] && |Opened(s, run, k, |run|)| < MAX_HELD && k !in Expire(s, run[0].now).items.vals
    ensures |Company(s, run, k)| < MAX_BLOCKED && k !in Company(s, run, k)
    ensures Opened(s, run, k, |run|) <= Company(s, run, k)
  {
    hide Expire, Opened, Shaped;
    var t := Expire(s, run[0].now);
    ExpireProps(s, run[0].now);
    FewLeft(t, t);
    UnionSize(t.items.vals.Keys, Opened(s, run, k, |run|));
  }

  /** A fresh piece has an index below the count. */
  lemma PieceIndex(f: Frame, k: Key, raw: bytes)
    requires FreshPiece(f, k, raw)
    ensures 6 <= |f.body| && f.body[4] as nat < Pieces(|raw|)
  {
    hide Rtcm.Valid;
    var i :| 0 <= i < Pieces(|raw|) && f == FragmentAt(raw, k, f.age, i);
    FragmentShaped(raw, k, f.age, i);
  }

  lemma DeliveryPiece(s: State, run: seq<Arrival>, k: Key, raw: bytes, n: nat)
    requires Delivery(s, run, k, raw) && n < |run| && Own(run[n], k)
    ensures run[n].frame.body[4] as nat < Pieces(|raw|)
  {
    hide FreshPiece, Inv, Rtcm.Valid, Pieces, Expire, Opened;
    assert run[n] in run;
    PieceIndex(run[n].frame, k, raw);
  }

  lemma {:induction false} SeenFirst(s: State, run: seq<Arrival>, k: Key, raw: bytes, n: nat)
    requires Delivery(s, run, k, raw) && 0 < n <= |run|
    ensures Seen(run, k, n) != {}
    decreases n
  {
    assert Own(run[0], k);
    hide Delivery, Own;
    if n == 1 {
      assert Seen(run, k, 1) != {} by {
        assert run[0].frame.body[4] as nat in Seen(run, k, 1);
      }
    } else {
      SeenFirst(s, run, k, raw, n - 1);
    }
  }

  lemma {:induction false} SeenBelow(s: State, run: seq<Arrival>, k: Key, raw: bytes, n: nat)
    requires Delivery(s, run, k, raw) && n <= |run|
    ensures Seen(run, k, n) <= Below(Pieces(|raw|))
    ensures n > 0 ==> Seen(run, k, n - 1) <= Seen(run, k, n)
    decreases n
  {
    hide Delivery, Below, Pieces;
    if n > 0 {
      SeenBelow(s, run, k, raw, n - 1);
      if Own(run[n - 1], k) { DeliveryPiece(s, run, k, raw, n - 1); }
    }
  }

  lemma {:induction false} RunStands(s: State, run: seq<Arrival>, k: Key, raw: bytes, n: nat)
    requires Delivery(s, run, k, raw) && 1 <= n <= |run|
    ensures Stands(s, run, k, raw, n)
    decreases n
  {
    hide Stands, Delivery;
    if n > 1 { RunStands(s, run, k, raw, n - 1); }
    Advance(s, run, k, raw, n - 1);
  }

  /** The frame is returned by the arrival that brings the last missing piece. */
  ghost predicate ReturnedAt(s: State, run: seq<Arrival>, k: Key, raw: bytes, j: nat)
    requires j < |run|
  {
    && Own(run[j], k) && OutcomeAt(s, run, j) == Complete(raw)
    && Seen(run, k, j) != Below(Pieces(|raw|)) && Seen(run, k, j + 1) == Below(Pieces(|raw|))
  }

  /** What each arrival under `k` yields, in terms of the pieces seen before and after it. */
  lemma OutcomeOfOwn(s: State, run: seq<Arrival>, k: Key, raw: bytes, n: nat)
    requires Delivery(s, run, k, raw) && n < |run|
    ensures Own(run[n], k) && Seen(run, k, n) == Below(Pieces(|raw|)) ==> OutcomeAt(s, run, n).Rejected?
    ensures Own(run[n], k) && Seen(run, k, n + 1) != Below(Pieces(|raw|)) ==> OutcomeAt(s, run, n) == Nothing
    ensures Seen(run, k, n) != Below(Pieces(|raw|)) && Seen(run, k, n + 1) == Below(Pieces(|raw|))
            ==> ReturnedAt(s, run, k, raw, n)
  {
    hide Stands, OutcomeAt, Delivery, Below;
    if n > 0 { RunStands(s, run, k, raw, n); }
    Advance(s, run, k, raw, n);
    SeenBelow(s, run, k, raw, n + 1);
    SeenBelow(s, run, k, raw, n);
    assert Seen(run, k, n) == Below(Pieces(|raw|)) ==> Seen(run, k, n + 1) == Below(Pieces(|raw|));
    assert !Own(run[n], k) ==> Seen(run, k, n + 1) == Seen(run, k, n);
  }

  lemma {:induction false} FirstFull(run: seq<Arrival>, k: Key, all: set<nat>, n: nat) returns (j: nat)
    requires n <= |run| && Seen(run, k, n) == all && all != {}
    ensures j < n && Seen(run, k, j) != all && Seen(run, k, j + 1) == all
    decreases n
  {
    if Seen(run, k, n - 1) == all { j := FirstFull(run, k, all, n - 1); } else { j := n - 1; }
  }

  lemma SeenGrows(s: State, run: seq<Arrival>, k: Key, raw: bytes, m: nat, n: nat)
    requires Delivery(s, run, k, raw) && m <= n <= |run|
    ensures Seen(run, k, m) <= Seen(run, k, n) <= Below(Pieces(|raw|))
    decreases n
  {
    hide Delivery;
    SeenBelow(s, run, k, raw, n);
    if m < n { SeenGrows(s, run, k, raw, m, n - 1); }
  }

  /**
   Completeness. If every piece arrives at least once in such a run - in any
   order, with any duplicates and any other traffic in between - then exactly
   one arrival under the key returns the frame, every earlier one returns
   nothing, and every later one is refused.
   */
  lemma Completeness(s: State, run: seq<Arrival>, k: Key, raw: bytes) returns (j: nat)
    requires Delivery(s, run, k, raw) && Seen(run, k, |run|) == Below(Pieces(|raw|))
    ensures j < |run| && Own(run[j], k) && OutcomeAt(s, run, j) == Complete(raw)
    ensures forall n :: 0 <= n < j && Own(run[n], k) ==> OutcomeAt(s, run, n) == Nothing
    ensures forall n :: j < n < |run| && Own(run[n], k) ==> OutcomeAt(s, run, n).Rejected?
  {
    assert run != [];
    hide Delivery, OutcomeAt, Below, Seen;
    SeenFirst(s, run, k, raw, |run|);
    j := FirstFull(run, k, Below(Pieces(|raw|)), |run|);
    OutcomeOfOwn(s, run, k, raw, j);
    forall n | 0 <= n < j && Own(run[n], k)
      ensures OutcomeAt(s, run, n) == Nothing
    {
      BeforeFull(s, run, k, raw, n, j);
    }
    forall n | j < n < |run| && Own(run[n], k)
      ensures OutcomeAt(s, run, n).Rejected?
    {
      AfterFull(s, run, k, raw, n, j);
    }
  }

  lemma BeforeFull(s: State, run: seq<Arrival>, k: Key, raw: bytes, n: nat, j: nat)
    requires Delivery(s, run, k, raw) && n < j < |run| && Own(run[n], k)
    requires Seen(run, k, j) != Below(Pieces(|raw|))
    ensures OutcomeAt(s, run, n) == Nothing
  {
    hide Delivery, OutcomeAt, Below, Seen;
    SeenGrows(s, run, k, raw, n + 1, j);
    OutcomeOfOwn(s, run, k, raw, n);
  }

  lemma AfterFull(s: State, run: seq<Arrival>, k: Key, raw: bytes, n: nat, j: nat)
    requires Delivery(s, run, k, raw) && j < n < |run| && Own(run[n], k)
    requires Seen(run, k, j + 1) == Below(Pieces(|raw|))
    ensures OutcomeAt(s, run, n).Rejected?
  {
    hide Delivery, OutcomeAt, Below, Seen;
    SeenGrows(s, run, k, raw, j + 1, n);
    OutcomeOfOwn(s, run, k, raw, n);
  }
}
