/** Collecting fragments that arrive in any order, with duplicates, late or damaged. */
module Reassembler {
  import opened Bytes
  import opened Wrappers
  import opened Application
  import opened OrderedDict
  import Rtcm

  const MAX_HELD: nat := 8
  const MAX_BLOCKED: nat := 64
  const TIMEOUT_MS: int := 600

  /** Times are milliseconds on the receiver's clock. */
  datatype Assembly = Assembly(started: int, meta: Meta, parts: map<nat, bytes>)

  datatype State = State(
    items: Dict<Key, Assembly>, blocked: Dict<Key, int>,
    timeouts: nat, conflicts: nat, evictions: nat, duplicates: nat)

  datatype Outcome = Nothing | Complete(raw: bytes) | Rejected(error: ApplicationError)

  const EMPTY: State := State(Dict([], map[]), Dict([], map[]), 0, 0, 0, 0)

  // ---- the operations on values ------------------------------------------------

  /** Oldest entries go once there are more than 64. */
  function Trim(b: Dict<Key, int>): Dict<Key, int>
    decreases |b.order|
  {
    if |b.order| > MAX_BLOCKED then Trim(Dict(b.order[1..], b.vals - {b.order[0]})) else b
  }

  function Block(s: State, key: Key, until: int): State {
    s.(blocked := Trim(s.blocked.SetLast(key, until)))
  }

  /** Stop collecting `key` and refuse it until a second after it started. */
  function Retire(s: State, key: Key): State
    requires key in s.items.vals
  {
    Block(s.(items := s.items.Del(key)), key, s.items.vals[key].started + TTL_MS)
  }

  /** One turn of the expiry loop. */
  function ExpireOne(s: State, k: Key, now: int): State {
    if k in s.items.vals && now - s.items.vals[k].started >= TIMEOUT_MS
    then Retire(s, k).(timeouts := s.timeouts + 1) else s
  }

  function ExpireItems(s: State, keys: seq<Key>, now: int): State
    decreases |keys|
  {
    if keys == [] then s else ExpireItems(ExpireOne(s, keys[0], now), keys[1..], now)
  }

  function ExpireBlocks(b: Dict<Key, int>, keys: seq<Key>, now: int): Dict<Key, int>
    decreases |keys|
  {
    if keys == [] then b
    else
      ExpireBlocks(if keys[0] in b.vals && now >= b.vals[keys[0]] then b.Del(keys[0]) else b, keys[1..], now)
  }

  function Expire(s: State, now: int): State {
    var t := ExpireItems(s, s.items.order, now);
    t.(blocked := ExpireBlocks(t.blocked, t.blocked.order, now))
  }

  /** The shape a fragment body must have. */
  predicate WellShaped(b: bytes) {
    && 6 <= |b|
    && 0 < Get16(b, 2) <= Rtcm.MAX_FRAME
    && b[5] as int == Pieces(Get16(b, 2)) && 1 <= b[5] as int <= MAX_PIECES
    && b[4] < b[5]
    && |b| - 6 == PieceLength(Get16(b, 2), b[4] as int)
  }

  function MetaIn(b: bytes): Meta
    requires 6 <= |b|
  {
    Meta(Get16(b, 0), Get16(b, 2), b[5] as int)
  }

  /** Room for one more: the oldest assembly goes when eight are held. */
  function MakeRoom(s: State): State {
    if |s.items.order| == MAX_HELD && s.items.order[0] in s.items.vals
    then Retire(s, s.items.order[0]).(evictions := s.evictions + 1) else s
  }

  function Open(s: State, key: Key, m: Meta, now: int): State {
    if key in s.items.vals then s
    else
      var t := MakeRoom(s);
      t.(items := t.items.Set(key, Assembly(now, m, map[])))
  }

  /** The part just stored was the last one missing. */
  function Finish(s: State, key: Key): (State, Outcome)
    requires key in s.items.vals
    requires forall i :: 0 <= i < s.items.vals[key].meta.count ==> i in s.items.vals[key].parts
  {
    var a := s.items.vals[key];
    var raw := Joined(a.parts, a.meta.count);
    (Retire(s, key),
     if |raw| == a.meta.total && Rtcm.Valid(raw) && Rtcm.MessageType(raw) == a.meta.rtcmType
     then Complete(raw) else Rejected(BadAssembly))
  }

  function Store(s: State, key: Key, m: Meta, i: nat, data: bytes): (State, Outcome)
    requires key in s.items.vals
  {
    var a := s.items.vals[key];
    if a.meta != m then (Retire(s, key).(conflicts := s.conflicts + 1), Rejected(MetadataConflict))
    else if i in a.parts then
      if a.parts[i] != data then (Retire(s, key).(conflicts := s.conflicts + 1), Rejected(DataConflict))
      else (s.(duplicates := s.duplicates + 1), Nothing)
    else
      var a' := a.(parts := a.parts[i := data]);
      var t := s.(items := s.items.Set(key, a'));
      if |a'.parts| < m.count then (t, Nothing)
      else if forall j :: 0 <= j < m.count ==> j in a'.parts then Finish(t, key)
      else (t, Nothing)  // unreachable: part indices stay below the count
  }

  /** A fragment that may be collected: recognised, fresh and well shaped. */
  predicate Collectable(f: Frame) { f.typ == RTCM_FRAGMENT && f.age < TTL_MS && WellShaped(f.body) }

  /** `add` once what is late has been expired. */
  function AddTo(s: State, f: Frame, now: int): (State, Outcome) {
    if f.typ != RTCM_FRAGMENT || |f.body| < 6 then (s, Rejected(ApplicationError.FragmentBody))
    else if f.age >= TTL_MS then (s, Rejected(StaleFragment))
    else if !WellShaped(f.body) then (s, Rejected(FragmentShape))
    else if KeyOf(f) in s.blocked.vals then (s, Rejected(KeyBlocked))
    else
      var m := MetaIn(f.body);
      Store(Open(s, KeyOf(f), m, now), KeyOf(f), m, f.body[4] as int, f.body[6..])
  }

  function Add(s: State, f: Frame, now: int): (State, Outcome) { AddTo(Expire(s, now), f, now) }

  // ---- the invariant --------------------------------------------------------------

  /** Every stored part has an index below the count and exactly the length that index calls for. */
  ghost predicate Sound(a: Assembly) {
    && 0 < a.meta.total <= Rtcm.MAX_FRAME && a.meta.count == Pieces(a.meta.total)
    && (forall i <- a.parts.Keys :: i < a.meta.count && |a.parts[i]| == PieceLength(a.meta.total, i))
  }

  ghost predicate Shaped(s: State) {
    && s.items.Valid() && s.blocked.Valid()
    && |s.items.order| <= MAX_HELD && |s.blocked.order| <= MAX_BLOCKED
    && s.items.vals.Keys !! s.blocked.vals.Keys
    && (forall k <- s.items.vals.Keys :: Sound(s.items.vals[k]))
  }

  /** Bounds, disjointness, sound assemblies, none of them complete: whatever arrives, at whatever times. */
  ghost predicate Inv(s: State) {
    Shaped(s) && forall k <- s.items.vals.Keys :: Unfinished(s.items.vals[k])
  }

  ghost predicate Unfinished(a: Assembly) { |a.parts| < a.meta.count }

  /** With a clock that does not go back, assemblies are also held in the order they were started. */
  ghost predicate InOrder(s: State, now: int) {
    && (forall i, j :: 0 <= i < j < |s.items.order| && s.items.order[i] in s.items.vals
          && s.items.order[j] in s.items.vals
          ==> s.items.vals[s.items.order[i]].started <= s.items.vals[s.items.order[j]].started)
    && (forall k <- s.items.vals.Keys :: s.items.vals[k].started <= now)
  }

  lemma TrimProps(b: Dict<Key, int>)
    requires b.Valid() && |b.order| <= MAX_BLOCKED + 1
    ensures Trim(b).Valid() && |Trim(b).order| <= MAX_BLOCKED
    ensures |b.order| <= MAX_BLOCKED ==> Trim(b) == b
    ensures |b.order| == MAX_BLOCKED + 1 ==> Trim(b) == b.Del(b.order[0]) && Trim(b).order == b.order[1..]
  {
    if |b.order| == MAX_BLOCKED + 1 {
      b.DelValid(b.order[0]);
      b.DelFirst();
    }
  }

  /** Retiring moves one key from the held to the refused, and changes no other assembly. */
  lemma RetireProps(s: State, key: Key)
    requires s.items.Valid() && s.blocked.Valid() && |s.blocked.order| <= MAX_BLOCKED
    requires s.items.vals.Keys !! s.blocked.vals.Keys && key in s.items.vals
    ensures var t := Retire(s, key);
      && t.items == s.items.Del(key) && t.items.Valid() && |t.items.order| == |s.items.order| - 1
      && t.blocked.Valid() && |t.blocked.order| <= MAX_BLOCKED
      && t.items.vals.Keys !! t.blocked.vals.Keys
      && t.blocked.vals.Keys <= s.blocked.vals.Keys + {key}
      && key in t.blocked.vals && t.blocked.vals[key] == s.items.vals[key].started + TTL_MS
  {
    s.items.DelValid(key);
    var b := s.blocked.SetLast(key, s.items.vals[key].started + TTL_MS);
    s.blocked.SetLastValid(key, s.items.vals[key].started + TTL_MS);
    TrimProps(b);
    if |b.order| == MAX_BLOCKED + 1 {
      assert b.order[|b.order| - 1] == key;
      assert b.order[0] != key;
    }
  }

  lemma RetireInv(s: State, key: Key)
    requires Shaped(s) && key in s.items.vals
    requires forall k <- s.items.vals.Keys :: k != key ==> Unfinished(s.items.vals[k])
    ensures Inv(Retire(s, key))
    ensures forall now :: InOrder(s, now) ==> InOrder(Retire(s, key), now)
  {
    hide Retire, Sound, InOrder, Unfinished;
    RetireProps(s, key);
    forall now | InOrder(s, now)
      ensures InOrder(Retire(s, key), now)
    {
      InOrderWithout(s, Retire(s, key), key, now);
    }
  }

  lemma {:induction false} WithoutOrdered(order: seq<Key>, key: Key, i: nat, j: nat)
    requires i < j < |Without(order, key)|
    ensures exists i', j' :: 0 <= i' < j' < |order|
              && order[i'] == Without(order, key)[i] && order[j'] == Without(order, key)[j]
    decreases |order|
  {
    var w := Without(order[1..], key);
    if order[0] == key {
      WithoutOrdered(order[1..], key, i, j);
      var i', j' :| 0 <= i' < j' < |order[1..]| && order[1..][i'] == w[i] && order[1..][j'] == w[j];
      assert order[i' + 1] == w[i] && order[j' + 1] == w[j];
    } else if i > 0 {
      WithoutOrdered(order[1..], key, i - 1, j - 1);
      var i', j' :| 0 <= i' < j' < |order[1..]| && order[1..][i'] == w[i - 1] && order[1..][j'] == w[j - 1];
      assert order[i' + 1] == w[i - 1] && order[j' + 1] == w[j - 1];
    } else {
      WithoutSubset(order[1..], key);
      assert w[j - 1] in order[1..];
      var j' :| 0 <= j' < |order[1..]| && order[1..][j'] == w[j - 1];
      assert order[j' + 1] == w[j - 1];
    }
  }

  lemma InOrderWithout(s: State, t: State, key: Key, now: int)
    requires InOrder(s, now) && s.items.Valid() && t.items == s.items.Del(key)
    ensures InOrder(t, now)
  {
    s.items.DelValid(key);
    forall i, j | 0 <= i < j < |t.items.order|
      ensures t.items.vals[t.items.order[i]].started <= t.items.vals[t.items.order[j]].started
    {
      WithoutOrdered(s.items.order, key, i, j);
    }
  }

  lemma RetireItems(s: State, key: Key)
    requires key in s.items.vals
    ensures Retire(s, key).items == s.items.Del(key)
    ensures Retire(s, key).blocked == Trim(s.blocked.SetLast(key, s.items.vals[key].started + TTL_MS))
  {}

  lemma ExpireOneProps(s: State, x: Key, now: int)
    requires Inv(s)
    ensures var t := ExpireOne(s, x, now);
      && Inv(t) && t.items.vals.Keys <= s.items.vals.Keys && (InOrder(s, now) ==> InOrder(t, now))
      && (t == s || (x in s.items.vals && t == Retire(s, x).(timeouts := s.timeouts + 1)
                     && t.items.vals.Keys == s.items.vals.Keys - {x}))
      && (x in t.items.vals ==> now - s.items.vals[x].started < TIMEOUT_MS)
      && (forall k <- t.items.vals.Keys :: t.items.vals[k] == s.items.vals[k])
      && (forall k <- s.items.vals.Keys :: now - s.items.vals[k].started < TIMEOUT_MS ==> k in t.items.vals)
  {
    hide Retire, Shaped, Unfinished, InOrder;
    if x in s.items.vals && now - s.items.vals[x].started >= TIMEOUT_MS {
      RetireInv(s, x);
      RetireItems(s, x);
      RetireOrder(s, x, now);
      CountersFree(Retire(s, x), ExpireOne(s, x, now), now);
    }
  }

  lemma RetireOrder(s: State, key: Key, now: int)
    requires Inv(s) && key in s.items.vals
    ensures InOrder(s, now) ==> InOrder(Retire(s, key), now)
  {
    hide Retire, InOrder, Unfinished;
    RetireItems(s, key);
    if InOrder(s, now) { InOrderWithout(s, Retire(s, key), key, now); }
  }

  lemma {:induction false} ExpireItemsInv(s: State, keys: seq<Key>, now: int)
    requires Inv(s)
    ensures var t := ExpireItems(s, keys, now);
      && Inv(t) && (InOrder(s, now) ==> InOrder(t, now))
      && (forall k <- t.items.vals.Keys :: k in s.items.vals && t.items.vals[k] == s.items.vals[k])
      && (forall k <- keys :: k in t.items.vals ==> now - s.items.vals[k].started < TIMEOUT_MS)
      && (forall k <- s.items.vals.Keys :: now - s.items.vals[k].started < TIMEOUT_MS ==> k in t.items.vals)
    decreases |keys|
  {
    hide ExpireOne, Inv, InOrder;
    if keys != [] {
      var k := keys[0];
      ExpireOneProps(s, k, now);
      ExpireItemsInv(ExpireOne(s, k, now), keys[1..], now);
      assert keys == [k] + keys[1..];
    }
  }

  /** The invariants do not look at the counters. */
  lemma CountersFree(s: State, t: State, now: int)
    requires t.items == s.items && t.blocked == s.blocked
    ensures Inv(t) <==> Inv(s)
    ensures InOrder(t, now) <==> InOrder(s, now)
  {}

  lemma {:induction false} ExpireBlocksProps(b: Dict<Key, int>, keys: seq<Key>, now: int)
    requires b.Valid()
    ensures var r := ExpireBlocks(b, keys, now);
      && r.Valid() && |r.order| <= |b.order| && r.vals.Keys <= b.vals.Keys
      && (forall k <- r.vals.Keys :: r.vals[k] == b.vals[k])
      && (forall k <- b.vals.Keys :: now < b.vals[k] ==> k in r.vals)
      && (forall k <- keys :: k in r.vals ==> now < b.vals[k])
    decreases |keys|
  {
    if keys != [] {
      var k := keys[0];
      var b' := if k in b.vals && now >= b.vals[k] then b.Del(k) else b;
      b.DelValid(k);
      ExpireBlocksProps(b', keys[1..], now);
      assert keys == [k] + keys[1..];
    }
  }

  /** After `expire`: only young assemblies are held and only current refusals are kept. */
  lemma ExpireProps(s: State, now: int)
    requires Inv(s)
    ensures var t := Expire(s, now);
      && Inv(t) && (InOrder(s, now) ==> InOrder(t, now))
      && (forall k <- t.items.vals.Keys :: k in s.items.vals && t.items.vals[k] == s.items.vals[k]
                                            && now - t.items.vals[k].started < TIMEOUT_MS)
      && (forall k <- s.items.vals.Keys :: now - s.items.vals[k].started < TIMEOUT_MS ==> k in t.items.vals)
      && (forall k <- t.blocked.vals.Keys :: now < t.blocked.vals[k])
  {
    hide ExpireItems, ExpireBlocks, Sound, InOrder;
    ExpireItemsInv(s, s.items.order, now);
    var u := ExpireItems(s, s.items.order, now);
    ExpireBlocksProps(u.blocked, u.blocked.order, now);
    BlocksFree(u, Expire(s, now), now);
  }

  lemma BlocksFree(s: State, t: State, now: int)
    requires t.items == s.items
    ensures InOrder(t, now) <==> InOrder(s, now)
  {}

  lemma MakeRoomProps(s: State, now: int)
    requires Inv(s)
    ensures var t := MakeRoom(s);
      && Inv(t) && (InOrder(s, now) ==> InOrder(t, now)) && |t.items.order| < MAX_HELD
      && t.items.vals.Keys <= s.items.vals.Keys
      && (forall k <- t.items.vals.Keys :: t.items.vals[k] == s.items.vals[k])
      && t.blocked.vals.Keys <= s.blocked.vals.Keys + s.items.vals.Keys
  {
    hide Retire, Sound, InOrder, Unfinished;
    if |s.items.order| == MAX_HELD {
      var k := s.items.order[0];
      RetireInv(s, k);
      RetireProps(s, k);
      CountersFree(Retire(s, k), MakeRoom(s), now);
    }
  }

  lemma InsertInv(s: State, key: Key, a: Assembly, now: int)
    requires Inv(s) && |s.items.order| < MAX_HELD && key !in s.items.vals && key !in s.blocked.vals
    requires Sound(a) && Unfinished(a) && a.started == now
    ensures var t := s.(items := s.items.Set(key, a));
      Inv(t) && (InOrder(s, now) ==> InOrder(t, now))
  {
    hide Sound, InOrder, Unfinished;
    s.items.SetValid(key, a);
    var t := s.(items := s.items.Set(key, a));
    if InOrder(s, now) { InOrderAppend(s, t, key, a, now); }
  }

  lemma OpenInv(s: State, key: Key, m: Meta, now: int)
    requires Inv(s) && key !in s.blocked.vals
    requires 0 < m.total <= Rtcm.MAX_FRAME && m.count == Pieces(m.total)
    ensures var t := Open(s, key, m, now);
      && Inv(t) && key in t.items.vals
      && (InOrder(s, now) ==> InOrder(t, now))
      && (key in s.items.vals ==> t == s)
      && (key !in s.items.vals ==> t.items.vals[key] == Assembly(now, m, map[]))
      && (forall k <- t.items.vals.Keys :: k != key ==> k in s.items.vals && t.items.vals[k] == s.items.vals[k])
  {
    hide MakeRoom, Sound, InOrder, Shaped, Unfinished;
    if key !in s.items.vals {
      PiecesCover(m.total);
      MakeRoomProps(s, now);
      SoundEmpty(Assembly(now, m, map[]));
      InsertInv(MakeRoom(s), key, Assembly(now, m, map[]), now);
    }
  }

  lemma SoundEmpty(a: Assembly)
    requires 0 < a.meta.total <= Rtcm.MAX_FRAME && a.meta.count == Pieces(a.meta.total) && a.parts == map[]
    ensures Sound(a) && Unfinished(a)
  {
    PiecesCover(a.meta.total);
  }

  lemma InOrderAppend(s: State, t: State, key: Key, a: Assembly, now: int)
    requires InOrder(s, now) && s.items.Valid() && key !in s.items.vals && a.started == now
    requires t.items == s.items.Set(key, a)
    ensures InOrder(t, now)
  {}

  lemma InOrderReplace(s: State, t: State, key: Key, a: Assembly, now: int)
    requires InOrder(s, now) && s.items.Valid() && key in s.items.vals && a.started == s.items.vals[key].started
    requires t.items == s.items.Set(key, a)
    ensures InOrder(t, now)
  {}

  function Below(n: nat): (r: set<nat>)
    ensures forall i :: i in r <==> 0 <= i < n
    ensures |r| == n
  {
    if n == 0 then {} else Below(n - 1) + {n - 1}
  }

  /** A full set of indices below the count is all of them. */
  lemma FullParts(parts: map<nat, bytes>, n: nat)
    requires forall i <- parts.Keys :: i < n
    ensures |parts| <= n
    ensures |parts| == n ==> forall i :: 0 <= i < n ==> i in parts
  {
    SubsetSize(parts.Keys, Below(n));
    assert |parts| == |parts.Keys|;
  }

  lemma {:induction false} SubsetSize<T>(a: set<T>, b: set<T>)
    requires a <= b
    ensures |a| <= |b|
    ensures |a| == |b| ==> a == b
    decreases |a|
  {
    if a != {} {
      var x :| x in a;
      SubsetSize(a - {x}, b - {x});
      assert a == (a - {x}) + {x} && b == (b - {x}) + {x};
    }
  }

  /** Storing keeps the invariant; a completed assembly always has the announced length. */
  lemma StoreInv(s: State, key: Key, m: Meta, i: nat, data: bytes, now: int)
    requires Inv(s) && key in s.items.vals
    requires i < m.count && |data| == PieceLength(m.total, i)
    ensures var (t, out) := Store(s, key, m, i, data);
      && Inv(t) && (InOrder(s, now) ==> InOrder(t, now))
      && (forall k <- t.items.vals.Keys :: k != key ==> k in s.items.vals && t.items.vals[k] == s.items.vals[k])
      && (key in t.items.vals ==> t.items.vals[key].started == s.items.vals[key].started)
  {
    hide Retire, InOrder;
    var a := s.items.vals[key];
    RetireInv(s, key);
    RetireProps(s, key);
    if a.meta == m && i !in a.parts {
      var a' := a.(parts := a.parts[i := data]);
      var t := s.(items := s.items.Set(key, a'));
      FullParts(a'.parts, m.count);
      s.items.SetValid(key, a');
      StoredProps(s, t, key, a', now);
    } else if a.meta == m && a.parts[i] == data {
      CountersFree(s, Store(s, key, m, i, data).0, now);
    } else {
      CountersFree(Retire(s, key), Store(s, key, m, i, data).0, now);
    }
  }

  lemma StoredProps(s: State, t: State, key: Key, a': Assembly, now: int)
    requires Inv(s) && key in s.items.vals && t == s.(items := s.items.Set(key, a'))
    requires Sound(a') && a'.started == s.items.vals[key].started
    ensures Unfinished(a') ==> Inv(t)
    ensures Inv(Retire(t, key)) && Retire(t, key).items == s.items.Del(key)
    ensures InOrder(s, now) ==> InOrder(t, now) && InOrder(Retire(t, key), now)
  {
    hide Retire, InOrder, Sound, Unfinished;
    s.items.SetValid(key, a');
    s.items.DelValid(key);
    RetireProps(t, key);
    RetireInv(t, key);
    SetThenDel(s.items, key, a');
    if InOrder(s, now) { InOrderReplace(s, t, key, a', now); }
  }

  lemma SetThenDel(d: Dict<Key, Assembly>, key: Key, a: Assembly)
    requires d.Valid() && key in d.vals
    ensures d.Set(key, a).Del(key) == d.Del(key)
  {
    assert d.vals[key := a] - {key} == d.vals - {key};
  }

  /** Whatever arrives, at whatever time, the invariant holds after it. */
  lemma AddInv(s: State, f: Frame, now: int)
    requires Inv(s)
    ensures var (t, out) := Add(s, f, now);
      Inv(t) && (InOrder(s, now) ==> InOrder(t, now))
  {
    hide Expire, Open, Store, InOrder;
    ExpireProps(s, now);
    var t := Expire(s, now);
    if |f.body| >= 6 && WellShaped(f.body) && KeyOf(f) !in t.blocked.vals {
      var m := MetaIn(f.body);
      OpenInv(t, KeyOf(f), m, now);
      StoreInv(Open(t, KeyOf(f), m, now), KeyOf(f), m, f.body[4] as int, f.body[6..], now);
    }
  }

  // ---- the object ------------------------------------------------------------------

  class FragmentReassembler {
    var items: Dict<Key, Assembly>
    var blockedUntil: Dict<Key, int>
    var timeoutCount: nat
    var conflictCount: nat
    var evictionCount: nat
    var duplicateCount: nat

    constructor ()
      ensures Now() == EMPTY && Inv(Now())
    {
      items, blockedUntil := Dict([], map[]), Dict([], map[]);
      timeoutCount, conflictCount, evictionCount, duplicateCount := 0, 0, 0, 0;
    }

    function Now(): State
      reads this
    {
      State(items, blockedUntil, timeoutCount, conflictCount, evictionCount, duplicateCount)
    }

    /** `_block` with its trimming loop. */
    method BlockKey(key: Key, until: int)
      modifies this`blockedUntil
      ensures Now() == Block(old(Now()), key, until)
    {
      blockedUntil := blockedUntil.SetLast(key, until);
      while |blockedUntil.order| > MAX_BLOCKED
        invariant Trim(blockedUntil) == Trim(old(blockedUntil).SetLast(key, until))
        decreases |blockedUntil.order|
      {
        blockedUntil := Dict(blockedUntil.order[1..], blockedUntil.vals - {blockedUntil.order[0]});
      }
    }

    /** Drop an assembly and refuse its key until a second after it started. */
    method RetireKey(key: Key)
      requires key in items.vals
      modifies this`items, this`blockedUntil
      ensures Now() == Retire(old(Now()), key)
    {
      var started := items.vals[key].started;
      items := items.Del(key);
      BlockKey(key, started + TTL_MS);
    }

    method ExpireAssemblies(now: int) returns (expired: nat)
      modifies this
      ensures Now() == ExpireItems(old(Now()), old(items).order, now)
      ensures timeoutCount == old(timeoutCount) + expired
    {
      hide Retire;
      expired := 0;
      var keys, i := items.order, 0;
      assert keys[0..] == keys;
      while i < |keys|
        invariant i <= |keys|
        invariant ExpireItems(Now(), keys[i..], now) == ExpireItems(old(Now()), keys, now)
        invariant timeoutCount == old(timeoutCount) + expired
      {
        assert keys[i..][1..] == keys[i + 1..];
        var key := keys[i];
        if key in items.vals && now - items.vals[key].started >= TIMEOUT_MS {
          RetireKey(key);
          timeoutCount := timeoutCount + 1;
          expired := expired + 1;
        }
        i := i + 1;
      }
    }

    method ExpireAt(now: int) returns (expired: nat)
      modifies this
      ensures Now() == Expire(old(Now()), now)
      ensures timeoutCount == old(timeoutCount) + expired
    {
      hide ExpireItems;
      expired := ExpireAssemblies(now);
      var keys, i := blockedUntil.order, 0;
      assert keys[0..] == keys;
      ghost var mid := Now();
      while i < |keys|
        invariant i <= |keys|
        invariant ExpireBlocks(blockedUntil, keys[i..], now) == ExpireBlocks(mid.blocked, keys, now)
        invariant Now() == mid.(blocked := blockedUntil)
      {
        assert keys[i..][1..] == keys[i + 1..];
        if keys[i] in blockedUntil.vals && now >= blockedUntil.vals[keys[i]] {
          blockedUntil := blockedUntil.Del(keys[i]);
        }
        i := i + 1;
      }
    }

    /** Check the metadata, ignore a duplicate, refuse a conflict, or store and perhaps finish. */
    method StorePart(key: Key, m: Meta, index: nat, data: bytes) returns (r: Outcome)
      requires Inv(Now()) && key in items.vals && index < m.count
      modifies this
      ensures (Now(), r) == Store(old(Now()), key, m, index, data)
    {
      hide Shaped, Retire, Rtcm.Valid, Rtcm.MessageType, Joined;
      var assembly := items.vals[key];
      if assembly.meta != m {
        RetireKey(key);
        conflictCount := conflictCount + 1;
        return Rejected(MetadataConflict);
      }
      if index in assembly.parts {
        if assembly.parts[index] != data {
          RetireKey(key);
          conflictCount := conflictCount + 1;
          return Rejected(DataConflict);
        }
        duplicateCount := duplicateCount + 1;
        return Nothing;
      }
      assembly := assembly.(parts := assembly.parts[index := data]);
      PartsFull(Now(), key, assembly, index, data);
      items := items.Set(key, assembly);
      if |assembly.parts| < m.count {
        return Nothing;
      }
      var raw := JoinParts(assembly.parts, m.count);
      RetireKey(key);
      if Rtcm.Valid(raw) { ValidSize(raw); }
      if |raw| != m.total || !Rtcm.Valid(raw) || Rtcm.MessageType(raw) != m.rtcmType {
        return Rejected(BadAssembly);
      }
      return Complete(raw);
    }

    method AddFrame(f: Frame, now: int) returns (r: Outcome)
      requires Inv(Now())
      modifies this
      ensures (Now(), r) == Add(old(Now()), f, now) && Inv(Now())
    {
      hide Inv, Retire, Expire, Store;
      AddInv(Now(), f, now);
      ExpireProps(Now(), now);
      var _ := ExpireAt(now);
      if f.typ != RTCM_FRAGMENT || |f.body| < 6 {
        return Rejected(ApplicationError.FragmentBody);
      }
      if f.age >= TTL_MS {
        return Rejected(StaleFragment);
      }
      if !WellShaped(f.body) {
        return Rejected(FragmentShape);
      }
      var m, index, data := MetaIn(f.body), f.body[4] as int, f.body[6..];
      var key := KeyOf(f);
      if key in blockedUntil.vals {
        return Rejected(KeyBlocked);
      }
      OpenInv(Now(), key, m, now);
      if key !in items.vals {
        ItemsListed(Now());
        if |items.order| == MAX_HELD {
          RetireKey(items.order[0]);
          evictionCount := evictionCount + 1;
        }
        items := items.Set(key, Assembly(now, m, map[]));
      }
      r := StorePart(key, m, index, data);
    }
  }

  method JoinParts(parts: map<nat, bytes>, n: nat) returns (raw: bytes)
    requires forall j :: 0 <= j < n ==> j in parts
    ensures raw == Joined(parts, n)
  {
    raw := [];
    for i := 0 to n
      invariant raw == Joined(parts, i)
    {
      raw := raw + parts[i];
    }
  }

  lemma ItemsListed(s: State)
    requires Inv(s)
    ensures forall k <- s.items.order :: k in s.items.vals
  {}

  lemma PartsFull(s: State, key: Key, a: Assembly, i: nat, data: bytes)
    requires Inv(s) && key in s.items.vals && a.meta == s.items.vals[key].meta
    requires i < a.meta.count && a.parts == s.items.vals[key].parts[i := data]
    ensures |a.parts| <= a.meta.count
    ensures |a.parts| == a.meta.count ==> forall j :: 0 <= j < a.meta.count ==> j in a.parts
  {
    FullParts(a.parts, a.meta.count);
  }
}
