/** What the reassembler promises over whole runs: integrity, refusal and completeness. */
module ReassemblyProperties {
  import opened Bytes
  import opened Wrappers
  import opened Application
  import opened OrderedDict
  import opened Reassembler
  import Rtcm

  // ---- completion ------------------------------------------------------------

  /** The length test after joining cannot fail: only the check value or the message type can. */
  lemma CompletionLength(a: Assembly)
    requires Sound(a) && a.parts.Keys == Below(a.meta.count)
    ensures |Joined(a.parts, a.meta.count)| == a.meta.total
  {
    JoinedLength(a.parts, a.meta.total, a.meta.count);
  }

  lemma StoreCompletes(s: State, key: Key, m: Meta, i: nat, data: bytes)
    requires key in s.items.vals && Store(s, key, m, i, data).1.Complete?
    ensures var raw := Store(s, key, m, i, data).1.raw;
      Rtcm.Valid(raw) && |raw| == m.total && Rtcm.MessageType(raw) == m.rtcmType
    ensures |s.items.vals[key].parts| + 1 >= m.count
  {
    hide Retire, Rtcm.Valid, Rtcm.MessageType;
  }

  /**
   Only a valid frame of the announced length and type is ever completed, from
   fresh fragments, less than 600 ms after its first one: the key is then blocked
   until a second after that start, which is this arrival's time if it is the only
   piece.
   */
  lemma CompletionInTime(s: State, f: Frame, now: int)
    requires Inv(s) && Add(s, f, now).1.Complete?
    ensures Timely(s, f, now, Add(s, f, now).0, Add(s, f, now).1.raw)
  {
    hide Expire, Open, Store, Rtcm.Valid, Rtcm.MessageType, Shaped, Unfinished, InOrder;
    ExpireProps(s, now);
    var t := Expire(s, now);
    var m := MetaIn(f.body);
    OpenInv(t, KeyOf(f), m, now);
    var u := Open(t, KeyOf(f), m, now);
    StoreCompletes(u, KeyOf(f), m, f.body[4] as int, f.body[6..]);
    StoreShape(u, KeyOf(f), m, f.body[4] as int, f.body[6..]);
    RetireBlocks(u, KeyOf(f));
  }

  /** `raw` is the valid frame announced, completed within 600 ms of a start from which its key is blocked. */
  ghost predicate Timely(s: State, f: Frame, now: int, t: State, raw: bytes) {
    && Collectable(f) && Rtcm.Valid(raw) && |raw| == Get16(f.body, 2) && Rtcm.MessageType(raw) == Get16(f.body, 0)
    && KeyOf(f) in t.blocked.vals
    && var start := t.blocked.vals[KeyOf(f)] - TTL_MS;
    && now - start < TIMEOUT_MS && start == StartOf(Expire(s, now), f, now, KeyOf(f))
  }

  /** When the assembly of `k` held in `t`, or just opened, was started. */
  function StartOf(t: State, f: Frame, now: int, k: Key): int {
    if k in t.items.vals then t.items.vals[k].started else now
  }

  lemma RetireBlocks(s: State, key: Key)
    requires Inv(s) && key in s.items.vals
    ensures var t := Retire(s, key); key in t.blocked.vals && t.blocked.vals[key] == s.items.vals[key].started + TTL_MS
  {
    RetireProps(s, key);
  }

  // ---- integrity ------------------------------------------------------------------

  /** The assembly holds pieces of `raw` and nothing else. */
  ghost predicate Holds(a: Assembly, raw: bytes) {
    && Rtcm.Valid(raw) && |raw| <= Rtcm.MAX_FRAME && a.meta == MetaOf(raw)
    && (forall i <- a.parts.Keys :: i < Pieces(|raw|) && a.parts[i] == Piece(raw, i))
  }

  /** Every assembly collects pieces of the one frame its key was assigned to. */
  ghost predicate Faithful(s: State, sent: map<Key, bytes>) {
    forall k <- s.items.vals.Keys :: k in sent && Holds(s.items.vals[k], sent[k])
  }

  /** `f` is a fragment of the frame assigned to its key, whatever its age. */
  ghost predicate Genuine(f: Frame, sent: map<Key, bytes>) {
    && KeyOf(f) in sent && Rtcm.Valid(sent[KeyOf(f)]) && |sent[KeyOf(f)]| <= Rtcm.MAX_FRAME
    && exists i :: 0 <= i < Pieces(|sent[KeyOf(f)]|) && f == FragmentAt(sent[KeyOf(f)], KeyOf(f), f.age, i)
  }

  /** What storing piece `i` of `raw` does when the assembly holds pieces of `raw`. */
  lemma StorePiece(s: State, key: Key, raw: bytes, i: nat)
    requires Inv(s) && key in s.items.vals && Holds(s.items.vals[key], raw) && i < Pieces(|raw|)
    ensures var a := s.items.vals[key];
      var (t, out) := Store(s, key, MetaOf(raw), i, Piece(raw, i));
      if i in a.parts then t == s.(duplicates := s.duplicates + 1) && out == Nothing
      else
        var a' := a.(parts := a.parts[i := Piece(raw, i)]);
        var u := s.(items := s.items.Set(key, a'));
        && Holds(a', raw)
        && (a'.parts.Keys == Below(Pieces(|raw|)) ==> t == Retire(u, key) && out == Complete(raw))
        && (a'.parts.Keys != Below(Pieces(|raw|)) ==> t == u && out == Nothing)
  {
    hide Retire, Rtcm.Valid, Piece, Rtcm.MessageType, Shaped;
    var a := s.items.vals[key];
    if i !in a.parts {
      var a' := a.(parts := a.parts[i := Piece(raw, i)]);
      AllPieces(a', raw);
    }
  }

  /** The pieces are all there exactly when there are as many as the count, and then they join to the frame. */
  lemma AllPieces(a: Assembly, raw: bytes)
    requires Holds(a, raw)
    ensures |a.parts| <= a.meta.count == Pieces(|raw|)
    ensures |a.parts| == a.meta.count <==> a.parts.Keys == Below(Pieces(|raw|))
    ensures |a.parts| == a.meta.count ==>
      && (forall j :: 0 <= j < a.meta.count ==> j in a.parts)
      && Joined(a.parts, a.meta.count) == raw
  {
    hide Rtcm.Valid, Piece, Rtcm.MessageType;
    var n := Pieces(|raw|);
    FullParts(a.parts, n);
    assert a.parts.Keys <= Below(n);
    SubsetSize(a.parts.Keys, Below(n));
    assert |a.parts| == |a.parts.Keys|;
    if |a.parts| == n {
      ValidSize(raw);
      JoinedPieces(a.parts, raw, n);
      assert raw[..|raw|] == raw;
    }
  }

  /** With genuine fragments only, in any order and however often, nothing but the assigned frame comes out. */
  lemma AddFaithful(s: State, f: Frame, now: int, sent: map<Key, bytes>)
    requires Inv(s) && Faithful(s, sent) && Genuine(f, sent)
    ensures var (t, out) := Add(s, f, now);
      && Inv(t) && Faithful(t, sent)
      && out in {Nothing, Complete(sent[KeyOf(f)]), Rejected(StaleFragment), Rejected(KeyBlocked)}
  {
    hide Expire, Open, Store, Rtcm.Valid, Inv, Holds;
    var key := KeyOf(f);
    var raw := sent[key];
    var i :| 0 <= i < Pieces(|raw|) && f == FragmentAt(raw, key, f.age, i);
    FragmentReads(raw, key, f.age, i);
    FragmentShaped(raw, key, f.age, i);
    AddInv(s, f, now);
    ExpireProps(s, now);
    var t := Expire(s, now);
    if f.age < TTL_MS && key !in t.blocked.vals {
      var m := MetaOf(raw);
      OpenInv(t, key, m, now);
      var u := Open(t, key, m, now);
      HoldsNothing(Assembly(now, m, map[]), raw);
      StorePiece(u, key, raw, i);
      StoreElsewhere(u, key, raw, i);
    }
  }

  lemma HoldsNothing(a: Assembly, raw: bytes)
    requires Rtcm.Valid(raw) && |raw| <= Rtcm.MAX_FRAME && a.meta == MetaOf(raw) && a.parts == map[]
    ensures Holds(a, raw)
  {}

  lemma StoreElsewhere(s: State, key: Key, raw: bytes, i: nat)
    requires Inv(s) && key in s.items.vals && Holds(s.items.vals[key], raw) && i < Pieces(|raw|)
    ensures var t := Store(s, key, MetaOf(raw), i, Piece(raw, i)).0;
      && (forall k <- t.items.vals.Keys :: k != key ==> k in s.items.vals && t.items.vals[k] == s.items.vals[k])
      && (key in t.items.vals ==> Holds(t.items.vals[key], raw))
  {
    hide Retire, Rtcm.Valid, Shaped, Holds;
    HoldsValid(s.items.vals[key], raw);
    StorePiece(s, key, raw, i);
    StorePieceMeta(raw, i);
    StoreInv(s, key, MetaOf(raw), i, Piece(raw, i), 0);
    var a := s.items.vals[key];
    if i !in a.parts {
      var u := s.(items := s.items.Set(key, a.(parts := a.parts[i := Piece(raw, i)])));
      assert Retire(u, key).items == u.items.Del(key) by { RetireItems(u, key); }
    }
  }

  lemma HoldsValid(a: Assembly, raw: bytes)
    requires Holds(a, raw)
    ensures Rtcm.Valid(raw) && |raw| <= Rtcm.MAX_FRAME
  {}

  lemma StorePieceMeta(raw: bytes, i: nat)
    requires Rtcm.Valid(raw) && |raw| <= Rtcm.MAX_FRAME && i < Pieces(|raw|)
    ensures MetaOf(raw).count == Pieces(|raw|) && |Piece(raw, i)| == PieceLength(MetaOf(raw).total, i)
  {}

  lemma FragmentShaped(raw: bytes, key: Key, age: u16, i: nat)
    requires Rtcm.Valid(raw) && |raw| <= Rtcm.MAX_FRAME && i < Pieces(|raw|)
    ensures var b := FragmentAt(raw, key, age, i).body;
      && WellShaped(b) && MetaIn(b) == MetaOf(raw)
      && b[4] as int == i && b[6..] == Piece(raw, i)
  {
    hide Rtcm.Valid;
    ValidSize(raw);
    PiecesCover(|raw|);
    FragmentReads(raw, key, age, i);
  }

  // ---- what other keys cannot disturb ----------------------------------------------

  /** The fragment starts collecting a new key. */
  predicate Admits(s: State, f: Frame) { Collectable(f) && KeyOf(f) !in s.blocked.vals && KeyOf(f) !in s.items.vals }

  predicate Opens(s: State, f: Frame, now: int) { Admits(Expire(s, now), f) }

  /** `k` collects into `a`, and only members of `young` were started after it. */
  ghost predicate Held(s: State, k: Key, a: Assembly, young: set<Key>) {
    && k in s.items.vals && s.items.vals[k] == a && k !in young
    && forall y <- After(s.items.order, k) :: y in young
  }

  /** `k` is refused until `until`; only members of `later` were refused after it. */
  ghost predicate Refused(s: State, k: Key, until: int, later: set<Key>) {
    && k in s.blocked.vals && s.blocked.vals[k] == until
    && (forall y <- After(s.blocked.order, k) :: y in later)
  }

  lemma RefusedWider(s: State, k: Key, until: int, later: set<Key>, more: set<Key>)
    requires Refused(s, k, until, later) && later <= more
    ensures Refused(s, k, until, more)
  {}

  lemma RetireHeld(s: State, x: Key, k: Key, a: Assembly, young: set<Key>)
    requires Inv(s) && x in s.items.vals && x != k && Held(s, k, a, young)
    ensures Held(Retire(s, x), k, a, young)
  {
    hide Shaped;
    assert k in s.items.order && x in s.items.order by { Orders(s); }
    AfterWithout(s.items.order, k, x);
    RetireItems(s, x);
  }

  lemma Orders(s: State)
    requires Inv(s)
    ensures forall k <- s.items.vals.Keys :: k in s.items.order
    ensures forall k <- s.blocked.vals.Keys :: k in s.blocked.order
    ensures forall k <- s.items.order :: k in s.items.vals
    ensures Distinct(s.items.order) && Distinct(s.blocked.order)
  {}

  /** Trimming to 64 cannot reach a key with fewer than 64 after it. */
  lemma TrimKeeps(b: Dict<Key, int>, k: Key, later: set<Key>)
    requires b.Valid() && |b.order| <= MAX_BLOCKED + 1 && k in b.vals && |later| < MAX_BLOCKED
    requires forall y <- After(b.order, k) :: y in later
    ensures k in Trim(b).vals && Trim(b).vals[k] == b.vals[k]
    ensures forall y <- After(Trim(b).order, k) :: y in later
  {
    hide Trim;
    TrimProps(b);
    if |b.order| == MAX_BLOCKED + 1 {
      AfterSuffix(b.order, k);
      if b.order[0] == k {
        DistinctBounded(After(b.order, k), later);
      }
    }
  }

  lemma SetLastAfter(b: Dict<Key, int>, x: Key, v: int, k: Key)
    requires b.Valid() && x !in b.vals && k in b.vals
    ensures b.SetLast(x, v).Valid() && |b.SetLast(x, v).order| == |b.order| + 1
    ensures k in b.SetLast(x, v).vals && b.SetLast(x, v).vals[k] == b.vals[k]
    ensures After(b.SetLast(x, v).order, k) == After(b.order, k) + [x]
  {
    b.SetLastValid(x, v);
    WithoutAbsent(b.order, x);
    AfterAppend(b.order, k, x);
  }

  /** Retiring one more key is one more refused after `k`. */
  lemma RetireRefused(s: State, x: Key, k: Key, until: int, later: set<Key>)
    requires Inv(s) && x in s.items.vals && Refused(s, k, until, later) && |later + {x}| < MAX_BLOCKED
    ensures Refused(Retire(s, x), k, until, later + {x})
  {
    hide Inv, Trim, After, Retire, Dict.SetLast;
    Disjoint(s, x);
    BlockedSize(s, x);
    var v := s.items.vals[x].started + TTL_MS;
    SetLastAfter(s.blocked, x, v, k);
    assert forall y <- After(s.blocked.order, k) + [x] :: y in (later + {x});
    TrimKeeps(s.blocked.SetLast(x, v), k, later + {x});
    RetireItems(s, x);
  }

  /** The key retired is the newest refused. */
  lemma RetiredIsRefused(s: State, k: Key)
    requires Inv(s) && k in s.items.vals
    ensures Refused(Retire(s, k), k, s.items.vals[k].started + TTL_MS, {})
  {
    hide Trim, Inv, Dict.SetLast;
    Disjoint(s, k);
    BlockedSize(s, k);
    var v := s.items.vals[k].started + TTL_MS;
    FreshLast(s.blocked, k, v);
    TrimKeeps(s.blocked.SetLast(k, v), k, {});
    RetireItems(s, k);
  }

  lemma FreshLast(b: Dict<Key, int>, k: Key, v: int)
    requires b.Valid() && k !in b.vals
    ensures b.SetLast(k, v).Valid() && |b.SetLast(k, v).order| == |b.order| + 1
    ensures k in b.SetLast(k, v).vals && b.SetLast(k, v).vals[k] == v
    ensures |After(b.SetLast(k, v).order, k)| == 0
  {
    b.SetLastValid(k, v);
    WithoutAbsent(b.order, k);
    AfterNew(b.order, k);
  }

  lemma Disjoint(s: State, x: Key)
    requires Inv(s) && x in s.items.vals
    ensures x !in s.blocked.vals && x !in s.blocked.order
  {}

  lemma BlockedSize(s: State, x: Key)
    requires Inv(s) && x in s.items.vals
    ensures s.blocked.Valid() && |s.blocked.order| <= MAX_BLOCKED
  {}

  // ---- expiry ----------------------------------------------------------------------

  lemma {:induction false} ExpireItemsKeeps(s: State, keys: seq<Key>, now: int, k: Key)
    requires Inv(s)
    ensures forall a, young :: Held(s, k, a, young) && now - a.started < TIMEOUT_MS
              ==> Held(ExpireItems(s, keys, now), k, a, young)
    decreases |keys|
  {
    hide Retire, Shaped, Unfinished;
    if keys != [] {
      var x := keys[0];
      var s' := ExpireOne(s, x, now);
      ExpireOneProps(s, x, now);
      if s' != s {
        forall a, young | Held(s, k, a, young) && now - a.started < TIMEOUT_MS
          ensures Held(s', k, a, young)
        {
          RetireHeld(s, x, k, a, young);
        }
      }
      ExpireItemsKeeps(s', keys[1..], now, k);
    }
  }

  /** Keys held in `s` and no longer in `t`. */
  function Left(s: State, t: State): set<Key> { s.items.vals.Keys - t.items.vals.Keys }

  lemma {:induction false} ExpireItemsShrinks(s: State, keys: seq<Key>, now: int)
    requires Inv(s)
    ensures ExpireItems(s, keys, now).items.vals.Keys <= s.items.vals.Keys
    decreases |keys|
  {
    hide Retire, Shaped, Unfinished;
    if keys != [] {
      ExpireOneProps(s, keys[0], now);
      ExpireItemsShrinks(ExpireOne(s, keys[0], now), keys[1..], now);
    }
  }

  /** What one turn leaves behind and what the rest leaves behind is what all leave behind. */
  lemma LeftTwice(s: State, t: State, u: State)
    requires u.items.vals.Keys <= t.items.vals.Keys <= s.items.vals.Keys
    ensures Left(s, t) + Left(t, u) == Left(s, u) && Left(s, t) <= Left(s, u) && Left(t, u) <= Left(s, u)
  {}

  lemma Within(a: set<Key>, b: set<Key>, c: set<Key>)
    requires a <= b
    ensures c + a <= c + b && |c + a| <= |c + b|
  {
    SubsetSize(c + a, c + b);
  }

  lemma {:induction false} ExpireItemsRefused(s: State, keys: seq<Key>, now: int, k: Key, until: int, later: set<Key>)
    requires Inv(s) && Refused(s, k, until, later)
    requires |later + Left(s, ExpireItems(s, keys, now))| < MAX_BLOCKED
    ensures Refused(ExpireItems(s, keys, now), k, until, later + Left(s, ExpireItems(s, keys, now)))
    decreases |keys|
  {
    hide Retire, Shaped, Unfinished, Refused, Left, Inv;
    var r := ExpireItems(s, keys, now);
    if keys == [] {
      RefusedWider(s, k, until, later, later + Left(s, r));
    } else {
      var x := keys[0];
      var t := ExpireOne(s, x, now);
      ExpireOneProps(s, x, now);
      ExpireItemsShrinks(t, keys[1..], now);
      LeftTwice(s, t, r);
      Within(Left(s, t), Left(s, r), later);
      assert (later + Left(s, t)) + Left(t, r) == later + Left(s, r);
      if t == s {
        RefusedWider(s, k, until, later, later + Left(s, t));
      } else {
        LeftOne(s, t, x);
        RetireRefused(s, x, k, until, later);
        SameRefused(Retire(s, x), t, k, until, later + {x});
      }
      ExpireItemsRefused(t, keys[1..], now, k, until, later + Left(s, t));
    }
  }

  lemma LeftOne(s: State, t: State, x: Key)
    requires x in s.items.vals && t.items.vals.Keys == s.items.vals.Keys - {x}
    ensures Left(s, t) == {x}
  {}

  lemma SameRefused(s: State, t: State, k: Key, until: int, later: set<Key>)
    requires t.blocked == s.blocked
    ensures Refused(t, k, until, later) <==> Refused(s, k, until, later)
  {}

  /** A key that expires is refused from then on. */
  lemma {:induction false} ExpireItemsBars(s: State, keys: seq<Key>, now: int, k: Key)
    requires Inv(s) && k in Left(s, ExpireItems(s, keys, now))
    ensures Refused(ExpireItems(s, keys, now), k, s.items.vals[k].started + TTL_MS, Left(s, ExpireItems(s, keys, now)))
    decreases |keys|
  {
    hide Retire, Shaped, Unfinished, Refused, Inv;
    var r := ExpireItems(s, keys, now);
    if keys != [] {
      var x := keys[0];
      var t := ExpireOne(s, x, now);
      ExpireOneProps(s, x, now);
      ExpireItemsShrinks(t, keys[1..], now);
      LeftTwice(s, t, r);
      if k in t.items.vals {
        ExpireItemsBars(t, keys[1..], now, k);
        RefusedWider(r, k, s.items.vals[k].started + TTL_MS, Left(t, r), Left(s, r));
      } else {
        RetiredIsRefused(s, k);
        SameRefused(Retire(s, k), t, k, s.items.vals[k].started + TTL_MS, {});
        FewLeft(t, r);
        ExpireItemsRefused(t, keys[1..], now, k, s.items.vals[k].started + TTL_MS, {});
        RefusedWider(r, k, s.items.vals[k].started + TTL_MS, {} + Left(t, r), Left(s, r));
      }
    }
  }

  /** At most eight keys can leave. */
  lemma FewLeft(s: State, t: State)
    requires Inv(s)
    ensures |s.items.vals.Keys| <= MAX_HELD && |Left(s, t)| <= MAX_HELD && |{} + Left(s, t)| <= MAX_HELD
  {
    Orders(s);
    KeysCount(s.items.order, s.items.vals.Keys);
    SubsetSize(Left(s, t), s.items.vals.Keys);
    assert {} + Left(s, t) == Left(s, t);
    HeldFew(s);
  }

  lemma HeldFew(s: State)
    requires Inv(s)
    ensures |s.items.order| <= MAX_HELD
  {}

  lemma {:induction false} KeysCount(order: seq<Key>, keys: set<Key>)
    requires forall k <- keys :: k in order
    ensures |keys| <= |order|
    decreases |order|
  {
    if order != [] {
      assert order == [order[0]] + order[1..];
      KeysCount(order[1..], keys - {order[0]});
      SubsetSize(keys, (keys - {order[0]}) + {order[0]});
    } else {
      assert keys == {};
    }
  }

  lemma {:induction false} ExpireBlocksKeeps(b: Dict<Key, int>, keys: seq<Key>, now: int, k: Key)
    requires b.Valid() && k in b.vals && now < b.vals[k]
    ensures var r := ExpireBlocks(b, keys, now);
      && k in r.vals && r.vals[k] == b.vals[k]
      && forall y <- After(r.order, k) :: y in After(b.order, k)
    decreases |keys|
  {
    if keys != [] {
      var x := keys[0];
      var b' := if x in b.vals && now >= b.vals[x] then b.Del(x) else b;
      b.DelValid(x);
      if b' != b {
        AfterWithout(b.order, k, x);
      }
      ExpireBlocksKeeps(b', keys[1..], now, k);
    }
  }

  lemma ExpireHeld(s: State, now: int, k: Key, a: Assembly, young: set<Key>)
    requires Inv(s) && Held(s, k, a, young) && now - a.started < TIMEOUT_MS
    ensures Held(Expire(s, now), k, a, young)
  {
    hide ExpireItems, ExpireBlocks, Shaped;
    ExpireItemsKeeps(s, s.items.order, now, k);
  }

  /** Ending blocks does not end one whose time has not come. */
  lemma UnblockRefused(u: State, now: int, k: Key, until: int, later: set<Key>)
    requires Inv(u) && Refused(u, k, until, later) && now < until
    ensures Refused(u.(blocked := ExpireBlocks(u.blocked, u.blocked.order, now)), k, until, later)
  {
    hide ExpireBlocks, Shaped;
    ShapedBlocked(u);
    ExpireBlocksKeeps(u.blocked, u.blocked.order, now, k);
  }

  lemma ExpireRefused(s: State, now: int, k: Key, until: int, later: set<Key>)
    requires Inv(s) && Refused(s, k, until, later) && now < until && |later + Left(s, Expire(s, now))| < MAX_BLOCKED
    ensures Refused(Expire(s, now), k, until, later + Left(s, Expire(s, now)))
  {
    hide ExpireItems, ExpireBlocks, Shaped, Refused;
    var u := ExpireItems(s, s.items.order, now);
    assert Left(s, u) == Left(s, Expire(s, now));
    ExpireItemsRefused(s, s.items.order, now, k, until, later);
    ExpireItemsInv(s, s.items.order, now);
    UnblockRefused(u, now, k, until, later + Left(s, u));
  }

  lemma ExpireBars(s: State, now: int, k: Key)
    requires Inv(s) && k in Left(s, Expire(s, now)) && now < s.items.vals[k].started + TTL_MS
    ensures Refused(Expire(s, now), k, s.items.vals[k].started + TTL_MS, Left(s, Expire(s, now)))
  {
    hide ExpireItems, ExpireBlocks, Shaped, Refused;
    var u := ExpireItems(s, s.items.order, now);
    assert Left(s, u) == Left(s, Expire(s, now));
    ExpireItemsBars(s, s.items.order, now, k);
    ExpireItemsInv(s, s.items.order, now);
    UnblockRefused(u, now, k, s.items.vals[k].started + TTL_MS, Left(s, u));
  }

  lemma ShapedBlocked(s: State)
    requires Inv(s)
    ensures s.blocked.Valid()
  {}

  // ---- opening and storing -----------------------------------------------------------

  /** Opening an assembly for another key, when eight of them would be needed to push `k` out. */
  lemma OpenHeld(s: State, x: Key, m: Meta, now: int, k: Key, a: Assembly, young: set<Key>)
    requires Inv(s) && Held(s, k, a, young) && x != k && (x in s.items.vals || x in young) && |young| < MAX_HELD
    ensures Held(Open(s, x, m, now), k, a, young)
  {
    hide Retire, Shaped;
    if x !in s.items.vals {
      Orders(s);
      var t := MakeRoom(s);
      if |s.items.order| == MAX_HELD {
        var first := s.items.order[0];
        AfterSuffix(s.items.order, k);
        if first == k {
          var rest := After(s.items.order, k);
          assert x !in rest by { assert forall y <- rest :: y in s.items.order; }
          assert Distinct(rest + [x]);
          DistinctBounded(rest + [x], young);
          assert false;
        }
        RetireHeld(s, first, k, a, young);
        RetireInv(s, first);
        Orders(Retire(s, first));
      }
      AfterAppend(t.items.order, k, x);
    }
  }

  /** Opening evicts at most the oldest, which is then the newest refused. */
  lemma OpenRefuses(s: State, x: Key, m: Meta, now: int)
    requires Inv(s) && x !in s.blocked.vals
    ensures var t := Open(s, x, m, now);
      forall k, until, later :: Refused(s, k, until, later) && |later + Left(s, t)| < MAX_BLOCKED ==>
        Refused(t, k, until, later + Left(s, t))
    ensures var t := Open(s, x, m, now);
      forall k <- Left(s, t) :: Refused(t, k, s.items.vals[k].started + TTL_MS, {})
  {
    hide Retire, Shaped, Refused, Inv;
    var t := Open(s, x, m, now);
    if t.items == s.items || x in s.items.vals || |s.items.order| < MAX_HELD {
      OpenPlain(s, x, m, now);
    } else {
      HeldFew(s);
      Orders(s);
      var y := s.items.order[0];
      OpenEvicts(s, x, m, now);
      forall k, until, later | Refused(s, k, until, later) && |later + Left(s, t)| < MAX_BLOCKED
        ensures Refused(t, k, until, later + Left(s, t))
      {
        RetireRefused(s, y, k, until, later);
        SameRefused(Retire(s, y), t, k, until, later + {y});
      }
      RetiredIsRefused(s, y);
      SameRefused(Retire(s, y), t, y, s.items.vals[y].started + TTL_MS, {});
    }
  }

  /** Without eviction nothing leaves and nothing is refused. */
  lemma OpenPlain(s: State, x: Key, m: Meta, now: int)
    requires x in s.items.vals || |s.items.order| < MAX_HELD || Open(s, x, m, now).items == s.items
    requires Inv(s)
    ensures var t := Open(s, x, m, now);
      && Left(s, t) == {}
      && forall k, until, later :: Refused(s, k, until, later) ==> Refused(t, k, until, later + Left(s, t))
  {
    hide Retire;
    HeldFew(s);
    var t := Open(s, x, m, now);
    assert t.blocked == s.blocked;
    forall k, until, later | Refused(s, k, until, later)
      ensures Refused(t, k, until, later + Left(s, t))
    {
      assert later + {} == later;
    }
  }

  lemma OpenEvicts(s: State, x: Key, m: Meta, now: int)
    requires Inv(s) && x !in s.items.vals && |s.items.order| == MAX_HELD && s.items.order[0] in s.items.vals
    ensures var y := s.items.order[0];
      && Left(s, Open(s, x, m, now)) == {y} && Open(s, x, m, now).blocked == Retire(s, y).blocked
  {
    hide Retire, Shaped;
    RetireItems(s, s.items.order[0]);
  }

  lemma StoreHeld(s: State, x: Key, m: Meta, i: nat, data: bytes, k: Key, a: Assembly, young: set<Key>)
    requires Inv(s) && Held(s, k, a, young) && x != k && x in s.items.vals
    requires i < m.count && |data| == PieceLength(m.total, i)
    ensures Held(Store(s, x, m, i, data).0, k, a, young)
  {
    hide Shaped, Store, Retire, Inv;
    RetireHeld(s, x, k, a, young);
    RetireItems(s, x);
    StoreShape(s, x, m, i, data);
  }

  /** Storing a piece retires its key as it was, or leaves everyone else alone. */
  lemma StoreShape(s: State, x: Key, m: Meta, i: nat, data: bytes)
    requires Inv(s) && x in s.items.vals
    ensures var t := Store(s, x, m, i, data).0;
      if x in t.items.vals then
        && t.blocked == s.blocked && t.items.order == s.items.order && t.items.vals.Keys == s.items.vals.Keys
        && t.items.vals[x].started == s.items.vals[x].started
        && (forall k <- s.items.vals.Keys :: k != x ==> t.items.vals[k] == s.items.vals[k])
      else t.items == Retire(s, x).items && t.blocked == Retire(s, x).blocked
    ensures Store(s, x, m, i, data).1.Complete? ==> x !in Store(s, x, m, i, data).0.items.vals
  {
    hide Retire, Shaped, Joined, Rtcm.Valid, Rtcm.MessageType;
    RetireItems(s, x);
    var b := s.items.vals[x];
    if b.meta == m && i !in b.parts {
      var b' := b.(parts := b.parts[i := data]);
      var u := s.(items := s.items.Set(x, b'));
      RetireItems(u, x);
      RetireSame(s, u, x, b');
    }
  }

  /** Retiring a key does not depend on the parts it had collected. */
  lemma RetireSame(s: State, u: State, x: Key, a: Assembly)
    requires Inv(s) && x in s.items.vals && u == s.(items := s.items.Set(x, a)) && a.started == s.items.vals[x].started
    ensures Retire(u, x) == Retire(s, x)
  {
    SetThenDel(s.items, x, a);
  }

  lemma StoreRefuses(s: State, x: Key, m: Meta, i: nat, data: bytes)
    requires Inv(s) && x in s.items.vals
    ensures var t := Store(s, x, m, i, data).0;
      forall k, until, later :: Refused(s, k, until, later) && |later + Left(s, t)| < MAX_BLOCKED ==>
        Refused(t, k, until, later + Left(s, t))
    ensures var t := Store(s, x, m, i, data).0;
      forall k <- Left(s, t) :: Refused(t, k, s.items.vals[k].started + TTL_MS, {})
  {
    hide Retire, Shaped, Refused, Inv, Store;
    var t := Store(s, x, m, i, data).0;
    StoreShape(s, x, m, i, data);
    RetireItems(s, x);
    if x in t.items.vals {
      forall k, until, later | Refused(s, k, until, later) && |later + Left(s, t)| < MAX_BLOCKED
        ensures Refused(t, k, until, later + Left(s, t))
      {
        assert later + Left(s, t) == later;
        SameRefused(s, t, k, until, later);
      }
    } else {
      assert Left(s, t) == {x};
      forall k, until, later | Refused(s, k, until, later) && |later + Left(s, t)| < MAX_BLOCKED
        ensures Refused(t, k, until, later + Left(s, t))
      {
        RetireRefused(s, x, k, until, later);
        SameRefused(Retire(s, x), t, k, until, later + {x});
      }
      RetiredIsRefused(s, x);
      SameRefused(Retire(s, x), t, x, s.items.vals[x].started + TTL_MS, {});
    }
  }

  // ---- one add ---------------------------------------------------------------------

  /** A frame that opens nothing, or something young, leaves a young enough assembly of another key alone. */
  lemma AddHeld(s: State, f: Frame, now: int, k: Key, a: Assembly, young: set<Key>)
    requires Inv(s) && Held(s, k, a, young) && now - a.started < TIMEOUT_MS && |young| < MAX_HELD
    requires KeyOf(f) == k ==> !Collectable(f)
    requires Opens(s, f, now) ==> KeyOf(f) in young
    ensures Held(Add(s, f, now).0, k, a, young)
  {
    hide Expire, Open, Store, Shaped, Unfinished;
    ExpireHeld(s, now, k, a, young);
    ExpireProps(s, now);
    var t := Expire(s, now);
    if Collectable(f) && KeyOf(f) !in t.blocked.vals {
      var m := MetaIn(f.body);
      OpenHeld(t, KeyOf(f), m, now, k, a, young);
      OpenInv(t, KeyOf(f), m, now);
      StoreHeld(Open(t, KeyOf(f), m, now), KeyOf(f), m, f.body[4] as int, f.body[6..], k, a, young);
    }
  }

  /** The keys one `add` blocks: those that expire, and those evicted, finished or in conflict after that. */
  function Blocks(s: State, f: Frame, now: int): set<Key> {
    var t := Expire(s, now);
    Left(s, t) + Lost(t, f, now)
  }

  /** The keys lost once what is late has expired, the frame's own included if it was just admitted. */
  function Lost(t: State, f: Frame, now: int): set<Key> {
    t.items.vals.Keys + (if Admits(t, f) then {KeyOf(f)} else {}) - AddTo(t, f, now).0.items.vals.Keys
  }

  /** The two stages after expiry, and what each loses. */
  lemma Stages(t: State, f: Frame, now: int)
    requires Inv(t) && Collectable(f) && KeyOf(f) !in t.blocked.vals
    ensures var u := Open(t, KeyOf(f), MetaIn(f.body), now);
      var v := AddTo(t, f, now).0;
      && Inv(u) && KeyOf(f) in u.items.vals && Left(t, u) + Left(u, v) == Lost(t, f, now) && KeyOf(f) !in Left(t, u)
      && (forall k <- u.items.vals.Keys :: u.items.vals[k].started == StartOf(t, f, now, k))
  {
    hide Open, Store, Shaped, Unfinished, InOrder;
    var m := MetaIn(f.body);
    OpenInv(t, KeyOf(f), m, now);
    var u := Open(t, KeyOf(f), m, now);
    StoreShape(u, KeyOf(f), m, f.body[4] as int, f.body[6..]);
    RetireItems(u, KeyOf(f));
  }

  /** A refused key stays refused, whatever is added, while fewer than 64 keys are blocked after it. */
  lemma AddToRefused(t: State, f: Frame, now: int, k: Key, until: int, later: set<Key>)
    requires Inv(t) && Refused(t, k, until, later) && |later + Lost(t, f, now)| < MAX_BLOCKED
    ensures Refused(AddTo(t, f, now).0, k, until, later + Lost(t, f, now))
    ensures KeyOf(f) == k ==> AddTo(t, f, now).1.Rejected?
  {
    hide Open, Store, Refused, Inv, Lost, Left;
    if Collectable(f) && KeyOf(f) !in t.blocked.vals {
      var m := MetaIn(f.body);
      var u, v := Open(t, KeyOf(f), m, now), AddTo(t, f, now).0;
      Stages(t, f, now);
      OpenRefuses(t, KeyOf(f), m, now);
      StoreRefuses(u, KeyOf(f), m, f.body[4] as int, f.body[6..]);
      Within(Left(t, u), Lost(t, f, now), later);
      assert (later + Left(t, u)) + Left(u, v) == later + Lost(t, f, now);
      RefusedBlocked(t, k, until, later);
    } else {
      RefusedBlocked(t, k, until, later);
      RefusedWider(t, k, until, later, later + Lost(t, f, now));
    }
  }

  lemma RefusedBlocked(s: State, k: Key, until: int, later: set<Key>)
    requires Refused(s, k, until, later)
    ensures k in s.blocked.vals
  {}

  /** Whatever loses a key - eviction, conflict or completion - blocks it until a second after its start. */
  lemma AddToBars(t: State, f: Frame, now: int, k: Key)
    requires Inv(t) && k in Lost(t, f, now)
    ensures Refused(AddTo(t, f, now).0, k, StartOf(t, f, now, k) + TTL_MS, Lost(t, f, now))
  {
    hide Open, Store, Refused, Inv, Left;
    assert Collectable(f) && KeyOf(f) !in t.blocked.vals by {
      hide Open, Store;
    }
    var m := MetaIn(f.body);
    var u, v := Open(t, KeyOf(f), m, now), AddTo(t, f, now).0;
    Stages(t, f, now);
    OpenRefuses(t, KeyOf(f), m, now);
    StoreRefuses(u, KeyOf(f), m, f.body[4] as int, f.body[6..]);
    var until := StartOf(t, f, now, k) + TTL_MS;
    if k in Left(u, v) {
      LeftHeld(u, v, k);
      RefusedWider(v, k, until, {}, Lost(t, f, now));
    } else {
      LeftHeld(t, u, k);
      FewLeft(u, v);
      assert Refused(u, k, until, {});
      RefusedWider(v, k, until, {} + Left(u, v), Lost(t, f, now));
    }
  }

  lemma LeftHeld(s: State, t: State, k: Key)
    requires k in Left(s, t)
    ensures k in s.items.vals && k !in t.items.vals
  {}

  /**
   Until its second is over, a refused key stays refused and frames of that key
   yield nothing, while fewer than 64 keys are blocked after it.
   */
  lemma AddRefused(s: State, f: Frame, now: int, k: Key, until: int, later: set<Key>)
    requires Inv(s) && Refused(s, k, until, later) && now < until && |later + Blocks(s, f, now)| < MAX_BLOCKED
    ensures Refused(Add(s, f, now).0, k, until, later + Blocks(s, f, now))
    ensures KeyOf(f) == k ==> Add(s, f, now).1.Rejected?
  {
    hide Expire, AddTo, Refused, Inv, Left, Lost;
    var t := Expire(s, now);
    Within(Left(s, t), Blocks(s, f, now), later);
    ExpireRefused(s, now, k, until, later);
    ExpireProps(s, now);
    assert (later + Left(s, t)) + Lost(t, f, now) == later + Blocks(s, f, now);
    AddToRefused(t, f, now, k, until, later + Left(s, t));
  }

  /** When the assembly of `k`, blocked in this `add`, was started. */
  function BlockedStart(s: State, f: Frame, now: int, k: Key): int {
    if k in Lost(Expire(s, now), f, now) then StartOf(Expire(s, now), f, now, k)
    else if k in s.items.vals then s.items.vals[k].started else now
  }

  /**
   A key that is finished, in conflict, evicted or expired in an `add`, and not
   held after it, is refused until a second after its start.
   */
  lemma AddBars(s: State, f: Frame, now: int, k: Key)
    requires Inv(s) && k in Blocks(s, f, now) && k !in Add(s, f, now).0.items.vals
    requires now < BlockedStart(s, f, now, k) + TTL_MS
    ensures Refused(Add(s, f, now).0, k, BlockedStart(s, f, now, k) + TTL_MS, Blocks(s, f, now))
  {
    hide Expire, AddTo, Refused, Inv, Left, Lost;
    var t := Expire(s, now);
    ExpireProps(s, now);
    if k in Lost(t, f, now) {
      AddToBars(t, f, now, k);
      RefusedWider(Add(s, f, now).0, k, BlockedStart(s, f, now, k) + TTL_MS, Lost(t, f, now), Blocks(s, f, now));
    } else {
      LeftHeld(s, t, k);
      ExpireBars(s, now, k);
      BlocksFew(s, f, now);
      AddToRefused(t, f, now, k, BlockedStart(s, f, now, k) + TTL_MS, Left(s, t));
    }
  }

  lemma BlocksFew(s: State, f: Frame, now: int)
    requires Inv(s)
    ensures |Blocks(s, f, now)| < MAX_BLOCKED
  {
    hide Expire, AddTo, Admits;
    var t := Expire(s, now);
    ExpireProps(s, now);
    FewLeft(s, t);
    FewLeft(t, t);
    var one := if Admits(t, f) then {KeyOf(f)} else {};
    UnionSize(t.items.vals.Keys, one);
    SubsetSize(Lost(t, f, now), t.items.vals.Keys + one);
    UnionSize(Left(s, t), Lost(t, f, now));
  }

  lemma UnionSize(a: set<Key>, b: set<Key>)
    ensures |a + b| <= |a| + |b|
  {
    assert a + b == a + (b - a);
    SubsetSize(b - a, b);
  }
}
