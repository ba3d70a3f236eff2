/** The mock STOP receiver: every request is answered, none is applied twice. */
module StopCache {
  import opened Bytes
  import opened Wrappers
  import opened Application
  import opened OrderedDict

  const STOP_COMMAND: byte := 1
  const REMEMBERED: nat := 64

  datatype Ack = Applied | AlreadyStopped | Expired | WrongTarget | Unsupported | IdConflict | StaleId

  datatype Mower = Running | Stopped

  datatype Entry = Entry(body: bytes, result: Ack, state: Mower)

  datatype Decision = Decision(result: Ack, state: Mower, appliedNow: bool)

  datatype Cache = Cache(
    local: u32, ttl: nat, state: Mower, highWater: map<u32, u32>, answers: Dict<Key, Entry>, applyCount: nat)

  /** At most 64 answers are remembered; the oldest goes first. */
  function Trim(d: Dict<Key, Entry>): Dict<Key, Entry>
    decreases |d.order|
  {
    if |d.order| > REMEMBERED then Trim(Dict(d.order[1..], d.vals - {d.order[0]})) else d
  }

  function Remember(s: Cache, f: Frame, result: Ack): (Cache, Decision) {
    (s.(answers := Trim(s.answers.SetLast(KeyOf(f), Entry(f.body, result, s.state)))), Decision(result, s.state, false))
  }

  function HighWater(s: Cache, session: u32): u32 { if session in s.highWater then s.highWater[session] else 0 }

  /** A well formed STOP addressed to this receiver. */
  predicate Addressed(s: Cache, body: bytes) { |body| == 6 && Get32(body, 0) == s.local && body[4] == STOP_COMMAND }

  function Apply(s: Cache, f: Frame): (Cache, Option<Decision>) {
    if f.typ != STOP_REQUEST then (s, None) else var (t, d) := Answer(s, f); (t, Some(d))
  }

  function Answer(s: Cache, f: Frame): (Cache, Decision) {
    var key := KeyOf(f);
    if key in s.answers.vals then
      var e := s.answers.vals[key];
      (s, if e.body != f.body then Decision(IdConflict, s.state, false) else Decision(e.result, e.state, false))
    else if |f.body| != 6 then Remember(s, f, Unsupported)
    else if Get32(f.body, 0) != s.local then Remember(s, f, WrongTarget)
    else if f.body[4] != STOP_COMMAND then Remember(s, f, Unsupported)
    else if f.age as int > s.ttl then Remember(s, f, Expired)
    else if f.id <= HighWater(s, f.session) then (s, Decision(StaleId, s.state, false))
    else
      var t := s.(highWater := s.highWater[f.session := f.id]);
      if s.state == Stopped then Remember(t, f, AlreadyStopped)
      else
        var (u, d) := Remember(t.(state := Stopped, applyCount := s.applyCount + 1), f, Applied);
        (u, d.(appliedNow := true))
  }

  function ResetMock(s: Cache): Cache { s.(state := Running) }

  // ---- the invariant -------------------------------------------------------------

  /** Past the checks and above the high water: the request is taken. */
  predicate Accepts(s: Cache, f: Frame) {
    f.typ == STOP_REQUEST && KeyOf(f) !in s.answers.vals && Addressed(s, f.body) && f.age as int <= s.ttl
    && f.id > HighWater(s, f.session)
  }

  ghost predicate Inv(s: Cache) { s.answers.Valid() && |s.answers.order| <= REMEMBERED }

  /** One more answer remembered, and the oldest forgotten if there are too many. */
  lemma TrimProps(d: Dict<Key, Entry>)
    requires d.Valid() && |d.order| <= REMEMBERED + 1
    ensures Trim(d).Valid() && |Trim(d).order| <= REMEMBERED
    ensures |d.order| <= REMEMBERED ==> Trim(d) == d
    ensures |d.order| > REMEMBERED ==> Trim(d) == d.Del(d.order[0]) && Trim(d).order == d.order[1..]
  {
    if |d.order| > REMEMBERED {
      d.DelValid(d.order[0]);
      d.DelFirst();
    }
  }

  /** A key with fewer than 64 answers after it survives. */
  lemma TrimKeeps(d: Dict<Key, Entry>, k: Key)
    requires d.Valid() && |d.order| <= REMEMBERED + 1 && k in d.vals && |After(d.order, k)| < REMEMBERED
    ensures k in Trim(d).vals && Trim(d).vals[k] == d.vals[k] && After(Trim(d).order, k) == After(d.order, k)
  {
    hide Trim;
    TrimProps(d);
    AfterSuffix(d.order, k);
    if |d.order| > REMEMBERED {
      // Dropping an earlier key does not change what comes after.
      assert After(d.order[1..], k) == After(d.order, k);
    }
  }

  lemma Appended(d: Dict<Key, Entry>, key: Key, e: Entry)
    requires d.Valid() && key !in d.vals
    ensures var t := d.SetLast(key, e);
      && t.Valid() && t.order == d.order + [key] && t.vals == d.vals[key := e] && |After(t.order, key)| == 0
  {
    d.SetLastValid(key, e);
    WithoutAbsent(d.order, key);
    AfterNew(d.order, key);
  }

  /** What remembering one more answer does: it is the newest, and only a key behind 63 others is forgotten. */
  ghost predicate Recalls(d: Dict<Key, Entry>, t: Dict<Key, Entry>, key: Key, e: Entry) {
    && key in t.vals && t.vals[key] == e && |After(t.order, key)| == 0
    && (forall k <- t.vals.Keys :: k == key || k in d.vals)
    && (forall k <- d.vals.Keys :: Kept(d, t, k))
  }

  ghost predicate Kept(d: Dict<Key, Entry>, t: Dict<Key, Entry>, k: Key)
    requires k in d.vals
  {
    && (k in t.vals <==> |After(d.order, k)| < REMEMBERED - 1)
    && (k in t.vals ==> t.vals[k] == d.vals[k] && |After(t.order, k)| == |After(d.order, k)| + 1)
  }

  lemma RememberProps(s: Cache, f: Frame, result: Ack)
    requires Inv(s) && KeyOf(f) !in s.answers.vals
    ensures var t := Remember(s, f, result).0;
      && Inv(t) && t == s.(answers := t.answers)
      && Recalls(s.answers, t.answers, KeyOf(f), Entry(f.body, result, s.state))
  {
    hide Trim, Dict.SetLast, After, Kept;
    var key, e := KeyOf(f), Entry(f.body, result, s.state);
    var d := s.answers.SetLast(key, e);
    Appended(s.answers, key, e);
    TrimProps(d);
    TrimKeeps(d, key);
    forall k <- s.answers.vals.Keys
      ensures Kept(s.answers, Trim(d), k)
    {
      TrimExactly(s.answers, key, e, k);
    }
    forall k <- Trim(d).vals.Keys
      ensures k == key || k in s.answers.vals
    {
      assert k in d.vals by {
        hide Trim;
        TrimProps(d);
      }
    }
  }

  lemma TrimExactly(d: Dict<Key, Entry>, key: Key, e: Entry, k: Key)
    requires d.Valid() && |d.order| <= REMEMBERED && key !in d.vals && k in d.vals
    ensures Kept(d, Trim(d.SetLast(key, e)), k)
  {
    hide Trim, Dict.SetLast;
    var u := d.SetLast(key, e);
    Appended(d, key, e);
    AfterAppend(d.order, k, key);
    TrimProps(u);
    AfterSuffix(d.order, k);
    if |After(d.order, k)| < REMEMBERED - 1 {
      TrimKeeps(u, k);
    } else {
      assert d.order[0] == k && u.order[0] == k;
    }
  }

  lemma AnswerProps(s: Cache, f: Frame)
    requires Inv(s) && f.typ == STOP_REQUEST
    ensures var (t, d) := Answer(s, f);
      && Inv(t) && t.local == s.local && t.ttl == s.ttl
      && (d.appliedNow <==> Accepts(s, f) && s.state == Running)
      && t.applyCount == s.applyCount + (if d.appliedNow then 1 else 0)
      && t.state == (if d.appliedNow then Stopped else s.state)
      && t.highWater == (if Accepts(s, f) then s.highWater[f.session := f.id] else s.highWater)
    ensures Accepts(s, f) ==> Answer(s, f).1.result == if s.state == Running then Applied else AlreadyStopped
  {
    hide Inv, Trim, Dict.SetLast;
    if KeyOf(f) !in s.answers.vals {
      var t := s.(highWater := s.highWater[f.session := f.id]);
      var u := t.(state := Stopped, applyCount := s.applyCount + 1);
      InvFree(s, t);
      InvFree(s, u);
      RememberProps(s, f, Unsupported);
      RememberProps(s, f, WrongTarget);
      RememberProps(s, f, Expired);
      RememberProps(t, f, AlreadyStopped);
      RememberProps(u, f, Applied);
    }
  }

  lemma InvFree(s: Cache, t: Cache)
    requires t.answers == s.answers
    ensures Inv(t) <==> Inv(s)
  {}

  // ---- whole runs -----------------------------------------------------------------

  datatype Input = Request(f: Frame) | MockReset

  /** The receiver, the requests it applied, and how often it went from running to stopped and back. */
  datatype Run = Run(s: Cache, applied: seq<Key>, stops: nat, rearms: nat)

  function Do(r: Run, i: Input): Run {
    var t := match i case Request(f) => Apply(r.s, f).0 case MockReset => ResetMock(r.s);
    Run(t,
        if i.Request? && Apply(r.s, i.f).1.Some? && Apply(r.s, i.f).1.value.appliedNow
        then r.applied + [KeyOf(i.f)] else r.applied,
        if r.s.state == Running && t.state == Stopped then r.stops + 1 else r.stops,
        if r.s.state == Stopped && t.state == Running then r.rearms + 1 else r.rearms)
  }

  /** After the first `n` inputs. */
  function RunTo(r: Run, inputs: seq<Input>, n: nat): Run
    requires n <= |inputs|
  {
    if n == 0 then r else Do(RunTo(r, inputs, n - 1), inputs[n - 1])
  }

  function Begin(local: u32, ttl: nat): Run { Run(Cache(local, ttl, Running, map[], Dict([], map[]), 0), [], 0, 0) }

  /** Every key is applied once, in increasing order within its session, and every application is a stop. */
  ghost predicate Once(r: Run) {
    && Inv(r.s)
    && (forall i, j :: 0 <= i < j < |r.applied| && r.applied[i].session == r.applied[j].session ==>
          r.applied[i].id < r.applied[j].id)
    && (forall k <- r.applied :: k.id <= HighWater(r.s, k.session))
    && r.s.applyCount == r.stops == |r.applied|
    && r.stops == r.rearms + if r.s.state == Stopped then 1 else 0
  }

  lemma DoOnce(r: Run, i: Input)
    requires Once(r)
    ensures Once(Do(r, i))
  {
    hide Answer, Inv, Addressed;
    if i.Request? && i.f.typ == STOP_REQUEST { AnswerProps(r.s, i.f); }
    if i.MockReset? { InvFree(r.s, ResetMock(r.s)); }
  }

  /** Over all request sequences, with evictions and mock resets in between. */
  lemma {:induction false} RunOnce(r: Run, inputs: seq<Input>, n: nat)
    requires Once(r) && n <= |inputs|
    ensures Once(RunTo(r, inputs, n))
    decreases n
  {
    hide Do, Once;
    if n > 0 {
      RunOnce(r, inputs, n - 1);
      DoOnce(RunTo(r, inputs, n - 1), inputs[n - 1]);
    }
  }

  lemma RunOnceFromStart(local: u32, ttl: nat, inputs: seq<Input>, n: nat)
    requires n <= |inputs|
    ensures Once(RunTo(Begin(local, ttl), inputs, n))
  {
    RunOnce(Begin(local, ttl), inputs, n);
  }

  // ---- what is remembered -------------------------------------------------------------

  /** A young, well addressed request at or below the high water: refused, and the refusal not remembered. */
  predicate Stale(s: Cache, f: Frame) {
    Addressed(s, f.body) && f.age as int <= s.ttl && f.id <= HighWater(s, f.session)
  }

  /** The answer to the request is new and is remembered. */
  predicate Remembers(s: Cache, f: Frame) {
    f.typ == STOP_REQUEST && KeyOf(f) !in s.answers.vals && !Stale(s, f)
  }

  /** The answer a request has when none is remembered for it, and what is then remembered. */
  function Noted(s: Cache, f: Frame): Entry {
    if Accepts(s, f) then Entry(f.body, if s.state == Running then Applied else AlreadyStopped, Stopped)
    else Entry(f.body, if |f.body| == 6 && Get32(f.body, 0) != s.local then WrongTarget
                       else if !Addressed(s, f.body) then Unsupported
                       else Expired, s.state)
  }

  lemma AnswerRemembers(s: Cache, f: Frame)
    requires Inv(s) && f.typ == STOP_REQUEST
    ensures var t := Answer(s, f).0;
      if Remembers(s, f) then Recalls(s.answers, t.answers, KeyOf(f), Noted(s, f)) else t.answers == s.answers
  {
    hide Inv, Trim, Dict.SetLast, Recalls;
    if KeyOf(f) !in s.answers.vals {
      var t := s.(highWater := s.highWater[f.session := f.id]);
      var u := t.(state := Stopped, applyCount := s.applyCount + 1);
      InvFree(s, t);
      InvFree(s, u);
      RememberProps(s, f, Unsupported);
      RememberProps(s, f, WrongTarget);
      RememberProps(s, f, Expired);
      RememberProps(t, f, AlreadyStopped);
      RememberProps(u, f, Applied);
    }
  }

  /** Input `p` of the run is a request whose answer is remembered. */
  predicate RemembersAt(r: Run, inputs: seq<Input>, p: nat)
    requires p < |inputs|
  {
    inputs[p].Request? && Remembers(RunTo(r, inputs, p).s, inputs[p].f)
  }

  /** How many answers are remembered from input `p` up to, but not including, input `n`. */
  function Count(r: Run, inputs: seq<Input>, p: nat, n: nat): nat
    requires n <= |inputs|
    decreases n
  {
    if n <= p then 0 else Count(r, inputs, p, n - 1) + (if RemembersAt(r, inputs, n - 1) then 1 else 0)
  }

  /** The answer of input `p`, for key `k`, is remembered and fewer than 64 have been since. */
  predicate Standing(r: Run, inputs: seq<Input>, k: Key, p: int, n: nat)
    requires n <= |inputs|
  {
    0 <= p < n && RemembersAt(r, inputs, p) && KeyOf(inputs[p].f) == k && Count(r, inputs, p + 1, n) < REMEMBERED
  }

  /** The cache after `n` inputs, as far as `k` goes: what it has come from a standing input. */
  ghost predicate Cached(r: Run, inputs: seq<Input>, k: Key, n: nat)
    requires n <= |inputs|
  {
    var d := RunTo(r, inputs, n).s.answers;
    && (k in d.vals ==> exists p :: Standing(r, inputs, k, p, n))
    && (forall p :: Standing(r, inputs, k, p, n) ==> Stands(r, inputs, k, p, n))
  }

  ghost predicate Stands(r: Run, inputs: seq<Input>, k: Key, p: int, n: nat)
    requires n <= |inputs| && Standing(r, inputs, k, p, n)
  {
    var d := RunTo(r, inputs, n).s.answers;
    && k in d.vals && d.vals[k] == Noted(RunTo(r, inputs, p).s, inputs[p].f)
    && |After(d.order, k)| == Count(r, inputs, p + 1, n)
  }

  lemma {:induction false} RunInv(r: Run, inputs: seq<Input>, n: nat)
    requires Inv(r.s) && n <= |inputs|
    ensures Inv(RunTo(r, inputs, n).s)
    ensures RunTo(r, inputs, n).s.local == r.s.local && RunTo(r, inputs, n).s.ttl == r.s.ttl
    decreases n
  {
    hide Answer, Inv;
    if n > 0 {
      RunInv(r, inputs, n - 1);
      var s := RunTo(r, inputs, n - 1).s;
      match inputs[n - 1]
      case Request(f) => if f.typ == STOP_REQUEST { AnswerProps(s, f); }
      case MockReset => InvFree(s, ResetMock(s));
    }
  }

  /** One more input, seen from the cache: it is remembered, or the cache stays. */
  lemma DoRemembers(r: Run, inputs: seq<Input>, n: nat)
    requires Inv(r.s) && n < |inputs|
    ensures var s, t := RunTo(r, inputs, n).s, RunTo(r, inputs, n + 1).s;
      if RemembersAt(r, inputs, n) then Recalls(s.answers, t.answers, KeyOf(inputs[n].f), Noted(s, inputs[n].f))
      else t.answers == s.answers
  {
    hide Answer, Inv, Recalls, Noted;
    RunInv(r, inputs, n);
    if inputs[n].Request? && inputs[n].f.typ == STOP_REQUEST { AnswerRemembers(RunTo(r, inputs, n).s, inputs[n].f); }
  }

  /**
   After any run, an answer for `k` is in the cache if and only if it was
   remembered and fewer than 64 answers have been remembered since.
   */
  lemma {:induction false} CachedExactly(r: Run, inputs: seq<Input>, k: Key, n: nat)
    requires Inv(r.s) && k !in r.s.answers.vals && n <= |inputs|
    ensures Cached(r, inputs, k, n)
    decreases n
  {
    hide Do, Inv, Noted, Remembers;
    if n > 0 {
      CachedExactly(r, inputs, k, n - 1);
      DoRemembers(r, inputs, n - 1);
      CachedStep(r, inputs, k, n - 1);
    }
  }

  lemma CachedStep(r: Run, inputs: seq<Input>, k: Key, n: nat)
    requires n < |inputs| && Cached(r, inputs, k, n)
    requires var s, t := RunTo(r, inputs, n).s, RunTo(r, inputs, n + 1).s;
      if RemembersAt(r, inputs, n) then Recalls(s.answers, t.answers, KeyOf(inputs[n].f), Noted(s, inputs[n].f))
      else t.answers == s.answers
    ensures Cached(r, inputs, k, n + 1)
  {
    hide RunTo, Noted;
    var m := n + 1;
    var d, e := RunTo(r, inputs, n).s.answers, RunTo(r, inputs, m).s.answers;
    forall p | Standing(r, inputs, k, p, m)
      ensures Stands(r, inputs, k, p, m)
    {
      if p < n { assert Standing(r, inputs, k, p, n); }
    }
    if k in e.vals {
      if k in d.vals {
        var p :| Standing(r, inputs, k, p, n);
        assert Standing(r, inputs, k, p, m);
      } else {
        assert Standing(r, inputs, k, n, m);
      }
    }
  }

  // ---- replays ----------------------------------------------------------------------

  /** The first input takes `f`, which is new to the receiver. */
  predicate Starts(r: Run, inputs: seq<Input>, f: Frame) {
    inputs != [] && inputs[0] == Request(f) && Accepts(r.s, f)
  }

  /** From the acceptance on, the high water is at least the request's. */
  lemma {:induction false} HighWaterStays(r: Run, inputs: seq<Input>, f: Frame, n: nat)
    requires Inv(r.s) && Starts(r, inputs, f) && 0 < n <= |inputs|
    ensures f.id <= HighWater(RunTo(r, inputs, n).s, f.session)
    decreases n
  {
    hide Answer, Inv, Addressed;
    RunInv(r, inputs, n - 1);
    var s := RunTo(r, inputs, n - 1).s;
    if n == 1 {
      AnswerProps(s, f);
    } else {
      HighWaterStays(r, inputs, f, n - 1);
      match inputs[n - 1]
      case Request(g) => if g.typ == STOP_REQUEST { AnswerProps(s, g); }
      case MockReset =>
    }
  }

  /**
   After the acceptance, another request of the same key is remembered if and only
   if no answer stands for the key and it is badly addressed or too old; what is
   then remembered is a refusal.
   */
  lemma SameKeyRemembered(r: Run, inputs: seq<Input>, f: Frame, p: nat)
    requires Inv(r.s) && Starts(r, inputs, f) && 0 < p < |inputs|
    requires inputs[p].Request? && inputs[p].f.typ == STOP_REQUEST && KeyOf(inputs[p].f) == KeyOf(f)
    ensures var g := inputs[p].f;
      && (RemembersAt(r, inputs, p) <==>
            !(exists q :: Standing(r, inputs, KeyOf(f), q, p)) && !(Addressed(r.s, g.body) && g.age as int <= r.s.ttl))
      && Noted(RunTo(r, inputs, p).s, g).result in {Unsupported, WrongTarget, Expired}
      && (Noted(RunTo(r, inputs, p).s, g).result == Expired <==> Addressed(r.s, g.body))
  {
    hide RunTo, Inv, Count, Addressed;
    var s := RunTo(r, inputs, p).s;
    RunInv(r, inputs, p);
    HighWaterStays(r, inputs, f, p);
    CachedExactly(r, inputs, KeyOf(f), p);
    SameAddress(r.s, s, inputs[p].f.body);
    AddressedShape(s, inputs[p].f.body);
    if q :| Standing(r, inputs, KeyOf(f), q, p) { assert Stands(r, inputs, KeyOf(f), q, p); }
  }

  lemma AddressedShape(s: Cache, body: bytes)
    ensures Addressed(s, body) ==> |body| == 6 && Get32(body, 0) == s.local
  {}

  lemma SameAddress(s: Cache, t: Cache, body: bytes)
    requires t.local == s.local
    ensures Addressed(t, body) <==> Addressed(s, body)
  {}

  /** A later answer for the key stands: that of input `p`. */
  predicate Later(r: Run, inputs: seq<Input>, k: Key, p: int) {
    p > 0 && Standing(r, inputs, k, p, |inputs|)
  }

  /** No answer for the key stands. */
  ghost predicate Forgotten(r: Run, inputs: seq<Input>, k: Key) {
    forall p :: !Standing(r, inputs, k, p, |inputs|)
  }

  /**
   What a replay `g` of a taken request is answered, over every run since. It
   never changes anything. It gets the first answer exactly while fewer than 64
   answers have been remembered since; ID_CONFLICT exactly if a different body was
   remembered for the key after that and still stands; EXPIRED exactly if an old
   replay was, or nothing stands and the replay is old; STALE_ID exactly if nothing
   stands and the replay is young.
   */
  lemma {:induction false} Replay(r: Run, inputs: seq<Input>, f: Frame, g: Frame)
    requires Inv(r.s) && Starts(r, inputs, f)
    requires g.typ == STOP_REQUEST && KeyOf(g) == KeyOf(f) && g.body == f.body
    ensures var first, s, k := Answer(r.s, f).1, RunTo(r, inputs, |inputs|).s, KeyOf(f);
      var (t, d) := Answer(s, g);
      && !d.appliedNow && t.state == s.state && t.applyCount == s.applyCount && t.highWater == s.highWater
      && (d == Decision(first.result, first.state, false) <==> Count(r, inputs, 1, |inputs|) < REMEMBERED)
      && (d.result == IdConflict <==> exists p :: Later(r, inputs, k, p) && inputs[p].f.body != f.body)
      && (d.result == Expired <==>
            || (exists p :: Later(r, inputs, k, p) && inputs[p].f.body == f.body)
            || (Forgotten(r, inputs, k) && g.age as int > r.s.ttl))
      && (d.result == StaleId <==> Forgotten(r, inputs, k) && g.age as int <= r.s.ttl)
  {
    hide Answer, RunTo, Inv, Trim, Dict.SetLast, Count, Addressed, Standing, Forgotten, Later, Noted;
    var n, k := |inputs|, KeyOf(f);
    var s := RunTo(r, inputs, n).s;
    RunInv(r, inputs, n);
    HighWaterStays(r, inputs, f, n);
    SameAddress(r.s, s, g.body);
    ReplayAnswer(s, g);
    First(r, inputs, f);
    ForgottenIff(r, inputs, k);
    if p :| Later(r, inputs, k, p) {
      LaterStands(r, inputs, f, p);
      LaterUnique(r, inputs, k, p);
    } else if Standing(r, inputs, k, 0, n) {
      FirstStands(r, inputs, f);
    } else {
      NothingStands(r, inputs, k);
    }
  }

  /** The answer to a well addressed request at or below the high water, as the cache has it. */
  lemma ReplayAnswer(s: Cache, g: Frame)
    requires Inv(s) && g.typ == STOP_REQUEST && g.id <= HighWater(s, g.session) && Addressed(s, g.body)
    ensures var (t, d) := Answer(s, g);
      && !d.appliedNow && t.state == s.state && t.applyCount == s.applyCount && t.highWater == s.highWater
      && d == (if KeyOf(g) in s.answers.vals then
                 var e := s.answers.vals[KeyOf(g)];
                 if e.body != g.body then Decision(IdConflict, s.state, false) else Decision(e.result, e.state, false)
               else Decision(if g.age as int > s.ttl then Expired else StaleId, s.state, false))
  {
    hide Inv, Trim, Dict.SetLast;
    AnswerProps(s, g);
  }

  lemma FirstStands(r: Run, inputs: seq<Input>, f: Frame)
    requires Inv(r.s) && Starts(r, inputs, f) && Standing(r, inputs, KeyOf(f), 0, |inputs|)
    ensures var d := RunTo(r, inputs, |inputs|).s.answers;
      KeyOf(f) in d.vals && d.vals[KeyOf(f)] == Noted(r.s, f)
  {
    hide Inv, Noted, Addressed, Count;
    CachedExactly(r, inputs, KeyOf(f), |inputs|);
    assert Stands(r, inputs, KeyOf(f), 0, |inputs|);
  }

  lemma LaterStands(r: Run, inputs: seq<Input>, f: Frame, p: int)
    requires Inv(r.s) && Starts(r, inputs, f) && Later(r, inputs, KeyOf(f), p)
    ensures var d := RunTo(r, inputs, |inputs|).s.answers;
      && KeyOf(f) in d.vals && d.vals[KeyOf(f)].body == inputs[p].f.body
      && (inputs[p].f.body == f.body ==> d.vals[KeyOf(f)].result == Expired)
    ensures !Standing(r, inputs, KeyOf(f), 0, |inputs|)
  {
    hide RunTo, Inv, Noted, Addressed, Count;
    CachedExactly(r, inputs, KeyOf(f), |inputs|);
    assert Stands(r, inputs, KeyOf(f), p, |inputs|);
    LaterRefuses(r, inputs, f, p);
    if Standing(r, inputs, KeyOf(f), 0, |inputs|) { Overtaken(r, inputs, KeyOf(f), 0, p); }
  }

  lemma NothingStands(r: Run, inputs: seq<Input>, k: Key)
    requires Inv(r.s) && k !in r.s.answers.vals && Forgotten(r, inputs, k)
    ensures k !in RunTo(r, inputs, |inputs|).s.answers.vals
  {
    hide RunTo, Inv, Standing;
    CachedExactly(r, inputs, k, |inputs|);
  }

  lemma ForgottenIff(r: Run, inputs: seq<Input>, k: Key)
    ensures Forgotten(r, inputs, k) <==>
      !Standing(r, inputs, k, 0, |inputs|) && !exists p :: Later(r, inputs, k, p)
  {
    hide Standing;
    if !Forgotten(r, inputs, k) {
      var p :| Standing(r, inputs, k, p, |inputs|);
      StandingAt(r, inputs, k, p);
      assert p == 0 || Later(r, inputs, k, p);
    }
  }

  lemma StandingAt(r: Run, inputs: seq<Input>, k: Key, p: int)
    requires Standing(r, inputs, k, p, |inputs|)
    ensures 0 <= p < |inputs|
  {}

  /** Whether the acceptance itself stands is a matter of counting. */
  lemma First(r: Run, inputs: seq<Input>, f: Frame)
    requires Inv(r.s) && Starts(r, inputs, f)
    ensures Standing(r, inputs, KeyOf(f), 0, |inputs|) <==> Count(r, inputs, 1, |inputs|) < REMEMBERED
    ensures Noted(r.s, f) == Entry(f.body, Answer(r.s, f).1.result, Answer(r.s, f).1.state)
    ensures Answer(r.s, f).1.state == Stopped && Answer(r.s, f).1.result in {Applied, AlreadyStopped}
    ensures RunTo(r, inputs, 0) == r
  {
    hide Inv, Trim, Dict.SetLast, Count, Addressed;
    AnswerProps(r.s, f);
  }

  lemma LaterRefuses(r: Run, inputs: seq<Input>, f: Frame, p: nat)
    requires Inv(r.s) && Starts(r, inputs, f) && Later(r, inputs, KeyOf(f), p)
    ensures Noted(RunTo(r, inputs, p).s, inputs[p].f).result in {Unsupported, WrongTarget, Expired}
    ensures Noted(RunTo(r, inputs, p).s, inputs[p].f).body == inputs[p].f.body
    ensures inputs[p].f.body == f.body ==> Noted(RunTo(r, inputs, p).s, inputs[p].f).result == Expired
  {
    hide RunTo, Inv, Count, Addressed, Stale;
    SameKeyRemembered(r, inputs, f, p);
  }

  /** One key, one standing answer. */
  lemma OnlyOne(r: Run, inputs: seq<Input>, k: Key, p: int, q: int)
    requires Inv(r.s) && k !in r.s.answers.vals
    requires Standing(r, inputs, k, p, |inputs|) && Standing(r, inputs, k, q, |inputs|)
    ensures p == q
  {
    hide RunTo, Inv, Noted, Addressed;
    if p < q {
      Overtaken(r, inputs, k, p, q);
    } else if q < p {
      Overtaken(r, inputs, k, q, p);
    }
  }

  /** While an answer stands, no other for its key is remembered. */
  lemma Overtaken(r: Run, inputs: seq<Input>, k: Key, p: int, q: int)
    requires Inv(r.s) && k !in r.s.answers.vals && p < q
    requires Standing(r, inputs, k, p, |inputs|)
    ensures !Standing(r, inputs, k, q, |inputs|)
  {
    hide RunTo, Inv, Noted, Addressed;
    if 0 <= q < |inputs| {
      CountGrows(r, inputs, p + 1, q, |inputs|);
      CachedExactly(r, inputs, k, q);
      assert Standing(r, inputs, k, p, q);
    }
  }

  lemma {:induction false} CountGrows(r: Run, inputs: seq<Input>, p: nat, m: nat, n: nat)
    requires m <= n <= |inputs|
    ensures Count(r, inputs, p, m) <= Count(r, inputs, p, n)
    decreases n
  {
    hide RemembersAt;
    if m < n { CountGrows(r, inputs, p, m, n - 1); }
  }

  lemma LaterUnique(r: Run, inputs: seq<Input>, k: Key, p: int)
    requires Inv(r.s) && k !in r.s.answers.vals && Later(r, inputs, k, p)
    ensures forall q :: Later(r, inputs, k, q) ==> q == p
  {
    hide Standing, Inv;
    forall q | Later(r, inputs, k, q)
      ensures q == p
    {
      OnlyOne(r, inputs, k, p, q);
    }
  }

  // ---- a run that evicts --------------------------------------------------------------

  /** A request nobody else makes, with a body no receiver accepts. */
  function Stranger(i: u32): Frame { Frame(STOP_REQUEST, 2, i, 0, []) }

  /** `f`, then 64 strangers, then `more`. */
  function Evicting(f: Frame, more: seq<Input>): (r: seq<Input>)
    ensures |r| == 1 + REMEMBERED + |more|
    ensures r[0] == Request(f)
    ensures forall i :: 1 <= i <= REMEMBERED ==> r[i] == Request(Stranger(i))
    ensures forall i :: 0 <= i < |more| ==> r[1 + REMEMBERED + i] == more[i]
  {
    [Request(f)] + seq(REMEMBERED, i requires 0 <= i < REMEMBERED => Request(Stranger(i + 1))) + more
  }

  /** Each stranger is new when it comes, so its answer is remembered. */
  lemma StrangerRemembered(local: u32, ttl: nat, f: Frame, more: seq<Input>, i: nat)
    requires f.session == 1 && 1 <= i <= REMEMBERED
    ensures RemembersAt(Begin(local, ttl), Evicting(f, more), i)
  {
    hide Count, RunTo;
    var r, inputs := Begin(local, ttl), Evicting(f, more);
    RunInv(r, inputs, i);
    CachedExactly(r, inputs, KeyOf(Stranger(i)), i);
    forall p
      ensures !Standing(r, inputs, KeyOf(Stranger(i)), p, i)
    {
      if 0 < p < i { assert inputs[p] == Request(Stranger(p)); }
    }
  }

  lemma {:induction false} StrangersCount(local: u32, ttl: nat, f: Frame, more: seq<Input>, p: nat, n: nat)
    requires f.session == 1 && 1 <= p <= n <= 1 + REMEMBERED
    ensures Count(Begin(local, ttl), Evicting(f, more), p, n) == n - p
    decreases n
  {
    hide RemembersAt, RunTo;
    if p < n {
      StrangersCount(local, ttl, f, more, p, n - 1);
      StrangerRemembered(local, ttl, f, more, n - 1);
    }
  }

  /** After the strangers nothing is remembered for `f`. */
  lemma Evicted(local: u32, ttl: nat, f: Frame, more: seq<Input>, n: nat)
    requires f.session == 1 && Accepts(Begin(local, ttl).s, f) && n == 1 + REMEMBERED
    ensures forall p :: !Standing(Begin(local, ttl), Evicting(f, more), KeyOf(f), p, n)
  {
    hide RunTo, RemembersAt;
    var r, inputs := Begin(local, ttl), Evicting(f, more);
    StrangersCount(local, ttl, f, more, 1, n);
    forall p
      ensures !Standing(r, inputs, KeyOf(f), p, n)
    {
      if 0 < p <= REMEMBERED { assert inputs[p] == Request(Stranger(p)); }
    }
  }

  /** A STOP for this receiver. */
  function Stop(local: u32, id: u32, age: u16): Frame {
    Frame(STOP_REQUEST, 1, id, age, Be32(local) + [STOP_COMMAND, 0])
  }

  /**
   The documented answer to an evicted replay is STALE_ID. It is that at first, but
   an old replay is EXPIRED, and from then on so is a young one; and after a
   malformed request under the same key a young replay is an ID_CONFLICT.
   */
  lemma EvictedReplays(local: u32, ttl: nat, oldAge: u16)
    requires ttl < oldAge as int
    ensures var f, late, bad := Stop(local, 1, 0), Stop(local, 1, oldAge), Frame(STOP_REQUEST, 1, 1, 0, []);
      var r := Begin(local, ttl);
      && Answer(r.s, f).1.result == Applied
      && Answered(r, Evicting(f, []), f) == StaleId && Answered(r, Evicting(f, []), late) == Expired
      && Answered(r, Evicting(f, [Request(late)]), f) == Expired
      && Answered(r, Evicting(f, [Request(bad)]), f) == IdConflict
  {
    assert Accepts(Begin(local, ttl).s, Stop(local, 1, 0))
        && (forall age: u16 :: Addressed(Begin(local, ttl).s, Stop(local, 1, age).body)) by {
      var none: bytes := [];
      Be32RoundTrip(none, local, [STOP_COMMAND, 0]);
      assert none + Be32(local) + [STOP_COMMAND, 0] == Be32(local) + [STOP_COMMAND, 0];
    }
    hide RunTo, Answer, Standing, Accepts, Addressed, Evicting;
    var f, late, bad := Stop(local, 1, 0), Stop(local, 1, oldAge), Frame(STOP_REQUEST, 1, 1, 0, []);
    var r := Begin(local, ttl);
    AddressedShape(r.s, bad.body);
    AnswerProps(r.s, f);
    Evicted(local, ttl, f, [], 1 + REMEMBERED);
    Replay(r, Evicting(f, []), f, f);
    Replay(r, Evicting(f, []), f, late);
    AfterEviction(local, ttl, f, late);
    Replay(r, Evicting(f, [Request(late)]), f, f);
    AfterEviction(local, ttl, f, bad);
    Replay(r, Evicting(f, [Request(bad)]), f, f);
  }

  function Answered(r: Run, inputs: seq<Input>, g: Frame): Ack { Answer(RunTo(r, inputs, |inputs|).s, g).1.result }

  /** A badly addressed or old request of the same key is remembered after the eviction. */
  lemma AfterEviction(local: u32, ttl: nat, f: Frame, g: Frame)
    requires f.session == 1 && Accepts(Begin(local, ttl).s, f) && g.typ == STOP_REQUEST && KeyOf(g) == KeyOf(f)
    requires !(Addressed(Begin(local, ttl).s, g.body) && g.age as int <= ttl)
    ensures Later(Begin(local, ttl), Evicting(f, [Request(g)]), KeyOf(f), 1 + REMEMBERED)
    ensures Evicting(f, [Request(g)])[1 + REMEMBERED] == Request(g)
  {
    hide RunTo, RemembersAt, Addressed;
    var r, inputs := Begin(local, ttl), Evicting(f, [Request(g)]);
    Evicted(local, ttl, f, [Request(g)], 1 + REMEMBERED);
    SameKeyRemembered(r, inputs, f, 1 + REMEMBERED);
  }

  // ---- the object -----------------------------------------------------------------------

  class StopReceiver {
    const local: u32
    const ttl: nat
    var state: Mower
    var highWater: map<u32, u32>
    var answers: Dict<Key, Entry>
    var applyCount: nat

    constructor (local: u32, ttl: nat)
      ensures State() == Begin(local, ttl).s
    {
      this.local, this.ttl := local, ttl;
      state, highWater, answers, applyCount := Running, map[], Dict([], map[]), 0;
    }

    function State(): Cache
      reads this
    {
      Cache(local, ttl, state, highWater, answers, applyCount)
    }

    method RememberAnswer(f: Frame, result: Ack) returns (d: Decision)
      modifies this`answers
      ensures (State(), d) == Remember(old(State()), f, result)
    {
      answers := answers.SetLast(KeyOf(f), Entry(f.body, result, state));
      ghost var goal := Trim(answers);
      while |answers.order| > REMEMBERED
        invariant Trim(answers) == goal
        decreases |answers.order|
      {
        answers := Dict(answers.order[1..], answers.vals - {answers.order[0]});
      }
      d := Decision(result, state, false);
    }

    method ApplyRequest(f: Frame) returns (d: Option<Decision>)
      modifies this
      ensures (State(), d) == Apply(old(State()), f)
    {
      hide Trim, Remember;
      if f.typ != STOP_REQUEST {
        return None;
      }
      var key := KeyOf(f);
      var answer: Decision;
      if key in answers.vals {
        var e := answers.vals[key];
        var same := e.body == f.body;
        return Some(if same then Decision(e.result, e.state, false) else Decision(IdConflict, state, false));
      }
      if |f.body| != 6 {
        answer := RememberAnswer(f, Unsupported);
        return Some(answer);
      }
      if Get32(f.body, 0) != local {
        answer := RememberAnswer(f, WrongTarget);
        return Some(answer);
      }
      if f.body[4] != STOP_COMMAND {
        answer := RememberAnswer(f, Unsupported);
        return Some(answer);
      }
      if f.age as int > ttl {
        answer := RememberAnswer(f, Expired);
        return Some(answer);
      }
      if f.id <= HighWater(State(), f.session) {
        return Some(Decision(StaleId, state, false));
      }
      highWater := highWater[f.session := f.id];
      if state == Stopped {
        answer := RememberAnswer(f, AlreadyStopped);
        return Some(answer);
      }
      state := Stopped;
      applyCount := applyCount + 1;
      answer := RememberAnswer(f, Applied);
      return Some(answer.(appliedNow := true));
    }

    method ResetMockState()
      modifies this`state
      ensures State() == ResetMock(old(State()))
    {
      state := Running;
    }
  }
}
