/** What one fragment does: refused and why, collected, repeated, in conflict, or the last one missing. */
module Collecting {
  import opened Bytes
  import opened Wrappers
  import opened Application
  import opened OrderedDict
  import opened Reassembler
  import Rtcm

  /** The key is no longer collected, and refused until that time. */
  predicate Barred(t: State, k: Key, until: int) {
    k !in t.items.vals && k in t.blocked.vals && t.blocked.vals[k] == until
  }

  /** Only the key's own assembly has changed. */
  ghost predicate OthersKept(e: State, t: State, k: Key) { t.items.vals - {k} == e.items.vals - {k} }

  /** The last missing piece: the frame comes out if it is one, and the key is refused. */
  ghost predicate Completes(t: State, out: Outcome, k: Key, a: Assembly) {
    && Barred(t, k, a.started + 1000)
    && (forall i :: 0 <= i < a.meta.count ==> i in a.parts)
    && var raw := Joined(a.parts, a.meta.count);
      out == if |raw| == a.meta.total && Rtcm.Valid(raw) && Rtcm.MessageType(raw) == a.meta.rtcmType
             then Complete(raw) else Rejected(BadAssembly)
  }

  /** Why a fragment is not collected, once what is late has been expired. */
  function Refusal(e: State, f: Frame): Option<ApplicationError> {
    if f.typ != 0x30 || |f.body| < 6 then Some(ApplicationError.FragmentBody)
    else if f.age >= 1000 then Some(StaleFragment)
    else if !WellShaped(f.body) then Some(FragmentShape)
    else if KeyOf(f) in e.blocked.vals then Some(KeyBlocked)
    else None
  }

  /** What a fragment of an assembly under way does to it. */
  ghost predicate Continues(e: State, t: State, out: Outcome, k: Key, m: Meta, i: nat, data: bytes)
    requires k in e.items.vals
  {
    var a := e.items.vals[k];
    var a' := a.(parts := a.parts[i := data]);
    && OthersKept(e, t, k)
    && if m != a.meta then out == Rejected(MetadataConflict) && Barred(t, k, a.started + 1000)
       else if i in a.parts && a.parts[i] != data then out == Rejected(DataConflict) && Barred(t, k, a.started + 1000)
       else if i in a.parts then out == Nothing && t.items == e.items && t.blocked == e.blocked
       else if |a.parts| + 1 < m.count then
         out == Nothing && t.items == e.items.Set(k, a') && t.blocked == e.blocked
       else Completes(t, out, k, a')
  }

  /** What the first fragment of an assembly does: it starts one, in the place of the oldest if eight are held. */
  ghost predicate Starts(e: State, t: State, out: Outcome, k: Key, m: Meta, i: nat, data: bytes, now: int) {
    var full := |e.items.order| == 8;
    var a := Assembly(now, m, map[i := data]);
    && (full ==> e.items.order[0] in e.items.vals)
    && var stay := if full then e.items.vals - {e.items.order[0]} else e.items.vals;
      && if m.count > 1 then
           && out == Nothing && t.items.vals == stay[k := a]
           && (if full then Barred(t, e.items.order[0], e.items.vals[e.items.order[0]].started + 1000)
               else t.blocked == e.blocked)
         else t.items.vals == stay && Completes(t, out, k, a)
  }

  /** What one add does, whatever the fragment. */
  ghost predicate Does(e: State, f: Frame, now: int, t: State, out: Outcome) {
    match Refusal(e, f)
    case Some(error) => t == e && out == Rejected(error)
    case None =>
      && |f.body| >= 6
      && var k, m, i, data := KeyOf(f), MetaIn(f.body), f.body[4] as int, f.body[6..];
        if k in e.items.vals then Continues(e, t, out, k, m, i, data)
        else Starts(e, t, out, k, m, i, data, now)
  }

  /** Every add, at every state: exactly this. */
  lemma AddsExactly(s: State, f: Frame, now: int)
    requires Inv(s)
    ensures var (t, out) := Add(s, f, now); Does(Expire(s, now), f, now, t, out)
  {
    hide Expire, Inv, Open, Store, Continues, Starts;
    ExpireProps(s, now);
    var e := Expire(s, now);
    if Refusal(e, f) == None {
      var k, m, i, data := KeyOf(f), MetaIn(f.body), f.body[4] as int, f.body[6..];
      Shape(f.body);
      if k in e.items.vals {
        Held(e, k, m, i, data, now);
      } else {
        Newly(e, k, m, i, data, now);
      }
    }
  }

  lemma Shape(b: bytes)
    requires WellShaped(b)
    ensures var m := MetaIn(b);
      && 0 < m.total <= Rtcm.MAX_FRAME && m.count == Pieces(m.total)
      && b[4] as int < m.count && |b[6..]| == PieceLength(m.total, b[4] as int)
  {}

  lemma Held(e: State, k: Key, m: Meta, i: nat, data: bytes, now: int)
    requires Inv(e) && k in e.items.vals && i < m.count && |data| == PieceLength(m.total, i)
    ensures var (t, out) := Store(Open(e, k, m, now), k, m, i, data); Continues(e, t, out, k, m, i, data)
  {
    StoresExactly(e, k, m, i, data);
  }

  lemma StoresExactly(e: State, k: Key, m: Meta, i: nat, data: bytes)
    requires Inv(e) && k in e.items.vals && i < m.count && |data| == PieceLength(m.total, i)
    ensures var (t, out) := Store(e, k, m, i, data); Continues(e, t, out, k, m, i, data)
  {
    hide Retire, Inv, Joined, Rtcm.Valid, Rtcm.MessageType, PieceLength, Completes, Finish;
    var a := e.items.vals[k];
    Bounded(e, k);
    RetiresExactly(e, k);
    if a.meta == m && i !in a.parts {
      var a' := a.(parts := a.parts[i := data]);
      var u := e.(items := e.items.Set(k, a'));
      FullParts(a'.parts, m.count);
      assert |a'.parts| == |a.parts| + 1;
      Replacing(e, k, a');
      if |a'.parts| == m.count { FinishesExactly(e, u, k, a'); }
    }
  }

  lemma Replacing(e: State, k: Key, a: Assembly)
    requires k in e.items.vals
    ensures var u := e.(items := e.items.Set(k, a)); OthersKept(e, u, k)
  {}

  lemma RetiresExactly(e: State, k: Key)
    requires Inv(e) && k in e.items.vals
    ensures Barred(Retire(e, k), k, e.items.vals[k].started + 1000) && OthersKept(e, Retire(e, k), k)
  {
    hide Retire, Sound, Unfinished;
    RetireProps(e, k);
  }

  lemma FinishesExactly(e: State, u: State, k: Key, a: Assembly)
    requires Inv(e) && k in e.items.vals && u == e.(items := e.items.Set(k, a))
    requires forall i :: 0 <= i < a.meta.count ==> i in a.parts
    ensures var (t, out) := Finish(u, k); Completes(t, out, k, a) && OthersKept(e, t, k)
  {
    hide Retire, Sound, Unfinished, Joined, Rtcm.Valid, Rtcm.MessageType;
    e.items.SetValid(k, a);
    RetireProps(u, k);
  }

  lemma Bounded(e: State, k: Key)
    requires Inv(e) && k in e.items.vals
    ensures forall i <- e.items.vals[k].parts.Keys :: i < e.items.vals[k].meta.count
    ensures |e.items.vals[k].parts| < e.items.vals[k].meta.count
  {}

  lemma Newly(e: State, k: Key, m: Meta, i: nat, data: bytes, now: int)
    requires Inv(e) && k !in e.items.vals && k !in e.blocked.vals
    requires 0 < m.total <= Rtcm.MAX_FRAME && m.count == Pieces(m.total)
    requires i < m.count && |data| == PieceLength(m.total, i)
    ensures var (t, out) := Store(Open(e, k, m, now), k, m, i, data); Starts(e, t, out, k, m, i, data, now)
  {
    hide Inv, Store, Open, Continues, Joined, Rtcm.Valid, Rtcm.MessageType, PieceLength, Pieces;
    OpenInv(e, k, m, now);
    var o := Open(e, k, m, now);
    StoresExactly(o, k, m, i, data);
    Opened(e, k, m, now);
    var (t, out) := Store(o, k, m, i, data);
    FirstPart(e, o, t, out, k, m, i, data, now);
  }

  /** Room is made, and an empty assembly starts. */
  predicate Fresh(e: State, o: State, k: Key, m: Meta, now: int) {
    if |e.items.order| == 8 then
      && e.items.order[0] in e.items.vals && e.items.order[0] != k
      && o.items.vals == (e.items.vals - {e.items.order[0]})[k := Assembly(now, m, map[])]
      && Barred(o, e.items.order[0], e.items.vals[e.items.order[0]].started + 1000)
    else o.items.vals == e.items.vals[k := Assembly(now, m, map[])] && o.blocked == e.blocked
  }

  lemma Opened(e: State, k: Key, m: Meta, now: int)
    requires Inv(e) && k !in e.items.vals
    ensures Fresh(e, Open(e, k, m, now), k, m, now)
  {
    hide Retire, Sound, Unfinished;
    if |e.items.order| == 8 { RetireProps(e, e.items.order[0]); }
  }

  lemma Added<K, V>(e: map<K, V>, k: K, v: V)
    requires k !in e
    ensures e[k := v] - {k} == e
  {}

  lemma Replaced<K, V>(e: map<K, V>, k: K, v: V, u: V)
    ensures e[k := v][k := u] == e[k := u]
  {}

  lemma Absent<K, V>(e: map<K, V>, k: K)
    requires k !in e
    ensures e - {k} == e
  {}

  /** What is held beside the new assembly. */
  function Stay(e: State): map<Key, Assembly>
    requires |e.items.order| == 8 ==> e.items.order[0] in e.items.vals
  {
    if |e.items.order| == 8 then e.items.vals - {e.items.order[0]} else e.items.vals
  }

  lemma FirstPart(
    e: State, o: State, t: State, out: Outcome, k: Key, m: Meta, i: nat, data: bytes, now: int)
    requires k !in e.items.vals && Fresh(e, o, k, m, now) && k in o.items.vals && i < m.count
    requires Continues(o, t, out, k, m, i, data)
    ensures Starts(e, t, out, k, m, i, data, now)
  {
    hide Completes, Continues, Dict.Set;
    var empty, a := Assembly(now, m, map[]), Assembly(now, m, map[i := data]);
    OnEmpty(o, t, out, k, m, i, data, now);
    var stay := Stay(e);
    assert o.items.vals == stay[k := empty];
    Added(stay, k, empty);
    Replaced(stay, k, empty, a);
    if m.count == 1 {
      NotHeld(t, out, k, a);
      Absent(t.items.vals, k);
    }
  }

  lemma OnEmpty(o: State, t: State, out: Outcome, k: Key, m: Meta, i: nat, data: bytes, now: int)
    requires k in o.items.vals && o.items.vals[k] == Assembly(now, m, map[]) && i < m.count
    requires Continues(o, t, out, k, m, i, data)
    ensures var a := Assembly(now, m, map[i := data]);
      if m.count > 1 then out == Nothing && t.items.vals == o.items.vals[k := a] && t.blocked == o.blocked
      else Completes(t, out, k, a) && t.items.vals - {k} == o.items.vals - {k}
  {
    hide Completes;
    var none: map<nat, bytes> := map[];
    assert none[i := data] == map[i := data];
  }

  lemma NotHeld(t: State, out: Outcome, k: Key, a: Assembly)
    requires Completes(t, out, k, a)
    ensures k !in t.items.vals
  {
    hide Joined, Rtcm.Valid, Rtcm.MessageType;
  }
}
