/** The firmware's six-slot output ring: responses are kept, received-packet events may be sacrificed. */
module Ring {
  import opened Bytes
  import opened UsbProtocol
  import opened Envelope
  import Seqs

  const SLOTS: nat := 6

  datatype Entry = Entry(frame: Frame, event: bool)

  // ---- the queue the ring stands for -----------------------------------------

  /** Offset of the oldest event, or the length if there is none. */
  function OldestEvent(q: seq<Entry>): (k: nat)
    ensures k <= |q| && (k < |q| ==> q[k].event)
    ensures forall i :: 0 <= i < k ==> !q[i].event
  {
    if q == [] || q[0].event then 0 else 1 + OldestEvent(q[1..])
  }

  datatype Fate = Stored | StoredEvicting | Refused

  function PutFate(q: seq<Entry>, event: bool): Fate {
    if |q| < SLOTS then Stored
    else if event || OldestEvent(q) == |q| then Refused
    else StoredEvicting
  }

  function Put(q: seq<Entry>, e: Entry): (r: seq<Entry>)
    ensures |q| <= SLOTS ==> |r| <= SLOTS
  {
    match PutFate(q, e.event)
    case Refused => q
    case Stored => q + [e]
    case StoredEvicting =>
      var k := OldestEvent(q);
      q[..k] + q[k + 1..] + [e]
  }

  function Responses(q: seq<Entry>): seq<Frame> {
    if q == [] then [] else (if q[0].event then [] else [q[0].frame]) + Responses(q[1..])
  }

  function Events(q: seq<Entry>): seq<Frame> {
    if q == [] then [] else (if q[0].event then [q[0].frame] else []) + Events(q[1..])
  }

  lemma {:induction false} SplitKinds(a: seq<Entry>, b: seq<Entry>)
    ensures Responses(a + b) == Responses(a) + Responses(b)
    ensures Events(a + b) == Events(a) + Events(b)
    decreases |a|
  {
    if |a| == 0 {
      assert a + b == b;
    } else {
      assert (a + b)[1..] == a[1..] + b && (a + b)[0] == a[0];
      SplitKinds(a[1..], b);
      hide Responses, Events;
      var r: seq<Frame> := if a[0].event then [] else [a[0].frame];
      var v: seq<Frame> := if a[0].event then [a[0].frame] else [];
      KindsStep(a);
      KindsStep(a + b);
      Seqs.Assoc(r, Responses(a[1..]), Responses(b));
      Seqs.Assoc(v, Events(a[1..]), Events(b));
    }
  }

  lemma KindsStep(q: seq<Entry>)
    requires |q| > 0
    ensures Responses(q) == (if q[0].event then [] else [q[0].frame]) + Responses(q[1..])
    ensures Events(q) == (if q[0].event then [q[0].frame] else []) + Events(q[1..])
  {}

  lemma OneKind(e: Entry)
    ensures Responses([e]) == if e.event then [] else [e.frame]
    ensures Events([e]) == if e.event then [e.frame] else []
  {
    assert [e][1..] == [];
  }

  lemma {:induction false} NoEvents(q: seq<Entry>)
    requires forall i :: 0 <= i < |q| ==> !q[i].event
    ensures |Events(q)| == 0 && |Responses(q)| == |q|
    decreases |q|
  {
    if q != [] { NoEvents(q[1..]); }
  }

  /**
   No response already queued is lost or reordered, whatever is put; a new
   response is refused only behind six others; and a full queue gives up its
   oldest event only, to a response.
   */
  lemma PutKinds(q: seq<Entry>, e: Entry)
    requires |q| <= SLOTS
    ensures !e.event ==>
      Responses(Put(q, e)) == if |Responses(q)| == SLOTS then Responses(q) else Responses(q) + [e.frame]
    ensures !e.event ==>
      Events(Put(q, e)) == if |q| == SLOTS && |Events(q)| > 0 then Events(q)[1..] else Events(q)
    ensures e.event ==> Responses(Put(q, e)) == Responses(q)
    ensures e.event ==> Events(Put(q, e)) == if |q| < SLOTS then Events(q) + [e.frame] else Events(q)
    ensures |q| == |Responses(q)| + |Events(q)|
    ensures PutFate(q, e.event) ==
      if |q| < SLOTS then Stored else if e.event || |Events(q)| == 0 then Refused else StoredEvicting
  {
    hide Responses, Events, OldestEvent;
    KindsCount(q);
    OneKind(e);
    SplitKinds(q, [e]);
    var k := OldestEvent(q);
    if k < |q| {
      DropOldest(q);
      SplitKinds(q[..k] + q[k + 1..], [e]);
    } else {
      NoEvents(q);
    }
  }

  /** Taking the oldest event out leaves the responses alone. */
  lemma DropOldest(q: seq<Entry>)
    requires OldestEvent(q) < |q|
    ensures var k := OldestEvent(q);
      && Responses(q[..k] + q[k + 1..]) == Responses(q)
      && |Events(q)| > 0 && Events(q[..k] + q[k + 1..]) == Events(q)[1..]
  {
    hide Responses, Events;
    var k := OldestEvent(q);
    assert q == q[..k] + ([q[k]] + q[k + 1..]);
    DropEvent(q[..k], q[k], q[k + 1..]);
  }

  lemma DropEvent(a: seq<Entry>, e: Entry, b: seq<Entry>)
    requires e.event && forall i :: 0 <= i < |a| ==> !a[i].event
    ensures Responses(a + b) == Responses(a + ([e] + b))
    ensures |Events(a + ([e] + b))| > 0 && Events(a + b) == Events(a + ([e] + b))[1..]
  {
    hide Responses, Events;
    NoEvents(a);
    SplitKinds(a, [e] + b);
    SplitKinds([e], b);
    OneKind(e);
    SplitKinds(a, b);
    var r := Responses(a);
    var s := Responses(b);
    var v := Events(a);
    var w := Events(b);
    assert r + ([] + s) == r + s && v + w == w && (v + ([e.frame] + w))[1..] == w;
  }

  lemma {:induction false} KindsCount(q: seq<Entry>)
    ensures |q| == |Responses(q)| + |Events(q)|
    decreases |q|
  {
    if q != [] { KindsCount(q[1..]); }
  }

  // ---- the ring ---------------------------------------------------------------

  /** The `n` entries from slot `h` on, around the end. */
  function View(a: seq<Entry>, h: nat, n: nat): (c: seq<Entry>)
    requires |a| == SLOTS
    ensures |c| == n
    ensures forall i :: 0 <= i < n ==> c[i] == a[(h + i) % SLOTS]
  {
    if n == 0 then [] else View(a, h, n - 1) + [a[(h + n - 1) % SLOTS]]
  }

  lemma SlotsDiffer(h: nat, i: nat, j: nat)
    requires i < SLOTS && j < SLOTS
    ensures (h + i) % SLOTS == (h + j) % SLOTS <==> i == j
  {}

  /** Writing one slot writes one position of the view. */
  lemma ViewSet(a: seq<Entry>, h: nat, n: nat, i: nat, e: Entry)
    requires |a| == SLOTS && i < SLOTS && n <= SLOTS
    ensures View(a[(h + i) % SLOTS := e], h, n) == if i < n then View(a, h, n)[i := e] else View(a, h, n)
  {
    hide View;
    forall j | 0 <= j < n
      ensures View(a[(h + i) % SLOTS := e], h, n)[j] == if i == j then e else View(a, h, n)[j]
    {
      SlotsDiffer(h, i, j);
    }
  }

  /** Advancing the head drops the oldest entry. */
  lemma ViewPop(a: seq<Entry>, h: nat, n: nat)
    requires |a| == SLOTS && h < SLOTS && 0 < n <= SLOTS
    ensures View(a, h, n)[0] == a[h] && View(a, (h + 1) % SLOTS, n - 1) == View(a, h, n)[1..]
  {
    hide View;
    forall j | 0 <= j < n - 1
      ensures View(a, (h + 1) % SLOTS, n - 1)[j] == View(a, h, n)[1..][j]
    {
      assert ((h + 1) % SLOTS + j) % SLOTS == (h + (j + 1)) % SLOTS;
    }
  }

  /** `q` with the entries after `gap` moved forward, up to offset `k`. */
  function Gapped(q: seq<Entry>, gap: nat, k: nat): (s: seq<Entry>)
    requires gap <= k < |q|
    ensures |s| == |q|
  {
    q[..gap] + q[gap + 1..k + 1] + q[k..]
  }

  lemma GapStart(q: seq<Entry>, gap: nat)
    requires gap < |q|
    ensures Gapped(q, gap, gap) == q
  {}

  lemma GapStep(q: seq<Entry>, gap: nat, k: nat)
    requires gap <= k && k + 1 < |q|
    ensures Gapped(q, gap, k)[k := Gapped(q, gap, k)[k + 1]] == Gapped(q, gap, k + 1)
  {}

  lemma GapEnd(q: seq<Entry>, gap: nat)
    requires gap < |q|
    ensures Gapped(q, gap, |q| - 1)[..|q| - 1] == q[..gap] + q[gap + 1..]
  {}

  lemma OldestIs(q: seq<Entry>, k: nat)
    requires k <= |q| && (forall i :: 0 <= i < k ==> !q[i].event) && (k < |q| ==> q[k].event)
    ensures OldestEvent(q) == k
  {}

  class OutputRing {
    const q: array<Entry>
    var qh: nat
    var qt: nat
    var qn: nat

    ghost predicate Valid()
      reads this
    {
      q.Length == SLOTS && qh < SLOTS && qn <= SLOTS && qt == (qh + qn) % SLOTS
    }

    constructor (blank: Entry)
      ensures Valid() && qn == 0 && fresh(q)
    {
      q := new Entry[SLOTS](i => blank);
      qh, qt, qn := 0, 0, 0;
    }

    ghost function Contents(): (c: seq<Entry>)
      reads this, q
      requires Valid()
      ensures |c| == qn
    {
      View(q[..], qh, qn)
    }

    method Slot(i: nat) returns (e: Entry)
      requires Valid() && i < qn
      ensures e == Contents()[i]
    {
      e := q[(qh + i) % SLOTS];
    }

    method SetSlot(i: nat, e: Entry)
      requires Valid() && i < qn
      modifies q
      ensures Contents() == old(Contents())[i := e]
    {
      hide View;
      ghost var a := q[..];
      ViewSet(a, qh, qn, i, e);
      q[(qh + i) % SLOTS] := e;
      assert q[..] == a[(qh + i) % SLOTS := e];
    }

    /** Shift everything behind `gap` one slot forward; the last slot keeps its old entry. */
    method CloseGap(gap: nat)
      requires Valid() && gap < qn
      modifies q
      ensures Contents()[..qn - 1] == old(Contents())[..gap] + old(Contents())[gap + 1..]
    {
      hide Contents, Gapped;
      ghost var before := Contents();
      var offset := gap;
      GapStart(before, gap);
      while offset + 1 < qn
        invariant gap <= offset < qn
        invariant Contents() == Gapped(before, gap, offset)
      {
        GapStep(before, gap, offset);
        var next := Slot(offset + 1);
        SetSlot(offset, next);
        offset := offset + 1;
      }
      GapEnd(before, gap);
    }

    /** Forget the newest entry. */
    method Shrink()
      requires Valid() && qn > 0
      modifies this`qt, this`qn
      ensures Valid() && qn == old(qn) - 1 && Contents() == old(Contents())[..qn]
    {
      hide View;
      ViewShrink(q[..], qh, qn);
      SlotBefore(qh, qn);
      qt := (qt + SLOTS - 1) % SLOTS;
      qn := qn - 1;
    }

    method Append(e: Entry)
      requires Valid() && qn < SLOTS
      modifies this`qt, this`qn, q
      ensures Valid() && qn == old(qn) + 1 && Contents() == old(Contents()) + [e]
    {
      hide View;
      ghost var a := q[..];
      ViewSet(a, qh, qn, qn, e);
      ViewGrow(a[qt := e], qh, qn);
      q[qt] := e;
      assert q[..] == a[qt := e];
      qt := (qt + 1) % SLOTS;
      qn := qn + 1;
    }

    /** Append, at the price of the oldest event if a response finds the ring full. */
    method PutQ(e: Entry) returns (fate: Fate)
      requires Valid()
      modifies this`qt, this`qn, q
      ensures Valid()
      ensures fate == PutFate(old(Contents()), e.event)
      ensures Contents() == Put(old(Contents()), e)
    {
      hide Contents, OldestEvent;
      fate := Stored;
      if qn == SLOTS {
        if e.event {
          return Refused;
        }
        var eventOffset := FindEvent();
        if eventOffset == SLOTS {
          return Refused;
        }
        CloseGap(eventOffset);
        Shrink();
        fate := StoredEvicting;
      }
      Append(e);
    }

    /** The scan for the first event. */
    method FindEvent() returns (k: nat)
      requires Valid()
      ensures k == OldestEvent(Contents())
    {
      k := 0;
      while k < qn && !q[(qh + k) % SLOTS].event
        invariant k <= qn
        invariant forall i :: 0 <= i < k ==> !Contents()[i].event
      {
        k := k + 1;
      }
      OldestIs(Contents(), k);
    }

    /** Take the oldest entry, which the caller writes or loses. */
    method Pop() returns (e: Entry)
      requires Valid() && qn > 0
      modifies this`qh, this`qn
      ensures Valid()
      ensures e == old(Contents())[0] && Contents() == old(Contents())[1..]
    {
      hide View;
      ViewPop(q[..], qh, qn);
      e := q[qh];
      qh := (qh + 1) % SLOTS;
      qn := qn - 1;
    }
  }

  lemma SlotBefore(h: nat, n: nat)
    requires n > 0
    ensures ((h + n) % SLOTS + SLOTS - 1) % SLOTS == (h + (n - 1)) % SLOTS
  {}

  lemma ViewShrink(a: seq<Entry>, h: nat, n: nat)
    requires |a| == SLOTS && n > 0
    ensures View(a, h, n)[..n - 1] == View(a, h, n - 1)
  {}

  lemma ViewGrow(a: seq<Entry>, h: nat, n: nat)
    requires |a| == SLOTS
    ensures View(a, h, n + 1) == View(a, h, n) + [a[(h + n) % SLOTS]]
  {}
}
