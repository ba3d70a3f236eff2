/**
 Following the payloads that matter, the robot's fragments, from one list to the
 next: which of a later list come from an earlier one, and in what order.
 */
module Selection {
  import opened Bytes
  import opened Wrappers
  import opened EndToEnd

  predicate Matters(p: bytes) { Fragment(p).Some? }

  /** `at` names, for every payload that matters in `a`, its place in `b`. */
  ghost predicate Places(a: seq<bytes>, b: seq<bytes>, at: seq<nat>) {
    |at| == |a| && forall i :: 0 <= i < |a| && Matters(a[i]) ==> at[i] < |b| && b[at[i]] == a[i]
  }

  /** Later payloads have later places. */
  ghost predicate Rising(a: seq<bytes>, at: seq<nat>) {
    |at| == |a| && forall i, j :: 0 <= i < j < |a| && Matters(a[i]) && Matters(a[j]) ==> at[i] < at[j]
  }

  /** What matters in `a` is in `b`, in the same order and each at its own place. */
  ghost predicate Traces(a: seq<bytes>, b: seq<bytes>) { exists at :: Places(a, b, at) && Rising(a, at) }

  /** What matters in `a` is somewhere in `b`. */
  ghost predicate Among(a: seq<bytes>, b: seq<bytes>) { forall p <- a :: Matters(p) ==> p in b }

  lemma PlacesAmong(a: seq<bytes>, b: seq<bytes>, at: seq<nat>)
    requires Places(a, b, at)
    ensures Among(a, b)
  {}

  lemma AmongThrough(a: seq<bytes>, b: seq<bytes>, c: seq<bytes>)
    requires Among(a, b) && Among(b, c)
    ensures Among(a, c)
  {}

  lemma Traced(a: seq<bytes>, b: seq<bytes>, at: seq<nat>)
    requires Places(a, b, at) && Rising(a, at)
    ensures Traces(a, b)
  {}

  lemma TracesThrough(a: seq<bytes>, b: seq<bytes>, c: seq<bytes>)
    requires Traces(a, b) && Traces(b, c)
    ensures Traces(a, c)
  {
    hide Matters;
    var x :| Places(a, b, x) && Rising(a, x);
    var y :| Places(b, c, y) && Rising(b, y);
    var at := seq(|a|, i requires 0 <= i < |a| => if Matters(a[i]) then y[x[i]] else 0);
    assert Places(a, c, at) && Rising(a, at);
  }

  lemma TracesConcat(a: seq<bytes>, b: seq<bytes>, c: seq<bytes>, d: seq<bytes>)
    requires Traces(a, b) && Traces(c, d)
    ensures Traces(a + c, b + d)
  {
    hide Matters;
    var x :| Places(a, b, x) && Rising(a, x);
    var y :| Places(c, d, y) && Rising(c, y);
    var at := x + seq(|c|, i requires 0 <= i < |c| => |b| + y[i]);
    assert Places(a + c, b + d, at) && Rising(a + c, at);
  }

  lemma TracesSelf(a: seq<bytes>)
    ensures Traces(a, a)
  {
    var at := seq(|a|, i => i);
    assert Places(a, a, at) && Rising(a, at);
  }

  lemma TracesNone(b: seq<bytes>)
    ensures Traces([], b)
  {
    assert Places([], b, []) && Rising([], []);
  }

  lemma TracesMute(p: bytes)
    requires !Matters(p)
    ensures Traces([p], [])
  {
    assert Places([p], [], [0]) && Rising([p], [0]);
  }

  lemma TracesMore(a: seq<bytes>, b: seq<bytes>, c: seq<bytes>)
    requires Traces(a, b)
    ensures Traces(a, b + c)
  {
    TracesNone(c);
    TracesConcat(a, b, [], c);
    assert a + [] == a;
  }

  /** Leaving out a stretch. */
  lemma TracesGap(a: seq<bytes>, g: seq<bytes>, c: seq<bytes>, b: seq<bytes>)
    requires Traces(a + g + c, b)
    ensures Traces(a + c, b)
  {
    TracesSelf(a);
    TracesNone(g);
    TracesSelf(c);
    TracesConcat(a, a, [], g);
    TracesConcat(a + [], a + g, c, c);
    assert a + [] == a;
    TracesThrough(a + c, a + g + c, b);
  }

  lemma EmptyMatters()
    ensures !Matters([])
  {}

  lemma TracesAmong(a: seq<bytes>, b: seq<bytes>)
    requires Traces(a, b)
    ensures Among(a, b)
  {
    var at :| Places(a, b, at) && Rising(a, at);
    PlacesAmong(a, b, at);
  }
}
