/** An insertion-ordered dictionary, as Python's `dict` and `OrderedDict` behave. */
module OrderedDict {

  datatype Dict<K(==, !new), V> = Dict(order: seq<K>, vals: map<K, V>) {

    ghost predicate Valid() {
      && Distinct(order)
      && (forall k :: k in order <==> k in vals)
    }

    /** `d[k] = v`: a new key goes last, an old one keeps its place. */
    function Set(k: K, v: V): Dict<K, V> {
      Dict(if k in vals then order else order + [k], vals[k := v])
    }

    /** `d[k] = v; d.move_to_end(k)`. */
    function SetLast(k: K, v: V): Dict<K, V> {
      Dict(Without(order, k) + [k], vals[k := v])
    }

    /** `del d[k]`. */
    function Del(k: K): Dict<K, V> {
      Dict(Without(order, k), vals - {k})
    }

    lemma SetValid(k: K, v: V)
      requires Valid()
      ensures Set(k, v).Valid()
      ensures |Set(k, v).order| == if k in vals then |order| else |order| + 1
    {}

    lemma DelValid(k: K)
      requires Valid()
      ensures Del(k).Valid()
      ensures k in vals ==> |Del(k).order| == |order| - 1
      ensures k !in vals ==> Del(k) == this
    {
      WithoutProps(order, k);
      assert k !in vals ==> vals - {k} == vals;
    }

    lemma SetLastValid(k: K, v: V)
      requires Valid()
      ensures SetLast(k, v).Valid()
      ensures |SetLast(k, v).order| == if k in vals then |order| else |order| + 1
    {
      WithoutProps(order, k);
    }

    /** Deleting the first key drops the front of the order. */
    lemma DelFirst()
      requires Valid() && order != []
      ensures Del(order[0]).order == order[1..]
    {
      WithoutAbsent(order[1..], order[0]);
    }
  }

  ghost predicate Distinct<K>(s: seq<K>) {
    forall i, j :: 0 <= i < j < |s| ==> s[i] != s[j]
  }

  function Without<K(==)>(s: seq<K>, k: K): seq<K> {
    if s == [] then [] else (if s[0] == k then [] else [s[0]]) + Without(s[1..], k)
  }

  lemma {:induction false} WithoutProps<K>(s: seq<K>, k: K)
    requires Distinct(s)
    ensures Distinct(Without(s, k))
    ensures forall x <- s :: x in Without(s, k) <==> x != k
    ensures forall x <- Without(s, k) :: x in s && x != k
    ensures |Without(s, k)| == if k in s then |s| - 1 else |s|
    ensures k !in s ==> Without(s, k) == s
    decreases |s|
  {
    if s != [] {
      WithoutProps(s[1..], k);
      assert s == [s[0]] + s[1..];
      assert s[0] !in s[1..];
      var w := Without(s[1..], k);
      assert s[0] !in w;
      assert s[0] != k ==> Without(s, k) == [s[0]] + w;
      assert s[0] == k ==> Without(s, k) == w;
    }
  }

  lemma {:induction false} WithoutAbsent<K>(s: seq<K>, k: K)
    requires k !in s
    ensures Without(s, k) == s
    decreases |s|
  {
    if s != [] { WithoutAbsent(s[1..], k); }
  }

  /** What comes after `k`. */
  function After<K(==)>(s: seq<K>, k: K): seq<K> {
    if s == [] then [] else if s[0] == k then s[1..] else After(s[1..], k)
  }

  lemma {:induction false} AfterSuffix<K>(s: seq<K>, k: K)
    requires k in s
    ensures |After(s, k)| < |s| && s[|s| - |After(s, k)|..] == After(s, k)
    ensures Distinct(s) ==> Distinct(After(s, k)) && k !in After(s, k)
    ensures s[0] == k ==> |After(s, k)| == |s| - 1
    ensures s[0] != k ==> |After(s, k)| < |s| - 1
    decreases |s|
  {
    if s[0] != k {
      assert s == [s[0]] + s[1..];
      AfterSuffix(s[1..], k);
    }
  }

  lemma {:induction false} AfterAppend<K>(s: seq<K>, k: K, x: K)
    requires k in s
    ensures After(s + [x], k) == After(s, k) + [x]
    decreases |s|
  {
    if s[0] == k {
      assert (s + [x])[1..] == s[1..] + [x];
    } else {
      assert s == [s[0]] + s[1..];
      assert (s + [x])[1..] == s[1..] + [x];
      AfterAppend(s[1..], k, x);
    }
  }

  lemma {:induction false} AfterNew<K>(s: seq<K>, k: K)
    requires k !in s
    ensures |After(s + [k], k)| == 0
    decreases |s|
  {
    if s != [] {
      assert (s + [k])[1..] == s[1..] + [k];
      AfterNew(s[1..], k);
    }
  }

  lemma {:induction false} AfterWithout<K>(s: seq<K>, k: K, x: K)
    requires k in s && x != k
    ensures k in Without(s, x)
    ensures forall y <- After(Without(s, x), k) :: y in After(s, k)
    decreases |s|
  {
    assert s == [s[0]] + s[1..];
    if s[0] == k {
      var w := Without(s[1..], x);
      assert Without(s, x) == [k] + w && ([k] + w)[1..] == w;
      WithoutSubset(s[1..], x);
    } else {
      AfterWithout(s[1..], k, x);
      var w := Without(s[1..], x);
      if s[0] != x {
        assert Without(s, x) == [s[0]] + w && ([s[0]] + w)[1..] == w;
      } else {
        assert Without(s, x) == w;
      }
    }
  }

  lemma {:induction false} WithoutSubset<K>(s: seq<K>, x: K)
    ensures forall y <- Without(s, x) :: y in s
    decreases |s|
  {
    if s != [] {
      assert s == [s[0]] + s[1..];
      WithoutSubset(s[1..], x);
    }
  }

  /** Distinct members of a set are at most as many as the set has. */
  lemma {:induction false} DistinctBounded<K>(s: seq<K>, members: set<K>)
    requires Distinct(s) && forall x <- s :: x in members
    ensures |s| <= |members|
    decreases |s|
  {
    if s != [] {
      assert forall x <- s[1..] :: x in s;
      DistinctBounded(s[1..], members - {s[0]});
    }
  }
}
