/** Polynomials over the field of two elements, as bits with the highest power first, and division with remainder. */
module Polynomials {

  type bits = seq<bool>

  function Zeros(n: nat): (r: bits)
    ensures |r| == n && forall i :: 0 <= i < n ==> !r[i]
  {
    seq(n, _ => false)
  }

  function Ones(n: nat): (r: bits)
    ensures |r| == n && forall i :: 0 <= i < n ==> r[i]
  {
    seq(n, _ => true)
  }

  /** The sum. */
  function Xor(a: bits, b: bits): (r: bits)
    requires |a| == |b|
    ensures |r| == |a| && forall i :: 0 <= i < |r| ==> r[i] == (a[i] != b[i])
  {
    seq(|a|, i requires 0 <= i < |a| => a[i] != b[i])
  }

  /** `g` or nothing. */
  function Scale(t: bool, g: bits): (r: bits)
    ensures |r| == |g| && forall i :: 0 <= i < |r| ==> r[i] == (t && g[i])
  {
    if t then g else Zeros(|g|)
  }

  /** The product: the sum of `g` shifted to every power in `q`. */
  function Product(q: bits, g: bits): (r: bits)
    requires g != []
    ensures |r| == |q| + |g| - 1
    decreases |q|
  {
    if q == [] then Zeros(|g| - 1)
    else Xor(Scale(q[0], g) + Zeros(|q| - 1), [false] + Product(q[1..], g))
  }

  /** `g` divides `w`. */
  ghost predicate Multiple(w: bits, g: bits)
    requires g != []
  {
    exists q :: |q| + |g| == |w| + 1 && Product(q, g) == w
  }

  /** One more coefficient at the low end. */
  lemma {:induction false} ProductAppend(q: bits, t: bool, g: bits)
    requires g != []
    ensures Product(q + [t], g) == Xor(Product(q, g) + [false], Zeros(|q|) + Scale(t, g))
    decreases |q|
  {
    hide Scale;
    if |q| == 0 {
      ProductOne(q, t, g);
    } else {
      assert (q + [t])[0] == q[0] && (q + [t])[1..] == q[1..] + [t];
      ProductAppend(q[1..], t, g);
      var a, p, s := Scale(q[0], g), Product(q[1..], g), Scale(t, g);
      hide Product;
      ProductStep(q, g);
      ProductStep(q + [t], g);
      Rearranged(a, p, s, |q| - 1);
    }
  }

  lemma ProductStep(q: bits, g: bits)
    requires g != [] && q != []
    ensures Product(q, g) == Xor(Scale(q[0], g) + Zeros(|q| - 1), [false] + Product(q[1..], g))
  {}

  lemma ProductOne(q: bits, t: bool, g: bits)
    requires g != [] && |q| == 0
    ensures Product(q + [t], g) == Xor(Product(q, g) + [false], Zeros(|q|) + Scale(t, g))
  {
    var one := q + [t];
    assert |one| == 1 && one[0] == t && one[1..] == q;
    ProductStep(one, g);
    assert Product(q, g) == Zeros(|g| - 1);
    hide Product, Scale;
    var l := Xor(Scale(t, g) + Zeros(0), [false] + Product(q, g));
    var r := Xor(Product(q, g) + [false], Zeros(0) + Scale(t, g));
    forall i | 0 <= i < |l|
      ensures l[i] == r[i]
    {}
  }

  lemma Rearranged(a: bits, p: bits, s: bits, n: nat)
    requires |a| == |s| && |p| == n + |a| - 1 && |a| > 0
    ensures Xor(a + Zeros(n + 1), [false] + Xor(p + [false], Zeros(n) + s))
         == Xor(Xor(a + Zeros(n), [false] + p) + [false], Zeros(n + 1) + s)
  {
    var l := Xor(a + Zeros(n + 1), [false] + Xor(p + [false], Zeros(n) + s));
    var r := Xor(Xor(a + Zeros(n), [false] + p) + [false], Zeros(n + 1) + s);
    forall i | 0 <= i < |l|
      ensures l[i] == r[i]
    {
      var behind := Xor(p + [false], Zeros(n) + s);
      assert ([false] + behind)[i] == if i == 0 then false else behind[i - 1];
      assert (Zeros(n + 1) + s)[i] == if i == 0 then false else (Zeros(n) + s)[i - 1];
    }
  }

  // ---- the register of a serial division ----------------------------------------------------

  /** One bit shifted through the register of a division by `g`, whose highest coefficient is one. */
  function Shifted(g: bits, r: bits, b: bool): (t: bits)
    requires |g| == |r| + 1 && |r| > 0
    ensures |t| == |r|
  {
    Xor(r[1..] + [false], Scale(r[0] != b, g[1..]))
  }

  function Serial(g: bits, r: bits, w: bits): (t: bits)
    requires |g| == |r| + 1 && |r| > 0
    ensures |t| == |r|
    decreases |w|
  {
    if w == [] then r else Shifted(g, Serial(g, r, w[..|w| - 1]), w[|w| - 1])
  }

  lemma {:induction false} SerialConcat(g: bits, r: bits, v: bits, w: bits)
    requires |g| == |r| + 1 && |r| > 0
    ensures Serial(g, r, v + w) == Serial(g, Serial(g, r, v), w)
    decreases |w|
  {
    hide Shifted;
    if w == [] {
      assert v + w == v;
    } else {
      var n := |w| - 1;
      assert (v + w)[..|v + w| - 1] == v + w[..n];
      SerialConcat(g, r, v, w[..n]);
    }
  }

  /** The message `w` with `s` in the low places, the register's first content `r` added in the high ones. */
  function Codeword(r: bits, w: bits, s: bits): (c: bits)
    requires |r| == |s|
    ensures |c| == |w| + |r|
  {
    Xor(w + s, r + Zeros(|w|))
  }

  lemma NothingYet(g: bits, r: bits)
    requires |g| == |r| + 1
    ensures Product([], g) == Codeword(r, [], r)
  {
    var c := Codeword(r, [], r);
    assert forall i :: 0 <= i < |c| ==> !c[i];
  }

  /** After the division message and register together are a multiple of the divisor. */
  lemma {:induction false} SerialDivides(g: bits, r: bits, w: bits) returns (q: bits)
    requires |g| == |r| + 1 && |r| > 0 && g[0]
    ensures |q| == |w| && Product(q, g) == Codeword(r, w, Serial(g, r, w))
    decreases |w|
  {
    hide Product, Shifted, Codeword;
    if w == [] {
      q := [];
      NothingYet(g, r);
    } else {
      var n := |w| - 1;
      var b, s := w[n], Serial(g, r, w[..n]);
      var p := SerialDivides(g, r, w[..n]);
      var t := s[0] != b;
      q := p + [t];
      ProductAppend(p, t, g);
      assert w[..n] + [b] == w;
      OneMoreBit(g, r, w[..n], b, s);
    }
  }

  lemma OneMoreBit(g: bits, r: bits, v: bits, b: bool, s: bits)
    requires |g| == |r| + 1 == |s| + 1 && |r| > 0 && g[0]
    ensures Xor(Codeword(r, v, s) + [false], Zeros(|v|) + Scale(s[0] != b, g)) == Codeword(r, v + [b], Shifted(g, s, b))
  {
    hide Scale;
    var t := s[0] != b;
    var l := Xor(Codeword(r, v, s) + [false], Zeros(|v|) + Scale(t, g));
    var c := Codeword(r, v + [b], Shifted(g, s, b));
    forall i | 0 <= i < |l|
      ensures l[i] == c[i]
    {
      if i > |v| { assert (Zeros(|v|) + Scale(t, g))[i] == Scale(t, g[1..])[i - |v| - 1]; }
      assert i < |c| - 1 ==> (r + Zeros(|v|))[i] == (r + Zeros(|v| + 1))[i];
    }
  }

  // ---- the remainder is unique -----------------------------------------------------------------

  lemma ProductTop(q: bits, g: bits)
    requires g != [] && q != []
    ensures Product(q, g)[0] == (q[0] && g[0])
  {
    ProductStep(q, g);
    hide Product;
  }

  /** The other coefficients of the product. */
  lemma ProductAt(q: bits, g: bits, i: nat)
    requires g != [] && q != [] && i < |Product(q[1..], g)|
    ensures Product(q, g)[i + 1] == ((q[0] && i + 1 < |g| && g[i + 1]) != Product(q[1..], g)[i])
  {
    ProductStep(q, g);
    var p := Product(q[1..], g);
    hide Product;
    assert ([false] + p)[i + 1] == p[i];
    assert (Scale(q[0], g) + Zeros(|q| - 1))[i + 1] == (q[0] && i + 1 < |g| && g[i + 1]);
  }

  /** Multiples of a divisor with leading one that agree above its degree are the same. */
  lemma {:induction false} OneMultiple(p: bits, q: bits, g: bits)
    requires g != [] && g[0] && |p| == |q| && forall i :: 0 <= i < |p| ==> Product(p, g)[i] == Product(q, g)[i]
    ensures p == q
    decreases |p|
  {
    hide Product;
    if p != [] {
      ProductTop(p, g);
      ProductTop(q, g);
      assert Product(p, g)[0] == Product(q, g)[0];
      forall i | 0 <= i < |p| - 1
        ensures Product(p[1..], g)[i] == Product(q[1..], g)[i]
      {
        assert Product(p, g)[i + 1] == Product(q, g)[i + 1];
        ProductAt(p, g, i);
        ProductAt(q, g, i);
      }
      OneMultiple(p[1..], q[1..], g);
      assert p == [p[0]] + p[1..] && q == [q[0]] + q[1..];
    }
  }

  /** So there is one remainder. */
  lemma OneRemainder(g: bits, r: bits, w: bits, p: bits, s: bits, q: bits, t: bits)
    requires |g| == |r| + 1 && |r| > 0 && g[0] && |p| == |q| == |w| && |s| == |t| == |r|
    requires Product(p, g) == Codeword(r, w, s) && Product(q, g) == Codeword(r, w, t)
    ensures s == t
  {
    hide Product;
    var c, d := Codeword(r, w, s), Codeword(r, w, t);
    OneMultiple(p, q, g);
    forall i | 0 <= i < |s|
      ensures s[i] == t[i]
    {
      assert c[|w| + i] == d[|w| + i];
    }
  }
}
