/** The two cyclic redundancy checks, bit by bit, and what they detect. */
module Crc {
  import opened Bytes

  /** A number as a bit-vector, from its binary digits. */
  function ToBits(n: nat): bv8
    decreases n
  {
    if n == 0 then 0 else (ToBits(n / 2) << 1) | (if n % 2 == 1 then 1 else 0)
  }

  function OfBits(x: bv8): nat
    decreases x
  {
    if x == 0 then 0 else 2 * OfBits(x >> 1) + if x & 1 != 0 then 1 else 0
  }

  /** An octet as a bit-vector; the only place where integers meet bit-vectors. */
  function Bits(b: byte): bv8 { ToBits(b as nat) }

  function FromBits(x: bv8): byte {
    OctetMask();
    OfBitsBelow(x, 0xFF, 256);
    OfBits(x) as byte
  }

  /** `m` is as many ones as `n`, a power of two, has digits behind its one. */
  predicate Mask(m: bv8, n: nat)
    decreases m
  {
    if m == 0 then n == 1 else m & 1 == 1 && n > 0 && n % 2 == 0 && Mask(m >> 1, n / 2)
  }

  lemma OctetMask()
    ensures Mask(0xFF, 256)
  {
    assert Mask(0, 1);
    assert Mask(1, 2);
    assert Mask(3, 4);
    assert Mask(7, 8);
    assert Mask(0xF, 16);
    assert Mask(0x1F, 32);
    assert Mask(0x3F, 64);
    assert Mask(0x7F, 128);
  }

  lemma {:induction false} OfBitsBelow(x: bv8, m: bv8, n: nat)
    requires Mask(m, n) && x <= m
    ensures OfBits(x) < n
    decreases m
  {
    if x != 0 { OfBitsBelow(x >> 1, m >> 1, n / 2); }
  }

  lemma {:induction false} OfBitsInverts(x: bv8)
    ensures ToBits(OfBits(x)) == x
    decreases x
  {
    if x != 0 {
      var n := OfBits(x);
      OfBitsInverts(x >> 1);
      assert n / 2 == OfBits(x >> 1) && (n % 2 == 1 <==> x & 1 != 0);
      assert ((x >> 1) << 1) | (if x & 1 != 0 then 1 else 0) == x;
    }
  }

  lemma {:induction false} ToBitsInverts(n: nat, m: bv8, t: nat)
    requires Mask(m, t) && n < t
    ensures ToBits(n) <= m && OfBits(ToBits(n)) == n
    decreases n
  {
    if n != 0 {
      var y, d: bv8 := ToBits(n / 2), if n % 2 == 1 then 1 else 0;
      assert m != 0 && m & 1 == 1;
      ToBitsInverts(n / 2, m >> 1, t / 2);
      hide Mask;
      var z := (y << 1) | d;
      assert ToBits(n) == z;
      hide ToBits;
      OneMoreDigit(y, m, d);
      LastDigit(z);
    }
  }

  lemma LastDigit(z: bv8)
    ensures OfBits(z) == 2 * OfBits(z >> 1) + if z & 1 != 0 then 1 else 0
  {}

  lemma OneMoreDigit(y: bv8, m: bv8, d: bv8)
    requires y <= m >> 1 && m & 1 == 1 && d <= 1
    ensures var z := (y << 1) | d; z <= m && z >> 1 == y && z & 1 == d && (z == 0 ==> y == 0 && d == 0)
  {}

  lemma BitsInjective(a: byte, b: byte)
    requires Bits(a) == Bits(b)
    ensures a == b
  {
    OctetMask();
    ToBitsInverts(a as nat, 0xFF, 256);
    ToBitsInverts(b as nat, 0xFF, 256);
  }

  lemma FromBitsInverts(x: bv8)
    ensures Bits(FromBits(x)) == x
  {
    OfBitsInverts(x);
  }

  /** The strings agree outside the window of `w` octets that starts at `k`. */
  ghost predicate SameOutside(s: bytes, s': bytes, k: nat, w: nat)
  {
    && |s| == |s'| && k + w <= |s|
    && s[..k] == s'[..k] && s[k + w..] == s'[k + w..]
  }

  /** Named, so that proofs do not unroll the bit loop. */
  const OCTET: nat := 8

  // ---- CRC-16/CCITT-FALSE: polynomial 0x1021, initial register 0xFFFF ----

  function Xor16(x: bv16, y: bv16): bv16 { x ^ y }

  /** An octet in the highest places. */
  function Raised16(b: bv8): bv16 { (b as bv16) << 8 }

  function Absorb16(x: bv16, b: bv8): bv16 { Xor16(x, Raised16(b)) }

  function Shift16(x: bv16): bv16 {
    if x & 0x8000 != 0 then (x << 1) ^ 0x1021 else x << 1
  }

  function Rounds16(x: bv16, n: nat): bv16
    decreases n, x
  {
    if n == 0 then x else Rounds16(Shift16(x), n - 1)
  }

  /** The register after one more octet. */
  function Next16(x: bv16, b: bv8): bv16 { Rounds16(Absorb16(x, b), OCTET) }

  function Fold16(x: bv16, data: bytes): bv16
    decreases |data|
  {
    if data == [] then x else Fold16(Next16(x, Bits(data[0])), data[1..])
  }

  function Crc16(data: bytes): bv16 { Fold16(0xFFFF, data) }

  function Hi16(x: bv16): bv8 { (x >> 8) as bv8 }

  function Lo16(x: bv16): bv8 { (x & 0xFF) as bv8 }

  /** The check value in transmission order, most significant octet first. */
  function Tail16(x: bv16): (r: bytes)
    ensures |r| == 2 && Bits(r[0]) == Hi16(x) && Bits(r[1]) == Lo16(x)
  {
    FromBitsInverts(Hi16(x));
    FromBitsInverts(Lo16(x));
    [FromBits(Hi16(x)), FromBits(Lo16(x))]
  }

  /** The inner loop: one octet, eight shifts. */
  method FeedOctet16(x: bv16, b: byte) returns (crc: bv16)
    ensures crc == Next16(x, Bits(b))
  {
    hide Absorb16, Shift16, Bits;
    crc := Absorb16(x, Bits(b));
    ghost var y := crc;
    for i := 0 to OCTET
      invariant Rounds16(crc, OCTET - i) == Rounds16(y, OCTET)
    {
      crc := Shift16(crc);
    }
  }

  /** The outer loop over the string. */
  method ComputeCrc16(data: bytes) returns (crc: bv16)
    ensures crc == Crc16(data)
  {
    hide Next16, Bits;
    crc := 0xFFFF;
    for k := 0 to |data|
      invariant Fold16(crc, data[k..]) == Crc16(data)
    {
      assert data[k..][1..] == data[k + 1..];
      crc := FeedOctet16(crc, data[k]);
    }
    assert data[|data|..] == [];
  }

  lemma {:induction false} Fold16Concat(x: bv16, a: bytes, b: bytes)
    ensures Fold16(x, a + b) == Fold16(Fold16(x, a), b)
    decreases |a|
  {
    hide Next16;
    if a == [] {
      assert a + b == b;
    } else {
      assert (a + b)[1..] == a[1..] + b;
      Fold16Concat(Next16(x, Bits(a[0])), a[1..], b);
    }
  }

  lemma ShiftBits16(x: bv16, y: bv16, k: bv16)
    ensures (x ^ y) & 0x8000 == (x & 0x8000) ^ (y & 0x8000)
    ensures (x ^ y) << 1 == (x << 1) ^ (y << 1)
    ensures x & 0x8000 == 0 || x & 0x8000 == 0x8000
    ensures y & 0x8000 == 0 || y & 0x8000 == 0x8000
    ensures (x ^ k) ^ y == (x ^ y) ^ k
    ensures x ^ (y ^ k) == (x ^ y) ^ k
    ensures (x ^ k) ^ (y ^ k) == x ^ y
  {}

  lemma Shift16Linear(x: bv16, y: bv16)
    ensures Shift16(Xor16(x, y)) == Xor16(Shift16(x), Shift16(y))
  {
    ShiftBits16(x, y, 0x1021);
    ShiftBits16(x << 1, y << 1, 0x1021);
  }

  lemma {:induction false} Rounds16Linear(x: bv16, y: bv16, n: nat)
    ensures Rounds16(Xor16(x, y), n) == Xor16(Rounds16(x, n), Rounds16(y, n))
    decreases n
  {
    hide Xor16, Shift16;
    if n > 0 {
      Shift16Linear(x, y);
      Rounds16Linear(Shift16(x), Shift16(y), n - 1);
    }
  }

  lemma AbsorbBits16(x: bv16, y: bv16, a: bv8, b: bv8)
    ensures Absorb16(Xor16(x, y), a ^ b) == Xor16(Absorb16(x, a), Absorb16(y, b))
  {}

  /** The check is linear: the difference of two runs is a run on the difference. */
  lemma Next16Linear(x: bv16, y: bv16, a: bv8, b: bv8)
    ensures Next16(Xor16(x, y), a ^ b) == Xor16(Next16(x, a), Next16(y, b))
  {
    hide Xor16, Absorb16, Rounds16;
    AbsorbBits16(x, y, a, b);
    Rounds16Linear(Absorb16(x, a), Absorb16(y, b), OCTET);
  }

  function Unshift16(y: bv16): bv16 {
    if y & 1 != 0 then ((y ^ 0x1021) >> 1) | 0x8000 else y >> 1
  }

  lemma UnshiftBits16(x: bv16)
    ensures x & 0x8000 != 0 ==>
      ((x << 1) ^ 0x1021) & 1 != 0 && ((((x << 1) ^ 0x1021) ^ 0x1021) >> 1) | 0x8000 == x
    ensures x & 0x8000 == 0 ==> (x << 1) & 1 == 0 && (x << 1) >> 1 == x
  {}

  lemma UnshiftCases16(y: bv16)
    ensures y & 1 != 0 ==> Unshift16(y) == ((y ^ 0x1021) >> 1) | 0x8000
    ensures y & 1 == 0 ==> Unshift16(y) == y >> 1
  {}

  lemma Unshift16Inverts(x: bv16)
    ensures Unshift16(Shift16(x)) == x
  {
    hide Unshift16;
    UnshiftBits16(x);
    if x & 0x8000 != 0 {
      UnshiftCases16((x << 1) ^ 0x1021);
    } else {
      UnshiftCases16(x << 1);
    }
  }

  lemma {:induction false} Rounds16Injective(x: bv16, y: bv16, n: nat)
    requires Rounds16(x, n) == Rounds16(y, n)
    ensures x == y
    decreases n
  {
    hide Shift16, Unshift16;
    if n > 0 {
      Rounds16Injective(Shift16(x), Shift16(y), n - 1);
      Unshift16Inverts(x);
      Unshift16Inverts(y);
    }
  }

  lemma CancelAbsorb16(x: bv16, y: bv16, b: bv8)
    requires Absorb16(x, b) == Absorb16(y, b)
    ensures x == y
  {
    assert x ^ y == (x ^ ((b as bv16) << 8)) ^ (y ^ ((b as bv16) << 8));
  }

  lemma Next16Injective(x: bv16, y: bv16, b: bv8)
    requires Next16(x, b) == Next16(y, b)
    ensures x == y
  {
    hide Absorb16, Rounds16;
    Rounds16Injective(Absorb16(x, b), Absorb16(y, b), OCTET);
    CancelAbsorb16(x, y, b);
  }

  lemma {:induction false} Fold16Injective(x: bv16, y: bv16, s: bytes)
    requires Fold16(x, s) == Fold16(y, s)
    ensures x == y
    decreases |s|
  {
    hide Next16, Bits;
    if s != [] {
      Fold16Injective(Next16(x, Bits(s[0])), Next16(y, Bits(s[0])), s[1..]);
      Next16Injective(x, y, Bits(s[0]));
    }
  }

  lemma QuietBits16(w: bv16)
    requires w & 0xF000 == 0
    ensures w & 0x8000 == 0 && (w << 1) & 0x8000 == 0 && (w << 2) & 0x8000 == 0 && (w << 3) & 0x8000 == 0
    ensures (w << 1) << 1 == w << 2 && (w << 2) << 1 == w << 3 && (w << 3) << 1 == w << 4
  {}

  lemma QuietNibble16(w: bv16, n: nat)
    requires w & 0xF000 == 0
    ensures Rounds16(w, n + 4) == Rounds16(w << 4, n)
  {
    QuietBits16(w);
    assert Rounds16(w, n + 4) == Rounds16(w << 1, n + 3) == Rounds16(w << 2, n + 2);
    assert Rounds16(w << 2, n + 2) == Rounds16(w << 3, n + 1);
  }

  lemma QuietOctetBits16(w: bv16)
    requires w & 0xFF00 == 0
    ensures w & 0xF000 == 0 && (w << 4) & 0xF000 == 0 && (w << 4) << 4 == w << 8
  {}

  /** With a clear top octet, eight shifts meet no feedback. */
  lemma Rounds16Quiet(w: bv16)
    requires w & 0xFF00 == 0
    ensures Rounds16(w, OCTET) == w << 8
  {
    hide Shift16;
    QuietOctetBits16(w);
    QuietNibble16(w, 4);
    QuietNibble16(w << 4, 0);
  }

  lemma Rounds16Zero(n: nat)
    ensures Rounds16(0, n) == 0
    decreases n
  {}

  lemma QuietAbsorb16(u: bv16, l: bv8)
    ensures Absorb16((l as bv16) << 8, l) == 0
    ensures Absorb16(u, l) == 0 ==> u == (l as bv16) << 8
  {}

  lemma SplitBits16(x: bv16, h: bv8, l: bv8)
    ensures (l as bv16) & 0xFF00 == 0
    ensures x ^ ((h as bv16) << 8) == l as bv16 <==> h == (x >> 8) as bv8 && l == (x & 0xFF) as bv8
  {}

  lemma SplitAbsorb16(x: bv16, h: bv8, l: bv8)
    ensures (l as bv16) & 0xFF00 == 0
    ensures Absorb16(x, h) == l as bv16 <==> h == Hi16(x) && l == Lo16(x)
  {
    SplitBits16(x, h, l);
  }

  /** The only two octets that bring the register to zero are its own value. */
  lemma ResidueBits16(x: bv16, h: bv8, l: bv8)
    ensures Next16(Next16(x, h), l) == 0 <==> h == Hi16(x) && l == Lo16(x)
  {
    hide Absorb16, Rounds16, Hi16, Lo16;
    SplitAbsorb16(x, h, l);
    ZeroIff16(Next16(x, h), l);
    QuietIff16(Absorb16(x, h), l as bv16);
  }

  lemma ZeroIff16(u: bv16, l: bv8)
    ensures Next16(u, l) == 0 <==> u == (l as bv16) << 8
  {
    hide Absorb16, Rounds16;
    QuietAbsorb16(u, l);
    Rounds16Zero(OCTET);
    if Next16(u, l) == 0 { Rounds16Injective(Absorb16(u, l), 0, OCTET); }
  }

  lemma QuietIff16(u: bv16, w: bv16)
    requires w & 0xFF00 == 0
    ensures Rounds16(u, OCTET) == w << 8 <==> u == w
  {
    hide Rounds16;
    Rounds16Quiet(w);
    if Rounds16(u, OCTET) == w << 8 { Rounds16Injective(u, w, OCTET); }
  }

  lemma XorZero(a: bv8, b: bv8)
    requires a ^ b == 0
    ensures a == b
  {
    assert a == (a ^ b) ^ b;
  }

  lemma XorZero16(x: bv16)
    ensures Xor16(x, x) == 0
    ensures Hi16(0) == 0 && Lo16(0) == 0
  {}

  /** Two octets are told apart by the register they leave behind. */
  lemma Window16(x: bv16, a: bv8, b: bv8, a': bv8, b': bv8)
    requires Next16(Next16(x, a), b) == Next16(Next16(x, a'), b')
    ensures a == a' && b == b'
  {
    hide Xor16, Next16;
    Next16Linear(x, x, a, a');
    Next16Linear(Next16(x, a), Next16(x, a'), b, b');
    XorZero16(x);
    XorZero16(Next16(Next16(x, a), b));
    ResidueBits16(0, a ^ a', b ^ b');
    XorZero(a, a');
    XorZero(b, b');
  }

  lemma Fold16Window(x: bv16, t: bytes)
    requires |t| == 2
    ensures Fold16(x, t) == Next16(Next16(x, Bits(t[0])), Bits(t[1]))
  {
    hide Next16, Bits;
    var y := Next16(x, Bits(t[0]));
    assert t[1..][0] == t[1] && t[1..][1..] == [];
    assert Fold16(y, t[1..]) == Fold16(Next16(y, Bits(t[1])), []);
  }

  /** A check at the end of a string is a zero register over the whole string. */
  lemma CheckIsResidue16(s: bytes)
    requires |s| >= 2
    ensures s[|s| - 2..] == Tail16(Crc16(s[..|s| - 2])) <==> Crc16(s) == 0
  {
    hide Next16, Fold16, Bits, Hi16, Lo16;
    var d, t := s[..|s| - 2], s[|s| - 2..];
    var x := Crc16(d);
    assert s == d + t;
    Fold16Concat(0xFFFF, d, t);
    Fold16Window(x, t);
    ResidueBits16(x, Bits(t[0]), Bits(t[1]));
    if Crc16(s) == 0 {
      BitsInjective(t[0], Tail16(x)[0]);
      BitsInjective(t[1], Tail16(x)[1]);
    }
  }

  /** A change confined to two consecutive octets always changes the register. */
  lemma Burst16(s: bytes, s': bytes, k: nat)
    requires SameOutside(s, s', k, 2) && Crc16(s) == Crc16(s')
    ensures s == s'
  {
    hide Next16, Fold16, Bits;
    var p, m, m', q := s[..k], s[k..k + 2], s'[k..k + 2], s[k + 2..];
    var x := Fold16(0xFFFF, p);
    assert s == p + (m + q) && s' == p + (m' + q);
    Fold16Concat(0xFFFF, p, m + q);
    Fold16Concat(x, m, q);
    Fold16Concat(0xFFFF, p, m' + q);
    Fold16Concat(x, m', q);
    Fold16Injective(Fold16(x, m), Fold16(x, m'), q);
    Fold16Window(x, m);
    Fold16Window(x, m');
    Window16(x, Bits(m[0]), Bits(m[1]), Bits(m'[0]), Bits(m'[1]));
    BitsInjective(m[0], m'[0]);
    BitsInjective(m[1], m'[1]);
    assert m == m';
  }

  // ---- CRC-24Q: polynomial 0x1864CFB, initial register 0 ----

  function Xor24(x: bv24, y: bv24): bv24 { x ^ y }

  /** An octet in the highest places. */
  function Raised24(b: bv8): bv24 { (b as bv24) << 16 }

  function Absorb24(x: bv24, b: bv8): bv24 { Xor24(x, Raised24(b)) }

  function Shift24(x: bv24): bv24 {
    if x & 0x80_0000 != 0 then (x << 1) ^ 0x86_4CFB else x << 1
  }

  function Rounds24(x: bv24, n: nat): bv24
    decreases n, x
  {
    if n == 0 then x else Rounds24(Shift24(x), n - 1)
  }

  /** The register after one more octet. */
  function Next24(x: bv24, b: bv8): bv24 { Rounds24(Absorb24(x, b), OCTET) }

  function Fold24(x: bv24, data: bytes): bv24
    decreases |data|
  {
    if data == [] then x else Fold24(Next24(x, Bits(data[0])), data[1..])
  }

  function Crc24(data: bytes): bv24 { Fold24(0, data) }

  function Hi24(x: bv24): bv8 { (x >> 16) as bv8 }

  function Mid24(x: bv24): bv8 { ((x >> 8) & 0xFF) as bv8 }

  function Lo24(x: bv24): bv8 { (x & 0xFF) as bv8 }

  function Tail24(x: bv24): (r: bytes)
    ensures |r| == 3 && Bits(r[0]) == Hi24(x) && Bits(r[1]) == Mid24(x) && Bits(r[2]) == Lo24(x)
  {
    FromBitsInverts(Hi24(x));
    FromBitsInverts(Mid24(x));
    FromBitsInverts(Lo24(x));
    [FromBits(Hi24(x)), FromBits(Mid24(x)), FromBits(Lo24(x))]
  }

  /** The inner loop: one octet, eight shifts. */
  method FeedOctet24(x: bv24, b: byte) returns (crc: bv24)
    ensures crc == Next24(x, Bits(b))
  {
    hide Absorb24, Shift24, Bits;
    crc := Absorb24(x, Bits(b));
    ghost var y := crc;
    for i := 0 to OCTET
      invariant Rounds24(crc, OCTET - i) == Rounds24(y, OCTET)
    {
      crc := Shift24(crc);
    }
  }

  /** The outer loop over the string. */
  method ComputeCrc24(data: bytes) returns (crc: bv24)
    ensures crc == Crc24(data)
  {
    hide Next24, Bits;
    crc := 0;
    for k := 0 to |data|
      invariant Fold24(crc, data[k..]) == Crc24(data)
    {
      assert data[k..][1..] == data[k + 1..];
      crc := FeedOctet24(crc, data[k]);
    }
    assert data[|data|..] == [];
  }

  lemma {:induction false} Fold24Concat(x: bv24, a: bytes, b: bytes)
    ensures Fold24(x, a + b) == Fold24(Fold24(x, a), b)
    decreases |a|
  {
    hide Next24;
    if a == [] {
      assert a + b == b;
    } else {
      assert (a + b)[1..] == a[1..] + b;
      Fold24Concat(Next24(x, Bits(a[0])), a[1..], b);
    }
  }

  lemma ShiftBits24(x: bv24, y: bv24, k: bv24)
    ensures (x ^ y) & 0x80_0000 == (x & 0x80_0000) ^ (y & 0x80_0000)
    ensures (x ^ y) << 1 == (x << 1) ^ (y << 1)
    ensures x & 0x80_0000 == 0 || x & 0x80_0000 == 0x80_0000
    ensures y & 0x80_0000 == 0 || y & 0x80_0000 == 0x80_0000
    ensures (x ^ k) ^ y == (x ^ y) ^ k
    ensures x ^ (y ^ k) == (x ^ y) ^ k
    ensures (x ^ k) ^ (y ^ k) == x ^ y
  {}

  lemma Shift24Linear(x: bv24, y: bv24)
    ensures Shift24(Xor24(x, y)) == Xor24(Shift24(x), Shift24(y))
  {
    ShiftBits24(x, y, 0x86_4CFB);
    ShiftBits24(x << 1, y << 1, 0x86_4CFB);
  }

  lemma {:induction false} Rounds24Linear(x: bv24, y: bv24, n: nat)
    ensures Rounds24(Xor24(x, y), n) == Xor24(Rounds24(x, n), Rounds24(y, n))
    decreases n
  {
    hide Xor24, Shift24;
    if n > 0 {
      Shift24Linear(x, y);
      Rounds24Linear(Shift24(x), Shift24(y), n - 1);
    }
  }

  lemma AbsorbBits24(x: bv24, y: bv24, a: bv8, b: bv8)
    ensures Absorb24(Xor24(x, y), a ^ b) == Xor24(Absorb24(x, a), Absorb24(y, b))
  {}

  /** The check is linear: the difference of two runs is a run on the difference. */
  lemma Next24Linear(x: bv24, y: bv24, a: bv8, b: bv8)
    ensures Next24(Xor24(x, y), a ^ b) == Xor24(Next24(x, a), Next24(y, b))
  {
    hide Xor24, Absorb24, Rounds24;
    AbsorbBits24(x, y, a, b);
    Rounds24Linear(Absorb24(x, a), Absorb24(y, b), OCTET);
  }

  function Unshift24(y: bv24): bv24 {
    if y & 1 != 0 then ((y ^ 0x86_4CFB) >> 1) | 0x80_0000 else y >> 1
  }

  lemma UnshiftBits24(x: bv24)
    ensures x & 0x80_0000 != 0 ==>
      ((x << 1) ^ 0x86_4CFB) & 1 != 0 && ((((x << 1) ^ 0x86_4CFB) ^ 0x86_4CFB) >> 1) | 0x80_0000 == x
    ensures x & 0x80_0000 == 0 ==> (x << 1) & 1 == 0 && (x << 1) >> 1 == x
  {}

  lemma UnshiftCases24(y: bv24)
    ensures y & 1 != 0 ==> Unshift24(y) == ((y ^ 0x86_4CFB) >> 1) | 0x80_0000
    ensures y & 1 == 0 ==> Unshift24(y) == y >> 1
  {}

  lemma Unshift24Inverts(x: bv24)
    ensures Unshift24(Shift24(x)) == x
  {
    hide Unshift24;
    UnshiftBits24(x);
    if x & 0x80_0000 != 0 {
      UnshiftCases24((x << 1) ^ 0x86_4CFB);
    } else {
      UnshiftCases24(x << 1);
    }
  }

  lemma {:induction false} Rounds24Injective(x: bv24, y: bv24, n: nat)
    requires Rounds24(x, n) == Rounds24(y, n)
    ensures x == y
    decreases n
  {
    hide Shift24, Unshift24;
    if n > 0 {
      Rounds24Injective(Shift24(x), Shift24(y), n - 1);
      Unshift24Inverts(x);
      Unshift24Inverts(y);
    }
  }

  lemma CancelAbsorb24(x: bv24, y: bv24, b: bv8)
    requires Absorb24(x, b) == Absorb24(y, b)
    ensures x == y
  {
    assert x ^ y == (x ^ ((b as bv24) << 16)) ^ (y ^ ((b as bv24) << 16));
  }

  lemma Next24Injective(x: bv24, y: bv24, b: bv8)
    requires Next24(x, b) == Next24(y, b)
    ensures x == y
  {
    hide Absorb24, Rounds24;
    Rounds24Injective(Absorb24(x, b), Absorb24(y, b), OCTET);
    CancelAbsorb24(x, y, b);
  }

  lemma {:induction false} Fold24Injective(x: bv24, y: bv24, s: bytes)
    requires Fold24(x, s) == Fold24(y, s)
    ensures x == y
    decreases |s|
  {
    hide Next24, Bits;
    if s != [] {
      Fold24Injective(Next24(x, Bits(s[0])), Next24(y, Bits(s[0])), s[1..]);
      Next24Injective(x, y, Bits(s[0]));
    }
  }

  lemma QuietBits24(w: bv24)
    requires w & 0xF0_0000 == 0
    ensures w & 0x80_0000 == 0 && (w << 1) & 0x80_0000 == 0 && (w << 2) & 0x80_0000 == 0 && (w << 3) & 0x80_0000 == 0
    ensures (w << 1) << 1 == w << 2 && (w << 2) << 1 == w << 3 && (w << 3) << 1 == w << 4
  {}

  lemma QuietNibble24(w: bv24, n: nat)
    requires w & 0xF0_0000 == 0
    ensures Rounds24(w, n + 4) == Rounds24(w << 4, n)
  {
    QuietBits24(w);
    assert Rounds24(w, n + 4) == Rounds24(w << 1, n + 3) == Rounds24(w << 2, n + 2);
    assert Rounds24(w << 2, n + 2) == Rounds24(w << 3, n + 1);
  }

  lemma QuietOctetBits24(w: bv24)
    requires w & 0xFF_0000 == 0
    ensures w & 0xF0_0000 == 0 && (w << 4) & 0xF0_0000 == 0 && (w << 4) << 4 == w << 8
  {}

  /** With a clear top octet, eight shifts meet no feedback. */
  lemma Rounds24Quiet(w: bv24)
    requires w & 0xFF_0000 == 0
    ensures Rounds24(w, OCTET) == w << 8
  {
    hide Shift24;
    QuietOctetBits24(w);
    QuietNibble24(w, 4);
    QuietNibble24(w << 4, 0);
  }

  lemma Rounds24Zero(n: nat)
    ensures Rounds24(0, n) == 0
    decreases n
  {}

  predicate Quiet24(w: bv24) { w & 0xFF_0000 == 0 }

  function Up24(w: bv24): bv24 { w << 8 }

  function Low24(l: bv8): bv24 { (l as bv24) << 8 }

  function Pair24(m: bv8, l: bv8): bv24 { ((m as bv24) << 8) | (l as bv24) }

  lemma QuietAbsorb24(u: bv24, l: bv8)
    ensures Absorb24(Raised24(l), l) == 0
    ensures Absorb24(u, l) == 0 ==> u == Raised24(l)
  {}

  lemma ZeroIff24(u: bv24, l: bv8)
    ensures Next24(u, l) == 0 <==> u == Raised24(l)
  {
    hide Absorb24, Rounds24, Raised24;
    QuietAbsorb24(u, l);
    Rounds24Zero(OCTET);
    if Next24(u, l) == 0 { Rounds24Injective(Absorb24(u, l), 0, OCTET); }
  }

  lemma QuietIff24(u: bv24, w: bv24)
    requires Quiet24(w)
    ensures Rounds24(u, OCTET) == Up24(w) <==> u == w
  {
    hide Rounds24;
    Rounds24Quiet(w);
    if Rounds24(u, OCTET) == w << 8 { Rounds24Injective(u, w, OCTET); }
  }

  lemma LowIsQuiet24(l: bv8)
    ensures Quiet24(Low24(l)) && Up24(Low24(l)) == Raised24(l)
  {}

  lemma LowAbsorb24(u: bv24, m: bv8, l: bv8)
    ensures Absorb24(u, m) == Low24(l) <==> u == Up24(Pair24(m, l))
  {
    hide Xor24, Raised24, Low24, Up24, Pair24;
    Moved24(u, Raised24(m), Low24(l));
    PairSum24(m, l);
  }

  lemma Moved24(u: bv24, a: bv24, b: bv24)
    ensures Xor24(u, a) == b <==> u == Xor24(a, b)
  {
    Cancels24(u, a);
    Cancels24(b, a);
    Commutes24(a, b);
    hide Xor24;
  }

  lemma Cancels24(u: bv24, a: bv24)
    ensures Xor24(Xor24(u, a), a) == u
  {}

  lemma Commutes24(a: bv24, b: bv24)
    ensures Xor24(a, b) == Xor24(b, a)
  {}

  lemma PairSum24(m: bv8, l: bv8)
    ensures Xor24(Raised24(m), Low24(l)) == Up24(Pair24(m, l))
  {}

  lemma PairIsQuiet24(m: bv8, l: bv8)
    ensures Quiet24(Pair24(m, l))
  {}

  lemma Split24(x: bv24)
    ensures Absorb24(x, Hi24(x)) == Pair24(Mid24(x), Lo24(x))
  {}

  lemma SplitUnique24(x: bv24, h: bv8, m: bv8, l: bv8)
    requires Absorb24(x, h) == Pair24(m, l)
    ensures h == Hi24(x) && m == Mid24(x) && l == Lo24(x)
  {}

  /** The only three octets that bring the register to zero are its own value. */
  lemma ResidueBits24(x: bv24, h: bv8, m: bv8, l: bv8)
    ensures Next24(Next24(Next24(x, h), m), l) == 0 <==> h == Hi24(x) && m == Mid24(x) && l == Lo24(x)
  {
    hide Absorb24, Rounds24, Hi24, Mid24, Lo24, Low24, Pair24, Quiet24, Up24, Raised24;
    var u := Next24(x, h);
    ZeroIff24(Next24(u, m), l);
    LowIsQuiet24(l);
    LowAbsorb24(u, m, l);
    QuietIff24(Absorb24(u, m), Low24(l));
    Split24(x);
    PairIsQuiet24(m, l);
    QuietIff24(Absorb24(x, h), Pair24(m, l));
    if Absorb24(x, h) == Pair24(m, l) { SplitUnique24(x, h, m, l); }
  }

  lemma XorZero24(x: bv24)
    ensures Xor24(x, x) == 0
    ensures Hi24(0) == 0 && Mid24(0) == 0 && Lo24(0) == 0
  {}

  /** Three octets are told apart by the register they leave behind. */
  lemma Window24(x: bv24, a: bv8, b: bv8, c: bv8, a': bv8, b': bv8, c': bv8)
    requires Next24(Next24(Next24(x, a), b), c) == Next24(Next24(Next24(x, a'), b'), c')
    ensures a == a' && b == b' && c == c'
  {
    hide Xor24, Next24, Hi24, Mid24, Lo24;
    Next24Linear(x, x, a, a');
    Next24Linear(Next24(x, a), Next24(x, a'), b, b');
    Next24Linear(Next24(Next24(x, a), b), Next24(Next24(x, a'), b'), c, c');
    XorZero24(x);
    XorZero24(Next24(Next24(Next24(x, a), b), c));
    ResidueBits24(0, a ^ a', b ^ b', c ^ c');
    XorZero(a, a');
    XorZero(b, b');
    XorZero(c, c');
  }

  lemma Fold24Window(x: bv24, t: bytes)
    requires |t| == 3
    ensures Fold24(x, t) == Next24(Next24(Next24(x, Bits(t[0])), Bits(t[1])), Bits(t[2]))
  {
    hide Next24, Bits;
    var y := Next24(x, Bits(t[0]));
    var z := Next24(y, Bits(t[1]));
    assert t == [t[0], t[1], t[2]] && t[1..] == [t[1], t[2]] && t[1..][1..] == [t[2]];
    assert Fold24(y, t[1..]) == Fold24(z, [t[2]]);
    assert Fold24(z, [t[2]]) == Fold24(Next24(z, Bits(t[2])), []);
  }

  /** A check at the end of a string is a zero register over the whole string. */
  lemma CheckIsResidue24(s: bytes)
    requires |s| >= 3
    ensures s[|s| - 3..] == Tail24(Crc24(s[..|s| - 3])) <==> Crc24(s) == 0
  {
    hide Next24, Fold24, Bits, Hi24, Mid24, Lo24;
    var d, t := s[..|s| - 3], s[|s| - 3..];
    var x := Crc24(d);
    assert s == d + t;
    Fold24Concat(0, d, t);
    Fold24Window(x, t);
    ResidueBits24(x, Bits(t[0]), Bits(t[1]), Bits(t[2]));
    if Crc24(s) == 0 {
      BitsInjective(t[0], Tail24(x)[0]);
      BitsInjective(t[1], Tail24(x)[1]);
      BitsInjective(t[2], Tail24(x)[2]);
    }
  }

  /** A change confined to three consecutive octets always changes the register. */
  lemma Burst24(s: bytes, s': bytes, k: nat)
    requires SameOutside(s, s', k, 3) && Crc24(s) == Crc24(s')
    ensures s == s'
  {
    hide Next24, Fold24, Bits;
    var p, m, m', q := s[..k], s[k..k + 3], s'[k..k + 3], s[k + 3..];
    var x := Fold24(0, p);
    assert s == p + (m + q) && s' == p + (m' + q);
    Fold24Concat(0, p, m + q);
    Fold24Concat(x, m, q);
    Fold24Concat(0, p, m' + q);
    Fold24Concat(x, m', q);
    Fold24Injective(Fold24(x, m), Fold24(x, m'), q);
    Fold24Window(x, m);
    Fold24Window(x, m');
    Window24(x, Bits(m[0]), Bits(m[1]), Bits(m[2]), Bits(m'[0]), Bits(m'[1]), Bits(m'[2]));
    BitsInjective(m[0], m'[0]);
    BitsInjective(m[1], m'[1]);
    BitsInjective(m[2], m'[2]);
    assert m == m';
  }
}
