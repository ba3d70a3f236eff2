/** What the two checks are: remainders of the message, as a polynomial, divided by the generator. */
module Remainders {
  import opened Bytes
  import opened Crc
  import opened Polynomials
  import Seqs

  // ---- the message --------------------------------------------------------------------

  /** The lowest `k` binary digits of a number, the highest first. */
  function Digits(n: nat, k: nat): (r: bits)
    ensures |r| == k
    decreases k, n
  {
    if k == 0 then [] else Digits(n / 2, k - 1) + [n % 2 == 1]
  }

  /** An octet, its highest bit first. */
  function OctetBits(b: byte): (r: bits)
    ensures |r| == 8
  {
    Digits(b as nat, 8)
  }

  function MessageBits(data: bytes): (r: bits)
    ensures |r| == 8 * |data|
    decreases |data|
  {
    if data == [] then [] else OctetBits(data[0]) + MessageBits(data[1..])
  }

  function High8(x: bv8): bool { x & 0x80 != 0 }

  function Left8(x: bv8): bv8 { x << 1 }

  function Odd8(x: bv8): bool { x & 1 == 1 }

  function Down8(x: bv8): bv8 { x >> 1 }

  function Leading8(x: bv8, k: nat): (r: bits)
    ensures |r| == k
    decreases k, x
  {
    if k == 0 then [] else [High8(x)] + Leading8(Left8(x), k - 1)
  }

  function Low8(x: bv8, k: nat): (r: bits)
    ensures |r| == k
    decreases k, x
  {
    if k == 0 then [] else Low8(Down8(x), k - 1) + [Odd8(x)]
  }

  lemma {:induction false} LowDigits(n: nat, k: nat, m: bv8, t: nat)
    requires Mask(m, t) && n < t
    ensures Low8(ToBits(n), k) == Digits(n, k)
    decreases k
  {
    if k > 0 {
      hide Down8, Odd8, ToBits;
      LowestDigit(n, m, t);
      var u, v := if n == 0 then m else m >> 1, if n == 0 then t else t / 2;
      hide Mask;
      LowDigits(n / 2, k - 1, u, v);
    }
  }

  lemma LowestDigit(n: nat, m: bv8, t: nat)
    requires Mask(m, t) && n < t
    ensures Down8(ToBits(n)) == ToBits(n / 2) && Odd8(ToBits(n)) == (n % 2 == 1)
    ensures Mask(if n == 0 then m else m >> 1, if n == 0 then t else t / 2) && n / 2 < if n == 0 then t else t / 2
  {
    if n != 0 {
      assert m != 0 && m & 1 == 1;
      ToBitsInverts(n / 2, m >> 1, t / 2);
      var y, d: bv8 := ToBits(n / 2), if n % 2 == 1 then 1 else 0;
      assert ToBits(n) == (y << 1) | d;
      hide ToBits, Mask;
      OneMoreDigit(y, m, d);
    }
  }

  function UpBy(x: bv8, i: nat): bv8
    decreases i, x
  {
    if i == 0 then x else UpBy(Left8(x), i - 1)
  }

  function DownBy(x: bv8, i: nat): bv8
    decreases i, x
  {
    if i == 0 then x else DownBy(Down8(x), i - 1)
  }

  lemma {:induction false} TopAt(x: bv8, k: nat, i: nat)
    requires i < k
    ensures Leading8(x, k)[i] == High8(UpBy(x, i))
    decreases k
  {
    hide High8, Left8;
    if i > 0 { TopAt(Left8(x), k - 1, i - 1); }
  }

  lemma {:induction false} LowAt(x: bv8, k: nat, i: nat)
    requires i < k
    ensures Low8(x, k)[k - 1 - i] == Odd8(DownBy(x, i))
    decreases k
  {
    hide Odd8, Down8;
    if i > 0 { LowAt(Down8(x), k - 1, i - 1); }
  }

  lemma UpIs(x: bv8)
    ensures UpBy(x, 0) == x && UpBy(x, 1) == x << 1 && UpBy(x, 2) == x << 2 && UpBy(x, 3) == x << 3
    ensures UpBy(x, 4) == x << 4 && UpBy(x, 5) == x << 5 && UpBy(x, 6) == x << 6 && UpBy(x, 7) == x << 7
    ensures UpBy(x, 8) == 0
  {
    UpMore(x, 0);
    UpMore(x, 1);
    UpMore(x, 2);
    UpMore(x, 3);
    UpMore(x, 4);
    UpMore(x, 5);
    UpMore(x, 6);
    UpMore(x, 7);
    hide UpBy;
    Ups(x);
  }

  lemma Ups(x: bv8)
    ensures Left8(x) == x << 1 && Left8(x << 1) == x << 2 && Left8(x << 2) == x << 3 && Left8(x << 3) == x << 4
    ensures Left8(x << 4) == x << 5 && Left8(x << 5) == x << 6 && Left8(x << 6) == x << 7 && Left8(x << 7) == 0
  {}

  lemma {:induction false} UpMore(x: bv8, i: nat)
    ensures UpBy(x, i + 1) == Left8(UpBy(x, i))
    decreases i
  {
    hide Left8;
    if i > 0 { UpMore(Left8(x), i - 1); }
  }

  lemma DownIs(x: bv8)
    ensures DownBy(x, 0) == x && DownBy(x, 1) == x >> 1 && DownBy(x, 2) == x >> 2 && DownBy(x, 3) == x >> 3
    ensures DownBy(x, 4) == x >> 4 && DownBy(x, 5) == x >> 5 && DownBy(x, 6) == x >> 6 && DownBy(x, 7) == x >> 7
  {
    DownMore(x, 0);
    DownMore(x, 1);
    DownMore(x, 2);
    DownMore(x, 3);
    DownMore(x, 4);
    DownMore(x, 5);
    DownMore(x, 6);
    hide DownBy;
    Downs(x);
  }

  lemma Downs(x: bv8)
    ensures Down8(x) == x >> 1 && Down8(x >> 1) == x >> 2 && Down8(x >> 2) == x >> 3 && Down8(x >> 3) == x >> 4
    ensures Down8(x >> 4) == x >> 5 && Down8(x >> 5) == x >> 6 && Down8(x >> 6) == x >> 7
  {}

  lemma {:induction false} DownMore(x: bv8, i: nat)
    ensures DownBy(x, i + 1) == Down8(DownBy(x, i))
    decreases i
  {
    hide Down8;
    if i > 0 { DownMore(Down8(x), i - 1); }
  }

  lemma SameBits(x: bv8)
    ensures High8(x) == Odd8(x >> 7) && High8(x << 1) == Odd8(x >> 6) && High8(x << 2) == Odd8(x >> 5)
    ensures High8(x << 3) == Odd8(x >> 4) && High8(x << 4) == Odd8(x >> 3) && High8(x << 5) == Odd8(x >> 2)
    ensures High8(x << 6) == Odd8(x >> 1) && High8(x << 7) == Odd8(x)
  {}

  lemma TopIsLow(x: bv8)
    ensures Leading8(x, 8) == Low8(x, 8)
  {
    hide Leading8, Low8, UpBy, DownBy, High8, Odd8;
    forall i | 0 <= i < 8
      ensures Leading8(x, 8)[i] == Low8(x, 8)[i]
    {
      TopAt(x, 8, i);
      LowAt(x, 8, 7 - i);
      UpIs(x);
      DownIs(x);
      SameBits(x);
    }
  }

  lemma OctetIs(b: byte)
    ensures Leading8(Bits(b), 8) == OctetBits(b)
  {
    hide Leading8, Low8, ToBits, Mask, Digits;
    OctetMask();
    LowDigits(b as nat, 8, 0xFF, 256);
    TopIsLow(Bits(b));
  }

  /** Shifting up `k` places leaves nothing. */
  predicate Gone(x: bv8, k: nat) { UpBy(x, k) == 0 }

  lemma AllGone(x: bv8)
    ensures Gone(x, 8)
  {
    hide UpBy;
    UpIs(x);
  }

  lemma OneMore(s: bool, t: bool, a: bits, b: bits)
    requires |a| == |b|
    ensures [s != t] + Xor(a, b) == Xor([s] + a, [t] + b)
  {}

  lemma SerialFirst(g: bits, r: bits, t: bool, w: bits)
    requires |g| == |r| + 1 && |r| > 0
    ensures Serial(g, r, [t] + w) == Serial(g, Shifted(g, r, t), w)
  {
    SerialConcat(g, r, [t], w);
    assert [t][..0] == [] && Serial(g, r, []) == r;
    assert Serial(g, r, [t]) == Shifted(g, r, t);
  }

  // ---- CRC-16 ----

  function High16(x: bv16): bool { x & 0x8000 != 0 }

  function Left16(x: bv16): bv16 { x << 1 }

  /** The highest `k` bits of the register. */
  function Leading16(x: bv16, k: nat): (r: bits)
    ensures |r| == k
    decreases k, x
  {
    if k == 0 then [] else [High16(x)] + Leading16(Left16(x), k - 1)
  }

  /** The register as a polynomial. */
  function Register16(x: bv16): (r: bits)
    ensures |r| == 16
  {
    Leading16(x, 16)
  }

  /** The generator: x^16 and the polynomial of the register. */
  function Divisor16(): (g: bits)
    ensures |g| == 17 && g[0]
  {
    [true] + Register16(0x1021)
  }

  lemma SumBits16(x: bv16, y: bv16)
    ensures Left16(Xor16(x, y)) == Xor16(Left16(x), Left16(y)) && High16(Xor16(x, y)) == (High16(x) != High16(y))
  {
    ShiftBits16(x, y, 0);
  }

  lemma {:induction false} LeadingSum16(x: bv16, y: bv16, k: nat)
    ensures Leading16(Xor16(x, y), k) == Xor(Leading16(x, k), Leading16(y, k))
    decreases k
  {
    hide High16, Left16, Xor16;
    if k > 0 {
      SumBits16(x, y);
      LeadingSum16(Left16(x), Left16(y), k - 1);
      OneMore(High16(x), High16(y), Leading16(Left16(x), k - 1), Leading16(Left16(y), k - 1));
    }
  }

  lemma {:induction false} LeadingNone16(k: nat)
    ensures Leading16(0, k) == Zeros(k)
    decreases k
  {
    if k > 0 {
      assert Left16(0) == 0 && !High16(0);
      hide Left16, High16;
      LeadingNone16(k - 1);
      assert [false] + Zeros(k - 1) == Zeros(k);
    }
  }

  function Meets16(x: bv16, m: bv16): bool { x & m != 0 }

  /** `m` is the bit `k` places below the highest. */
  predicate Place16(m: bv16, k: nat)
    decreases k, m
  {
    if k == 0 then m == 0x8000 else !High16(m) && Place16(Left16(m), k - 1)
  }

  lemma MeetsUp16(x: bv16, m: bv16)
    requires !High16(m)
    ensures Meets16(Left16(x), Left16(m)) == Meets16(x, m)
  {
    assert (x << 1) & (m << 1) == (x & m) << 1;
    var z := x & m;
    assert z & 0x8000 == x & (m & 0x8000);
    assert x & 0 == 0;
    NoneLost16(z);
  }

  lemma NoneLost16(z: bv16)
    requires z & 0x8000 == 0
    ensures z << 1 == 0 <==> z == 0
  {}

  lemma MeetsLast16(x: bv16)
    ensures !Meets16(Left16(x), 1)
  {}

  lemma {:induction false} LeadingEnds16(x: bv16, m: bv16, k: nat)
    requires Place16(m, k)
    ensures Leading16(x, k + 1) == Leading16(x, k) + [Meets16(x, m)]
    decreases k
  {
    if k == 0 {
      assert Meets16(x, m) == High16(x);
      hide High16, Left16, Meets16;
      assert Leading16(Left16(x), 0) == [];
    } else {
      hide High16, Left16, Meets16;
      MeetsUp16(x, m);
      LeadingEnds16(Left16(x), Left16(m), k - 1);
      Seqs.Assoc([High16(x)], Leading16(Left16(x), k - 1), [Meets16(x, m)]);
    }
  }

  lemma LastPlace16()
    ensures Place16(1, 15)
  {
    assert Place16(0x8000, 0);
    assert Place16(0x4000, 1);
    assert Place16(0x2000, 2);
    assert Place16(0x1000, 3);
    assert Place16(0x800, 4);
    assert Place16(0x400, 5);
    assert Place16(0x200, 6);
    assert Place16(0x100, 7);
    assert Place16(0x80, 8);
    assert Place16(0x40, 9);
    assert Place16(0x20, 10);
    assert Place16(0x10, 11);
    assert Place16(0x8, 12);
    assert Place16(0x4, 13);
    assert Place16(0x2, 14);
  }

  /** Shifting the register up. */
  lemma RegisterUp16(x: bv16)
    ensures Register16(Left16(x)) == Register16(x)[1..] + [false] && Register16(x)[0] == High16(x)
  {
    hide High16, Left16, Meets16, Place16;
    LastPlace16();
    LeadingEnds16(Left16(x), 1, 15);
    MeetsLast16(x);
    LeadingFirst16(x, 16);
  }

  lemma LeadingFirst16(x: bv16, k: nat)
    requires k > 0
    ensures Leading16(x, k)[0] == High16(x) && Leading16(x, k)[1..] == Leading16(Left16(x), k - 1)
  {
    hide High16, Left16;
  }

  function Flip16(t: bool): bv16 { if t then 0x8000 else 0 }

  function Taken16(t: bool): bv16 { if t then 0x1021 else 0 }

  lemma FlipBits16(x: bv16, t: bool)
    ensures Left16(Xor16(x, Flip16(t))) == Left16(x) && High16(Xor16(x, Flip16(t))) == (High16(x) != t)
  {
    hide Xor16, High16, Left16;
    SumBits16(x, Flip16(t));
    FlipUp16(t);
    NoSum16(Left16(x));
  }

  lemma FlipUp16(t: bool)
    ensures Left16(Flip16(t)) == 0 && High16(Flip16(t)) == t
  {}

  lemma NoSum16(x: bv16)
    ensures Xor16(x, 0) == x
  {}

  lemma ShiftIs16(y: bv16)
    ensures Shift16(y) == Xor16(Left16(y), Taken16(High16(y)))
  {
    if !High16(y) { assert (y << 1) ^ 0 == y << 1; }
  }

  lemma TakenIs16(t: bool)
    ensures Register16(Taken16(t)) == Scale(t, Divisor16()[1..])
  {
    hide Leading16;
    LeadingNone16(16);
    assert Divisor16()[1..] == Register16(0x1021);
  }

  /** Shifting up `k` places leaves nothing. */
  predicate Emptied16(z: bv16, k: nat)
    decreases k, z
  {
    if k == 0 then z == 0 else Emptied16(Left16(z), k - 1)
  }

  /** `m` is all ones but for the highest `k` bits. */
  predicate Rest16(m: bv16, k: nat)
    decreases k, m
  {
    if k == 0 then m == 0xFFFF else Rest16(Left16(m) | 1, k - 1)
  }

  lemma {:induction false} RestEmpties16(z: bv16, m: bv16, k: nat)
    requires Rest16(m, k) && z & m == 0
    ensures Emptied16(z, k)
    decreases k
  {
    if k == 0 {
      assert z & 0xFFFF == z;
    } else {
      assert (z << 1) & ((m << 1) | 1) == (z & m) << 1;
      assert (0 as bv16) << 1 == 0;
      RestEmpties16(Left16(z), Left16(m) | 1, k - 1);
    }
  }

  lemma {:induction false} NoBits16(z: bv16, k: nat)
    requires Emptied16(z, k) && Leading16(z, k) == Zeros(k)
    ensures z == 0
    decreases k
  {
    if k > 0 {
      LeadingFirst16(z, k);
      assert Zeros(k)[0] == false && Zeros(k)[1..] == Zeros(k - 1);
      NoBits16(Left16(z), k - 1);
      hide Leading16;
      NoneLost16(z);
    }
  }

  lemma SomeRest16()
    ensures Rest16(0xFF, 8)
  {
    assert Rest16(0xFFFF, 0);
    assert Rest16(0x7FFF, 1);
    assert Rest16(0x3FFF, 2);
    assert Rest16(0x1FFF, 3);
    assert Rest16(0xFFF, 4);
    assert Rest16(0x7FF, 5);
    assert Rest16(0x3FF, 6);
    assert Rest16(0x1FF, 7);
    assert Rest16(0xFF, 8);
  }

  lemma AllRest16()
    ensures Rest16(0, 16)
  {
    SomeRest16();
    assert Rest16(0x7F, 9);
    assert Rest16(0x3F, 10);
    assert Rest16(0x1F, 11);
    assert Rest16(0xF, 12);
    assert Rest16(0x7, 13);
    assert Rest16(0x3, 14);
    assert Rest16(0x1, 15);
    assert Rest16(0x0, 16);
  }


  /** The polynomial determines the register. */
  lemma RegisterInjective16(x: bv16, y: bv16)
    requires Register16(x) == Register16(y)
    ensures x == y
  {
    hide Leading16, Xor16, Emptied16, Rest16;
    var z := Xor16(x, y);
    LeadingSum16(x, y, 16);
    assert Leading16(z, 16) == Zeros(16);
    AllRest16();
    NoMeet16(z);
    RestEmpties16(z, 0, 16);
    NoBits16(z, 16);
    Apart16(x, y);
  }

  lemma NoMeet16(z: bv16)
    ensures z & 0 == 0
  {}

  lemma Apart16(x: bv16, y: bv16)
    ensures Xor16(x, y) == 0 ==> x == y
  {}

  /** One bit into the register. */
  lemma BitIn16(x: bv16, t: bool)
    ensures Register16(Shift16(Xor16(x, Flip16(t)))) == Shifted(Divisor16(), Register16(x), t)
  {
    hide Shift16, Flip16, Taken16, Divisor16, Leading16, Xor16, High16, Left16, Scale;
    var y := Xor16(x, Flip16(t));
    FlipBits16(x, t);
    ShiftIs16(y);
    TakenIs16(High16(y));
    RegisterUp16(x);
    LeadingSum16(Left16(x), Taken16(High16(y)), 16);
  }

  function Below16(rem: bv8): bv16 { (rem & 0x7F) as bv16 << 8 }

  lemma Halves16(rem: bv8)
    ensures Raised16(rem) == Xor16(Flip16(High8(rem)), Below16(rem))
  {}

  lemma Regroup16(x: bv16, y: bv16, z: bv16)
    ensures Xor16(x, Xor16(y, z)) == Xor16(Xor16(x, y), z)
  {}

  lemma Parted16(x: bv16, rem: bv8)
    ensures Absorb16(x, rem) == Xor16(Xor16(x, Flip16(High8(rem))), Below16(rem))
  {
    hide Flip16, High8, Below16, Raised16, Xor16;
    Halves16(rem);
    Regroup16(x, Flip16(High8(rem)), Below16(rem));
  }

  lemma ShiftLow16(rem: bv8)
    ensures Shift16(Below16(rem)) == Raised16(Left8(rem))
  {}

  lemma LowShift16(x: bv16, rem: bv8)
    ensures Xor16(x, Shift16(Below16(rem))) == Absorb16(x, Left8(rem))
  {
    hide Shift16, Below16, Raised16, Xor16, Left8;
    ShiftLow16(rem);
  }

  lemma FirstBit16(x: bv16, rem: bv8)
    ensures Shift16(Absorb16(x, rem)) == Absorb16(Shift16(Xor16(x, Flip16(High8(rem)))), Left8(rem))
  {
    Parted16(x, rem);
    var y := Xor16(x, Flip16(High8(rem)));
    LowShift16(Shift16(y), rem);
    hide Shift16, Flip16, Absorb16, Xor16, Below16;
    Shift16Linear(y, Below16(rem));
  }

  lemma AbsorbNone16(x: bv16)
    ensures Absorb16(x, 0) == x
  {}

  /** An octet absorbed whole is its bits absorbed one by one. */
  lemma {:induction false} RoundsSerial16(x: bv16, rem: bv8, k: nat)
    requires Gone(rem, k)
    ensures Register16(Rounds16(Absorb16(x, rem), k)) == Serial(Divisor16(), Register16(x), Leading8(rem, k))
    decreases k
  {
    hide Shift16, Flip16, Absorb16, Xor16, Register16, Divisor16, Shifted, High8, Left8;
    if k == 0 {
      AbsorbNone16(x);
    } else {
      var t := High8(rem);
      var y := Shift16(Xor16(x, Flip16(t)));
      BitIn16(x, t);
      FirstBit16(x, rem);
      RoundsSerial16(y, Left8(rem), k - 1);
      hide Serial;
      SerialFirst(Divisor16(), Register16(x), t, Leading8(Left8(rem), k - 1));
    }
  }

  lemma {:induction false} FoldSerial16(x: bv16, data: bytes)
    ensures Register16(Fold16(x, data)) == Serial(Divisor16(), Register16(x), MessageBits(data))
    decreases |data|
  {
    hide Rounds16, Register16, Divisor16, Absorb16, Bits, OctetBits, Shifted, Gone, Leading8;
    if data != [] {
      var b := Bits(data[0]);
      AllGone(b);
      RoundsSerial16(x, b, 8);
      OctetIs(data[0]);
      FoldSerial16(Next16(x, b), data[1..]);
      SerialConcat(Divisor16(), Register16(x), OctetBits(data[0]), MessageBits(data[1..]));
    }
  }

  // ---- CRC-24Q ----

  function High24(x: bv24): bool { x & 0x800000 != 0 }

  function Left24(x: bv24): bv24 { x << 1 }

  /** The highest `k` bits of the register. */
  function Leading24(x: bv24, k: nat): (r: bits)
    ensures |r| == k
    decreases k, x
  {
    if k == 0 then [] else [High24(x)] + Leading24(Left24(x), k - 1)
  }

  /** The register as a polynomial. */
  function Register24(x: bv24): (r: bits)
    ensures |r| == 24
  {
    Leading24(x, 24)
  }

  /** The generator: x^24 and the polynomial of the register. */
  function Divisor24(): (g: bits)
    ensures |g| == 25 && g[0]
  {
    [true] + Register24(0x864CFB)
  }

  lemma SumBits24(x: bv24, y: bv24)
    ensures Left24(Xor24(x, y)) == Xor24(Left24(x), Left24(y)) && High24(Xor24(x, y)) == (High24(x) != High24(y))
  {
    ShiftBits24(x, y, 0);
  }

  lemma {:induction false} LeadingSum24(x: bv24, y: bv24, k: nat)
    ensures Leading24(Xor24(x, y), k) == Xor(Leading24(x, k), Leading24(y, k))
    decreases k
  {
    hide High24, Left24, Xor24;
    if k > 0 {
      SumBits24(x, y);
      LeadingSum24(Left24(x), Left24(y), k - 1);
      OneMore(High24(x), High24(y), Leading24(Left24(x), k - 1), Leading24(Left24(y), k - 1));
    }
  }

  lemma {:induction false} LeadingNone24(k: nat)
    ensures Leading24(0, k) == Zeros(k)
    decreases k
  {
    if k > 0 {
      assert Left24(0) == 0 && !High24(0);
      hide Left24, High24;
      LeadingNone24(k - 1);
      assert [false] + Zeros(k - 1) == Zeros(k);
    }
  }

  function Meets24(x: bv24, m: bv24): bool { x & m != 0 }

  /** `m` is the bit `k` places below the highest. */
  predicate Place24(m: bv24, k: nat)
    decreases k, m
  {
    if k == 0 then m == 0x800000 else !High24(m) && Place24(Left24(m), k - 1)
  }

  lemma MeetsUp24(x: bv24, m: bv24)
    requires !High24(m)
    ensures Meets24(Left24(x), Left24(m)) == Meets24(x, m)
  {
    assert (x << 1) & (m << 1) == (x & m) << 1;
    var z := x & m;
    assert z & 0x800000 == x & (m & 0x800000);
    assert x & 0 == 0;
    NoneLost24(z);
  }

  lemma NoneLost24(z: bv24)
    requires z & 0x800000 == 0
    ensures z << 1 == 0 <==> z == 0
  {}

  lemma MeetsLast24(x: bv24)
    ensures !Meets24(Left24(x), 1)
  {}

  lemma {:induction false} LeadingEnds24(x: bv24, m: bv24, k: nat)
    requires Place24(m, k)
    ensures Leading24(x, k + 1) == Leading24(x, k) + [Meets24(x, m)]
    decreases k
  {
    if k == 0 {
      assert Meets24(x, m) == High24(x);
      hide High24, Left24, Meets24;
      assert Leading24(Left24(x), 0) == [];
    } else {
      hide High24, Left24, Meets24;
      MeetsUp24(x, m);
      LeadingEnds24(Left24(x), Left24(m), k - 1);
      Seqs.Assoc([High24(x)], Leading24(Left24(x), k - 1), [Meets24(x, m)]);
    }
  }

  lemma LastPlace24()
    ensures Place24(1, 23)
  {
    assert Place24(0x800000, 0);
    assert Place24(0x400000, 1);
    assert Place24(0x200000, 2);
    assert Place24(0x100000, 3);
    assert Place24(0x80000, 4);
    assert Place24(0x40000, 5);
    assert Place24(0x20000, 6);
    assert Place24(0x10000, 7);
    assert Place24(0x8000, 8);
    assert Place24(0x4000, 9);
    assert Place24(0x2000, 10);
    assert Place24(0x1000, 11);
    assert Place24(0x800, 12);
    assert Place24(0x400, 13);
    assert Place24(0x200, 14);
    assert Place24(0x100, 15);
    assert Place24(0x80, 16);
    assert Place24(0x40, 17);
    assert Place24(0x20, 18);
    assert Place24(0x10, 19);
    assert Place24(0x8, 20);
    assert Place24(0x4, 21);
    assert Place24(0x2, 22);
  }

  /** Shifting the register up. */
  lemma RegisterUp24(x: bv24)
    ensures Register24(Left24(x)) == Register24(x)[1..] + [false] && Register24(x)[0] == High24(x)
  {
    hide High24, Left24, Meets24, Place24;
    LastPlace24();
    LeadingEnds24(Left24(x), 1, 23);
    MeetsLast24(x);
    LeadingFirst24(x, 24);
  }

  lemma LeadingFirst24(x: bv24, k: nat)
    requires k > 0
    ensures Leading24(x, k)[0] == High24(x) && Leading24(x, k)[1..] == Leading24(Left24(x), k - 1)
  {
    hide High24, Left24;
  }

  function Flip24(t: bool): bv24 { if t then 0x800000 else 0 }

  function Taken24(t: bool): bv24 { if t then 0x864CFB else 0 }

  lemma FlipBits24(x: bv24, t: bool)
    ensures Left24(Xor24(x, Flip24(t))) == Left24(x) && High24(Xor24(x, Flip24(t))) == (High24(x) != t)
  {
    hide Xor24, High24, Left24;
    SumBits24(x, Flip24(t));
    FlipUp24(t);
    NoSum24(Left24(x));
  }

  lemma FlipUp24(t: bool)
    ensures Left24(Flip24(t)) == 0 && High24(Flip24(t)) == t
  {}

  lemma NoSum24(x: bv24)
    ensures Xor24(x, 0) == x
  {}

  lemma ShiftIs24(y: bv24)
    ensures Shift24(y) == Xor24(Left24(y), Taken24(High24(y)))
  {
    if !High24(y) { assert (y << 1) ^ 0 == y << 1; }
  }

  lemma TakenIs24(t: bool)
    ensures Register24(Taken24(t)) == Scale(t, Divisor24()[1..])
  {
    hide Leading24;
    LeadingNone24(24);
    assert Divisor24()[1..] == Register24(0x864CFB);
  }

  /** Shifting up `k` places leaves nothing. */
  predicate Emptied24(z: bv24, k: nat)
    decreases k, z
  {
    if k == 0 then z == 0 else Emptied24(Left24(z), k - 1)
  }

  /** `m` is all ones but for the highest `k` bits. */
  predicate Rest24(m: bv24, k: nat)
    decreases k, m
  {
    if k == 0 then m == 0xFFFFFF else Rest24(Left24(m) | 1, k - 1)
  }

  lemma {:induction false} RestEmpties24(z: bv24, m: bv24, k: nat)
    requires Rest24(m, k) && z & m == 0
    ensures Emptied24(z, k)
    decreases k
  {
    if k == 0 {
      assert z & 0xFFFFFF == z;
    } else {
      assert (z << 1) & ((m << 1) | 1) == (z & m) << 1;
      assert (0 as bv24) << 1 == 0;
      RestEmpties24(Left24(z), Left24(m) | 1, k - 1);
    }
  }

  lemma {:induction false} NoBits24(z: bv24, k: nat)
    requires Emptied24(z, k) && Leading24(z, k) == Zeros(k)
    ensures z == 0
    decreases k
  {
    if k > 0 {
      LeadingFirst24(z, k);
      assert Zeros(k)[0] == false && Zeros(k)[1..] == Zeros(k - 1);
      NoBits24(Left24(z), k - 1);
      hide Leading24;
      NoneLost24(z);
    }
  }

  lemma SomeRest24()
    ensures Rest24(0xFFF, 12)
  {
    assert Rest24(0xFFFFFF, 0);
    assert Rest24(0x7FFFFF, 1);
    assert Rest24(0x3FFFFF, 2);
    assert Rest24(0x1FFFFF, 3);
    assert Rest24(0xFFFFF, 4);
    assert Rest24(0x7FFFF, 5);
    assert Rest24(0x3FFFF, 6);
    assert Rest24(0x1FFFF, 7);
    assert Rest24(0xFFFF, 8);
    assert Rest24(0x7FFF, 9);
    assert Rest24(0x3FFF, 10);
    assert Rest24(0x1FFF, 11);
    assert Rest24(0xFFF, 12);
  }

  lemma AllRest24()
    ensures Rest24(0, 24)
  {
    SomeRest24();
    assert Rest24(0x7FF, 13);
    assert Rest24(0x3FF, 14);
    assert Rest24(0x1FF, 15);
    assert Rest24(0xFF, 16);
    assert Rest24(0x7F, 17);
    assert Rest24(0x3F, 18);
    assert Rest24(0x1F, 19);
    assert Rest24(0xF, 20);
    assert Rest24(0x7, 21);
    assert Rest24(0x3, 22);
    assert Rest24(0x1, 23);
    assert Rest24(0x0, 24);
  }


  /** The polynomial determines the register. */
  lemma RegisterInjective24(x: bv24, y: bv24)
    requires Register24(x) == Register24(y)
    ensures x == y
  {
    hide Leading24, Xor24, Emptied24, Rest24;
    var z := Xor24(x, y);
    LeadingSum24(x, y, 24);
    assert Leading24(z, 24) == Zeros(24);
    AllRest24();
    NoMeet24(z);
    RestEmpties24(z, 0, 24);
    NoBits24(z, 24);
    Apart24(x, y);
  }

  lemma NoMeet24(z: bv24)
    ensures z & 0 == 0
  {}

  lemma Apart24(x: bv24, y: bv24)
    ensures Xor24(x, y) == 0 ==> x == y
  {}

  /** One bit into the register. */
  lemma BitIn24(x: bv24, t: bool)
    ensures Register24(Shift24(Xor24(x, Flip24(t)))) == Shifted(Divisor24(), Register24(x), t)
  {
    hide Shift24, Flip24, Taken24, Divisor24, Leading24, Xor24, High24, Left24, Scale;
    var y := Xor24(x, Flip24(t));
    FlipBits24(x, t);
    ShiftIs24(y);
    TakenIs24(High24(y));
    RegisterUp24(x);
    LeadingSum24(Left24(x), Taken24(High24(y)), 24);
  }

  function Below24(rem: bv8): bv24 { (rem & 0x7F) as bv24 << 16 }

  lemma Halves24(rem: bv8)
    ensures Raised24(rem) == Xor24(Flip24(High8(rem)), Below24(rem))
  {}

  lemma Regroup24(x: bv24, y: bv24, z: bv24)
    ensures Xor24(x, Xor24(y, z)) == Xor24(Xor24(x, y), z)
  {}

  lemma Parted24(x: bv24, rem: bv8)
    ensures Absorb24(x, rem) == Xor24(Xor24(x, Flip24(High8(rem))), Below24(rem))
  {
    hide Flip24, High8, Below24, Raised24, Xor24;
    Halves24(rem);
    Regroup24(x, Flip24(High8(rem)), Below24(rem));
  }

  lemma ShiftLow24(rem: bv8)
    ensures Shift24(Below24(rem)) == Raised24(Left8(rem))
  {}

  lemma LowShift24(x: bv24, rem: bv8)
    ensures Xor24(x, Shift24(Below24(rem))) == Absorb24(x, Left8(rem))
  {
    hide Shift24, Below24, Raised24, Xor24, Left8;
    ShiftLow24(rem);
  }

  lemma FirstBit24(x: bv24, rem: bv8)
    ensures Shift24(Absorb24(x, rem)) == Absorb24(Shift24(Xor24(x, Flip24(High8(rem)))), Left8(rem))
  {
    Parted24(x, rem);
    var y := Xor24(x, Flip24(High8(rem)));
    LowShift24(Shift24(y), rem);
    hide Shift24, Flip24, Absorb24, Xor24, Below24;
    Shift24Linear(y, Below24(rem));
  }

  lemma AbsorbNone24(x: bv24)
    ensures Absorb24(x, 0) == x
  {}

  /** An octet absorbed whole is its bits absorbed one by one. */
  lemma {:induction false} RoundsSerial24(x: bv24, rem: bv8, k: nat)
    requires Gone(rem, k)
    ensures Register24(Rounds24(Absorb24(x, rem), k)) == Serial(Divisor24(), Register24(x), Leading8(rem, k))
    decreases k
  {
    hide Shift24, Flip24, Absorb24, Xor24, Register24, Divisor24, Shifted, High8, Left8;
    if k == 0 {
      AbsorbNone24(x);
    } else {
      var t := High8(rem);
      var y := Shift24(Xor24(x, Flip24(t)));
      BitIn24(x, t);
      FirstBit24(x, rem);
      RoundsSerial24(y, Left8(rem), k - 1);
      hide Serial;
      SerialFirst(Divisor24(), Register24(x), t, Leading8(Left8(rem), k - 1));
    }
  }

  lemma {:induction false} FoldSerial24(x: bv24, data: bytes)
    ensures Register24(Fold24(x, data)) == Serial(Divisor24(), Register24(x), MessageBits(data))
    decreases |data|
  {
    hide Rounds24, Register24, Divisor24, Absorb24, Bits, OctetBits, Shifted, Gone, Leading8;
    if data != [] {
      var b := Bits(data[0]);
      AllGone(b);
      RoundsSerial24(x, b, 8);
      OctetIs(data[0]);
      FoldSerial24(Next24(x, b), data[1..]);
      SerialConcat(Divisor24(), Register24(x), OctetBits(data[0]), MessageBits(data[1..]));
    }
  }

  // ---- the checks ----

  lemma NoRegister24()
    ensures Register24(0) == Zeros(24)
  {
    LeadingNone24(24);
  }

  lemma Plain(w: bits, s: bits)
    ensures Codeword(Zeros(|s|), w, s) == w + s
  {}

  /** CRC-24Q: the check is the one that, behind the message, makes a multiple of x^24 + 0x864CFB. */
  lemma IsCrc24(data: bytes, c: bv24)
    ensures c == Crc24(data) <==> Multiple(MessageBits(data) + Register24(c), Divisor24())
  {
    hide Product, Register24, Divisor24, Fold24, Codeword, MessageBits;
    var w, g, r := MessageBits(data), Divisor24(), Register24(Crc24(data));
    FoldSerial24(0, data);
    NoRegister24();
    var p := SerialDivides(g, Zeros(24), w);
    Plain(w, r);
    Plain(w, Register24(c));
    if q :| |q| == |w| && Product(q, g) == w + Register24(c) {
      OneRemainder(g, Zeros(24), w, p, r, q, Register24(c));
      RegisterInjective24(c, Crc24(data));
    }
  }

  /**
   CRC-16/CCITT-FALSE: the check is the one that does so for x^16 + 0x1021 once the
   highest sixteen bits have been inverted.
   */
  lemma IsCrc16(data: bytes, c: bv16)
    ensures var w := MessageBits(data) + Register16(c);
      c == Crc16(data) <==> Multiple(Xor(w, Ones(16) + Zeros(8 * |data|)), Divisor16())
  {
    hide Product, Register16, Divisor16, Fold16, MessageBits;
    var w, g, r := MessageBits(data), Divisor16(), Register16(Crc16(data));
    FoldSerial16(0xFFFF, data);
    AllOnes16();
    var p := SerialDivides(g, Ones(16), w);
    if q :| |q| == |w| && Product(q, g) == Xor(w + Register16(c), Ones(16) + Zeros(8 * |data|)) {
      OneRemainder(g, Ones(16), w, p, r, q, Register16(c));
      RegisterInjective16(c, Crc16(data));
    }
  }

  /** The highest `k` bits are ones. */
  predicate Full16(x: bv16, k: nat)
    decreases k, x
  {
    k == 0 || (High16(x) && Full16(Left16(x), k - 1))
  }

  lemma {:induction false} FullOnes16(x: bv16, k: nat)
    requires Full16(x, k)
    ensures Leading16(x, k) == Ones(k)
    decreases k
  {
    hide High16, Left16;
    if k > 0 {
      FullOnes16(Left16(x), k - 1);
      assert [true] + Ones(k - 1) == Ones(k);
    }
  }

  lemma AllOnes16()
    ensures Register16(0xFFFF) == Ones(16)
  {
    assert Full16(0x0, 0);
    assert Full16(0x8000, 1);
    assert Full16(0xC000, 2);
    assert Full16(0xE000, 3);
    assert Full16(0xF000, 4);
    assert Full16(0xF800, 5);
    assert Full16(0xFC00, 6);
    assert Full16(0xFE00, 7);
    assert Full16(0xFF00, 8);
    assert Full16(0xFF80, 9);
    assert Full16(0xFFC0, 10);
    assert Full16(0xFFE0, 11);
    assert Full16(0xFFF0, 12);
    assert Full16(0xFFF8, 13);
    assert Full16(0xFFFC, 14);
    assert Full16(0xFFFE, 15);
    assert Full16(0xFFFF, 16);
    FullOnes16(0xFFFF, 16);
  }
}
