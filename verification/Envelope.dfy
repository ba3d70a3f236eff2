/**
 The envelope the USB frame and the radio packet share: two magic octets, a
 version, a type, two zero octets, two 32-bit words, a length, that many octets
 and a CRC-16 over everything before it.
 */
module Envelope {
  import opened Bytes
  import opened Wrappers
  import opened Crc

  const VERSION: byte := 1
  const M: byte := 0x4D
  const U: byte := 0x55
  const L: byte := 0x4C

  datatype Sealed = Sealed(typ: byte, first: u32, second: u32, payload: bytes)

  function Header(magic: byte, typ: byte, first: u32, second: u32, length: u16): (h: bytes)
    ensures |h| == 16
  {
    [M, magic, VERSION, typ, 0, 0] + Be32(first) + Be32(second) + Be16(length)
  }

  /** The octets of an envelope. */
  function Seal(magic: byte, s: Sealed): (b: bytes)
    requires |s.payload| < 0x1_0000
    ensures |b| == 18 + |s.payload|
  {
    var body := Header(magic, s.typ, s.first, s.second, |s.payload|) + s.payload;
    body + Tail16(Crc16(body))
  }

  /** The checks every receiver makes: magic, version, zero octets, exact length and CRC. */
  predicate WellSealed(magic: byte, b: bytes)
  {
    && 18 <= |b|
    && b[0] == M && b[1] == magic && b[2] == VERSION && b[4] == 0 && b[5] == 0
    && Get16(b, 14) + 18 == |b|
    && b[|b| - 2..] == Tail16(Crc16(b[..|b| - 2]))
  }

  function Open(b: bytes): (s: Sealed)
    requires 18 <= |b|
  {
    Sealed(b[3], Get32(b, 6), Get32(b, 10), b[16..|b| - 2])
  }

  lemma HeaderFields(magic: byte, typ: byte, first: u32, second: u32, length: u16, rest: bytes)
    ensures var b := Header(magic, typ, first, second, length) + rest;
      && b[0] == M && b[1] == magic && b[2] == VERSION && b[3] == typ && b[4] == 0 && b[5] == 0
      && Get32(b, 6) == first && Get32(b, 10) == second && Get16(b, 14) == length
  {
    var b := Header(magic, typ, first, second, length) + rest;
    var p := [M, magic, VERSION, typ, 0, 0];
    assert b == p + Be32(first) + (Be32(second) + Be16(length) + rest);
    Be32RoundTrip(p, first, Be32(second) + Be16(length) + rest);
    assert b == (p + Be32(first)) + Be32(second) + (Be16(length) + rest);
    Be32RoundTrip(p + Be32(first), second, Be16(length) + rest);
    assert b == (p + Be32(first) + Be32(second)) + Be16(length) + rest;
    Be16RoundTrip(p + Be32(first) + Be32(second), length, rest);
  }

  /** What was sealed passes the checks and opens to itself. */
  lemma SealOpens(magic: byte, s: Sealed)
    requires |s.payload| < 0x1_0000
    ensures WellSealed(magic, Seal(magic, s)) && Open(Seal(magic, s)) == s
  {
    hide Tail16, Crc16, Header, Get16, Get32;
    var h := Header(magic, s.typ, s.first, s.second, |s.payload|);
    var t := Tail16(Crc16(h + s.payload));
    var b := Seal(magic, s);
    assert b == h + (s.payload + t);
    HeaderFields(magic, s.typ, s.first, s.second, |s.payload|, s.payload + t);
    assert b[..|b| - 2] == h + s.payload && b[|b| - 2..] == t;
    assert b[16..|b| - 2] == s.payload;
  }

  /** An accepted string is the only one that opens to what it opens to. */
  lemma OpenSeals(magic: byte, b: bytes)
    requires WellSealed(magic, b)
    ensures |b| < 18 + 0x1_0000 && Seal(magic, Open(b)) == b
  {
    hide Tail16, Crc16;
    var s := Open(b);
    Get32Determines(b, 6);
    Get32Determines(b, 10);
    assert Be16(Get16(b, 14)) == b[14..16];
    assert b[..16] == b[..6] + b[6..10] + b[10..14] + b[14..16];
    assert b[..6] == [M, magic, VERSION, b[3], 0, 0];
    assert b[..|b| - 2] == b[..16] + s.payload;
    assert b == b[..|b| - 2] + b[|b| - 2..];
  }

  /** Two accepted strings with the same contents are the same string. */
  lemma OpenInjective(magic: byte, a: bytes, b: bytes)
    requires WellSealed(magic, a) && WellSealed(magic, b) && Open(a) == Open(b)
    ensures a == b
  {
    OpenSeals(magic, a);
    OpenSeals(magic, b);
  }

  /** No change within two consecutive octets goes unnoticed. */
  lemma BurstRejected(magic: byte, b: bytes, b': bytes, k: nat)
    requires WellSealed(magic, b) && SameOutside(b, b', k, 2) && b' != b
    ensures !WellSealed(magic, b')
  {
    hide Crc16, Tail16;
    CheckIsResidue16(b);
    CheckIsResidue16(b');
    if WellSealed(magic, b') {
      Burst16(b, b', k);
    }
  }
}
