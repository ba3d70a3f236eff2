/** Published check values and the octets of known frames. */
module Vectors {
  import opened Bytes
  import opened Crc
  import opened Envelope
  import Rtcm

  lemma OneDigit(n: nat, y: bv8, d: bv8)
    requires n > 0 && ToBits(n / 2) == y && d == (if n % 2 == 1 then 1 else 0)
    ensures ToBits(n) == (y << 1) | d
  {}

  lemma NoDigit()
    ensures ToBits(0) == 0
  {}

  lemma OctetBits()
    ensures Bits(0x0) == 0x0
    ensures Bits(0x1) == 0x1
    ensures Bits(0x2) == 0x2
    ensures Bits(0x3) == 0x3
    ensures Bits(0x31) == 0x31
    ensures Bits(0x32) == 0x32
    ensures Bits(0x33) == 0x33
    ensures Bits(0x34) == 0x34
    ensures Bits(0x35) == 0x35
    ensures Bits(0x36) == 0x36
    ensures Bits(0x37) == 0x37
    ensures Bits(0x38) == 0x38
    ensures Bits(0x39) == 0x39
    ensures Bits(0x4D) == 0x4D
    ensures Bits(0x55) == 0x55
    ensures Bits(0xD3) == 0xD3
  {
    NoDigit();
    hide ToBits;
    OneDigit(1, 0, 1);
    OneDigit(2, 1, 0);
    OneDigit(3, 1, 1);
    OneDigit(4, 2, 0);
    OneDigit(5, 2, 1);
    OneDigit(6, 3, 0);
    OneDigit(7, 3, 1);
    OneDigit(9, 4, 1);
    OneDigit(10, 5, 0);
    OneDigit(12, 6, 0);
    OneDigit(13, 6, 1);
    OneDigit(14, 7, 0);
    OneDigit(19, 9, 1);
    OneDigit(21, 10, 1);
    OneDigit(24, 12, 0);
    OneDigit(25, 12, 1);
    OneDigit(26, 13, 0);
    OneDigit(27, 13, 1);
    OneDigit(28, 14, 0);
    OneDigit(38, 19, 0);
    OneDigit(42, 21, 0);
    OneDigit(49, 24, 1);
    OneDigit(50, 25, 0);
    OneDigit(51, 25, 1);
    OneDigit(52, 26, 0);
    OneDigit(53, 26, 1);
    OneDigit(54, 27, 0);
    OneDigit(55, 27, 1);
    OneDigit(56, 28, 0);
    OneDigit(57, 28, 1);
    OneDigit(77, 38, 1);
    OneDigit(85, 42, 1);
    OneDigit(105, 52, 1);
    OneDigit(211, 105, 1);
  }

  lemma Folded24(x: bv24, data: bytes, k: nat)
    requires k < |data|
    ensures Fold24(x, data[k..]) == Fold24(Next24(x, Bits(data[k])), data[k + 1..])
  {
    hide Next24, Bits;
    assert data[k..][1..] == data[k + 1..];
  }

  lemma Folded24None(x: bv24, none: bytes)
    requires |none| == 0
    ensures Fold24(x, none) == x
  {}

  lemma Folded16(x: bv16, data: bytes, k: nat)
    requires k < |data|
    ensures Fold16(x, data[k..]) == Fold16(Next16(x, Bits(data[k])), data[k + 1..])
  {
    hide Next16, Bits;
    assert data[k..][1..] == data[k + 1..];
  }

  lemma Folded16None(x: bv16, none: bytes)
    requires |none| == 0
    ensures Fold16(x, none) == x
  {}

  lemma CheckValue24Registers()
    ensures Next24(0x0, 0x31) == 0x4FD39B
    ensures Next24(0x4FD39B, 0x32) == 0xB78C91
    ensures Next24(0xB78C91, 0x33) == 0x2C3045
    ensures Next24(0x2C3045, 0x34) == 0x548AB0
    ensures Next24(0x548AB0, 0x35) == 0x198EC0
    ensures Next24(0x198EC0, 0x36) == 0xBCEFC7
    ensures Next24(0xBCEFC7, 0x37) == 0x71986B
    ensures Next24(0x71986B, 0x38) == 0xA60510
    ensures Next24(0xA60510, 0x39) == 0xCDE703
  {}

  /** The CRC-24Q of "123456789". */
  lemma CheckValue24(data: bytes)
    requires |data| == 9
    requires data[0] == 0x31 && data[1] == 0x32 && data[2] == 0x33 && data[3] == 0x34 && data[4] == 0x35
    requires data[5] == 0x36 && data[6] == 0x37 && data[7] == 0x38 && data[8] == 0x39
    ensures Crc24(data) == 0xCDE703
  {
    hide Bits, Next24, Fold24;
    OctetBits();
    CheckValue24Registers();
    assert data[0..] == data;
    Folded24(0x0, data, 0);
    Folded24(0x4FD39B, data, 1);
    Folded24(0xB78C91, data, 2);
    Folded24(0x2C3045, data, 3);
    Folded24(0x548AB0, data, 4);
    Folded24(0x198EC0, data, 5);
    Folded24(0xBCEFC7, data, 6);
    Folded24(0x71986B, data, 7);
    Folded24(0xA60510, data, 8);
    Folded24None(0xCDE703, data[9..]);
  }

  lemma CheckValue16Registers()
    ensures Next16(0xFFFF, 0x31) == 0xC782
    ensures Next16(0xC782, 0x32) == 0x3DBA
    ensures Next16(0x3DBA, 0x33) == 0x5BCE
    ensures Next16(0x5BCE, 0x34) == 0x5349
    ensures Next16(0x5349, 0x35) == 0x4560
    ensures Next16(0x4560, 0x36) == 0x2EF4
    ensures Next16(0x2EF4, 0x37) == 0x7718
    ensures Next16(0x7718, 0x38) == 0xA12B
    ensures Next16(0xA12B, 0x39) == 0x29B1
  {}

  /** The CRC-16 of "123456789", which the firmware verifies when it starts. */
  lemma CheckValue16(data: bytes)
    requires |data| == 9
    requires data[0] == 0x31 && data[1] == 0x32 && data[2] == 0x33 && data[3] == 0x34 && data[4] == 0x35
    requires data[5] == 0x36 && data[6] == 0x37 && data[7] == 0x38 && data[8] == 0x39
    ensures Crc16(data) == 0x29B1
  {
    hide Bits, Next16, Fold16;
    OctetBits();
    CheckValue16Registers();
    assert data[0..] == data;
    Folded16(0xFFFF, data, 0);
    Folded16(0xC782, data, 1);
    Folded16(0x3DBA, data, 2);
    Folded16(0x5BCE, data, 3);
    Folded16(0x5349, data, 4);
    Folded16(0x4560, data, 5);
    Folded16(0x2EF4, data, 6);
    Folded16(0x7718, data, 7);
    Folded16(0xA12B, data, 8);
    Folded16None(0x29B1, data[9..]);
  }

  lemma UsbCheckRegisters()
    ensures Next16(0xFFFF, 0x4D) == 0x7899
    ensures Next16(0x7899, 0x55) == 0x6CCF
    ensures Next16(0x6CCF, 0x1) == 0x720B
    ensures Next16(0x720B, 0x3) == 0x65B6
    ensures Next16(0x65B6, 0x0) == 0x8A03
    ensures Next16(0x8A03, 0x0) == 0x33C2
    ensures Next16(0x33C2, 0x0) == 0xC430
    ensures Next16(0xC430, 0x0) == 0xA9C8
    ensures Next16(0xA9C8, 0x0) == 0xECC3
    ensures Next16(0xECC3, 0x1) == 0xEF83
    ensures Next16(0xEF83, 0x0) == 0x8FC1
    ensures Next16(0x8FC1, 0x0) == 0xA167
    ensures Next16(0xA167, 0x0) == 0xC2CB
    ensures Next16(0xC2CB, 0x2) == 0x124C
    ensures Next16(0x124C, 0x0) == 0x7E73
    ensures Next16(0x7E73, 0x0) == 0xEC59
  {}

  /** The CRC-16 of a HELLO without its check. */
  lemma UsbCheck(data: bytes)
    requires |data| == 16
    requires data[0] == 0x4D && data[1] == 0x55 && data[2] == 0x1 && data[3] == 0x3 && data[4] == 0x0
    requires data[5] == 0x0 && data[6] == 0x0 && data[7] == 0x0 && data[8] == 0x0 && data[9] == 0x1
    requires data[10] == 0x0 && data[11] == 0x0 && data[12] == 0x0 && data[13] == 0x2 && data[14] == 0x0
    requires data[15] == 0x0
    ensures Crc16(data) == 0xEC59
  {
    hide Bits, Next16, Fold16;
    OctetBits();
    UsbCheckRegisters();
    assert data[0..] == data;
    Folded16(0xFFFF, data, 0);
    Folded16(0x7899, data, 1);
    Folded16(0x6CCF, data, 2);
    Folded16(0x720B, data, 3);
    Folded16(0x65B6, data, 4);
    Folded16(0x8A03, data, 5);
    Folded16(0x33C2, data, 6);
    Folded16(0xC430, data, 7);
    Folded16(0xA9C8, data, 8);
    Folded16(0xECC3, data, 9);
    Folded16(0xEF83, data, 10);
    Folded16(0x8FC1, data, 11);
    Folded16(0xA167, data, 12);
    Folded16(0xC2CB, data, 13);
    Folded16(0x124C, data, 14);
    Folded16(0x7E73, data, 15);
    Folded16None(0xEC59, data[16..]);
  }

  lemma EmptyCheckRegisters()
    ensures Next24(0x0, 0xD3) == 0xE33309
    ensures Next24(0xE33309, 0x0) == 0x19A569
    ensures Next24(0x19A569, 0x0) == 0x47EA4B
  {}

  /** The CRC-24Q of an RTCM3 header without payload. */
  lemma EmptyCheck(data: bytes)
    requires |data| == 3
    requires data[0] == 0xD3 && data[1] == 0x0 && data[2] == 0x0
    ensures Crc24(data) == 0x47EA4B
  {
    hide Bits, Next24, Fold24;
    OctetBits();
    EmptyCheckRegisters();
    assert data[0..] == data;
    Folded24(0x0, data, 0);
    Folded24(0xE33309, data, 1);
    Folded24(0x19A569, data, 2);
    Folded24None(0x47EA4B, data[3..]);
  }

  /** The frame the firmware checks itself against when it starts: HELLO, session 1, sequence 2. */
  lemma UsbVector()
    ensures Seal(U, Sealed(0x03, 1, 2, []))
         == [0x4D, 0x55, 1, 0x03, 0, 0, 0, 0, 0, 1, 0, 0, 0, 2, 0, 0, 0xEC, 0x59]
  {
    var none: bytes := [];
    var head := Header(U, 0x03, 1, 2, 0);
    assert head + none == [0x4D, 0x55, 1, 3, 0, 0, 0, 0, 0, 1, 0, 0, 0, 2, 0, 0];
    UsbCheck(head + none);
    var t := Tail16(0xEC59);
    CheckOctets();
    BitsInjective(t[0], 0xEC);
    BitsInjective(t[1], 0x59);
    assert t == [0xEC, 0x59];
  }

  lemma CheckOctets()
    ensures Bits(0xEC) == Hi16(0xEC59) && Bits(0x59) == Lo16(0xEC59)
    ensures Bits(0x47) == Hi24(0x47EA4B) && Bits(0xEA) == Mid24(0x47EA4B) && Bits(0x4B) == Lo24(0x47EA4B)
  {
    NoDigit();
    OneDigits();
  }

  lemma OneDigits()
    ensures ToBits(0xEC) == 0xEC && ToBits(0x59) == 0x59
    ensures ToBits(0x47) == 0x47 && ToBits(0xEA) == 0xEA && ToBits(0x4B) == 0x4B
  {
    NoDigit();
    hide ToBits;
    OneDigit(1, 0, 1);
    OneDigit(2, 1, 0);
    OneDigit(3, 1, 1);
    OneDigit(4, 2, 0);
    OneDigit(5, 2, 1);
    OneDigit(7, 3, 1);
    OneDigit(8, 4, 0);
    OneDigit(9, 4, 1);
    OneDigit(11, 5, 1);
    OneDigit(14, 7, 0);
    OneDigit(17, 8, 1);
    OneDigit(18, 9, 0);
    OneDigit(22, 11, 0);
    OneDigit(29, 14, 1);
    OneDigit(35, 17, 1);
    OneDigit(37, 18, 1);
    OneDigit(44, 22, 0);
    OneDigit(58, 29, 0);
    OneDigit(59, 29, 1);
    OneDigit(71, 35, 1);
    OneDigit(75, 37, 1);
    OneDigit(89, 44, 1);
    OneDigit(117, 58, 1);
    OneDigit(118, 59, 0);
    OneDigit(234, 117, 0);
    OneDigit(236, 118, 0);
  }

  /** The shortest RTCM3 frame, with no payload, is valid. */
  lemma EmptyFrame()
    ensures Rtcm.Valid([0xD3, 0, 0, 0x47, 0xEA, 0x4B])
  {
    var raw: bytes := [0xD3, 0, 0, 0x47, 0xEA, 0x4B];
    assert raw[..3] == [0xD3, 0, 0];
    EmptyCheck(raw[..3]);
    var t := Tail24(0x47EA4B);
    CheckOctets();
    BitsInjective(t[0], 0x47);
    BitsInjective(t[1], 0xEA);
    BitsInjective(t[2], 0x4B);
    assert raw[3..] == t;
  }
}
