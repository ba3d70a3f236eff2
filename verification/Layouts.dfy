/** Where the fields stand: over the bits of an RTCM3 header, and over the octets of everything that is sent. */
module Layouts {
  import opened Bytes
  import opened Wrappers
  import opened Envelope
  import opened UsbProtocol
  import opened Polynomials
  import opened Remainders
  import A = Application
  import F = Firmware
  import Rtcm

  // ---- bits -----------------------------------------------------------------------------

  /** `a` followed by `j` zero bits. */
  function Times(a: nat, j: nat): nat { if j == 0 then a else 2 * Times(a, j - 1) }

  /** The digits of a number split anywhere. */
  lemma {:induction false} DigitsSplit(a: nat, b: nat, k: nat, j: nat)
    requires b < Times(1, j)
    ensures Digits(Times(a, j) + b, k + j) == Digits(a, k) + Digits(b, j)
    decreases j
  {
    if j > 0 {
      var n := Times(a, j) + b;
      assert n / 2 == Times(a, j - 1) + b / 2 && n % 2 == b % 2;
      DigitsSplit(a, b / 2, k, j - 1);
      assert Digits(n, k + j) == Digits(n / 2, k + j - 1) + [n % 2 == 1];
      assert Digits(b, j) == Digits(b / 2, j - 1) + [b % 2 == 1];
      Regroup(Digits(a, k), Digits(b / 2, j - 1), [b % 2 == 1]);
    } else {
      assert Digits(a, k) + Digits(b, 0) == Digits(a, k);
    }
  }

  lemma Regroup<T>(a: seq<T>, b: seq<T>, c: seq<T>)
    ensures (a + b) + c == a + (b + c)
  {}

  lemma Power(a: nat)
    ensures Times(a, 4) == 16 * a && Times(a, 8) == 256 * a && Times(a, 10) == 1024 * a
  {
    Fourfold(a, 0);
    Fourfold(a, 2);
    Fourfold(a, 4);
    Fourfold(a, 6);
    Fourfold(a, 8);
    assert Times(a, 0) == a;
  }

  lemma Fourfold(a: nat, j: nat)
    ensures Times(a, j + 2) == 4 * Times(a, j)
  {
    assert Times(a, j + 2) == 2 * Times(a, j + 1);
  }

  /** A number with eight, ten or four more binary digits. */
  lemma Joined(a: nat, b: nat)
    ensures b < 256 ==> Digits(256 * a + b, 16) == Digits(a, 8) + Digits(b, 8)
    ensures b < 1024 ==> Digits(1024 * a + b, 16) == Digits(a, 6) + Digits(b, 10)
    ensures b < 16 ==> Digits(16 * a + b, 16) == Digits(a, 12) + Digits(b, 4)
  {
    hide Digits;
    Power(a);
    var one := 1;
    Power(one);
    if b < 256 { DigitsSplit(a, b, 8, 8); }
    if b < 1024 { DigitsSplit(a, b, 6, 10); }
    if b < 16 { DigitsSplit(a, b, 12, 4); }
  }

  lemma {:induction false} BitsApart(a: bytes, b: bytes)
    ensures MessageBits(a + b) == MessageBits(a) + MessageBits(b)
    decreases |a|
  {
    if a == [] {
      assert a + b == b;
    } else {
      assert (a + b)[0] == a[0] && (a + b)[1..] == a[1..] + b;
      BitsApart(a[1..], b);
      Regroup(OctetBits(a[0]), MessageBits(a[1..]), MessageBits(b));
    }
  }

  lemma TwoOctets(two: bytes)
    requires |two| == 2
    ensures MessageBits(two) == Digits(Get16(two, 0), 16)
  {
    hide Digits;
    var x, y := two[0] as int, two[1] as int;
    var none: bytes := [];
    assert two[1..][1..] == none && two[1..][0] == two[1];
    assert MessageBits(two[1..]) == OctetBits(two[1]) + MessageBits(none) == OctetBits(two[1]);
    Joined(x, y);
  }

  /** The sixteen bits from octet `at` on. */
  lemma BitsAt(raw: bytes, at: nat)
    requires at + 2 <= |raw|
    ensures MessageBits(raw)[8 * at..8 * at + 16] == Digits(Get16(raw, at), 16)
  {
    hide MessageBits, Digits, Get16;
    var a, b, c := raw[..at], raw[at..at + 2], raw[at + 2..];
    assert raw == a + (b + c);
    BitsApart(a, b + c);
    BitsApart(b, c);
    TwoOctets(b);
    SameGet(raw, at);
    Inside(MessageBits(a), MessageBits(b), MessageBits(c));
  }

  lemma SameGet(raw: bytes, at: nat)
    requires at + 2 <= |raw|
    ensures Get16(raw[at..at + 2], 0) == Get16(raw, at)
  {}

  lemma Inside(a: bits, b: bits, c: bits)
    ensures (a + (b + c))[|a|..|a| + |b|] == b
  {}

  /**
   The header of an RTCM3 frame over its bits: eight of preamble, six reserved, ten of
   payload length; and the message number is the first twelve bits of the payload.
   */
  lemma HeaderBits(raw: bytes)
    requires 6 <= |raw|
    ensures var b := MessageBits(raw);
      && b[..8] == Digits(raw[0] as int, 8)
      && b[8..14] == Digits(Rtcm.Reserved(raw), 6)
      && b[14..24] == Digits(Rtcm.PayloadLength(raw), 10)
      && b[24..36] == Digits(Rtcm.MessageType(raw), 12)
  {
    hide MessageBits, Digits, Get16, Rtcm.Reserved, Rtcm.PayloadLength, Rtcm.MessageType;
    assert MessageBits(raw)[..8] == Digits(raw[0] as int, 8) by {
      First(raw);
    }
    BitsAt(raw, 1);
    BitsAt(raw, 3);
    var r, n, t := Rtcm.Reserved(raw), Rtcm.PayloadLength(raw), Rtcm.MessageType(raw);
    Fields(raw);
    Joined(r, n);
    Joined(t, Get16(raw, 3) % 16);
    Parts(MessageBits(raw), Digits(r, 6), Digits(n, 10), Digits(t, 12), Digits(Get16(raw, 3) % 16, 4));
  }

  lemma Fields(raw: bytes)
    requires 6 <= |raw|
    ensures Get16(raw, 1) == 1024 * Rtcm.Reserved(raw) + Rtcm.PayloadLength(raw)
    ensures Rtcm.PayloadLength(raw) < 1024 && Get16(raw, 3) == 16 * Rtcm.MessageType(raw) + Get16(raw, 3) % 16
  {}

  lemma First(raw: bytes)
    requires raw != []
    ensures MessageBits(raw)[..8] == Digits(raw[0] as int, 8)
  {}

  lemma Parts(b: bits, r: bits, n: bits, t: bits, u: bits)
    requires |b| >= 40 && |r| == 6 && |n| == 10 && |t| == 12
    requires b[8..24] == r + n && b[24..40] == t + u
    ensures b[8..14] == r && b[14..24] == n && b[24..36] == t
  {
    assert b[8..14] == b[8..24][..6] && b[14..24] == b[8..24][6..] && b[24..36] == b[24..40][..12];
  }

  lemma {:induction false} DigitsDiffer(a: nat, b: nat, k: nat)
    requires a < Times(1, k) && b < Times(1, k) && Digits(a, k) == Digits(b, k)
    ensures a == b
    decreases k
  {
    if k > 0 {
      assert Digits(a, k) == Digits(a / 2, k - 1) + [a % 2 == 1];
      assert Digits(b, k) == Digits(b / 2, k - 1) + [b % 2 == 1];
      assert Digits(a, k)[..k - 1] == Digits(a / 2, k - 1) && Digits(b, k)[..k - 1] == Digits(b / 2, k - 1);
      assert Digits(a, k)[k - 1] == (a % 2 == 1) && Digits(b, k)[k - 1] == (b % 2 == 1);
      DigitsDiffer(a / 2, b / 2, k - 1);
    }
  }

  lemma HeaderDigits(a: nat, b: nat)
    ensures a < 64 && b < 64 && Digits(a, 6) == Digits(b, 6) ==> a == b
    ensures a < 1024 && b < 1024 && Digits(a, 10) == Digits(b, 10) ==> a == b
  {
    hide Digits;
    var one := 1;
    Power(one);
    Fourfold(one, 4);
    if a < 64 && b < 64 && Digits(a, 6) == Digits(b, 6) { DigitsDiffer(a, b, 6); }
    if a < 1024 && b < 1024 && Digits(a, 10) == Digits(b, 10) { DigitsDiffer(a, b, 10); }
  }

  /**
   What a valid frame is, over its bits: the preamble, six zeros, the payload's length in
   ten bits, and, read as a polynomial and raised by 24, a multiple of the generator.
   */
  lemma RtcmExactly(raw: bytes)
    ensures Rtcm.Valid(raw) <==>
      && 6 <= |raw| <= 1029 && raw[0] == 0xD3
      && var b := MessageBits(raw);
        && b[8..14] == Digits(0, 6) && b[14..24] == Digits(|raw| - 6, 10)
        && Multiple(b + Zeros(24), Divisor24())
  {
    hide MessageBits, Digits, Crc.Crc24, Crc.Tail24, Register24, Zeros, Multiple, Divisor24;
    if 6 <= |raw| {
      HeaderBits(raw);
      IsCrc24(raw, 0);
      NoRegister24();
      Crc.CheckIsResidue24(raw);
      Short(raw);
      HeaderDigits(Rtcm.Reserved(raw), 0);
      if |raw| <= 1029 { HeaderDigits(Rtcm.PayloadLength(raw), |raw| - 6); }
    }
  }

  lemma Short(raw: bytes)
    requires 6 <= |raw|
    ensures Rtcm.Reserved(raw) < 64 && Rtcm.PayloadLength(raw) < 1024
  {}

  // ---- octets ----------------------------------------------------------------------------

  /** The octets at `at`, the most significant first, are the number. */
  predicate Big16(b: bytes, at: nat, n: u16)
    requires at + 2 <= |b|
  {
    n == b[at] as int * 0x100 + b[at + 1] as int
  }

  predicate Big32(b: bytes, at: nat, n: u32)
    requires at + 4 <= |b|
  {
    n == b[at] as int * 0x100_0000 + b[at + 1] as int * 0x1_0000 + b[at + 2] as int * 0x100 + b[at + 3] as int
  }

  /** A USB frame or a radio packet, octet by octet. */
  lemma SealLayout(magic: byte, s: Sealed)
    requires |s.payload| < 0x1_0000
    ensures var b := Seal(magic, s);
      && |b| == 18 + |s.payload| && b[0] == 0x4D && b[1] == magic && b[2] == 1 && b[3] == s.typ && b[4] == b[5] == 0
      && Big32(b, 6, s.first) && Big32(b, 10, s.second) && Big16(b, 14, |s.payload|)
      && b[16..16 + |s.payload|] == s.payload
  {
    hide Crc.Crc16, Crc.Tail16, Header;
    var h := Header(magic, s.typ, s.first, s.second, |s.payload|);
    var t := Crc.Tail16(Crc.Crc16(h + s.payload));
    assert Seal(magic, s) == h + (s.payload + t);
    HeaderFields(magic, s.typ, s.first, s.second, |s.payload|, s.payload + t);
  }

  /** A packet on the air carries the modem's boot id, its number, and exactly the payload. */
  lemma PacketLayout(boot: u32, air: u32, payload: bytes)
    requires |payload| <= MAX_AIR_PAYLOAD
    ensures var b := RadioPacket(boot, air, payload);
      && |b| == 18 + |payload| && b[0] == 0x4D && b[1] == 0x4C && b[2] == 1 && b[3] == 1 && b[4] == b[5] == 0
      && Big32(b, 6, boot) && Big32(b, 10, air) && Big16(b, 14, |payload|) && b[16..16 + |payload|] == payload
  {
    hide Seal;
    SealLayout(0x4C, Sealed(1, boot, air, payload));
  }

  /** Exactly these frames can be encoded. */
  lemma EncodesExactly(f: A.Frame)
    ensures A.Encode(f).Ok? <==> f.session != 0 && f.id != 0 && |f.body| <= 180
  {}

  /** An application frame, octet by octet. */
  lemma ApplicationLayout(f: A.Frame)
    requires A.Encode(f).Ok?
    ensures var b := A.Encode(f).value;
      && |b| == 20 + |f.body| && b[0] == 0x4D && b[1] == 0x41 && b[2] == 1 && b[3] == f.typ && b[4] == b[5] == 0
      && Big32(b, 6, f.session) && Big32(b, 10, f.id) && Big16(b, 14, f.age) && Big16(b, 16, |f.body|)
      && b[18..18 + |f.body|] == f.body
  {
    hide Crc.Crc16, Crc.Tail16, A.Unchecked;
    A.UncheckedFields(f, Crc.Tail16(Crc.Crc16(A.Unchecked(f))));
  }

  // ---- what the modem says ------------------------------------------------------------------

  /** Words one after the other. */
  function Words(ws: seq<u32>): (b: bytes)
    ensures |b| == 4 * |ws|
    decreases |ws|
  {
    if ws == [] then [] else Be32(ws[0]) + Words(ws[1..])
  }

  lemma {:induction false} WordAt(ws: seq<u32>, k: nat, rest: bytes)
    requires k < |ws|
    ensures Big32(Words(ws) + rest, 4 * k, ws[k])
    decreases k
  {
    var none: bytes := [];
    var tail := Words(ws[1..]) + rest;
    assert Words(ws) + rest == Be32(ws[0]) + tail;
    if k == 0 {
      assert none + Be32(ws[0]) + tail == Be32(ws[0]) + tail;
      Be32RoundTrip(none, ws[0], tail);
    } else {
      WordAt(ws[1..], k - 1, rest);
      Moved(Be32(ws[0]), tail, 4 * (k - 1), ws[k]);
    }
  }

  lemma Moved(a: bytes, b: bytes, at: nat, n: u32)
    requires at + 4 <= |b| && Big32(b, at, n)
    ensures Big32(a + b, |a| + at, n)
  {}

  /** A word behind anything, and before anything. */
  lemma WordBehind(a: bytes, ws: seq<u32>, k: nat, rest: bytes)
    requires k < |ws|
    ensures Big32(a + (Words(ws) + rest), |a| + 4 * k, ws[k])
  {
    WordAt(ws, k, rest);
    hide Words, Big32;
    Moved(a, Words(ws) + rest, 4 * k, ws[k]);
  }

  lemma {:induction false} WordMore(ws: seq<u32>, n: u32)
    ensures Words(ws + [n]) == Words(ws) + Be32(n)
    decreases |ws|
  {
    var none: seq<u32> := [];
    if ws == [] {
      assert ws + [n] == [n] && [n][1..] == none;
    } else {
      assert (ws + [n])[0] == ws[0] && (ws + [n])[1..] == ws[1..] + [n];
      WordMore(ws[1..], n);
    }
  }

  lemma ThreeWords(a: u32, b: u32, c: u32)
    ensures Words([a, b, c]) == Be32(a) + Be32(b) + Be32(c)
  {
    hide Words, Be32;
    WordMore([], a);
    WordMore([a], b);
    WordMore([a, b], c);
    Nothing();
    assert [] + [a] == [a] && [a] + [b] == [a, b] && [a, b] + [c] == [a, b, c];
  }

  lemma Nothing()
    ensures Words([]) == []
  {}

  lemma SixWords(a: u32, b: u32, c: u32, d: u32, e: u32, f: u32)
    ensures Words([a, b, c, d, e, f]) == Be32(a) + Be32(b) + Be32(c) + Be32(d) + Be32(e) + Be32(f)
  {
    hide Words, Be32;
    ThreeWords(a, b, c);
    WordMore([a, b, c], d);
    WordMore([a, b, c, d], e);
    WordMore([a, b, c, d, e], f);
    assert [a, b, c] + [d] == [a, b, c, d] && [a, b, c, d] + [e] == [a, b, c, d, e];
    assert [a, b, c, d, e] + [f] == [a, b, c, d, e, f];
  }

  lemma Plain(ws: seq<u32>, k: nat)
    requires k < |ws|
    ensures Big32(Words(ws), 4 * k, ws[k])
  {
    var none: bytes := [];
    WordAt(ws, k, none);
    assert Words(ws) + none == Words(ws);
  }

  /** A result says which boot, which number on the air, and how long it took, by a clock that wraps around. */
  lemma ResultLayout(boot: u32, air: u32, start: u32, took: u32)
    ensures var b := F.TxOkBody(boot, air, start, (start + took) % 0x1_0000_0000);
      && |b| == 12 && Big32(b, 0, boot) && Big32(b, 4, air) && Big32(b, 8, took)
  {
    hide Be32, Words, Big32;
    var ws := [boot, air, took];
    ThreeWords(boot, air, took);
    Plain(ws, 0);
    Plain(ws, 1);
    Plain(ws, 2);
    assert (((start + took) % 0x1_0000_0000) - start) % 0x1_0000_0000 == took;
  }

  /** The status: boot, uptime, what the radio does, three zero octets, and six counters. */
  lemma StatusLayout(boot: u32, rs: F.Radio, c: F.Counters, e: F.Env)
    ensures var b := F.StatusBody(boot, rs, c, e);
      && |b| == 36 && Big32(b, 0, boot) && Big32(b, 4, e.millis)
      && b[8] == (match rs case Down => 0 case Recv => 1 case Transmitting => 2) && b[9] == b[10] == b[11] == 0
      && Big32(b, 12, c.tx) && Big32(b, 16, c.rx) && Big32(b, 20, c.rxBad) && Big32(b, 24, c.usbBad)
      && Big32(b, 28, c.radio) && Big32(b, 32, c.drops)
  {
    hide Words, Big32, Be32;
    var state: bytes := [match rs case Down => 0 case Recv => 1 case Transmitting => 2, 0, 0, 0];
    var none: bytes := [];
    var ws := [c.tx, c.rx, c.rxBad, c.usbBad, c.radio, c.drops];
    SixWords(c.tx, c.rx, c.rxBad, c.usbBad, c.radio, c.drops);
    var head := Be32(boot) + Be32(e.millis) + state;
    Gathered(head, Be32(c.tx), Be32(c.rx), Be32(c.rxBad), Be32(c.usbBad), Be32(c.radio), Be32(c.drops));
    Regroup(Be32(boot) + Be32(e.millis), state, Words(ws));
    HeadReads(boot, e.millis, state + Words(ws));
    forall k: nat | k < 6
      ensures Big32(head + Words(ws), 12 + 4 * k, ws[k])
    {
      Plain(ws, k);
      Moved(head, Words(ws), 4 * k, ws[k]);
    }
    assert F.StatusBody(boot, rs, c, e) == head + Words(ws);
    StatusWords(head + Words(ws), ws);
  }

  /** The counters of a status. */
  lemma StatusWords(b: bytes, ws: seq<u32>)
    requires |b| == 36 && |ws| == 6 && forall k: nat :: k < 6 ==> Big32(b, 12 + 4 * k, ws[k])
    ensures Big32(b, 12, ws[0]) && Big32(b, 16, ws[1]) && Big32(b, 20, ws[2]) && Big32(b, 24, ws[3])
    ensures Big32(b, 28, ws[4]) && Big32(b, 32, ws[5])
  {
    hide Big32;
    assert Big32(b, 12 + 4 * 0, ws[0]) && Big32(b, 12 + 4 * 1, ws[1]) && Big32(b, 12 + 4 * 2, ws[2]);
    assert Big32(b, 12 + 4 * 3, ws[3]) && Big32(b, 12 + 4 * 4, ws[4]) && Big32(b, 12 + 4 * 5, ws[5]);
  }

  lemma Gathered(h: bytes, a: bytes, b: bytes, c: bytes, d: bytes, e: bytes, f: bytes)
    ensures h + a + b + c + d + e + f == h + (a + b + c + d + e + f)
  {}

  lemma HeadReads(m: u32, n: u32, rest: bytes)
    ensures var b := Be32(m) + Be32(n) + rest; Big32(b, 0, m) && Big32(b, 4, n)
  {
    var none: bytes := [];
    assert none + Be32(m) + (Be32(n) + rest) == Be32(m) + Be32(n) + rest;
    Be32RoundTrip(none, m, Be32(n) + rest);
    Be32RoundTrip(Be32(m), n, rest);
  }

  /** The diagnostics: ten counters, a word each, in this order. */
  lemma DiagnosticsLayout(c: F.Counters, queued: u32)
    ensures var b := F.DiagnosticsBody(c, queued);
      && |b| == 40
      && Big32(b, 0, c.usbFrames) && Big32(b, 4, c.usbAccepted) && Big32(b, 8, c.sendAccepted)
      && Big32(b, 12, c.txStarted) && Big32(b, 16, c.tx) && Big32(b, 20, c.rx) && Big32(b, 24, c.rxEventQueued)
      && Big32(b, 28, c.rxEventWritten) && Big32(b, 32, c.drops) && Big32(b, 36, queued)
  {
    hide Be32, Words, Big32;
    var six := [c.usbFrames, c.usbAccepted, c.sendAccepted, c.txStarted, c.tx, c.rx];
    var ws := six + [c.rxEventQueued] + [c.rxEventWritten] + [c.drops] + [queued];
    SixWords(c.usbFrames, c.usbAccepted, c.sendAccepted, c.txStarted, c.tx, c.rx);
    WordMore(six, c.rxEventQueued);
    WordMore(six + [c.rxEventQueued], c.rxEventWritten);
    WordMore(six + [c.rxEventQueued] + [c.rxEventWritten], c.drops);
    WordMore(six + [c.rxEventQueued] + [c.rxEventWritten] + [c.drops], queued);
    Plain(ws, 0);
    Plain(ws, 1);
    Plain(ws, 2);
    Plain(ws, 3);
    Plain(ws, 4);
    Plain(ws, 5);
    Plain(ws, 6);
    Plain(ws, 7);
    Plain(ws, 8);
    Plain(ws, 9);
  }

  /** What the modem says of a packet it heard: who sent it, its number, how it was heard, when, and its payload. */
  lemma EventLayout(boot: u32, air: u32, payload: bytes, rssi: u16, snr: u16, uptime: u32)
    requires |payload| <= MAX_AIR_PAYLOAD
    ensures var b := RxEvent(RadioPacket(boot, air, payload), rssi, snr, uptime);
      && |b| == 16 + |payload| && Big32(b, 0, boot) && Big32(b, 4, air) && Big16(b, 8, rssi) && Big16(b, 10, snr)
      && Big32(b, 12, uptime) && b[16..] == payload
  {
    hide Seal, Open, Words, Big32;
    SealOpens(0x4C, Sealed(1, boot, air, payload));
    var head := Be32(boot) + Be32(air) + Be16(rssi) + Be16(snr);
    var b := RxEvent(RadioPacket(boot, air, payload), rssi, snr, uptime);
    assert b == Be32(boot) + Be32(air) + (Be16(rssi) + Be16(snr) + Be32(uptime) + payload);
    HeadReads(boot, air, Be16(rssi) + Be16(snr) + Be32(uptime) + payload);
    WordMore([], uptime);
    Nothing();
    assert [] + [uptime] == [uptime];
    WordBehind(head, [uptime], 0, payload);
    assert b == head + (Words([uptime]) + payload);
    Signal(Be32(boot) + Be32(air), rssi, snr, Be32(uptime) + payload);
    assert b == (Be32(boot) + Be32(air)) + Be16(rssi) + Be16(snr) + (Be32(uptime) + payload);
  }

  lemma Signal(a: bytes, rssi: u16, snr: u16, rest: bytes)
    ensures var b := a + Be16(rssi) + Be16(snr) + rest; Big16(b, |a|, rssi) && Big16(b, |a| + 2, snr)
  {
    assert a + Be16(rssi) + (Be16(snr) + rest) == a + Be16(rssi) + Be16(snr) + rest;
    Be16RoundTrip(a, rssi, Be16(snr) + rest);
    Be16RoundTrip(a + Be16(rssi), snr, rest);
  }
}
