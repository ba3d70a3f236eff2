/** Octets and the big-endian integers the two wire formats are built from. */
module Bytes {

  newtype byte = b: int | 0 <= b < 256
  type bytes = seq<byte>
  type u16 = n: int | 0 <= n < 0x1_0000
  type u32 = n: int | 0 <= n < 0x1_0000_0000

  const U32_MAX: u32 := 0xFFFF_FFFF

  /** Unsigned 32-bit increment, as the firmware counters wrap. */
  function Inc32(n: u32): u32 { (n as int + 1) % 0x1_0000_0000 }

  function Be16(n: u16): (r: bytes)
    ensures |r| == 2
  {
    [(n / 256) as byte, (n % 256) as byte]
  }

  function Be32(n: u32): (r: bytes)
    ensures |r| == 4
  {
    Be16(n / 0x1_0000) + Be16(n % 0x1_0000)
  }

  function Get16(b: bytes, at: nat): (n: u16)
    requires at + 2 <= |b|
  {
    b[at] as int * 256 + b[at + 1] as int
  }

  function Get32(b: bytes, at: nat): (n: u32)
    requires at + 4 <= |b|
  {
    Get16(b, at) as int * 0x1_0000 + Get16(b, at + 2)
  }

  /** Reading back what was written, at any offset of any string. */
  lemma Be16RoundTrip(pre: bytes, n: u16, post: bytes)
    ensures Get16(pre + Be16(n) + post, |pre|) == n
  {
    var s := pre + Be16(n) + post;
    assert s[|pre|] as int == n / 256 && s[|pre| + 1] as int == n % 256;
  }

  lemma Be32RoundTrip(pre: bytes, n: u32, post: bytes)
    ensures Get32(pre + Be32(n) + post, |pre|) == n
  {
    var h, l := n / 0x1_0000, n % 0x1_0000;
    var s := pre + Be32(n) + post;
    assert s == pre + Be16(h) + (Be16(l) + post);
    Be16RoundTrip(pre, h, Be16(l) + post);
    assert s == (pre + Be16(h)) + Be16(l) + post;
    Be16RoundTrip(pre + Be16(h), l, post);
  }

  /** The four octets of a field are determined by its value. */
  lemma Get32Determines(b: bytes, at: nat)
    requires at + 4 <= |b|
    ensures b[at..at + 4] == Be32(Get32(b, at))
  {
    var h, l := Get16(b, at), Get16(b, at + 2);
    assert Get32(b, at) / 0x1_0000 == h && Get32(b, at) % 0x1_0000 == l;
    assert Be16(h) == [b[at], b[at + 1]];
    assert Be16(l) == [b[at + 2], b[at + 3]];
  }
}
