/** What a failed write leaves on the wire, and what the modem makes of it once the next delimiter comes. */
module Truncation {
  import opened Bytes
  import opened Wrappers
  import opened Envelope
  import opened UsbProtocol
  import opened Transport
  import Cobs
  import Crc

  // ---- a stuffed string cut short ------------------------------------------------

  /** A string shorter than its first code calls for. */
  lemma CutBlock(e: bytes)
    requires e == [] || (e[0] != 0 && e[0] as int > |e|)
    ensures Cobs.Decode(e).Err?
  {}

  /** The encoding ends in an empty block behind a full one. */
  predicate EndsFull(d: bytes)
    decreases |d|
  {
    var k := Cobs.Run(d);
    if k == Cobs.FULL then |d| == Cobs.FULL || EndsFull(d[Cobs.FULL..]) else k < |d| && EndsFull(d[k + 1..])
  }

  /**
   What a stuffed string cut short stands for is a prefix. It is all exactly if
   nothing is missing, or one octet that is the code of an empty block behind a full one.
   */
  ghost predicate StandsFor(e: bytes, d: bytes, missing: nat, endsFull: bool) {
    && (Cobs.Decode(e).Ok? ==> Cobs.Decode(e).value <= d)
    && (Cobs.Decode(e) == Ok(d) <==> missing == 0 || (missing == 1 && endsFull))
  }

  /** Cutting behind the first block cuts what follows it. */
  lemma CutLater(block: bytes, rest: bytes, d: bytes, k: nat, endsFull: bool)
    requires |block| <= Cobs.FULL && 0 < k <= |rest| && StandsFor(rest[..k], d, |rest| - k, endsFull)
    ensures var sep: bytes := if |block| == Cobs.FULL then [] else [0];
      StandsFor([(|block| + 1) as byte] + block + rest[..k], block + sep + d, |rest| - k, endsFull)
  {
    hide Cobs.Decode;
    var sep: bytes := if |block| == Cobs.FULL then [] else [0];
    var e := [(|block| + 1) as byte] + block + rest[..k];
    Pieces(block, rest[..k]);
    Cobs.DecodeOne(e, block, rest[..k]);
    if Cobs.Decode(rest[..k]).Ok? {
      var v := Cobs.Decode(rest[..k]).value;
      if block + sep + v == block + sep + d { assert (block + sep + v)[|block + sep|..] == v; }
    }
  }

  lemma Pieces(block: bytes, rest: bytes)
    requires |block| <= Cobs.FULL
    ensures var e := [(|block| + 1) as byte] + block + rest;
      e[0] as int == |block| + 1 && e[1..|block| + 1] == block && e[|block| + 1..] == rest
  {}

  /** Every prefix of an encoding stands for a prefix of what is encoded, and for all of it exactly if long enough. */
  lemma {:induction false} CutStands(d: bytes, k: nat)
    requires k <= |Cobs.Encode(d)|
    ensures StandsFor(Cobs.Encode(d)[..k], d, |Cobs.Encode(d)| - k, EndsFull(d))
    decreases |d|
  {
    hide Cobs.Run, Cobs.Decode, Cobs.Encode, StandsFor, EndsFull;
    var n, e := Cobs.Run(d), Cobs.Encode(d);
    FirstBlock(d);
    if k <= n + 1 {
      CutFirst(d, k);
    } else {
      var after := if n == Cobs.FULL then d[n..] else d[n + 1..];
      var block, rest, j := d[..n], Cobs.Encode(after), k - n - 1;
      CutStands(after, j);
      Halves(d, n, if n == Cobs.FULL then [] else [0], after);
      Glue([(n + 1) as byte] + block, rest, j);
      EncodesSome(d, n);
      EndsOf(d);
      SameStands(rest[..j], after, |rest| - j, EndsFull(after), EndsFull(d));
      CutLater(block, rest, after, j, EndsFull(d));
    }
  }

  lemma Glue(a: bytes, b: bytes, j: nat)
    requires j <= |b|
    ensures (a + b)[..|a| + j] == a + b[..j] && |a + b| - (|a| + j) == |b| - j
  {}

  lemma Halves(d: bytes, n: nat, sep: bytes, after: bytes)
    requires n <= |d|
    requires (sep == [] && after == d[n..]) || (n < |d| && sep == [0] && d[n] == 0 && after == d[n + 1..])
    ensures d[..n] + sep + after == d
  {}

  /** How the last block counts matters only while one octet is missing. */
  lemma SameStands(e: bytes, d: bytes, missing: nat, f: bool, g: bool)
    requires StandsFor(e, d, missing, f) && (missing == 0 || f == g)
    ensures StandsFor(e, d, missing, g)
  {}

  lemma EndsOf(d: bytes)
    ensures var n := Cobs.Run(d);
      && (n == Cobs.FULL ==> if |d| == n then EndsFull(d) else EndsFull(d) == EndsFull(d[n..]))
      && (n < Cobs.FULL && n == |d| ==> !EndsFull(d))
      && (n < Cobs.FULL && n < |d| ==> EndsFull(d) == EndsFull(d[n + 1..]) && !EndsFull([]))
  {
    hide Cobs.Run;
  }

  lemma CutFirst(d: bytes, k: nat)
    requires k <= Cobs.Run(d) + 1 && k <= |Cobs.Encode(d)|
    ensures StandsFor(Cobs.Encode(d)[..k], d, |Cobs.Encode(d)| - k, EndsFull(d))
  {
    hide Cobs.Run, Cobs.Decode, Cobs.Encode, EndsFull;
    var n, e := Cobs.Run(d), Cobs.Encode(d);
    FirstBlock(d);
    EncodesSome(d, n);
    EndsOf(d);
    if k <= n {
      CutBlock(e[..k]);
    } else {
      var block, none: bytes := d[..n], [];
      assert e[..k] == [(n + 1) as byte] + block;
      Pieces(block, none);
      assert [(n + 1) as byte] + block + none == e[..k];
      Cobs.DecodeOne(e[..k], block, none);
      assert Cobs.Decode(e[..k]) == Ok(block) && block <= d;
      assert n == |d| ==> block == d;
    }
  }

  /** How an encoding begins. */
  lemma FirstBlock(d: bytes)
    ensures var n, e := Cobs.Run(d), Cobs.Encode(d);
      && n + 1 <= |e| && e[0] as int == n + 1 && e[1..n + 1] == d[..n]
      && (n == Cobs.FULL ==> e == [255] + d[..n] + Cobs.Encode(d[n..]))
      && (n < Cobs.FULL && n == |d| ==> |e| == n + 1)
      && (n < Cobs.FULL && n < |d| ==> d[n] == 0 && e == [(n + 1) as byte] + d[..n] + Cobs.Encode(d[n + 1..]))
  {
    hide Cobs.Run;
  }

  lemma EmptyEncodes()
    ensures |Cobs.Encode([])| == 1
  {}

  /** What follows the first block is one octet only if nothing is left to encode. */
  lemma EncodesSome(d: bytes, n: nat)
    requires n == Cobs.Run(d)
    ensures n < Cobs.FULL && n < |d| ==>
      |Cobs.Encode(d[n + 1..])| >= 1 && (|Cobs.Encode(d[n + 1..])| == 1 ==> d[n + 1..] == [])
    ensures n == Cobs.FULL ==> |Cobs.Encode(d[n..])| >= 1 && (|Cobs.Encode(d[n..])| == 1 <==> d[n..] == [])
  {
    hide Cobs.Run, Cobs.Encode;
    EmptyEncodes();
    if n < Cobs.FULL && n < |d| { Cobs.EncodedShape(d[n + 1..]); }
    if n == Cobs.FULL { Cobs.EncodedShape(d[n..]); }
  }

  // ---- a frame cut short ------------------------------------------------------------

  /** The firmware hands on a segment that decodes to all of the frame, and no other that decodes to a part of it. */
  lemma CutFrame(f: Frame, b: bytes)
    requires |f.payload| <= MAX_USB_PAYLOAD && b <= Seal(U, f) && b != Seal(U, f)
    ensures !WellSealed(U, b)
  {
    hide Crc.Crc16, Crc.Tail16;
    var s := Seal(U, f);
    SealOpens(U, f);
    if 18 <= |b| {
      assert Get16(b, 14) == Get16(s, 14);
      assert Get16(s, 14) + 18 == |s|;
    }
  }

  lemma {:induction false} FirmwareCollects(segment: bytes, data: bytes)
    requires |segment| + |data| <= FIRMWARE_LIMIT && 0 !in data
    ensures FirmwareRun(FirmwareInput(segment, false), data) == (FirmwareInput(segment + data, false), [])
    decreases |data|
  {
    hide FirmwareAccepts;
    if data == [] {
      assert segment + data == segment;
    } else {
      FirmwareCollects(segment + [data[0]], data[1..]);
      assert segment + [data[0]] + data[1..] == segment + data;
      assert FirmwareByte(FirmwareInput(segment, false), data[0]) == (FirmwareInput(segment + [data[0]], false), []);
      assert [] + FirmwareRun(FirmwareInput(segment + [data[0]], false), data[1..]).1 == [];
    }
  }

  /** A segment and a delimiter, from a boundary. */
  lemma FirmwareSegment(segment: bytes)
    requires 0 < |segment| <= FIRMWARE_LIMIT && 0 !in segment
    ensures FirmwareRun(FirmwareInput([], false), segment + [0])
         == (FirmwareInput([], false), if FirmwareAccepts(segment) then [Open(Cobs.Decode(segment).value)] else [])
  {
    hide FirmwareAccepts, FirmwareRun, Cobs.Decode;
    var all := segment + [0];
    var none: bytes := [];
    assert none + segment == segment;
    FirmwareCollects([], segment);
    assert all[..|segment|] == segment && all[..|segment| + 1] == all;
    FirmwareRunSnoc(FirmwareInput([], false), all, |segment|);
    var out := FirmwareByte(FirmwareInput(segment, false), 0).1;
    assert [] + out == out;
  }

  /**
   The first `n` octets of the frame's encoding are enough for it: all but the
   delimiter, or all but the delimiter and the code of an empty last block.
   */
  predicate Suffices(f: Frame, n: nat)
    requires EncodeFrame(f).Ok?
  {
    var all := |EncodeFrame(f).value|;
    n == all - 1 || (n == all - 2 && EndsFull(Seal(U, f)))
  }

  /** What was written decodes to the frame exactly then. */
  lemma SufficesExactly(f: Frame, n: nat)
    requires EncodeFrame(f).Ok? && n < |EncodeFrame(f).value|
    ensures Cobs.Decode(EncodeFrame(f).value[..n]) == Ok(Seal(U, f)) <==> Suffices(f, n)
  {
    hide Cobs.Encode, Cobs.Decode, Seal, EndsFull;
    var d := Seal(U, f);
    assert EncodeFrame(f).value[..n] == Cobs.Encode(d)[..n];
    CutStands(d, n);
  }

  /**
   After a failed write the modem's input ends in the octets written; once the next
   delimiter comes, the modem acts on the frame if they are enough, and on nothing
   at all if they are not.
   */
  lemma AfterFailedWrite(f: Frame, n: nat)
    requires EncodeFrame(f).Ok? && 0 < n < |EncodeFrame(f).value|
    ensures FirmwareRun(FirmwareInput([], false), EncodeFrame(f).value[..n] + [0])
         == (FirmwareInput([], false), if Suffices(f, n) && f.second != 0 then [f] else [])
  {
    hide Cobs.Encode, Cobs.Decode, Seal, WellSealed, FirmwareRun, EndsFull;
    var d := Seal(U, f);
    var e := Cobs.Encode(d);
    var segment := EncodeFrame(f).value[..n];
    assert segment == e[..n];
    FrameRoundTrip(f);
    FirmwareSegment(segment);
    CutStands(d, n);
    SealOpens(U, f);
    if Cobs.Decode(segment).Ok? {
      var b := Cobs.Decode(segment).value;
      if b != d { CutFrame(f, b); }
    }
  }

  /** It can fail with everything but the delimiter written. */
  lemma AllButDelimiter(raw: bytes) returns (counts: seq<nat>)
    requires 2 <= |raw|
    ensures |counts| == |raw| && FailsAfter(raw, counts, 1) && Taken(raw, counts, 1) == |raw| - 1
  {
    counts := [|raw| - 1] + seq(|raw| - 1, _ => 0);
    assert Taken(raw, counts, 0) == 0;
  }
}
