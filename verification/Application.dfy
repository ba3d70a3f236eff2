/** The application frame carried over the air, and how an RTCM3 frame is cut into such frames. */
module Application {
  import opened Bytes
  import opened Wrappers
  import Crc
  import Rtcm

  const VERSION: byte := 1
  const HEADER: nat := 18
  const MAX_BODY: nat := 180
  const MAX_FRAME: nat := 200
  const STOP_REQUEST: byte := 0x10
  const RTCM_FRAGMENT: byte := 0x30
  const PIECE: nat := 174
  const MAX_PIECES: nat := 6
  const TTL_MS: nat := 1000

  datatype Frame = Frame(typ: byte, session: u32, id: u32, age: u16, body: bytes)

  /** The key under which fragments of one message are collected. */
  datatype Key = Key(session: u32, id: u32)

  function KeyOf(f: Frame): Key { Key(f.session, f.id) }

  datatype ApplicationError =
    | ZeroIdentity | BodyTooLarge | FrameSize | FrameHeader | FrameLength | FrameCheck
    | BadRtcm | FragmentBody | StaleFragment | FragmentShape | KeyBlocked
    | MetadataConflict | DataConflict | BadAssembly

  function Unchecked(f: Frame): (b: bytes)
    requires |f.body| <= MAX_BODY
    ensures |b| == HEADER + |f.body|
  {
    [0x4D, 0x41, VERSION, f.typ, 0, 0] + Be32(f.session) + Be32(f.id) + Be16(f.age) + Be16(|f.body|) + f.body
  }

  function Encode(f: Frame): (r: Result<bytes, ApplicationError>) {
    if f.session == 0 || f.id == 0 then Err(ZeroIdentity)
    else if |f.body| > MAX_BODY then Err(BodyTooLarge)
    else Ok(Unchecked(f) + Crc.Tail16(Crc.Crc16(Unchecked(f))))
  }

  function Decode(raw: bytes): (r: Result<Frame, ApplicationError>) {
    if !(HEADER + 2 <= |raw| <= MAX_FRAME) then Err(FrameSize)
    else if raw[0] != 0x4D || raw[1] != 0x41 || raw[2] != VERSION || raw[4] != 0 || raw[5] != 0 then Err(FrameHeader)
    else if Get32(raw, 6) == 0 || Get32(raw, 10) == 0 then Err(ZeroIdentity)
    else if Get16(raw, 16) > MAX_BODY || |raw| != HEADER + Get16(raw, 16) + 2 then Err(FrameLength)
    else if raw[|raw| - 2..] != Crc.Tail16(Crc.Crc16(raw[..|raw| - 2])) then Err(FrameCheck)
    else Ok(Frame(raw[3], Get32(raw, 6), Get32(raw, 10), Get16(raw, 14), raw[HEADER..|raw| - 2]))
  }

  lemma UncheckedFields(f: Frame, rest: bytes)
    requires |f.body| <= MAX_BODY
    ensures var b := Unchecked(f) + rest;
      && b[0] == 0x4D && b[1] == 0x41 && b[2] == VERSION && b[3] == f.typ && b[4] == 0 && b[5] == 0
      && Get32(b, 6) == f.session && Get32(b, 10) == f.id && Get16(b, 14) == f.age && Get16(b, 16) == |f.body|
      && b[HEADER..HEADER + |f.body|] == f.body
  {
    var b := Unchecked(f) + rest;
    var p: bytes := [0x4D, 0x41, VERSION, f.typ, 0, 0];
    var s, i, a, n := Be32(f.session), Be32(f.id), Be16(f.age), Be16(|f.body|);
    var tail := f.body + rest;
    assert b == p + s + (i + a + n + tail);
    Be32RoundTrip(p, f.session, i + a + n + tail);
    assert b == (p + s) + i + (a + n + tail);
    Be32RoundTrip(p + s, f.id, a + n + tail);
    assert b == (p + s + i) + a + (n + tail);
    Be16RoundTrip(p + s + i, f.age, n + tail);
    assert b == (p + s + i + a) + n + tail;
    Be16RoundTrip(p + s + i + a, |f.body|, tail);
  }

  /** Everything that can be encoded comes back. */
  lemma {:induction false} RoundTrip(f: Frame)
    requires Encode(f).Ok?
    ensures Decode(Encode(f).value) == Ok(f)
  {
    hide Crc.Crc16, Crc.Tail16, Unchecked, Get16, Get32;
    var t := Crc.Tail16(Crc.Crc16(Unchecked(f)));
    var raw := Encode(f).value;
    UncheckedFields(f, t);
    assert raw[..|raw| - 2] == Unchecked(f) && raw[|raw| - 2..] == t;
  }

  /** No change within two consecutive octets of an accepted frame is accepted. */
  lemma BurstRejected(raw: bytes, raw': bytes, k: nat)
    requires Decode(raw).Ok? && Crc.SameOutside(raw, raw', k, 2) && raw' != raw
    ensures Decode(raw').Err?
  {
    hide Crc.Crc16, Crc.Tail16, Get16, Get32;
    Crc.CheckIsResidue16(raw);
    Crc.CheckIsResidue16(raw');
    if Decode(raw').Ok? {
      Crc.Burst16(raw, raw', k);
    }
  }

  // ---- cutting an RTCM3 frame into pieces ----------------------------------

  /** How many pieces of 174 octets cover `n` octets. */
  function Pieces(n: nat): nat { (n + PIECE - 1) / PIECE }

  lemma PiecesCover(n: nat)
    requires n > 0
    ensures 1 <= Pieces(n) && PIECE * (Pieces(n) - 1) < n <= PIECE * Pieces(n)
    ensures n <= Rtcm.MAX_FRAME ==> Pieces(n) <= MAX_PIECES
  {}

  /** Length of piece `i`: all full but the last. */
  function PieceLength(total: nat, i: nat): (n: int) {
    if i < Pieces(total) - 1 then PIECE else total - PIECE * (Pieces(total) - 1)
  }

  /** Piece `i` of `raw`. */
  function Piece(raw: bytes, i: nat): (d: bytes)
    requires i < Pieces(|raw|)
    ensures |d| == PieceLength(|raw|, i) && 1 <= |d| <= PIECE
  {
    PiecesCover(|raw|);
    raw[PIECE * i..if i < Pieces(|raw|) - 1 then PIECE * (i + 1) else |raw|]
  }

  /** What the receiver reads from a fragment's body. */
  datatype Meta = Meta(rtcmType: u16, total: u16, count: nat)

  function FragmentBody(m: Meta, i: nat, data: bytes): (b: bytes)
    requires i < 256 && m.count < 256
    ensures |b| == 6 + |data|
  {
    Be16(m.rtcmType) + Be16(m.total) + [i as byte, m.count as byte] + data
  }

  function MetaOf(raw: bytes): (m: Meta)
    requires Rtcm.Valid(raw) && |raw| <= Rtcm.MAX_FRAME
    ensures m.count <= MAX_PIECES
  {
    PiecesCover(|raw|);
    Meta(Rtcm.MessageType(raw), |raw|, Pieces(|raw|))
  }

  /** Fragment `i` of `raw` under `key`. */
  function FragmentAt(raw: bytes, key: Key, age: u16, i: nat): (f: Frame)
    requires Rtcm.Valid(raw) && |raw| <= Rtcm.MAX_FRAME && i < Pieces(|raw|)
    ensures KeyOf(f) == key
  {
    PiecesCover(|raw|);
    Frame(RTCM_FRAGMENT, key.session, key.id, age, FragmentBody(MetaOf(raw), i, Piece(raw, i)))
  }

  /** All fragments, in order. */
  function Fragments(raw: bytes, key: Key, age: u16): (r: seq<Frame>)
    requires Rtcm.Valid(raw) && |raw| <= Rtcm.MAX_FRAME
    ensures |r| == Pieces(|raw|)
    ensures forall i :: 0 <= i < |r| ==> r[i] == FragmentAt(raw, key, age, i)
  {
    seq(Pieces(|raw|), i requires 0 <= i < Pieces(|raw|) => FragmentAt(raw, key, age, i))
  }

  /** The sender's loop. */
  method Fragment(raw: bytes, session: u32, id: u32, age: u16) returns (r: Result<seq<Frame>, ApplicationError>)
    ensures r == if Rtcm.Valid(raw) && |raw| <= Rtcm.MAX_FRAME
                 then Ok(Fragments(raw, Key(session, id), age)) else Err(BadRtcm)
  {
    hide Rtcm.Valid;
    if !Rtcm.Valid(raw) || |raw| > Rtcm.MAX_FRAME {
      return Err(BadRtcm);
    }
    ValidSize(raw);
    var count := (|raw| + PIECE - 1) / PIECE;
    PiecesCover(|raw|);
    var frames: seq<Frame> := [];
    for index := 0 to count
      invariant |frames| == index
      invariant forall i :: 0 <= i < index ==> frames[i] == FragmentAt(raw, Key(session, id), age, i)
    {
      var stop := if PIECE * (index + 1) < |raw| then PIECE * (index + 1) else |raw|;
      var data := raw[PIECE * index..stop];
      assert data == Piece(raw, index);
      var body := Be16(Rtcm.MessageType(raw)) + Be16(|raw|) + [index as byte, count as byte] + data;
      frames := frames + [Frame(RTCM_FRAGMENT, session, id, age, body)];
    }
    assert frames == Fragments(raw, Key(session, id), age);
    r := Ok(frames);
  }

  lemma ValidSize(raw: bytes)
    requires Rtcm.Valid(raw)
    ensures 6 <= |raw|
  {}

  /** A fragment reads back as it was written, and always fits an application frame. */
  lemma FragmentReads(raw: bytes, key: Key, age: u16, i: nat)
    requires Rtcm.Valid(raw) && |raw| <= Rtcm.MAX_FRAME && i < Pieces(|raw|)
    ensures var b := FragmentAt(raw, key, age, i).body;
      && 6 <= |b| <= MAX_BODY
      && Get16(b, 0) == Rtcm.MessageType(raw) && Get16(b, 2) == |raw|
      && b[4] as int == i && b[5] as int == Pieces(|raw|) && b[6..] == Piece(raw, i)
    ensures key.session != 0 && key.id != 0 ==>
      Encode(FragmentAt(raw, key, age, i)).Ok?
      && Decode(Encode(FragmentAt(raw, key, age, i)).value) == Ok(FragmentAt(raw, key, age, i))
  {
    hide Rtcm.Valid, Crc.Crc16, Crc.Tail16;
    ValidSize(raw);
    PiecesCover(|raw|);
    var m, d := MetaOf(raw), Piece(raw, i);
    var b := FragmentAt(raw, key, age, i).body;
    var none: bytes := [];
    var rest := [i as byte, m.count as byte] + d;
    assert b == none + Be16(m.rtcmType) + (Be16(m.total) + rest);
    Be16RoundTrip(none, m.rtcmType, Be16(m.total) + rest);
    assert b == Be16(m.rtcmType) + Be16(m.total) + rest;
    Be16RoundTrip(Be16(m.rtcmType), m.total, rest);
    if key.session != 0 && key.id != 0 {
      RoundTrip(FragmentAt(raw, key, age, i));
    }
  }

  // ---- putting pieces together ------------------------------------------------

  /** The first `n` parts, joined in index order. */
  function Joined(parts: map<nat, bytes>, n: nat): bytes
    requires forall i :: 0 <= i < n ==> i in parts
  {
    if n == 0 then [] else Joined(parts, n - 1) + parts[n - 1]
  }

  /** The pieces of a string, joined, are the string. */
  lemma {:induction false} JoinedPieces(parts: map<nat, bytes>, raw: bytes, n: nat)
    requires n <= Pieces(|raw|)
    requires forall i :: 0 <= i < n ==> i in parts && parts[i] == Piece(raw, i)
    ensures raw != [] ==> Joined(parts, n) == raw[..if n < Pieces(|raw|) then PIECE * n else |raw|]
    decreases n
  {
    if raw != [] {
      PiecesCover(|raw|);
      if n > 0 {
        JoinedPieces(parts, raw, n - 1);
        assert raw[..PIECE * (n - 1)] + Piece(raw, n - 1) == raw[..if n < Pieces(|raw|) then PIECE * n else |raw|];
      }
    }
  }

  /** Parts of the right lengths add up to the announced total, whatever they contain. */
  lemma {:induction false} JoinedLength(parts: map<nat, bytes>, total: nat, n: nat)
    requires 0 < total && n <= Pieces(total)
    requires forall i :: 0 <= i < n ==> i in parts && |parts[i]| == PieceLength(total, i)
    ensures |Joined(parts, n)| == if n < Pieces(total) then PIECE * n else total
    decreases n
  {
    PiecesCover(total);
    if n > 0 { JoinedLength(parts, total, n - 1); }
  }
}
