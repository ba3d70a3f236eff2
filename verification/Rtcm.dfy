/** RTCM3 transport framing and the incremental, self-healing stream parser. */
module Rtcm {
  import opened Bytes
  import Crc
  import Seqs

  const PREAMBLE: byte := 0xD3
  const MAX_PAYLOAD: nat := 1023
  const MAX_FRAME: nat := 1029

  /** The 10-bit payload length; the six reserved bits must be checked apart. */
  function PayloadLength(raw: bytes): (n: nat)
    requires 3 <= |raw|
    ensures n <= MAX_PAYLOAD
  {
    raw[1] as int % 4 * 256 + raw[2] as int
  }

  /** The six bits above the length. */
  function Reserved(raw: bytes): nat
    requires 2 <= |raw|
  {
    raw[1] as int / 4
  }

  predicate Valid(raw: bytes)
  {
    && 6 <= |raw| && raw[0] == PREAMBLE && Reserved(raw) == 0
    && |raw| == PayloadLength(raw) + 6
    && raw[|raw| - 3..] == Crc.Tail24(Crc.Crc24(raw[..|raw| - 3]))
  }

  /** The 12-bit message number that opens the payload. */
  function MessageType(raw: bytes): (t: nat)
    requires 6 <= |raw|
    ensures t < 4096
  {
    Get16(raw, 3) / 16
  }

  /** No change within three consecutive octets of a valid frame goes unnoticed. */
  lemma BurstRejected(raw: bytes, raw': bytes, k: nat)
    requires Valid(raw) && Crc.SameOutside(raw, raw', k, 3) && raw' != raw
    ensures !Valid(raw')
  {
    hide Crc.Crc24, Crc.Tail24;
    Crc.CheckIsResidue24(raw);
    Crc.CheckIsResidue24(raw');
    if Valid(raw') {
      Crc.Burst24(raw, raw', k);
    }
  }

  // ---- the scan, one position at a time ---------------------------------------

  /** What can be said about a frame starting at the front of `s`. */
  datatype Verdict = Wait | Garbage | BadHeader | BadCheck | Good(total: nat)

  function Look(s: bytes): (v: Verdict)
    requires s != []
    ensures v.Good? ==> 6 <= v.total <= |s| && v.total <= MAX_FRAME && Valid(s[..v.total])
    ensures v == Wait ==> |s| < MAX_FRAME
  {
    if s[0] != PREAMBLE then Garbage
    else if |s| < 3 then Wait
    else if Reserved(s) != 0 then BadHeader
    else
      var total := PayloadLength(s) + 6;
      if |s| < total then Wait
      else if Valid(s[..total]) then Good(total)
      else BadCheck
  }

  /** No valid frame starts at the front of `s`, now or after more octets. */
  predicate Rejected(s: bytes)
    requires s != []
  {
    !Look(s).Good? && Look(s) != Wait
  }

  /** Frames found, octets left, and where every other octet went. */
  datatype Scan = Scan(frames: seq<bytes>, rest: bytes, garbage: nat, headers: nat, checks: nat)

  /** Everything `first` found, then everything `second` found in what `first` left. */
  function Join(first: Scan, second: Scan): Scan {
    Scan(first.frames + second.frames, second.rest,
         first.garbage + second.garbage, first.headers + second.headers, first.checks + second.checks)
  }

  const NOTHING: Scan := Scan([], [], 0, 0, 0)

  /** Octets settled at the front: a frame whole, otherwise one. */
  function Width(s: bytes): (n: nat)
    requires s != []
    ensures 1 <= n <= |s|
  {
    if Look(s).Good? then Look(s).total else 1
  }

  /** How the octets at the front are settled. */
  function Head(s: bytes): Scan
    requires s != []
  {
    match Look(s)
    case Wait => NOTHING
    case Garbage => NOTHING.(garbage := 1)
    case BadHeader => NOTHING.(headers := 1)
    case BadCheck => NOTHING.(checks := 1)
    case Good(n) => NOTHING.(frames := [s[..n]])
  }

  /** The left-to-right greedy scan: accept a frame whole, otherwise give up one octet. */
  function ScanAll(s: bytes): Scan
    decreases |s|
  {
    if s == [] then NOTHING
    else if Look(s) == Wait then NOTHING.(rest := s)
    else Join(Head(s), ScanAll(s[Width(s)..]))
  }

  lemma JoinAssociative(a: Scan, b: Scan, c: Scan)
    ensures Join(Join(a, b), c) == Join(a, Join(b, c))
  {
    Seqs.Assoc(a.frames, b.frames, c.frames);
  }

  lemma JoinNothing(a: Scan)
    ensures Join(NOTHING, a) == a
  {
    Seqs.Units(a.frames);
  }

  /** Once something is known about the front, later octets do not change it. */
  lemma LookStable(s: bytes, t: bytes)
    requires s != [] && Look(s) != Wait
    ensures Look(s + t) == Look(s) && Head(s + t) == Head(s) && Width(s + t) == Width(s)
    ensures (s + t)[Width(s)..] == s[Width(s)..] + t
  {
    hide Valid;
    if s[0] == PREAMBLE && Reserved(s) == 0 {
      var total := PayloadLength(s) + 6;
      assert (s + t)[..total] == s[..total];
    }
  }

  /** Scanning in two pieces, carrying the remainder over, is scanning at once. */
  lemma {:induction false} ScanConcat(a: bytes, b: bytes)
    ensures ScanAll(a + b) == Join(ScanAll(a), ScanAll(ScanAll(a).rest + b))
    decreases |a|
  {
    hide Look, Head, Width;
    if a == [] {
      assert a + b == b && ScanAll(a).rest + b == b;
      JoinNothing(ScanAll(b));
    } else if Look(a) == Wait {
      JoinNothing(ScanAll(a + b));
    } else {
      LookStable(a, b);
      var t := a[Width(a)..];
      ScanConcat(t, b);
      JoinAssociative(Head(a), ScanAll(t), ScanAll(ScanAll(t).rest + b));
    }
  }

  function Total(frames: seq<bytes>): nat {
    if frames == [] then 0 else |frames[0]| + Total(frames[1..])
  }

  lemma TotalConcat(a: seq<bytes>, b: seq<bytes>)
    ensures Total(a + b) == Total(a) + Total(b)
  {
    if a == [] {
      assert a + b == b;
    } else {
      assert (a + b)[1..] == a[1..] + b;
    }
  }

  /** Every octet is in a frame, counted as one failure, or still waiting; and few are waiting. */
  lemma {:induction false} ScanAccounts(s: bytes)
    ensures var r := ScanAll(s);
      && |s| == Total(r.frames) + r.garbage + r.headers + r.checks + |r.rest|
      && |r.rest| < MAX_FRAME
      && (forall f :: f in r.frames ==> Valid(f) && |f| <= MAX_FRAME)
      && (r.rest != [] ==> Look(r.rest) == Wait)
    decreases |s|
  {
    hide Valid;
    if s != [] && Look(s) != Wait {
      var t := s[Width(s)..];
      ScanAccounts(t);
      TotalConcat(Head(s).frames, ScanAll(t).frames);
      TotalOne(s[..Width(s)]);
    }
  }

  // ---- what the greedy scan finds, in terms of positions ------------------------

  /** The frame settled at `at`, if one is, and its position. */
  function FrameAt(s: bytes, at: nat): (r: seq<bytes>)
    requires at < |s|
  {
    if Look(s[at..]).Good? then [s[at..at + Look(s[at..]).total]] else []
  }

  function StartAt(s: bytes, at: nat): (r: seq<nat>)
    requires at < |s|
    ensures |r| == |FrameAt(s, at)|
  {
    if Look(s[at..]).Good? then [at] else []
  }

  function NextAt(s: bytes, at: nat): (n: nat)
    requires at < |s|
    ensures at < n <= |s|
  {
    at + Width(s[at..])
  }

  /** Where the frames start, scanning from `at`. */
  function Starts(s: bytes, at: nat): (r: seq<nat>)
    requires at <= |s|
    decreases |s| - at
  {
    if at == |s| || Look(s[at..]) == Wait then [] else StartAt(s, at) + Starts(s, NextAt(s, at))
  }

  /** One step of the scan, at an absolute position. */
  lemma ScanAt(s: bytes, at: nat)
    requires at < |s| && Look(s[at..]) != Wait
    ensures ScanAll(s[at..]).frames == FrameAt(s, at) + ScanAll(s[NextAt(s, at)..]).frames
    ensures ScanAll(s[at..]).rest == ScanAll(s[NextAt(s, at)..]).rest
  {
    assert NextAt(s, at) == at + Width(s[at..]) && s[at..][Width(s[at..])..] == s[NextAt(s, at)..]
        && Head(s[at..]).frames == FrameAt(s, at) by {
      hide Look, Width, Head, FrameAt;
      Slices(s, at, Width(s[at..]));
      HeadFrames(s, at);
    }
    hide Look, ScanAll, Width, NextAt, FrameAt;
    var t, n := s[at..], Width(s[at..]);
    ScanUnfold(t);
  }

  lemma HeadFrames(s: bytes, at: nat)
    requires at < |s|
    ensures Head(s[at..]).frames == FrameAt(s, at)
  {
    hide Look, Width, Head, FrameAt, NextAt, StartAt;
    var t := s[at..];
    if Look(t).Good? {
      HeadGood(t);
      AtGood(s, at);
      Slices(s, at, Width(t));
    } else {
      HeadBad(t);
      AtBad(s, at);
      Nothing(Head(t).frames, FrameAt(s, at));
    }
  }

  lemma Nothing(a: seq<bytes>, b: seq<bytes>)
    requires |a| == 0 && |b| == 0
    ensures a == b
  {}

  lemma Slices(s: bytes, at: nat, n: nat)
    requires at + n <= |s|
    ensures s[at..][n..] == s[at + n..] && s[at..][..n] == s[at..at + n]
  {}

  lemma HeadGood(s: bytes)
    requires s != [] && Look(s).Good?
    ensures Width(s) == Look(s).total && Head(s).frames == [s[..Width(s)]]
  {
    hide Look;
  }

  lemma HeadBad(s: bytes)
    requires s != [] && !Look(s).Good?
    ensures Width(s) == 1 && |Head(s).frames| == 0
  {
    hide Look;
  }

  lemma AtGood(s: bytes, at: nat)
    requires at < |s| && Look(s[at..]).Good?
    ensures var n := at + Look(s[at..]).total;
      n <= |s| && NextAt(s, at) == n && FrameAt(s, at) == [s[at..n]] && StartAt(s, at) == [at]
  {
    hide Look;
  }

  lemma AtBad(s: bytes, at: nat)
    requires at < |s| && !Look(s[at..]).Good?
    ensures NextAt(s, at) == at + 1 && |FrameAt(s, at)| == 0 && |StartAt(s, at)| == 0
  {
    hide Look;
  }

  lemma ScanUnfold(s: bytes)
    requires s != [] && Look(s) != Wait
    ensures ScanAll(s) == Join(Head(s), ScanAll(s[Width(s)..]))
  {}

  /** Position `q` lies inside one of the frames. */
  ghost predicate Covered(starts: seq<nat>, frames: seq<bytes>, q: nat)
    requires |starts| == |frames|
  {
    exists i :: 0 <= i < |starts| && starts[i] <= q < starts[i] + |frames[i]|
  }

  /** The frame sits at its position, inside the stretch from `from` to `to`. */
  ghost predicate Placed(s: bytes, from: nat, to: int, start: nat, frame: bytes)
  {
    from <= start && start + |frame| <= to <= |s| && s[start..start + |frame|] == frame
  }

  ghost predicate AllPlaced(s: bytes, at: nat, p: seq<nat>, f: seq<bytes>, rest: nat)
  {
    && |p| == |f| && rest <= |s| - at
    && (forall i :: 0 <= i < |p| ==> Placed(s, at, |s| - rest, p[i], f[i]))
    && (forall i, j :: 0 <= i < j < |p| ==> p[i] + |f[i]| <= p[j])
  }

  lemma {:induction false} FramesPlaced(s: bytes, at: nat)
    requires at <= |s|
    ensures AllPlaced(s, at, Starts(s, at), ScanAll(s[at..]).frames, |ScanAll(s[at..]).rest|)
    decreases |s| - at
  {
    hide Look, ScanAll, AllPlaced, StartAt, FrameAt, NextAt;
    if at < |s| && Look(s[at..]) != Wait {
      ScanAt(s, at);
      var n := NextAt(s, at);
      FramesPlaced(s, n);
      PlaceFirst(s, at, Starts(s, n), ScanAll(s[n..]).frames, |ScanAll(s[n..]).rest|);
    } else {
      NothingHere(s, at);
    }
  }

  lemma NothingHere(s: bytes, at: nat)
    requires at <= |s| && (at < |s| ==> Look(s[at..]) == Wait)
    ensures AllPlaced(s, at, [], ScanAll(s[at..]).frames, |ScanAll(s[at..]).rest|)
    ensures |ScanAll(s[at..]).rest| == |s| - at
  {
    hide Look;
  }

  lemma PlaceFirst(s: bytes, at: nat, p: seq<nat>, f: seq<bytes>, rest: nat)
    requires at < |s| && AllPlaced(s, NextAt(s, at), p, f, rest)
    ensures AllPlaced(s, at, StartAt(s, at) + p, FrameAt(s, at) + f, rest)
  {
    hide Look, NextAt, StartAt, FrameAt, AllPlaced;
    if Look(s[at..]).Good? {
      AtGood(s, at);
      PlaceFrame(s, at, NextAt(s, at), p, f, rest);
    } else {
      AtBad(s, at);
      Seqs.Units(p);
      Seqs.Units(f);
      PlaceEarlier(s, at, NextAt(s, at), p, f, rest);
    }
  }

  lemma PlaceEarlier(s: bytes, at: nat, n: nat, p: seq<nat>, f: seq<bytes>, rest: nat)
    requires at <= n && AllPlaced(s, n, p, f, rest)
    ensures AllPlaced(s, at, p, f, rest)
  {}

  lemma PlaceFrame(s: bytes, at: nat, n: nat, p: seq<nat>, f: seq<bytes>, rest: nat)
    requires at <= n <= |s| && AllPlaced(s, n, p, f, rest)
    ensures AllPlaced(s, at, [at] + p, [s[at..n]] + f, rest)
  {
    var p', f' := [at] + p, [s[at..n]] + f;
    forall i | 0 <= i < |p'|
      ensures Placed(s, at, |s| - rest, p'[i], f'[i])
    {
      if i > 0 { assert Placed(s, n, |s| - rest, p[i - 1], f[i - 1]); }
    }
    forall i, j | 0 <= i < j < |p'|
      ensures p'[i] + |f'[i]| <= p'[j]
    {
      assert Placed(s, n, |s| - rest, p[j - 1], f[j - 1]);
      if i > 0 { assert p[i - 1] + |f[i - 1]| <= p[j - 1]; }
    }
  }

  lemma CoveredLater(a: seq<nat>, b: seq<bytes>, p: seq<nat>, f: seq<bytes>, q: nat)
    requires |a| == |b| && |p| == |f|
    ensures Covered(p, f, q) ==> Covered(a + p, b + f, q)
    ensures Covered(a, b, q) ==> Covered(a + p, b + f, q)
  {
    if Covered(p, f, q) {
      var i :| 0 <= i < |p| && p[i] <= q < p[i] + |f[i]|;
      assert (a + p)[i + |a|] == p[i] && (b + f)[i + |a|] == f[i];
    }
    if Covered(a, b, q) {
      var i :| 0 <= i < |a| && a[i] <= q < a[i] + |b[i]|;
      assert (a + p)[i] == a[i] && (b + f)[i] == b[i];
    }
  }

  lemma CoveredHere(s: bytes, at: nat, q: nat)
    requires at <= q < |s| && Look(s[at..]) != Wait && q < NextAt(s, at)
    ensures Covered(StartAt(s, at), FrameAt(s, at), q) || Rejected(s[q..])
  {
    hide Look, NextAt, StartAt, FrameAt;
    if Look(s[at..]).Good? {
      AtGood(s, at);
      assert StartAt(s, at)[0] <= q < StartAt(s, at)[0] + |FrameAt(s, at)[0]|;
    } else {
      AtBad(s, at);
    }
  }

  /** Before the remainder, a position no reported frame covers starts no valid frame. */
  lemma {:induction false} NothingMissed(s: bytes, at: nat, q: nat)
    requires at <= q < |s|
    requires q < |s| - |ScanAll(s[at..]).rest|
    ensures |Starts(s, at)| == |ScanAll(s[at..]).frames|
    ensures Covered(Starts(s, at), ScanAll(s[at..]).frames, q) || Rejected(s[q..])
    decreases |s| - at
  {
    hide Look, ScanAll, Covered, StartAt, FrameAt, NextAt, Rejected, Placed;
    FramesPlaced(s, at);
    if Look(s[at..]) == Wait {
      NothingHere(s, at);
      assert false;
    } else {
      ScanAt(s, at);
      var n := NextAt(s, at);
      CoveredLater(StartAt(s, at), FrameAt(s, at), Starts(s, n), ScanAll(s[n..]).frames, q);
      if n <= q {
        NothingMissed(s, n, q);
      } else {
        CoveredHere(s, at, q);
      }
    }
  }

  /**
   The frames reported are disjoint, in order and at their positions in the
   stream; and a position before the remainder that none of them covers is not
   the start of any valid frame of this stream.
   */
  lemma Greedy(s: bytes)
    ensures var r, p := ScanAll(s), Starts(s, 0);
      && |p| == |r.frames| && |r.rest| <= |s|
      && (forall i :: 0 <= i < |p| ==> Placed(s, 0, |s| - |r.rest|, p[i], r.frames[i]))
      && (forall i, j :: 0 <= i < j < |p| ==> p[i] + |r.frames[i]| <= p[j])
      && (forall q :: 0 <= q < |s| - |r.rest| ==> Covered(p, r.frames, q) || Rejected(s[q..]))
  {
    hide ScanAll, Starts, Placed, Covered, Rejected;
    assert s[0..] == s;
    FramesPlaced(s, 0);
    var r, p := ScanAll(s), Starts(s, 0);
    forall q | 0 <= q < |s| - |r.rest|
      ensures Covered(p, r.frames, q) || Rejected(s[q..])
    {
      NothingMissed(s, 0, q);
    }
  }

  /** Noise that holds no preamble is dropped whole, whatever follows it. */
  lemma {:induction false} ScanNoise(noise: bytes, s: bytes)
    requires PREAMBLE !in noise
    ensures ScanAll(noise + s) == Join(NOTHING.(garbage := |noise|), ScanAll(s))
    decreases |noise|
  {
    if noise == [] {
      assert noise + s == s;
      JoinNothing(ScanAll(s));
    } else {
      assert (noise + s)[1..] == noise[1..] + s;
      ScanNoise(noise[1..], s);
      JoinAssociative(NOTHING.(garbage := 1), NOTHING.(garbage := |noise| - 1), ScanAll(s));
    }
  }

  lemma ScanFrame(raw: bytes, s: bytes)
    requires Valid(raw)
    ensures ScanAll(raw + s) == Join(NOTHING.(frames := [raw]), ScanAll(s))
  {
    hide Crc.Crc24, Crc.Tail24;
    assert (raw + s)[..|raw|] == raw && (raw + s)[|raw|..] == s;
    assert Look(raw + s) == Good(|raw|);
  }

  datatype Burst = Burst(noise: bytes, frame: bytes)

  function Stream(bursts: seq<Burst>): bytes {
    if bursts == [] then [] else bursts[0].noise + (bursts[0].frame + Stream(bursts[1..]))
  }

  function FramesOf(bursts: seq<Burst>): seq<bytes> {
    if bursts == [] then [] else [bursts[0].frame] + FramesOf(bursts[1..])
  }

  /** Valid frames separated by preamble-free noise are all recovered, in order, and nothing else is. */
  lemma {:induction false} RecoversAll(bursts: seq<Burst>, tail: bytes)
    requires forall b :: b in bursts ==> PREAMBLE !in b.noise && Valid(b.frame)
    requires PREAMBLE !in tail
    ensures ScanAll(Stream(bursts) + tail).frames == FramesOf(bursts)
    ensures |ScanAll(Stream(bursts) + tail).rest| == 0
    decreases |bursts|
  {
    hide Valid, Look, ScanAll;
    if bursts == [] {
      var none: bytes := [];
      assert Stream(bursts) + tail == tail + none;
      ScanNoise(tail, none);
      TotalNone();
    } else {
      var b, rest := bursts[0], Stream(bursts[1..]);
      assert Stream(bursts) + tail == b.noise + (b.frame + (rest + tail));
      ScanNoise(b.noise, b.frame + (rest + tail));
      ScanFrame(b.frame, rest + tail);
      RecoversAll(bursts[1..], tail);
    }
  }

  // ---- the parser object ---------------------------------------------------------

  /** The buffer and the cumulative counters. */
  datatype Parser = Parser(
    buffer: bytes, input: nat, garbage: nat, headers: nat, lengths: nat, checks: nat,
    frames: nat, frameBytes: nat, resets: nat)

  const FRESH: Parser := Parser([], 0, 0, 0, 0, 0, 0, 0, 0)

  /** Add what a scan found to the counters. */
  function Charge(p: Parser, r: Scan): Parser {
    p.(garbage := p.garbage + r.garbage, headers := p.headers + r.headers, checks := p.checks + r.checks,
       frames := p.frames + |r.frames|, frameBytes := p.frameBytes + Total(r.frames))
  }

  /** One `feed`: scan the buffer and the chunk together. */
  function Fed(p: Parser, chunk: bytes): Parser {
    var r := ScanAll(p.buffer + chunk);
    Charge(p.(input := p.input + |chunk|), r).(buffer := r.rest)
  }

  lemma ChargeJoin(p: Parser, a: Scan, b: Scan)
    ensures Charge(p, Join(a, b)) == Charge(Charge(p, a), b)
  {
    TotalConcat(a.frames, b.frames);
  }

  function Reset(p: Parser): Parser { p.(buffer := [], resets := p.resets + 1) }

  /** Position of the first preamble, or the length if there is none. */
  method Find(s: bytes) returns (k: nat)
    ensures k <= |s| && PREAMBLE !in s[..k]
    ensures k < |s| ==> s[k] == PREAMBLE
  {
    k := 0;
    while k < |s| && s[k] != PREAMBLE
      invariant k <= |s| && PREAMBLE !in s[..k]
    {
      k := k + 1;
    }
  }

  class RtcmStreamParser {
    var buffer: bytes
    var input: nat
    var garbage: nat
    var headers: nat
    var lengths: nat
    var checks: nat
    var frames: nat
    var frameBytes: nat
    var resets: nat

    constructor ()
      ensures State() == FRESH
    {
      buffer, input, garbage, headers, lengths, checks := [], 0, 0, 0, 0, 0;
      frames, frameBytes, resets := 0, 0, 0;
    }

    function State(): Parser
      reads this
    {
      Parser(buffer, input, garbage, headers, lengths, checks, frames, frameBytes, resets)
    }

    method ResetStream()
      modifies this
      ensures State() == Reset(old(State()))
    {
      buffer := [];
      resets := resets + 1;
    }

    /**
     One turn of the loop at a preamble: wait for more, give up one octet, put
     back all but one octet of a bad candidate, or take a frame.
     */
    method Turn() returns (found: seq<bytes>, wait: bool)
      requires buffer != [] && buffer[0] == PREAMBLE
      modifies this
      ensures Settles(old(State()), State(), found)
      ensures if wait then State() == old(State()) && Look(buffer) == Wait && found == [] else |buffer| < |old(buffer)|
    {
      hide Valid, ScanAll, Look, Settled, Reserved, PayloadLength;
      ghost var at := State();
      SettlesSelf(at);
      found, wait := [], false;
      if |buffer| < 3 {
        LookShort(buffer);
        return [], true;
      }
      SettleHead(at);
      if Reserved(buffer) != 0 {
        headers := headers + 1;
        buffer := buffer[1..];
        return;
      }
      var length := PayloadLength(buffer);
      if length > MAX_PAYLOAD {
        assert false;  // ten bits cannot exceed it: the counter `lengths` stays at zero
      }
      var total := length + 6;
      if |buffer| < total {
        return [], true;
      }
      var raw := buffer[..total];
      buffer := buffer[total..];
      if !Valid(raw) {
        checks := checks + 1;
        buffer := raw[1..] + buffer;
        PutBack(at.buffer, total);
        return;
      }
      frames := frames + 1;
      frameBytes := frameBytes + |raw|;
      found := [raw];
    }

    /** Noise in front of the next preamble is dropped in bulk, then the loop takes a turn. */
    method Feed(chunk: bytes) returns (output: seq<bytes>)
      modifies this
      ensures State() == Fed(old(State()), chunk)
      ensures output == ScanAll(old(buffer) + chunk).frames
    {
      hide ScanAll, Look, Settled, Fed, Settles;
      FedIsSettled(State(), chunk);
      input := input + |chunk|;
      buffer := buffer + chunk;
      ghost var goal := State();
      output := [];
      SettlesSelf(goal);
      while buffer != []
        invariant Settles(goal, State(), output)
        decreases |buffer|
      {
        var start := Find(buffer);
        SettleNoise(goal, State(), start, output);
        if start == |buffer| {
          garbage := garbage + |buffer|;
          buffer := [];
          break;
        }
        if start > 0 {
          garbage := garbage + start;
          buffer := buffer[start..];
        }
        ghost var at := State();
        var found, wait := Turn();
        if wait {
          Seqs.Units(output);
          break;
        }
        SettlesTwice(goal, at, State(), output, found);
        output := output + found;
      }
      SettleStop(goal, State(), output);
    }
  }

  lemma PutBack(s: bytes, total: nat)
    requires 1 <= total <= |s|
    ensures s[..total][1..] + s[total..] == s[1..]
  {}

  lemma TotalNone()
    ensures Total([]) == 0 && ScanAll([]) == Scan([], [], 0, 0, 0)
  {}

  lemma TotalOne(raw: bytes)
    ensures Total([raw]) == |raw|
  {
    assert [raw][1..] == [];
  }

  /** The state once the buffer has been scanned to the end. */
  function Settled(p: Parser): Parser {
    Charge(p, ScanAll(p.buffer)).(buffer := ScanAll(p.buffer).rest)
  }

  /** The state with the first `k` octets dropped as noise. */
  function Noiseless(p: Parser, k: nat): Parser
    requires k <= |p.buffer|
  {
    p.(garbage := p.garbage + k, buffer := p.buffer[k..])
  }

  lemma NoiseSettles(p: Parser, k: nat)
    requires k <= |p.buffer| && PREAMBLE !in p.buffer[..k]
    ensures Settled(Noiseless(p, k)) == Settled(p)
    ensures ScanAll(Noiseless(p, k).buffer).frames == ScanAll(p.buffer).frames
  {
    hide ScanAll, Total;
    var noise, s := p.buffer[..k], p.buffer[k..];
    Seqs.Split(p.buffer, k);
    ScanNoise(noise, s);
    TotalNone();
    Seqs.Units(ScanAll(s).frames);
  }

  lemma SettleNoise(goal: Parser, p: Parser, k: nat, found: seq<bytes>)
    requires k <= |p.buffer| && PREAMBLE !in p.buffer[..k] && Settles(goal, p, found)
    ensures Settles(goal, Noiseless(p, k), found)
    ensures k == |p.buffer| ==> Noiseless(p, k) == p.(garbage := p.garbage + k, buffer := [])
    ensures k == 0 ==> Noiseless(p, k) == p
  {
    hide ScanAll, Settled;
    NoiseSettles(p, k);
  }

  lemma SettlesSelf(p: Parser)
    ensures Settles(p, p, [])
  {
    hide ScanAll, Settled;
    Seqs.Units(ScanAll(p.buffer).frames);
  }

  lemma SettlesTwice(a: Parser, b: Parser, c: Parser, f: seq<bytes>, g: seq<bytes>)
    requires Settles(a, b, f) && Settles(b, c, g)
    ensures Settles(a, c, f + g)
  {
    hide ScanAll, Settled;
    Seqs.Assoc(f, g, ScanAll(c.buffer).frames);
  }

  /** One turn of the loop at a preamble, as the loop finds it out: settling the head first changes nothing. */
  lemma SettleHead(p: Parser)
    requires 3 <= |p.buffer| && p.buffer[0] == PREAMBLE
    ensures var s := p.buffer;
      var total := PayloadLength(s) + 6;
      if Reserved(s) != 0 then Settles(p, p.(headers := p.headers + 1, buffer := s[1..]), [])
      else if |s| < total then Look(s) == Wait
      else if Valid(s[..total]) then
        Settles(p, p.(frames := p.frames + 1, frameBytes := p.frameBytes + total, buffer := s[total..]), [s[..total]])
      else Settles(p, p.(checks := p.checks + 1, buffer := s[1..]), [])
  {
    hide Valid, Settled, Charge, Total;
    var s := p.buffer;
    var total := PayloadLength(s) + 6;
    ChargeOne(p, if total <= |s| then s[..total] else []);
    if Look(s) != Wait {
      SettleOnce(p);
    }
  }

  /** The same end state, and the frames from here are `found` and then those from `p'`. */
  ghost predicate Settles(p: Parser, p': Parser, found: seq<bytes>)
  {
    Settled(p') == Settled(p) && ScanAll(p.buffer).frames == found + ScanAll(p'.buffer).frames
  }

  lemma SettleOnce(p: Parser)
    requires p.buffer != [] && Look(p.buffer) != Wait
    ensures var s := p.buffer;
      Settles(p, Charge(p, Head(s)).(buffer := s[Width(s)..]), Head(s).frames)
  {
    hide Look, Head, Width, Total, ScanAll, Charge;
    var rest := p.buffer[Width(p.buffer)..];
    ScanUnfold(p.buffer);
    ChargeJoin(p, Head(p.buffer), ScanAll(rest));
    ChargeBuffer(Charge(p, Head(p.buffer)), ScanAll(rest), rest);
  }

  /** Charging does not look at the buffer. */
  lemma ChargeBuffer(p: Parser, r: Scan, b: bytes)
    ensures Charge(p.(buffer := b), r).(buffer := r.rest) == Charge(p, r).(buffer := r.rest)
  {
    hide Total;
  }

  lemma ChargeOne(p: Parser, raw: bytes)
    ensures Charge(p, NOTHING.(headers := 1)) == p.(headers := p.headers + 1)
    ensures Charge(p, NOTHING.(checks := 1)) == p.(checks := p.checks + 1)
    ensures Charge(p, NOTHING.(frames := [raw])) == p.(frames := p.frames + 1, frameBytes := p.frameBytes + |raw|)
  {
    TotalNone();
    TotalOne(raw);
  }

  lemma FedIsSettled(p: Parser, chunk: bytes)
    ensures Fed(p, chunk) == Settled(p.(input := p.input + |chunk|, buffer := p.buffer + chunk))
  {
    hide ScanAll, Total;
  }

  lemma LookShort(s: bytes)
    requires 0 < |s| < 3 && s[0] == PREAMBLE
    ensures Look(s) == Wait
  {}

  /** A scan that cannot move leaves what it was given. */
  lemma SettleStop(goal: Parser, p: Parser, found: seq<bytes>)
    requires p.buffer == [] || Look(p.buffer) == Wait
    requires Settles(goal, p, found)
    ensures Settled(goal) == p && ScanAll(goal.buffer).frames == found
  {
    hide Look, ScanAll, Charge;
    ScanStops(p.buffer);
    ChargeNothing(p, p.buffer);
    Seqs.Units(found);
  }

  lemma ScanStops(s: bytes)
    requires s == [] || Look(s) == Wait
    ensures ScanAll(s) == NOTHING.(rest := s)
  {
    hide Look;
  }

  lemma ChargeNothing(p: Parser, rest: bytes)
    ensures Charge(p, NOTHING.(rest := rest)) == p
  {
    TotalNone();
  }

  // ---- whole runs -------------------------------------------------------------------

  datatype Input = Chunk(data: bytes) | NewSource

  /** The parser and everything it emitted, and the octets resets threw away. */
  datatype Run = Run(parser: Parser, output: seq<bytes>, discarded: nat)

  function Step(r: Run, i: Input): Run {
    match i
    case Chunk(c) => Run(Fed(r.parser, c), r.output + ScanAll(r.parser.buffer + c).frames, r.discarded)
    case NewSource => Run(Reset(r.parser), r.output, r.discarded + |r.parser.buffer|)
  }

  function RunFrom(r: Run, inputs: seq<Input>): Run
    decreases |inputs|
  {
    if inputs == [] then r else RunFrom(Step(r, inputs[0]), inputs[1..])
  }

  const START: Run := Run(FRESH, [], 0)

  /** Nothing is lost or counted twice, and the buffer stays short. */
  ghost predicate Balanced(r: Run) {
    var p := r.parser;
    && p.input == p.frameBytes + p.garbage + p.headers + p.checks + r.discarded + |p.buffer|
    && p.frames == |r.output| && p.frameBytes == Total(r.output)
    && p.lengths == 0
    && |p.buffer| <= 1028
    && forall f :: f in r.output ==> Valid(f)
  }

  /** Over every sequence of feeds and resets the books balance and every output is a valid frame. */
  lemma {:induction false} RunBalanced(r: Run, inputs: seq<Input>)
    requires Balanced(r)
    ensures Balanced(RunFrom(r, inputs))
    decreases |inputs|
  {
    hide Valid, ScanAll;
    if inputs != [] {
      match inputs[0] {
        case Chunk(c) =>
          ScanAccounts(r.parser.buffer + c);
          TotalConcat(r.output, ScanAll(r.parser.buffer + c).frames);
        case NewSource =>
      }
      RunBalanced(Step(r, inputs[0]), inputs[1..]);
    }
  }

  lemma RunsFromStart(inputs: seq<Input>)
    ensures Balanced(RunFrom(START, inputs))
  {
    RunBalanced(START, inputs);
  }

  function Flatten(chunks: seq<bytes>): bytes {
    if chunks == [] then [] else chunks[0] + Flatten(chunks[1..])
  }

  function Feeds(chunks: seq<bytes>): (r: seq<Input>)
    ensures |r| == |chunks|
  {
    if chunks == [] then [] else [Chunk(chunks[0])] + Feeds(chunks[1..])
  }

  /** Feeding twice is feeding the concatenation. */
  lemma FedTwice(p: Parser, a: bytes, b: bytes)
    ensures Fed(Fed(p, a), b) == Fed(p, a + b)
    ensures ScanAll(p.buffer + (a + b)).frames
         == ScanAll(p.buffer + a).frames + ScanAll(Fed(p, a).buffer + b).frames
  {
    hide ScanAll, Total;
    assert p.buffer + (a + b) == (p.buffer + a) + b;
    ScanConcat(p.buffer + a, b);
    var first := ScanAll(p.buffer + a);
    ChargeJoin(p.(input := p.input + |a + b|), first, ScanAll(first.rest + b));
  }

  /**
   However a stream is split into chunks, the frames, the remainder and every
   counter are those of feeding the whole stream at once.
   */
  lemma {:induction false} ChunkingInvisible(r: Run, chunks: seq<bytes>)
    requires chunks != []
    ensures RunFrom(r, Feeds(chunks)) == Step(r, Chunk(Flatten(chunks)))
    decreases |chunks|
  {
    hide ScanAll, Fed;
    var c, more := chunks[0], chunks[1..];
    assert Feeds(chunks)[0] == Chunk(c) && Feeds(chunks)[1..] == Feeds(more);
    if |more| == 0 {
      assert Flatten(chunks) == c;
      assert RunFrom(Step(r, Chunk(c)), Feeds(more)) == Step(r, Chunk(c));
    } else {
      ChunkingInvisible(Step(r, Chunk(c)), more);
      FedTwice(r.parser, c, Flatten(more));
      Seqs.Assoc(r.output, ScanAll(r.parser.buffer + c).frames,
                 ScanAll(Fed(r.parser, c).buffer + Flatten(more)).frames);
    }
  }
}
