/** Consistent Overhead Byte Stuffing, as the host and the firmware each write it. */
module Cobs {
  import opened Wrappers
  import opened Bytes

  datatype CobsError = EmptyFrame | ZeroCode | Truncated

  const FULL: nat := 254

  /** Length of the zero-free run at the front, at most one full block. */
  function Run(d: bytes): (k: nat)
    ensures k <= |d| && k <= FULL
    ensures forall i :: 0 <= i < k ==> d[i] != 0
    ensures k < FULL && k < |d| ==> d[k] == 0
  {
    RunUpTo(d, FULL)
  }

  function RunUpTo(d: bytes, m: nat): (k: nat)
    ensures k <= |d| && k <= m
    ensures forall i :: 0 <= i < k ==> d[i] != 0
    ensures k < m && k < |d| ==> d[k] == 0
    decreases m
  {
    if m == 0 || d == [] || d[0] == 0 then 0 else 1 + RunUpTo(d[1..], m - 1)
  }

  /** The stuffed form, block by block. A full block is always followed by another block. */
  function Encode(d: bytes): (e: bytes)
    ensures e != []
    decreases |d|
  {
    var k := Run(d);
    if k == FULL then [255] + d[..FULL] + Encode(d[FULL..])
    else if k == |d| then [(k + 1) as byte] + d
    else [(k + 1) as byte] + d[..k] + Encode(d[k + 1..])
  }

  lemma Overhead(n: nat, k: nat)
    ensures n / FULL <= (n + k) / FULL
    ensures (n + FULL) / FULL == n / FULL + 1
  {}

  lemma NoZero(d: bytes, k: nat)
    requires k == Run(d)
    ensures 0 !in d[..k]
  {
    hide Run;
  }

  lemma NoZeroConcat(a: byte, b: bytes, c: bytes)
    requires a != 0 && 0 !in b && 0 !in c
    ensures 0 !in [a] + b + c
  {}

  /** No delimiter inside, and at most one octet of overhead per started run of 254. */
  lemma {:induction false} EncodedShape(d: bytes)
    ensures 0 !in Encode(d)
    ensures |d| + 1 <= |Encode(d)| <= |d| + 1 + |d| / FULL
    decreases |d|
  {
    hide Run;
    var k := Run(d);
    NoZero(d, k);
    if k == FULL {
      var e := Encode(d[FULL..]);
      EncodedShape(d[FULL..]);
      Overhead(|d| - FULL, 0);
      NoZeroConcat(255, d[..FULL], e);
    } else if k == |d| {
      assert d[..k] == d;
      NoZeroConcat((k + 1) as byte, d, []);
      assert [(k + 1) as byte] + d + [] == [(k + 1) as byte] + d;
    } else {
      var e := Encode(d[k + 1..]);
      EncodedShape(d[k + 1..]);
      Overhead(|d| - k - 1, k + 1);
      NoZeroConcat((k + 1) as byte, d[..k], e);
    }
  }

  function Prepend(out: bytes, r: Result<bytes, CobsError>): Result<bytes, CobsError> {
    match r
    case Ok(d) => Ok(out + d)
    case Err(x) => Err(x)
  }

  /** What the stuffed string stands for. */
  function Decode(e: bytes): (r: Result<bytes, CobsError>)
    ensures e == [] ==> r == Err(EmptyFrame)
    decreases |e|
  {
    if e == [] then Err(EmptyFrame)
    else if e[0] == 0 then Err(ZeroCode)
    else if e[0] as int > |e| then Err(Truncated)
    else
      var block, rest := e[1..e[0] as int], e[e[0] as int..];
      if rest == [] then Ok(block)
      else
        Prepend(block + if e[0] == 255 then [] else [0], Decode(rest))
  }

  /** One turn of the decoder, with the pieces named. */
  lemma DecodeOne(e: bytes, block: bytes, rest: bytes)
    requires |block| <= FULL && |e| == 1 + |block| + |rest|
    requires e[0] as int == |block| + 1 && e[1..|block| + 1] == block && e[|block| + 1..] == rest
    ensures Decode(e) == if rest == [] then Ok(block)
                         else Prepend(block + if |block| == FULL then [] else [0], Decode(rest))
  {}

  /** One block at the front, told apart from what follows by its code octet alone. */
  lemma DecodeBlock(block: bytes, rest: bytes)
    requires |block| <= FULL && rest != [] && Decode(rest).Ok?
    ensures Decode([(|block| + 1) as byte] + block + rest)
            == Ok(block + (if |block| == FULL then [] else [0]) + Decode(rest).value)
  {
    hide Decode;
    var e := [(|block| + 1) as byte] + block + rest;
    assert e[1..|block| + 1] == block && e[|block| + 1..] == rest;
    DecodeOne(e, block, rest);
  }

  lemma DecodeLast(block: bytes)
    requires |block| < FULL
    ensures Decode([(|block| + 1) as byte] + block) == Ok(block)
  {
    hide Decode;
    var none: bytes := [];
    var e := [(|block| + 1) as byte] + block;
    assert e[1..|block| + 1] == block;
    assert e[|block| + 1..] == none;
    DecodeOne(e, block, none);
  }

  /** Unstuffing inverts stuffing, for every string. */
  lemma {:induction false} RoundTrip(d: bytes)
    ensures Decode(Encode(d)) == Ok(d)
    decreases |d|
  {
    hide Run, Decode;
    var k := Run(d);
    if k == FULL {
      RoundTrip(d[FULL..]);
      DecodeBlock(d[..FULL], Encode(d[FULL..]));
      assert d == d[..FULL] + [] + d[FULL..];
    } else if k == |d| {
      DecodeLast(d);
    } else {
      RoundTrip(d[k + 1..]);
      DecodeBlock(d[..k], Encode(d[k + 1..]));
      assert d == d[..k] + [0] + d[k + 1..];
    }
  }

  /** Stuffing never confuses two strings. */
  lemma EncodeInjective(c: bytes, d: bytes)
    requires Encode(c) == Encode(d)
    ensures c == d
  {
    RoundTrip(c);
    RoundTrip(d);
  }

  /** Canonical or not, an encoding costs one octet per started run of 254. */
  lemma {:induction false} DecodedLength(e: bytes)
    requires Decode(e).Ok?
    ensures |Decode(e).value| + 1 <= |e| <= |Decode(e).value| + 1 + |Decode(e).value| / FULL
    decreases |e|
  {
    if e[e[0] as int..] != [] {
      DecodedLength(e[e[0] as int..]);
      var n := |Decode(e[e[0] as int..]).value|;
      if e[0] == 255 {
        assert (n + FULL) / FULL == n / FULL + 1;
      } else {
        assert n / FULL <= (n + e[0] as int) / FULL;
      }
    }
  }

  /** A zero-free prefix that stops at a zero, at the end or at a full block is the run. */
  lemma RunIs(d: bytes, k: nat)
    requires k <= |d| && k <= FULL && forall i :: 0 <= i < k ==> d[i] != 0
    requires k == FULL || k == |d| || d[k] == 0
    ensures Run(d) == k
  {}

  /** Closing the block that starts at `from` and holds `k` octets. */
  lemma CloseBlock(data: bytes, from: nat, k: nat)
    requires from + k <= |data| && k <= FULL && 0 !in data[from..from + k]
    requires k == FULL || from + k == |data| || data[from + k] == 0
    ensures Encode(data[from..]) ==
      if k == FULL then [255] + data[from..from + k] + Encode(data[from + k..])
      else if from + k == |data| then [(k + 1) as byte] + data[from..from + k]
      else [(k + 1) as byte] + data[from..from + k] + Encode(data[from + k + 1..])
  {
    var todo := data[from..];
    assert todo[..k] == data[from..from + k] && todo[k..] == data[from + k..];
    assert forall i :: 0 <= i < k ==> todo[i] == data[from..from + k][i];
    if from + k < |data| {
      assert todo[k + 1..] == data[from + k + 1..];
    }
    RunIs(todo, k);
  }

  /** `out` holds the finished blocks, then the open block that started at `from`. */
  ghost predicate Encoding(out: bytes, at: nat, data: bytes, from: nat, i: nat)
  {
    && from <= i <= |data| && i - from < FULL
    && at + 1 + (i - from) == |out|
    && out[at + 1..] == data[from..i]
    && (forall j :: from <= j < i ==> data[j] != 0)
    && out[..at] + Encode(data[from..]) == Encode(data)
  }

  /** `p` is `out` with the block at `at` closed by `code` and one more slot, of any content, opened. */
  ghost predicate Patched(out: bytes, at: nat, code: byte, p: bytes)
  {
    at < |out| && |p| == |out| + 1 && p[..|out|] == out[at := code]
  }

  lemma Append(out: bytes, at: nat, data: bytes, from: nat, i: nat)
    requires Encoding(out, at, data, from, i) && i < |data| && data[i] != 0
    ensures i + 1 - from < FULL ==> Encoding(out + [data[i]], at, data, from, i + 1)
    ensures i + 1 - from == FULL ==>
      forall p :: Patched(out + [data[i]], at, 255, p) ==> Encoding(p, |out| + 1, data, i + 1, i + 1)
  {
    hide Encode;
    var out' := out + [data[i]];
    assert data[from..i + 1] == data[from..i] + [data[i]];
    assert out'[at + 1..] == out[at + 1..] + [data[i]];
    assert out'[..at] == out[..at];
    if i + 1 - from == FULL {
      CloseBlock(data, from, FULL);
      forall p | Patched(out', at, 255, p) ensures Encoding(p, |out| + 1, data, i + 1, i + 1) {
        Close(out', p, at, 255, data, from, i + 1, i + 1);
      }
    }
  }

  lemma Zero(out: bytes, p: bytes, at: nat, data: bytes, from: nat, i: nat)
    requires Encoding(out, at, data, from, i) && i < |data| && data[i] == 0
    requires Patched(out, at, (i - from + 1) as byte, p)
    ensures Encoding(p, |out|, data, i + 1, i + 1)
  {
    hide Encode;
    CloseBlock(data, from, i - from);
    Close(out, p, at, (i - from + 1) as byte, data, from, i, i + 1);
  }

  lemma PatchShape(out: bytes, p: bytes, at: nat, code: byte, block: bytes)
    requires Patched(out, at, code, p) && out[at + 1..] == block
    ensures p[|out| + 1..] == [] && p[..|out|] == out[..at] + [code] + block
  {
    assert out[at := code] == out[..at] + [code] + block;
  }

  lemma Regroup(a: bytes, b: bytes, c: bytes, d: bytes)
    ensures (a + b + c) + d == a + (b + c + d)
  {}

  lemma Close(out: bytes, p: bytes, at: nat, code: byte, data: bytes, from: nat, i: nat, next: nat)
    requires from <= i <= next <= |data| && Patched(out, at, code, p)
    requires out[at + 1..] == data[from..i]
    requires out[..at] + Encode(data[from..]) == Encode(data)
    requires Encode(data[from..]) == [code] + data[from..i] + Encode(data[next..])
    ensures Encoding(p, |out|, data, next, next)
  {
    hide Encode;
    var block, rest := data[from..i], Encode(data[next..]);
    PatchShape(out, p, at, code, block);
    Regroup(out[..at], [code], block, rest);
    assert data[next..next] == [];
  }

  lemma Start(data: bytes, slot: byte)
    ensures Encoding([slot], 0, data, 0, 0)
  {
    hide Encode;
    assert data[0..] == data && [slot][1..] == data[0..0];
    assert [slot][..0] + Encode(data) == Encode(data);
  }

  lemma Splice(out: bytes, at: nat, code: byte)
    requires at < |out|
    ensures out[at := code] == out[..at] + ([code] + out[at + 1..])
  {}

  lemma Finish(out: bytes, at: nat, data: bytes, from: nat)
    requires Encoding(out, at, data, from, |data|)
    ensures out[at := (|data| - from + 1) as byte] == Encode(data)
  {
    hide Encode;
    var code := (|data| - from + 1) as byte;
    CloseBlock(data, from, |data| - from);
    Splice(out, at, code);
  }

  lemma EncodeEmpty()
    ensures Encode([]) == [1]
  {}

  /** What is written so far always fits in what the finished encoding needs. */
  lemma Fits(out: bytes, at: nat, data: bytes, from: nat, i: nat)
    requires Encoding(out, at, data, from, i)
    ensures |out| <= |Encode(data)|
    ensures i < |data| ==> |out| < |Encode(data)|
    ensures i < |data| && data[i] != 0 && i + 1 - from == FULL ==> |out| + 1 < |Encode(data)|
  {
    hide Encode;
    EncodedShape(data[from..]);
    if i < |data| && data[i] != 0 && i + 1 - from == FULL {
      CloseBlock(data, from, FULL);
      EncodedShape(data[i + 1..]);
    }
  }

  /** The host's encoder: a code octet is patched once its block is complete. */
  method CobsEncode(data: bytes) returns (out: bytes)
    ensures out == Encode(data)
  {
    hide Encode, Encoding;
    if data == [] {
      EncodeEmpty();
      return [1];
    }
    out := [0];
    var code, codePos := 1, 0;
    ghost var from := 0;
    Start(data, 0);
    for i := 0 to |data|
      invariant 0 <= codePos < |out| && from + code - 1 == i && 1 <= code <= FULL
      invariant Encoding(out, codePos, data, from, i)
    {
      ghost var was := out;
      if data[i] == 0 {
        out := out[codePos := code as byte];
        out := out + [0];
        Zero(was, out, codePos, data, from, i);
        codePos := |out| - 1;
        code, from := 1, i + 1;
      } else {
        Append(out, codePos, data, from, i);
        out := out + [data[i]];
        code := code + 1;
        if code == 0xFF {
          out := out[codePos := code as byte];
          out := out + [0];
          assert Patched(was + [data[i]], codePos, 255, out);
          codePos := |out| - 1;
          code, from := 1, i + 1;
        }
      }
    }
    Finish(out, codePos, data, from);
    out := out[codePos := code as byte];
  }

  /** The firmware's encoder, in place in the caller's buffer, gives the same octets. */
  method Enc(a: bytes, o: array<byte>) returns (wi: nat)
    requires |Encode(a)| <= o.Length
    modifies o
    ensures wi <= o.Length && o[..wi] == Encode(a)
  {
    hide Encode, Encoding;
    var ri, ci, code := 0, 0, 1;
    wi := 1;
    ghost var from := 0;
    EncodedShape(a);
    Start(a, o[0]);
    assert o[..1] == [o[0]];
    while ri < |a|
      invariant ri <= |a| && 0 <= ci < wi <= o.Length && from + code - 1 == ri && 1 <= code <= FULL
      invariant Encoding(o[..wi], ci, a, from, ri)
    {
      ghost var was := o[..wi];
      Fits(was, ci, a, from, ri);
      if a[ri] == 0 {
        o[ci] := code as byte;
        assert o[..wi + 1][..wi] == was[ci := code as byte];
        Zero(was, o[..wi + 1], ci, a, from, ri);
        code, ci := 1, wi;
        wi, ri := wi + 1, ri + 1;
        from := ri;
      } else {
        Append(was, ci, a, from, ri);
        o[wi] := a[ri];
        assert o[..wi + 1] == was + [a[ri]];
        wi, ri := wi + 1, ri + 1;
        code := code + 1;
        if code == 0xFF {
          o[ci] := code as byte;
          assert o[..wi + 1][..wi] == (was + [a[ri - 1]])[ci := 255];
          assert Patched(was + [a[ri - 1]], ci, 255, o[..wi + 1]);
          code, ci := 1, wi;
          wi := wi + 1;
          from := ri;
        }
      }
    }
    Finish(o[..wi], ci, a, from);
    assert o[..wi][ci := code as byte] == Encode(a);
    o[ci] := code as byte;
    assert o[..wi] == Encode(a);
  }

  /** Blocks decoded so far, in front of whatever the rest decodes to. */
  ghost predicate Decoding(data: bytes, i: nat, out: bytes)
  {
    && i <= |data|
    && Decode(data) == if i == |data| > 0 then Ok(out) else Prepend(out, Decode(data[i..]))
  }

  lemma DecodeUnfold(data: bytes, i: nat)
    requires i < |data|
    ensures data[i] == 0 ==> Decode(data[i..]) == Err(ZeroCode)
    ensures data[i] != 0 && i + data[i] as int > |data| ==> Decode(data[i..]) == Err(Truncated)
    ensures data[i] != 0 && i + data[i] as int <= |data| ==>
      var end := i + data[i] as int;
      Decode(data[i..]) ==
        if end == |data| then Ok(data[i + 1..end])
        else Prepend(data[i + 1..end] + if data[i] != 0xFF then [0] else [], Decode(data[end..]))
  {
    var e := data[i..];
    if data[i] != 0 && i + data[i] as int <= |data| {
      hide Decode;
      var end := i + data[i] as int;
      assert e[1..e[0] as int] == data[i + 1..end] && e[e[0] as int..] == data[end..];
      DecodeOne(e, data[i + 1..end], data[end..]);
    }
  }

  lemma PrependTwice(a: bytes, b: bytes, r: Result<bytes, CobsError>)
    ensures Prepend(a, Prepend(b, r)) == Prepend(a + b, r)
  {
    if r.Ok? {
      assert a + (b + r.value) == (a + b) + r.value;
    }
  }

  /** One more block: what it adds, or how it fails. */
  lemma DecodeStep(data: bytes, i: nat, out: bytes)
    requires Decoding(data, i, out) && i < |data|
    ensures data[i] == 0 ==> Decode(data) == Err(ZeroCode)
    ensures data[i] != 0 && i + data[i] as int > |data| ==> Decode(data) == Err(Truncated)
    ensures data[i] != 0 && i + data[i] as int <= |data| ==>
      var end := i + data[i] as int;
      Decoding(data, end, out + data[i + 1..end] + if data[i] != 0xFF && end < |data| then [0] else [])
  {
    hide Decode;
    DecodeUnfold(data, i);
    if data[i] != 0 && i + data[i] as int <= |data| {
      var end := i + data[i] as int;
      var block: bytes := data[i + 1..end];
      var sep: bytes := if data[i] != 0xFF then [0] else [];
      PrependTwice(out, block + sep, Decode(data[end..]));
      assert out + (block + sep) == out + block + sep && out + block + [] == out + block;
    }
  }

  /** The host's decoder. */
  method CobsDecode(data: bytes) returns (r: Result<bytes, CobsError>)
    ensures r == Decode(data)
  {
    hide Decode;
    if data == [] {
      return Err(EmptyFrame);
    }
    var out: bytes, i := [], 0;
    DecodeStart(data);
    while i < |data|
      invariant i <= |data| && Decoding(data, i, out)
    {
      DecodeStep(data, i, out);
      var code := data[i];
      if code == 0 {
        return Err(ZeroCode);
      }
      var end := i + code as int;
      if end > |data| {
        return Err(Truncated);
      }
      out := out + data[i + 1..end];
      if code != 0xFF && end < |data| {
        out := out + [0];
      } else {
        assert out + [] == out;
      }
      i := end;
    }
    r := Ok(out);
  }

  lemma DecodeStart(data: bytes)
    requires data != []
    ensures Decoding(data, 0, [])
  {
    assert data[0..] == data;
    if Decode(data).Ok? {
      assert [] + Decode(data).value == Decode(data).value;
    }
  }

  /** Whatever comes after a decoded prefix, the result is at least that long. */
  lemma DecodingGrows(data: bytes, i: nat, out: bytes)
    requires Decoding(data, i, out) && data != [] && Decode(data).Ok?
    ensures |out| <= |Decode(data).value|
  {}

  /** The firmware's decoder: the same language, and the empty string, cut off at the buffer's capacity. */
  method Dec(a: bytes, o: array<byte>) returns (ok: bool, wi: nat)
    modifies o
    ensures a == [] ==> ok && wi == 0
    ensures a != [] ==> (ok <==> Decode(a).Ok? && |Decode(a).value| <= o.Length)
    ensures a != [] && ok ==> wi <= o.Length && o[..wi] == Decode(a).value
  {
    hide Decode, Decoding;
    var ri := 0;
    wi := 0;
    if a != [] { DecodeStart(a); }
    while ri < |a|
      invariant ri <= |a| && wi <= o.Length && (a == [] ==> wi == 0)
      invariant a != [] ==> Decoding(a, ri, o[..wi])
    {
      ghost var was := o[..wi];
      DecodeStep(a, ri, was);
      var start, code := ri, a[ri];
      ri := ri + 1;
      if code == 0 || ri + code as int - 1 > |a| {
        return false, wi;
      }
      ghost var end := start + code as int;
      ghost var grown := was + a[start + 1..end] + if code != 0xFF && end < |a| then [0] else [];
      if Decode(a).Ok? { DecodingGrows(a, end, grown); }
      for i := 1 to code as int
        invariant ri == start + i && wi == |was| + i - 1 <= o.Length
        invariant o[..wi] == was + a[start + 1..ri]
      {
        if wi >= o.Length {
          return false, wi;
        }
        o[wi] := a[ri];
        wi, ri := wi + 1, ri + 1;
      }
      if code != 0xFF && ri < |a| {
        if wi >= o.Length {
          return false, wi;
        }
        o[wi] := 0;
        wi := wi + 1;
      }
      assert o[..wi] == grown;
    }
    if a != [] { DecodingDone(a, o[..wi]); }
    ok := true;
  }

  lemma DecodingDone(a: bytes, out: bytes)
    requires a != [] && Decoding(a, |a|, out)
    ensures Decode(a) == Ok(out)
  {}
}
