/**
  misc/b64.c (section 4 of RFC 4648): an encoder that works block by block, and a
  decoder that overwrites its own input and takes lines as chunks of their own.
 */
module Base64 {
  import opened Bytes

  const NEWLINE: byte := 0x0A
  const RETURN: byte := 0x0D
  const PAD: byte := 0x3D

  type Sextet = n: int | 0 <= n < 64

  /** The table of b64_encode. */
  function Char(v: Sextet): byte {
    if v < 26 then 0x41 + v else if v < 52 then 0x61 + (v - 26) else if v < 62 then 0x30 + (v - 52)
    else if v == 62 then 0x2B else 0x2F
  }

  /** The table of b64_decode. */
  function Value(c: byte): (v: int)
    ensures -1 <= v < 64
  {
    if 0x41 <= c <= 0x5A then c - 0x41
    else if 0x61 <= c <= 0x7A then c - 0x61 + 26
    else if 0x30 <= c <= 0x39 then c - 0x30 + 52
    else if c == 0x2B then 62
    else if c == 0x2F then 63
    else -1
  }

  /** The tables are inverse, and no character is a NUL, a line end or the padding. */
  lemma CharValue(v: Sextet)
    ensures Value(Char(v)) == v && Char(v) != 0 && Char(v) != NEWLINE && Char(v) != RETURN && Char(v) != PAD
  {
  }

  // ---------------------------------------------------------------- specification

  /** The characters of a block of three bytes. */
  function Block(b0: byte, b1: byte, b2: byte): (q: bytes)
    ensures |q| == 4
  {
    [Char(b0 / 4), Char(b0 % 4 * 16 + b1 / 16), Char(b1 % 16 * 4 + b2 / 64), Char(b2 % 64)]
  }

  /** b64_encode of the first `len` bytes; up to two bytes behind them are read, and do not matter. */
  function Encode(str: bytes, len: nat): bytes
    requires len + 2 <= |str|
    decreases len
  {
    if len == 0 then []
    else if len == 1 then Block(str[0], str[1], str[2])[..2] + [PAD, PAD]
    else if len == 2 then Block(str[0], str[1], str[2])[..3] + [PAD]
    else Block(str[0], str[1], str[2]) + Encode(str[3..], len - 3)
  }

  /** The byte that a character completes in phase 1, 2 or 3, after the value `last`. */
  function Completed(phase: int, last: Sextet, v: Sextet): byte {
    if phase == 1 then last * 4 + v / 16
    else if phase == 2 then last % 16 * 16 + v / 4
    else last % 4 * 64 + v
  }

  /** b64_decode in the given phase. */
  function Decode(s: bytes, phase: int, last: Sextet): bytes
    requires 0 <= phase < 4
  {
    if s == [] then []
    else if s[0] == NEWLINE || s[0] == RETURN then Decode(s[1..], 0, 0)
    else if Value(s[0]) == -1 then Decode(s[1..], phase, last)
    else if phase == 0 then Decode(s[1..], 1, Value(s[0]))
    else [Completed(phase, last, Value(s[0]))] + Decode(s[1..], (phase + 1) % 4, Value(s[0]))
  }

  // ---------------------------------------------------------------- round trip

  lemma DecodeChar(v: Sextet, rest: bytes, phase: int, last: Sextet)
    requires 0 <= phase < 4
    ensures
      Decode([Char(v)] + rest, phase, last)
      == (if phase == 0 then [] else [Completed(phase, last, v)]) + Decode(rest, (phase + 1) % 4, v)
  {
    CharValue(v);
    assert ([Char(v)] + rest)[1..] == rest;
    assert [] + Decode(rest, 1, v) == Decode(rest, 1, v);
  }

  lemma DecodePad(rest: bytes, phase: int, last: Sextet)
    requires 0 <= phase < 4
    ensures Decode([PAD] + rest, phase, last) == Decode(rest, phase, last)
  {
    assert ([PAD] + rest)[1..] == rest;
  }

  /** The four values of a block. */
  function V1(b0: byte, b1: byte): Sextet {
    b0 % 4 * 16 + b1 / 16
  }

  function V2(b1: byte, b2: byte): Sextet {
    b1 % 16 * 4 + b2 / 64
  }

  lemma BlockBytes(b0: byte, b1: byte, b2: byte)
    ensures Completed(1, b0 / 4, V1(b0, b1)) == b0
    ensures Completed(2, V1(b0, b1), V2(b1, b2)) == b1
    ensures Completed(3, V2(b1, b2), b2 % 64) == b2
  {
  }

  /** The first two, three and four characters of a block give back one, two and three bytes. */
  lemma DecodeTwo(b0: byte, b1: byte, b2: byte, rest: bytes, last: Sextet)
    ensures Decode(Block(b0, b1, b2)[..2] + rest, 0, last) == [b0] + Decode(rest, 2, V1(b0, b1))
  {
    var rest1 := [Char(V1(b0, b1))] + rest;
    assert Block(b0, b1, b2)[..2] + rest == [Char(b0 / 4)] + rest1;
    DecodeChar(b0 / 4, rest1, 0, last);
    assert [] + Decode(rest1, 1, b0 / 4) == Decode(rest1, 1, b0 / 4);
    DecodeChar(V1(b0, b1), rest, 1, b0 / 4);
    BlockBytes(b0, b1, b2);
  }

  lemma DecodeThree(b0: byte, b1: byte, b2: byte, rest: bytes, last: Sextet)
    ensures Decode(Block(b0, b1, b2)[..3] + rest, 0, last) == [b0, b1] + Decode(rest, 3, V2(b1, b2))
  {
    var rest1 := [Char(V2(b1, b2))] + rest;
    assert Block(b0, b1, b2)[..3] + rest == Block(b0, b1, b2)[..2] + rest1;
    DecodeTwo(b0, b1, b2, rest1, last);
    DecodeChar(V2(b1, b2), rest, 2, V1(b0, b1));
    BlockBytes(b0, b1, b2);
    assert [b0] + ([b1] + Decode(rest, 3, V2(b1, b2))) == [b0, b1] + Decode(rest, 3, V2(b1, b2));
  }

  lemma DecodeFour(b0: byte, b1: byte, b2: byte, rest: bytes, last: Sextet)
    ensures Decode(Block(b0, b1, b2) + rest, 0, last) == [b0, b1, b2] + Decode(rest, 0, b2 % 64)
  {
    var rest1 := [Char(b2 % 64)] + rest;
    assert Block(b0, b1, b2) + rest == Block(b0, b1, b2)[..3] + rest1;
    DecodeThree(b0, b1, b2, rest1, last);
    DecodeChar(b2 % 64, rest, 3, V2(b1, b2));
    BlockBytes(b0, b1, b2);
    assert [b0, b1] + ([b2] + Decode(rest, 0, b2 % 64)) == [b0, b1, b2] + Decode(rest, 0, b2 % 64);
  }

  /** The end of the input, or a new line, where the decoder starts over. */
  predicate StartsOver(rest: bytes) {
    rest == [] || rest[0] == NEWLINE || rest[0] == RETURN
  }

  lemma DecodeStartsOver(rest: bytes, phase: int, last: Sextet, phase': int, last': Sextet)
    requires StartsOver(rest) && 0 <= phase < 4 && 0 <= phase' < 4
    ensures Decode(rest, phase, last) == Decode(rest, phase', last')
  {
  }

  /** A chunk decodes to its bytes, whatever was behind their end. */
  lemma {:induction false} ChunkRoundTrip(str: bytes, len: nat, rest: bytes, last: Sextet)
    requires len + 2 <= |str| && StartsOver(rest)
    ensures Decode(Encode(str, len) + rest, 0, last) == str[..len] + Decode(rest, 0, 0)
    decreases len
  {
    if len == 0 {
      assert Encode(str, len) + rest == rest && str[..0] + Decode(rest, 0, 0) == Decode(rest, 0, 0);
      DecodeStartsOver(rest, 0, last, 0, 0);
    } else if len == 1 {
      OneByteRoundTrip(str[0], str[1], str[2], rest, last);
      assert str[..1] == [str[0]];
    } else if len == 2 {
      TwoBytesRoundTrip(str[0], str[1], str[2], rest, last);
      assert str[..2] == [str[0], str[1]];
    } else {
      ChunkRoundTrip(str[3..], len - 3, rest, str[2] % 64);
      BlockRoundTrip(str, len, rest, last);
    }
  }

  /** A block in front of others. */
  lemma BlockRoundTrip(str: bytes, len: nat, rest: bytes, last: Sextet)
    requires 3 <= len && len + 2 <= |str|
    requires
      Decode(Encode(str[3..], len - 3) + rest, 0, str[2] % 64) == str[3..][..len - 3] + Decode(rest, 0, 0)
    ensures Decode(Encode(str, len) + rest, 0, last) == str[..len] + Decode(rest, 0, 0)
  {
    var more := Encode(str[3..], len - 3) + rest;
    assert Encode(str, len) + rest == Block(str[0], str[1], str[2]) + more;
    DecodeFour(str[0], str[1], str[2], more, last);
    ThreeBytes(str, len, Decode(rest, 0, 0));
  }

  lemma ThreeBytes(str: bytes, len: nat, rest: bytes)
    requires 3 <= len <= |str|
    ensures [str[0], str[1], str[2]] + (str[3..][..len - 3] + rest) == str[..len] + rest
  {
    assert [str[0], str[1], str[2]] + str[3..][..len - 3] == str[..len];
  }

  lemma OneByteRoundTrip(b0: byte, x: byte, y: byte, rest: bytes, last: Sextet)
    requires StartsOver(rest)
    ensures Decode(Block(b0, x, y)[..2] + [PAD, PAD] + rest, 0, last) == [b0] + Decode(rest, 0, 0)
  {
    assert Block(b0, x, y)[..2] + [PAD, PAD] + rest == Block(b0, x, y)[..2] + ([PAD] + ([PAD] + rest));
    DecodeTwo(b0, x, y, [PAD] + ([PAD] + rest), last);
    DecodePad([PAD] + rest, 2, V1(b0, x));
    DecodePad(rest, 2, V1(b0, x));
    DecodeStartsOver(rest, 2, V1(b0, x), 0, 0);
  }

  lemma TwoBytesRoundTrip(b0: byte, b1: byte, x: byte, rest: bytes, last: Sextet)
    requires StartsOver(rest)
    ensures Decode(Block(b0, b1, x)[..3] + [PAD] + rest, 0, last) == [b0, b1] + Decode(rest, 0, 0)
  {
    assert Block(b0, b1, x)[..3] + [PAD] + rest == Block(b0, b1, x)[..3] + ([PAD] + rest);
    DecodeThree(b0, b1, x, [PAD] + rest, last);
    DecodePad(rest, 3, V2(b1, x));
    DecodeStartsOver(rest, 3, V2(b1, x), 0, 0);
  }

  /** The first `len` bytes of some memory, of which at least two more bytes can be read. */
  type Chunk = c: (bytes, nat) | c.1 + 2 <= |c.0| witness ([0, 0], 0)

  /** The encoded chunks, joined with new lines. */
  function Lines(l: seq<Chunk>): bytes {
    if l == [] then []
    else if |l| == 1 then Encode(l[0].0, l[0].1)
    else Encode(l[0].0, l[0].1) + ([NEWLINE] + Lines(l[1..]))
  }

  function Concat(l: seq<Chunk>): bytes {
    if l == [] then [] else l[0].0[..l[0].1] + Concat(l[1..])
  }

  /** Any list of byte strings, encoded one by one and joined with new lines, decodes to their concatenation. */
  lemma {:induction false} RoundTrip(l: seq<Chunk>, last: Sextet)
    ensures Decode(Lines(l), 0, last) == Concat(l)
    decreases |l|
  {
    if |l| == 1 {
      ChunkRoundTrip(l[0].0, l[0].1, [], last);
      assert Lines(l) + [] == Lines(l) && l[1..] == [];
    } else if l != [] {
      var rest := [NEWLINE] + Lines(l[1..]);
      ChunkRoundTrip(l[0].0, l[0].1, rest, last);
      assert rest[1..] == Lines(l[1..]);
      RoundTrip(l[1..], 0);
    }
  }

  // ---------------------------------------------------------------- the decoder in place

  lemma ByteDone(done: bytes, b: byte, more: bytes)
    ensures (done + [b]) + more == done + ([b] + more)
  {
  }

  /** b64_decode: the text at `a` up to its NUL, at `n`, is replaced by the bytes it stands for. */
  method DecodeInPlace(a: array<byte>, ghost n: nat) returns (len: nat)
    requires n < a.Length && a[n] == 0 && forall i :: 0 <= i < n ==> a[i] != 0
    modifies a
    ensures len <= n && a[..len] == Decode(old(a[..n]), 0, 0) && a[len] == 0
    ensures forall i :: n < i < a.Length ==> a[i] == old(a[i])
  {
    var cur := 0;
    len := 0;
    var last: Sextet, phase := 0, 0;
    ghost var s := a[..n];
    assert a[cur..n] == s && a[..0] == [];
    assert [] + Decode(s, 0, 0) == Decode(s, 0, 0);
    while a[cur] != 0
      invariant len <= cur <= n && 0 <= phase < 4 && a[n] == 0
      invariant forall i :: cur <= i < n ==> a[i] != 0
      invariant forall i :: n < i < a.Length ==> a[i] == old(a[i])
      invariant a[..len] + Decode(a[cur..n], phase, last) == Decode(s, 0, 0)
      decreases n - cur
    {
      var c := a[cur];
      assert a[cur..n][1..] == a[cur + 1..n] && a[cur..n][0] == c;
      if c == NEWLINE || c == RETURN {
        phase, last := 0, 0;
      } else {
        var d := Value(c);
        if d != -1 {
          if phase == 0 {
            phase := 1;
          } else {
            ghost var done, rest := a[..len], a[cur + 1..n];
            a[len] := Completed(phase, last, d);
            assert a[..len + 1] == done + [Completed(phase, last, d)] && a[cur + 1..n] == rest;
            ByteDone(done, Completed(phase, last, d), Decode(rest, (phase + 1) % 4, d));
            len, phase := len + 1, (phase + 1) % 4;
          }
          last := d;
        }
      }
      cur := cur + 1;
    }
    assert a[cur..n] == [] && a[..len] + [] == a[..len];
    ghost var done := a[..len];
    a[len] := 0;
    assert a[..len] == done;
  }

  // ---------------------------------------------------------------- the encoder

  /** One round of b64_encode. */
  method PutBlock(str: bytes, i: nat, out: array<byte>, cur: nat)
    requires i + 3 <= |str| && cur + 4 <= out.Length
    modifies out
    ensures out[..cur + 4] == old(out[..cur]) + Block(str[i], str[i + 1], str[i + 2])
  {
    ghost var w := out[..cur];
    out[cur] := Char(str[i] / 4);
    out[cur + 1] := Char(str[i] % 4 * 16 + str[i + 1] / 16);
    out[cur + 2] := Char(str[i + 1] % 16 * 4 + str[i + 2] / 64);
    out[cur + 3] := Char(str[i + 2] % 64);
    assert out[..cur] == w && out[cur..cur + 4] == Block(str[i], str[i + 1], str[i + 2]);
  }

  /** The first `k` blocks. */
  function Blocks(str: bytes, k: nat): (w: bytes)
    requires 3 * k <= |str|
    ensures |w| == 4 * k
    decreases k
  {
    if k == 0 then [] else Blocks(str, k - 1) + Block(str[3 * k - 3], str[3 * k - 2], str[3 * k - 1])
  }

  lemma BlocksLast(str: bytes, k: nat)
    requires 0 < k && 3 * k <= |str|
    ensures Blocks(str, k) == Blocks(str, k - 1) + Block(str[3 * k - 3], str[3 * k - 2], str[3 * k - 1])
  {
  }

  lemma {:induction false} BlocksFirst(str: bytes, k: nat)
    requires 0 < k && 3 * k <= |str|
    ensures Blocks(str, k) == Block(str[0], str[1], str[2]) + Blocks(str[3..], k - 1)
    decreases k
  {
    if k == 1 {
      assert Blocks(str, 0) == [] && Blocks(str[3..], 0) == [];
    } else {
      BlocksFirst(str, k - 1);
      BlocksLast(str, k);
      BlocksLast(str[3..], k - 1);
      var first, last := Block(str[0], str[1], str[2]), Block(str[3 * k - 3], str[3 * k - 2], str[3 * k - 1]);
      assert (first + Blocks(str[3..], k - 2)) + last == first + (Blocks(str[3..], k - 2) + last);
    }
  }

  function Pads(n: nat): (b: bytes)
    requires n <= 2
    ensures |b| == n
  {
    if n == 0 then [] else if n == 1 then [PAD] else [PAD, PAD]
  }

  /** `w` with padding over its last `n` characters. */
  function Padded(w: bytes, n: nat): bytes
    requires n <= 2 && n <= |w|
  {
    w[..|w| - n] + Pads(n)
  }

  lemma PaddedBehind(q: bytes, rest: bytes, n: nat)
    requires n <= 2 && n <= |rest|
    ensures Padded(q + rest, n) == q + Padded(rest, n)
  {
  }

  lemma LastBlock(str: bytes, len: nat)
    requires 0 < len < 3 && len + 2 <= |str|
    ensures Padded(Block(str[0], str[1], str[2]), 3 - len) == Encode(str, len)
  {
  }

  /** One block, or none. */
  lemma FewBytes(str: bytes, len: nat, k: nat)
    requires len < 3 && len + 2 <= |str| && len <= 3 * k <= len + 2
    ensures Padded(Blocks(str, k), 3 * k - len) == Encode(str, len)
  {
    if k != 0 {
      assert k == 1;
      OneBlock(str);
      LastBlock(str, len);
    }
  }

  /** The padding goes over the characters of the bytes behind the end. */
  lemma {:induction false} BlocksEncode(str: bytes, len: nat, k: nat)
    requires len + 2 <= |str| && len <= 3 * k <= len + 2
    ensures Padded(Blocks(str, k), 3 * k - len) == Encode(str, len)
    decreases k
  {
    if len < 3 {
      FewBytes(str, len, k);
    } else {
      BlocksEncode(str[3..], len - 3, k - 1);
      BlocksStep(str, len, k);
    }
  }

  lemma BlocksStep(str: bytes, len: nat, k: nat)
    requires 3 <= len && len + 2 <= |str| && len <= 3 * k <= len + 2
    requires Padded(Blocks(str[3..], k - 1), 3 * k - len) == Encode(str[3..], len - 3)
    ensures Padded(Blocks(str, k), 3 * k - len) == Encode(str, len)
  {
    BlocksFirst(str, k);
    MoreBlocks(str, len, k);
  }

  lemma OneBlock(str: bytes)
    requires |str| >= 3
    ensures Blocks(str, 1) == Block(str[0], str[1], str[2])
  {
    assert Blocks(str, 0) == [];
  }

  lemma MoreBlocks(str: bytes, len: nat, k: nat)
    requires 3 <= len && len + 2 <= |str| && len <= 3 * k <= len + 2
    requires Blocks(str, k) == Block(str[0], str[1], str[2]) + Blocks(str[3..], k - 1)
    requires Padded(Blocks(str[3..], k - 1), 3 * k - len) == Encode(str[3..], len - 3)
    ensures Padded(Blocks(str, k), 3 * k - len) == Encode(str, len)
  {
    var rest := Blocks(str[3..], k - 1);
    if k == 1 {
      assert rest == [];
      var q := Block(str[0], str[1], str[2]);
      assert q + [] == q && q[..4] + [] == q;
    } else {
      PaddedBehind(Block(str[0], str[1], str[2]), rest, 3 * k - len);
    }
  }

  lemma Room(k: nat, len: nat, length: nat)
    requires 3 * k < len + 3 && (len + 2) / 3 * 4 < length
    ensures 4 * k < length && (3 * k < len ==> 4 * k + 4 < length)
  {
  }

  /** The loop of b64_encode. */
  method PutBlocks(str: bytes, len: nat, out: array<byte>) returns (i: nat, cur: nat, ghost k: nat)
    requires len + 2 <= |str| && (len + 2) / 3 * 4 < out.Length
    modifies out
    ensures len <= i <= len + 2 && i == 3 * k && cur == 4 * k < out.Length && out[..cur] == Blocks(str, k)
  {
    i, cur, k := 0, 0, 0;
    Room(0, len, out.Length);
    while i < len
      invariant i == 3 * k < len + 3 && cur == 4 * k < out.Length && out[..cur] == Blocks(str, k)
      decreases len - i
    {
      Room(k, len, out.Length);
      Room(k + 1, len, out.Length);
      PutBlock(str, i, out, cur);
      BlocksLast(str, k + 1);
      i, cur, k := i + 3, cur + 4, k + 1;
    }
  }

  /** b64_encode: it reads up to two bytes behind the `len` bytes of `str`, and writes a NUL at the end. */
  method EncodeBlocks(str: bytes, len: nat, out: array<byte>) returns (end: nat)
    requires len + 2 <= |str| && (len + 2) / 3 * 4 < out.Length
    modifies out
    ensures end < out.Length && out[..end] == Encode(str, len) && out[end] == 0
  {
    var i, cur;
    ghost var k;
    i, cur, k := PutBlocks(str, len, out);
    Pad(out, cur, i - len);
    end := cur;
    BlocksEncode(str, len, k);
  }

  /** The padding over the last characters, and the NUL. */
  method Pad(out: array<byte>, cur: nat, pads: nat)
    requires pads <= 2 && pads <= cur < out.Length
    modifies out
    ensures out[..cur] == Padded(old(out[..cur]), pads)
    ensures out[cur] == 0
  {
    if pads == 1 {
      out[cur - 1] := PAD;
    } else if pads == 2 {
      out[cur - 2], out[cur - 1] := PAD, PAD;
    }
    out[cur] := 0;
  }
}
