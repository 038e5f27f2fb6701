/**
  What base64 text means (section 4 of RFC 4648): six bits for every character of the
  alphabet, the bits of four characters being those of three bytes. The decoder is
  described on every input, the encoder up to the bits that it takes from behind its input.
 */
module Base64Laws {
  import opened Bytes
  import opened Base64

  // ---------------------------------------------------------------- the alphabet

  const A_TO_M := "ABCDEFGHIJKLM"
  const N_TO_Z := "NOPQRSTUVWXYZ"
  const LOWER_A_TO_M := "abcdefghijklm"
  const LOWER_N_TO_Z := "nopqrstuvwxyz"
  const DIGITS_AND_REST := "0123456789+/"

  /** Table 1 of RFC 4648. */
  function Alphabet(): string {
    A_TO_M + N_TO_Z + LOWER_A_TO_M + LOWER_N_TO_Z + DIGITS_AND_REST
  }

  lemma Letters(v: Sextet)
    ensures |Alphabet()| == 64 && Char(v) == Alphabet()[v] as int
  {
  }

  /** Both tables are the alphabet, and no other byte has a value. */
  lemma TablesAreAlphabet(v: Sextet, c: byte)
    ensures |Alphabet()| == 64 && Char(v) == Alphabet()[v] as int
    ensures Base64.Value(c) == v <==> Alphabet()[v] as int == c
    ensures Base64.Value(c) == -1 <==> forall w :: 0 <= w < 64 ==> Alphabet()[w] as int != c
  {
    Letters(v);
    CharValue(v);
    if Base64.Value(c) != -1 {
      Letters(Base64.Value(c));
    }
    forall w: Sextet ensures Base64.Value(Alphabet()[w] as int) == w && Alphabet()[w] as int < 256 {
      Letters(w);
      CharValue(w);
    }
  }

  // ---------------------------------------------------------------- decoding

  predicate IsLineEnd(c: byte) {
    c == 0x0A || c == 0x0D
  }

  /** The values of the characters of the alphabet in `s`; all others are skipped. */
  function Values(s: bytes): seq<Sextet> {
    if s == [] then [] else (if Base64.Value(s[0]) == -1 then [] else [Base64.Value(s[0])]) + Values(s[1..])
  }

  /** The number that has the six bits of every value, the first one on top. */
  function Bits(vs: seq<Sextet>): nat {
    if vs == [] then 0 else Bits(vs[..|vs| - 1]) * 64 + vs[|vs| - 1]
  }

  /** The number that has the eight bits of every byte. */
  function Octets(b: bytes): nat {
    if b == [] then 0 else Octets(b[..|b| - 1]) * 256 + b[|b| - 1]
  }

  /**
    `b` has the whole bytes of the bits of `vs`: four values make three bytes, three make
    two, two make one, and the bits that are left over are dropped.
   */
  predicate IsWhole(vs: seq<Sextet>, b: bytes) {
    if |vs| < 2 then b == []
    else if |vs| == 2 then |b| == 1 && Octets(b) == Bits(vs) / 16
    else if |vs| == 3 then |b| == 2 && Octets(b) == Bits(vs) / 4
    else |b| >= 3 && Octets(b[..3]) == Bits(vs[..4]) && IsWhole(vs[4..], b[3..])
  }

  lemma BitsOfMore(vs: seq<Sextet>, v: Sextet)
    ensures Bits(vs + [v]) == Bits(vs) * 64 + v
  {
    assert (vs + [v])[..|vs|] == vs;
  }

  lemma BitsOf(v0: Sextet, v1: Sextet, v2: Sextet, v3: Sextet)
    ensures Bits([v0, v1]) == v0 as int * 64 + v1
    ensures Bits([v0, v1, v2]) == (v0 as int * 64 + v1) * 64 + v2
    ensures Bits([v0, v1, v2, v3]) == ((v0 as int * 64 + v1) * 64 + v2) * 64 + v3
  {
    BitsOfMore([], v0);
    BitsOfMore([v0], v1);
    BitsOfMore([v0, v1], v2);
    BitsOfMore([v0, v1, v2], v3);
    assert [] + [v0] == [v0] && [v0] + [v1] == [v0, v1] && [v0, v1] + [v2] == [v0, v1, v2];
    assert [v0, v1, v2] + [v3] == [v0, v1, v2, v3];
  }

  lemma OctetsOfMore(b: bytes, x: byte)
    ensures Octets(b + [x]) == Octets(b) * 256 + x
  {
    assert (b + [x])[..|b|] == b;
  }

  lemma OctetsOf(b0: byte, b1: byte, b2: byte)
    ensures Octets([b0]) == b0
    ensures Octets([b0, b1]) == b0 as int * 256 + b1
    ensures Octets([b0, b1, b2]) == (b0 as int * 256 + b1) * 256 + b2
  {
    OctetsOfMore([], b0);
    OctetsOfMore([b0], b1);
    OctetsOfMore([b0, b1], b2);
    assert [] + [b0] == [b0] && [b0] + [b1] == [b0, b1] && [b0, b1] + [b2] == [b0, b1, b2];
  }

  /** Decoding, in terms of the values of the characters alone. */
  function DecodeValues(vs: seq<Sextet>, phase: int, last: Sextet): bytes
    requires 0 <= phase < 4
  {
    if vs == [] then []
    else if phase == 0 then DecodeValues(vs[1..], 1, vs[0])
    else [Completed(phase, last, vs[0])] + DecodeValues(vs[1..], (phase + 1) % 4, vs[0])
  }

  /** What follows the first line end in `s`, and what is in front of it. */
  lemma {:induction false} DecodeLine(s: bytes, rest: bytes, phase: int, last: Sextet)
    requires 0 <= phase < 4 && StartsOver(rest) && forall i :: 0 <= i < |s| ==> !IsLineEnd(s[i])
    ensures Decode(s + rest, phase, last) == DecodeValues(Values(s), phase, last) + Decode(rest, 0, 0)
    decreases |s|
  {
    if s == [] {
      assert s + rest == rest && [] + Decode(rest, 0, 0) == Decode(rest, 0, 0);
      DecodeStartsOver(rest, phase, last, 0, 0);
    } else {
      assert (s + rest)[1..] == s[1..] + rest;
      var v := Base64.Value(s[0]);
      if v == -1 {
        DecodeLine(s[1..], rest, phase, last);
        assert [] + Values(s[1..]) == Values(s[1..]);
      } else {
        DecodeLine(s[1..], rest, if phase == 0 then 1 else (phase + 1) % 4, v);
        assert ([v] + Values(s[1..]))[1..] == Values(s[1..]);
      }
    }
  }

  lemma FourValues(v0: Sextet, v1: Sextet, v2: Sextet, v3: Sextet)
    ensures
      var b0, b1, b2 := Completed(1, v0, v1), Completed(2, v1, v2), Completed(3, v2, v3);
      && b0 == (v0 as int * 64 + v1) / 16
      && b0 as int * 256 + b1 == ((v0 as int * 64 + v1) * 64 + v2) / 4
      && (b0 as int * 256 + b1) * 256 + b2 == ((v0 as int * 64 + v1) * 64 + v2) * 64 + v3
  {
  }

  lemma TwoDecode(v0: Sextet, v1: Sextet, rest: seq<Sextet>, last: Sextet)
    ensures DecodeValues([v0, v1] + rest, 0, last) == [Completed(1, v0, v1)] + DecodeValues(rest, 2, v1)
  {
    assert ([v0, v1] + rest)[1..] == [v1] + rest && ([v1] + rest)[1..] == rest;
  }

  lemma ThreeDecode(v0: Sextet, v1: Sextet, v2: Sextet, rest: seq<Sextet>, last: Sextet)
    ensures
      DecodeValues([v0, v1, v2] + rest, 0, last)
      == [Completed(1, v0, v1), Completed(2, v1, v2)] + DecodeValues(rest, 3, v2)
  {
    TwoDecode(v0, v1, [v2] + rest, last);
    assert [v0, v1, v2] + rest == [v0, v1] + ([v2] + rest) && ([v2] + rest)[1..] == rest;
  }

  lemma FourDecode(v0: Sextet, v1: Sextet, v2: Sextet, v3: Sextet, rest: seq<Sextet>, last: Sextet)
    ensures
      DecodeValues([v0, v1, v2, v3] + rest, 0, last)
      == [Completed(1, v0, v1), Completed(2, v1, v2), Completed(3, v2, v3)] + DecodeValues(rest, 0, v3)
  {
    ThreeDecode(v0, v1, v2, [v3] + rest, last);
    assert [v0, v1, v2, v3] + rest == [v0, v1, v2] + ([v3] + rest) && ([v3] + rest)[1..] == rest;
  }

  lemma FewValues(vs: seq<Sextet>, last: Sextet)
    requires |vs| < 4
    ensures IsWhole(vs, DecodeValues(vs, 0, last))
  {
    if |vs| == 1 {
      assert vs[1..] == [];
    } else if |vs| >= 2 {
      var v2 := if |vs| == 3 then vs[2] else 0;
      FourValues(vs[0], vs[1], v2, 0);
      BitsOf(vs[0], vs[1], v2, 0);
      OctetsOf(Completed(1, vs[0], vs[1]), Completed(2, vs[1], v2), 0);
      if |vs| == 2 {
        TwoDecode(vs[0], vs[1], [], last);
        assert vs == [vs[0], vs[1]] + [] && vs == [vs[0], vs[1]];
      } else {
        ThreeDecode(vs[0], vs[1], vs[2], [], last);
        assert vs == [vs[0], vs[1], vs[2]] + [] && vs == [vs[0], vs[1], vs[2]];
      }
    }
  }

  lemma FourAreWhole(vs: seq<Sextet>, last: Sextet)
    requires 4 <= |vs|
    ensures
      var b := DecodeValues(vs, 0, last);
      |b| >= 3 && Octets(b[..3]) == Bits(vs[..4]) && b[3..] == DecodeValues(vs[4..], 0, vs[3])
  {
    var b := DecodeValues(vs, 0, last);
    FourDecode(vs[0], vs[1], vs[2], vs[3], vs[4..], last);
    assert vs == [vs[0], vs[1], vs[2], vs[3]] + vs[4..] && vs[..4] == [vs[0], vs[1], vs[2], vs[3]];
    FourValues(vs[0], vs[1], vs[2], vs[3]);
    BitsOf(vs[0], vs[1], vs[2], vs[3]);
    OctetsOf(b[0], b[1], b[2]);
    assert b[..3] == [b[0], b[1], b[2]];
  }

  lemma {:induction false} ValuesAreWhole(vs: seq<Sextet>, last: Sextet)
    ensures IsWhole(vs, DecodeValues(vs, 0, last))
    decreases |vs|
  {
    if |vs| < 4 {
      FewValues(vs, last);
    } else {
      ValuesAreWhole(vs[4..], vs[3]);
      FourAreWhole(vs, last);
    }
  }

  /**
    The decoder, on every text: each line is decoded on its own, what is not in the alphabet
    is skipped, and the result has the whole bytes of the bits that are left.
   */
  lemma LineDecodes(line: bytes, rest: bytes)
    requires StartsOver(rest) && forall i :: 0 <= i < |line| ==> !IsLineEnd(line[i])
    ensures
      var b := DecodeValues(Values(line), 0, 0);
      IsWhole(Values(line), b) && Decode(line + rest, 0, 0) == b + Decode(rest, 0, 0)
    ensures rest != [] ==> Decode(rest, 0, 0) == Decode(rest[1..], 0, 0)
  {
    DecodeLine(line, rest, 0, 0);
    ValuesAreWhole(Values(line), 0);
  }

  lemma {:induction false} SameOctets(b: bytes, c: bytes)
    requires |b| == |c| && Octets(b) == Octets(c)
    ensures b == c
    decreases |b|
  {
    if b != [] {
      var n := |b| - 1;
      assert Octets(b[..n]) * 256 + b[n] == Octets(c[..n]) * 256 + c[n];
      SameOctets(b[..n], c[..n]);
      assert b == b[..n] + [b[n]] && c == c[..n] + [c[n]];
    }
  }

  /** The bytes are determined by that. */
  lemma {:induction false} SameWhole(vs: seq<Sextet>, b: bytes, c: bytes)
    requires IsWhole(vs, b) && IsWhole(vs, c)
    ensures b == c
    decreases |vs|
  {
    if |vs| >= 4 {
      SameOctets(b[..3], c[..3]);
      SameWhole(vs[4..], b[3..], c[3..]);
      assert b == b[..3] + b[3..] && c == c[..3] + c[3..];
    } else if |vs| >= 2 {
      SameOctets(b, c);
    }
  }

  // ---------------------------------------------------------------- encoding

  /** The characters of the alphabet for `vs`. */
  function Spelled(vs: seq<Sextet>): string
  {
    if vs == [] then "" else (assert |Alphabet()| == 64; [Alphabet()[vs[0]]] + Spelled(vs[1..]))
  }

  /** The bytes of ASCII text. */
  predicate IsText(b: bytes, t: string) {
    |b| == |t| && forall i :: 0 <= i < |b| ==> b[i] == t[i] as int
  }

  /**
    The encoder: a block of four characters for three bytes, with the same bits; for two
    bytes at the end three characters and "=", for one byte two characters and "==". The bits
    of these characters are those of the bytes, followed by bits of the bytes behind them.
   */
  lemma EncodesBlocks(str: bytes, len: nat) returns (vs: seq<Sextet>)
    requires 0 < len && len + 2 <= |str|
    ensures
      if len == 1 then
        && |vs| == 2 && Bits(vs) / 16 == Octets(str[..1]) && Bits(vs) % 16 == str[1] / 16
        && IsText(Encode(str, len), Spelled(vs) + "==")
      else if len == 2 then
        && |vs| == 3 && Bits(vs) / 4 == Octets(str[..2]) && Bits(vs) % 4 == str[2] / 64
        && IsText(Encode(str, len), Spelled(vs) + "=")
      else
        && |vs| == 4 && Bits(vs) == Octets(str[..3])
        && Encode(str, len)[4..] == Encode(str[3..], len - 3) && IsText(Encode(str, len)[..4], Spelled(vs))
  {
    var b0, b1, b2 := str[0], str[1], str[2];
    var all: seq<Sextet> := [b0 / 4, V1(b0, b1), V2(b1, b2), b2 % 64];
    vs := if len == 1 then all[..2] else if len == 2 then all[..3] else all;
    BitsOf(all[0], all[1], all[2], all[3]);
    OctetsOf(b0, b1, b2);
    assert all[..2] == [all[0], all[1]] && all[..3] == [all[0], all[1], all[2]];
    assert str[..1] == [b0] && str[..2] == [b0, b1] && (len >= 3 ==> str[..3] == [b0, b1, b2]);
    SpelledPrefix(all, |vs|);
    assert all[..4] == all;
  }

  lemma {:induction false} SpelledAre(vs: seq<Sextet>)
    ensures |Spelled(vs)| == |vs| && forall i :: 0 <= i < |vs| ==> Spelled(vs)[i] as int == Char(vs[i])
    decreases |vs|
  {
    if vs != [] {
      Letters(vs[0]);
      SpelledAre(vs[1..]);
    }
  }

  lemma SpelledPrefix(vs: seq<Sextet>, k: nat)
    requires k <= |vs|
    ensures |Spelled(vs[..k])| == k && forall i :: 0 <= i < k ==> Spelled(vs[..k])[i] as int == Char(vs[i])
  {
    SpelledAre(vs[..k]);
  }

  /**
    The text is that of RFC 4648, whose padding bits are 0, exactly if the bits that are
    taken from the byte behind the end are 0. A NUL behind the input, as in a C string, is
    enough.
   */
  lemma {:induction false} CanonicalText(str: bytes, len: nat)
    requires len + 2 <= |str|
    ensures
      Encode(str, len) == Encode(str[..len] + [0, 0], len)
      <==> (len % 3 == 1 ==> str[len] < 16) && (len % 3 == 2 ==> str[len] < 64)
    decreases len
  {
    var clean := str[..len] + [0, 0];
    if len < 3 {
      if len > 0 {
        LastDiffers(str, clean, len);
      }
    } else {
      var rest := str[3..];
      assert clean[3..] == rest[..len - 3] + [0, 0] && rest[len - 3] == str[len] && (len - 3) % 3 == len % 3;
      FirstSame(str, clean, len);
      CanonicalText(rest, len - 3);
    }
  }

  lemma FirstSame(str: bytes, clean: bytes, len: nat)
    requires 3 <= len && len + 2 <= |str| && len + 2 <= |clean| && str[..len] == clean[..len]
    ensures Encode(str, len) == Encode(clean, len) <==> Encode(str[3..], len - 3) == Encode(clean[3..], len - 3)
  {
    assert str[..len][0] == clean[..len][0] && str[..len][1] == clean[..len][1] && str[..len][2] == clean[..len][2];
    var q := Block(str[0], str[1], str[2]);
    assert Encode(str, len)[4..] == Encode(str[3..], len - 3);
    assert Encode(clean, len)[4..] == Encode(clean[3..], len - 3);
  }

  lemma LastDiffers(str: bytes, clean: bytes, len: nat)
    requires 0 < len < 3 && len + 2 <= |str| && clean == str[..len] + [0, 0]
    ensures
      Encode(str, len) == Encode(clean, len) <==> (len == 1 ==> str[1] < 16) && (len == 2 ==> str[2] < 64)
  {
    if len == 1 {
      OneDiffers(str[0], str[1], str[2]);
    } else {
      TwoDiffer(str[0], str[1], str[2]);
    }
  }

  lemma OneDiffers(b0: byte, b1: byte, b2: byte)
    ensures Block(b0, b1, b2)[..2] + [PAD, PAD] == Block(b0, 0, 0)[..2] + [PAD, PAD] <==> b1 < 16
  {
    var q, c := Block(b0, b1, b2), Block(b0, 0, 0);
    SameChar(V1(b0, b1), V1(b0, 0));
    assert q[..2] == [q[0], q[1]] && c[..2] == [c[0], c[1]];
    PadsBehind(q[..2], c[..2], [PAD, PAD]);
  }

  lemma TwoDiffer(b0: byte, b1: byte, b2: byte)
    ensures Block(b0, b1, b2)[..3] + [PAD] == Block(b0, b1, 0)[..3] + [PAD] <==> b2 < 64
  {
    var q, c := Block(b0, b1, b2), Block(b0, b1, 0);
    SameChar(V2(b1, b2), V2(b1, 0));
    assert q[..3] == [q[0], q[1], q[2]] && c[..3] == [c[0], c[1], c[2]];
    PadsBehind(q[..3], c[..3], [PAD]);
  }

  lemma SameChar(v: Sextet, w: Sextet)
    ensures Char(v) == Char(w) <==> v == w
  {
    CharValue(v);
    CharValue(w);
  }

  lemma PadsBehind(a: bytes, b: bytes, k: bytes)
    requires |a| == |b|
    ensures a + k == b + k <==> a == b
  {
    assert (a + k)[..|a|] == a && (b + k)[..|b|] == b;
  }
}
