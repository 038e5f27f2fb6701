/**
  The bits of the encodings, as section 3 of RFC 3629 and section 2.1 of RFC 2781 lay them
  out, and utf8_toUtf8, which copies as many bytes as there is room for.
 */
module TranscodeLaws {
  import opened Bytes
  import opened Transcode

  // ---------------------------------------------------------------- layout

  predicate IsDigit(d: int) {
    0 <= d < 64
  }

  /** UTF-8: digits of six bits, each in a byte of its own, and the rest in the first byte, in the shortest form. */
  lemma Utf8Layout(w: int, x: int, y: int, z: int)
    requires 0 <= w && IsDigit(x) && IsDigit(y) && IsDigit(z)
    ensures
      Utf8(262144 * w + 4096 * x + 64 * y + z)
      == if w == 0 && x == 0 && y < 2 then [64 * y + z]
         else if w == 0 && x == 0 && y < 32 then [192 + y, 128 + z]
         else if w == 0 && x < 16 then [224 + x, 128 + y, 128 + z]
         else if w < 4 || (w == 4 && x < 16) then [240 + w, 128 + x, 128 + y, 128 + z]
         else []
  {
    var c := 262144 * w + 4096 * x + 64 * y + z;
    Div(c, 64, 4096 * w + 64 * x + y, z);
    Div(c, 4096, 64 * w + x, 64 * y + z);
    Div(c, 262144, w, 4096 * x + 64 * y + z);
    Div(c / 64, 64, 64 * w + x, y);
    Div(c / 4096, 64, w, x);
  }

  /** UTF-16: a unit, or ten bits above 0xD800 and ten above 0xDC00. */
  lemma Utf16Layout(c: int, h: int, l: int)
    requires 0 <= c < 65536 && 0 <= h < 1024 && 0 <= l < 1024
    ensures Utf16(c) == [c]
    ensures Utf16(65536 + 1024 * h + l) == [55296 + h, 56320 + l]
  {
  }

  /** The bytes of a unit: the high one first, or the low one. */
  lemma UnitLayout(hi: byte, lo: byte, rest: units)
    ensures Wide([256 * hi + lo] + rest, true) == [hi, lo] + Wide(rest, true)
    ensures Wide([256 * hi + lo] + rest, false) == [lo, hi] + Wide(rest, false)
  {
    var u: unit := 256 * hi + lo;
    assert ([u] + rest)[0] == u && ([u] + rest)[1..] == rest;
  }

  // ---------------------------------------------------------------- copying

  /** The end of what is copied, for bytes up to `lim`: continuation bytes at the end are left out. */
  function Back(s: bytes, from: nat, lim: nat): (r: nat)
    requires from <= lim <= |s|
    ensures from <= r <= lim
  {
    if lim > from && 0x80 <= s[lim - 1] < 0xC0 then Back(s, from, lim - 1) else lim
  }

  /** The same, with room for `room` bytes. */
  function CopyEnd(s: bytes, from: nat, room: nat): (r: nat)
    requires from <= |s|
    ensures from <= r <= |s| && r - from <= room
  {
    if |s| - from <= room then |s| else Back(s, from, from + room)
  }

  /** These bytes are whole characters. */
  ghost predicate Whole(s: bytes) {
    exists l: seq<scalar> :: Encode8(l) == s
  }

  /** A character: a byte below 0x80, or a lead byte and continuation bytes. */
  predicate IsForm(p: bytes) {
    && p != [] && (|p| == 1 ==> p[0] < 0x80) && (|p| > 1 ==> p[0] >= 0xC0)
    && forall i :: 0 < i < |p| ==> 0x80 <= p[i] < 0xC0
  }

  function Joined(l: seq<bytes>): bytes {
    if l == [] then [] else l[0] + Joined(l[1..])
  }

  predicate AreForms(l: seq<bytes>) {
    forall i :: 0 <= i < |l| ==> IsForm(l[i])
  }

  lemma Utf8IsForm(c: scalar)
    ensures IsForm(Utf8(c))
  {
  }

  function Forms(l: seq<scalar>): (r: seq<bytes>)
    ensures |r| == |l| && AreForms(r)
  {
    if l == [] then []
    else
      Utf8IsForm(l[0]);
      [Utf8(l[0])] + Forms(l[1..])
  }

  lemma {:induction false} EncodedForms(l: seq<scalar>)
    ensures Encode8(l) == Joined(Forms(l))
    decreases |l|
  {
    if l != [] {
      EncodedForms(l[1..]);
      assert Forms(l)[1..] == Forms(l[1..]);
    }
  }

  lemma {:induction false} FirstForms(l: seq<scalar>, n: nat)
    requires n <= |l|
    ensures Forms(l)[..n] == Forms(l[..n])
    decreases n
  {
    if n > 0 {
      assert l[..n][1..] == l[1..][..n - 1];
      FirstForms(l[1..], n - 1);
      assert Forms(l)[..n] == [Forms(l)[0]] + Forms(l[1..])[..n - 1];
    }
  }

  /** The last byte of characters is a character of its own, or not the first one of a longer character. */
  lemma {:induction false} LastByte(l: seq<bytes>)
    requires AreForms(l) && l != []
    ensures Joined(l) != [] && Joined(l)[|Joined(l)| - 1] < 0xC0
    decreases |l|
  {
    assert IsForm(l[0]);
    if |l| > 1 {
      LastByte(l[1..]);
    }
  }

  /** Where nothing but continuation bytes are between, it goes back to `at`. */
  lemma {:induction false} BackTo(s: bytes, from: nat, at: nat, lim: nat)
    requires from < at <= lim <= |s| && !(0x80 <= s[at - 1] < 0xC0)
    requires forall i :: at <= i < lim ==> 0x80 <= s[i] < 0xC0
    ensures Back(s, from, lim) == at
    decreases lim
  {
    if lim > at {
      BackTo(s, from, at, lim - 1);
    }
  }

  /** It does not go back behind a byte that is not a continuation byte. */
  lemma {:induction false} BackFrom(s: bytes, from: nat, next: nat, lim: nat)
    requires from < next < lim <= |s| && !(0x80 <= s[next] < 0xC0)
    ensures Back(s, from, lim) == Back(s, next, lim) > next
    decreases lim
  {
    if lim > next + 1 && 0x80 <= s[lim - 1] < 0xC0 {
      BackFrom(s, from, next, lim - 1);
    }
  }

  lemma Pieces(s: bytes, from: nat, a: bytes, b: bytes)
    requires from <= |s| && s[from..] == a + b
    ensures from + |a| <= |s| && s[from..from + |a|] == a && s[from + |a|..] == b
    ensures forall i :: 0 <= i < |a| ==> s[from + i] == a[i]
    ensures forall i :: from <= i < from + |a| ==> s[i] == a[i - from]
  {
    assert s[from..from + |a|] == s[from..][..|a|] && s[from + |a|..] == s[from..][|a|..];
    assert forall i :: 0 <= i < |a| ==> s[from + i] == s[from..][i];
  }

  /** A cut inside of a character, or at its end. */
  lemma CutIn(s: bytes, from: nat, p: bytes, rest: bytes, lim: nat)
    requires from <= |s| && s[from..] == p + rest && IsForm(p) && from < lim <= from + |p|
    ensures lim <= |s| && Back(s, from, lim) == from + 1
    ensures s[from] == p[0] && (s[lim - 1] < 0x80 <==> |p| == 1)
  {
    Pieces(s, from, p, rest);
    BackTo(s, from, from + 1, lim);
  }

  /** What is copied ends with a character of one byte, or with the first byte of a longer one. */
  lemma {:induction false} CutEnds(s: bytes, from: nat, l: seq<bytes>, lim: nat) returns (n: nat)
    requires from < lim <= |s| && s[from..] == Joined(l) && AreForms(l)
    ensures from < Back(s, from, lim)
    ensures s[lim - 1] >= 0x80 ==> s[Back(s, from, lim) - 1] >= 0xC0
    ensures s[lim - 1] < 0x80 ==> n <= |l| && s[from..Back(s, from, lim)] == Joined(l[..n])
    decreases |l|
  {
    var p, next := l[0], from + |l[0]|;
    assert IsForm(p);
    Pieces(s, from, p, Joined(l[1..]));
    if lim <= next {
      CutIn(s, from, p, Joined(l[1..]), lim);
      n := 1;
      assert l[..1] == [p] && l[..1][1..] == [] && Joined(l[..1]) == p + [];
    } else {
      assert s[next..] != [] && IsForm(l[1]) && s[next] == s[next..][0];
      BackFrom(s, from, next, lim);
      var m := CutEnds(s, next, l[1..], lim);
      n := m + 1;
      if s[lim - 1] < 0x80 {
        assert l[..n][1..] == l[1..][..m] && l[..n][0] == p;
        var end := Back(s, from, lim);
        assert s[from..end] == s[from..next] + s[next..end];
      }
    }
  }

  /** A cut behind a byte of a longer character leaves the first byte of one at the end. */
  lemma NotWhole(s: bytes)
    requires s != [] && s[|s| - 1] >= 0xC0
    ensures !Whole(s)
  {
    if Whole(s) {
      var m: seq<scalar> :| Encode8(m) == s;
      EncodedForms(m);
      LastByte(Forms(m));
    }
  }

  /**
    Of whole characters, whole characters are copied exactly if all of them have room, or
    there is no room, or the byte in front of the end of the room is a character of its own.
   */
  lemma CopiesWhole(s: bytes, from: nat, room: nat)
    requires from <= |s| && Whole(s[from..])
    ensures
      Whole(s[from..CopyEnd(s, from, room)]) <==> |s| - from <= room || room == 0 || s[from + room - 1] < 0x80
    ensures room > 0 && from < |s| ==> from < CopyEnd(s, from, room)
  {
    var l: seq<scalar> :| Encode8(l) == s[from..];
    var end := CopyEnd(s, from, room);
    if |s| - from <= room {
      assert s[from..end] == s[from..];
    } else if room == 0 {
      assert s[from..end] == Encode8([]);
    } else {
      EncodedForms(l);
      var n := CutEnds(s, from, Forms(l), from + room);
      if s[from + room - 1] < 0x80 {
        FirstForms(l, n);
        EncodedForms(l[..n]);
      } else {
        NotWhole(s[from..end]);
      }
    }
  }

  /** A character of two bytes with room for both: only the first one is copied when something follows. */
  lemma CutExample()
    ensures
      var s := [0xC3, 0xA9, 0x78];
      Whole(s) && CopyEnd(s, 0, 2) == 1 && !Whole(s[..1])
  {
    var s := [0xC3, 0xA9, 0x78];
    var l: seq<scalar> := [0xE9, 0x78];
    assert l[1..] == [0x78] && l[1..][1..] == [];
    assert Encode8([0x78]) == Utf8(0x78) && Encode8(l) == Utf8(0xE9) + Encode8([0x78]) == s;
    BackTo(s, 0, 1, 2);
    NotWhole(s[..1]);
  }
}
