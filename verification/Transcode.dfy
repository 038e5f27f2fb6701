/**
  Unicode encodings, as xmlnode/xmltok.c converts between them: XmlUtf8Encode and
  XmlUtf16Encode, utf8_toUtf16, and toUtf8 of the UTF-16 encodings. Shifts and
  masks are written as division and remainder, and "|" of disjoint bits as a sum.
 */
module Transcode {
  import opened Bytes

  type scalar = c: int | 0 <= c < 0xD800 || 0xE000 <= c < 0x110000

  type unit = u: int | 0 <= u < 0x10000

  type units = seq<unit>

  // ---------------------------------------------------------------- one character

  /** XmlUtf8Encode: the bytes that are put in the buffer; none for what is not a character number. */
  function Utf8(c: int): (r: bytes)
    ensures 0 <= c < 0x110000 <==> r != []
    ensures |r| <= 4 && (c >= 0x80 ==> forall i :: 0 <= i < |r| ==> r[i] >= 0x80)
  {
    if c < 0 then []
    else if c < 0x80 then [c]
    else if c < 0x800 then [c / 0x40 + 0xC0, c % 0x40 + 0x80]
    else if c < 0x10000 then [c / 0x1000 + 0xE0, c / 0x40 % 0x40 + 0x80, c % 0x40 + 0x80]
    else if c < 0x110000 then
      [c / 0x40000 + 0xF0, c / 0x1000 % 0x40 + 0x80, c / 0x40 % 0x40 + 0x80, c % 0x40 + 0x80]
    else []
  }

  /** XmlUtf16Encode. */
  function Utf16(c: int): (r: units)
    ensures 0 <= c < 0x110000 <==> r != []
    ensures |r| <= 2
  {
    if c < 0 then []
    else if c < 0x10000 then [c]
    else if c < 0x110000 then [(c - 0x10000) / 0x400 + 0xD800, (c - 0x10000) % 0x400 + 0xDC00]
    else []
  }

  /** The bytes of a code unit, and of several, in either order. */
  function UnitBytes(u: unit, big: bool): (r: bytes)
    ensures |r| == 2
  {
    if big then [u / 0x100, u % 0x100] else [u % 0x100, u / 0x100]
  }

  function Wide(s: units, big: bool): bytes {
    if s == [] then [] else UnitBytes(s[0], big) + Wide(s[1..], big)
  }

  function Hi(s: bytes, i: nat, big: bool): byte
    requires i + 2 <= |s|
  {
    if big then s[i] else s[i + 1]
  }

  function Lo(s: bytes, i: nat, big: bool): byte
    requires i + 2 <= |s|
  {
    if big then s[i + 1] else s[i]
  }

  // ---------------------------------------------------------------- one round of the converters

  /** The length that utf8_toUtf16 reads at a byte, by its class in utf8tab.h. */
  function Length8(b: byte): (n: nat)
    ensures 1 <= n <= 4
  {
    if 0xC0 <= b < 0xE0 then 2 else if 0xE0 <= b < 0xF0 then 3 else if 0xF0 <= b < 0xF5 then 4 else 1
  }

  /** The bits of the bytes of a character, put together. */
  function Join2(a: int, b: int): int {
    a % 0x20 * 0x40 + b % 0x40
  }

  function Join3(a: int, b: int, c: int): int {
    a % 0x10 * 0x1000 + b % 0x40 * 0x40 + c % 0x40
  }

  function Join4(a: int, b: int, c: int, d: int): int {
    a % 8 * 0x40000 + b % 0x40 * 0x1000 + c % 0x40 * 0x40 + d % 0x40
  }

  /** A surrogate pair for `n`; below 0x10000, what the unsigned subtraction leaves. */
  function Pair(n: int): (r: units)
    requires 0 <= n < 0x200000
    ensures |r| == 2
  {
    var m := n - 0x10000;
    [if m < 0 then 0x10000 + m / 0x400 else m / 0x400 + 0xD800, m % 0x400 + 0xDC00]
  }

  /** What it writes then. */
  function From8(s: bytes, i: nat): (r: units)
    requires i < |s| && i + Length8(s[i]) <= |s|
    ensures |r| == if Length8(s[i]) == 4 then 2 else 1
  {
    var n := Length8(s[i]);
    if n == 2 then [Join2(s[i], s[i + 1])]
    else if n == 3 then [Join3(s[i], s[i + 1], s[i + 2])]
    else if n == 4 then Pair(Join4(s[i], s[i + 1], s[i + 2], s[i + 3]))
    else [s[i]]
  }

  /** The length that toUtf8 reads at a code unit. */
  function Length16(s: bytes, i: nat, big: bool): (n: nat)
    requires i + 2 <= |s|
    ensures n == 2 || n == 4
  {
    if 0xD8 <= Hi(s, i, big) < 0xDC then 4 else 2
  }

  /** The bytes for a unit with the bytes `hi` and `lo`, and for a pair of units. */
  function Split2(hi: int, lo: int): (r: bytes)
    requires 0 <= hi < 8 && 0 <= lo < 0x100
    ensures |r| == 2
  {
    [lo / 0x40 + hi * 4 + 0xC0, lo % 0x40 + 0x80]
  }

  function Split3(hi: int, lo: int): (r: bytes)
    requires 0 <= hi < 0x100 && 0 <= lo < 0x100
    ensures |r| == 3
  {
    [hi / 0x10 + 0xE0, hi % 0x10 * 4 + lo / 0x40 + 0x80, lo % 0x40 + 0x80]
  }

  function Split4(hi: int, lo: int, hi2: int, lo2: int): (r: bytes)
    requires 0 <= hi < 0x100 && 0 <= lo < 0x100 && 0 <= hi2 < 0x100 && 0 <= lo2 < 0x100
    ensures |r| == 4
  {
    var plane := hi % 4 * 4 + lo / 0x40 % 4 + 1;
    [plane / 4 + 0xF0, lo / 4 % 0x10 + plane % 4 * 0x10 + 0x80,
     lo % 4 * 0x10 + hi2 % 4 * 4 + lo2 / 0x40 + 0x80, lo2 % 0x40 + 0x80]
  }

  /** What it writes then. */
  function From16(s: bytes, i: nat, big: bool): (r: bytes)
    requires i + 2 <= |s| && i + Length16(s, i, big) <= |s|
    ensures 1 <= |r| <= 4
  {
    var lo, hi := Lo(s, i, big), Hi(s, i, big);
    if hi == 0 && lo < 0x80 then [lo]
    else if hi < 8 then Split2(hi, lo)
    else if Length16(s, i, big) == 2 then Split3(hi, lo)
    else Split4(hi, lo, Hi(s, i + 2, big), Lo(s, i + 2, big))
  }

  // ---------------------------------------------------------------- a character at a time

  predicate StartsAt(s: bytes, i: nat, p: bytes) {
    i + |p| <= |s| && forall k :: 0 <= k < |p| ==> s[i + k] == p[k]
  }

  lemma Join2Inverts(c: int)
    requires 0x80 <= c < 0x800
    ensures Join2(c / 0x40 + 0xC0, c % 0x40 + 0x80) == c
  {
  }

  lemma Join3Inverts(c: int)
    requires 0x800 <= c < 0x10000
    ensures Join3(c / 0x1000 + 0xE0, c / 0x40 % 0x40 + 0x80, c % 0x40 + 0x80) == c
  {
    assert c / 0x40 == c / 0x1000 * 0x40 + c / 0x40 % 0x40;
  }

  lemma Join4Inverts(c: int)
    requires 0x10000 <= c < 0x110000
    ensures Join4(c / 0x40000 + 0xF0, c / 0x1000 % 0x40 + 0x80, c / 0x40 % 0x40 + 0x80, c % 0x40 + 0x80) == c
  {
    assert c / 0x1000 == c / 0x40000 * 0x40 + c / 0x1000 % 0x40;
    assert c / 0x40 == c / 0x1000 * 0x40 + c / 0x40 % 0x40;
  }

  lemma Split2Inverts(c: int)
    requires 0x80 <= c < 0x800
    ensures Split2(c / 0x100, c % 0x100) == Utf8(c)
  {
  }

  lemma Split3Inverts(c: int)
    requires 0x800 <= c < 0x10000
    ensures Split3(c / 0x100, c % 0x100) == Utf8(c)
  {
    var h1, h0, l1, l0 := c / 0x1000, c / 0x100 % 0x10, c % 0x100 / 0x40, c % 0x40;
    assert c == h1 * 0x1000 + h0 * 0x100 + l1 * 0x40 + l0;
    Div(c, 0x100, h1 * 0x10 + h0, l1 * 0x40 + l0);
    Div(c / 0x100, 0x10, h1, h0);
    Div(c, 0x40, h1 * 0x40 + h0 * 4 + l1, l0);
    Div(c / 0x40, 0x40, h1, h0 * 4 + l1);
    Div(c % 0x100, 0x40, l1, l0);
  }

  /** A pair by its digits: the plane, six bits, and ten bits. */
  lemma PairDigits(p: int, q: int, r: int)
    requires 0 <= p < 0x10 && 0 <= q < 0x40 && 0 <= r < 0x400
    ensures
      var u := Pair((p + 1) * 0x10000 + q * 0x400 + r);
      && u[0] / 0x100 == 0xD8 + p / 4 && u[0] % 0x100 == p % 4 * 0x40 + q
      && u[1] / 0x100 == 0xDC + r / 0x100 && u[1] % 0x100 == r % 0x100
  {
    var m := p * 0x10000 + q * 0x400 + r;
    assert m / 0x400 == p * 0x40 + q && m % 0x400 == r;
  }

  lemma Div(x: int, n: int, q: int, r: int)
    requires x == q * n + r && 0 <= r < n
    ensures x / n == q && x % n == r
  {
    assert (x / n - q) * n == r - x % n;
    Small(x / n - q, n);
  }

  lemma Small(k: int, n: int)
    requires -n < k * n < n
    ensures k == 0
  {
  }

  lemma Utf8Digits(p: int, q: int, r: int)
    requires 0 <= p < 0x10 && 0 <= q < 0x40 && 0 <= r < 0x400
    ensures
      var u := Utf8((p + 1) * 0x10000 + q * 0x400 + r);
      u == [(p + 1) / 4 + 0xF0, (p + 1) % 4 * 0x10 + q / 4 + 0x80, q % 4 * 0x10 + r / 0x40 + 0x80, r % 0x40 + 0x80]
  {
    var c := (p + 1) * 0x10000 + q * 0x400 + r;
    var t1, t0, q1, q0, r1, r0 := (p + 1) / 4, (p + 1) % 4, q / 4, q % 4, r / 0x40, r % 0x40;
    assert c == t1 * 0x40000 + t0 * 0x10000 + q1 * 0x1000 + q0 * 0x400 + r1 * 0x40 + r0;
    Div(c, 0x40000, t1, t0 * 0x10000 + q1 * 0x1000 + q0 * 0x400 + r1 * 0x40 + r0);
    Div(c, 0x1000, t1 * 0x40 + t0 * 0x10 + q1, q0 * 0x400 + r1 * 0x40 + r0);
    Div(c / 0x1000, 0x40, t1, t0 * 0x10 + q1);
    Div(c, 0x40, t1 * 0x1000 + t0 * 0x400 + q1 * 0x40 + q0 * 0x10 + r1, r0);
    Div(c / 0x40, 0x40, t1 * 0x40 + t0 * 0x10 + q1, q0 * 0x10 + r1);
  }

  lemma Split4Digits(p: int, q: int, r: int)
    requires 0 <= p < 0x10 && 0 <= q < 0x40 && 0 <= r < 0x400
    ensures
      Split4(0xD8 + p / 4, p % 4 * 0x40 + q, 0xDC + r / 0x100, r % 0x100)
      == [(p + 1) / 4 + 0xF0, (p + 1) % 4 * 0x10 + q / 4 + 0x80, q % 4 * 0x10 + r / 0x40 + 0x80, r % 0x40 + 0x80]
  {
    var lo := p % 4 * 0x40 + q;
    assert lo / 0x40 == p % 4 && lo / 4 % 0x10 == q / 4 && lo % 4 == q % 4 by {
      Div(lo, 0x40, p % 4, q);
      Div(lo, 4, p % 4 * 0x10 + q / 4, q % 4);
      Div(lo / 4, 0x10, p % 4, q / 4);
    }
    assert (0xD8 + p / 4) % 4 == p / 4 && (0xDC + r / 0x100) % 4 == r / 0x100 by {
      Div(0xD8 + p / 4, 4, 0x36, p / 4);
      Div(0xDC + r / 0x100, 4, 0x37, r / 0x100);
    }
    LowDigits(r);
  }

  lemma LowDigits(r: int)
    requires 0 <= r < 0x400
    ensures r / 0x100 * 4 + r % 0x100 / 0x40 == r / 0x40 && r % 0x100 % 0x40 == r % 0x40
  {
  }

  lemma Split4Inverts(c: int)
    requires 0x10000 <= c < 0x110000
    ensures
      var p := Pair(c);
      Split4(p[0] / 0x100, p[0] % 0x100, p[1] / 0x100, p[1] % 0x100) == Utf8(c)
  {
    var p, q, r := c / 0x10000 - 1, c / 0x400 % 0x40, c % 0x400;
    assert c == (p + 1) * 0x10000 + q * 0x400 + r;
    PairDigits(p, q, r);
    Utf8Digits(p, q, r);
    Split4Digits(p, q, r);
  }

  /** The round at the UTF-8 form of a character writes its UTF-16 form. */
  lemma Round8(s: bytes, i: nat, c: scalar)
    requires StartsAt(s, i, Utf8(c))
    ensures i < |s| && Length8(s[i]) == |Utf8(c)| && From8(s, i) == Utf16(c)
  {
    var p := Utf8(c);
    assert s[i + 0] == p[0];
    if c >= 0x10000 {
      assert s[i + 1] == p[1] && s[i + 2] == p[2] && s[i + 3] == p[3];
      Join4Inverts(c);
    } else if c >= 0x800 {
      assert s[i + 1] == p[1] && s[i + 2] == p[2];
      Join3Inverts(c);
    } else if c >= 0x80 {
      assert s[i + 1] == p[1];
      Join2Inverts(c);
    }
  }

  lemma WideParts(s: bytes, i: nat, u: units, big: bool)
    requires StartsAt(s, i, Wide(u, big)) && 1 <= |u| <= 2
    ensures |Wide(u, big)| == 2 * |u| && i + 2 * |u| <= |s|
    ensures Hi(s, i, big) == u[0] / 0x100 && Lo(s, i, big) == u[0] % 0x100
    ensures |u| == 2 ==> Hi(s, i + 2, big) == u[1] / 0x100 && Lo(s, i + 2, big) == u[1] % 0x100
  {
    var p := Wide(u, big);
    if |u| == 2 {
      assert u[1..] == [u[1]] && [u[1]][1..] == [];
      assert Wide(u, big) == UnitBytes(u[0], big) + Wide([u[1]], big);
      assert Wide([u[1]], big) == UnitBytes(u[1], big) + Wide([], big);
    } else {
      assert u[1..] == [];
    }
    assert s[i + 0] == p[0] && s[i + 1] == p[1];
    if |u| == 2 {
      assert s[i + 2] == p[2] && s[i + 3] == p[3];
    }
  }

  /** The round at its UTF-16 form writes its UTF-8 form. */
  lemma Round16(s: bytes, i: nat, c: scalar, big: bool)
    requires StartsAt(s, i, Wide(Utf16(c), big))
    ensures i + 2 <= |s| && Length16(s, i, big) == 2 * |Utf16(c)| == |Wide(Utf16(c), big)|
    ensures i + 2 * |Utf16(c)| <= |s| && From16(s, i, big) == Utf8(c)
  {
    WideParts(s, i, Utf16(c), big);
    if c >= 0x10000 {
      Split4Inverts(c);
    } else if c >= 0x800 {
      Split3Inverts(c);
    } else if c >= 0x80 {
      Split2Inverts(c);
    }
  }

  // ---------------------------------------------------------------- texts

  function Encode8(l: seq<scalar>): bytes {
    if l == [] then [] else Utf8(l[0]) + Encode8(l[1..])
  }

  function Encode16(l: seq<scalar>): units {
    if l == [] then [] else Utf16(l[0]) + Encode16(l[1..])
  }

  lemma {:induction false} Encode8Append(a: seq<scalar>, b: seq<scalar>)
    ensures Encode8(a + b) == Encode8(a) + Encode8(b)
    decreases |a|
  {
    if a == [] {
      assert a + b == b;
    } else {
      assert (a + b)[1..] == a[1..] + b;
      Encode8Append(a[1..], b);
    }
  }

  lemma {:induction false} Encode16Append(a: seq<scalar>, b: seq<scalar>)
    ensures Encode16(a + b) == Encode16(a) + Encode16(b)
    decreases |a|
  {
    if a == [] {
      assert a + b == b;
    } else {
      assert (a + b)[1..] == a[1..] + b;
      Encode16Append(a[1..], b);
    }
  }

  lemma {:induction false} WideAppend(a: units, b: units, big: bool)
    ensures Wide(a + b, big) == Wide(a, big) + Wide(b, big)
    decreases |a|
  {
    if a == [] {
      assert a + b == b;
    } else {
      assert (a + b)[1..] == a[1..] + b;
      WideAppend(a[1..], b, big);
    }
  }

  /** The first character of a text, in both forms. */
  lemma FirstForms(l: seq<scalar>)
    requires l != []
    ensures Encode8(l) == Utf8(l[0]) + Encode8(l[1..]) && Encode16(l) == Utf16(l[0]) + Encode16(l[1..])
    ensures Encode8(l) != [] && Encode16(l) != []
  {
  }

  /** One more character. */
  lemma NextForms(done: seq<scalar>, c: scalar)
    ensures Encode8(done + [c]) == Encode8(done) + Utf8(c)
    ensures Encode16(done + [c]) == Encode16(done) + Utf16(c)
  {
    Encode8Append(done, [c]);
    Encode16Append(done, [c]);
    assert [c][1..] == [];
    assert Encode8([c]) == Utf8(c) && Encode16([c]) == Utf16(c);
  }

  lemma WideFirst(l: seq<scalar>, big: bool)
    requires l != []
    ensures Wide(Encode16(l), big) == Wide(Utf16(l[0]), big) + Wide(Encode16(l[1..]), big)
    ensures |Wide(Encode16(l), big)| >= 2
  {
    WideAppend(Utf16(l[0]), Encode16(l[1..]), big);
    WideLength(Encode16(l), big);
    FirstForms(l);
  }

  lemma {:induction false} WideLength(u: units, big: bool)
    ensures |Wide(u, big)| == 2 * |u|
  {
    if u != [] {
      WideLength(u[1..], big);
    }
  }

  /** A text that starts at `i`, and the rest of it. */
  lemma Starts(s: bytes, i: nat, lim: nat, p: bytes, rest: bytes)
    requires i <= lim <= |s| && s[i..lim] == p + rest
    ensures StartsAt(s, i, p) && i + |p| <= lim && s[i + |p|..lim] == rest
  {
    assert forall k :: 0 <= k < |p| ==> s[i..lim][k] == p[k];
    assert s[i + |p|..lim] == s[i..lim][|p|..];
  }

  // ---------------------------------------------------------------- all of a text

  /** All rounds of utf8_toUtf16, with room for all that is written. */
  function To16(s: bytes, i: nat): units
    decreases if i < |s| then |s| - i else 0
  {
    if i < |s| && i + Length8(s[i]) <= |s| then From8(s, i) + To16(s, i + Length8(s[i])) else []
  }

  /** All rounds of toUtf8. */
  function To8(s: bytes, i: nat, big: bool): bytes
    decreases if i < |s| then |s| - i else 0
  {
    if i + 2 <= |s| && i + Length16(s, i, big) <= |s| then
      From16(s, i, big) + To8(s, i + Length16(s, i, big), big)
    else []
  }

  lemma {:induction false} To16Encoded(s: bytes, i: nat, l: seq<scalar>)
    requires i <= |s| && s[i..] == Encode8(l)
    ensures To16(s, i) == Encode16(l)
    decreases |l|
  {
    if l != [] {
      FirstForms(l);
      Starts(s, i, |s|, Utf8(l[0]), Encode8(l[1..]));
      Round8(s, i, l[0]);
      To16Encoded(s, i + |Utf8(l[0])|, l[1..]);
    }
  }

  lemma {:induction false} To8Encoded(s: bytes, i: nat, l: seq<scalar>, big: bool)
    requires i <= |s| && s[i..] == Wide(Encode16(l), big)
    ensures To8(s, i, big) == Encode8(l)
    decreases |l|
  {
    if l != [] {
      WideFirst(l, big);
      Starts(s, i, |s|, Wide(Utf16(l[0]), big), Wide(Encode16(l[1..]), big));
      Round16(s, i, l[0], big);
      To8Encoded(s, i + Length16(s, i, big), l[1..], big);
    }
  }

  /** From UTF-8 to UTF-16, and back. */
  lemma RoundTrip(l: seq<scalar>, big: bool)
    ensures To16(Encode8(l), 0) == Encode16(l)
    ensures To8(Wide(To16(Encode8(l), 0), big), 0, big) == Encode8(l)
    ensures To16(To8(Wide(Encode16(l), big), 0, big), 0) == Encode16(l)
  {
    To16Encoded(Encode8(l), 0, l);
    To8Encoded(Wide(Encode16(l), big), 0, l, big);
  }

  // ---------------------------------------------------------------- in place

  /** No character finds just one free unit where it needs two: there the loop does not end. */
  ghost predicate PairsFit(l: seq<scalar>, room: int) {
    l != [] && room > 0 ==>
      var n := |Utf16(l[0])|;
      n <= room && PairsFit(l[1..], room - n)
  }

  lemma Moved(done: seq<scalar>, l: seq<scalar>)
    requires l != []
    ensures done + [l[0]] + l[1..] == done + l
  {
  }

  /** A round of utf8_toUtf16 at the first character of `l`. */
  lemma First8(s: bytes, from: nat, fromLim: nat, out: units, done: seq<scalar>, l: seq<scalar>)
    requires from < fromLim <= |s| && s[from..fromLim] == Encode8(l)
    ensures l != [] && Length8(s[from]) == |Utf8(l[0])| && from + Length8(s[from]) <= fromLim
    ensures From8(s, from) == Utf16(l[0]) && s[from + Length8(s[from])..fromLim] == Encode8(l[1..])
    ensures out + Encode16(done) + Utf16(l[0]) == out + Encode16(done + [l[0]])
    ensures done + [l[0]] + l[1..] == done + l
  {
    Moved(done, l);
    assert out + Encode16(done) + Utf16(l[0]) == out + (Encode16(done) + Utf16(l[0]));
    FirstForms(l);
    Starts(s, from, fromLim, Utf8(l[0]), Encode8(l[1..]));
    Round8(s, from, l[0]);
    NextForms(done, l[0]);
  }

  /** A round of toUtf8. */
  lemma First16(s: bytes, big: bool, from: nat, fromLim: nat, out: bytes, done: seq<scalar>, l: seq<scalar>)
    requires from < fromLim <= |s| && s[from..fromLim] == Wide(Encode16(l), big)
    ensures l != [] && from + 2 <= |s| && from + Length16(s, from, big) <= fromLim
    ensures From16(s, from, big) == Utf8(l[0])
    ensures s[from + Length16(s, from, big)..fromLim] == Wide(Encode16(l[1..]), big)
    ensures out + Encode8(done) + Utf8(l[0]) == out + Encode8(done + [l[0]])
    ensures done + [l[0]] + l[1..] == done + l
  {
    Moved(done, l);
    assert out + Encode8(done) + Utf8(l[0]) == out + (Encode8(done) + Utf8(l[0]));
    WideFirst(l, big);
    Starts(s, from, fromLim, Wide(Utf16(l[0]), big), Wide(Encode16(l[1..]), big));
    Round16(s, from, l[0], big);
    NextForms(done, l[0]);
  }

  /** utf8_toUtf16: the characters `done` are converted; `left` is not empty only if there is no room. */
  method Utf8ToUtf16(s: bytes, from0: nat, fromLim: nat, to: array<unit>, to0: nat, toLim: nat, ghost l: seq<scalar>)
    returns (from: nat, t: nat, ghost done: seq<scalar>, ghost left: seq<scalar>)
    requires from0 <= fromLim <= |s| && to0 <= toLim <= to.Length
    requires s[from0..fromLim] == Encode8(l) && PairsFit(l, toLim - to0)
    modifies to
    ensures l == done + left && from <= fromLim && s[from..fromLim] == Encode8(left)
    ensures to0 <= t <= toLim && to[..t] == old(to[..to0]) + Encode16(done)
    ensures left == [] || t == toLim
    ensures forall j :: t <= j < to.Length ==> to[j] == old(to[j])
  {
    from, t, done, left := from0, to0, [], l;
    while from != fromLim && t != toLim
      invariant l == done + left && from <= fromLim && s[from..fromLim] == Encode8(left)
      invariant to0 <= t <= toLim && to[..t] == old(to[..to0]) + Encode16(done)
      invariant PairsFit(left, toLim - t)
      invariant forall j :: t <= j < to.Length ==> to[j] == old(to[j])
      decreases fromLim - from
    {
      First8(s, from, fromLim, old(to[..to0]), done, left);
      var r := From8(s, from);
      t := Put(to, t, r);
      from := from + Length8(s[from]);
      done, left := done + [left[0]], left[1..];
    }
    if left != [] {
      FirstForms(left);
    }
  }

  /** toUtf8 of the UTF-16 encodings: it stops at the first character that has no room. */
  method Utf16ToUtf8(s: bytes, big: bool, from0: nat, fromLim: nat, to: array<byte>, to0: nat, toLim: nat,
      ghost l: seq<scalar>)
    returns (from: nat, t: nat, ghost done: seq<scalar>, ghost left: seq<scalar>)
    requires from0 <= fromLim <= |s| && to0 <= toLim <= to.Length
    requires s[from0..fromLim] == Wide(Encode16(l), big)
    modifies to
    ensures l == done + left && from <= fromLim && s[from..fromLim] == Wide(Encode16(left), big)
    ensures to0 <= t <= toLim && to[..t] == old(to[..to0]) + Encode8(done)
    ensures left == [] <==> from == fromLim
    ensures left != [] ==> toLim - t < |Utf8(left[0])| && (toLim - to0 >= 4 ==> |left| < |l|)
    ensures forall j :: t <= j < to.Length ==> to[j] == old(to[j])
  {
    from, t, done, left := from0, to0, [], l;
    while from != fromLim
      invariant l == done + left && from <= fromLim && s[from..fromLim] == Wide(Encode16(left), big)
      invariant to0 <= t <= toLim && to[..t] == old(to[..to0]) + Encode8(done)
      invariant forall j :: t <= j < to.Length ==> to[j] == old(to[j])
      decreases fromLim - from
    {
      First16(s, big, from, fromLim, old(to[..to0]), done, left);
      var r := From16(s, from, big);
      if toLim - t < |r| {
        assert done == [] ==> t == to0;
        return;
      }
      t := Put(to, t, r);
      from := from + Length16(s, from, big);
      done, left := done + [left[0]], left[1..];
    }
    if left != [] {
      WideFirst(left, big);
    }
  }

  lemma Regroup(a: bytes, b: bytes, c: bytes)
    ensures a + (b + c) == a + b + c
  {
  }

  /**
    Character data that must be converted, as doCdataSection reports it: one buffer
    is filled again and again. The pieces make up the whole text.
   */
  method ReportInPieces(s: bytes, big: bool, next: nat, dataBuf: array<byte>, ghost l: seq<scalar>)
      returns (data: bytes)
    requires next <= |s| && dataBuf.Length >= 4 && s[..next] == Wide(Encode16(l), big)
    modifies dataBuf
    ensures data == Encode8(l)
  {
    data := [];
    var at: nat := 0;
    ghost var left := l;
    assert s[0..next] == s[..next] && data + Encode8(l) == Encode8(l);
    while true
      invariant at <= next && s[at..next] == Wide(Encode16(left), big) && data + Encode8(left) == Encode8(l)
      decreases |left|
    {
      ghost var now;
      var t;
      at, t, now, left := Utf16ToUtf8(s, big, at, next, dataBuf, 0, dataBuf.Length, left);
      assert dataBuf[..t] == Encode8(now);
      Encode8Append(now, left);
      Regroup(data, dataBuf[..t], Encode8(left));
      data := data + dataBuf[..t];
      if at == next {
        assert data + [] == data;
        break;
      }
    }
  }
}
