/**
  What the digits of a character reference mean: a number in positional notation, and
  the characters of section 2.2 of XML 1.0.
 */
module XmlCharRefs {
  import opened Bytes
  import opened Wrappers
  import opened XmlTok
  import opened XmlDtd

  // ---------------------------------------------------------------- positional notation

  /** "0" to "9", "a" to "f" and "A" to "F". */
  const LOWER: bytes := [0x30, 0x31, 0x32, 0x33, 0x34, 0x35, 0x36, 0x37, 0x38, 0x39, 0x61, 0x62, 0x63, 0x64, 0x65, 0x66]
  const UPPER: bytes := [0x30, 0x31, 0x32, 0x33, 0x34, 0x35, 0x36, 0x37, 0x38, 0x39, 0x41, 0x42, 0x43, 0x44, 0x45, 0x46]

  /** `b` is the digit with value `d`. */
  predicate IsDigitOf(b: byte, d: nat) {
    d < 16 && (b == LOWER[d] || b == UPPER[d])
  }

  function Base(hex: bool): nat {
    if hex then 16 else 10
  }

  function Power(base: nat, n: nat): nat {
    if n == 0 then 1 else base * Power(base, n - 1)
  }

  /** The number with these digits, the most significant one first. */
  function Value(base: nat, ds: seq<nat>): nat {
    if ds == [] then 0 else ds[0] * Power(base, |ds| - 1) + Value(base, ds[1..])
  }

  /** `t` spells the digits `ds`. */
  ghost predicate Spells(hex: bool, t: bytes, ds: seq<nat>) {
    |t| == |ds| && forall i :: 0 <= i < |t| ==> ds[i] < Base(hex) && IsDigitOf(t[i], ds[i])
  }

  /** Section 2.2 of XML 1.0: the characters that a document may have. */
  predicate IsChar(n: nat) {
    || n == 0x9 || n == 0xA || n == 0xD
    || 0x20 <= n <= 0xD7FF || 0xE000 <= n <= 0xFFFD || 0x10000 <= n <= 0x10FFFF
  }

  // ---------------------------------------------------------------- the number of a reference

  lemma DigitAdds(hex: bool, n: nat, b: byte, d: nat)
    requires d < Base(hex) && IsDigitOf(b, d)
    ensures AddDigit(hex, n, b) == n * Base(hex) + d
  {
  }

  lemma ValueStep(base: nat, n: nat, ds: seq<nat>)
    requires ds != []
    ensures n * Power(base, |ds|) + Value(base, ds) == (n * base + ds[0]) * Power(base, |ds| - 1) + Value(base, ds[1..])
  {
    var p := Power(base, |ds| - 1);
    calc {
      n * Power(base, |ds|);
      n * (base * p);
      (n * base) * p;
    }
    assert (n * base + ds[0]) * p == (n * base) * p + ds[0] * p;
  }

  lemma {:induction false} PowerPositive(base: nat, n: nat)
    requires base > 0
    ensures Power(base, n) > 0
  {
    if n > 0 {
      PowerPositive(base, n - 1);
    }
  }

  lemma NoLess(n: nat, p: nat)
    requires p > 0
    ensures n <= n * p
  {
  }

  lemma {:induction false} DigitsValue(hex: bool, t: bytes, ds: seq<nat>, n: nat)
    requires n < CHAR_LIMIT && Spells(hex, t, ds)
    ensures
      var v := n * Power(Base(hex), |ds|) + Value(Base(hex), ds);
      DigitsNumber(hex, t, n) == if v < CHAR_LIMIT then Some(v) else None
    decreases |t|
  {
    if t != [] {
      var n' := n * Base(hex) + ds[0];
      DigitAdds(hex, n, t[0], ds[0]);
      ValueStep(Base(hex), n, ds);
      if n' < CHAR_LIMIT {
        DigitsValue(hex, t[1..], ds[1..], n');
      } else {
        PowerPositive(Base(hex), |ds| - 1);
        NoLess(n', Power(Base(hex), |ds| - 1));
      }
    }
  }

  /**
    Between "&#" and ";", or between "&#x" and ";", digits stand for their number in
    positional notation: if that is a character of XML, and for none if it is not.
   */
  lemma ReferenceValue(hex: bool, t: bytes, ds: seq<nat>)
    requires t != [] && Spells(hex, t, ds)
    ensures
      var v := Value(Base(hex), ds);
      CharRefNumber(if hex then [BYTE_X] + t else t) == if IsChar(v) then Some(v) else None
  {
    DigitsValue(hex, t, ds, 0);
    assert ([BYTE_X] + t)[1..] == t;
    assert IsDigitOf(t[0], ds[0]);
  }

  // ---------------------------------------------------------------- printed numbers

  /** The digits of `n`, most significant first, with at least one. */
  function Digits(hex: bool, n: nat): seq<nat>
    decreases n
  {
    if n < Base(hex) then [n]
    else if hex then Digits(hex, n / 16) + [n % 16]
    else Digits(hex, n / 10) + [n % 10]
  }

  function Zeros(n: nat): (z: seq<nat>)
    ensures |z| == n && forall i :: 0 <= i < n ==> z[i] == 0
  {
    seq(n, _ => 0)
  }

  lemma {:induction false} ValueAppend(base: nat, ds: seq<nat>, d: nat)
    ensures Value(base, ds + [d]) == Value(base, ds) * base + d
    decreases |ds|
  {
    if ds == [] {
      assert [] + [d] == [d] && [d][1..] == [];
    } else {
      assert (ds + [d])[1..] == ds[1..] + [d];
      ValueAppend(base, ds[1..], d);
      var p := Power(base, |ds| - 1);
      assert ds[0] * (base * p) == (ds[0] * p) * base;
    }
  }

  lemma {:induction false} DigitsRestore(hex: bool, n: nat)
    ensures Digits(hex, n) != [] && Value(Base(hex), Digits(hex, n)) == n
    decreases n
  {
    if n < Base(hex) {
      assert [n][1..] == [] && n * 1 == n;
    } else if hex {
      DigitsRestore(hex, n / 16);
      ValueAppend(16, Digits(hex, n / 16), n % 16);
    } else {
      DigitsRestore(hex, n / 10);
      ValueAppend(10, Digits(hex, n / 10), n % 10);
    }
  }

  lemma {:induction false} ZerosInFront(base: nat, k: nat, ds: seq<nat>)
    ensures Value(base, Zeros(k) + ds) == Value(base, ds)
    decreases k
  {
    if k == 0 {
      assert Zeros(0) + ds == ds;
    } else {
      assert (Zeros(k) + ds)[1..] == Zeros(k - 1) + ds;
      assert 0 * Power(base, |Zeros(k) + ds| - 1) == 0;
      ZerosInFront(base, k - 1, ds);
    }
  }

  /**
    A number that is printed in decimal or hexadecimal notation, in lower or upper case or
    mixed, with any number of zeros in front, is read back.
   */
  lemma NumberReadsBack(hex: bool, n: nat, zeros: nat, t: bytes)
    requires Spells(hex, t, Zeros(zeros) + Digits(hex, n))
    ensures CharRefNumber(if hex then [BYTE_X] + t else t) == if IsChar(n) then Some(n) else None
  {
    DigitsRestore(hex, n);
    ZerosInFront(Base(hex), zeros, Digits(hex, n));
    ReferenceValue(hex, t, Zeros(zeros) + Digits(hex, n));
  }

  // ---------------------------------------------------------------- predefined entities

  /** Section 4.6 of XML 1.0: lt, gt, amp, quot and apos, and no other name. */
  lemma PredefinedNames(name: bytes)
    ensures Predefined(name) == Some(0x3C) <==> name == [0x6C, 0x74]
    ensures Predefined(name) == Some(0x3E) <==> name == [0x67, 0x74]
    ensures Predefined(name) == Some(0x26) <==> name == [0x61, 0x6D, 0x70]
    ensures Predefined(name) == Some(0x22) <==> name == [0x71, 0x75, 0x6F, 0x74]
    ensures Predefined(name) == Some(0x27) <==> name == [0x61, 0x70, 0x6F, 0x73]
    ensures Predefined(name).Some? ==> Predefined(name).value in {0x3C, 0x3E, 0x26, 0x22, 0x27}
  {
  }
}
