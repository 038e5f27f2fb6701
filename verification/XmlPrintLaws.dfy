/**
  The text that is printed, byte by byte: which bytes strescape replaces and by what, what
  strunescape makes of any text, and the parts of a tag.
 */
module XmlPrintLaws {
  import opened Bytes
  import opened XmlPrint

  /** The references as section 4.6 of XML 1.0 spells them: &amp; &quot; &apos; &lt; and &gt;. */
  function Spelling(b: byte): bytes {
    match b
    case 38 => [38, 97, 109, 112, 59]
    case 34 => [38, 113, 117, 111, 116, 59]
    case 39 => [38, 97, 112, 111, 115, 59]
    case 60 => [38, 108, 116, 59]
    case 62 => [38, 103, 116, 59]
    case _ => []
  }

  const SPECIAL: set<int> := {34, 38, 39, 60, 62}

  lemma EscapeOne(b: byte, r: bytes)
    requires r == EscapeByte(b)
    ensures Escape([b]) == r
  {
    assert Escape([b]) == r + Escape([b][1..]);
  }

  /** One byte between others that may be anything. */
  lemma EscapedBetween(a: bytes, b: byte, c: bytes, r: bytes)
    requires r == if b in SPECIAL then Spelling(b) else [b]
    ensures Escape(a + [b] + c) == Escape(a) + r + Escape(c)
  {
    SpellingIs(b);
    EscapeOne(b, r);
    EscapeAppend(a + [b], c);
    EscapeAppend(a, [b]);
  }

  lemma SpellingIs(b: byte)
    ensures EscapeByte(b) == if b in SPECIAL then Spelling(b) else [b]
  {
  }

  /** A reference starts at `i`. */
  ghost predicate StartsReference(s: bytes, i: nat) {
    exists b: byte :: b in SPECIAL && StartsWith(s, i, Spelling(b))
  }

  /** No markup starts at `i`, unless it is a reference. */
  ghost predicate Harmless(s: bytes, i: nat)
    requires i < |s|
  {
    s[i] !in {34, 39, 60, 62} && (s[i] == 38 ==> StartsReference(s, i))
  }

  lemma PieceHarmless(b: byte, r: bytes, rest: bytes, i: nat)
    requires r == (if b in SPECIAL then Spelling(b) else [b]) && i < |r|
    ensures Harmless(r + rest, i)
  {
    if i == 0 && b in SPECIAL {
      assert StartsWith(r + rest, 0, Spelling(b));
    }
  }

  lemma StartsShifted(r: bytes, rest: bytes, i: nat, p: bytes)
    requires StartsWith(rest, i, p)
    ensures StartsWith(r + rest, |r| + i, p)
  {
    assert (r + rest)[|r| + i..|r| + i + |p|] == rest[i..i + |p|];
  }

  lemma RestHarmless(r: bytes, rest: bytes, i: nat)
    requires i < |rest| && Harmless(rest, i)
    ensures Harmless(r + rest, |r| + i)
  {
    if rest[i] == 38 {
      var b: byte, p: bytes :| b in SPECIAL && p == Spelling(b) && StartsWith(rest, i, p);
      StartsShifted(r, rest, i, p);
    }
  }

  /** Neither a quote nor a bracket is left, and every ampersand starts a reference. */
  lemma {:induction false} NoMarkup(s: bytes)
    ensures forall i :: 0 <= i < |Escape(s)| ==> Harmless(Escape(s), i)
    decreases |s|
  {
    if s != [] {
      var r, rest := EscapeByte(s[0]), Escape(s[1..]);
      NoMarkup(s[1..]);
      SpellingIs(s[0]);
      forall i | 0 <= i < |r + rest| ensures Harmless(r + rest, i) {
        if i < |r| {
          PieceHarmless(s[0], r, rest, i);
        } else {
          RestHarmless(r, rest, i - |r|);
        }
      }
    }
  }

  // ---------------------------------------------------------------- strunescape on any text

  lemma OneStays(s: bytes, i: nat, unset: bytes)
    requires i < |s| && s[i] != 38 && |s| - i <= |unset|
    ensures Unescape(s, i, unset) == [s[i]] + Unescape(s, i + 1, unset[1..])
  {
  }

  /** Text without an ampersand stays. */
  lemma {:induction false} PlainStays(s: bytes, i: nat, n: nat, unset: bytes, rest: bytes)
    requires i <= n <= |s| && 38 !in s[i..n] && |s| - i <= |unset| && rest == Unescape(s, n, unset[n - i..])
    ensures Unescape(s, i, unset) == s[i..n] + rest
    decreases n - i
  {
    if i < n {
      assert s[i] == s[i..n][0] && s[i..n] == [s[i]] + s[i + 1..n];
      assert unset[1..][n - i - 1..] == unset[n - i..];
      PlainStays(s, i + 1, n, unset[1..], rest);
      OneStays(s, i, unset);
    } else {
      assert unset[0..] == unset && s[i..n] == [];
    }
  }

  /** A reference becomes its byte. */
  lemma ReferenceGoes(s: bytes, i: nat, unset: bytes, b: byte, n: nat)
    requires i < |s| && |s| - i <= |unset| && b in SPECIAL && StartsWith(s, i, Spelling(b)) && n == |Spelling(b)|
    ensures i + n <= |s| && Unescape(s, i, unset) == [b] + Unescape(s, i + n, unset[1..])
  {
    SpellingIs(b);
    UnescapeByteEscaped(s, i, b, unset[0]);
  }

  lemma SpelledOut()
    ensures REF_AMP == Spelling(38) && REF_QUOT == Spelling(34) && REF_APOS == Spelling(39)
    ensures REF_LT == Spelling(60) && REF_GT == Spelling(62)
  {
  }

  lemma NoneKnown(s: bytes, i: nat)
    requires forall c: byte :: c in SPECIAL ==> !StartsWith(s, i, Spelling(c))
    ensures KnownAt(s, i) == NoRef
  {
    SpelledOut();
    assert !StartsWith(s, i, Spelling(38)) && !StartsWith(s, i, Spelling(34)) && !StartsWith(s, i, Spelling(39));
    assert !StartsWith(s, i, Spelling(60)) && !StartsWith(s, i, Spelling(62));
  }

  /** An ampersand that starts none leaves a byte of the buffer as it was. */
  lemma AmpersandGoes(s: bytes, i: nat, unset: bytes)
    requires i < |s| && s[i] == 38 && |s| - i <= |unset|
    requires forall c: byte :: c in SPECIAL ==> !StartsWith(s, i, Spelling(c))
    ensures Unescape(s, i, unset) == [unset[0]] + Unescape(s, i + 1, unset[1..])
  {
    NoneKnown(s, i);
  }

  // ---------------------------------------------------------------- tags

  /** name='value', with a blank in front; "<", ">", "</" and "/>" around a tag. */
  lemma TagText(name: bytes, atts: seq<Att>, a: Att)
    ensures PrintAtts([]) == []
    ensures PrintAtts([a] + atts) == [32] + a.0 + [61, 39] + Escape(a.1) + [39] + PrintAtts(atts)
    ensures StartTag(name, atts) == [60] + name + PrintAtts(atts) + [62]
    ensures EmptyTag(name, atts) == [60] + name + PrintAtts(atts) + [47, 62]
    ensures EndTag(name) == [60, 47] + name + [62]
  {
    assert ([a] + atts)[0] == a && ([a] + atts)[1..] == atts;
  }
}
