/** Printed tags are read back: a start tag with its attributes, an empty-element tag, and an end tag. */
module XmlPrintTags {
  import opened Bytes
  import opened XmlTok
  import opened XmlDtd
  import opened XmlAtts
  import opened XmlParse
  import opened XmlPrintTok
  import opened XmlPrintAtts
  import P = XmlPrint

  /** A printed start tag, or empty-element tag, is at `p`; the end of it is from `end` on. */
  ghost predicate TagAt(e: Encoding, w: bytes, p: nat, name: bytes, atts: seq<P.Att>, empty: bool, end: nat) {
    && p < |w| && w[p] == P.LT && P.StartsWith(w, p + 1, name)
    && AttsAt(w, p + 1 + |name|, atts, end) && EndAt(e, empty, w, end)
  }

  /** The text of such a tag, with `k` behind it. */
  function TagText(name: bytes, atts: seq<P.Att>, empty: bool, k: bytes): bytes {
    [P.LT] + (name + (P.PrintAtts(atts) + (EndText(empty) + k)))
  }

  lemma TagTextIs(name: bytes, atts: seq<P.Att>, k: bytes)
    ensures P.StartTag(name, atts) + k == TagText(name, atts, false, k)
    ensures P.EmptyTag(name, atts) + k == TagText(name, atts, true, k)
  {
    Flat([P.LT], name, P.PrintAtts(atts), [P.GT], k);
    Flat([P.LT], name, P.PrintAtts(atts), [P.SOL, P.GT], k);
  }

  lemma Flat(a: bytes, b: bytes, c: bytes, d: bytes, k: bytes)
    ensures a + b + c + d + k == a + (b + (c + (d + k)))
  {
  }

  lemma NameTextAt(w: bytes, p: nat, name: bytes, rest: bytes) returns (n: nat)
    requires p <= |w| && w[p..] == [P.LT] + (name + rest)
    ensures p < |w| && w[p] == P.LT && P.StartsWith(w, p + 1, name) && n == p + 1 + |name| && w[n..] == rest
  {
    P.PartsAt([P.LT], name + rest, w, p);
    assert w[p] == w[p..p + 1][0];
    P.PartsAt(name, rest, w, p + 1);
    n := p + 1 + |name|;
  }

  lemma RestTextAt(e: Encoding, w: bytes, n: nat, atts: seq<P.Att>, empty: bool, k: bytes) returns (end: nat, q: nat)
    requires Ascii(e) && n <= |w| && w[n..] == P.PrintAtts(atts) + (EndText(empty) + k)
    ensures AttsAt(w, n, atts, end) && EndAt(e, empty, w, end) && q == end + |EndText(empty)| && w[q..] == k
  {
    end := PrintedAttsAt(atts, w, n, EndText(empty) + k);
    EndTextAt(e, empty, w, end, k);
    q := end + |EndText(empty)|;
  }

  lemma TagTextAt(e: Encoding, w: bytes, p: nat, name: bytes, atts: seq<P.Att>, empty: bool, k: bytes)
      returns (end: nat, q: nat)
    requires Ascii(e) && p <= |w| && w[p..] == TagText(name, atts, empty, k)
    ensures TagAt(e, w, p, name, atts, empty, end) && q == end + |EndText(empty)| && w[q..] == k
  {
    var n := NameTextAt(w, p, name, P.PrintAtts(atts) + (EndText(empty) + k));
    end, q := RestTextAt(e, w, n, atts, empty, k);
    TagIsAt(e, w, p, name, atts, empty, n, end);
  }

  lemma TagIsAt(e: Encoding, w: bytes, p: nat, name: bytes, atts: seq<P.Att>, empty: bool, n: nat, end: nat)
    requires p < |w| && w[p] == P.LT && P.StartsWith(w, p + 1, name) && n == p + 1 + |name|
    requires AttsAt(w, n, atts, end) && EndAt(e, empty, w, end)
    ensures TagAt(e, w, p, name, atts, empty, end)
  {
  }

  // ---------------------------------------------------------------- the token

  /** Behind the name is a space or the end of the tag. */
  lemma NameEnds(e: Encoding, atts: seq<P.Att>, empty: bool, w: bytes, n: nat, end: nat)
    requires Ascii(e) && AttsAt(w, n, atts, end) && EndAt(e, empty, w, end)
    ensures n < |w| && EndsName(e.cls(w[n])) && (IsSpace(e.cls(w[n])) <==> atts != [])
  {
    if atts == [] {
      EndIn(e, false, empty, w, n);
    }
  }

  /** What is behind the name, as TagTok goes on there. */
  function BehindName(e: Encoding, w: bytes, n: nat): Lexeme
    requires n < |w|
  {
    if IsSpace(e.cls(w[n])) then GapTok(e, false, w, SpaceSpan(e, w, n + 1)) else TagEndTok(e, false, w, n)
  }

  /** A name follows the space. */
  lemma FirstStarts(e: Encoding, atts: seq<P.Att>, w: bytes, n: nat, end: nat)
    requires Ascii(e) && AttsOk(e, atts) && atts != [] && AttsAt(w, n, atts, end)
    ensures n < |w| && IsSpace(e.cls(w[n])) && StartsName(e, w, n + 1) && SpaceSpan(e, w, n + 1) == n + 1
  {
    NameIn(e, atts[0].0, w, n + 1);
    NoSpace(e, w, n + 1);
  }

  /** In front of an attribute it does not matter whether there was one before. */
  lemma GapSame(e: Encoding, w: bytes, p: nat)
    requires StartsName(e, w, p)
    ensures GapTok(e, false, w, p) == GapTok(e, true, w, p)
    ensures GapTok(e, true, w, p).Token? ==> GapAtts(e, false, w, p) == GapAtts(e, true, w, p)
  {
  }

  lemma BehindNameIn(e: Encoding, atts: seq<P.Att>, empty: bool, w: bytes, n: nat, end: nat)
    requires Ascii(e) && AttsOk(e, atts) && AttsAt(w, n, atts, end) && EndAt(e, empty, w, end)
    ensures n < |w| && BehindName(e, w, n) == Token(EndKind(atts != [], empty), end + |EndText(empty)|)
  {
    if atts == [] {
      EndIn(e, false, empty, w, n);
    } else {
      FirstStarts(e, atts, w, n, end);
      AfterIn(e, atts, empty, w, n, end);
      AfterIsGap(e, w, n);
      GapSame(e, w, n + 1);
    }
  }

  lemma TagTokIs(e: Encoding, w: bytes, p: nat, n: nat)
    requires p <= |w| && NameSpan(e, w, p) == SpanEnd(n) && n < |w|
    ensures TagTok(e, w, p) == BehindName(e, w, n)
  {
  }

  /** contentTok at a printed start tag. */
  lemma TagIn(e: Encoding, w: bytes, p: nat, name: bytes, atts: seq<P.Att>, empty: bool, end: nat)
    requires Ascii(e) && NameOk(e, name) && AttsOk(e, atts) && TagAt(e, w, p, name, atts, empty, end)
    ensures IsTagAt(e, w, p) && NameEnd(e, w, p) == p + 1 + |name| && w[p + 1..p + 1 + |name|] == name
    ensures ContentTok(e, w, p) == Token(EndKind(atts != [], empty), end + |EndText(empty)|)
  {
    var n := p + 1 + |name|;
    NameEnds(e, atts, empty, w, n, end);
    NameIn(e, name, w, p + 1);
    BehindNameIn(e, atts, empty, w, n, end);
    TagTokIs(e, w, AfterFirst(e, w, p + 1), n);
    TagIsContent(e, w, p);
  }

  // ---------------------------------------------------------------- its attributes

  lemma AttsFromNone(e: Encoding, w: bytes, n: nat)
    requires n < |w| && !IsSpace(e.cls(w[n]))
    ensures AttsFrom(e, w, n) == []
  {
  }

  lemma AttsFromGap(e: Encoding, w: bytes, n: nat)
    requires n < |w| && IsSpace(e.cls(w[n])) && SpaceSpan(e, w, n + 1) == n + 1 && GapTok(e, false, w, n + 1).Token?
    ensures AttsFrom(e, w, n) == GapAtts(e, false, w, n + 1)
  {
  }

  lemma AttsFromRead(e: Encoding, atts: seq<P.Att>, empty: bool, w: bytes, n: nat, end: nat)
    requires Ascii(e) && AttsOk(e, atts) && AttsAt(w, n, atts, end) && EndAt(e, empty, w, end)
    requires n < |w| && (IsSpace(e.cls(w[n])) ==> GapTok(e, false, w, SpaceSpan(e, w, n + 1)).Token?)
    ensures AllRead(e, w, AttsFrom(e, w, n), atts)
  {
    NameEnds(e, atts, empty, w, n, end);
    if atts == [] {
      AttsFromNone(e, w, n);
    } else {
      FirstStarts(e, atts, w, n, end);
      AttsFromGap(e, w, n);
      GapAttsRead(e, atts, empty, w, n, end);
    }
  }

  lemma GapAttsRead(e: Encoding, atts: seq<P.Att>, empty: bool, w: bytes, n: nat, end: nat)
    requires Ascii(e) && AttsOk(e, atts) && AttsAt(w, n, atts, end) && EndAt(e, empty, w, end)
    requires n + 1 < |w| && IsSpace(e.cls(w[n])) && StartsName(e, w, n + 1) && GapTok(e, false, w, n + 1).Token?
    ensures AllRead(e, w, GapAtts(e, false, w, n + 1), atts)
  {
    AfterIsGap(e, w, n);
    GapSame(e, w, n + 1);
    AfterReads(e, atts, empty, w, n, end);
    AfterAttsIsGap(e, w, n);
  }

  lemma TagReads(e: Encoding, w: bytes, p: nat, name: bytes, atts: seq<P.Att>, empty: bool, end: nat)
    requires Ascii(e) && NameOk(e, name) && AttsOk(e, atts) && TagAt(e, w, p, name, atts, empty, end)
    requires IsTagAt(e, w, p) && NameEnd(e, w, p) == p + 1 + |name|
    ensures AllRead(e, w, TagAtts(e, w, p), atts)
  {
    AttsFromRead(e, atts, empty, w, p + 1 + |name|, end);
  }

  // ---------------------------------------------------------------- end tags

  function EndTagText(name: bytes, k: bytes): bytes {
    [P.LT, P.SOL] + (name + ([P.GT] + k))
  }

  lemma EndTagTextIs(name: bytes, k: bytes)
    ensures P.EndTag(name) + k == EndTagText(name, k)
  {
    assert [P.LT, P.SOL] + name + [P.GT] + k == [P.LT, P.SOL] + (name + ([P.GT] + k));
  }

  lemma EndTagTextAt(w: bytes, p: nat, name: bytes, k: bytes) returns (n: nat)
    requires p <= |w| && w[p..] == EndTagText(name, k)
    ensures n == p + 2 + |name| && n < |w| && w[p] == P.LT && w[p + 1] == P.SOL
    ensures P.StartsWith(w, p + 2, name) && w[n] == P.GT && w[n + 1..] == k
  {
    n := p + 2 + |name|;
    P.PartsAt([P.LT, P.SOL], name + ([P.GT] + k), w, p);
    assert w[p] == w[p..p + 2][0] && w[p + 1] == w[p..p + 2][1];
    P.PartsAt(name, [P.GT] + k, w, p + 2);
    P.PartsAt([P.GT], k, w, n);
    assert w[n] == w[n..n + 1][0];
  }

  lemma LtIsEndTag(e: Encoding, w: bytes, p: nat)
    requires p + 1 < |w| && e.cls(w[p]) == BT_LT && e.cls(w[p + 1]) == BT_SOL
    ensures ContentTok(e, w, p) == EndTagTok(e, w, p + 2)
  {
  }

  lemma EndTagTokIs(e: Encoding, w: bytes, p: nat, n: nat)
    requires p < n < |w| && WholeName(e, w, p) == SpanEnd(n) && e.cls(w[n]) == BT_GT
    ensures EndTagTok(e, w, p) == Token(EndTag, n + 1)
  {
    assert SpaceSpan(e, w, n) == n;
  }

  /** contentTok at a printed end tag. */
  lemma EndTagIn(e: Encoding, w: bytes, p: nat, name: bytes, k: bytes) returns (q: nat)
    requires Ascii(e) && NameOk(e, name) && p <= |w| && w[p..] == EndTagText(name, k)
    ensures ContentTok(e, w, p) == Token(EndTag, q) && EndTagName(e, w, p) == name && w[q..] == k
  {
    var n := EndTagTextAt(w, p, name, k);
    q := n + 1;
    NameIn(e, name, w, p + 2);
    LtIsEndTag(e, w, p);
    EndTagTokIs(e, w, p + 2, n);
  }
}
