/** Printed attributes are read back: storeAtts gives names and values as they were before they were printed. */
module XmlPrintAtts {
  import opened Bytes
  import opened Wrappers
  import opened XmlTok
  import opened XmlTokLaws
  import opened XmlDtd
  import opened XmlAtts
  import opened XmlAttValue
  import opened XmlParse
  import opened XmlPrintTok
  import opened XmlNormal
  import P = XmlPrint

  // ---------------------------------------------------------------- values

  /** A run of characters of an escaped value ends where a reference or a blank starts. */
  lemma {:induction false} PlainRunIn(e: Encoding, v: bytes, i: nat, raw: bytes, p: nat)
    requires Ascii(e) && ValueOk(e, v, i) && PrintedAt(v, i, raw, p, |raw|)
    ensures p <= |raw| && PlainRun(e, raw, p).Token?
    decreases if i < |v| then |v| - i else 0
  {
    if i < |v| {
      var j, q := CharIn(e, v, i, raw, p, |raw|);
      if P.IsSpecial(v[i]) {
        SpecialChar(e, v, i, raw, p, q);
      } else {
        OtherChar(e, v, i, raw, p, q);
        PlainRunIn(e, v, j, raw, q);
      }
    }
  }

  /** Characters of a value may be appended one at a time. */
  lemma PlainJoins(g: Grammar, e: Encoding, raw: bytes, p: nat, q: nat, open: set<bytes>, acc: bytes)
    requires p < q <= |raw| && PlainRun(e, raw, p) == PlainRun(e, raw, q) && PlainRun(e, raw, q).Token?
    requires e.cls(raw[p]) != BT_AMP && !IsSpace(e.cls(raw[p]))
    ensures
      AppendValue(g, e, true, raw, p, open, acc) == AppendValue(g, e, true, raw, q, open, acc + raw[p..q])
  {
    var m := PlainRun(e, raw, q).next;
    assert StepAt(g, e, true, raw, p, open, acc) == Added(m, acc + raw[p..m]);
    if m != q {
      var acc1 := acc + raw[p..q];
      assert StepAt(g, e, true, raw, q, open, acc1) == Added(m, acc1 + raw[q..m]);
      assert acc1 + raw[q..m] == acc + raw[p..m];
    }
  }

  /** The round at a reference to a predefined entity. */
  lemma RefStep(g: Grammar, e: Encoding, raw: bytes, p: nat, q: nat, b: byte, open: set<bytes>, acc: bytes)
    requires p < q <= |raw| && e.cls(raw[p]) == BT_AMP && RefTok(e, raw, p + 1) == Token(EntityRef, q)
    requires Predefined(RefName(raw, p, q)) == Some(b)
    ensures StepAt(g, e, true, raw, p, open, acc) == Added(q, acc + [b])
  {
    assert AttributeValueTok(e, raw, p) == Token(EntityRef, q);
    assert EntityStep(g, true, RefName(raw, p, q), q, open, acc) == Added(q, acc + [b]);
    assert TokenStep(g, true, raw, p, open, acc, EntityRef, q) == Added(q, acc + [b]);
  }

  /** The round at white space. */
  lemma SpaceStep(g: Grammar, e: Encoding, raw: bytes, p: nat, open: set<bytes>, acc: bytes)
    requires p < |raw| && IsSpace(e.cls(raw[p])) && !(e.cls(raw[p]) == BT_CR && LfAt(e, raw, p + 1, false))
    ensures StepAt(g, e, true, raw, p, open, acc) == Added(p + 1, acc + [BYTE_SPACE])
  {
    var c := e.cls(raw[p]);
    if c == BT_CR && p + 1 == |raw| {
      assert AttributeValueTok(e, raw, p) == TrailingCr;
    } else {
      var kind := if c == BT_S then AttributeValueS else DataNewline;
      assert AttributeValueTok(e, raw, p) == Token(kind, p + 1);
      assert TokenStep(g, true, raw, p, open, acc, kind, p + 1) == Added(p + 1, acc + [BYTE_SPACE]);
    }
  }

  /** The round at a carriage return in front of a line feed takes both. */
  lemma CrLfStep(g: Grammar, e: Encoding, raw: bytes, p: nat, open: set<bytes>, acc: bytes)
    requires p + 1 < |raw| && e.cls(raw[p]) == BT_CR && e.cls(raw[p + 1]) == BT_LF
    ensures AppendValue(g, e, true, raw, p, open, acc) == AppendValue(g, e, true, raw, p + 1, open, acc)
  {
    assert AttributeValueTok(e, raw, p) == Token(DataNewline, p + 2);
    assert TokenStep(g, true, raw, p, open, acc, DataNewline, p + 2) == Added(p + 2, acc + [BYTE_SPACE]);
    assert StepAt(g, e, true, raw, p, open, acc) == Added(p + 2, acc + [BYTE_SPACE]);
    SpaceStep(g, e, raw, p + 1, open, acc);
  }

  lemma PlainRunSkips(e: Encoding, v: bytes, i: nat, raw: bytes, p: nat, q: nat)
    requires i < |v| && !P.IsSpecial(v[i]) && ValueOk(e, v, i) && CharAt(e, v, i, raw, p, q)
    requires !IsSpace(e.cls(v[i]))
    ensures e.cls(raw[p]) != BT_AMP && !IsSpace(e.cls(raw[p])) && PlainRun(e, raw, p) == PlainRun(e, raw, q)
  {
    OtherChar(e, v, i, raw, p, q);
  }

  lemma SpecialAppends(g: Grammar, e: Encoding, v: bytes, i: nat, raw: bytes, p: nat, q: nat, open: set<bytes>,
      acc: bytes)
    requires Ascii(e) && i < |v| && P.IsSpecial(v[i]) && CharAt(e, v, i, raw, p, q)
    ensures AppendValue(g, e, true, raw, p, open, acc) == AppendValue(g, e, true, raw, q, open, acc + [v[i]])
  {
    SpecialChar(e, v, i, raw, p, q);
    RefStep(g, e, raw, p, q, v[i], open, acc);
  }

  lemma SpaceAppends(g: Grammar, e: Encoding, v: bytes, i: nat, raw: bytes, p: nat, q: nat, open: set<bytes>,
      acc: bytes)
    requires i < |v| && !P.IsSpecial(v[i]) && IsSpace(e.cls(v[i])) && CharAt(e, v, i, raw, p, q)
    requires CharOk(e, v, i, 1) && (LfAt(e, raw, p + 1, false) <==> LfAt(e, v, i + 1, false))
    ensures
      AppendValue(g, e, true, raw, p, open, acc)
      == AppendValue(g, e, true, raw, q, open, acc + NormalChar(e, v, i, true, false))
  {
    OtherChar(e, v, i, raw, p, q);
    if e.cls(v[i]) == BT_CR && LfAt(e, v, i + 1, false) {
      CrLfStep(g, e, raw, p, open, acc);
      assert acc + [] == acc;
    } else {
      SpaceStep(g, e, raw, p, open, acc);
    }
  }

  /** A character of an escaped value is appended to the value. */
  lemma CharAppends(g: Grammar, e: Encoding, v: bytes, i: nat, raw: bytes, p: nat, q: nat, open: set<bytes>, acc: bytes)
    requires Ascii(e) && i < |v| && ValueOk(e, v, i) && CharAt(e, v, i, raw, p, q)
    requires PlainRun(e, raw, q).Token? && (LfAt(e, raw, q, false) <==> LfAt(e, v, CharEnd(e, v, i), false))
    ensures
      AppendValue(g, e, true, raw, p, open, acc)
      == AppendValue(g, e, true, raw, q, open, acc + NormalChar(e, v, i, true, false))
  {
    if P.IsSpecial(v[i]) {
      SpecialAppends(g, e, v, i, raw, p, q, open, acc);
    } else if IsSpace(e.cls(v[i])) {
      SpaceAppends(g, e, v, i, raw, p, q, open, acc);
    } else {
      PlainRunSkips(e, v, i, raw, p, q);
      PlainJoins(g, e, raw, p, q, open, acc);
    }
  }

  /** An escaped value gives the normalized value. */
  lemma {:induction false} AppendEscaped(g: Grammar, e: Encoding, v: bytes, i: nat, raw: bytes, p: nat,
      open: set<bytes>, acc: bytes)
    requires Ascii(e) && i <= |v| && ValueOk(e, v, i) && PrintedAt(v, i, raw, p, |raw|)
    ensures p <= |raw| && AppendValue(g, e, true, raw, p, open, acc) == Ok(acc + Normal(e, v, i, true, false))
    decreases |v| - i
  {
    if i < |v| {
      var j, q := CharIn(e, v, i, raw, p, |raw|);
      ValueOkNext(e, v, i);
      PlainRunIn(e, v, j, raw, q);
      LfIn(e, v, j, raw, q, |raw|, false);
      CharAppends(g, e, v, i, raw, p, q, open, acc);
      AppendEscaped(g, e, v, j, raw, q, open, acc + NormalChar(e, v, i, true, false));
      Rejoin(acc, NormalChar(e, v, i, true, false), Normal(e, v, j, true, false));
    } else {
      assert acc + [] == acc;
    }
  }

  lemma Rejoin(a: bytes, b: bytes, c: bytes)
    ensures a + b + c == a + (b + c)
  {
  }

  lemma ValueOkNext(e: Encoding, v: bytes, i: nat)
    requires i < |v| && ValueOk(e, v, i)
    ensures CharEnd(e, v, i) <= |v| && ValueOk(e, v, CharEnd(e, v, i))
  {
  }

  /** In a value that getAtts takes for normalized nothing was escaped, and normalization changes nothing. */
  lemma {:induction false} PlainMeansUnescaped(e: Encoding, v: bytes, i: nat, w: bytes, start: nat, p: nat, end: nat)
    requires Ascii(e) && i <= |v| && ValueOk(e, v, i) && PrintedAt(v, i, w, p, end)
    requires end <= |w| && PlainValue(e, BT_APOS, w, start, p, end)
    ensures (forall k :: i <= k < |v| ==> !P.IsSpecial(v[k])) && Kept(e, v, i, true)
    decreases |v| - i
  {
    if i < |v| {
      var j, q := CharIn(e, v, i, w, p, end);
      if P.IsSpecial(v[i]) {
        SpecialChar(e, v, i, w, p, q);
        assert false;
      } else {
        OtherChar(e, v, i, w, p, q);
        PlainMeansUnescaped(e, v, j, w, start, q, end);
      }
    }
  }

  // ---------------------------------------------------------------- one attribute

  /** An attribute can be printed so that it is read back. */
  predicate AttOk(e: Encoding, a: P.Att) {
    NameOk(e, a.0) && ValueOk(e, a.1, 0)
  }

  function AttLength(a: P.Att): nat {
    |a.0| + 3 + |P.Escape(a.1)|
  }

  /** The printed attribute `a` is at `p`. */
  ghost predicate AttAt(w: bytes, p: nat, a: P.Att) {
    var eq := p + |a.0|;
    var q := p + AttLength(a) - 1;
    && q < |w| && P.StartsWith(w, p, a.0) && w[eq] == P.EQUALS && w[eq + 1] == P.APOS
    && w[eq + 2..q] == P.Escape(a.1) && PrintedAt(a.1, 0, w, eq + 2, q) && w[q] == P.APOS
  }

  lemma Nest(a: bytes, b: bytes, c: bytes, d: bytes, k: bytes)
    ensures a + (b + (c + d)) + k == a + (b + (c + (d + k)))
  {
    assert c + d + k == c + (d + k);
    assert b + (c + d) + k == b + (c + d + k);
  }

  lemma AttTextAt(a: P.Att, w: bytes, p: nat, k: bytes)
    requires p <= |w| && w[p..] == P.AttText(a) + k
    ensures AttAt(w, p, a) && w[p + AttLength(a)..] == k
  {
    var x := P.Escape(a.1);
    var eq := p + |a.0|;
    Nest(a.0, [P.EQUALS, P.APOS], x, [P.APOS], k);
    P.PartsAt(a.0, [P.EQUALS, P.APOS] + (x + ([P.APOS] + k)), w, p);
    P.PartsAt([P.EQUALS, P.APOS], x + ([P.APOS] + k), w, eq);
    ValueTextAt(a.1, w, eq + 2, k);
    assert w[eq] == w[eq..eq + 2][0] && w[eq + 1] == w[eq..eq + 2][1];
  }

  lemma ValueTextAt(v: bytes, w: bytes, p: nat, k: bytes)
    requires p <= |w| && w[p..] == P.Escape(v) + ([P.APOS] + k)
    ensures
      var q := p + |P.Escape(v)|;
      q < |w| && w[p..q] == P.Escape(v) && PrintedAt(v, 0, w, p, q) && w[q] == P.APOS && w[q + 1..] == k
  {
    var q := p + |P.Escape(v)|;
    assert v[0..] == v;
    EscapeIsPrinted(v, 0, w, p, [P.APOS] + k);
    P.PartsAt(P.Escape(v), [P.APOS] + k, w, p);
    P.PartsAt([P.APOS], k, w, q);
    assert w[q] == w[q..q + 1][0];
  }

  lemma NameThenValue(e: Encoding, w: bytes, p: nat, eq: nat)
    requires Ascii(e) && p <= eq && eq + 1 < |w| && NameSpan(e, w, p) == SpanEnd(eq) && w[eq] == P.EQUALS
        && w[eq + 1] == P.APOS
    ensures ValueStart(e, w, p) == Closed(eq + 1) && e.cls(w[eq + 1]) == BT_APOS
  {
    assert SpaceSpan(e, w, eq) == eq && SpaceSpan(e, w, eq + 1) == eq + 1;
  }

  lemma QuotedValue(e: Encoding, w: bytes, p: nat, quote: nat, q: nat)
    requires p <= |w| && ValueStart(e, w, p) == Closed(quote) && ValueTok(e, e.cls(w[quote]), w, quote + 1) == Closed(q)
    ensures AttributeTok(e, w, p) == Closed(q)
  {
  }

  /** The scanner at a printed attribute. */
  lemma AttributeIn(e: Encoding, a: P.Att, w: bytes, p: nat)
    requires Ascii(e) && AttOk(e, a) && AttAt(w, p, a)
    ensures
      && StartsName(e, w, p) && NameAt(e, w, p) == a.0
      && ValueStart(e, w, AfterFirst(e, w, p)) == Closed(p + |a.0| + 1) && e.cls(w[p + |a.0| + 1]) == BT_APOS
      && AttributeTok(e, w, AfterFirst(e, w, p)) == Closed(p + AttLength(a) - 1)
  {
    var eq, q := p + |a.0|, p + AttLength(a) - 1;
    NameIn(e, a.0, w, p);
    NameThenValue(e, w, AfterFirst(e, w, p), eq);
    ValueIn(e, a.1, 0, w, eq + 2, q);
    QuotedValue(e, w, AfterFirst(e, w, p), eq + 1, q);
  }

  /** The bytes of an attribute are those of the printed attribute `a`. */
  ghost predicate Reads(e: Encoding, w: bytes, at: Attribute, a: P.Att) {
    var r := RawOf(e, w, at);
    r.name == a.0 && r.raw == P.Escape(a.1) && (r.normalized ==> r.raw == NormalValue(e, a.1))
  }

  lemma AttributeIs(e: Encoding, w: bytes, p: nat, quote: nat, q: nat)
    requires StartsName(e, w, p) && ValueStart(e, w, AfterFirst(e, w, p)) == Closed(quote)
    requires AttributeTok(e, w, AfterFirst(e, w, p)) == Closed(q)
    ensures
      AttributeAt(e, w, p) == Attribute(p, quote + 1, q, PlainValue(e, e.cls(w[quote]), w, quote + 1, quote + 1, q))
  {
  }

  lemma RawIs(e: Encoding, w: bytes, p: nat, v: nat, q: nat, normalized: bool)
    requires StartsName(e, w, p) && v <= q <= |w|
    ensures RawOf(e, w, Attribute(p, v, q, normalized)) == RawAtt(NameAt(e, w, p), w[v..q], normalized)
  {
  }

  /** A value that is taken for normalized is printed as it is, and is normalized. */
  lemma NormalizedReads(e: Encoding, a: P.Att, w: bytes, p: nat)
    requires Ascii(e) && AttOk(e, a) && AttAt(w, p, a)
    ensures
      var v, q := p + |a.0| + 2, p + AttLength(a) - 1;
      PlainValue(e, BT_APOS, w, v, v, q) ==> P.Escape(a.1) == NormalValue(e, a.1)
  {
    var v, q := p + |a.0| + 2, p + AttLength(a) - 1;
    if PlainValue(e, BT_APOS, w, v, v, q) {
      PlainMeansUnescaped(e, a.1, 0, w, v, v, q);
      EscapePlain(a.1);
      KeptSame(e, a.1, 0, true, false);
    }
  }

  lemma AttributeParts(e: Encoding, a: P.Att, w: bytes, p: nat) returns (normalized: bool)
    requires Ascii(e) && AttOk(e, a) && AttAt(w, p, a)
    ensures StartsName(e, w, p) && NameAt(e, w, p) == a.0 && AttributeTok(e, w, AfterFirst(e, w, p)).Closed?
    ensures AttributeAt(e, w, p) == Attribute(p, p + |a.0| + 2, p + AttLength(a) - 1, normalized)
    ensures normalized ==> P.Escape(a.1) == NormalValue(e, a.1)
  {
    var v, q := p + |a.0| + 2, p + AttLength(a) - 1;
    AttributeIn(e, a, w, p);
    AttributeIs(e, w, p, v - 1, q);
    NormalizedReads(e, a, w, p);
    normalized := PlainValue(e, BT_APOS, w, v, v, q);
  }

  lemma AttributeReads(e: Encoding, a: P.Att, w: bytes, p: nat) returns (at: Attribute)
    requires Ascii(e) && AttOk(e, a) && AttAt(w, p, a)
    ensures StartsName(e, w, p) && AttributeTok(e, w, AfterFirst(e, w, p)).Closed? && at == AttributeAt(e, w, p)
    ensures Reads(e, w, at, a)
  {
    var normalized := AttributeParts(e, a, w, p);
    at := Attribute(p, p + |a.0| + 2, p + AttLength(a) - 1, normalized);
    RawIs(e, w, p, at.valuePtr, at.valueEnd, normalized);
  }

  // ---------------------------------------------------------------- all attributes of a tag

  predicate AttsOk(e: Encoding, l: seq<P.Att>) {
    forall i :: 0 <= i < |l| ==> AttOk(e, l[i])
  }

  lemma PrintAttsIs(l: seq<P.Att>, k: bytes)
    requires l != []
    ensures P.PrintAtts(l) + k == [P.SPACE] + (P.AttText(l[0]) + (P.PrintAtts(l[1..]) + k))
    ensures |P.PrintAtts(l)| == 1 + AttLength(l[0]) + |P.PrintAtts(l[1..])|
  {
    Nest([], [P.SPACE], P.AttText(l[0]), P.PrintAtts(l[1..]), k);
    assert [] + ([P.SPACE] + (P.AttText(l[0]) + P.PrintAtts(l[1..]))) == P.PrintAtts(l);
  }

  lemma SpaceTextAt(a: P.Att, w: bytes, p: nat, k: bytes)
    requires p <= |w| && w[p..] == [P.SPACE] + (P.AttText(a) + k)
    ensures p < |w| && w[p] == P.SPACE && AttAt(w, p + 1, a) && w[p + 1 + AttLength(a)..] == k
  {
    P.PartsAt([P.SPACE], P.AttText(a) + k, w, p);
    assert w[p] == w[p..p + 1][0];
    AttTextAt(a, w, p + 1, k);
  }

  /** The printed attributes `l` are at `p..end`. */
  ghost predicate AttsAt(w: bytes, p: nat, l: seq<P.Att>, end: nat)
    decreases |l|, 1
  {
    if l == [] then p == end else FirstAt(w, p, l, end)
  }

  /** The first of them, and the others behind it. */
  ghost predicate FirstAt(w: bytes, p: nat, l: seq<P.Att>, end: nat)
    requires l != []
    decreases |l|, 0
  {
    p < |w| && w[p] == P.SPACE && AttAt(w, p + 1, l[0]) && AttsAt(w, p + 1 + AttLength(l[0]), l[1..], end)
  }

  /** The printed attributes with `k` behind them. */
  function AttsText(l: seq<P.Att>, k: bytes): bytes {
    if l == [] then k else [P.SPACE] + (P.AttText(l[0]) + AttsText(l[1..], k))
  }

  lemma {:induction false} AttsTextIs(l: seq<P.Att>, k: bytes)
    ensures AttsText(l, k) == P.PrintAtts(l) + k
  {
    if l == [] {
      assert [] + k == k;
    } else {
      AttsTextIs(l[1..], k);
      PrintAttsIs(l, k);
    }
  }

  lemma {:induction false} AttsTextAt(l: seq<P.Att>, w: bytes, p: nat, k: bytes) returns (end: nat)
    requires p <= |w| && w[p..] == AttsText(l, k)
    ensures end <= |w| && w[end..] == k && AttsAt(w, p, l, end)
    decreases |l|
  {
    if l == [] {
      end := p;
    } else {
      var q := AttsTextStep(l, w, p, k);
      end := AttsTextAt(l[1..], w, q, k);
      AttsTextBack(l, w, p, q, k, end);
    }
  }

  lemma AttsTextStep(l: seq<P.Att>, w: bytes, p: nat, k: bytes) returns (q: nat)
    requires l != [] && p <= |w| && w[p..] == AttsText(l, k)
    ensures q == p + 1 + AttLength(l[0]) && q <= |w| && w[q..] == AttsText(l[1..], k)
  {
    SpaceTextAt(l[0], w, p, AttsText(l[1..], k));
    q := p + 1 + AttLength(l[0]);
  }

  lemma AttsTextBack(l: seq<P.Att>, w: bytes, p: nat, q: nat, k: bytes, end: nat)
    requires l != [] && p <= |w| && w[p..] == AttsText(l, k)
    requires q == p + 1 + AttLength(l[0]) && AttsAt(w, q, l[1..], end)
    ensures AttsAt(w, p, l, end)
  {
    SpaceTextAt(l[0], w, p, AttsText(l[1..], k));
  }

  lemma PrintedAttsAt(l: seq<P.Att>, w: bytes, p: nat, k: bytes) returns (end: nat)
    requires p <= |w| && w[p..] == P.PrintAtts(l) + k
    ensures end <= |w| && w[end..] == k && AttsAt(w, p, l, end)
  {
    AttsTextIs(l, k);
    end := AttsTextAt(l, w, p, k);
  }

  function EndText(empty: bool): bytes {
    if empty then [P.SOL, P.GT] else [P.GT]
  }

  function EndKind(atts: bool, empty: bool): Kind {
    if empty then if atts then EmptyElementWithAtts else EmptyElementNoAtts
    else if atts then StartTagWithAtts else StartTagNoAtts
  }

  /** The end of a tag is at `p`. */
  ghost predicate EndAt(e: Encoding, empty: bool, w: bytes, p: nat) {
    && p + |EndText(empty)| <= |w|
    && if empty then e.cls(w[p]) == BT_SOL && w[p + 1] == P.GT else e.cls(w[p]) == BT_GT
  }

  lemma EndTextAt(e: Encoding, empty: bool, w: bytes, p: nat, k: bytes)
    requires Ascii(e) && p <= |w| && w[p..] == EndText(empty) + k
    ensures EndAt(e, empty, w, p) && w[p + |EndText(empty)|..] == k
  {
    P.PartsAt(EndText(empty), k, w, p);
    assert w[p] == w[p..][0] && (empty ==> w[p + 1] == w[p..][1]);
  }

  lemma EndIn(e: Encoding, had: bool, empty: bool, w: bytes, p: nat)
    requires EndAt(e, empty, w, p)
    ensures EndsName(e.cls(w[p])) && !IsSpace(e.cls(w[p]))
    ensures TagEndTok(e, had, w, p) == Token(EndKind(had, empty), p + |EndText(empty)|)
  {
  }

  // The steps of the scanner over one attribute.

  /** A name starts with no white space. */
  lemma NoSpace(e: Encoding, w: bytes, p: nat)
    requires StartsName(e, w, p)
    ensures SpaceSpan(e, w, p) == p
  {
  }

  lemma GapIsAtts(e: Encoding, had: bool, w: bytes, p: nat)
    requires StartsName(e, w, p)
    ensures GapTok(e, had, w, p) == AttsTok(e, w, AfterFirst(e, w, p))
  {
  }

  lemma AttsIsAfter(e: Encoding, w: bytes, p: nat, at: nat)
    requires p <= |w| && AttributeTok(e, w, p) == Closed(at)
    ensures AttsTok(e, w, p) == AfterValueTok(e, w, at + 1)
  {
  }

  lemma AfterIsGap(e: Encoding, w: bytes, p: nat)
    requires p + 1 < |w| && IsSpace(e.cls(w[p])) && StartsName(e, w, p + 1)
    ensures AfterValueTok(e, w, p) == GapTok(e, true, w, p + 1)
  {
    NoSpace(e, w, p + 1);
  }

  lemma AfterIsEnd(e: Encoding, w: bytes, p: nat)
    requires p < |w| && !IsSpace(e.cls(w[p])) && TagEndTok(e, true, w, p).Token?
    ensures AfterValueTok(e, w, p) == TagEndTok(e, true, w, p) && AttsAfter(e, w, p) == []
  {
  }

  /** What is behind white space, from the name of an attribute to behind its value. */
  lemma GapSkips(e: Encoding, had: bool, a: P.Att, w: bytes, p: nat)
    requires Ascii(e) && AttOk(e, a) && AttAt(w, p, a)
    ensures StartsName(e, w, p) && p + AttLength(a) <= |w|
    ensures GapTok(e, had, w, p) == AfterValueTok(e, w, p + AttLength(a))
  {
    AttributeIn(e, a, w, p);
    GapIsAtts(e, had, w, p);
    AttsIsAfter(e, w, AfterFirst(e, w, p), p + AttLength(a) - 1);
  }

  lemma GapAttsIsList(e: Encoding, had: bool, w: bytes, p: nat)
    requires StartsName(e, w, p) && GapTok(e, had, w, p).Token?
    ensures AttsTok(e, w, AfterFirst(e, w, p)).Token? && GapAtts(e, had, w, p) == AttList(e, w, p)
  {
  }

  lemma ListIsAfter(e: Encoding, w: bytes, p: nat, at: nat)
    requires StartsName(e, w, p) && AttsTok(e, w, AfterFirst(e, w, p)).Token?
    requires AttributeTok(e, w, AfterFirst(e, w, p)) == Closed(at)
    ensures AfterValueTok(e, w, at + 1).Token? && AttList(e, w, p) == [AttributeAt(e, w, p)] + AttsAfter(e, w, at + 1)
  {
  }

  /** The attributes there. */
  lemma GapAttsSkip(e: Encoding, had: bool, a: P.Att, w: bytes, p: nat) returns (at: Attribute)
    requires Ascii(e) && AttOk(e, a) && AttAt(w, p, a) && GapTok(e, had, w, p).Token?
    ensures Reads(e, w, at, a) && p + AttLength(a) <= |w| && AfterValueTok(e, w, p + AttLength(a)).Token?
    ensures GapAtts(e, had, w, p) == [at] + AttsAfter(e, w, p + AttLength(a))
  {
    AttributeIn(e, a, w, p);
    at := AttributeReads(e, a, w, p);
    GapAttsIsList(e, had, w, p);
    ListIsAfter(e, w, p, p + AttLength(a) - 1);
  }

  lemma AfterAttsIsGap(e: Encoding, w: bytes, p: nat)
    requires p + 1 < |w| && IsSpace(e.cls(w[p])) && StartsName(e, w, p + 1) && AfterValueTok(e, w, p).Token?
    ensures GapTok(e, true, w, p + 1).Token? && AttsAfter(e, w, p) == GapAtts(e, true, w, p + 1)
  {
    NoSpace(e, w, p + 1);
  }

  // ---------------------------------------------------------------- the list of attributes

  /** The attributes `ats` of `w` are the printed ones. */
  ghost predicate AllRead(e: Encoding, w: bytes, ats: seq<Attribute>, l: seq<P.Att>) {
    |ats| == |l| && forall i :: 0 <= i < |l| ==> Reads(e, w, ats[i], l[i])
  }

  lemma AllReadFirst(e: Encoding, w: bytes, at: Attribute, ats: seq<Attribute>, l: seq<P.Att>)
    requires l != [] && Reads(e, w, at, l[0]) && AllRead(e, w, ats, l[1..])
    ensures AllRead(e, w, [at] + ats, l)
  {
    forall i | 0 <= i < |l| ensures Reads(e, w, ([at] + ats)[i], l[i]) {
      if i > 0 {
        assert ([at] + ats)[i] == ats[i - 1] && l[1..][i - 1] == l[i];
      }
    }
  }

  /** Behind an attribute: the scanner goes over the next one. */
  lemma AfterStep(e: Encoding, l: seq<P.Att>, w: bytes, p: nat, end: nat)
    requires Ascii(e) && AttsOk(e, l) && l != [] && AttsAt(w, p, l, end)
    ensures
      var q := p + 1 + AttLength(l[0]);
      && p <= q <= |w| && AttsAt(w, q, l[1..], end) && AttsOk(e, l[1..])
      && p < |w| && IsSpace(e.cls(w[p])) && StartsName(e, w, p + 1)
      && AfterValueTok(e, w, p) == AfterValueTok(e, w, q)
  {
    GapSkips(e, true, l[0], w, p + 1);
    AfterIsGap(e, w, p);
  }

  lemma AfterAttsStep(e: Encoding, l: seq<P.Att>, w: bytes, p: nat, end: nat) returns (at: Attribute)
    requires Ascii(e) && AttsOk(e, l) && l != [] && AttsAt(w, p, l, end)
    requires p < |w| && IsSpace(e.cls(w[p])) && StartsName(e, w, p + 1) && AfterValueTok(e, w, p).Token?
    ensures
      var q := p + 1 + AttLength(l[0]);
      && q <= |w| && AfterValueTok(e, w, q).Token?
      && Reads(e, w, at, l[0]) && AttsAfter(e, w, p) == [at] + AttsAfter(e, w, q)
  {
    AfterAttsIsGap(e, w, p);
    at := GapAttsSkip(e, true, l[0], w, p + 1);
  }

  lemma AfterEnds(e: Encoding, empty: bool, w: bytes, p: nat)
    requires EndAt(e, empty, w, p)
    ensures AfterValueTok(e, w, p) == Token(EndKind(true, empty), p + |EndText(empty)|) && AttsAfter(e, w, p) == []
  {
    EndIn(e, true, empty, w, p);
    AfterIsEnd(e, w, p);
  }

  /** The printed attributes `l` and the end of the tag, behind an attribute. */
  lemma {:induction false} AfterIn(e: Encoding, l: seq<P.Att>, empty: bool, w: bytes, p: nat, end: nat)
    requires Ascii(e) && AttsOk(e, l) && AttsAt(w, p, l, end) && EndAt(e, empty, w, end)
    ensures p <= |w| && AfterValueTok(e, w, p) == Token(EndKind(true, empty), end + |EndText(empty)|)
    decreases |l|
  {
    if l == [] {
      AfterEnds(e, empty, w, p);
    } else {
      AfterStep(e, l, w, p, end);
      AfterIn(e, l[1..], empty, w, p + 1 + AttLength(l[0]), end);
    }
  }

  lemma {:induction false} AfterReads(e: Encoding, l: seq<P.Att>, empty: bool, w: bytes, p: nat, end: nat)
    requires Ascii(e) && AttsOk(e, l) && AttsAt(w, p, l, end) && EndAt(e, empty, w, end)
    requires p <= |w| && AfterValueTok(e, w, p).Token?
    ensures AllRead(e, w, AttsAfter(e, w, p), l)
    decreases |l|
  {
    if l == [] {
      AfterEnds(e, empty, w, p);
    } else {
      var q := p + 1 + AttLength(l[0]);
      AfterStep(e, l, w, p, end);
      var at := AfterAttsStep(e, l, w, p, end);
      AfterReads(e, l[1..], empty, w, q, end);
      AllReadFirst(e, w, at, AttsAfter(e, w, q), l);
    }
  }

  // ---------------------------------------------------------------- storing

  /** The value of a printed attribute, where no DTD declares it. */
  lemma ValueRestored(g: Grammar, e: Encoding, elem: bytes, w: bytes, at: Attribute, a: P.Att, open: set<bytes>)
    requires Ascii(e) && AttOk(e, a) && Reads(e, w, at, a) && Defaults(g, elem) == []
    ensures RawOf(e, w, at).name == a.0 && ValueOf(g, e, elem, RawOf(e, w, at), open) == Ok(NormalValue(e, a.1))
  {
    var raw := P.Escape(a.1);
    assert a.1[0..] == a.1 && raw[0..] == raw + [];
    EscapeIsPrinted(a.1, 0, raw, 0, []);
    AppendEscaped(g, e, a.1, 0, raw, 0, open, []);
    assert [] + NormalValue(e, a.1) == NormalValue(e, a.1);
  }

  predicate DistinctNames(l: seq<P.Att>) {
    forall i, j :: 0 <= i < j < |l| ==> l[i].0 != l[j].0
  }

  lemma NewName(l: seq<P.Att>, i: nat)
    requires DistinctNames(l) && i < |l|
    ensures !HasName(l[..i], l[i].0) && l[..i] + [(l[i].0, l[i].1)] == l[..i + 1]
  {
  }

  lemma {:induction false} StoreRestores(
    g: Grammar, e: Encoding, elem: bytes, w: bytes, ats: seq<Attribute>, l: seq<P.Att>, i: nat, open: set<bytes>)
    requires Ascii(e) && AttsOk(e, l) && AllRead(e, w, ats, l) && Defaults(g, elem) == [] && DistinctNames(l)
        && i <= |l|
    ensures StoreSpecified(g, e, elem, w, ats, i, open, NormalAtts(e, l)[..i]) == Ok(NormalAtts(e, l))
    decreases |l| - i
  {
    var n := NormalAtts(e, l);
    if i == |l| {
      assert n[..i] == n;
    } else {
      assert Reads(e, w, ats[i], l[i]);
      ValueRestored(g, e, elem, w, ats[i], l[i], open);
      NewName(n, i);
      StoreRestores(g, e, elem, w, ats, l, i + 1, open);
    }
  }

  /** storeAtts gives the attributes that were printed, with their values normalized. */
  lemma AttsRestored(g: Grammar, e: Encoding, elem: bytes, w: bytes, ats: seq<Attribute>, l: seq<P.Att>,
      open: set<bytes>)
    requires Ascii(e) && AttsOk(e, l) && AllRead(e, w, ats, l) && Defaults(g, elem) == [] && DistinctNames(l)
    ensures StoreAtts(g, e, elem, w, ats, open) == Ok(NormalAtts(e, l))
  {
    assert NormalAtts(e, l)[..0] == [];
    StoreRestores(g, e, elem, w, ats, l, 0, open);
  }
}
