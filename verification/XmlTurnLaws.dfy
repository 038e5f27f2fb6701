/**
  A round of the content parser depends only on the bytes of its token: the
  window laws of the tokenizer, carried over to attributes and to rounds.
 */
module XmlTurnLaws {
  import opened Bytes
  import opened XmlTok
  import opened XmlTokLaws
  import opened XmlDtd
  import opened XmlAtts
  import opened XmlAttValue
  import opened XmlParse

  // ---------------------------------------------------------------- attributes

  lemma StartsNameWindow(e: Encoding, s: bytes, w: bytes, m: nat, p: nat, q: nat)
    requires Window(s, w, m) && q == m + p && StartsName(e, s, p)
    ensures StartsName(e, w, q) && AfterFirst(e, w, q) == m + AfterFirst(e, s, p)
  {
    NmStrtWindow(e, s, w, m, p, q);
  }

  lemma {:induction false} PlainValueWindow(
    e: Encoding, open: Class, s: bytes, w: bytes, m: nat, start: nat, p: nat, q: nat, end: nat)
    requires Window(s, w, m) && q == m + p && end < |s|
    ensures PlainValue(e, open, s, start, p, end) == PlainValue(e, open, w, m + start, q, m + end)
    decreases if p < end then end - p else 0
  {
    if p < end {
      assert Peek(s, p + 1) == Peek(w, q + 1);
      PlainValueWindow(e, open, s, w, m, start, Walk(e, s, p), Walk(e, w, q), end);
    }
  }

  lemma NameAtWindow(e: Encoding, s: bytes, w: bytes, m: nat, p: nat, q: nat)
    requires Window(s, w, m) && q == m + p && StartsName(e, s, p)
    requires WholeName(e, s, p).SpanEnd? && WholeName(e, s, p).at < |s|
    ensures StartsName(e, w, q) && NameAt(e, w, q) == NameAt(e, s, p)
  {
    StartsNameWindow(e, s, w, m, p, q);
    WholeNameWindow(e, s, w, m, p, q);
    SliceWindow(s, w, m, p, q, WholeName(e, s, p).at - p);
  }

  /** The positions of an attribute move with the window. */
  lemma AttributeAtWindow(e: Encoding, s: bytes, w: bytes, m: nat, p: nat, q: nat)
    requires Window(s, w, m) && q == m + p
    requires StartsName(e, s, p) && AttributeTok(e, s, AfterFirst(e, s, p)).Closed?
    ensures StartsName(e, w, q) && AttributeTok(e, w, AfterFirst(e, w, q)).Closed?
    ensures
      var a := AttributeAt(e, s, p);
      AttributeAt(e, w, q) == Attribute(q, m + a.valuePtr, m + a.valueEnd, a.normalized)
  {
    StartsNameWindow(e, s, w, m, p, q);
    var f := AfterFirst(e, s, p);
    AttributeWindow(e, s, w, m, f, m + f);
    QuoteWindow(e, s, w, m, f, m + f);
    var a := AttributeAt(e, s, p);
    PlainValueWindow(e, e.cls(s[a.valuePtr - 1]), s, w, m, a.valuePtr, a.valuePtr, m + a.valuePtr, a.valueEnd);
  }

  /** The opening quote of an attribute. */
  lemma QuoteWindow(e: Encoding, s: bytes, w: bytes, m: nat, p: nat, q: nat)
    requires Window(s, w, m) && q == m + p && p <= |s| && AttributeTok(e, s, p).Closed?
    ensures ValueStart(e, s, p).Closed? && ValueStart(e, w, q) == Closed(m + ValueStart(e, s, p).at)
  {
    ValueStartWindow(e, s, w, m, p, q);
  }

  /** The name of an attribute ends inside the buffer. */
  lemma AttributeNameEnds(e: Encoding, s: bytes, p: nat)
    requires StartsName(e, s, p) && AttributeTok(e, s, AfterFirst(e, s, p)).Closed?
    ensures WholeName(e, s, p).SpanEnd? && WholeName(e, s, p).at < |s|
  {
  }

  /** The bytes of an attribute do not change. */
  lemma RawOfWindow(e: Encoding, s: bytes, w: bytes, m: nat, a: Attribute)
    requires Window(s, w, m)
    requires StartsName(e, s, a.name) && WholeName(e, s, a.name).SpanEnd? && WholeName(e, s, a.name).at < |s|
    requires a.valuePtr <= a.valueEnd <= |s|
    ensures RawOf(e, w, Attribute(m + a.name, m + a.valuePtr, m + a.valueEnd, a.normalized)) == RawOf(e, s, a)
  {
    NameAtWindow(e, s, w, m, a.name, m + a.name);
    SliceWindow(s, w, m, a.valuePtr, m + a.valuePtr, a.valueEnd - a.valuePtr);
  }

  /** The first attribute of a list, and the place where the rest starts. */
  lemma HeadWindow(e: Encoding, s: bytes, w: bytes, m: nat, p: nat, q: nat)
    requires Window(s, w, m) && q == m + p
    requires StartsName(e, s, p) && AttributeTok(e, s, AfterFirst(e, s, p)).Closed?
    ensures StartsName(e, w, q) && AttributeTok(e, w, AfterFirst(e, w, q)).Closed?
    ensures AttributeAt(e, w, q).valueEnd == m + AttributeAt(e, s, p).valueEnd
    ensures RawOf(e, w, AttributeAt(e, w, q)) == RawOf(e, s, AttributeAt(e, s, p))
  {
    AttributeNameEnds(e, s, p);
    AttributeAtWindow(e, s, w, m, p, q);
    RawOfWindow(e, s, w, m, AttributeAt(e, s, p));
  }

  /** The attributes `l` of `s` have the same bytes as the attributes `l'` of `w`. */
  ghost predicate SameBytes(e: Encoding, s: bytes, w: bytes, l: seq<Attribute>, l': seq<Attribute>) {
    |l| == |l'| && forall i :: 0 <= i < |l| ==> RawOf(e, w, l'[i]) == RawOf(e, s, l[i])
  }

  lemma SameBytesFirst(e: Encoding, s: bytes, w: bytes, a: Attribute, a': Attribute, l: seq<Attribute>,
      l': seq<Attribute>)
    requires RawOf(e, w, a') == RawOf(e, s, a) && SameBytes(e, s, w, l, l')
    ensures SameBytes(e, s, w, [a] + l, [a'] + l')
  {
    forall i | 0 <= i < |[a] + l| ensures RawOf(e, w, ([a'] + l')[i]) == RawOf(e, s, ([a] + l)[i]) {
      if i > 0 {
        assert ([a] + l)[i] == l[i - 1] && ([a'] + l')[i] == l'[i - 1];
      }
    }
  }

  /** A list is its first attribute, and what follows the closing quote before `after`. */
  lemma ListParts(e: Encoding, s: bytes, p: nat) returns (a: Attribute, after: nat)
    requires StartsName(e, s, p) && AttsTok(e, s, AfterFirst(e, s, p)).Token?
    ensures AttributeTok(e, s, AfterFirst(e, s, p)).Closed? && a == AttributeAt(e, s, p)
    ensures p < after <= |s| && after == a.valueEnd + 1 && AfterValueTok(e, s, after).Token?
    ensures AttList(e, s, p) == [a] + AttsAfter(e, s, after)
  {
    a := AttributeAt(e, s, p);
    after := a.valueEnd + 1;
  }

  lemma {:induction false} AttListWindow(e: Encoding, s: bytes, w: bytes, m: nat, p: nat, q: nat)
    requires Window(s, w, m) && q == m + p
    requires StartsName(e, s, p) && AttsTok(e, s, AfterFirst(e, s, p)).Token?
    requires StartsName(e, w, q) && AttsTok(e, w, AfterFirst(e, w, q)).Token?
    ensures SameBytes(e, s, w, AttList(e, s, p), AttList(e, w, q))
    decreases |s| - p, 1
  {
    var a, after := ListParts(e, s, p);
    var a', after' := ListParts(e, w, q);
    HeadWindow(e, s, w, m, p, q);
    AttsAfterWindow(e, s, w, m, after, after');
    SameBytesFirst(e, s, w, a, a', AttsAfter(e, s, after), AttsAfter(e, w, after'));
  }

  lemma {:induction false} AttsAfterWindow(e: Encoding, s: bytes, w: bytes, m: nat, p: nat, q: nat)
    requires Window(s, w, m) && q == m + p
    requires p <= |s| && AfterValueTok(e, s, p).Token?
    requires q <= |w| && AfterValueTok(e, w, q).Token?
    ensures SameBytes(e, s, w, AttsAfter(e, s, p), AttsAfter(e, w, q))
    decreases |s| - p, 0
  {
    if IsSpace(e.cls(s[p])) {
      SpaceSpanWindow(e, s, w, m, p + 1, q + 1);
      GapAttsWindow(e, true, s, w, m, SpaceSpan(e, s, p + 1), SpaceSpan(e, w, q + 1));
    }
  }

  lemma {:induction false} GapAttsWindow(e: Encoding, atts: bool, s: bytes, w: bytes, m: nat, p: nat, q: nat)
    requires Window(s, w, m) && q == m + p
    requires p <= |s| && GapTok(e, atts, s, p).Token?
    requires q <= |w| && GapTok(e, atts, w, q).Token?
    ensures SameBytes(e, s, w, GapAtts(e, atts, s, p), GapAtts(e, atts, w, q))
    decreases |s| - p, 2
  {
    NmStrtWindow(e, s, w, m, p, q);
    if StartsName(e, s, p) {
      AttListWindow(e, s, w, m, p, q);
    }
  }

  /** A start tag is the same tag, with the same name and attributes, in a longer buffer. */
  lemma TagTokWindow(e: Encoding, s: bytes, w: bytes, m: nat, p: nat, q: nat)
    requires Window(s, w, m) && q == m + p && IsTagAt(e, s, p)
    ensures IsTagAt(e, w, q)
    ensures NameEnd(e, w, q) == m + NameEnd(e, s, p)
    ensures TagTok(e, w, AfterFirst(e, w, q + 1)) == Shift(TagTok(e, s, AfterFirst(e, s, p + 1)), m)
  {
    StartsNameWindow(e, s, w, m, p + 1, q + 1);
    var f := AfterFirst(e, s, p + 1);
    TagWindow(e, s, w, m, f, m + f);
    NameSpanWindow(e, s, w, m, f, m + f);
  }

  /** Without white space behind the name there are no attributes. */
  lemma NoAttsFrom(e: Encoding, s: bytes, p: nat)
    requires p < |s| && !IsSpace(e.cls(s[p]))
    ensures AttsFrom(e, s, p) == []
  {
  }

  lemma SpaceAttsFrom(e: Encoding, s: bytes, p: nat, g: nat)
    requires p < |s| && IsSpace(e.cls(s[p])) && g == SpaceSpan(e, s, p + 1) && GapTok(e, false, s, g).Token?
    ensures AttsFrom(e, s, p) == GapAtts(e, false, s, g)
  {
  }

  lemma SpaceAttsWindow(e: Encoding, s: bytes, w: bytes, m: nat, p: nat, q: nat, g: nat, h: nat)
    requires Window(s, w, m) && q == m + p && p < |s| && IsSpace(e.cls(s[p]))
    requires g == SpaceSpan(e, s, p + 1) && GapTok(e, false, s, g).Token?
    requires q < |w| && h == SpaceSpan(e, w, q + 1) && GapTok(e, false, w, h).Token?
    ensures SameBytes(e, s, w, AttsFrom(e, s, p), AttsFrom(e, w, q))
  {
    SpaceSpanWindow(e, s, w, m, p + 1, q + 1);
    SpaceAttsFrom(e, s, p, g);
    SpaceAttsFrom(e, w, q, h);
    GapAttsWindow(e, false, s, w, m, g, h);
  }

  lemma AttsFromWindow(e: Encoding, s: bytes, w: bytes, m: nat, p: nat, q: nat)
    requires Window(s, w, m) && q == m + p
    requires p < |s| && (IsSpace(e.cls(s[p])) ==> GapTok(e, false, s, SpaceSpan(e, s, p + 1)).Token?)
    requires q < |w| && (IsSpace(e.cls(w[q])) ==> GapTok(e, false, w, SpaceSpan(e, w, q + 1)).Token?)
    ensures SameBytes(e, s, w, AttsFrom(e, s, p), AttsFrom(e, w, q))
  {
    if IsSpace(e.cls(s[p])) {
      SpaceAttsWindow(e, s, w, m, p, q, SpaceSpan(e, s, p + 1), SpaceSpan(e, w, q + 1));
    } else {
      NoAttsFrom(e, s, p);
      NoAttsFrom(e, w, q);
    }
  }

  lemma TagAttsWindow(e: Encoding, s: bytes, w: bytes, m: nat, p: nat, q: nat)
    requires Window(s, w, m) && q == m + p && IsTagAt(e, s, p) && IsTagAt(e, w, q)
    requires NameEnd(e, w, q) == m + NameEnd(e, s, p)
    ensures SameBytes(e, s, w, TagAtts(e, s, p), TagAtts(e, w, q))
  {
    AttsFromWindow(e, s, w, m, NameEnd(e, s, p), m + NameEnd(e, s, p));
  }

  // ---------------------------------------------------------------- rounds

  function ShiftTurn(t: Turn, m: nat): Turn {
    match t
    case Advance(to, st, evs) => Advance(m + to, st, evs)
    case Suspend(rest) => Suspend(m + rest)
    case Finish(evs) => Finish(evs)
    case Break(error) => Break(error)
  }

  lemma {:induction false} StoreSpecifiedWindow(
    g: Grammar, e: Encoding, elem: bytes, s: bytes, w: bytes, l: seq<Attribute>, l': seq<Attribute>, i: nat,
    open: set<bytes>, seen: seq<(bytes, bytes)>)
    requires SameBytes(e, s, w, l, l') && i <= |l|
    ensures StoreSpecified(g, e, elem, w, l', i, open, seen) == StoreSpecified(g, e, elem, s, l, i, open, seen)
    decreases |l| - i
  {
    if i < |l| {
      var a := RawOf(e, s, l[i]);
      assert RawOf(e, w, l'[i]) == a;
      var value := ValueOf(g, e, elem, a, open);
      if value.Ok? {
        StoreSpecifiedWindow(g, e, elem, s, w, l, l', i + 1, open, seen + [(a.name, value.value)]);
      }
    }
  }

  lemma StoreAttsWindow(
    g: Grammar, e: Encoding, elem: bytes, s: bytes, w: bytes, l: seq<Attribute>, l': seq<Attribute>, open: set<bytes>)
    requires SameBytes(e, s, w, l, l')
    ensures StoreAtts(g, e, elem, w, l', open) == StoreAtts(g, e, elem, s, l, open)
  {
    StoreSpecifiedWindow(g, e, elem, s, w, l, l', 0, open, []);
  }

  lemma ElementTurnShift(
    st: State, name: bytes, stored: Outcome<seq<(bytes, bytes)>>, kind: Kind, next: nat, m: nat)
    ensures ElementTurn(st, name, stored, kind, m + next) == ShiftTurn(ElementTurn(st, name, stored, kind, next), m)
  {
  }

  lemma TagNameWindow(e: Encoding, s: bytes, w: bytes, m: nat, p: nat, q: nat)
    requires Window(s, w, m) && q == m + p && IsTagAt(e, s, p)
    ensures IsTagAt(e, w, q) && w[q + 1..NameEnd(e, w, q)] == s[p + 1..NameEnd(e, s, p)]
  {
    TagTokWindow(e, s, w, m, p, q);
    SliceWindow(s, w, m, p + 1, q + 1, NameEnd(e, s, p) - (p + 1));
  }

  lemma TagStoreWindow(
    g: Grammar, e: Encoding, name: bytes, s: bytes, w: bytes, m: nat, p: nat, q: nat, open: set<bytes>)
    requires Window(s, w, m) && q == m + p && IsTagAt(e, s, p) && IsTagAt(e, w, q)
    ensures StoreAtts(g, e, name, w, TagAtts(e, w, q), open) == StoreAtts(g, e, name, s, TagAtts(e, s, p), open)
  {
    TagTokWindow(e, s, w, m, p, q);
    TagAttsWindow(e, s, w, m, p, q);
    StoreAttsWindow(g, e, name, s, w, TagAtts(e, s, p), TagAtts(e, w, q), open);
  }

  lemma TagTurnWindow(
    g: Grammar, e: Encoding, st: State, s: bytes, w: bytes, m: nat, p: nat, q: nat, open: set<bytes>, kind: Kind,
    next: nat)
    requires Window(s, w, m) && q == m + p && IsTagAt(e, s, p)
    ensures IsTagAt(e, w, q)
    ensures TagTurn(g, e, st, w, q, open, kind, m + next) == ShiftTurn(TagTurn(g, e, st, s, p, open, kind, next), m)
  {
    TagNameWindow(e, s, w, m, p, q);
    var name := s[p + 1..NameEnd(e, s, p)];
    TagStoreWindow(g, e, name, s, w, m, p, q, open);
    ElementTurnShift(st, name, StoreAtts(g, e, name, s, TagAtts(e, s, p), open), kind, next, m);
  }

  /** The name of an end tag that contentTok accepts. */
  lemma EndTagNameWindow(e: Encoding, s: bytes, w: bytes, m: nat, p: nat, q: nat)
    requires Window(s, w, m) && q == m + p
    requires p + 2 <= |s| && EndTagTok(e, s, p + 2).Token?
    ensures EndTagName(e, w, q) == EndTagName(e, s, p)
  {
    NmStrtWindow(e, s, w, m, p + 2, q + 2);
    NameAtWindow(e, s, w, m, p + 2, q + 2);
  }

  lemma EntityTurnShift(g: Grammar, st: State, name: bytes, next: nat, open: set<bytes>, m: nat)
    ensures EntityTurn(g, st, name, m + next, open) == ShiftTurn(EntityTurn(g, st, name, next, open), m)
  {
  }

  lemma PlainTurnWindow(st: State, s: bytes, w: bytes, m: nat, p: nat, q: nat, kind: Kind, next: nat)
    requires Window(s, w, m) && q == m + p && p < next <= |s|
    ensures PlainTurn(st, w, q, kind, m + next) == ShiftTurn(PlainTurn(st, s, p, kind, next), m)
  {
    if kind == CharRef {
      CharRefTurnWindow(st, s, w, m, p, q, next);
    } else {
      SliceWindow(s, w, m, p, q, next - p);
    }
  }

  lemma CharRefTurnWindow(st: State, s: bytes, w: bytes, m: nat, p: nat, q: nat, next: nat)
    requires Window(s, w, m) && q == m + p && p < next <= |s|
    ensures PlainTurn(st, w, q, CharRef, m + next) == ShiftTurn(PlainTurn(st, s, p, CharRef, next), m)
  {
    RefNumberWindow(s, w, m, p, q, next);
  }

  lemma RefNameWindow(s: bytes, w: bytes, m: nat, p: nat, q: nat, next: nat)
    requires Window(s, w, m) && q == m + p && p < next <= |s|
    ensures RefName(w, q, m + next) == RefName(s, p, next)
  {
    if p + 2 <= next {
      SliceWindow(s, w, m, p + 1, q + 1, next - 1 - (p + 1));
    }
  }

  lemma RefNumberWindow(s: bytes, w: bytes, m: nat, p: nat, q: nat, next: nat)
    requires Window(s, w, m) && q == m + p && p < next <= |s|
    ensures RefNumber(w, q, m + next) == RefNumber(s, p, next)
  {
    if p + 3 <= next {
      SliceWindow(s, w, m, p + 2, q + 2, next - 1 - (p + 2));
    }
  }

  // ---------------------------------------------------------------- whole rounds

  /** The round of doContent for a token. */
  lemma ContentTokenTurn(
    g: Grammar, e: Encoding, start: nat, st: State, s: bytes, p: nat, open: set<bytes>, final: bool, kind: Kind,
    next: nat)
    requires p <= |s| && start <= |st.tags| && ContentTok(e, s, p) == Token(kind, next)
    ensures p < next <= |s|
    ensures IsStartTag(kind) ==> IsTagAt(e, s, p) && TagTok(e, s, AfterFirst(e, s, p + 1)) == Token(kind, next)
    ensures kind == EndTag ==> p + 2 <= |s| && EndTagTok(e, s, p + 2).Token?
    ensures ContentTurn(g, e, start, st, s, p, open, final) == TokenTurn(g, e, start, st, s, p, open, kind, next)
  {
    TagIsContent(e, s, p);
    EndTagIsContent(e, s, p);
  }

  /** The round of doContent where there is no token. */
  lemma ContentStopTurn(g: Grammar, e: Encoding, start: nat, st: State, s: bytes, p: nat, open: set<bytes>, final: bool)
    requires p <= |s| && start <= |st.tags| && !ContentTok(e, s, p).Token?
    ensures
      ContentTurn(g, e, start, st, s, p, open, final) == ContentStop(start, st, ContentTok(e, s, p), s[p..], p, final)
  {
    assert ContentTurn(g, e, start, st, s, p, open, final)
        == LexemeTurn(g, e, start, st, s, p, open, final, ContentTok(e, s, p));
  }

  /** What an accepted token makes of the state does not depend on the rest of the buffer. */
  lemma LexemeTurnWindow(
    g: Grammar, e: Encoding, start: nat, st: State, s: bytes, w: bytes, m: nat, p: nat, q: nat, open: set<bytes>,
    final: bool, final': bool, tok: Lexeme)
    requires Window(s, w, m) && q == m + p && p <= |s| && start <= |st.tags|
    requires tok.Token? && TokenFacts(e, s, p, tok) && TokenFacts(e, w, q, Shift(tok, m))
    ensures LexemeTurn(g, e, start, st, w, q, open, final', Shift(tok, m))
         == ShiftTurn(LexemeTurn(g, e, start, st, s, p, open, final, tok), m)
  {
    var kind, next := tok.kind, tok.next;
    if IsStartTag(kind) {
      TagTurnWindow(g, e, st, s, w, m, p, q, open, kind, next);
    } else if kind == EndTag {
      EndTagNameWindow(e, s, w, m, p, q);
    } else if kind == EntityRef {
      RefNameWindow(s, w, m, p, q, next);
      EntityTurnShift(g, st, RefName(s, p, next), next, open, m);
    } else {
      PlainTurnWindow(st, s, w, m, p, q, kind, next);
    }
  }

  /** What is not a token ends the call at the same place, for the last part of a buffer. */
  lemma ContentStopShift(start: nat, st: State, tok: Lexeme, s: bytes, w: bytes, m: nat, p: nat, q: nat, final: bool)
    requires Window(s, w, m) && m + |s| == |w| && q == m + p && p <= |s| && !tok.Token?
    ensures ContentStop(start, st, Shift(tok, m), w[q..], q, final)
        == ShiftTurn(ContentStop(start, st, tok, s[p..], p, final), m)
  {
    SliceWindow(s, w, m, p, q, |s| - p);
    assert s[p..|s|] == s[p..] && w[q..|w|] == w[q..];
  }

  /** The round at a place of the last part of a buffer is the round at that place of the buffer. */
  lemma ContentTurnShift(
    g: Grammar, e: Encoding, start: nat, st: State, s: bytes, w: bytes, m: nat, p: nat, q: nat, open: set<bytes>,
    final: bool)
    requires Window(s, w, m) && m + |s| == |w| && q == m + p && p <= |s| && start <= |st.tags|
    ensures ContentTurn(g, e, start, st, w, q, open, final)
        == ShiftTurn(ContentTurn(g, e, start, st, s, p, open, final), m)
  {
    ContentWindow(e, s, w, m, p, q);
    ContentFacts(e, s, p);
    ContentFacts(e, w, q);
    LexemeTurnShift(g, e, start, st, s, w, m, p, q, open, final, ContentTok(e, s, p));
  }

  lemma LexemeTurnShift(
    g: Grammar, e: Encoding, start: nat, st: State, s: bytes, w: bytes, m: nat, p: nat, q: nat, open: set<bytes>,
    final: bool, tok: Lexeme)
    requires Window(s, w, m) && m + |s| == |w| && q == m + p && p <= |s| && start <= |st.tags|
    requires TokenFacts(e, s, p, tok) && TokenFacts(e, w, q, Shift(tok, m))
    ensures LexemeTurn(g, e, start, st, w, q, open, final, Shift(tok, m))
         == ShiftTurn(LexemeTurn(g, e, start, st, s, p, open, final, tok), m)
  {
    if tok.Token? {
      LexemeTurnWindow(g, e, start, st, s, w, m, p, q, open, final, final, tok);
    } else {
      ContentStopShift(start, st, tok, s, w, m, p, q, final);
    }
  }

  lemma CdataTurnShift(e: Encoding, st: State, s: bytes, w: bytes, m: nat, p: nat, q: nat, final: bool)
    requires Window(s, w, m) && m + |s| == |w| && q == m + p && p <= |s| && st.mode == InCdata
    ensures CdataTurn(e, st, w, q, final) == ShiftTurn(CdataTurn(e, st, s, p, final), m)
  {
    CdataSectionWindow(e, s, w, m, p, q);
    var tok := CdataSectionTok(e, s, p);
    if tok.Token? {
      SliceWindow(s, w, m, p, q, tok.next - p);
    }
  }

  lemma EpilogTurnShift(e: Encoding, st: State, s: bytes, w: bytes, m: nat, p: nat, q: nat, final: bool)
    requires Window(s, w, m) && m + |s| == |w| && q == m + p && p <= |s| && st.mode == InEpilog
    ensures EpilogTurn(e, st, w, q, final) == ShiftTurn(EpilogTurn(e, st, s, p, final), m)
  {
    PrologWindow(e, s, w, m, p, q);
    EpilogLexemeShift(st, PrologTok(e, s, p), s, w, m, p, q, final);
  }

  lemma EpilogLexemeShift(st: State, tok: Lexeme, s: bytes, w: bytes, m: nat, p: nat, q: nat, final: bool)
    requires Window(s, w, m) && m + |s| == |w| && q == m + p && p <= |s|
    requires tok.Token? && tok.kind != InstanceStart ==> p < tok.next <= |s|
    ensures EpilogLexeme(st, Shift(tok, m), w, q, final) == ShiftTurn(EpilogLexeme(st, tok, s, p, final), m)
  {
    if tok.Token? && tok.kind != InstanceStart {
      SliceWindow(s, w, m, p, q, tok.next - p);
    }
  }

  lemma TurnShift(
    g: Grammar, e: Encoding, start: nat, st: State, s: bytes, w: bytes, m: nat, p: nat, q: nat, open: set<bytes>,
    final: bool)
    requires Window(s, w, m) && m + |s| == |w| && q == m + p && p <= |s| && start <= |st.tags|
    ensures TurnAt(g, e, start, st, w, q, open, final) == ShiftTurn(TurnAt(g, e, start, st, s, p, open, final), m)
  {
    match st.mode
    case InContent => ContentTurnShift(g, e, start, st, s, w, m, p, q, open, final);
    case InCdata => CdataTurnShift(e, st, s, w, m, p, q, final);
    case InEpilog => EpilogTurnShift(e, st, s, w, m, p, q, final);
  }

  function ShiftResult(r: Result, m: nat): Result {
    match r
    case Paused(st, rest, evs) => Paused(st, m + rest, evs)
    case Done(st, evs) => Done(st, evs)
    case Failed(error) => Failed(error)
  }

  /** Parsing on from the middle of a buffer is parsing the rest of it as a buffer of its own. */
  lemma {:induction false} RunShift(
    g: Grammar, e: Encoding, start: nat, st: State, s: bytes, w: bytes, m: nat, p: nat, q: nat, open: set<bytes>,
    final: bool)
    requires Window(s, w, m) && m + |s| == |w| && q == m + p && p <= |s| && start <= |st.tags|
    ensures Run(g, e, start, st, w, q, open, final) == ShiftResult(Run(g, e, start, st, s, p, open, final), m)
    decreases |s| - p, 1
  {
    TurnShift(g, e, start, st, s, w, m, p, q, open, final);
    ContinueShift(g, e, start, st, s, w, m, p, q, open, final, TurnAt(g, e, start, st, s, p, open, final));
  }

  lemma {:induction false} ContinueShift(
    g: Grammar, e: Encoding, start: nat, st: State, s: bytes, w: bytes, m: nat, p: nat, q: nat, open: set<bytes>,
    final: bool, t: Turn)
    requires Window(s, w, m) && m + |s| == |w| && q == m + p && p <= |s| && start <= |st.tags|
    requires Sound(start, s, p, final, t)
    ensures Continue(g, e, start, st, w, q, open, final, ShiftTurn(t, m))
         == ShiftResult(Continue(g, e, start, st, s, p, open, final, t), m)
    decreases |s| - p, 0
  {
    match t
    case Advance(to, st', evs) => RunShift(g, e, start, st', s, w, m, to, m + to, open, final);
    case _ =>
  }
}
