/**
  Which bytes are a start tag or an empty-element tag, with which attributes, and which are
  character data (sections 3.1, 2.4 and 2.7 of XML 1.0).
 */
module XmlTagShapes {
  import opened Bytes
  import opened XmlTok
  import opened XmlTokLaws
  import opened XmlAtts
  import opened XmlShapes
  import opened XmlPrintAtts

  // ---------------------------------------------------------------- attribute values

  /** A character of a value in quotes of class `quote`: no quote, no "<", and no "&". */
  predicate PlainUnit(e: Encoding, quote: Class, s: bytes, p: nat) {
    IsCharAt(e, s, p) && e.cls(s[p]) != quote && e.cls(s[p]) != BT_LT && e.cls(s[p]) != BT_AMP
  }

  /** Characters and references from `p` to `end`. */
  ghost predicate ValueChars(e: Encoding, quote: Class, s: bytes, p: nat, end: nat)
    decreases if p < end then end - p else 0
  {
    || p == end
    || (p < end && PlainUnit(e, quote, s, p) && ValueChars(e, quote, s, Behind(e, s, p), end))
    || (p < end && p < |s| && e.cls(s[p]) != quote
        && exists to: nat :: RefAt(e, s, p, to) && p < to <= end && ValueChars(e, quote, s, to, end))
  }

  /** A reference from `p` to `to`. */
  ghost predicate RefAt(e: Encoding, s: bytes, p: nat, to: nat) {
    EntityRefAt(e, s, p, to) || CharRefAt(e, s, p, to)
  }

  /** Whether a reference is at `p` does not depend on what contentTok would do in other places. */
  lemma RefShape(e: Encoding, s: bytes, p: nat, to: nat)
    requires p < |s| && e.cls(s[p]) == BT_AMP
    ensures RefTok(e, s, p + 1).Token? && RefTok(e, s, p + 1).next == to <==> RefAt(e, s, p, to)
  {
    EntityRefShape(e, s, p, to);
    CharRefShape(e, s, p, to);
    assert ContentTok(e, s, p) == RefTok(e, s, p + 1);
  }

  lemma {:induction false} ValueShape(e: Encoding, quote: Class, s: bytes, p: nat, end: nat)
    requires p <= |s| && (quote == BT_QUOT || quote == BT_APOS)
    ensures
      ValueTok(e, quote, s, p) == Closed(end)
      <==> end < |s| && e.cls(s[end]) == quote && ValueChars(e, quote, s, p, end)
    decreases |s| - p
  {
    if p < |s| && e.cls(s[p]) != quote {
      CharChecks(e, s, p);
      if e.cls(s[p]) == BT_AMP {
        forall to: nat | RefAt(e, s, p, to) ensures RefTok(e, s, p + 1).Token? && RefTok(e, s, p + 1).next == to {
          RefShape(e, s, p, to);
        }
        if RefTok(e, s, p + 1).Token? {
          var to := RefTok(e, s, p + 1).next;
          RefShape(e, s, p, to);
          ValueShape(e, quote, s, to, end);
        }
      } else if PlainUnit(e, quote, s, p) {
        ValueShape(e, quote, s, Behind(e, s, p), end);
      }
    }
  }

  // ---------------------------------------------------------------- attributes

  /** The positions in an attribute: its name, the equals sign and the quotes. */
  datatype AttSpan = AttSpan(name: nat, nameEnd: nat, equals: nat, quote: nat, end: nat)

  /** name white space "=" white space quote value quote */
  ghost predicate AttAt(e: Encoding, s: bytes, a: AttSpan) {
    && NameTo(e, s, a.name, a.nameEnd)
    && Spaces(e, s, a.nameEnd, a.equals) && a.equals < |s| && e.cls(s[a.equals]) == BT_EQUALS
    && Spaces(e, s, a.equals + 1, a.quote) && a.quote < |s| && e.cls(s[a.quote]) in {BT_QUOT, BT_APOS}
    && ValueChars(e, e.cls(s[a.quote]), s, a.quote + 1, a.end)
    && a.end < |s| && e.cls(s[a.end]) == e.cls(s[a.quote])
  }

  lemma ValueStartIs(e: Encoding, s: bytes, p: nat, nameEnd: nat, equals: nat, quote: nat)
    requires p <= |s| && NameSpan(e, s, p) == SpanEnd(nameEnd) && nameEnd < |s|
    requires Spaces(e, s, nameEnd, equals) && equals < |s| && e.cls(s[equals]) == BT_EQUALS
    requires Spaces(e, s, equals + 1, quote) && quote < |s| && e.cls(s[quote]) in {BT_QUOT, BT_APOS}
    ensures ValueStart(e, s, p) == Closed(quote)
  {
    SpaceShape(e, s, nameEnd, equals);
    SpaceShape(e, s, equals + 1, quote);
  }

  /** Bytes of that form are read as an attribute. */
  lemma AttIsRead(e: Encoding, s: bytes, a: AttSpan)
    requires AttAt(e, s, a)
    ensures StartsName(e, s, a.name) && AttributeTok(e, s, AfterFirst(e, s, a.name)) == Closed(a.end)
    ensures
      var at := AttributeAt(e, s, a.name);
      at.name == a.name && at.valuePtr == a.quote + 1 && at.valueEnd == a.end
  {
    StartChecks(e, s, a.name);
    NameSpanShape(e, s, AfterFirst(e, s, a.name), a.nameEnd);
    ValueStartIs(e, s, AfterFirst(e, s, a.name), a.nameEnd, a.equals, a.quote);
    ValueShape(e, e.cls(s[a.quote]), s, a.quote + 1, a.end);
  }

  /** An attribute that is read has that form. */
  lemma ReadIsAtt(e: Encoding, s: bytes, p: nat) returns (a: AttSpan)
    requires StartsName(e, s, p) && AttributeTok(e, s, AfterFirst(e, s, p)).Closed?
    ensures AttAt(e, s, a) && a.name == p && AttributeTok(e, s, AfterFirst(e, s, p)) == Closed(a.end)
  {
    var q := AfterFirst(e, s, p);
    var nameEnd := NameSpan(e, s, q).at;
    var equals := SpaceSpan(e, s, nameEnd);
    var quote := SpaceSpan(e, s, equals + 1);
    a := AttSpan(p, nameEnd, equals, quote, AttributeTok(e, s, q).at);
    StartChecks(e, s, p);
    NameSpanShape(e, s, q, nameEnd);
    SpaceShape(e, s, nameEnd, equals);
    SpaceShape(e, s, equals + 1, quote);
    ValueShape(e, e.cls(s[quote]), s, quote + 1, a.end);
  }

  // ---------------------------------------------------------------- tags

  /** White space and an attribute, any number of times, from `p` to `end`. */
  ghost predicate AttsAt(e: Encoding, s: bytes, p: nat, l: seq<AttSpan>, end: nat)
    decreases |l|
  {
    if l == [] then p == end
    else
      && p < l[0].name && Spaces(e, s, p, l[0].name) && AttAt(e, s, l[0])
      && AttsAt(e, s, l[0].end + 1, l[1..], end)
  }

  predicate IsEmptyTag(kind: Kind) {
    kind == EmptyElementNoAtts || kind == EmptyElementWithAtts
  }

  /** White space and ">" or "/>", from `p` to `next`. */
  ghost predicate TagClosesAt(e: Encoding, s: bytes, p: nat, empty: bool, next: nat) {
    if empty then
      && p + 2 <= next <= |s| && Spaces(e, s, p, next - 2)
      && e.cls(s[next - 2]) == BT_SOL && s[next - 1] == 0x3E
    else p + 1 <= next <= |s| && Spaces(e, s, p, next - 1) && e.cls(s[next - 1]) == BT_GT
  }

  /** The kind of a tag with or without attributes, with or without a slash. */
  function TagKind(atts: bool, empty: bool): Kind {
    if empty then if atts then EmptyElementWithAtts else EmptyElementNoAtts
    else if atts then StartTagWithAtts else StartTagNoAtts
  }

  /** "<" name attributes ">" or "/>" */
  ghost predicate StartTagAt(
    e: Encoding, s: bytes, p: nat, nameEnd: nat, l: seq<AttSpan>, end: nat, empty: bool, next: nat)
  {
    && p < |s| && e.cls(s[p]) == BT_LT && NameTo(e, s, p + 1, nameEnd)
    && AttsAt(e, s, nameEnd, l, end) && TagClosesAt(e, s, end, empty, next)
  }

  /** What follows a name or a closing quote in a tag. */
  function RestTok(e: Encoding, atts: bool, s: bytes, p: nat): Lexeme
    requires p < |s|
  {
    if IsSpace(e.cls(s[p])) then GapTok(e, atts, s, SpaceSpan(e, s, p + 1)) else TagEndTok(e, atts, s, p)
  }

  /** The attributes in it. */
  function RestAtts(e: Encoding, atts: bool, s: bytes, p: nat): seq<Attribute>
    requires p < |s| && RestTok(e, atts, s, p).Token?
  {
    if IsSpace(e.cls(s[p])) then GapAtts(e, atts, s, SpaceSpan(e, s, p + 1)) else []
  }

  /** The attributes `r` of the grammar are at the positions `l`. */
  ghost predicate Placed(r: seq<Attribute>, l: seq<AttSpan>) {
    && |r| == |l|
    && forall i :: 0 <= i < |l| ==>
         r[i].name == l[i].name && r[i].valuePtr == l[i].quote + 1 && r[i].valueEnd == l[i].end
  }

  lemma CloseIsRead(e: Encoding, atts: bool, s: bytes, p: nat, empty: bool, next: nat)
    requires TagClosesAt(e, s, p, empty, next)
    ensures p < |s| && RestTok(e, atts, s, p) == Token(TagKind(atts, empty), next) && RestAtts(e, atts, s, p) == []
  {
    var close := if empty then next - 2 else next - 1;
    if p < close {
      SpaceShape(e, s, p + 1, close);
    }
  }

  lemma GapIsName(e: Encoding, s: bytes, p: nat, name: nat)
    requires p < name && Spaces(e, s, p, name) && StartsName(e, s, name)
    ensures IsSpace(e.cls(s[p])) && SpaceSpan(e, s, p + 1) == name
  {
    SpaceShape(e, s, p + 1, name);
  }

  lemma RestIsGap(e: Encoding, atts: bool, s: bytes, p: nat, name: nat)
    requires p < |s| && IsSpace(e.cls(s[p])) && SpaceSpan(e, s, p + 1) == name && name < |s|
    ensures RestTok(e, atts, s, p) == GapTok(e, atts, s, name)
    ensures GapTok(e, atts, s, name).Token? ==> RestAtts(e, atts, s, p) == GapAtts(e, atts, s, name)
  {
  }

  lemma AfterIsRest(e: Encoding, s: bytes, p: nat)
    requires p < |s|
    ensures AfterValueTok(e, s, p) == RestTok(e, true, s, p)
    ensures AfterValueTok(e, s, p).Token? ==> AttsAfter(e, s, p) == RestAtts(e, true, s, p)
  {
  }

  /** The token goes on behind an attribute whose value ends at `end`. */
  lemma FirstAttIsRead(e: Encoding, atts: bool, s: bytes, p: nat, name: nat, end: nat)
    requires p < name && Spaces(e, s, p, name) && StartsName(e, s, name) && end + 1 < |s|
    requires AttributeTok(e, s, AfterFirst(e, s, name)) == Closed(end)
    ensures p < |s| && RestTok(e, atts, s, p) == RestTok(e, true, s, end + 1)
  {
    GapIsName(e, s, p, name);
    RestIsGap(e, atts, s, p, name);
    XmlPrintAtts.GapIsAtts(e, atts, s, name);
    AttsIsAfter(e, s, AfterFirst(e, s, name), end);
    AfterIsRest(e, s, end + 1);
  }

  lemma FirstAttIsListed(e: Encoding, atts: bool, s: bytes, p: nat, name: nat, end: nat)
    requires p < name && Spaces(e, s, p, name) && StartsName(e, s, name) && end + 1 < |s|
    requires AttributeTok(e, s, AfterFirst(e, s, name)) == Closed(end)
    requires p < |s| && RestTok(e, atts, s, p).Token? && RestTok(e, true, s, end + 1).Token?
    ensures RestAtts(e, atts, s, p) == [AttributeAt(e, s, name)] + RestAtts(e, true, s, end + 1)
  {
    GapIsName(e, s, p, name);
    RestIsGap(e, atts, s, p, name);
    GapAttsIsList(e, atts, s, name);
    ListIsAfter(e, s, name, end);
    AfterIsRest(e, s, end + 1);
  }

  lemma FirstIsRead(e: Encoding, atts: bool, s: bytes, p: nat, a: AttSpan, tok: Lexeme)
    requires p < a.name && Spaces(e, s, p, a.name) && AttAt(e, s, a)
    requires a.end + 1 < |s| && RestTok(e, true, s, a.end + 1) == tok
    ensures p < |s| && RestTok(e, atts, s, p) == tok
  {
    AttIsRead(e, s, a);
    FirstAttIsRead(e, atts, s, p, a.name, a.end);
  }

  lemma FirstIsListed(
    e: Encoding, atts: bool, s: bytes, p: nat, a: AttSpan, kind: Kind, next: nat, r: seq<Attribute>, l: seq<AttSpan>)
    requires p < a.name && Spaces(e, s, p, a.name) && AttAt(e, s, a) && l != [] && l[0] == a
    requires p < |s| && RestTok(e, atts, s, p) == Token(kind, next)
    requires a.end + 1 < |s| && RestTok(e, true, s, a.end + 1) == Token(kind, next)
    requires RestAtts(e, true, s, a.end + 1) == r && Placed(r, l[1..])
    ensures Placed(RestAtts(e, atts, s, p), l)
  {
    AttIsRead(e, s, a);
    FirstAttIsListed(e, atts, s, p, a.name, a.end);
    PlacedFirst(AttributeAt(e, s, a.name), r, l);
  }

  /** Attributes and the end of a tag are read as such. */
  lemma {:induction false} AttsAreRead(
    e: Encoding, atts: bool, s: bytes, p: nat, l: seq<AttSpan>, end: nat, empty: bool, next: nat)
    requires AttsAt(e, s, p, l, end) && TagClosesAt(e, s, end, empty, next)
    ensures p < |s| && RestTok(e, atts, s, p) == Token(TagKind(atts || l != [], empty), next)
    decreases |l|
  {
    if l == [] {
      CloseIsRead(e, atts, s, p, empty, next);
    } else {
      AttsAreRead(e, true, s, l[0].end + 1, l[1..], end, empty, next);
      FirstIsRead(e, atts, s, p, l[0], Token(TagKind(true, empty), next));
    }
  }

  lemma {:induction false} AttsAreListed(
    e: Encoding, atts: bool, s: bytes, p: nat, l: seq<AttSpan>, end: nat, empty: bool, next: nat)
    requires AttsAt(e, s, p, l, end) && TagClosesAt(e, s, end, empty, next)
    requires p < |s| && RestTok(e, atts, s, p) == Token(TagKind(atts || l != [], empty), next)
    ensures Placed(RestAtts(e, atts, s, p), l)
    decreases |l|
  {
    if l == [] {
      CloseIsRead(e, atts, s, p, empty, next);
    } else {
      var q := l[0].end + 1;
      AttsAreRead(e, true, s, q, l[1..], end, empty, next);
      AttsAreListed(e, true, s, q, l[1..], end, empty, next);
      FirstIsListed(e, atts, s, p, l[0], TagKind(true, empty), next, RestAtts(e, true, s, q), l);
    }
  }

  lemma PlacedFirst(a: Attribute, r: seq<Attribute>, l: seq<AttSpan>)
    requires l != [] && Placed(r, l[1..])
    requires a.name == l[0].name && a.valuePtr == l[0].quote + 1 && a.valueEnd == l[0].end
    ensures Placed([a] + r, l)
  {
    forall i | 0 <= i < |l|
      ensures
        var b := ([a] + r)[i];
        b.name == l[i].name && b.valuePtr == l[i].quote + 1 && b.valueEnd == l[i].end
    {
      if i > 0 {
        assert l[1..][i - 1] == l[i];
      }
    }
  }

  lemma ReadIsClose(e: Encoding, atts: bool, s: bytes, p: nat)
    requires p < |s| && TagEndTok(e, atts, s, p).Token?
    ensures
      var empty := e.cls(s[p]) == BT_SOL;
      TagClosesAt(e, s, p, empty, TagEndTok(e, atts, s, p).next)
      && TagEndTok(e, atts, s, p).kind == TagKind(atts, empty)
  {
  }

  /** An attribute ends in front of the rest of the tag. */
  lemma AttsEnd(e: Encoding, s: bytes, p: nat) returns (end: nat)
    requires p <= |s| && AttsTok(e, s, p).Token?
    ensures AttributeTok(e, s, p) == Closed(end) && end + 1 < |s|
    ensures RestTok(e, true, s, end + 1) == AttsTok(e, s, p)
  {
    end := AttributeTok(e, s, p).at;
    AttsIsAfter(e, s, p, end);
    AfterIsRest(e, s, end + 1);
  }

  lemma GapToAtts(e: Encoding, atts: bool, s: bytes, p: nat, q: nat)
    requires p < |s| && IsSpace(e.cls(s[p])) && q == SpaceSpan(e, s, p + 1) && StartsName(e, s, q)
    ensures RestTok(e, atts, s, p) == AttsTok(e, s, AfterFirst(e, s, q))
  {
    RestIsGap(e, atts, s, p, q);
    XmlPrintAtts.GapIsAtts(e, atts, s, q);
  }

  /** White space and an attribute that are read. */
  lemma ReadIsFirst(e: Encoding, atts: bool, s: bytes, p: nat) returns (a: AttSpan)
    requires p < |s| && IsSpace(e.cls(s[p])) && StartsName(e, s, SpaceSpan(e, s, p + 1))
    requires RestTok(e, atts, s, p).Token?
    ensures p < a.name && Spaces(e, s, p, a.name) && AttAt(e, s, a) && a.end + 1 < |s|
    ensures RestTok(e, true, s, a.end + 1) == RestTok(e, atts, s, p)
  {
    var q := SpaceSpan(e, s, p + 1);
    SpaceShape(e, s, p + 1, q);
    GapToAtts(e, atts, s, p, q);
    var end := AttsEnd(e, s, AfterFirst(e, s, q));
    a := ReadIsAtt(e, s, q);
  }

  /** White space and the end of a tag that are read. */
  lemma ReadIsLast(e: Encoding, atts: bool, s: bytes, p: nat) returns (empty: bool)
    requires p < |s| && RestTok(e, atts, s, p).Token?
    requires IsSpace(e.cls(s[p])) ==> !StartsName(e, s, SpaceSpan(e, s, p + 1))
    ensures TagClosesAt(e, s, p, empty, RestTok(e, atts, s, p).next)
  {
    var q := if IsSpace(e.cls(s[p])) then SpaceSpan(e, s, p + 1) else p;
    if q > p {
      SpaceShape(e, s, p + 1, q);
    }
    ReadIsClose(e, atts, s, q);
    empty := e.cls(s[q]) == BT_SOL;
  }

  lemma AttsCons(e: Encoding, s: bytes, p: nat, a: AttSpan, l: seq<AttSpan>, end: nat)
    requires p < a.name && Spaces(e, s, p, a.name) && AttAt(e, s, a) && AttsAt(e, s, a.end + 1, l, end)
    ensures AttsAt(e, s, p, [a] + l, end)
  {
    assert ([a] + l)[1..] == l;
  }

  /** What is read has this form. */
  lemma {:induction false} ReadAreAtts(e: Encoding, atts: bool, s: bytes, p: nat, next: nat)
      returns (l: seq<AttSpan>, end: nat, empty: bool)
    requires p < |s| && RestTok(e, atts, s, p).Token? && RestTok(e, atts, s, p).next == next
    ensures AttsAt(e, s, p, l, end) && TagClosesAt(e, s, end, empty, next)
    decreases |s| - p
  {
    if IsSpace(e.cls(s[p])) && StartsName(e, s, SpaceSpan(e, s, p + 1)) {
      var a := ReadIsFirst(e, atts, s, p);
      var rest;
      rest, end, empty := ReadAreAtts(e, true, s, a.end + 1, next);
      AttsCons(e, s, p, a, rest, end);
      l := [a] + rest;
    } else {
      l, end := [], p;
      empty := ReadIsLast(e, atts, s, p);
    }
  }

  lemma TagTokIs(e: Encoding, s: bytes, p: nat, nameEnd: nat)
    requires p < |s| && e.cls(s[p]) == BT_LT && NameTo(e, s, p + 1, nameEnd)
    ensures StartsName(e, s, p + 1) && NameSpan(e, s, AfterFirst(e, s, p + 1)) == SpanEnd(nameEnd)
    ensures TagTok(e, s, AfterFirst(e, s, p + 1)) == RestTok(e, false, s, nameEnd)
  {
    StartChecks(e, s, p + 1);
    NameSpanShape(e, s, AfterFirst(e, s, p + 1), nameEnd);
  }

  /** Bytes of this form are a tag of their kind, with the attributes of the form. */
  lemma TagIsRead(e: Encoding, s: bytes, p: nat, nameEnd: nat, l: seq<AttSpan>, end: nat, empty: bool, next: nat)
    requires StartTagAt(e, s, p, nameEnd, l, end, empty, next)
    ensures ContentTok(e, s, p) == Token(TagKind(l != [], empty), next)
    ensures IsTagAt(e, s, p) && NameEnd(e, s, p) == nameEnd && Placed(TagAtts(e, s, p), l)
  {
    TagTokIs(e, s, p, nameEnd);
    AttsAreRead(e, false, s, nameEnd, l, end, empty, next);
    AttsAreListed(e, false, s, nameEnd, l, end, empty, next);
    TagIsContent(e, s, p);
  }

  lemma ReadIsTag(e: Encoding, s: bytes, p: nat)
      returns (nameEnd: nat, l: seq<AttSpan>, end: nat, empty: bool)
    requires IsTagAt(e, s, p)
    ensures StartTagAt(e, s, p, nameEnd, l, end, empty, ContentTok(e, s, p).next)
  {
    nameEnd := NameEnd(e, s, p);
    StartChecks(e, s, p + 1);
    NameSpanShape(e, s, AfterFirst(e, s, p + 1), nameEnd);
    TagTokIs(e, s, p, nameEnd);
    TagIsContent(e, s, p);
    l, end, empty := ReadAreAtts(e, false, s, nameEnd, ContentTok(e, s, p).next);
  }

  /** contentTok returns a start tag, or an empty-element tag, exactly where one is. */
  lemma StartTagShape(e: Encoding, s: bytes, p: nat, kind: Kind, next: nat)
    requires p <= |s| && IsStartTag(kind)
    ensures
      ContentTok(e, s, p) == Token(kind, next)
      <==> exists nameEnd: nat, l, end: nat, empty ::
             StartTagAt(e, s, p, nameEnd, l, end, empty, next) && kind == TagKind(l != [], empty)
  {
    if ContentTok(e, s, p) == Token(kind, next) {
      TagIsContent(e, s, p);
      var nameEnd, l, end, empty := ReadIsTag(e, s, p);
      TagIsRead(e, s, p, nameEnd, l, end, empty, next);
    }
    forall nameEnd: nat, l, end: nat, empty | StartTagAt(e, s, p, nameEnd, l, end, empty, next)
      ensures ContentTok(e, s, p) == Token(TagKind(l != [], empty), next)
    {
      TagIsRead(e, s, p, nameEnd, l, end, empty, next);
    }
  }

  // ---------------------------------------------------------------- character data

  /** "]]>" at `p`. */
  predicate ClosesAt(e: Encoding, s: bytes, p: nat) {
    p + 2 < |s| && e.cls(s[p]) == BT_RSQB && s[p + 1] == 0x5D && s[p + 2] == 0x3E
  }

  /** "]" or "]]" at the end of the buffer, of which it is not known yet whether it is "]]>". */
  predicate MayClose(e: Encoding, s: bytes, p: nat) {
    p < |s| && e.cls(s[p]) == BT_RSQB && (p + 1 == |s| || (p + 2 == |s| && s[p + 1] == 0x5D))
  }

  /** A character of a run of character data. */
  predicate IsDataAt(e: Encoding, s: bytes, p: nat) {
    && IsCharAt(e, s, p) && e.cls(s[p]) !in {BT_LT, BT_AMP, BT_CR, BT_LF}
    && !ClosesAt(e, s, p) && !MayClose(e, s, p)
  }

  ghost predicate DataChars(e: Encoding, s: bytes, p: nat, end: nat)
    decreases if p < end then end - p else 0
  {
    p == end || (p < end && IsDataAt(e, s, p) && DataChars(e, s, Behind(e, s, p), end))
  }

  lemma {:induction false} DataRunShape(e: Encoding, s: bytes, p: nat, next: nat)
    requires p <= |s|
    ensures
      DataTok(e, s, p) == Token(Kind.DataChars, next)
      <==> next <= |s| && DataChars(e, s, p, next) && !IsDataAt(e, s, next) && !ClosesAt(e, s, next)
    decreases |s| - p
  {
    if p < |s| {
      CharChecks(e, s, p);
      if IsDataAt(e, s, p) {
        DataRunShape(e, s, Behind(e, s, p), next);
      }
    }
  }

  /** A token of character data is as long as it can be, and does not end in front of "]]>". */
  lemma DataShape(e: Encoding, s: bytes, p: nat, next: nat)
    requires p <= |s|
    ensures
      ContentTok(e, s, p) == Token(Kind.DataChars, next)
      <==> p < next <= |s| && DataChars(e, s, p, next) && !IsDataAt(e, s, next) && !ClosesAt(e, s, next)
  {
    if p < |s| {
      CharChecks(e, s, p);
      DataRunShape(e, s, p, next);
    }
  }

  /** A character of a run of data in a CDATA section, behind the first one. */
  predicate IsSectionDataAt(e: Encoding, s: bytes, p: nat) {
    IsCharAt(e, s, p) && e.cls(s[p]) !in {BT_RSQB, BT_CR, BT_LF}
  }

  ghost predicate SectionChars(e: Encoding, s: bytes, p: nat, end: nat)
    decreases if p < end then end - p else 0
  {
    p == end || (p < end && IsSectionDataAt(e, s, p) && SectionChars(e, s, Behind(e, s, p), end))
  }

  lemma {:induction false} SectionRunShape(e: Encoding, s: bytes, p: nat, next: nat)
    requires p <= |s|
    ensures
      CdataDataTok(e, s, p).next == next
      <==> next <= |s| && SectionChars(e, s, p, next) && !IsSectionDataAt(e, s, next)
    decreases |s| - p
  {
    if p < |s| {
      CharChecks(e, s, p);
      if IsSectionDataAt(e, s, p) {
        SectionRunShape(e, s, Behind(e, s, p), next);
      }
    }
  }

  /** The tokens of a CDATA section: "]]>", line ends, and data, which may start with a "]". */
  lemma SectionShape(e: Encoding, s: bytes, p: nat, next: nat)
    requires p <= |s|
    ensures CdataSectionTok(e, s, p) == Token(CdataSectClose, next) <==> ClosesAt(e, s, p) && next == p + 3
    ensures CdataSectionTok(e, s, p) == Token(DataNewline, next) <==> NewlineAt(e, s, p, next)
    ensures
      CdataSectionTok(e, s, p) == Token(Kind.DataChars, next)
      <==> && p < |s| && IsCharAt(e, s, p) && e.cls(s[p]) !in {BT_CR, BT_LF} && !ClosesAt(e, s, p) && !MayClose(e, s, p)
           && next <= |s| && SectionChars(e, s, Behind(e, s, p), next) && !IsSectionDataAt(e, s, next)
  {
    if p < |s| {
      CharChecks(e, s, p);
      if IsCharAt(e, s, p) {
        SectionRunShape(e, s, Behind(e, s, p), next);
      }
    }
  }
}
