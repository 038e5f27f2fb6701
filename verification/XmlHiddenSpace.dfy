/**
  A start tag for which the fast path of storeAtts and storeAttributeValue differ:
  a lead byte swallows one of two spaces in a tokenized attribute.
 */
module XmlHiddenSpace {
  import opened Bytes
  import opened Wrappers
  import opened XmlTok
  import opened XmlDtd
  import opened XmlAtts
  import opened XmlAttValue
  import opened XmlAttLaws
  import opened XmlParse
  import opened XmlPrintTok
  import opened XmlPrintAtts
  import opened XmlPrintTags
  import P = XmlPrint

  /** A tag: an element "a" with the attribute "b", whose value is `lead` 20 20 78. */
  function Tag(lead: byte): bytes {
    [0x3C, 0x61, 0x20, 0x62, 0x3D, 0x27, lead, 0x20, 0x20, 0x78, 0x27, 0x3E]
  }

  function Value(lead: byte): bytes {
    [lead, 0x20, 0x20, 0x78]
  }

  ghost predicate IsExample(s: bytes, lead: byte) {
    && |s| == 12 && s[0] == P.LT && s[1] == 0x61 && s[2] == P.SPACE && s[3] == 0x62 && s[4] == P.EQUALS
    && s[5] == P.APOS && s[6] == lead && s[7] == P.SPACE && s[8] == P.SPACE && s[9] == BYTE_X && s[10] == P.APOS
    && s[11] == P.GT
  }

  /**
    An encoding like UTF-8: `lead` starts a character of two or three bytes, and the
    bytes behind it are not checked (xmlnode/xmltok.c:116-123).
   */
  ghost predicate UnchecksTrail(e: Encoding, lead: byte) {
    && Ascii(e) && LiteralBytes(e) && IsLetter(e, 0x62)
    && if e.cls(lead) == BT_LEAD2 then [lead, 0x20] !in e.invalid
       else e.cls(lead) == BT_LEAD3 && [lead, 0x20, 0x20] !in e.invalid
  }

  lemma ExampleNames(e: Encoding, s: bytes, lead: byte)
    requires UnchecksTrail(e, lead) && IsExample(s, lead)
    ensures StartsName(e, s, 1) && AfterFirst(e, s, 1) == 2 && NameSpan(e, s, 2) == SpanEnd(2)
    ensures StartsName(e, s, 3) && AfterFirst(e, s, 3) == 4 && NameSpan(e, s, 4) == SpanEnd(4)
    ensures NameAt(e, s, 3) == [0x62]
  {
  }

  lemma ExampleValue(e: Encoding, s: bytes, lead: byte)
    requires UnchecksTrail(e, lead) && IsExample(s, lead)
    ensures ValueTok(e, BT_APOS, s, 6) == Closed(10)
  {
    assert s[6..8] == [lead, 0x20] && s[6..9] == [lead, 0x20, 0x20];
    assert ValueTok(e, BT_APOS, s, 10) == Closed(10);
    assert ValueTok(e, BT_APOS, s, 9) == Closed(10);
    assert ValueTok(e, BT_APOS, s, 8) == Closed(10);
  }

  lemma ExamplePlain(e: Encoding, s: bytes, lead: byte)
    requires UnchecksTrail(e, lead) && IsExample(s, lead)
    ensures PlainValue(e, BT_APOS, s, 6, 6, 10)
  {
    assert PlainValue(e, BT_APOS, s, 6, 9, 10);
    assert PlainValue(e, BT_APOS, s, 6, 8, 10);
  }

  /** contentTok accepts the tag. */
  lemma ExampleToken(e: Encoding, s: bytes, lead: byte)
    requires UnchecksTrail(e, lead) && IsExample(s, lead)
    ensures IsTagAt(e, s, 0) && ContentTok(e, s, 0) == Token(StartTagWithAtts, 12) && NameEnd(e, s, 0) == 2
    ensures AttributeTok(e, s, 4) == Closed(10) && GapTok(e, false, s, 3) == Token(StartTagWithAtts, 12)
    ensures AfterValueTok(e, s, 11) == Token(StartTagWithAtts, 12) && AttsAfter(e, s, 11) == []
    ensures SpaceSpan(e, s, 3) == 3
  {
    ExampleNames(e, s, lead);
    ExampleValue(e, s, lead);
    NameThenValue(e, s, 4, 4);
    QuotedValue(e, s, 4, 5, 10);
    AfterIsEnd(e, s, 11);
    AttsIsAfter(e, s, 4, 10);
    GapIsAtts(e, false, s, 3);
    NoSpace(e, s, 3);
    TagTokIs(e, s, 2, 2);
    TagIsContent(e, s, 0);
  }

  /**
    The attributes of the grammar, with which getAtts stops in the tag (GetAttsHalts): the
    value counts as normalized.
   */
  lemma ExampleAtts(e: Encoding, s: bytes, lead: byte)
    requires UnchecksTrail(e, lead) && IsExample(s, lead)
    ensures IsTagAt(e, s, 0) && TagAtts(e, s, 0) == [Attribute(3, 6, 10, true)]
  {
    ExampleToken(e, s, lead);
    ExampleNames(e, s, lead);
    NameThenValue(e, s, 4, 4);
    ExamplePlain(e, s, lead);
    AttributeIs(e, s, 3, 5, 10);
    GapAttsIsList(e, false, s, 3);
    ListIsAfter(e, s, 3, 10);
    AttsFromGap(e, s, 2);
  }

  /** storeAtts takes the bytes of the value as they are, for any declared type. */
  lemma ExampleStores(g: Grammar, e: Encoding, s: bytes, lead: byte, open: set<bytes>, isCdata: bool)
    requires UnchecksTrail(e, lead) && IsExample(s, lead)
    requires Defaults(g, [0x61]) == [AttDef([0x62], isCdata, None)]
    ensures StoreAtts(g, e, [0x61], s, [Attribute(3, 6, 10, true)], open) == Ok([([0x62], Value(lead))])
  {
    ExampleNames(e, s, lead);
    var l := [Attribute(3, 6, 10, true)];
    assert s[6..10] == Value(lead);
    assert RawOf(e, s, l[0]) == RawAtt([0x62], Value(lead), true);
    var stored: seq<(bytes, bytes)> := [([0x62], Value(lead))];
    assert [] + stored == stored;
    assert StoreSpecified(g, e, [0x61], s, l, 1, open, stored) == Ok(stored);
    assert StoreSpecified(g, e, [0x61], s, l, 0, open, []) == Ok(stored);
    assert AddDefaults([AttDef([0x62], isCdata, None)], stored) == stored;
  }

  /** The tag is accepted, getAtts marks the value as normalized, and storeAtts stores its four bytes. */
  ghost predicate TakesValue(g: Grammar, e: Encoding, s: bytes, lead: byte, open: set<bytes>, slots: seq<Attribute>) {
    && ContentTok(e, s, 0) == Token(StartTagWithAtts, 12) && IsTagAt(e, s, 0)
    && StopsInside(ScanFrom(e, s, Init(slots), 1), [Attribute(3, 6, 10, true)], 1, 12)
    && s[6..10] == Value(lead) && StoreAtts(g, e, [0x61], s, TagAtts(e, s, 0), open) == Ok([([0x62], Value(lead))])
  }

  lemma ExampleTaken(g: Grammar, e: Encoding, s: bytes, lead: byte, open: set<bytes>, slots: seq<Attribute>)
    requires UnchecksTrail(e, lead) && IsExample(s, lead)
    requires Defaults(g, [0x61]) == [AttDef([0x62], false, None)]
    ensures TakesValue(g, e, s, lead, open, slots)
  {
    ExampleToken(e, s, lead);
    TagIsContent(e, s, 0);
    ExampleAtts(e, s, lead);
    GetAttsHalts(e, s, 0, slots);
    ExampleStores(g, e, s, lead, open, false);
  }

  /**
    With C3 20 20 78, for an element type that declares the attribute as tokenized:
    storeAtts stores the four bytes, and storeAttributeValue would store three.
   */
  lemma HiddenSpaceExample(g: Grammar, e: Encoding, open: set<bytes>, slots: seq<Attribute>)
    requires UnchecksTrail(e, 0xC3) && e.cls(0xC3) == BT_LEAD2
    requires Defaults(g, [0x61]) == [AttDef([0x62], false, None)]
    ensures TakesValue(g, e, Tag(0xC3), 0xC3, open, slots)
    ensures StoreValue(g, e, false, Value(0xC3), open) == Ok([0xC3, 0x20, 0x78])
  {
    var s := Tag(0xC3);
    assert IsExample(s, 0xC3);
    ExampleTaken(g, e, s, 0xC3, open, slots);
    HiddenSpaceValue(g, e, open);
  }

  /**
    With E0 20 20 78 both store the four bytes, with two blanks in a row; and of the
    value E0 20 20 storeAttributeValue leaves a blank at the end.
   */
  lemma HiddenBlanksExample(g: Grammar, e: Encoding, open: set<bytes>, slots: seq<Attribute>)
    requires UnchecksTrail(e, 0xE0) && e.cls(0xE0) == BT_LEAD3
    requires Defaults(g, [0x61]) == [AttDef([0x62], false, None)]
    ensures TakesValue(g, e, Tag(0xE0), 0xE0, open, slots)
    ensures StoreValue(g, e, false, Value(0xE0), open) == Ok(Value(0xE0)) && TwoBlanks(Value(0xE0))
    ensures StoreValue(g, e, false, [0xE0, 0x20, 0x20], open) == Ok([0xE0, 0x20])
  {
    var s := Tag(0xE0);
    assert IsExample(s, 0xE0);
    ExampleTaken(g, e, s, 0xE0, open, slots);
    HiddenBlanksValues(g, e, open);
  }

  lemma HiddenBlanksValues(g: Grammar, e: Encoding, open: set<bytes>)
    requires LiteralBytes(e) && e.cls(0xE0) == BT_LEAD3
    ensures StoreValue(g, e, false, Value(0xE0), open) == Ok(Value(0xE0)) && TwoBlanks(Value(0xE0))
    ensures StoreValue(g, e, false, [0xE0, 0x20, 0x20], open) == Ok([0xE0, 0x20])
  {
    var v := Value(0xE0);
    assert v[1] == BYTE_SPACE && v[2] == BYTE_SPACE;
    RunIsAll(g, e, v, open);
    RunIsAll(g, e, [0xE0, 0x20, 0x20], open);
    assert [0xE0, 0x20, 0x20][..2] == [0xE0, 0x20];
  }

  /** A value that is one run of characters. */
  lemma RunIsAll(g: Grammar, e: Encoding, v: bytes, open: set<bytes>)
    requires LiteralBytes(e) && e.cls(0xE0) == BT_LEAD3 && (v == Value(0xE0) || v == [0xE0, 0x20, 0x20])
    ensures StoreValue(g, e, false, v, open) == Ok(Chop(false, v))
  {
    assert PlainRun(e, v, |v|) == Token(DataChars, |v|);
    assert PlainRun(e, v, 3) == Token(DataChars, |v|);
    assert PlainRun(e, v, 0) == Token(DataChars, |v|);
    assert [] + v[0..|v|] == v;
    assert StepAt(g, e, false, v, 0, open, []) == Added(|v|, v);
    assert StepAt(g, e, false, v, |v|, open, v) == Finished;
    assert AppendValue(g, e, false, v, |v|, open, v) == Ok(v);
    assert AppendValue(g, e, false, v, 0, open, []) == Ok(v);
  }

  // ---------------------------------------------------------------- what storeAtts stores

  /**
    What storeAtts stores for a tokenized attribute of an accepted tag has no blank at
    either end and no two in a row: exactly if no lead byte swallows two blanks and, in
    a value that counts as normalized, none in front of a blank or at the end.
   */
  lemma TokenizedStored(g: Grammar, e: Encoding, elem: bytes, s: bytes, p: nat, open: set<bytes>)
    requires LiteralBytes(g.internal) && LiteralBytes(e)
    requires StartsName(e, s, p) && AttributeTok(e, s, AfterFirst(e, s, p)).Closed?
    requires !IsCdata(Defaults(g, elem), RawOf(e, s, AttributeAt(e, s, p)).name)
    ensures
      var a := RawOf(e, s, AttributeAt(e, s, p));
      var r := ValueOf(g, e, elem, a, open);
      r.Ok? ==>
        (Tight(r.value) <==> !HidesTwo(g, e, a.raw, 0, open) && (a.normalized ==> !HidesSpace(e, a.raw, 0)))
  {
    var at := AttributeAt(e, s, p);
    var a := RawOf(e, s, at);
    TokenizedValue(g, e, a.raw, open);
    if a.normalized {
      NormalizedFastPath(g, e, s, p, open);
      assert a.raw == s[at.valuePtr..at.valueEnd];
      if HidesSpace(e, a.raw, 0) {
        HiddenIsNotTight(e, a.raw, 0);
      }
    }
  }
}
