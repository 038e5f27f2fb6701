/**
  A namespace declaration that a context does not hand on: built without XML_NS, the
  tokenizer takes a colon for a character of a name, and "xmlns:" declares the prefix
  of the table that has an empty name.
 */
module NsExample {
  import opened Bytes
  import opened XmlTok
  import opened XmlDtd
  import opened XmlAtts
  import opened XmlParse
  import opened XmlPrintTok
  import opened XmlNormal
  import opened XmlPrintAtts
  import opened XmlPrintTags
  import P = XmlPrint
  import N = Namespaces
  import C = NsContext

  const NAME: bytes := [0x78, 0x6D, 0x6C, 0x6E, 0x73, 0x3A]
  const URI: bytes := [0x75]

  /** The tag: an element "a" that declares "xmlns:" to be "u". */
  function Tag(): bytes {
    P.StartTag([0x61], [(NAME, URI)])
  }

  /** The letters of the tag, and the colon as it is without XML_NS. */
  ghost predicate ColonInNames(e: Encoding) {
    Ascii(e) && e.cls(0x3A) == BT_NMSTRT && IsLetter(e, 0x6E) && IsLetter(e, 0x75) && IsLetter(e, 0x78)
  }

  lemma {:induction false} LettersAreName(e: Encoding, name: bytes, i: nat)
    requires i <= |name| && forall k :: 0 <= k < |name| ==> IsLetter(e, name[k])
    ensures NameSpan(e, name, i) == SpanEnd(|name|)
    decreases |name| - i
  {
    if i < |name| {
      LettersAreName(e, name, i + 1);
    }
  }

  lemma ExampleNames(e: Encoding)
    requires ColonInNames(e)
    ensures NameOk(e, [0x61]) && NameOk(e, NAME) && ValueOk(e, URI, 0)
  {
    LettersAreName(e, [0x61], 1);
    LettersAreName(e, NAME, 1);
    assert ValueOk(e, URI, 1);
  }

  lemma ValueStays(e: Encoding)
    requires ColonInNames(e)
    ensures NormalAtts(e, [(NAME, URI)]) == [(NAME, URI)]
  {
    assert Kept(e, URI, 1, true) && URI[0..] == URI;
    KeptSame(e, URI, 0, true, false);
  }

  lemma TagIsThere(e: Encoding) returns (end: nat)
    requires ColonInNames(e)
    ensures TagAt(e, Tag(), 0, [0x61], [(NAME, URI)], false, end) && end + 1 == |Tag()|
    ensures NameOk(e, [0x61]) && AttsOk(e, [(NAME, URI)])
  {
    var w := Tag();
    ExampleNames(e);
    TagTextIs([0x61], [(NAME, URI)], []);
    assert w[0..] == w && w + [] == w;
    var q;
    end, q := TagTextAt(e, w, 0, [0x61], [(NAME, URI)], false, []);
    assert w[q..] == [];
  }

  /** contentTok accepts the tag, and storeAtts finds the attribute. */
  lemma TagIsAccepted(g: Grammar, e: Encoding)
    requires ColonInNames(e) && Defaults(g, [0x61]) == []
    ensures ContentTok(e, Tag(), 0) == Token(StartTagWithAtts, |Tag()|) && IsTagAt(e, Tag(), 0)
    ensures StoreAtts(g, e, [0x61], Tag(), TagAtts(e, Tag(), 0), {}) == Ok([(NAME, URI)])
  {
    var end := TagIsThere(e);
    TagIn(e, Tag(), 0, [0x61], [(NAME, URI)], false, end);
    TagReads(e, Tag(), 0, [0x61], [(NAME, URI)], false, end);
    AttsRestored(g, e, [0x61], Tag(), TagAtts(e, Tag(), 0), [(NAME, URI)], {});
    ValueStays(e);
  }

  /** It declares the prefix with the empty name. */
  lemma DeclaresEmpty()
    ensures N.AttPrefixOf(NAME) == N.Declares(N.Named([]))
  {
    assert NAME[..5] == N.XMLNS && NAME[6..] == [];
  }

  /** In the context this is written like a declaration of the default namespace, and is read as one. */
  lemma EmptyPrefixExample()
    ensures
      var m := map[N.Named([]) := URI];
      var l := C.ContextItems(m, [[]], map[], []);
      && C.Covers(m, [[]], map[], []) && C.CleanTables(m, map[])
      && C.Text(l) == [C.EQUALS] + URI
      && C.Items(C.Text(l), 0, 0, []) == [C.Bind(N.Default, URI)]
      && !C.Restores(C.Items(C.Text(l), 0, 0, []), m, map[], map[])
  {
    var m := map[N.Named([]) := URI];
    var l := C.ContextItems(m, [[]], map[], []);
    assert C.BindItems(m, [[]]) == [C.Bind(N.Named([]), URI)] + C.BindItems(m, [[]][1..]);
    assert l == [C.Bind(N.Named([]), URI)] && l[1..] == [];
    assert C.Text(l) == [] + [C.EQUALS] + URI + C.Separated(l[1..]);
    C.ReadText(l);
    assert C.Taken(l) == [C.Bind(N.Default, URI)] + C.Taken(l[1..]);
    C.ContextRestored(m, [[]], map[], [], map[]);
  }
}
