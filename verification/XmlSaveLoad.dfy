/** A tree of linked nodes is printed, and the text is parsed: xmlnode2str, and the call of XML_Parse in xmlnode_str. */
module XmlSaveLoad {
  import opened Bytes
  import opened Wrappers
  import opened XmlTok
  import opened XmlDtd
  import opened XmlParse
  import opened XmlNesting
  import opened XmlChunks
  import opened XmlParser
  import XmlPrintTok
  import XmlRestored
  import R = XmlRoundTrip
  import P = XmlPrint
  import T = XmlTree
  import N = XmlTreeState

  lemma NameStarts(e: Encoding, name: bytes)
    requires XmlPrintTok.NameOk(e, name)
    ensures name != [] && StartsInstance(e.cls(name[0]))
  {
  }

  lemma PrintedLt(t: P.Tree) returns (rest: bytes)
    requires t.Elem?
    ensures P.Print(t) == [P.LT] + (t.name + rest)
  {
    R.PrintElem(t, []);
    assert P.Print(t) + [] == P.Print(t);
    rest := P.Print(t)[1 + |t.name|..];
  }

  lemma FirstBytes(w: bytes, name: bytes, rest: bytes)
    requires w == [P.LT] + (name + rest) && name != []
    ensures |w| > 1 && w[0] == P.LT && w[1] == name[0]
  {
  }

  /** A printed element starts the document. */
  lemma PrintedStarts(e: Encoding, t: P.Tree)
    requires XmlPrintTok.Ascii(e) && t.Elem? && XmlPrintTok.NameOk(e, t.name)
    ensures P.Print(t) != [] && Ready(e, 0, State(InContent, []), P.Print(t), 0)
  {
    var rest := PrintedLt(t);
    NameStarts(e, t.name);
    FirstBytes(P.Print(t), t.name, rest);
  }

  lemma Loaded(e: Encoding, t: P.Tree, r: Result, st: State, events: seq<Event>, error: Option<XmlError>)
    requires Alike(Done(State(InEpilog, []), R.Received(e, t, false)), r)
    requires Reported(r, [], st, events, error, if r.Paused? then r.rest else 0)
    ensures error == None && st == State(InEpilog, []) && Merge(events) == Merge(R.Received(e, t, false))
  {
    assert [] + r.evs == r.evs;
  }

  /** The call of XML_Parse for the text of a tree. */
  method Load(parser: Parser, text: bytes, ghost t: P.Tree) returns (error: Option<XmlError>)
    requires text == P.Print(t) && t.Elem? && R.TreeOk(parser.g.doc, t)
    requires XmlPrintTok.Ascii(parser.g.doc) && R.NoDefaults(parser.g)
    requires parser.Valid() && parser.processor == InContent && parser.tagStack == [] && parser.Pending() == []
    requires parser.events == []
    modifies parser, parser.buffer, parser.atts
    ensures error == None && State(parser.processor, parser.tagStack) == State(InEpilog, [])
    ensures Merge(parser.events) == Merge(R.Received(parser.g.doc, t, false))
  {
    PrintedStarts(parser.g.doc, t);
    R.PrintedRuns(parser.g, t);
    assert [] + text == text;
    error := parser.Parse(text, true);
    Loaded(parser.g.doc, t, Feed(parser.g, State(InContent, []), [], text, true),
           State(parser.processor, parser.tagStack), parser.events, error);
  }

  lemma MergedPrinted(l: T.Shape)
    requires l.Elem? && l.tail.None?
    ensures P.PrintAll(T.Until(T.Value(T.Merged(l, true)))) == P.Print(T.Value(T.Merged(l, true)).head)
  {
    var t := T.Value(T.Merged(l, true)).head;
    assert T.Until(T.Value(T.Merged(l, true))) == P.Some(t, P.None);
    assert P.Print(t) + [] == P.Print(t);
  }

  /**
    The parser reports the merged tree, however its text was cut into pieces before, and
    that is the tree as it was exactly if no text is lost behind a NUL and no white space
    of values or line end of text is changed.
   */
  method SaveAndLoad(nodes: N.Nodes, root: T.Ptr, ghost l: T.Shape, parser: Parser) returns (error: Option<XmlError>)
    requires T.ListOf(nodes.nodes, l, T.NULL, T.NULL) && l.Elem? && l.at == root && l.tail.None?
    requires XmlPrintTok.Ascii(parser.g.doc) && R.NoDefaults(parser.g)
    requires R.TreeOk(parser.g.doc, T.Value(T.Merged(l, true)).head)
    requires parser.Valid() && parser.processor == InContent && parser.tagStack == [] && parser.Pending() == []
    requires parser.events == []
    modifies nodes`nodes, parser, parser.buffer, parser.atts
    ensures error == None && State(parser.processor, parser.tagStack) == State(InEpilog, [])
    ensures
      var t := T.Value(T.Merged(l, true)).head;
      && Merge(parser.events) == Merge(R.Received(parser.g.doc, t, false))
      && (Merge(parser.events) == Merge(R.Events(T.Value(l).head))
          <==> T.AllSeen(l) && XmlRestored.TreeKept(parser.g.doc, t))
    ensures T.ListOf(nodes.nodes, T.Merged(l, true), T.NULL, T.NULL)
  {
    var text := nodes.NodeToString(root, l, T.NULL, T.NULL);
    MergedPrinted(l);
    error := Load(parser, text.value, T.Value(T.Merged(l, true)).head);
    XmlRestored.MergedExactly(parser.g.doc, l);
  }
}
