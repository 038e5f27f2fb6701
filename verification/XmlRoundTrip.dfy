/** What the printer writes, the parser reads: the events of a printed tree are those of the tree. */
module XmlRoundTrip {
  import opened Bytes
  import opened Wrappers
  import opened XmlTok
  import opened XmlTokLaws
  import opened XmlDtd
  import opened XmlAtts
  import opened XmlAttValue
  import opened XmlParse
  import opened XmlTurnLaws
  import opened XmlChunks
  import opened XmlPrintTok
  import opened XmlNormal
  import opened XmlPrintAtts
  import opened XmlPrintTags
  import P = XmlPrint

  // ---------------------------------------------------------------- runs

  /** The final call on a whole document, from `p` on. */
  function Rest(g: Grammar, e: Encoding, w: bytes, st: State, p: nat): Result
    requires p <= |w|
  {
    Run(g, e, 0, st, w, p, {}, true)
  }

  /** From `p` in state `st` the call goes on to `q` in state `st1`, and reports `evs`. */
  ghost predicate Goes(g: Grammar, e: Encoding, w: bytes, st: State, p: nat, st1: State, q: nat, evs: seq<Event>)
    requires p <= |w| && q <= |w|
  {
    Alike(After(evs, Rest(g, e, w, st1, q)), Rest(g, e, w, st, p))
  }

  lemma AlikeSame(r: Result)
    ensures Alike(r, r)
  {
  }

  lemma AlikeBack(r: Result, r1: Result)
    requires Alike(r, r1)
    ensures Alike(r1, r)
  {
  }

  lemma GoesOn(
    g: Grammar, e: Encoding, w: bytes, st: State, p: nat, st1: State, q: nat, a: seq<Event>, st2: State, r: nat,
    b: seq<Event>)
    requires p <= |w| && q <= |w| && r <= |w|
    requires Goes(g, e, w, st, p, st1, q, a) && Goes(g, e, w, st1, q, st2, r, b)
    ensures Goes(g, e, w, st, p, st2, r, a + b)
  {
    var end := Rest(g, e, w, st2, r);
    AfterAfter(a, b, end);
    AfterAlike(a, After(b, end), Rest(g, e, w, st1, q));
    AlikeTrans(After(a + b, end), After(a, Rest(g, e, w, st1, q)), Rest(g, e, w, st, p));
  }

  lemma GoesNowhere(g: Grammar, e: Encoding, w: bytes, st: State, p: nat)
    requires p <= |w|
    ensures Goes(g, e, w, st, p, st, p, [])
  {
    AfterNothing(Rest(g, e, w, st, p));
    AlikeSame(Rest(g, e, w, st, p));
  }

  lemma GoesTurn(g: Grammar, e: Encoding, w: bytes, st: State, p: nat, st1: State, q: nat, evs: seq<Event>)
    requires p <= |w| && TurnAt(g, e, 0, st, w, p, {}, true) == Advance(q, st1, evs)
    ensures p < q <= |w| && Goes(g, e, w, st, p, st1, q, evs)
  {
    RunAdvances(g, e, 0, st, w, p, {}, true, q, st1, evs);
    AlikeSame(Rest(g, e, w, st, p));
  }

  /** The round for a token of content. */
  lemma TokenGoes(g: Grammar, e: Encoding, w: bytes, st: State, p: nat, kind: Kind, q: nat, st1: State, evs: seq<Event>)
    requires p <= |w| && st.mode == InContent && ContentTok(e, w, p) == Token(kind, q)
    requires IsStartTag(kind) ==> IsTagAt(e, w, p)
    requires TokenTurn(g, e, 0, st, w, p, {}, kind, q) == Advance(q, st1, evs)
    ensures p < q <= |w| && Goes(g, e, w, st, p, st1, q, evs)
  {
    ContentTokenTurn(g, e, 0, st, w, p, {}, true, kind, q);
    assert TurnAt(g, e, 0, st, w, p, {}, true) == ContentTurn(g, e, 0, st, w, p, {}, true);
    GoesTurn(g, e, w, st, p, st1, q, evs);
  }

  // ---------------------------------------------------------------- text

  /** A "]" before `p` is no part of "]]>". */
  predicate SafeAt(w: bytes, p: nat) {
    p < |w| && w[p] != P.GT && (w[p] == BYTE_RSQB ==> p + 1 < |w| && w[p + 1] != P.GT)
  }

  lemma {:induction false} PrintedFirst(v: bytes, i: nat, w: bytes, p: nat, end: nat)
    requires PrintedAt(v, i, w, p, end) && i < |v|
    ensures p < |w| && w[p] != P.GT && (P.IsSpecial(v[i]) ==> w[p] == P.AMP)
  {
    if P.IsSpecial(v[i]) {
      assert w[p] == w[p..p + |P.EscapeByte(v[i])|][0];
    }
  }

  /** In printed text there is no ">". */
  lemma PrintedSafe(v: bytes, i: nat, w: bytes, p: nat, end: nat)
    requires PrintedAt(v, i, w, p, end) && SafeAt(w, end)
    ensures SafeAt(w, p)
  {
    PrintedEnd(v, i, w, p, end);
    if i < |v| {
      PrintedFirst(v, i, w, p, end);
      if w[p] == BYTE_RSQB && i + 1 < |v| {
        PrintedFirst(v, i + 1, w, p + 1, end);
      }
    }
  }

  lemma RefIsEntityRef(e: Encoding, w: bytes, p: nat, q: nat)
    requires p < |w| && e.cls(w[p]) == BT_AMP && RefTok(e, w, p + 1) == Token(EntityRef, q)
    ensures ContentTok(e, w, p) == Token(EntityRef, q)
  {
  }

  /** A reference to a predefined entity. */
  lemma RefGoes(g: Grammar, e: Encoding, w: bytes, st: State, p: nat, q: nat, b: byte)
    requires p < q <= |w| && st.mode == InContent && e.cls(w[p]) == BT_AMP
    requires RefTok(e, w, p + 1) == Token(EntityRef, q) && Predefined(RefName(w, p, q)) == Some(b)
    ensures Goes(g, e, w, st, p, st, q, [Characters([b])])
  {
    RefIsEntityRef(e, w, p, q);
    assert EntityTurn(g, st, RefName(w, p, q), q, {}) == Advance(q, st, [Characters([b])]);
    TokenGoes(g, e, w, st, p, EntityRef, q, st, [Characters([b])]);
  }

  /** A line end is reported as a line feed. */
  lemma NewlineGoes(g: Grammar, e: Encoding, w: bytes, st: State, p: nat, q: nat)
    requires p + 1 < |w| && p < q <= |w| && st.mode == InContent && ContentTok(e, w, p) == Token(DataNewline, q)
    ensures Goes(g, e, w, st, p, st, q, [Characters(NEWLINE)])
  {
    assert PlainTurn(st, w, p, DataNewline, q) == Advance(q, st, [Characters(NEWLINE)]);
    TokenGoes(g, e, w, st, p, DataNewline, q, st, [Characters(NEWLINE)]);
  }

  lemma LineEndTok(e: Encoding, w: bytes, p: nat)
    requires p + 1 < |w| && (e.cls(w[p]) == BT_LF || (e.cls(w[p]) == BT_CR && e.cls(w[p + 1]) != BT_LF))
    ensures ContentTok(e, w, p) == Token(DataNewline, p + 1)
  {
  }

  /** A carriage return in front of a line feed is passed over. */
  lemma CrGoes(g: Grammar, e: Encoding, w: bytes, st: State, p: nat)
    requires p + 2 < |w| && st.mode == InContent && e.cls(w[p]) == BT_CR && e.cls(w[p + 1]) == BT_LF
    ensures Goes(g, e, w, st, p, st, p + 1, [])
  {
    assert ContentTok(e, w, p) == Token(DataNewline, p + 2);
    NewlineGoes(g, e, w, st, p, p + 2);
    LineEndTok(e, w, p + 1);
    NewlineGoes(g, e, w, st, p + 1, p + 2);
    var x := After([Characters(NEWLINE)], Rest(g, e, w, st, p + 2));
    AfterNothing(Rest(g, e, w, st, p + 1));
    AlikeBack(x, Rest(g, e, w, st, p + 1));
    AlikeTrans(Rest(g, e, w, st, p + 1), x, Rest(g, e, w, st, p));
  }

  lemma LineEndGoes(g: Grammar, e: Encoding, d: bytes, i: nat, w: bytes, st: State, p: nat, lf: bool)
    requires i < |d| && !P.IsSpecial(d[i]) && (e.cls(d[i]) == BT_LF || e.cls(d[i]) == BT_CR)
    requires p + 2 < |w| && w[p] == d[i] && st.mode == InContent
    requires LfAt(e, w, p + 1, false) <==> LfAt(e, d, i + 1, lf)
    ensures Goes(g, e, w, st, p, st, p + 1, TextEvents(NormalChar(e, d, i, false, lf)))
  {
    if e.cls(d[i]) == BT_CR && LfAt(e, d, i + 1, lf) {
      CrGoes(g, e, w, st, p);
    } else {
      LineEndTok(e, w, p);
      NewlineGoes(g, e, w, st, p, p + 1);
    }
  }

  /** A character that is neither markup nor a line end is data, and the data may go on behind it. */
  lemma DataIn(e: Encoding, d: bytes, i: nat, w: bytes, p: nat, q: nat)
    requires i < |d| && !P.IsSpecial(d[i]) && TextOk(e, d, i) && e.cls(d[i]) != BT_LF && e.cls(d[i]) != BT_CR
    requires CharAt(e, d, i, w, p, q) && SafeAt(w, q)
    ensures ContentTok(e, w, p) == DataTok(e, w, q)
  {
    OtherChar(e, d, i, w, p, q);
  }

  lemma DataGoes(g: Grammar, e: Encoding, w: bytes, st: State, p: nat, q: nat)
    requires p < q <= |w| && st.mode == InContent && ContentTok(e, w, p) == DataTok(e, w, q)
    ensures Goes(g, e, w, st, p, st, q, [Characters(w[p..q])])
  {
    ContentDataJoins(g, e, 0, st, w, p, q, {}, true);
  }

  /** The events for the text `d`. */
  function TextEvents(d: bytes): seq<Event> {
    if d == [] then [] else [Characters(d)]
  }

  /** A character of printed text. */
  lemma CharGoes(g: Grammar, e: Encoding, d: bytes, i: nat, w: bytes, st: State, p: nat, q: nat, lf: bool)
    requires Ascii(e) && i < |d| && TextOk(e, d, i) && CharAt(e, d, i, w, p, q) && st.mode == InContent
    requires SafeAt(w, q) && q + 1 < |w| && (LfAt(e, w, q, false) <==> LfAt(e, d, CharEnd(e, d, i), lf))
    ensures Goes(g, e, w, st, p, st, q, TextEvents(NormalChar(e, d, i, false, lf)))
  {
    if P.IsSpecial(d[i]) {
      SpecialChar(e, d, i, w, p, q);
      RefGoes(g, e, w, st, p, q, d[i]);
    } else if e.cls(d[i]) == BT_LF || e.cls(d[i]) == BT_CR {
      OtherChar(e, d, i, w, p, q);
      LineEndGoes(g, e, d, i, w, st, p, lf);
    } else {
      DataIn(e, d, i, w, p, q);
      DataGoes(g, e, w, st, p, q);
    }
  }

  /** Two pieces of text are the same as one. */
  lemma TextsGo(g: Grammar, e: Encoding, w: bytes, st: State, p: nat, q: nat, r: nat, x: bytes, y: bytes)
    requires p <= |w| && q <= |w| && r <= |w|
    requires Goes(g, e, w, st, p, st, q, TextEvents(x)) && Goes(g, e, w, st, q, st, r, TextEvents(y))
    ensures Goes(g, e, w, st, p, st, r, TextEvents(x + y))
  {
    GoesOn(g, e, w, st, p, st, q, TextEvents(x), st, r, TextEvents(y));
    var end := Rest(g, e, w, st, r);
    if x == [] {
      assert x + y == y && [] + TextEvents(y) == TextEvents(y);
    } else if y == [] {
      assert x + y == x && [Characters(x)] + [] == [Characters(x)];
    } else {
      AfterAfter([Characters(x)], [Characters(y)], end);
      AfterJoin(x, y, end);
      AlikeBack(After([Characters(x)], After([Characters(y)], end)), After([Characters(x + y)], end));
      AlikeTrans(After([Characters(x + y)], end), After([Characters(x)] + [Characters(y)], end), Rest(g, e, w, st, p));
    }
  }

  /** Printed text is reported with its line ends normalized. */
  lemma {:induction false} TextGoes(g: Grammar, e: Encoding, d: bytes, i: nat, w: bytes, st: State, p: nat, end: nat)
    requires Ascii(e) && i <= |d| && TextOk(e, d, i) && PrintedAt(d, i, w, p, end) && st.mode == InContent
    requires SafeAt(w, end) && end + 1 < |w|
    ensures p <= |w| && Goes(g, e, w, st, p, st, end, TextEvents(Normal(e, d, i, false, LfAt(e, w, end, false))))
    decreases |d| - i
  {
    PrintedEnd(d, i, w, p, end);
    if i == |d| {
      GoesNowhere(g, e, w, st, p);
    } else {
      var j, q := CharIn(e, d, i, w, p, end);
      TextOkNext(e, d, i);
      TextGoes(g, e, d, j, w, st, q, end);
      CharThenText(g, e, d, i, j, w, st, p, q, end);
    }
  }

  lemma CharThenText(g: Grammar, e: Encoding, d: bytes, i: nat, j: nat, w: bytes, st: State, p: nat, q: nat, end: nat)
    requires Ascii(e) && i < |d| && TextOk(e, d, i) && j == CharEnd(e, d, i) && j <= |d| && CharAt(e, d, i, w, p, q)
    requires PrintedAt(d, j, w, q, end) && q <= end && end + 1 < |w| && st.mode == InContent && SafeAt(w, end)
    requires Goes(g, e, w, st, q, st, end, TextEvents(Normal(e, d, j, false, LfAt(e, w, end, false))))
    ensures Goes(g, e, w, st, p, st, end, TextEvents(Normal(e, d, i, false, LfAt(e, w, end, false))))
  {
    var lf := LfAt(e, w, end, false);
    PrintedSafe(d, j, w, q, end);
    LfIn(e, d, j, w, q, end, lf);
    CharGoes(g, e, d, i, w, st, p, q, lf);
    TextsGo(g, e, w, st, p, q, end, NormalChar(e, d, i, false, lf), Normal(e, d, j, false, lf));
  }

  lemma TextOkNext(e: Encoding, d: bytes, i: nat)
    requires i < |d| && TextOk(e, d, i)
    ensures P.IsSpecial(d[i]) || CharOk(e, d, i, CharLen(e, d[i]))
    ensures CharEnd(e, d, i) <= |d| && TextOk(e, d, CharEnd(e, d, i))
  {
  }

  // ---------------------------------------------------------------- tags

  /** The round for a printed start tag, or empty-element tag, that ends before `q`. */
  lemma TagGoes(
    g: Grammar, e: Encoding, w: bytes, st: State, p: nat, name: bytes, atts: seq<P.Att>, empty: bool, end: nat, q: nat)
    requires Ascii(e) && NameOk(e, name) && AttsOk(e, atts) && DistinctNames(atts) && Defaults(g, name) == []
    requires TagAt(e, w, p, name, atts, empty, end) && q == end + |EndText(empty)| && st.mode == InContent
    ensures p <= |w| && q <= |w|
    ensures
      var start := StartElement(name, NormalAtts(e, atts));
      if empty then Goes(g, e, w, st, p, AfterElement(st.tags), q, [start, EndElement(name)])
      else Goes(g, e, w, st, p, State(InContent, [name] + st.tags), q, [start])
  {
    var kind := EndKind(atts != [], empty);
    TagIn(e, w, p, name, atts, empty, end);
    TagTurnIs(g, e, w, st, p, name, atts, empty, end, kind, q);
    var t := ElementTurn(st, name, Ok(NormalAtts(e, atts)), kind, q);
    StartTagTurn(g, e, w, st, p, kind, q);
    TokenGoes(g, e, w, st, p, kind, q, t.st, t.evs);
  }

  lemma StartTagTurn(g: Grammar, e: Encoding, w: bytes, st: State, p: nat, kind: Kind, q: nat)
    requires IsStartTag(kind) && IsTagAt(e, w, p) && p < q <= |w|
    ensures TokenTurn(g, e, 0, st, w, p, {}, kind, q) == TagTurn(g, e, st, w, p, {}, kind, q)
  {
  }

  lemma TagTurnIs(
    g: Grammar, e: Encoding, w: bytes, st: State, p: nat, name: bytes, atts: seq<P.Att>, empty: bool, end: nat,
    kind: Kind, q: nat)
    requires Ascii(e) && NameOk(e, name) && AttsOk(e, atts) && DistinctNames(atts) && Defaults(g, name) == []
    requires TagAt(e, w, p, name, atts, empty, end)
    requires IsTagAt(e, w, p) && NameEnd(e, w, p) == p + 1 + |name| && w[p + 1..p + 1 + |name|] == name
    ensures TagTurn(g, e, st, w, p, {}, kind, q) == ElementTurn(st, name, Ok(NormalAtts(e, atts)), kind, q)
  {
    TagStores(g, e, w, p, name, atts, empty, end);
    StoredTurn(g, e, w, st, p, name, Ok(NormalAtts(e, atts)), kind, q);
  }

  lemma TagStores(
    g: Grammar, e: Encoding, w: bytes, p: nat, name: bytes, atts: seq<P.Att>, empty: bool, end: nat)
    requires Ascii(e) && NameOk(e, name) && AttsOk(e, atts) && DistinctNames(atts) && Defaults(g, name) == []
    requires TagAt(e, w, p, name, atts, empty, end) && IsTagAt(e, w, p) && NameEnd(e, w, p) == p + 1 + |name|
    ensures StoreAtts(g, e, name, w, TagAtts(e, w, p), {}) == Ok(NormalAtts(e, atts))
  {
    TagReads(e, w, p, name, atts, empty, end);
    AttsRestored(g, e, name, w, TagAtts(e, w, p), atts, {});
  }

  lemma StoredTurn(
    g: Grammar, e: Encoding, w: bytes, st: State, p: nat, name: bytes, stored: Outcome<seq<(bytes, bytes)>>,
    kind: Kind, q: nat)
    requires IsTagAt(e, w, p) && w[p + 1..NameEnd(e, w, p)] == name
    requires StoreAtts(g, e, name, w, TagAtts(e, w, p), {}) == stored
    ensures TagTurn(g, e, st, w, p, {}, kind, q) == ElementTurn(st, name, stored, kind, q)
  {
  }

  /** The round for a printed end tag. */
  lemma EndTagGoes(g: Grammar, e: Encoding, w: bytes, p: nat, name: bytes, tags: seq<bytes>, k: bytes) returns (q: nat)
    requires Ascii(e) && NameOk(e, name) && p <= |w| && w[p..] == EndTagText(name, k)
    ensures q <= |w| && w[q..] == k
    ensures Goes(g, e, w, State(InContent, [name] + tags), p, AfterElement(tags), q, [EndElement(name)])
  {
    q := EndTagIn(e, w, p, name, k);
    var st := State(InContent, [name] + tags);
    assert st.tags[1..] == tags;
    assert EndTagTurn(e, 0, st, w, p, q) == Advance(q, AfterElement(tags), [EndElement(name)]);
    TokenGoes(g, e, w, st, p, EndTag, q, AfterElement(tags), [EndElement(name)]);
  }

  // ---------------------------------------------------------------- trees

  /** A tree that can be printed: proper names, different attributes, and well-formed text. */
  predicate TreeOk(e: Encoding, t: P.Tree)
    decreases t
  {
    match t
    case Elem(name, atts, kids) => NameOk(e, name) && AttsOk(e, atts) && DistinctNames(atts) && TreesOk(e, kids)
    case Text(data) => TextOk(e, P.CString(data), 0)
  }

  predicate TreesOk(e: Encoding, l: P.Trees)
    decreases l
  {
    match l
    case None => true
    case Some(head, tail) => TreeOk(e, head) && TreesOk(e, tail)
  }

  /** The events of a tree. */
  function Events(t: P.Tree): seq<Event>
    decreases t
  {
    match t
    case Elem(name, atts, kids) => [StartElement(name, atts)] + AllEvents(kids) + [EndElement(name)]
    case Text(data) => TextEvents(P.CString(data))
  }

  function AllEvents(l: P.Trees): seq<Event>
    decreases l
  {
    match l
    case None => []
    case Some(head, tail) => Events(head) + AllEvents(tail)
  }

  /** The text that is printed for these siblings starts with a line feed. */
  predicate LfFirst(e: Encoding, l: P.Trees) {
    && l.Some? && l.head.Text?
    && if P.CString(l.head.data) == [] then LfFirst(e, l.tail) else e.cls(P.CString(l.head.data)[0]) == BT_LF
  }

  /** What is reported for a printed tree: its values and text are normalized; `lf` says that a line feed follows. */
  function Received(e: Encoding, t: P.Tree, lf: bool): seq<Event>
    decreases t
  {
    match t
    case Elem(name, atts, kids) =>
      [StartElement(name, NormalAtts(e, atts))] + AllReceived(e, kids) + [EndElement(name)]
    case Text(data) => TextEvents(Normal(e, P.CString(data), 0, false, lf))
  }

  function AllReceived(e: Encoding, l: P.Trees): seq<Event>
    decreases l
  {
    match l
    case None => []
    case Some(head, tail) => Received(e, head, LfFirst(e, tail)) + AllReceived(e, tail)
  }

  /** No element has declared attributes. */
  predicate NoDefaults(g: Grammar) {
    g.dtd.attDefs == map[]
  }

  lemma PrintElem(t: P.Tree, k: bytes)
    requires t.Elem?
    ensures
      P.Print(t) + k
      == if t.kids.None? then TagText(t.name, t.atts, true, k)
         else TagText(t.name, t.atts, false, P.PrintAll(t.kids) + EndTagText(t.name, k))
  {
    TagTextIs(t.name, t.atts, k);
    if t.kids.Some? {
      var a, b, c := P.StartTag(t.name, t.atts), P.PrintAll(t.kids), P.EndTag(t.name);
      assert a + b + c + k == a + (b + (c + k));
      EndTagTextIs(t.name, k);
      TagTextIs(t.name, t.atts, b + EndTagText(t.name, k));
    }
  }

  lemma PrintFirst(t: P.Tree, tail: P.Trees, k: bytes)
    ensures P.PrintAll(P.Some(t, tail)) + k == P.Print(t) + (P.PrintAll(tail) + k)
  {
    assert P.Print(t) + P.PrintAll(tail) + k == P.Print(t) + (P.PrintAll(tail) + k);
  }

  /** What is in front of a tag, or starts it, is no "]]>", and no line feed. */
  lemma LtIsSafe(e: Encoding, w: bytes, p: nat, x: bytes)
    requires Ascii(e) && p <= |w| && w[p..] == x && x != [] && x[0] == P.LT
    ensures SafeAt(w, p) && !LfAt(e, w, p, false)
  {
    assert w[p] == w[p..][0];
  }

  /** Printed text, at `p..end`. */
  lemma TextAt(d: bytes, w: bytes, p: nat, k: bytes) returns (end: nat)
    requires p <= |w| && w[p..] == P.Escape(d) + k
    ensures PrintedAt(d, 0, w, p, end) && end <= |w| && w[end..] == k
  {
    assert d[0..] == d;
    EscapeIsPrinted(d, 0, w, p, k);
    P.PartsAt(P.Escape(d), k, w, p);
    end := p + |P.Escape(d)|;
  }

  /** Where a list of trees is printed, and then a tag, no "]]>" ends. */
  lemma {:induction false} ListSafe(e: Encoding, l: P.Trees, w: bytes, p: nat, k: bytes)
    requires Ascii(e) && p <= |w| && w[p..] == P.PrintAll(l) + k && |k| > 1 && k[0] == P.LT
    ensures SafeAt(w, p) && p + 1 < |w| && (LfAt(e, w, p, false) <==> LfFirst(e, l))
    decreases l, 1
  {
    match l {
      case None =>
        assert w[p..] == k;
        LtIsSafe(e, w, p, k);
      case Some(head, tail) =>
        PrintFirst(head, tail, k);
        if head.Text? {
          TextSafe(e, l, w, p, k);
        } else {
          PrintElem(head, P.PrintAll(tail) + k);
          LtIsSafe(e, w, p, w[p..]);
        }
    }
  }

  lemma TextSafe(e: Encoding, l: P.Trees, w: bytes, p: nat, k: bytes)
    requires Ascii(e) && l.Some? && l.head.Text? && |k| > 1 && k[0] == P.LT
    requires p <= |w| && w[p..] == P.Escape(P.CString(l.head.data)) + (P.PrintAll(l.tail) + k)
    ensures SafeAt(w, p) && p + 1 < |w| && (LfAt(e, w, p, false) <==> LfFirst(e, l))
    decreases l, 0
  {
    var d := P.CString(l.head.data);
    var end := TextAt(d, w, p, P.PrintAll(l.tail) + k);
    ListSafe(e, l.tail, w, end, k);
    PrintedSafe(d, 0, w, p, end);
    PrintedEnd(d, 0, w, p, end);
    LfIn(e, d, 0, w, p, end, LfAt(e, w, end, false));
  }

  /** An element, with `k` behind it. */
  lemma {:induction false} ElemGoes(g: Grammar, e: Encoding, t: P.Tree, w: bytes, p: nat, k: bytes, tags: seq<bytes>)
      returns (q: nat)
    requires Ascii(e) && NoDefaults(g) && t.Elem? && TreeOk(e, t) && p <= |w| && w[p..] == P.Print(t) + k
    ensures q <= |w| && w[q..] == k
    ensures Goes(g, e, w, State(InContent, tags), p, AfterElement(tags), q, Received(e, t, false))
    decreases t
  {
    var name, atts, st := t.name, t.atts, State(InContent, tags);
    var start := StartElement(name, NormalAtts(e, atts));
    var end;
    PrintElem(t, k);
    if t.kids.None? {
      end, q := TagTextAt(e, w, p, name, atts, true, k);
      TagGoes(g, e, w, st, p, name, atts, true, end, q);
      assert Received(e, t, false) == [start, EndElement(name)];
    } else {
      var inner := State(InContent, [name] + tags);
      var n, m;
      end, n := TagTextAt(e, w, p, name, atts, false, P.PrintAll(t.kids) + EndTagText(name, k));
      TagGoes(g, e, w, st, p, name, atts, false, end, n);
      m := KidsGo(g, e, t.kids, w, n, EndTagText(name, k), [name] + tags);
      q := EndTagGoes(g, e, w, m, name, tags, k);
      GoesOn(g, e, w, st, p, inner, n, [start], inner, m, AllReceived(e, t.kids));
      GoesOn(g, e, w, st, p, inner, m, [start] + AllReceived(e, t.kids), AfterElement(tags), q, [EndElement(name)]);
    }
  }

  /** Children, with an end tag behind them. */
  lemma {:induction false} KidsGo(g: Grammar, e: Encoding, l: P.Trees, w: bytes, p: nat, k: bytes, tags: seq<bytes>)
      returns (q: nat)
    requires Ascii(e) && NoDefaults(g) && TreesOk(e, l) && tags != []
    requires p <= |w| && w[p..] == P.PrintAll(l) + k && |k| > 1 && k[0] == P.LT
    ensures q <= |w| && w[q..] == k
    ensures Goes(g, e, w, State(InContent, tags), p, State(InContent, tags), q, AllReceived(e, l))
    decreases l
  {
    var st := State(InContent, tags);
    match l {
      case None =>
        q := p;
        GoesNowhere(g, e, w, st, p);
        assert [] + k == k;
      case Some(head, tail) =>
        var rest := P.PrintAll(tail) + k;
        var m;
        PrintFirst(head, tail, k);
        if head.Elem? {
          m := ElemGoes(g, e, head, w, p, rest, tags);
        } else {
          m := DataGo(g, e, head.data, w, p, tail, k, tags);
        }
        q := KidsGo(g, e, tail, w, m, k, tags);
        GoesOn(g, e, w, st, p, st, m, Received(e, head, LfFirst(e, tail)), st, q, AllReceived(e, tail));
    }
  }

  /** Text, with its siblings and an end tag behind it. */
  lemma DataGo(g: Grammar, e: Encoding, data: bytes, w: bytes, p: nat, tail: P.Trees, k: bytes, tags: seq<bytes>)
      returns (m: nat)
    requires Ascii(e) && TextOk(e, P.CString(data), 0) && |k| > 1 && k[0] == P.LT
    requires p <= |w| && w[p..] == P.Escape(P.CString(data)) + (P.PrintAll(tail) + k)
    ensures m <= |w| && w[m..] == P.PrintAll(tail) + k
    ensures
      var lf := LfFirst(e, tail);
      Goes(g, e, w, State(InContent, tags), p, State(InContent, tags), m, Received(e, P.Text(data), lf))
  {
    var d := P.CString(data);
    m := TextAt(d, w, p, P.PrintAll(tail) + k);
    ListSafe(e, tail, w, m, k);
    TextGoes(g, e, d, 0, w, State(InContent, tags), p, m);
  }

  // ---------------------------------------------------------------- documents

  lemma EpilogEnds(g: Grammar, e: Encoding, w: bytes)
    ensures Rest(g, e, w, State(InEpilog, []), |w|) == Done(State(InEpilog, []), [])
  {
    var st := State(InEpilog, []);
    assert TurnAt(g, e, 0, st, w, |w|, {}, true) == Finish([]);
    assert Rest(g, e, w, st, |w|) == Continue(g, e, 0, st, w, |w|, {}, true, Finish([]));
  }

  /** A printed tree, parsed as a whole document. */
  lemma PrintedRuns(g: Grammar, t: P.Tree)
    requires Ascii(g.doc) && NoDefaults(g) && t.Elem? && TreeOk(g.doc, t)
    ensures
      Alike(Done(State(InEpilog, []), Received(g.doc, t, false)), Feed(g, State(InContent, []), [], P.Print(t), true))
  {
    var w := P.Print(t);
    assert [] + w == w && w[0..] == w + [];
    var q := ElemGoes(g, g.doc, t, w, 0, [], []);
    EpilogEnds(g, g.doc, w);
    assert Received(g.doc, t, false) + [] == Received(g.doc, t, false);
  }

  /**
    A printed tree that is cut into chunks in any way is accepted, and the events
    that are reported are those of the tree with its values and text normalized.
   */
  lemma PrintedParses(g: Grammar, t: P.Tree, chunks: seq<bytes>, last: bytes)
    requires Ascii(g.doc) && NoDefaults(g) && t.Elem? && TreeOk(g.doc, t)
    requires Joined(chunks) + last == P.Print(t)
    ensures
      var st := State(InContent, []);
      Alike(Done(State(InEpilog, []), Received(g.doc, t, false)), ParseAll(g, st, [], chunks, last))
  {
    PrintedRuns(g, t);
    ChunkIndependence(g, State(InContent, []), [], chunks, last);
    var whole := Feed(g, State(InContent, []), [], P.Print(t), true);
    var cut := ParseAll(g, State(InContent, []), [], chunks, last);
    AlikeBack(cut, whole);
    AlikeTrans(Done(State(InEpilog, []), Received(g.doc, t, false)), whole, cut);
  }
}
