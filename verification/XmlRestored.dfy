/**
  Which trees come back: a printed tree is reported as it was exactly if its values
  have no white space but blanks, and its text no line ends but line feeds; merging
  text on the way loses what is behind a NUL, and nothing else.
 */
module XmlRestored {
  import opened Bytes
  import opened XmlTok
  import opened XmlDtd
  import opened XmlParse
  import opened XmlChunks
  import opened XmlPrintTok
  import opened XmlPrintAtts
  import opened XmlNormal
  import opened XmlRoundTrip
  import P = XmlPrint
  import T = XmlTree

  // ---------------------------------------------------------------- the condition

  /** No value is changed. */
  predicate AttsKept(e: Encoding, l: seq<P.Att>) {
    l != [] ==> Kept(e, l[0].1, 0, true) && AttsKept(e, l[1..])
  }

  predicate TreeKept(e: Encoding, t: P.Tree)
    decreases t
  {
    match t
    case Elem(_, atts, kids) => AttsKept(e, atts) && TreesKept(e, kids)
    case Text(data) => Kept(e, P.CString(data), 0, false)
  }

  predicate TreesKept(e: Encoding, l: P.Trees)
    decreases l
  {
    l.Some? ==> TreeKept(e, l.head) && TreesKept(e, l.tail)
  }

  lemma NormalAttsFirst(e: Encoding, l: seq<P.Att>)
    requires l != []
    ensures NormalAtts(e, l) == [(l[0].0, NormalValue(e, l[0].1))] + NormalAtts(e, l[1..])
  {
  }

  lemma {:induction false} AttsKeptSame(e: Encoding, l: seq<P.Att>)
    requires Ascii(e) && AttsKept(e, l)
    ensures NormalAtts(e, l) == l
  {
    if l != [] {
      NormalAttsFirst(e, l);
      KeptSame(e, l[0].1, 0, true, false);
      AttsKeptSame(e, l[1..]);
      assert l == [(l[0].0, l[0].1)] + l[1..];
    }
  }

  lemma {:induction false} TreeKeptSame(e: Encoding, t: P.Tree, lf: bool)
    requires Ascii(e) && TreeKept(e, t)
    ensures Received(e, t, lf) == Events(t)
    decreases t
  {
    match t {
      case Elem(_, atts, kids) =>
        AttsKeptSame(e, atts);
        TreesKeptSame(e, kids);
      case Text(data) =>
        KeptSame(e, P.CString(data), 0, false, lf);
    }
  }

  lemma {:induction false} TreesKeptSame(e: Encoding, l: P.Trees)
    requires Ascii(e) && TreesKept(e, l)
    ensures AllReceived(e, l) == AllEvents(l)
    decreases l
  {
    if l.Some? {
      TreeKeptSame(e, l.head, LfFirst(e, l.tail));
      TreesKeptSame(e, l.tail);
    }
  }

  // ---------------------------------------------------------------- the weight of events

  function AttsWeight(e: Encoding, l: seq<P.Att>): nat {
    if l == [] then 0 else Weight(e, l[0].1, true) + AttsWeight(e, l[1..])
  }

  function EventWeight(e: Encoding, ev: Event): nat {
    match ev
    case StartElement(_, atts) => AttsWeight(e, atts)
    case Characters(data) => Weight(e, data, false)
    case _ => 0
  }

  function EventsWeight(e: Encoding, l: seq<Event>): nat {
    if l == [] then 0 else EventWeight(e, l[0]) + EventsWeight(e, l[1..])
  }

  lemma {:induction false} EventsWeightAppend(e: Encoding, a: seq<Event>, b: seq<Event>)
    ensures EventsWeight(e, a + b) == EventsWeight(e, a) + EventsWeight(e, b)
    decreases |a|
  {
    if a == [] {
      assert a + b == b;
    } else {
      assert (a + b)[1..] == a[1..] + b;
      EventsWeightAppend(e, a[1..], b);
    }
  }

  lemma PutWeight(e: Encoding, ev: Event, l: seq<Event>)
    ensures EventsWeight(e, XmlChunks.Put(ev, l)) == EventWeight(e, ev) + EventsWeight(e, l)
  {
    if ev.Characters? && l != [] && l[0].Characters? {
      WeightAppend(e, ev.data, l[0].data, false);
      assert XmlChunks.Put(ev, l)[1..] == l[1..];
    } else {
      assert ([ev] + l)[1..] == l;
    }
  }

  /** Joining character data does not change the weight. */
  lemma {:induction false} MergeWeight(e: Encoding, l: seq<Event>)
    ensures EventsWeight(e, Merge(l)) == EventsWeight(e, l)
  {
    if l != [] {
      MergeWeight(e, l[1..]);
      PutWeight(e, l[0], Merge(l[1..]));
    }
  }

  lemma TextWeight(e: Encoding, d: bytes)
    ensures EventsWeight(e, TextEvents(d)) == Weight(e, d, false)
  {
    assert [Characters(d)][1..] == [];
  }

  lemma ElemWeight(e: Encoding, name: bytes, atts: seq<P.Att>, kids: seq<Event>)
    ensures
      EventsWeight(e, [StartElement(name, atts)] + kids + [EndElement(name)])
      == AttsWeight(e, atts) + EventsWeight(e, kids)
  {
    var a, b := StartElement(name, atts), EndElement(name);
    EventsWeightAppend(e, [a] + kids, [b]);
    EventsWeightAppend(e, [a], kids);
    assert [a][1..] == [] && [b][1..] == [];
  }

  // ---------------------------------------------------------------- what is changed weighs less

  lemma {:induction false} AttsWeigh(e: Encoding, l: seq<P.Att>)
    requires Ascii(e)
    ensures AttsWeight(e, NormalAtts(e, l)) + (if AttsKept(e, l) then 0 else 1) <= AttsWeight(e, l)
  {
    if l != [] {
      NormalAttsFirst(e, l);
      NormalWeighs(e, l[0].1, 0, true, false);
      assert l[0].1[0..] == l[0].1;
      AttsWeigh(e, l[1..]);
    }
  }

  lemma {:induction false} TreeWeighs(e: Encoding, t: P.Tree, lf: bool)
    requires Ascii(e)
    ensures EventsWeight(e, Received(e, t, lf)) + (if TreeKept(e, t) then 0 else 1) <= EventsWeight(e, Events(t))
    decreases t
  {
    match t {
      case Elem(name, atts, kids) =>
        AttsWeigh(e, atts);
        TreesWeigh(e, kids);
        ElemWeight(e, name, atts, AllEvents(kids));
        ElemWeight(e, name, NormalAtts(e, atts), AllReceived(e, kids));
      case Text(data) =>
        var d := P.CString(data);
        NormalWeighs(e, d, 0, false, lf);
        assert d[0..] == d;
        TextWeight(e, d);
        TextWeight(e, Normal(e, d, 0, false, lf));
    }
  }

  lemma {:induction false} TreesWeigh(e: Encoding, l: P.Trees)
    requires Ascii(e)
    ensures EventsWeight(e, AllReceived(e, l)) + (if TreesKept(e, l) then 0 else 1) <= EventsWeight(e, AllEvents(l))
    decreases l
  {
    if l.Some? {
      var lf := LfFirst(e, l.tail);
      TreeWeighs(e, l.head, lf);
      TreesWeigh(e, l.tail);
      EventsWeightAppend(e, Events(l.head), AllEvents(l.tail));
      EventsWeightAppend(e, Received(e, l.head, lf), AllReceived(e, l.tail));
    }
  }

  /** The events that are reported are those of the tree exactly if nothing of it is changed. */
  lemma ReceivedExactly(e: Encoding, t: P.Tree)
    requires Ascii(e)
    ensures Merge(Received(e, t, false)) == Merge(Events(t)) <==> TreeKept(e, t)
  {
    if TreeKept(e, t) {
      TreeKeptSame(e, t, false);
    } else {
      TreeWeighs(e, t, false);
      MergeWeight(e, Received(e, t, false));
      MergeWeight(e, Events(t));
    }
  }

  /** A printed tree comes back, in whatever chunks it is parsed, exactly if nothing of it is changed. */
  lemma ComesBack(g: Grammar, t: P.Tree, chunks: seq<bytes>, last: bytes)
    requires Ascii(g.doc) && NoDefaults(g) && t.Elem? && TreeOk(g.doc, t)
    requires Joined(chunks) + last == P.Print(t)
    ensures
      Alike(Done(State(InEpilog, []), Events(t)), ParseAll(g, State(InContent, []), [], chunks, last))
      <==> TreeKept(g.doc, t)
  {
    PrintedParses(g, t, chunks, last);
    ReceivedExactly(g.doc, t);
  }

  // ---------------------------------------------------------------- merged trees

  /** The events of text in one piece and in two. */
  lemma TextJoins(x: bytes, y: bytes, rest: seq<Event>)
    ensures Merge(TextEvents(x) + (TextEvents(y) + rest)) == Merge(TextEvents(x + y) + rest)
  {
    if x == [] {
      assert x + y == y && TextEvents(x) + (TextEvents(y) + rest) == TextEvents(y) + rest;
    } else if y == [] {
      assert x + y == x && TextEvents(y) + rest == rest;
    } else {
      MergeJoin(x, y, rest);
    }
  }

  /** The pieces of a run are reported as what is printed for them. */
  lemma {:induction false} RunEvents(l: T.Shape)
    ensures
      Merge(AllEvents(T.Value(l))) == Merge(TextEvents(T.Shown(l)) + AllEvents(T.Value(T.RunRest(l))))
  {
    if l.Text? {
      RunEvents(l.tail);
      var rest := AllEvents(T.Value(T.RunRest(l)));
      MergeAfter(TextEvents(P.CString(l.data)), AllEvents(T.Value(l.tail)), TextEvents(T.Shown(l.tail)) + rest);
      TextJoins(P.CString(l.data), T.Shown(l.tail), rest);
    } else {
      assert [] + AllEvents(T.Value(l)) == AllEvents(T.Value(l));
    }
  }

  /** The same events but for the division of text, or less, as `same` says. */
  ghost predicate SameOrLess(e: Encoding, a: seq<Event>, b: seq<Event>, same: bool) {
    if same then Merge(a) == Merge(b) else EventsWeight(e, a) < EventsWeight(e, b)
  }

  lemma {:induction false} BytesWeigh(e: Encoding, s: bytes)
    ensures Weight(e, s, false) == 0 <==> s == []
  {
  }

  lemma RunWeighs(e: Encoding, l: T.Shape)
    ensures
      EventsWeight(e, AllEvents(T.Value(l)))
      == Weight(e, T.Shown(l), false) + EventsWeight(e, AllEvents(T.Value(T.RunRest(l))))
  {
    RunEvents(l);
    var x, rest := TextEvents(T.Shown(l)), AllEvents(T.Value(T.RunRest(l)));
    MergeWeight(e, AllEvents(T.Value(l)));
    MergeWeight(e, x + rest);
    EventsWeightAppend(e, x, rest);
    TextWeight(e, T.Shown(l));
  }

  lemma RunMerges(e: Encoding, l: T.Shape)
    requires l.Text?
    requires
      var rest := T.RunRest(l);
      SameOrLess(e, AllEvents(T.Value(T.Merged(rest, false))), AllEvents(T.Value(rest)), T.AllSeen(rest))
    ensures SameOrLess(e, AllEvents(T.Value(T.Merged(l, false))), AllEvents(T.Value(l)), T.AllSeen(l))
  {
    var lost := T.RunLoses(l);
    var rest := T.RunRest(l);
    var m, r := AllEvents(T.Value(T.Merged(rest, false))), AllEvents(T.Value(rest));
    assert AllEvents(T.Value(T.Merged(l, false))) == TextEvents(P.CString(T.RunData(l))) + m;
    RunEvents(l);
    RunWeighs(e, l);
    TextsMerge(e, P.CString(T.RunData(l)), lost, m, r, T.AllSeen(rest));
  }

  /** Text of which `lost` is missing, in front of events of which something may be missing. */
  lemma TextsMerge(e: Encoding, d: bytes, lost: bytes, m: seq<Event>, r: seq<Event>, same: bool)
    requires SameOrLess(e, m, r, same)
    ensures
      var a, b := TextEvents(d) + m, TextEvents(d + lost) + r;
      if lost == [] && same then Merge(a) == Merge(b)
      else EventsWeight(e, a) < Weight(e, d + lost, false) + EventsWeight(e, r)
  {
    if lost == [] && same {
      assert d + [] == d;
      MergeAfter(TextEvents(d), m, r);
    } else {
      WeightAppend(e, d, lost, false);
      BytesWeigh(e, lost);
      EventsWeightAppend(e, TextEvents(d), m);
      TextWeight(e, d);
      RestWeighs(e, m, r, same);
    }
  }

  lemma RestWeighs(e: Encoding, a: seq<Event>, b: seq<Event>, same: bool)
    requires SameOrLess(e, a, b, same)
    ensures EventsWeight(e, a) + (if same then 0 else 1) <= EventsWeight(e, b)
  {
    MergeWeight(e, a);
    MergeWeight(e, b);
  }

  lemma {:induction false} MergeFirst(a: seq<Event>, b: seq<Event>)
    ensures Merge(a + b) == Merge(Merge(a) + b)
    decreases |a|
  {
    if a != [] {
      var m := Merge(a[1..]);
      MergeFirst(a[1..], b);
      assert (a + b)[1..] == a[1..] + b;
      PutFirst(a[0], m, b);
    }
  }

  lemma MergeCons(ev: Event, l: seq<Event>)
    ensures Merge([ev] + l) == XmlChunks.Put(ev, Merge(l))
  {
    assert ([ev] + l)[1..] == l;
  }

  lemma JoinedFirst(x: bytes, y: bytes, m: seq<Event>, b: seq<Event>)
    ensures
      Merge([Characters(x + y)] + m + b) == XmlChunks.Put(Characters(x), Merge([Characters(y)] + m + b))
  {
    MergeJoin(x, y, m + b);
    MergeCons(Characters(x), [Characters(y)] + (m + b));
    assert [Characters(y)] + m + b == [Characters(y)] + (m + b);
    assert [Characters(x + y)] + m + b == [Characters(x + y)] + (m + b);
  }

  lemma PutFirst(ev: Event, m: seq<Event>, b: seq<Event>)
    ensures Merge(XmlChunks.Put(ev, m) + b) == XmlChunks.Put(ev, Merge(m + b))
  {
    if ev.Characters? && m != [] && m[0].Characters? {
      JoinedFirst(ev.data, m[0].data, m[1..], b);
      assert [Characters(m[0].data)] + m[1..] == m;
    } else {
      MergeCons(ev, m + b);
      assert [ev] + m + b == [ev] + (m + b);
    }
  }

  lemma SameAround(e: Encoding, a: seq<Event>, a': seq<Event>, b: seq<Event>, b': seq<Event>, x: bool, y: bool)
    requires SameOrLess(e, a, a', x) && SameOrLess(e, b, b', y)
    ensures SameOrLess(e, a + b, a' + b', x && y)
  {
    if x && y {
      MergeAfter(a, b, b');
      MergeFirst(a, b');
      MergeFirst(a', b');
    } else {
      RestWeighs(e, a, a', x);
      RestWeighs(e, b, b', y);
      EventsWeightAppend(e, a, b);
      EventsWeightAppend(e, a', b');
    }
  }

  lemma ElemMerges(e: Encoding, l: T.Shape)
    requires l.Elem?
    requires SameOrLess(e, AllEvents(T.Value(T.Merged(l.kids, false))), AllEvents(T.Value(l.kids)), T.AllSeen(l.kids))
    ensures
      var k := T.Value(T.Merged(l.kids, false));
      SameOrLess(e, Events(P.Elem(l.name, l.atts, k)), Events(T.Value(l).head), T.AllSeen(l.kids))
  {
    var a, b := [StartElement(l.name, l.atts)], [EndElement(l.name)];
    var m, k := AllEvents(T.Value(T.Merged(l.kids, false))), AllEvents(T.Value(l.kids));
    SameAround(e, a, a, m, k, true, T.AllSeen(l.kids));
    SameAround(e, a + m, a + k, b, b, T.AllSeen(l.kids), true);
  }

  /** Merging changes the events exactly if something is lost behind a NUL. */
  lemma {:induction false} MergedEvents(e: Encoding, l: T.Shape)
    ensures SameOrLess(e, AllEvents(T.Value(T.Merged(l, false))), AllEvents(T.Value(l)), T.AllSeen(l))
    decreases T.Size(l)
  {
    match l {
      case None =>
      case Text(_, _, _) =>
        MergedEvents(e, T.RunRest(l.tail));
        RunMerges(e, l);
      case Elem(_, name, atts, kids, tail) =>
        MergedEvents(e, kids);
        MergedEvents(e, tail);
        ElemMerges(e, l);
        var k := T.Value(T.Merged(kids, false));
        SameAround(e, Events(P.Elem(name, atts, k)), Events(T.Value(l).head), AllEvents(T.Value(T.Merged(tail, false))),
            AllEvents(T.Value(tail)), T.AllSeen(kids), T.AllSeen(tail));
    }
  }

  /**
    What is reported for the merged tree are the events of the tree as it was, exactly
    if no text is lost behind a NUL and nothing of the merged tree is changed.
   */
  lemma MergedExactly(e: Encoding, l: T.Shape)
    requires Ascii(e) && l.Elem? && l.tail.None?
    ensures
      var m := T.Value(T.Merged(l, true)).head;
      Merge(Received(e, m, false)) == Merge(Events(T.Value(l).head)) <==> T.AllSeen(l) && TreeKept(e, m)
  {
    var m, t := T.Value(T.Merged(l, true)).head, T.Value(l).head;
    MergedEvents(e, l.kids);
    ElemMerges(e, l);
    ReceivedExactly(e, m);
    if !T.AllSeen(l) {
      TreeWeighs(e, m, false);
      MergeWeight(e, Received(e, m, false));
      MergeWeight(e, Events(t));
    }
  }

  // ---------------------------------------------------------------- well-formed pieces

  lemma CharOkMoves(e: Encoding, v: bytes, i: nat, w: bytes, p: nat, n: nat)
    requires i < |v| && n == CharLen(e, v[i]) && CharOk(e, v, i, n) && p + n <= |w| && w[p..p + n] == v[i..i + n]
    ensures w[p] == v[i] && CharOk(e, w, p, n)
  {
    assert w[p] == w[p..p + n][0] && v[i] == v[i..i + n][0];
    forall k | p <= k < p + n ensures !P.IsSpecial(w[k]) {
      assert w[k] == w[p..p + n][k - p] == v[i..i + n][k - p] == v[i + (k - p)];
    }
  }

  /** Text that is well formed is so behind other bytes. */
  lemma {:induction false} TextOkBehind(e: Encoding, a: bytes, b: bytes, i: nat)
    requires TextOk(e, b, i)
    ensures TextOk(e, a + b, |a| + i)
    decreases if i < |b| then |b| - i else 0
  {
    if i < |b| {
      var n := CharLen(e, b[i]);
      if !P.IsSpecial(b[i]) {
        CharOkMoves(e, b, i, a + b, |a| + i, n);
      }
      TextOkBehind(e, a, b, if P.IsSpecial(b[i]) then i + 1 else i + n);
    }
  }

  lemma {:induction false} TextOkJoins(e: Encoding, a: bytes, b: bytes, i: nat)
    requires i <= |a| && TextOk(e, a, i) && TextOk(e, b, 0)
    ensures TextOk(e, a + b, i)
    decreases |a| - i
  {
    if i == |a| {
      TextOkBehind(e, a, b, 0);
    } else {
      TextOkNext(e, a, i);
      if !P.IsSpecial(a[i]) {
        assert (a + b)[i..i + CharLen(e, a[i])] == a[i..i + CharLen(e, a[i])];
        CharOkMoves(e, a, i, a + b, i, CharLen(e, a[i]));
      }
      TextOkJoins(e, a, b, CharEnd(e, a, i));
    }
  }

  lemma {:induction false} RunOk(e: Encoding, l: T.Shape)
    requires TreesOk(e, T.Value(l))
    ensures TextOk(e, T.Shown(l), 0) && TreesOk(e, T.Value(T.RunRest(l)))
  {
    if l.Text? {
      RunOk(e, l.tail);
      TextOkJoins(e, P.CString(l.data), T.Shown(l.tail), 0);
    }
  }

  /** Where nothing is lost, merging keeps a tree well formed; more trees are so only when merged. */
  lemma {:induction false} MergedOk(e: Encoding, l: T.Shape)
    requires T.AllSeen(l) && TreesOk(e, T.Value(l))
    ensures TreesOk(e, T.Value(T.Merged(l, false)))
    decreases T.Size(l)
  {
    match l {
      case None =>
      case Text(_, _, tail) =>
        var lost := T.RunLoses(l);
        assert P.CString(T.RunData(l)) + [] == P.CString(T.RunData(l));
        RunOk(e, l);
        MergedOk(e, T.RunRest(tail));
      case Elem(_, _, _, kids, tail) =>
        MergedOk(e, kids);
        MergedOk(e, tail);
    }
  }
}
