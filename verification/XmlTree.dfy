/**
  XML trees as xmlnode.c keeps them: nodes that are linked by pointers, with text
  in pieces that are merged when their data is asked for.
 */
module XmlTree {
  import opened Bytes
  import P = XmlPrint

  // ---------------------------------------------------------------- nodes

  type Ptr = nat

  const NULL: Ptr := 0

  datatype Kind = Tag | Attrib | Cdata

  /** xmlnode_t, without its pool and the fields that printing does not read. */
  datatype Node = Node(
    kind: Kind,
    name: bytes,
    data: bytes,
    firstatt: Ptr,
    firstchild: Ptr,
    lastchild: Ptr,
    prev: Ptr,
    next: Ptr,
    parent: Ptr)

  type Heap = map<Ptr, Node>

  const Zeroed := Node(Tag, [], [], NULL, NULL, NULL, NULL, NULL, NULL)

  function At(h: Heap, p: Ptr): Node {
    if p in h then h[p] else Zeroed
  }

  // ---------------------------------------------------------------- what is linked

  /** Sibling nodes with their addresses and all that is below them; text in pieces. */
  datatype Shape =
    | None
    | Elem(at: Ptr, name: bytes, atts: seq<P.Att>, kids: Shape, tail: Shape)
    | Text(at: Ptr, data: bytes, tail: Shape)

  function First(l: Shape): Ptr {
    if l.None? then NULL else l.at
  }

  function Last(l: Shape): Ptr {
    if l.None? then NULL else if l.tail.None? then l.at else Last(l.tail)
  }

  function Ids(l: Shape): set<Ptr> {
    match l
    case None => {}
    case Elem(p, _, _, kids, tail) => {p} + Ids(kids) + Ids(tail)
    case Text(p, _, tail) => {p} + Ids(tail)
  }

  /** No node is in the list, or below it, twice. */
  predicate Distinct(l: Shape) {
    match l
    case None => true
    case Elem(p, _, _, kids, tail) =>
      p !in Ids(kids) && p !in Ids(tail) && Ids(kids) !! Ids(tail) && Distinct(kids) && Distinct(tail)
    case Text(p, _, tail) => p !in Ids(tail) && Distinct(tail)
  }

  /** The attribute list at `p`. */
  predicate AttsAt(h: Heap, p: Ptr, l: seq<P.Att>)
    decreases |l|
  {
    if l == [] then p == NULL
    else
      && p != NULL && p in h && h[p].kind == Attrib && (h[p].name, h[p].data) == l[0]
      && AttsAt(h, h[p].next, l[1..])
  }

  /** A node with its links to siblings and parent. */
  predicate NodeAt(h: Heap, p: Ptr, par: Ptr, prev: Ptr, next: Ptr) {
    p != NULL && p in h && At(h, p).parent == par && At(h, p).prev == prev && At(h, p).next == next
  }

  predicate ElemAt(h: Heap, p: Ptr, name: bytes, atts: seq<P.Att>, kids: Shape) {
    && At(h, p).kind == Tag && At(h, p).name == name && AttsAt(h, At(h, p).firstatt, atts)
    && At(h, p).firstchild == First(kids) && At(h, p).lastchild == Last(kids)
  }

  /** The nodes of `l` are siblings below `par`, in this order, the first of them behind `prev`. */
  predicate Linked(h: Heap, l: Shape, par: Ptr, prev: Ptr) {
    match l
    case None => true
    case Elem(p, name, atts, kids, tail) =>
      && NodeAt(h, p, par, prev, First(tail)) && ElemAt(h, p, name, atts, kids)
      && Linked(h, kids, p, NULL) && Linked(h, tail, par, p)
    case Text(p, data, tail) =>
      && NodeAt(h, p, par, prev, First(tail)) && At(h, p).kind == Cdata && At(h, p).data == data
      && par in h && Linked(h, tail, par, p)
  }

  // ---------------------------------------------------------------- merging

  /** The text at the start of a list, and what is behind it. */
  function RunData(l: Shape): bytes {
    if l.Text? then l.data + RunData(l.tail) else []
  }

  function Size(l: Shape): nat {
    match l
    case None => 0
    case Elem(_, _, _, kids, tail) => 1 + Size(kids) + Size(tail)
    case Text(_, _, tail) => 1 + Size(tail)
  }

  function RunRest(l: Shape): (r: Shape)
    ensures Size(r) <= Size(l) && !r.Text? && Ids(r) <= Ids(l)
  {
    if l.Text? then RunRest(l.tail) else l
  }

  /** _xmlnode_merge at the text node `p`: all `data` is there, and `rest` is next. */
  function MergeText(h: Heap, p: Ptr, data: bytes, rest: Shape): Heap {
    var h1 := h[p := At(h, p).(data := data, next := First(rest))];
    if rest.None? then
      var q := At(h, p).parent;
      h1[q := At(h1, q).(lastchild := p)]
    else
      h1[First(rest) := At(h1, First(rest)).(prev := p)]
  }

  /**
    The nodes after all text in `l` is merged. With `top` the walk ends behind the
    first node that has children.
   */
  function Settle(h: Heap, l: Shape, top: bool): Heap
    decreases Size(l)
  {
    match l
    case None => h
    case Text(p, data, tail) =>
      if tail.Text? then Settle(MergeText(h, p, data + RunData(tail), RunRest(tail)), RunRest(tail), top)
      else Settle(h, tail, top)
    case Elem(p, _, _, kids, tail) =>
      if kids.None? then Settle(h, tail, top)
      else if top then Settle(h, kids, false)
      else Settle(Settle(h, kids, false), tail, false)
  }

  /** The tree that is linked then. */
  function Merged(l: Shape, top: bool): (r: Shape)
    ensures First(r) == First(l) && Ids(r) <= Ids(l)
    decreases Size(l)
  {
    match l
    case None => None
    case Text(p, data, tail) => Text(p, data + RunData(tail), Merged(RunRest(tail), top))
    case Elem(p, name, atts, kids, tail) =>
      Elem(p, name, atts, Merged(kids, false), if kids.None? || !top then Merged(tail, top) else tail)
  }

  // ---------------------------------------------------------------- merging keeps the links

  /** Attributes stay, and no node goes. */
  ghost predicate Keeps(h: Heap, h1: Heap) {
    && h.Keys <= h1.Keys
    && forall q :: q in h && h[q].kind == Attrib ==> h1[q] == h[q]
  }

  lemma {:induction false} AttsKept(h: Heap, h1: Heap, p: Ptr, l: seq<P.Att>)
    requires Keeps(h, h1) && AttsAt(h, p, l)
    ensures AttsAt(h1, p, l)
    decreases |l|
  {
    if l != [] {
      AttsKept(h, h1, h[p].next, l[1..]);
    }
  }

  lemma {:induction false} LinkedKept(h: Heap, h1: Heap, l: Shape, par: Ptr, prev: Ptr)
    requires Keeps(h, h1) && Linked(h, l, par, prev) && forall q :: q in Ids(l) ==> At(h1, q) == At(h, q)
    ensures Linked(h1, l, par, prev)
  {
    assert !l.None? ==> l.at in Ids(l);
    if l.Elem? {
      AttsKept(h, h1, h[l.at].firstatt, l.atts);
      LinkedKept(h, h1, l.kids, l.at, NULL);
      LinkedKept(h, h1, l.tail, par, l.at);
    } else if l.Text? {
      LinkedKept(h, h1, l.tail, par, l.at);
    }
  }

  /** What a walk over `ids` below `par` may change: these nodes, and which child of the parent is last. */
  ghost predicate Frame(h: Heap, h1: Heap, ids: set<Ptr>, par: Ptr, last: Ptr) {
    && Keeps(h, h1) && h1.Keys == h.Keys
    && (forall q :: q in h && q !in ids && q != par ==> h1[q] == h[q])
    && (par in h ==> h1[par] == h[par].(lastchild := last))
  }

  lemma {:induction false} LinkedIds(h: Heap, l: Shape, par: Ptr, prev: Ptr)
    requires Linked(h, l, par, prev)
    ensures Ids(l) <= h.Keys && NULL !in Ids(l) && forall q :: q in Ids(l) ==> At(h, q).kind != Attrib
  {
    if l.Elem? {
      LinkedIds(h, l.kids, l.at, NULL);
    }
    if !l.None? {
      LinkedIds(h, l.tail, par, l.at);
    }
  }

  /** The siblings behind a run of text: they are linked, behind the last piece. */
  lemma {:induction false} RunLinked(h: Heap, l: Shape, par: Ptr, prev: Ptr) returns (before: Ptr)
    requires Linked(h, l, par, prev) && Distinct(l)
    ensures Linked(h, RunRest(l), par, before) && Distinct(RunRest(l))
    ensures RunRest(l).None? || Last(RunRest(l)) == Last(l)
  {
    before := prev;
    if l.Text? {
      before := RunLinked(h, l.tail, par, l.at);
    }
  }

  /** The node at the start of a list gets another one before it. */
  lemma Relinked(h: Heap, h1: Heap, l: Shape, par: Ptr, prev: Ptr, to: Ptr)
    requires Keeps(h, h1) && Linked(h, l, par, prev) && Distinct(l)
    requires forall q :: q in Ids(l) && q != First(l) ==> At(h1, q) == At(h, q)
    requires !l.None? ==> At(h1, l.at) == At(h, l.at).(prev := to)
    ensures Linked(h1, l, par, to)
  {
    if l.Elem? {
      AttsKept(h, h1, h[l.at].firstatt, l.atts);
      LinkedKept(h, h1, l.kids, l.at, NULL);
      LinkedKept(h, h1, l.tail, par, l.at);
    } else if l.Text? {
      LinkedKept(h, h1, l.tail, par, l.at);
    }
  }

  /** Merging the text at the start of a list. */
  lemma MergeLinked(h: Heap, l: Shape, par: Ptr, prev: Ptr)
    requires Linked(h, l, par, prev) && Distinct(l) && l.Text? && l.tail.Text?
    requires par !in Ids(l) && h[par].lastchild == Last(l) && h[par].kind != Attrib
    ensures
      var rest := RunRest(l.tail);
      var data := l.data + RunData(l.tail);
      var h1 := MergeText(h, l.at, data, rest);
      && Linked(h1, rest, par, l.at) && Distinct(rest)
      && NodeAt(h1, l.at, par, prev, First(rest)) && h1[l.at].data == data && h1[l.at].kind == Cdata
      && Frame(h, h1, Ids(l), par, if rest.None? then l.at else Last(rest))
  {
    var rest := RunRest(l.tail);
    var h1 := MergeText(h, l.at, l.data + RunData(l.tail), rest);
    var before := RunLinked(h, l.tail, par, l.at);
    LinkedIds(h, l, par, prev);
    LinkedIds(h, rest, par, before);
    Relinked(h, h1, rest, par, before, l.at);
  }

  ghost predicate ListOf(h: Heap, l: Shape, par: Ptr, prev: Ptr) {
    && Linked(h, l, par, prev) && Distinct(l) && par !in Ids(l)
    && (par in h ==> At(h, par).kind != Attrib && (l.None? || At(h, par).lastchild == Last(l)))
  }

  /** The last child that a walk over `l`, merged to `m`, leaves in the parent. */
  function LastLeft(h: Heap, m: Shape, par: Ptr): Ptr {
    if m.None? then At(h, par).lastchild else Last(m)
  }

  /** A tag whose children and then its siblings were walked. */
  lemma ElemJoins(h: Heap, h1: Heap, h2: Heap, l: Shape, par: Ptr, prev: Ptr, mk: Shape, mt: Shape)
    requires ListOf(h, l, par, prev) && l.Elem?
    requires Linked(h1, mk, l.at, NULL) && Distinct(mk) && Ids(mk) <= Ids(l.kids) && First(mk) == First(l.kids)
    requires Frame(h, h1, Ids(l.kids), l.at, Last(mk))
    requires Linked(h2, mt, par, l.at) && Distinct(mt) && Ids(mt) <= Ids(l.tail) && First(mt) == First(l.tail)
    requires Frame(h1, h2, Ids(l.tail), par, LastLeft(h1, mt, par))
    ensures
      var m := Elem(l.at, l.name, l.atts, mk, mt);
      Linked(h2, m, par, prev) && Distinct(m) && Frame(h, h2, Ids(l), par, LastLeft(h, m, par))
  {
    LinkedIds(h, l, par, prev);
    LinkedIds(h1, mk, l.at, NULL);
    AttsKept(h, h2, At(h, l.at).firstatt, l.atts);
    LinkedKept(h1, h2, mk, l.at, NULL);
    assert l.tail.None? <==> mt.None?;
  }

  /** What is behind a tag whose children were walked. */
  lemma TailKept(h: Heap, h1: Heap, l: Shape, par: Ptr, prev: Ptr, last: Ptr)
    requires ListOf(h, l, par, prev) && l.Elem? && Frame(h, h1, Ids(l.kids), l.at, last)
    ensures ListOf(h1, l.tail, par, l.at)
  {
    LinkedIds(h, l, par, prev);
    LinkedKept(h, h1, l.tail, par, l.at);
  }

  /** After a walk the merged tree is linked, in both directions. */
  lemma {:induction false} SettleLinks(h: Heap, l: Shape, par: Ptr, prev: Ptr, top: bool)
    requires ListOf(h, l, par, prev)
    ensures
      var m := Merged(l, top);
      Linked(Settle(h, l, top), m, par, prev) && Distinct(m)
      && Frame(h, Settle(h, l, top), Ids(l), par, LastLeft(h, m, par))
    decreases Size(l), 1
  {
    match l {
      case None =>
      case Text(p, data, tail) => SettleText(h, l, par, prev, top);
      case Elem(p, name, atts, kids, tail) => {
        var h1 := Settle(h, kids, false);
        SettleLinks(h, kids, p, NULL, false);
        TailKept(h, h1, l, par, prev, Last(Merged(kids, false)));
        if kids.None? || !top {
          SettleLinks(h1, tail, par, p, top);
          ElemJoins(h, h1, Settle(h1, tail, top), l, par, prev, Merged(kids, false), Merged(tail, top));
        } else {
          ElemJoins(h, h1, h1, l, par, prev, Merged(kids, false), tail);
        }
      }
    }
  }

  lemma {:induction false} SettleText(h: Heap, l: Shape, par: Ptr, prev: Ptr, top: bool)
    requires ListOf(h, l, par, prev) && l.Text?
    ensures
      var m := Merged(l, top);
      Linked(Settle(h, l, top), m, par, prev) && Distinct(m)
      && Frame(h, Settle(h, l, top), Ids(l), par, LastLeft(h, m, par))
    decreases Size(l), 0
  {
    var rest, data, h1 := RunRest(l.tail), l.data + RunData(l.tail), h;
    LinkedIds(h, l, par, prev);
    if l.tail.Text? {
      MergeLinked(h, l, par, prev);
      h1 := MergeText(h, l.at, data, rest);
    } else {
      assert data == l.data;
    }
    SettleLinks(h1, rest, par, l.at, top);
  }

  // ---------------------------------------------------------------- the text of an element

  /** The first text of a list, with what is behind it. */
  function FirstText(l: Shape): Shape {
    if l.Elem? then FirstText(l.tail) else l
  }

  /** The list in which that text is in one piece. */
  function FirstMerged(l: Shape): Shape {
    match l
    case None => None
    case Elem(p, name, atts, kids, tail) => Elem(p, name, atts, kids, FirstMerged(tail))
    case Text(p, data, tail) => Text(p, data + RunData(tail), RunRest(tail))
  }

  function MergeFirst(h: Heap, l: Shape): Heap {
    var t := FirstText(l);
    if t.Text? && t.tail.Text? then MergeText(h, t.at, RunData(t), RunRest(t)) else h
  }

  /** It is linked when that text was merged. */
  lemma {:induction false} FirstMergedLinks(h: Heap, l: Shape, par: Ptr, prev: Ptr)
    requires ListOf(h, l, par, prev)
    ensures
      var m := FirstMerged(l);
      && Linked(MergeFirst(h, l), m, par, prev) && Distinct(m) && Ids(m) <= Ids(l) && First(m) == First(l)
      && Frame(h, MergeFirst(h, l), Ids(l), par, LastLeft(h, m, par))
  {
    match l {
      case None =>
      case Text(p, data, tail) =>
        LinkedIds(h, l, par, prev);
        if tail.Text? {
          MergeLinked(h, l, par, prev);
        } else {
          assert data + [] == data;
        }
      case Elem(p, name, atts, kids, tail) =>
        FirstMergedLinks(h, tail, par, p);
        ElemJoins(h, h, MergeFirst(h, tail), l, par, prev, kids, FirstMerged(tail));
    }
  }

  /** An element whose first text was merged. */
  lemma ElementMerged(h: Heap, l: Shape, par: Ptr, prev: Ptr)
    requires ListOf(h, l, par, prev) && l.Elem?
    ensures
      var m := Elem(l.at, l.name, l.atts, FirstMerged(l.kids), l.tail);
      ListOf(MergeFirst(h, l.kids), m, par, prev)
  {
    var h1 := MergeFirst(h, l.kids);
    FirstMergedLinks(h, l.kids, l.at, NULL);
    TailKept(h, h1, l, par, prev, Last(FirstMerged(l.kids)));
    ElemJoins(h, h1, h1, l, par, prev, FirstMerged(l.kids), l.tail);
  }

  // ---------------------------------------------------------------- what a walk prints

  /** The tree without its addresses. */
  function Value(l: Shape): P.Trees {
    match l
    case None => P.None
    case Elem(_, name, atts, kids, tail) => P.Some(P.Elem(name, atts, Value(kids)), Value(tail))
    case Text(_, data, tail) => P.Some(P.Text(data), Value(tail))
  }

  /** The trees up to the first one that has children. */
  function Until(l: P.Trees): P.Trees {
    match l
    case None => P.None
    case Some(head, tail) => P.Some(head, if head.Elem? && head.kids.Some? then P.None else Until(tail))
  }

  /** What is written during a walk over `l`. */
  function Printed(l: Shape, top: bool): bytes
    decreases Size(l)
  {
    match l
    case None => []
    case Text(_, data, tail) => P.Escape(P.CString(data + RunData(tail))) + Printed(RunRest(tail), top)
    case Elem(_, name, atts, kids, tail) =>
      if kids.None? then P.EmptyTag(name, atts) + Printed(tail, top)
      else P.StartTag(name, atts) + Printed(kids, false) + P.EndTag(name) + if top then [] else Printed(tail, false)
  }

  /** It is the text of the merged tree; at the top, up to the first node with children. */
  lemma {:induction false} PrintedMerged(l: Shape, top: bool)
    ensures
      var v := Value(Merged(l, top));
      Printed(l, top) == P.PrintAll(if top then Until(v) else v)
    decreases Size(l)
  {
    match l {
      case None =>
      case Text(p, data, tail) => PrintedMerged(RunRest(tail), top);
      case Elem(p, name, atts, kids, tail) => {
        PrintedMerged(kids, false);
        PrintedMerged(tail, top);
        assert Value(kids).None? <==> kids.None?;
      }
    }
  }

  /** What is printed for the pieces of the text at the start of a list, one by one. */
  function Shown(l: Shape): bytes {
    if l.Text? then P.CString(l.data) + Shown(l.tail) else []
  }

  /** Behind a piece with a NUL nothing is printed for the others of its run. */
  predicate AllSeen(l: Shape) {
    match l
    case None => true
    case Elem(_, _, _, kids, tail) => AllSeen(kids) && AllSeen(tail)
    case Text(_, data, tail) => (0 in data ==> Shown(tail) == []) && AllSeen(tail)
  }

  lemma {:induction false} CStringAppend(s: bytes, t: bytes)
    ensures P.CString(s + t) == if 0 in s then P.CString(s) else s + P.CString(t)
    ensures 0 !in s ==> P.CString(s) == s
  {
    if s == [] {
      assert s + t == t;
    } else {
      assert (s + t)[1..] == s[1..] + t && s == [s[0]] + s[1..];
      CStringAppend(s[1..], t);
    }
  }

  /** The merged text of a run is the start of what is printed for its pieces; `lost` is the rest. */
  lemma {:induction false} RunLoses(l: Shape) returns (lost: bytes)
    ensures Shown(l) == P.CString(RunData(l)) + lost
    ensures AllSeen(l) <==> lost == [] && AllSeen(RunRest(l))
  {
    lost := [];
    if l.Text? {
      CStringAppend(l.data, RunData(l.tail));
      var rest := RunLoses(l.tail);
      lost := if 0 in l.data then Shown(l.tail) else rest;
    }
  }

  lemma {:induction false} RunPrints(l: Shape)
    ensures P.PrintAll(Value(l)) == P.Escape(Shown(l)) + P.PrintAll(Value(RunRest(l)))
  {
    if l.Text? {
      RunPrints(l.tail);
      P.EscapeAppend(P.CString(l.data), Shown(l.tail));
    }
  }

  /** `a` and `b` are the same, or `a` is shorter, as `same` says. */
  ghost predicate SameOrShorter(a: bytes, b: bytes, same: bool) {
    if same then a == b else |a| < |b|
  }

  /** What is printed for text in pieces, and for the same text merged. */
  lemma TextPrints(l: Shape) returns (lost: bytes)
    requires l.Text?
    ensures
      var merged, rest := P.Escape(P.CString(RunData(l))), RunRest(l);
      && P.PrintAll(Value(Merged(l, false))) == merged + P.PrintAll(Value(Merged(rest, false)))
      && P.PrintAll(Value(l)) == merged + lost + P.PrintAll(Value(rest))
      && (AllSeen(l) <==> lost == [] && AllSeen(rest))
  {
    var more := RunLoses(l);
    RunPrints(l);
    P.EscapeAppend(P.CString(RunData(l)), more);
    EscapedBlank(more);
    lost := P.Escape(more);
  }

  lemma BytesLost(a: bytes, lost: bytes, b: bytes, b1: bytes, same: bool)
    requires SameOrShorter(b, b1, same)
    ensures SameOrShorter(a + b, a + lost + b1, lost == [] && same)
  {
    if lost == [] {
      assert a + lost == a;
    }
  }

  lemma TextLoses(l: Shape)
    requires l.Text?
    requires
      var rest := RunRest(l);
      SameOrShorter(P.PrintAll(Value(Merged(rest, false))), P.PrintAll(Value(rest)), AllSeen(rest))
    ensures SameOrShorter(P.PrintAll(Value(Merged(l, false))), P.PrintAll(Value(l)), AllSeen(l))
  {
    var rest := RunRest(l);
    var lost := TextPrints(l);
    BytesLost(P.Escape(P.CString(RunData(l))), lost, P.PrintAll(Value(Merged(rest, false))), P.PrintAll(Value(rest)),
        AllSeen(rest));
  }

  /** Merging changes what is printed exactly if something is lost behind a NUL. */
  lemma {:induction false} MergedLoses(l: Shape)
    ensures SameOrShorter(P.PrintAll(Value(Merged(l, false))), P.PrintAll(Value(l)), AllSeen(l))
    decreases Size(l)
  {
    match l {
      case None =>
      case Text(p, data, tail) => {
        MergedLoses(RunRest(tail));
        TextLoses(l);
      }
      case Elem(p, name, atts, kids, tail) => {
        MergedLoses(kids);
        MergedLoses(tail);
        assert Value(Merged(kids, false)).None? <==> Value(kids).None?;
      }
    }
  }

  lemma MergedPrints(l: Shape)
    ensures P.PrintAll(Value(Merged(l, false))) == P.PrintAll(Value(l)) <==> AllSeen(l)
  {
    MergedLoses(l);
  }

  lemma {:induction false} EscapedBlank(s: bytes)
    ensures P.Escape(s) == [] <==> s == []
  {
  }

  /** Nothing is printed for these siblings. */
  predicate Blank(l: Shape) {
    RunRest(l).None? && P.CString(RunData(l)) == []
  }

  lemma {:induction false} PrintedBlank(l: Shape, top: bool)
    ensures Printed(l, top) == [] <==> Blank(l)
  {
    if l.Text? {
      EscapedBlank(P.CString(RunData(l)));
      assert RunRest(l.tail).Elem? ==> Printed(RunRest(l.tail), top) != [];
    }
  }

  /**
    The text of the node alone is printed exactly if it has children, or nothing is
    printed for the siblings behind it: without children, the walk goes on to them.
   */
  lemma {:induction false} PrintsNode(l: Shape)
    requires l.Elem?
    ensures Printed(l, true) == P.Print(Value(Merged(l, true)).head) <==> (!l.kids.None? || Blank(l.tail))
  {
    PrintedMerged(l.kids, false);
    PrintedBlank(l.tail, true);
    assert Value(Merged(l.kids, false)).None? <==> l.kids.None?;
  }

  /** With nothing behind it, that is the text of the node as it was exactly if nothing is lost. */
  lemma PrintsTree(l: Shape)
    requires l.Elem? && l.tail.None?
    ensures Printed(l, true) == P.Print(Value(l).head) <==> AllSeen(l)
  {
    PrintsNode(l);
    MergedLoses(l.kids);
    assert Value(Merged(l.kids, false)).None? <==> Value(l.kids).None?;
  }

  /** Text in two pieces, the first with a NUL at its end: `b` is printed before they are merged, and not after. */
  lemma NulExample(name: bytes)
    ensures
      var l := Elem(1, name, [], Text(2, [0x61, 0], Text(3, [0x62], None)), None);
      && !AllSeen(l)
      && P.Print(Value(l).head) == P.StartTag(name, []) + [0x61, 0x62] + P.EndTag(name)
      && Printed(l, true) == P.StartTag(name, []) + [0x61] + P.EndTag(name)
  {
    var two := Text(3, [0x62], None);
    var kids := Text(2, [0x61, 0], two);
    assert [0x61, 0][1..] == [0] && [0x62][1..] == [] && [0x61][1..] == [];
    assert P.CString([0x61, 0]) == [0x61] && P.CString([0x62]) == [0x62];
    assert P.Escape([0x61]) == [0x61] && P.Escape([0x62]) == [0x62];
    assert P.PrintAll(Value(two)) == [0x62];
    assert P.PrintAll(Value(kids)) == [0x61] + [0x62];
    CStringAppend([0x61, 0], RunData(two));
    assert RunData(kids) == [0x61, 0] + RunData(two);
    assert Printed(kids, false) == P.Escape(P.CString([0x61, 0] + RunData(two))) + Printed(None, false);
  }

  /** Merging again changes nothing. */
  lemma {:induction false} MergedTwice(l: Shape, top: bool)
    ensures Merged(Merged(l, top), top) == Merged(l, top)
    decreases Size(l)
  {
    match l {
      case None =>
      case Text(p, data, tail) => {
        MergedTwice(RunRest(tail), top);
        var m := Merged(RunRest(tail), top);
        assert !m.Text? && RunData(m) == [] && RunRest(m) == m;
      }
      case Elem(p, name, atts, kids, tail) => {
        MergedTwice(kids, false);
        MergedTwice(tail, top);
        assert Merged(kids, false).None? <==> kids.None?;
      }
    }
  }

  // ---------------------------------------------------------------- inserting

  function Append(l: Shape, n: Shape): Shape {
    match l
    case None => n
    case Elem(p, name, atts, kids, tail) => Elem(p, name, atts, kids, Append(tail, n))
    case Text(p, data, tail) => Text(p, data, Append(tail, n))
  }

  /** `n` becomes the last child of the element `parent`. */
  function InsertBelow(l: Shape, parent: Ptr, n: Shape): Shape {
    match l
    case None => None
    case Elem(p, name, atts, kids, tail) =>
      Elem(
        p, name, atts,
        if p == parent then Append(kids, n) else InsertBelow(kids, parent, n), InsertBelow(tail, parent, n))
    case Text(p, data, tail) => Text(p, data, InsertBelow(tail, parent, n))
  }

  /** A new node: an element without attributes and children, or text. */
  predicate IsNew(n: Shape) {
    n.Elem? || n.Text? ==> n.tail.None? && (n.Elem? ==> n.kids.None? && n.atts == [])
  }

  function NodeOf(n: Shape): Node {
    match n
    case None => Zeroed
    case Elem(_, name, _, _, _) => Zeroed.(name := name)
    case Text(_, data, _) => Zeroed.(kind := Cdata, data := data)
  }

  /** _xmlnode_insert: the node `n`, new at `p`, is linked as the last child of `parent`. */
  function LinkNode(h: Heap, parent: Ptr, p: Ptr, n: Node): Heap {
    var q := At(h, parent);
    if q.firstchild == NULL then
      h[p := n.(parent := parent)][parent := q.(firstchild := p, lastchild := p)]
    else
      h[p := n.(parent := parent, prev := q.lastchild)]
       [q.lastchild := At(h, q.lastchild).(next := p)]
       [parent := q.(lastchild := p)]
  }

  function InsertNode(h: Heap, parent: Ptr, n: Shape): Heap {
    LinkNode(h, parent, First(n), NodeOf(n))
  }

  lemma {:induction false} AppendParts(l: Shape, n: Shape)
    requires !n.None? && n.tail.None? && Distinct(l) && Distinct(n) && Ids(l) !! Ids(n)
    ensures Distinct(Append(l, n)) && Ids(Append(l, n)) == Ids(l) + Ids(n)
    ensures First(Append(l, n)) == (if l.None? then n.at else l.at) && Last(Append(l, n)) == n.at
  {
    if !l.None? {
      AppendParts(l.tail, n);
    }
  }

  lemma {:induction false} LastIn(l: Shape)
    ensures if l.None? then Last(l) == NULL else Last(l) in Ids(l)
  {
    if !l.None? {
      LastIn(l.tail);
    }
  }

  /** Another node behind the last one. */
  lemma {:induction false} AppendLinked(h: Heap, h1: Heap, l: Shape, par: Ptr, prev: Ptr, n: Shape)
    requires Keeps(h, h1) && Linked(h, l, par, prev) && Distinct(l) && !l.None? && !n.None?
    requires forall q :: q in Ids(l) && q != Last(l) ==> At(h1, q) == At(h, q)
    requires At(h1, Last(l)) == At(h, Last(l)).(next := n.at)
    requires Linked(h1, n, par, Last(l))
    ensures Linked(h1, Append(l, n), par, prev)
  {
    LastIn(l.tail);
    assert l.at in Ids(l);
    if l.Elem? {
      AttsKept(h, h1, h[l.at].firstatt, l.atts);
      LinkedKept(h, h1, l.kids, l.at, NULL);
    }
    if !l.tail.None? {
      AppendLinked(h, h1, l.tail, par, l.at, n);
    }
  }

  lemma {:induction false} InsertElsewhere(l: Shape, parent: Ptr, n: Shape)
    requires parent !in Ids(l)
    ensures InsertBelow(l, parent, n) == l
  {
    if l.Elem? {
      InsertElsewhere(l.kids, parent, n);
    }
    if !l.None? {
      InsertElsewhere(l.tail, parent, n);
    }
  }

  /** The last child of a node is in the same list, below it. */
  lemma {:induction false} LastChildIn(h: Heap, l: Shape, par: Ptr, prev: Ptr, parent: Ptr)
    requires Linked(h, l, par, prev) && parent in Ids(l) && At(h, parent).kind == Tag
    ensures At(h, parent).firstchild == NULL || At(h, parent).lastchild in Ids(l)
    ensures At(h, parent).firstchild == NULL || !Distinct(l) || At(h, parent).lastchild != parent
  {
    if l.Elem? && l.at == parent {
      LastIn(l.kids);
      assert Linked(h, l.kids, l.at, NULL);
    } else if l.Elem? && parent in Ids(l.kids) {
      LastChildIn(h, l.kids, l.at, NULL, parent);
    } else {
      LastChildIn(h, l.tail, par, l.at, parent);
    }
  }

  /** The children of the node itself. */
  lemma KidsInserted(h: Heap, l: Shape, par: Ptr, prev: Ptr, n: Shape)
    requires Linked(h, l, par, prev) && Distinct(l) && l.Elem?
    requires !n.None? && IsNew(n) && n.at !in h && n.at != NULL
    ensures
      var kids := Append(l.kids, n);
      && Linked(InsertNode(h, l.at, n), kids, l.at, NULL) && Distinct(kids) && Ids(kids) == Ids(l.kids) + {n.at}
      && First(kids) == At(InsertNode(h, l.at, n), l.at).firstchild && Last(kids) == n.at
  {
    var h1 := InsertNode(h, l.at, n);
    LinkedIds(h, l, par, prev);
    LastIn(l.kids);
    AppendParts(l.kids, n);
    assert l.kids.None? <==> First(l.kids) == NULL by {
      assert Linked(h, l.kids, l.at, NULL);
    }
    assert Linked(h1, n, l.at, Last(l.kids));
    if !l.kids.None? {
      AppendLinked(h, h1, l.kids, l.at, NULL, n);
    }
  }

  /** What an insertion leaves as it was. */
  lemma InsertKeeps(h: Heap, l: Shape, par: Ptr, prev: Ptr, parent: Ptr, n: Shape)
    requires Linked(h, l, par, prev) && parent in Ids(l) && At(h, parent).kind == Tag
    requires !n.None? && n.at !in h
    ensures Keeps(h, InsertNode(h, parent, n))
    ensures forall q :: q in h && q !in Ids(l) ==> At(InsertNode(h, parent, n), q) == At(h, q)
  {
    LinkedIds(h, l, par, prev);
    LastChildIn(h, l, par, prev, parent);
  }

  /** An element that is above or before the place of an insertion. */
  lemma ElemKept(h: Heap, h1: Heap, l: Shape, par: Ptr, prev: Ptr, mk: Shape, mt: Shape)
    requires Linked(h, l, par, prev) && Distinct(l) && l.Elem? && Keeps(h, h1)
    requires At(h1, l.at) == At(h, l.at)
    requires Linked(h1, mk, l.at, NULL) && First(mk) == First(l.kids) && Last(mk) == Last(l.kids)
    requires Linked(h1, mt, par, l.at) && First(mt) == First(l.tail)
    ensures Linked(h1, Elem(l.at, l.name, l.atts, mk, mt), par, prev)
  {
    AttsKept(h, h1, At(h, l.at).firstatt, l.atts);
  }

  /** Inserting keeps everything linked. */
  lemma {:induction false} InsertLinks(h: Heap, l: Shape, par: Ptr, prev: Ptr, parent: Ptr, n: Shape)
    requires Linked(h, l, par, prev) && Distinct(l) && parent in Ids(l) && At(h, parent).kind == Tag
    requires !n.None? && IsNew(n) && n.at !in h && n.at != NULL
    ensures
      var m := InsertBelow(l, parent, n);
      && Linked(InsertNode(h, parent, n), m, par, prev) && Distinct(m) && Ids(m) == Ids(l) + {n.at}
      && First(m) == First(l) && Last(m) == Last(l)
  {
    var h1 := InsertNode(h, parent, n);
    LinkedIds(h, l, par, prev);
    InsertKeeps(h, l, par, prev, parent, n);
    if l.Elem? && l.at == parent {
      InsertSelf(h, l, par, prev, n);
    } else if l.Elem? && parent in Ids(l.kids) {
      InsertElsewhere(l.tail, parent, n);
      InsertKeeps(h, l.kids, l.at, NULL, parent, n);
      LinkedKept(h, h1, l.tail, par, l.at);
      InsertLinks(h, l.kids, l.at, NULL, parent, n);
      ElemKept(h, h1, l, par, prev, InsertBelow(l.kids, parent, n), l.tail);
    } else {
      InsertKeeps(h, l.tail, par, l.at, parent, n);
      InsertLinks(h, l.tail, par, l.at, parent, n);
      if l.Elem? {
        InsertElsewhere(l.kids, parent, n);
        LinkedKept(h, h1, l.kids, l.at, NULL);
        ElemKept(h, h1, l, par, prev, l.kids, InsertBelow(l.tail, parent, n));
      }
    }
  }

  lemma InsertSelf(h: Heap, l: Shape, par: Ptr, prev: Ptr, n: Shape)
    requires Linked(h, l, par, prev) && Distinct(l) && l.Elem?
    requires !n.None? && IsNew(n) && n.at !in h && n.at != NULL
    ensures
      var m := InsertBelow(l, l.at, n);
      && Linked(InsertNode(h, l.at, n), m, par, prev) && Distinct(m) && Ids(m) == Ids(l) + {n.at}
      && First(m) == First(l) && Last(m) == Last(l)
  {
    var h1 := InsertNode(h, l.at, n);
    LinkedIds(h, l, par, prev);
    InsertKeeps(h, l, par, prev, l.at, n);
    InsertElsewhere(l.tail, l.at, n);
    LastIn(l.kids);
    assert l.kids.None? <==> First(l.kids) == NULL by {
      assert Linked(h, l.kids, l.at, NULL);
    }
    AttsKept(h, h1, At(h, l.at).firstatt, l.atts);
    LinkedKept(h, h1, l.tail, par, l.at);
    KidsInserted(h, l, par, prev, n);
  }
}
