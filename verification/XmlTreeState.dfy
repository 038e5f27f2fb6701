/** The functions of xmlnode.c that print a tree and change it, on its linked nodes. */
module XmlTreeState {
  import opened Bytes
  import opened XmlTree
  import W = Wrappers
  import P = XmlPrint

  /** Ancestors of the node that is visited, with what is left to visit behind each of them. */
  datatype Stack = Bottom | Level(at: Ptr, name: bytes, par: Ptr, rest: Shape, up: Stack)

  function Depth(st: Stack): nat {
    if st.Bottom? then 0 else 1 + Depth(st.up)
  }

  /** What is printed when a list ends. */
  function PrintedUp(st: Stack): bytes {
    if st.Bottom? then []
    else P.EndTag(st.name) + if st.up.Bottom? then [] else Printed(st.rest, false) + PrintedUp(st.up)
  }

  function SettleUp(h: Heap, st: Stack): Heap
    decreases st
  {
    if st.Bottom? || st.up.Bottom? then h
    else SettleUp(Settle(h, st.rest, false), st.up)
  }

  function SizeUp(st: Stack): nat
    decreases st, 0
  {
    if st.Bottom? then 0 else 1 + SizeLeft(st.rest, st.up)
  }

  /** It falls with each node that is entered or left. */
  function SizeLeft(cur: Shape, st: Stack): nat
    decreases st, 1
  {
    2 * Size(cur) + SizeUp(st)
  }

  /** The ancestors are linked, apart from the nodes `inner` that are visited before them. */
  ghost predicate Above(h: Heap, st: Stack, inner: set<Ptr>) {
    st.Level? ==>
      && st.at in h && st.at !in inner && At(h, st.at).kind == Tag && At(h, st.at).name == st.name
      && At(h, st.at).parent == st.par && At(h, st.at).next == First(st.rest)
      && ListOf(h, st.rest, st.par, st.at) && st.at !in Ids(st.rest) && st.at != st.par
      && Ids(st.rest) !! inner && st.par !in inner
      && (st.up.Level? ==> st.par == st.up.at)
      && Above(h, st.up, inner + {st.at} + Ids(st.rest))
  }

  function Par(st: Stack, par: Ptr): Ptr {
    if st.Level? then st.at else par
  }

  /** Nodes that are not visited yet stay as they are. */
  lemma {:induction false} AboveSame(h: Heap, h1: Heap, st: Stack, inner: set<Ptr>)
    requires Above(h, st, inner) && Keeps(h, h1) && h1.Keys == h.Keys
    requires forall q :: q in h && q !in inner ==> At(h1, q) == At(h, q)
    ensures Above(h1, st, inner)
    decreases st
  {
    if st.Level? {
      LinkedKept(h, h1, st.rest, st.par, st.at);
      AboveSame(h, h1, st.up, inner + {st.at} + Ids(st.rest));
    }
  }

  lemma AboveKept(h: Heap, h1: Heap, st: Stack, inner: set<Ptr>, ids: set<Ptr>, par: Ptr, last: Ptr)
    requires Above(h, st, inner) && Frame(h, h1, ids, par, last) && ids <= inner && par == Par(st, par)
    ensures Above(h1, st, inner)
  {
    if st.Level? {
      LinkedKept(h, h1, st.rest, st.par, st.at);
      AboveSame(h, h1, st.up, inner + {st.at} + Ids(st.rest));
    }
  }

  /** Fewer nodes are left to visit before the ancestors. */
  lemma {:induction false} AboveFewer(h: Heap, st: Stack, inner: set<Ptr>, fewer: set<Ptr>)
    requires Above(h, st, inner) && fewer <= inner
    ensures Above(h, st, fewer)
    decreases st
  {
    if st.Level? {
      AboveFewer(h, st.up, inner + {st.at} + Ids(st.rest), fewer + {st.at} + Ids(st.rest));
    }
  }

  lemma DataMerged(h: Heap, l: Shape, prev: Ptr)
    requires l.Text? && ListOf(h, l, At(h, l.at).parent, prev)
    ensures forall data, rest :: rest == RunRest(l.tail) ==> At(MergeText(h, l.at, data, rest), l.at).data == data
  {
    assert First(RunRest(l.tail)) != l.at by {
      assert !RunRest(l.tail).None? ==> First(RunRest(l.tail)) in Ids(RunRest(l.tail));
    }
  }

  // ---------------------------------------------------------------- the walk

  /** `cur` is left to visit in its list, and what is left above it. */
  ghost predicate Walk(h: Heap, cur: Shape, st: Stack, par: Ptr, before: Ptr) {
    ListOf(h, cur, Par(st, par), before) && Above(h, st, Ids(cur))
  }

  function SettleLeft(h: Heap, cur: Shape, st: Stack): Heap {
    SettleUp(Settle(h, cur, st.Bottom?), st)
  }

  function PrintedLeft(cur: Shape, st: Stack): bytes {
    Printed(cur, st.Bottom?) + PrintedUp(st)
  }

  /** With `s` written, the rest of the walk leads to the nodes `end` and the text `all`. */
  ghost predicate Leads(h: Heap, s: bytes, cur: Shape, st: Stack, end: Heap, all: bytes) {
    SettleLeft(h, cur, st) == end && s + PrintedLeft(cur, st) == all
  }

  lemma LeadsOn(h: Heap, s: bytes, cur: Shape, st: Stack, h1: Heap, a: bytes, cur1: Shape, st1: Stack, end: Heap,
      all: bytes)
    requires Leads(h, s, cur, st, end, all)
    requires SettleLeft(h1, cur1, st1) == SettleLeft(h, cur, st) && PrintedLeft(cur, st) == a + PrintedLeft(cur1, st1)
    ensures Leads(h1, s + a, cur1, st1, end, all)
  {
    assert s + (a + PrintedLeft(cur1, st1)) == s + a + PrintedLeft(cur1, st1);
  }

  lemma LeadsToEnd(h: Heap, s: bytes, cur: Shape, st: Stack, h1: Heap, a: bytes, end: Heap, all: bytes)
    requires Leads(h, s, cur, st, end, all) && SettleLeft(h, cur, st) == h1 && PrintedLeft(cur, st) == a
    ensures h1 == end && s + a == all
  {
  }

  /** What is left behind a node without children. */
  function Behind(cur: Shape): (r: Shape)
    requires !cur.None?
    ensures Size(r) < Size(cur)
  {
    if cur.Text? then RunRest(cur.tail) else cur.tail
  }

  ghost predicate Links(h: Heap, p: Ptr, par: Ptr, next: Ptr) {
    p in h && h[p].parent == par && h[p].next == next
  }

  /** What the walk reads at the next node. */
  lemma Visited(h: Heap, cur: Shape, st: Stack, par: Ptr, before: Ptr)
    requires Walk(h, cur, st, par, before)
    ensures First(cur) == NULL <==> cur.None?
    ensures !cur.None? ==> cur.at in h && h[cur.at].kind == if cur.Elem? then Tag else Cdata
    ensures cur.Elem? ==>
      && h[cur.at].firstchild == First(cur.kids) && (First(cur.kids) == NULL <==> cur.kids.None?)
      && h[cur.at].name == cur.name && AttsAt(h, h[cur.at].firstatt, cur.atts)
  {
    if cur.Elem? {
      assert Linked(h, cur.kids, cur.at, NULL);
    }
  }

  lemma StepText(h: Heap, cur: Shape, st: Stack, par: Ptr, before: Ptr)
    requires Walk(h, cur, st, par, before) && cur.Text?
    ensures
      var data := cur.data + RunData(cur.tail);
      var rest := RunRest(cur.tail);
      var h1 := if cur.tail.Text? then MergeText(h, cur.at, data, rest) else h;
      && Walk(h1, rest, st, par, cur.at) && Links(h1, cur.at, Par(st, par), First(rest))
      && SettleLeft(h1, rest, st) == SettleLeft(h, cur, st)
      && PrintedLeft(cur, st) == P.Escape(P.CString(data)) + PrintedLeft(rest, st)
      && Size(rest) < Size(cur)
  {
    var rest := RunRest(cur.tail);
    if cur.tail.Text? {
      MergeLinked(h, cur, Par(st, par), before);
      LinkedIds(h, cur, Par(st, par), before);
      var h1 := MergeText(h, cur.at, cur.data + RunData(cur.tail), rest);
      AboveKept(h, h1, st, Ids(cur), Ids(cur), Par(st, par), if rest.None? then cur.at else Last(rest));
      AboveFewer(h1, st, Ids(cur), Ids(rest));
    } else {
      AboveFewer(h, st, Ids(cur), Ids(rest));
    }
  }

  lemma StepEmpty(h: Heap, cur: Shape, st: Stack, par: Ptr, before: Ptr)
    requires Walk(h, cur, st, par, before) && cur.Elem? && cur.kids.None?
    ensures Walk(h, cur.tail, st, par, cur.at) && Links(h, cur.at, Par(st, par), First(cur.tail))
    ensures SettleLeft(h, cur.tail, st) == SettleLeft(h, cur, st)
    ensures PrintedLeft(cur, st) == P.EmptyTag(cur.name, cur.atts) + PrintedLeft(cur.tail, st)
  {
    AboveFewer(h, st, Ids(cur), Ids(cur.tail));
  }

  lemma SizeDown(cur: Shape, st: Stack, par: Ptr)
    requires cur.Elem?
    ensures SizeLeft(cur.kids, Level(cur.at, cur.name, par, cur.tail, st)) < SizeLeft(cur, st)
  {
    assert SizeUp(Level(cur.at, cur.name, par, cur.tail, st)) == 1 + SizeLeft(cur.tail, st);
  }

  lemma Regroup(a: bytes, b: bytes, c: bytes, d: bytes, e: bytes)
    ensures a + b + c + d + e == a + (b + (c + (d + e)))
  {
  }

  lemma PrintedDown(cur: Shape, st: Stack, par: Ptr)
    requires cur.Elem? && !cur.kids.None?
    ensures
      var st1 := Level(cur.at, cur.name, par, cur.tail, st);
      PrintedLeft(cur, st) == P.StartTag(cur.name, cur.atts) + PrintedLeft(cur.kids, st1)
  {
    var start, kids, end := P.StartTag(cur.name, cur.atts), Printed(cur.kids, false), P.EndTag(cur.name);
    var rest := if st.Bottom? then [] else Printed(cur.tail, false);
    var up := PrintedUp(st);
    assert Printed(cur, st.Bottom?) == start + kids + end + rest;
    assert PrintedUp(Level(cur.at, cur.name, par, cur.tail, st)) == end + (rest + up) by {
      assert st.Bottom? ==> rest + up == [];
    }
    Regroup(start, kids, end, rest, up);
  }

  lemma StepDown(h: Heap, cur: Shape, st: Stack, par: Ptr, before: Ptr)
    requires Walk(h, cur, st, par, before) && cur.Elem? && !cur.kids.None?
    ensures
      var st1 := Level(cur.at, cur.name, Par(st, par), cur.tail, st);
      && Walk(h, cur.kids, st1, par, NULL)
      && SettleLeft(h, cur.kids, st1) == SettleLeft(h, cur, st)
      && PrintedLeft(cur, st) == P.StartTag(cur.name, cur.atts) + PrintedLeft(cur.kids, st1)
      && SizeLeft(cur.kids, st1) < SizeLeft(cur, st)
  {
    PrintedDown(cur, st, Par(st, par));
    SizeDown(cur, st, Par(st, par));
    AboveFewer(h, st, Ids(cur), Ids(cur.kids) + {cur.at} + Ids(cur.tail));
  }

  lemma StepUp(h: Heap, st: Stack, par: Ptr, before: Ptr)
    requires Walk(h, None, st, par, before) && st.Level?
    ensures Links(h, st.at, st.par, First(st.rest)) && At(h, st.at).name == st.name
    ensures st.up.Level? ==>
      && Walk(h, st.rest, st.up, par, st.at)
      && SettleLeft(h, st.rest, st.up) == SettleLeft(h, None, st)
      && PrintedLeft(None, st) == P.EndTag(st.name) + PrintedLeft(st.rest, st.up)
    ensures SizeLeft(st.rest, st.up) < SizeLeft(None, st)
    ensures st.up.Bottom? ==> SettleLeft(h, None, st) == h && PrintedLeft(None, st) == P.EndTag(st.name)
  {
    AboveFewer(h, st.up, {} + {st.at} + Ids(st.rest), Ids(st.rest));
  }

  lemma Finished(h: Heap, l: Shape, par: Ptr, prev: Ptr)
    requires ListOf(h, l, par, prev) && l.Elem?
    ensures ListOf(Settle(h, l, true), Merged(l, true), par, prev) && Settle(h, l, true).Keys == h.Keys
    ensures Printed(l, true) == P.PrintAll(Until(Value(Merged(l, true))))
    ensures l.tail.None? ==> (Printed(l, true) == P.Print(Value(l).head) <==> AllSeen(l))
  {
    SettleLinks(h, l, par, prev, true);
    PrintedMerged(l, true);
    if l.tail.None? {
      PrintsTree(l);
    }
  }

  lemma InsertParent(h: Heap, l: Shape, par: Ptr, prev: Ptr, parent: Ptr)
    requires ListOf(h, l, par, prev) && parent in Ids(l) && At(h, parent).kind == Tag
    ensures parent in h
    ensures At(h, parent).firstchild != NULL ==> At(h, parent).lastchild in h && At(h, parent).lastchild != parent
  {
    LinkedIds(h, l, par, prev);
    LastChildIn(h, l, par, prev, parent);
  }

  lemma InsertedList(h: Heap, l: Shape, par: Ptr, prev: Ptr, parent: Ptr, n: Shape)
    requires ListOf(h, l, par, prev) && parent in Ids(l) && At(h, parent).kind == Tag
    requires !n.None? && IsNew(n) && n.at !in h && n.at != NULL && n.at != par
    ensures ListOf(InsertNode(h, parent, n), InsertBelow(l, parent, n), par, prev)
  {
    var h1, m := InsertNode(h, parent, n), InsertBelow(l, parent, n);
    InsertLinks(h, l, par, prev, parent, n);
    InsertParentKept(h, l, par, prev, parent, n);
    assert ListOf(h1, m, par, prev) by {
      assert par !in Ids(m);
    }
  }

  lemma InsertParentKept(h: Heap, l: Shape, par: Ptr, prev: Ptr, parent: Ptr, n: Shape)
    requires ListOf(h, l, par, prev) && parent in Ids(l) && At(h, parent).kind == Tag
    requires !n.None? && n.at !in h && n.at != par
    ensures par in InsertNode(h, parent, n) <==> par in h
    ensures par in h ==> At(InsertNode(h, parent, n), par) == At(h, par)
  {
    InsertKeeps(h, l, par, prev, parent, n);
    InsertParent(h, l, par, prev, parent);
    LastChildIn(h, l, par, prev, parent);
  }

  /** xmlnode.c, on nodes that are kept by their addresses. */
  class Nodes {
    var nodes: Heap
    var unused: Ptr

    /** Nodes are allocated from `unused` on. */
    ghost predicate Valid()
      reads this
    {
      unused != NULL && forall q :: q in nodes ==> q < unused
    }

    /** _xmlnode_new. */
    method New(kind: Kind, name: bytes, data: bytes) returns (result: Ptr)
      requires Valid()
      modifies this
      ensures Valid() && result != NULL && result !in old(nodes)
      ensures nodes == old(nodes)[result := Zeroed.(kind := kind, name := name, data := data)]
    {
      result := unused;
      nodes := nodes[result := Zeroed.(kind := kind, name := name, data := data)];
      unused := unused + 1;
    }

    /** _xmlnode_append_sibling. */
    method AppendSibling(lastsibling: Ptr, kind: Kind, name: bytes, data: bytes) returns (result: Ptr)
      requires Valid() && lastsibling in nodes
      modifies this
      ensures Valid() && result != NULL && result !in old(nodes)
      ensures nodes == old(nodes)
        [result := Zeroed.(kind := kind, name := name, data := data, prev := lastsibling)]
        [lastsibling := old(nodes)[lastsibling].(next := result)]
    {
      result := New(kind, name, data);
      nodes := nodes[result := nodes[result].(prev := lastsibling)];
      nodes := nodes[lastsibling := nodes[lastsibling].(next := result)];
    }

    /** _xmlnode_insert. */
    method Insert(parent: Ptr, kind: Kind, name: bytes, data: bytes) returns (result: Ptr)
      requires Valid() && parent in nodes && NULL !in nodes
      requires
        nodes[parent].firstchild != NULL ==>
          nodes[parent].lastchild in nodes && nodes[parent].lastchild != parent
      modifies this
      ensures Valid() && result != NULL && result !in old(nodes) && NULL !in nodes
      ensures nodes == LinkNode(old(nodes), parent, result, Zeroed.(kind := kind, name := name, data := data))
    {
      if nodes[parent].firstchild == NULL {
        result := New(kind, name, data);
        nodes := nodes[parent := nodes[parent].(firstchild := result)];
      } else {
        result := AppendSibling(nodes[parent].lastchild, kind, name, data);
      }
      nodes := nodes[result := nodes[result].(parent := parent)];
      nodes := nodes[parent := nodes[parent].(lastchild := result)];
    }

    /** xmlnode_insert_tag: an element is inserted below `parent` in the tree `l`. */
    method InsertTag(parent: Ptr, name: bytes, ghost l: Shape, ghost par: Ptr, ghost prev: Ptr) returns (result: Ptr)
      requires Valid() && NULL !in nodes
      requires parent != NULL ==> ListOf(nodes, l, par, prev) && parent in Ids(l) && At(nodes, parent).kind == Tag
      requires par == NULL || par in nodes
      modifies this
      ensures Valid() && NULL !in nodes
      ensures parent == NULL ==> result == NULL && nodes == old(nodes)
      ensures parent != NULL ==>
        && result !in old(nodes)
        && ListOf(nodes, InsertBelow(l, parent, Elem(result, name, [], None, None)), par, prev)
    {
      if parent == NULL {
        return NULL;
      }
      InsertParent(nodes, l, par, prev, parent);
      result := Insert(parent, Tag, name, []);
      assert nodes == InsertNode(old(nodes), parent, Elem(result, name, [], None, None));
      InsertedList(old(nodes), l, par, prev, parent, Elem(result, name, [], None, None));
    }

    /** xmlnode_insert_cdata: text is inserted below `parent`, in a piece of its own. */
    method InsertCdata(parent: Ptr, data: bytes, ghost l: Shape, ghost par: Ptr, ghost prev: Ptr) returns (result: Ptr)
      requires Valid() && NULL !in nodes
      requires parent != NULL ==> ListOf(nodes, l, par, prev) && parent in Ids(l) && At(nodes, parent).kind == Tag
      requires par == NULL || par in nodes
      modifies this
      ensures Valid() && NULL !in nodes
      ensures parent == NULL ==> result == NULL && nodes == old(nodes)
      ensures parent != NULL ==>
        && result !in old(nodes)
        && ListOf(nodes, InsertBelow(l, parent, Text(result, data, None)), par, prev)
    {
      if parent == NULL {
        return NULL;
      }
      InsertParent(nodes, l, par, prev, parent);
      result := Insert(parent, Cdata, [], []);
      nodes := nodes[result := nodes[result].(data := data)];
      assert nodes == InsertNode(old(nodes), parent, Text(result, data, None));
      InsertedList(old(nodes), l, par, prev, parent, Text(result, data, None));
    }

    /** _xmlnode_merge. */
    method Merge(data: Ptr, ghost l: Shape, ghost prev: Ptr)
      requires l.Text? && l.at == data && ListOf(nodes, l, At(nodes, data).parent, prev)
      modifies this`nodes
      ensures nodes == MergeText(old(nodes), data, l.data + RunData(l.tail), RunRest(l.tail))
    {
      ghost var left, before := l, prev;
      ghost var par := nodes[data].parent;
      var imerge := 0;
      var cur := data;
      while cur != NULL && nodes[cur].kind == Cdata
        invariant Linked(nodes, left, par, before) && cur == First(left)
        invariant imerge + |RunData(left)| == |RunData(l)| && RunRest(left) == RunRest(l)
        decreases left
      {
        imerge := imerge + |nodes[cur].data|;
        cur := nodes[cur].next;
        left, before := left.tail, left.at;
      }
      var merge := [];
      left, before := l, prev;
      cur := data;
      while cur != NULL && nodes[cur].kind == Cdata
        invariant Linked(nodes, left, par, before) && cur == First(left)
        invariant merge + RunData(left) == RunData(l) && RunRest(left) == RunRest(l)
        decreases left
      {
        merge := merge + nodes[cur].data;
        cur := nodes[cur].next;
        left, before := left.tail, left.at;
      }
      assert merge + [] == merge && |merge| == imerge;
      nodes := nodes[data := nodes[data].(next := cur)];
      if cur == NULL {
        var q := nodes[data].parent;
        nodes := nodes[q := nodes[q].(lastchild := data)];
      } else {
        nodes := nodes[cur := nodes[cur].(prev := data)];
      }
      nodes := nodes[data := nodes[data].(data := merge)];
    }

    /** xmlnode_get_data, for text and attributes: text with more text behind it is merged first. */
    method GetData(node: Ptr, ghost l: Shape, ghost prev: Ptr) returns (r: bytes)
      requires node in nodes
      requires
        if nodes[node].kind == Attrib then
          nodes[node].next == NULL || (nodes[node].next in nodes && nodes[nodes[node].next].kind == Attrib)
        else
          l.Text? && l.at == node && ListOf(nodes, l, nodes[node].parent, prev)
      modifies this`nodes
      ensures
        if old(nodes)[node].kind == Attrib then r == old(nodes)[node].data && nodes == old(nodes)
        else
          && r == l.data + RunData(l.tail)
          && nodes == if l.tail.Text? then MergeText(old(nodes), node, r, RunRest(l.tail)) else old(nodes)
    {
      var next := nodes[node].next;
      if nodes[node].kind != Attrib {
        assert Linked(nodes, l.tail, nodes[node].parent, node) && l.data + [] == l.data;
        DataMerged(nodes, l, prev);
      }
      if next != NULL && nodes[next].kind == Cdata {
        Merge(node, l, prev);
      }
      return nodes[node].data;
    }

    /** xmlnode_get_data for an element: the first text in it; None where there is none. */
    method GetElementData(node: Ptr, ghost l: Shape, ghost par: Ptr, ghost prev: Ptr) returns (r: W.Option<bytes>)
      requires node != NULL ==> l.Elem? && l.at == node && ListOf(nodes, l, par, prev)
      modifies this`nodes
      ensures node == NULL ==> r == W.None && nodes == old(nodes)
      ensures node != NULL ==>
        var t := FirstText(l.kids);
        && r == (if t.Text? then W.Some(RunData(t)) else W.None)
        && nodes == MergeFirst(old(nodes), l.kids)
        && ListOf(nodes, Elem(node, l.name, l.atts, FirstMerged(l.kids), l.tail), par, prev)
    {
      if node == NULL {
        return W.None;
      }
      ElementMerged(nodes, l, par, prev);
      var n := nodes[node].firstchild;
      ghost var left, before := l.kids, NULL;
      while n != NULL && nodes[n].kind != Cdata
        invariant nodes == old(nodes) && ListOf(nodes, left, node, before) && n == First(left)
        invariant FirstText(left) == FirstText(l.kids)
        decreases left
      {
        n, left, before := nodes[n].next, left.tail, left.at;
      }
      if n == NULL {
        return W.None;
      }
      var data := GetData(n, left, before);
      return W.Some(data);
    }

    /** _xmlnode_tag2str. */
    method TagToString(node: Ptr, flag: int, ghost atts: seq<P.Att>) returns (s: bytes)
      requires node in nodes && (flag == 0 || flag == 1 ==> AttsAt(nodes, nodes[node].firstatt, atts))
      modifies this`nodes
      ensures nodes == old(nodes)
      ensures
        var name := nodes[node].name;
        s == if flag == 0 then P.EmptyTag(name, atts) else if flag == 1 then P.StartTag(name, atts) else P.EndTag(name)
    {
      if flag == 0 || flag == 1 {
        s := [P.LT] + nodes[node].name;
        var tmp := nodes[node].firstatt;
        ghost var rest := atts;
        while tmp != NULL
          invariant nodes == old(nodes) && AttsAt(nodes, tmp, rest)
          invariant s + P.PrintAtts(rest) == [P.LT] + nodes[node].name + P.PrintAtts(atts)
          decreases |rest|
        {
          var data := GetData(tmp, None, NULL);
          data := P.Strescape(data);
          PutAtt(s, rest);
          s := s + ([P.SPACE] + (nodes[tmp].name + ([P.EQUALS, P.APOS] + (data + [P.APOS]))));
          tmp := nodes[tmp].next;
          rest := rest[1..];
        }
        assert s + [] == s;
        s := s + if flag == 0 then [P.SOL, P.GT] else [P.GT];
      } else {
        s := [P.LT, P.SOL] + nodes[node].name + [P.GT];
      }
    }

    /** A node without children: _xmlnode2spool prints it, and stays in the list. */
    method PrintLeaf(n: Ptr, s: bytes, ghost cur: Shape, ghost st: Stack, ghost par: Ptr, ghost before: Ptr,
        ghost end: Heap, ghost all: bytes)
      returns (s1: bytes)
      requires Walk(nodes, cur, st, par, before) && (cur.Text? || (cur.Elem? && cur.kids.None?)) && cur.at == n
      requires Leads(nodes, s, cur, st, end, all)
      modifies this`nodes
      ensures Walk(nodes, Behind(cur), st, par, n) && Links(nodes, n, Par(st, par), First(Behind(cur)))
      ensures Leads(nodes, s1, Behind(cur), st, end, all) && SizeLeft(Behind(cur), st) < SizeLeft(cur, st)
    {
      var leaf;
      if nodes[n].kind == Tag {
        StepEmpty(nodes, cur, st, par, before);
        leaf := TagToString(n, 0, cur.atts);
      } else {
        StepText(nodes, cur, st, par, before);
        var data := GetData(n, cur, before);
        leaf := P.Strescape(P.CString(data));
      }
      s1 := s + leaf;
      LeadsOn(old(nodes), s, cur, st, nodes, leaf, Behind(cur), st, end, all);
    }

    /** A node with children: _xmlnode2spool opens it, and goes down. */
    method EnterKids(n: Ptr, s: bytes, ghost cur: Shape, ghost st: Stack, ghost par: Ptr, ghost before: Ptr,
        ghost end: Heap, ghost all: bytes)
      returns (m: Ptr, s1: bytes, ghost st1: Stack)
      requires Walk(nodes, cur, st, par, before) && cur.Elem? && !cur.kids.None? && cur.at == n
      requires Leads(nodes, s, cur, st, end, all)
      modifies this`nodes
      ensures nodes == old(nodes) && m == First(cur.kids) && Depth(st1) == Depth(st) + 1
      ensures Walk(nodes, cur.kids, st1, par, NULL)
      ensures Leads(nodes, s1, cur.kids, st1, end, all) && SizeLeft(cur.kids, st1) < SizeLeft(cur, st)
    {
      st1 := Level(cur.at, cur.name, Par(st, par), cur.tail, st);
      StepDown(nodes, cur, st, par, before);
      var tag := TagToString(n, 1, cur.atts);
      m, s1 := nodes[n].firstchild, s + tag;
      LeadsOn(nodes, s, cur, st, nodes, tag, cur.kids, st1, end, all);
    }

    /** The end of a list: _xmlnode2spool goes up to the parent, and closes it unless that is above the root. */
    method LeaveList(n: Ptr, level: int, s: bytes, ghost st: Stack, ghost par: Ptr, ghost before: Ptr,
        ghost end: Heap, ghost all: bytes)
      returns (m: Ptr, up: int, s1: bytes)
      requires level == Depth(st) && Walk(nodes, None, st, par, before) && Links(nodes, n, Par(st, par), NULL)
      requires Leads(nodes, s, None, st, end, all)
      modifies this`nodes
      ensures nodes == old(nodes) && up == level - 1
      ensures up < 1 ==> nodes == end && s1 == all
      ensures up >= 1 ==>
        && Walk(nodes, st.rest, st.up, par, st.at) && Links(nodes, m, Par(st.up, par), First(st.rest))
        && Leads(nodes, s1, st.rest, st.up, end, all) && SizeLeft(st.rest, st.up) < SizeLeft(None, st)
    {
      m, up, s1 := nodes[n].parent, level - 1, s;
      if up < 0 {
        LeadsToEnd(nodes, s, None, st, nodes, [], end, all);
      } else {
        StepUp(nodes, st, par, before);
        var tag := TagToString(m, 2, []);
        if up < 1 {
          LeadsToEnd(nodes, s, None, st, nodes, tag, end, all);
        } else {
          LeadsOn(nodes, s, None, st, nodes, tag, st.rest, st.up, end, all);
        }
        s1 := s + tag;
      }
    }

    /** _xmlnode2spool: a walk over the nodes by their links, up and down the levels. */
    method NodeToSpool(node: Ptr, ghost l: Shape, ghost par: Ptr, ghost prev: Ptr) returns (r: W.Option<bytes>)
      requires node != NULL ==> !l.None? && l.at == node && ListOf(nodes, l, par, prev)
      modifies this`nodes
      ensures r.Some? <==> node != NULL && l.Elem?
      ensures r.None? ==> nodes == old(nodes)
      ensures r.Some? ==> nodes == Settle(old(nodes), l, true) && r.value == Printed(l, true)
    {
      if node == NULL || nodes[node].kind != Tag {
        return W.None;
      }
      var s: bytes := [];
      var n, level, dir := node, 0, 0;
      ghost var cur, st, before := l, Bottom, prev;
      ghost var end, all := Settle(nodes, l, true), Printed(l, true);
      while true
        invariant level == Depth(st) && Walk(nodes, cur, st, par, before)
        invariant if dir == 0 then !cur.None? && cur.at == n else dir == 1 && Links(nodes, n, Par(st, par), First(cur))
        invariant Leads(nodes, s, cur, st, end, all)
        decreases SizeLeft(cur, st), dir
      {
        Visited(nodes, cur, st, par, before);
        if dir == 0 {
          if nodes[n].kind == Tag && nodes[n].firstchild != NULL {
            n, s, st := EnterKids(n, s, cur, st, par, before, end, all);
            level := level + 1;
            cur, before := cur.kids, NULL;
            continue;
          }
          s := PrintLeaf(n, s, cur, st, par, before, end, all);
          cur, before := Behind(cur), cur.at;
        }
        var tmp := nodes[n].next;
        if tmp == NULL {
          n, level, s := LeaveList(n, level, s, st, par, before, end, all);
          if level < 1 {
            break;
          }
          dir := 1;
          cur, before, st := st.rest, st.at, st.up;
        } else {
          n, dir := tmp, 0;
        }
      }
      return W.Some(s);
    }

    /**
      xmlnode2str: the text of the merged tree, up to the first sibling that has
      children; with nothing behind its root, the text of the tree as it was, exactly if
      nothing is lost behind a NUL. The merged tree is linked afterwards.
     */
    method NodeToString(node: Ptr, ghost l: Shape, ghost par: Ptr, ghost prev: Ptr) returns (r: W.Option<bytes>)
      requires node != NULL ==> !l.None? && l.at == node && ListOf(nodes, l, par, prev)
      modifies this`nodes
      ensures r.Some? <==> node != NULL && l.Elem?
      ensures r.None? ==> nodes == old(nodes)
      ensures r.Some? ==> ListOf(nodes, Merged(l, true), par, prev) && nodes.Keys == old(nodes).Keys
      ensures r.Some? ==> r.value == P.PrintAll(Until(Value(Merged(l, true))))
      ensures r.Some? && l.tail.None? ==> (r.value == P.Print(Value(l).head) <==> AllSeen(l))
    {
      r := NodeToSpool(node, l, par, prev);
      if r.Some? {
        Finished(old(nodes), l, par, prev);
      }
    }
  }

  lemma PutAtt(s: bytes, l: seq<P.Att>)
    requires l != []
    ensures s + P.PrintAtts(l) == s + ([P.SPACE] + P.AttText(l[0])) + P.PrintAtts(l[1..])
  {
    assert P.PrintAtts(l) == [P.SPACE] + P.AttText(l[0]) + P.PrintAtts(l[1..]);
  }
}
