/** What an insertion and the search for text do to a tree, node by node. */
module XmlTreeLaws {
  import opened Bytes
  import opened XmlTree

  /** The addresses of siblings, in order. */
  function Addresses(l: Shape): seq<Ptr> {
    if l.None? then [] else [l.at] + Addresses(l.tail)
  }

  /** The node at `q`, with what is behind it. */
  function Sub(l: Shape, q: Ptr): Shape {
    match l
    case None => None
    case Elem(p, _, _, kids, tail) => if p == q then l else if q in Ids(kids) then Sub(kids, q) else Sub(tail, q)
    case Text(p, _, tail) => if p == q then l else Sub(tail, q)
  }

  /** The children of the node at `q`. */
  function Children(l: Shape, q: Ptr): seq<Ptr> {
    var n := Sub(l, q);
    if n.Elem? then Addresses(n.kids) else []
  }

  predicate SameNode(a: Shape, b: Shape) {
    match a
    case None => b.None?
    case Elem(p, name, atts, _, _) => b.Elem? && b.at == p && b.name == name && b.atts == atts
    case Text(p, data, _) => b.Text? && b.at == p && b.data == data
  }

  lemma {:induction false} AddressesAppend(l: Shape, n: Shape)
    ensures Addresses(Append(l, n)) == Addresses(l) + Addresses(n)
  {
    if !l.None? {
      AddressesAppend(l.tail, n);
      assert [l.at] + (Addresses(l.tail) + Addresses(n)) == ([l.at] + Addresses(l.tail)) + Addresses(n);
    } else {
      assert [] + Addresses(n) == Addresses(n);
    }
  }

  lemma {:induction false} SubAppend(l: Shape, n: Shape, q: Ptr)
    requires q in Ids(l) && Distinct(l)
    ensures SameNode(Sub(l, q), Sub(Append(l, n), q)) && Children(Append(l, n), q) == Children(l, q)
  {
    if l.at != q && !(l.Elem? && q in Ids(l.kids)) {
      SubAppend(l.tail, n, q);
    }
  }

  lemma {:induction false} InsertAddresses(l: Shape, parent: Ptr, n: Shape)
    ensures Addresses(InsertBelow(l, parent, n)) == Addresses(l)
  {
    if !l.None? {
      InsertAddresses(l.tail, parent, n);
    }
  }

  /** No node is lost, and only the new ones come in. */
  lemma {:induction false} InsertIds(l: Shape, parent: Ptr, n: Shape)
    requires Distinct(l)
    ensures Ids(InsertBelow(l, parent, n)) == Ids(l) + if InTag(l, parent) then Ids(n) else {}
  {
    if l.Elem? {
      InsertIds(l.kids, parent, n);
      if l.at == parent {
        AppendIds(l.kids, n);
      }
    }
    if !l.None? {
      InsertIds(l.tail, parent, n);
    }
  }

  lemma {:induction false} AppendIds(l: Shape, n: Shape)
    ensures Ids(Append(l, n)) == Ids(l) + Ids(n)
  {
    if !l.None? {
      AppendIds(l.tail, n);
    }
  }

  /** An element is at `q`. */
  predicate InTag(l: Shape, q: Ptr) {
    match l
    case None => false
    case Elem(p, _, _, kids, tail) => p == q || InTag(kids, q) || InTag(tail, q)
    case Text(_, _, tail) => InTag(tail, q)
  }

  /** The children of the parent are those it had, and the new node; every node, and all other children, stay. */
  lemma {:induction false} InsertedLast(l: Shape, parent: Ptr, n: Shape, q: Ptr)
    requires Distinct(l) && !n.None? && n.tail.None? && n.at !in Ids(l) && q in Ids(l) && Ids(n) == {n.at}
    ensures
      var m := InsertBelow(l, parent, n);
      && SameNode(Sub(l, q), Sub(m, q))
      && Children(m, q) == Children(l, q) + if q == parent && Sub(l, q).Elem? then [n.at] else []
  {
    if l.at == q {
      if l.Elem? {
        AddressesAppend(l.kids, n);
        InsertAddresses(l.kids, parent, n);
      }
    } else if l.Elem? && q in Ids(l.kids) {
      if l.at == parent {
        SubAppend(l.kids, n, q);
        AppendIds(l.kids, n);
      } else {
        InsertedLast(l.kids, parent, n, q);
        InsertIds(l.kids, parent, n);
      }
    } else {
      if l.Elem? {
        InsertIds(l.kids, parent, n);
        AppendIds(l.kids, n);
      }
      InsertedLast(l.tail, parent, n, q);
    }
  }

  // ---------------------------------------------------------------- text

  /** What is behind the `k` first siblings. */
  function Drop(l: Shape, k: nat): Shape {
    if k == 0 || l.None? then l else Drop(l.tail, k - 1)
  }

  /** The data of the `k` first siblings, which are text. */
  function Pieces(l: Shape, k: nat): seq<bytes> {
    if k == 0 || !l.Text? then [] else [l.data] + Pieces(l.tail, k - 1)
  }

  function Concat(l: seq<bytes>): bytes {
    if l == [] then [] else Concat(l[..|l| - 1]) + l[|l| - 1]
  }

  lemma {:induction false} ConcatFirst(x: bytes, l: seq<bytes>)
    ensures Concat([x] + l) == x + Concat(l)
    decreases |l|
  {
    if l == [] {
      assert ([x] + l)[..0] == [];
    } else {
      assert ([x] + l)[..|l|] == [x] + l[..|l| - 1];
      ConcatFirst(x, l[..|l| - 1]);
    }
  }

  /** The text of an element is the first text behind its `k` first children, which are elements. */
  lemma {:induction false} FirstTextIs(l: Shape) returns (k: nat)
    ensures FirstText(l) == Drop(l, k) && !Drop(l, k).Elem? && forall j :: 0 <= j < k ==> Drop(l, j).Elem?
  {
    k := 0;
    if l.Elem? {
      var n := FirstTextIs(l.tail);
      k := n + 1;
      forall j | 0 <= j < k ensures Drop(l, j).Elem? {
        if j > 0 {
          assert Drop(l, j) == Drop(l.tail, j - 1);
        }
      }
    }
  }

  /** The text at the start of a list is that of all pieces up to an element, or the end, in order. */
  lemma {:induction false} RunIs(l: Shape) returns (k: nat)
    ensures |Pieces(l, k)| == k && RunData(l) == Concat(Pieces(l, k)) && RunRest(l) == Drop(l, k)
    ensures !Drop(l, k).Text? && forall j :: 0 <= j < k ==> Drop(l, j).Text? && Drop(l, j).data == Pieces(l, k)[j]
  {
    k := 0;
    if l.Text? {
      var n := RunIs(l.tail);
      k := n + 1;
      ConcatFirst(l.data, Pieces(l.tail, n));
      forall j | 0 <= j < k ensures Drop(l, j).Text? && Drop(l, j).data == Pieces(l, k)[j] {
        if j > 0 {
          assert Drop(l, j) == Drop(l.tail, j - 1);
        }
      }
    }
  }
}
