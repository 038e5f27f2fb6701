/** The parser fields that hold the namespace scopes, and the code that changes them. */
module NamespacesState {
  import opened Bytes
  import opened Wrappers
  import opened Namespaces
  import C = NsContext

  /** What is in scope at each level: inside of the innermost open tag first, outside of all of them last. */
  function Levels(s: Store, lists: seq<seq<Ptr>>, inherited: seq<Ptr>, separator: byte): (r: seq<seq<Decl>>)
    ensures |r| == |lists| + 1 && r[0] == Decls(s, Flat(lists) + inherited, separator)
  {
    [Decls(s, Flat(lists) + inherited, separator)]
    + if lists == [] then [] else Levels(s, lists[1..], inherited, separator)
  }

  lemma {:induction false} LevelsKept(s: Store, s1: Store, lists: seq<seq<Ptr>>, inherited: seq<Ptr>, separator: byte)
    requires Same(s, s1, Flat(lists) + inherited) && Scoped(s, Flat(lists) + inherited, separator)
    ensures Levels(s1, lists, inherited, separator) == Levels(s, lists, inherited, separator)
  {
    ScopedKept(s, s1, Flat(lists) + inherited, separator);
    if lists != [] {
      FlatRest(s, lists, inherited, separator);
      LevelsKept(s, s1, lists[1..], inherited, separator);
    }
  }

  lemma {:induction false} ScopedTail(s: Store, l: seq<Ptr>, m: seq<Ptr>, separator: byte)
    requires Scoped(s, l + m, separator)
    ensures Scoped(s, m, separator)
    decreases |l|
  {
    if l == [] {
      assert l + m == m;
    } else {
      assert (l + m)[1..] == l[1..] + m;
      ScopedTail(s, l[1..], m, separator);
    }
  }

  lemma FlatRest(s: Store, lists: seq<seq<Ptr>>, inherited: seq<Ptr>, separator: byte)
    requires lists != [] && Scoped(s, Flat(lists) + inherited, separator)
    ensures Scoped(s, Flat(lists[1..]) + inherited, separator)
    ensures Flat(lists) + inherited == lists[0] + (Flat(lists[1..]) + inherited)
    ensures forall b :: b in Flat(lists[1..]) + inherited ==> b in Flat(lists) + inherited
  {
    assert Flat(lists) + inherited == lists[0] + (Flat(lists[1..]) + inherited);
    ScopedTail(s, lists[0], Flat(lists[1..]) + inherited, separator);
  }

  lemma {:induction false} InFlat(lists: seq<seq<Ptr>>, i: nat, b: Ptr)
    requires i < |lists| && b in lists[i]
    ensures b in Flat(lists)
  {
    if i > 0 {
      InFlat(lists[1..], i - 1, b);
    }
  }

  /** The lists of the open tags. */
  ghost predicate Chains(s: Store, heads: seq<Ptr>, lists: seq<seq<Ptr>>) {
    |heads| == |lists| && forall i :: 0 <= i < |heads| ==> Chain(s, heads[i], lists[i])
  }

  lemma ChainsKept(s: Store, s1: Store, heads: seq<Ptr>, lists: seq<seq<Ptr>>)
    requires Chains(s, heads, lists) && Same(s, s1, Flat(lists))
    ensures Chains(s1, heads, lists)
  {
    forall i | 0 <= i < |heads| ensures Chain(s1, heads[i], lists[i]) {
      forall b | b in lists[i] ensures b in Flat(lists) {
        InFlat(lists, i, b);
      }
      ChainKept(s, s1, heads[i], lists[i]);
    }
  }

  /** A new innermost binding. */
  lemma Added(s: Store, s1: Store, all: seq<Ptr>, b: Ptr, prefix: Prefix, next: Ptr, uri: bytes, separator: byte)
    requires Scoped(s, all, separator) && b !in all && forall c :: c in all ==> c in s
    requires s1 == s[b := Binding(prefix, Innermost(s, all, prefix, separator), next, Stored(uri, separator))]
    ensures Same(s, s1, all) && Scoped(s1, [b] + all, separator)
    ensures Decls(s1, [b] + all, separator) == [Decl(prefix, uri)] + Decls(s, all, separator)
    ensures forall p ::
      Innermost(s1, [b] + all, p, separator)
      == if p != prefix then Innermost(s, all, p, separator) else if p.Default? && uri == [] then NULL else b
  {
    assert ([b] + all)[1..] == all;
    ScopedKept(s, s1, all, separator);
    forall p ensures Innermost(s1, all, p, separator) == Innermost(s, all, p, separator) {
      InnermostKept(s, s1, all, p, separator);
    }
  }

  /** `b` is put in front of the innermost list, or of the inherited one. */
  function PushTag(lists: seq<seq<Ptr>>, b: Ptr): seq<seq<Ptr>> {
    if lists == [] then [] else [[b] + lists[0]] + lists[1..]
  }

  function PushInherited(lists: seq<seq<Ptr>>, inherited: seq<Ptr>, b: Ptr): seq<Ptr> {
    if lists == [] then [b] + inherited else inherited
  }

  lemma PushedFlat(lists: seq<seq<Ptr>>, inherited: seq<Ptr>, b: Ptr)
    ensures Flat(PushTag(lists, b)) + PushInherited(lists, inherited, b) == [b] + (Flat(lists) + inherited)
  {
    if lists != [] {
      assert PushTag(lists, b)[1..] == lists[1..];
    }
  }

  lemma PushedLevels(s: Store, s1: Store, lists: seq<seq<Ptr>>, inherited: seq<Ptr>, b: Ptr, d: Decl, separator: byte)
    requires Same(s, s1, Flat(lists) + inherited) && Scoped(s, Flat(lists) + inherited, separator)
    requires Decls(s1, [b] + (Flat(lists) + inherited), separator) == [d] + Decls(s, Flat(lists) + inherited, separator)
    ensures
      var was := Levels(s, lists, inherited, separator);
      Levels(s1, PushTag(lists, b), PushInherited(lists, inherited, b), separator) == [[d] + was[0]] + was[1..]
  {
    PushedFlat(lists, inherited, b);
    if lists != [] {
      assert PushTag(lists, b)[1..] == lists[1..];
      FlatRest(s, lists, inherited, separator);
      LevelsKept(s, s1, lists[1..], inherited, separator);
    }
  }

  lemma PushedChains(s: Store, s1: Store, tags: seq<Ptr>, lists: seq<seq<Ptr>>, b: Ptr)
    requires Chains(s, tags, lists) && Same(s, s1, Flat(lists)) && tags != []
    requires b != NULL && b in s1 && s1[b].nextTagBinding == tags[0]
    ensures Chains(s1, [b] + tags[1..], PushTag(lists, b))
  {
    ChainsKept(s, s1, tags, lists);
    assert ([b] + lists[0])[1..] == lists[0];
  }

  /** The innermost binding goes. */
  lemma Removed(s: Store, s1: Store, all: seq<Ptr>, next: Ptr, separator: byte)
    requires all != [] && Scoped(s, all, separator) && Distinct(all) && forall c :: c in all ==> c in s
    requires s1 == s[all[0] := At(s, all[0]).(nextTagBinding := next)]
    ensures Same(s, s1, all[1..]) && Scoped(s1, all[1..], separator)
    ensures forall p ::
      Innermost(s1, all[1..], p, separator)
      == if p == At(s, all[0]).prefix then At(s, all[0]).prevPrefixBinding else Innermost(s, all, p, separator)
  {
    ScopedKept(s, s1, all[1..], separator);
    forall p ensures Innermost(s1, all[1..], p, separator) == Innermost(s, all[1..], p, separator) {
      InnermostKept(s, s1, all[1..], p, separator);
    }
  }

  // ---------------------------------------------------------------- what holds of the fields

  /** Each binding is on just one list. */
  ghost predicate Exact(s: Store, all: seq<Ptr>, free: seq<Ptr>, unused: Ptr) {
    && Distinct(all) && Distinct(free) && (forall b :: b in all ==> b !in free)
    && (forall b :: b in s <==> b in all || b in free)
    && (forall b :: b in s ==> 0 < b < unused) && unused > 0
  }

  function Lookup(prefixes: map<Prefix, Ptr>, p: Prefix): Ptr {
    if p in prefixes then prefixes[p] else NULL
  }

  /** Each prefix is bound to its innermost declaration. */
  ghost predicate Bound(s: Store, prefixes: map<Prefix, Ptr>, all: seq<Ptr>, separator: byte) {
    Scoped(s, all, separator) && forall p :: Lookup(prefixes, p) == Innermost(s, all, p, separator)
  }

  /** The record `b` for a new binding: not on a list of tags, and not in what remains of the free list. */
  ghost predicate Unlisted(s: Store, b: Ptr, all: seq<Ptr>, free: seq<Ptr>, unused: Ptr) {
    && b !in all && b !in free && 0 < b < unused
    && Distinct(all) && Distinct(free) && (forall c :: c in all ==> c !in free)
    && (forall c :: c in s && c != b <==> c in all || c in free)
    && (forall c :: c in s ==> 0 < c < unused)
  }

  lemma AddedExact(s: Store, s1: Store, b: Ptr, all: seq<Ptr>, free: seq<Ptr>, unused: Ptr)
    requires Unlisted(s, b, all, free, unused) && s1.Keys == s.Keys + {b}
    ensures Exact(s1, [b] + all, free, unused)
  {
    assert ([b] + all)[1..] == all;
  }

  lemma AddedBound(s: Store, s1: Store, prefixes: map<Prefix, Ptr>, all: seq<Ptr>, b: Ptr, prefix: Prefix, next: Ptr,
      uri: bytes, separator: byte)
    requires Bound(s, prefixes, all, separator) && b !in all && forall c :: c in all ==> c in s
    requires s1 == s[b := Binding(prefix, Lookup(prefixes, prefix), next, Stored(uri, separator))]
    ensures Bound(s1, prefixes[prefix := if uri == [] && prefix.Default? then NULL else b], [b] + all, separator)
    ensures Same(s, s1, all)
    ensures Decls(s1, [b] + all, separator) == [Decl(prefix, uri)] + Decls(s, all, separator)
  {
    Added(s, s1, all, b, prefix, next, uri, separator);
  }

  ghost predicate Linked(s: Store, tags: seq<Ptr>, lists: seq<seq<Ptr>>, head: Ptr, inherited: seq<Ptr>,
      freeHead: Ptr, free: seq<Ptr>) {
    Chains(s, tags, lists) && Chain(s, head, inherited) && Chain(s, freeHead, free)
  }

  lemma AddedLinked(s: Store, s1: Store, b: Ptr, tags: seq<Ptr>, lists: seq<seq<Ptr>>, head: Ptr,
      inherited: seq<Ptr>, freeHead: Ptr, free: seq<Ptr>)
    requires Linked(s, tags, lists, head, inherited, freeHead, free)
    requires Same(s, s1, Flat(lists) + inherited) && Same(s, s1, free) && b != NULL && b in s1
    requires s1[b].nextTagBinding == if tags == [] then head else tags[0]
    ensures tags == [] ==> Linked(s1, [], [], b, [b] + inherited, freeHead, free)
    ensures tags != [] ==> Linked(s1, [b] + tags[1..], PushTag(lists, b), head, inherited, freeHead, free)
  {
    ChainKept(s, s1, freeHead, free);
    ChainKept(s, s1, head, inherited);
    if tags == [] {
      assert ([b] + inherited)[1..] == inherited;
    } else {
      PushedChains(s, s1, tags, lists, b);
    }
  }

  ghost predicate Good(
    s: Store, prefixes: map<Prefix, Ptr>, tags: seq<Ptr>, lists: seq<seq<Ptr>>, head: Ptr, inherited: seq<Ptr>,
    freeHead: Ptr, free: seq<Ptr>, unused: Ptr, separator: byte) {
    && Linked(s, tags, lists, head, inherited, freeHead, free)
    && Exact(s, Flat(lists) + inherited, free, unused) && Bound(s, prefixes, Flat(lists) + inherited, separator)
  }

  /** Everything that addBinding changes, with the record `b` for the new binding. */
  lemma AddedGood(
    s: Store, s1: Store, prefixes: map<Prefix, Ptr>, b: Ptr, tags: seq<Ptr>, lists: seq<seq<Ptr>>, head: Ptr,
    inherited: seq<Ptr>,
    freeHead: Ptr, free: seq<Ptr>, unused: Ptr, prefix: Prefix, uri: bytes, separator: byte)
    requires Linked(s, tags, lists, head, inherited, freeHead, free)
    requires Unlisted(s, b, Flat(lists) + inherited, free, unused)
        && Bound(s, prefixes, Flat(lists) + inherited, separator)
    requires s1 ==
      s[b := Binding(prefix, Lookup(prefixes, prefix), if tags == [] then head else tags[0], Stored(uri, separator))]
    ensures
      var lists1, inherited1 := PushTag(lists, b), PushInherited(lists, inherited, b);
      var prefixes1 := prefixes[prefix := if uri == [] && prefix.Default? then NULL else b];
      var was := Levels(s, lists, inherited, separator);
      && (if tags == [] then Good(s1, prefixes1, [], lists1, b, inherited1, freeHead, free, unused, separator)
          else Good(s1, prefixes1, [b] + tags[1..], lists1, head, inherited1, freeHead, free, unused, separator))
      && Levels(s1, lists1, inherited1, separator) == [[Decl(prefix, uri)] + was[0]] + was[1..]
  {
    var all := Flat(lists) + inherited;
    AddedExact(s, s1, b, all, free, unused);
    AddedBound(s, s1, prefixes, all, b, prefix, if tags == [] then head else tags[0], uri, separator);
    AddedLinked(s, s1, b, tags, lists, head, inherited, freeHead, free);
    PushedFlat(lists, inherited, b);
    PushedLevels(s, s1, lists, inherited, b, Decl(prefix, uri), separator);
  }

  /** The innermost tag without its first binding. */
  function PopTag(lists: seq<seq<Ptr>>): seq<seq<Ptr>>
    requires lists != [] && lists[0] != []
  {
    [lists[0][1..]] + lists[1..]
  }

  lemma PoppedFlat(lists: seq<seq<Ptr>>, inherited: seq<Ptr>)
    requires lists != [] && lists[0] != []
    ensures
      var all := Flat(lists) + inherited;
      all != [] && all[0] == lists[0][0] && Flat(PopTag(lists)) + inherited == all[1..]
  {
    assert PopTag(lists)[1..] == lists[1..];
    TailOf(lists[0], Flat(lists[1..]));
    TailOf(Flat(lists), inherited);
  }

  lemma TailOf(a: seq<Ptr>, b: seq<Ptr>)
    requires a != []
    ensures a + b != [] && (a + b)[0] == a[0] && (a + b)[1..] == a[1..] + b
  {
  }

  lemma PoppedChains(s: Store, s1: Store, tags: seq<Ptr>, lists: seq<seq<Ptr>>)
    requires Chains(s, tags, lists) && lists != [] && lists[0] != [] && Same(s, s1, Flat(PopTag(lists)))
    ensures tags[0] == lists[0][0] && tags[0] in s
    ensures Chains(s1, [s[tags[0]].nextTagBinding] + tags[1..], PopTag(lists))
  {
    ChainsKept(s, s1, [s[tags[0]].nextTagBinding] + tags[1..], PopTag(lists));
  }

  lemma PoppedDecls(s: Store, s1: Store, all: seq<Ptr>, separator: byte)
    requires all != [] && Same(s, s1, all[1..]) && Scoped(s, all, separator)
    ensures
      var was := Decls(s, all, separator);
      was != [] && was[0].prefix == At(s, all[0]).prefix && Decls(s1, all[1..], separator) == was[1..]
  {
    ScopedKept(s, s1, all[1..], separator);
  }

  lemma PoppedLevels(s: Store, s1: Store, lists: seq<seq<Ptr>>, inherited: seq<Ptr>, separator: byte)
    requires lists != [] && lists[0] != [] && Same(s, s1, (Flat(lists) + inherited)[1..])
    requires Scoped(s, Flat(lists) + inherited, separator)
    ensures
      var was := Levels(s, lists, inherited, separator);
      && was[0] != [] && was[0][0].prefix == At(s, lists[0][0]).prefix
      && Levels(s1, PopTag(lists), inherited, separator) == [was[0][1..]] + was[1..]
  {
    PoppedFlat(lists, inherited);
    PoppedDecls(s, s1, Flat(lists) + inherited, separator);
    FlatRest(s, lists, inherited, separator);
    assert PopTag(lists)[1..] == lists[1..];
    assert Flat(PopTag(lists)) + inherited == lists[0][1..] + (Flat(lists[1..]) + inherited);
    LevelsKept(s, s1, lists[1..], inherited, separator);
  }

  /** Everything that changes when the first binding of the innermost tag is closed. */
  lemma PoppedGood(
    s: Store, s1: Store, prefixes: map<Prefix, Ptr>, tags: seq<Ptr>, lists: seq<seq<Ptr>>, head: Ptr,
    inherited: seq<Ptr>,
    freeHead: Ptr, free: seq<Ptr>, unused: Ptr, separator: byte)
    requires Good(s, prefixes, tags, lists, head, inherited, freeHead, free, unused, separator)
    requires lists != [] && lists[0] != []
    requires s1 == s[lists[0][0] := At(s, lists[0][0]).(nextTagBinding := freeHead)]
    ensures
      var b := lists[0][0];
      var lists1, free1 := PopTag(lists), [b] + free;
      && tags != [] && tags[0] == b && b in s
      && Good(s1, prefixes[s[b].prefix := s[b].prevPrefixBinding], [s[b].nextTagBinding] + tags[1..], lists1, head,
           inherited,
              b, free1, unused, separator)
      && var was := Levels(s, lists, inherited, separator);
         was[0] != [] && was[0][0].prefix == s[b].prefix
             && Levels(s1, lists1, inherited, separator) == [was[0][1..]] + was[1..]
  {
    var all, b := Flat(lists) + inherited, lists[0][0];
    PoppedFlat(lists, inherited);
    PoppedBound(s, s1, prefixes, all, freeHead, separator);
    PoppedLevels(s, s1, lists, inherited, separator);
    PoppedLinked(s, s1, tags, lists, head, inherited, freeHead, free);
    PoppedExact(s, s1, all, free, unused);
  }

  lemma PoppedBound(s: Store, s1: Store, prefixes: map<Prefix, Ptr>, all: seq<Ptr>, next: Ptr, separator: byte)
    requires all != [] && Bound(s, prefixes, all, separator) && Distinct(all) && forall c :: c in all ==> c in s
    requires s1 == s[all[0] := At(s, all[0]).(nextTagBinding := next)]
    ensures Same(s, s1, all[1..])
    ensures Bound(s1, prefixes[s[all[0]].prefix := s[all[0]].prevPrefixBinding], all[1..], separator)
  {
    Removed(s, s1, all, next, separator);
  }

  lemma PoppedLinked(
    s: Store, s1: Store, tags: seq<Ptr>, lists: seq<seq<Ptr>>, head: Ptr, inherited: seq<Ptr>, freeHead: Ptr,
    free: seq<Ptr>)
    requires Linked(s, tags, lists, head, inherited, freeHead, free) && lists != [] && lists[0] != []
    requires lists[0][0] in s && lists[0][0] != NULL
        && s1 == s[lists[0][0] := s[lists[0][0]].(nextTagBinding := freeHead)]
    requires Same(s, s1, Flat(PopTag(lists)) + inherited) && Same(s, s1, free)
    ensures
      var b := lists[0][0];
      && tags != [] && tags[0] == b
      && Linked(s1, [s[b].nextTagBinding] + tags[1..], PopTag(lists), head, inherited, b, [b] + free)
  {
    var b := lists[0][0];
    PoppedChains(s, s1, tags, lists);
    ChainKept(s, s1, head, inherited);
    ChainKept(s, s1, freeHead, free);
    assert ([b] + free)[1..] == free;
  }

  lemma PoppedExact(s: Store, s1: Store, all: seq<Ptr>, free: seq<Ptr>, unused: Ptr)
    requires Exact(s, all, free, unused) && all != [] && s1.Keys == s.Keys
    ensures Exact(s1, all[1..], [all[0]] + free, unused)
  {
    assert ([all[0]] + free)[1..] == free && all == [all[0]] + all[1..];
  }

  lemma NextDecl(l: seq<Decl>, k: nat)
    requires k <= |l|
    ensures k < |l| ==> l[k..][0] == l[k] && l[k..][1..] == l[k + 1..]
    ensures k == |l| ==> l[k..] == []
  {
  }

  class Scopes {
    const separator: byte
    var bindings: Store
    var prefixes: map<Prefix, Ptr>
    var tags: seq<Ptr>
    var inheritedBindings: Ptr
    var freeBindingList: Ptr
    var unused: Ptr
    ghost var lists: seq<seq<Ptr>>
    ghost var inherited: seq<Ptr>
    ghost var free: seq<Ptr>

    ghost function All(): seq<Ptr>
      reads this
    {
      Flat(lists) + inherited
    }

    ghost predicate Valid()
      reads this
    {
      Good(bindings, prefixes, tags, lists, inheritedBindings, inherited, freeBindingList, free, unused, separator)
    }

    ghost function InScopes(): seq<seq<Decl>>
      reads this
    {
      Levels(bindings, lists, inherited, separator)
    }

    /** What a prefix is bound to. */
    function Uri(p: Prefix): Option<bytes>
      reads this
    {
      if Lookup(prefixes, p) == NULL then None else Some(Declared(At(bindings, Lookup(prefixes, p)).uri, separator))
    }

    lemma UriInScope(p: Prefix)
      requires Valid()
      ensures Uri(p) == InScope(InScopes()[0], p)
    {
      InnermostInScope(bindings, All(), p, separator);
    }

    constructor (sep: byte)
      ensures Valid() && InScopes() == [[]] && separator == sep
    {
      separator := sep;
      bindings, prefixes, tags, inheritedBindings, freeBindingList, unused := map[], map[], [], NULL, NULL, 1;
      lists, inherited, free := [], [], [];
    }

    /** A start tag: it has no bindings yet. */
    method OpenTag()
      requires Valid()
      modifies this
      ensures Valid() && InScopes() == [old(InScopes()[0])] + old(InScopes())
      ensures forall p :: Uri(p) == old(Uri(p))
    {
      tags := [NULL] + tags;
      lists := [[]] + lists;
      assert lists[1..] == old(lists) && [] + Flat(old(lists)) == Flat(old(lists));
    }

    /** A record for a binding: from the free list, or a new one. */
    method NewBinding() returns (b: Ptr)
      requires Valid()
      modifies this`freeBindingList, this`unused, this`free
      ensures Unlisted(bindings, b, All(), free, unused) && Chain(bindings, freeBindingList, free)
    {
      if freeBindingList != NULL {
        b := freeBindingList;
        freeBindingList := bindings[b].nextTagBinding;
        assert free == [b] + free[1..];
        free := free[1..];
      } else {
        b := unused;
        unused := unused + 1;
      }
    }

    /** addBinding: a declaration in the innermost open tag, or, outside of all tags, an inherited one. */
    method AddBinding(prefix: Prefix, uri: bytes)
      requires Valid()
      modifies this
      ensures Valid() && |tags| == |old(tags)|
      ensures InScopes() == [[Decl(prefix, uri)] + old(InScopes()[0])] + old(InScopes()[1..])
    {
      ghost var was, prefixes0 := bindings, prefixes;
      var b := NewBinding();
      var head := if tags == [] then inheritedBindings else tags[0];
      bindings := bindings[b := Binding(prefix, Lookup(prefixes, prefix), head, Stored(uri, separator))];
      prefixes := prefixes[prefix := if uri == [] && prefix.Default? then NULL else b];
      AddedGood(was, bindings, prefixes0, b, tags, lists, inheritedBindings, inherited, freeBindingList, free,
          unused, prefix, uri, separator);
      if tags == [] {
        inheritedBindings := b;
      } else {
        tags := [b] + tags[1..];
      }
      lists, inherited := PushTag(lists, b), PushInherited(lists, inherited, b);
    }

    /** A round of the loop at an end tag: the binding goes to the free list, and its prefix back to what it was. */
    method CloseBinding() returns (prefix: Prefix)
      requires Valid() && tags != [] && tags[0] != NULL
      modifies this
      ensures Valid() && lists == PopTag(old(lists)) && inherited == old(inherited)
      ensures old(InScopes()[0]) != [] && prefix == old(InScopes()[0])[0].prefix
      ensures InScopes() == [old(InScopes()[0])[1..]] + old(InScopes())[1..]
    {
      var b := tags[0];
      prefix := bindings[b].prefix;
      tags := [bindings[b].nextTagBinding] + tags[1..];
      bindings := bindings[b := bindings[b].(nextTagBinding := freeBindingList)];
      freeBindingList := b;
      prefixes := prefixes[prefix := bindings[b].prevPrefixBinding];
      PoppedGood(old(bindings), bindings, old(prefixes), old(tags), old(lists), inheritedBindings, inherited,
                 old(freeBindingList), old(free), unused, separator);
      lists := PopTag(lists);
      free := [b] + free;
    }

    /** The loop at an end tag, and at the end of an empty element: the newest binding is closed first. */
    method CloseBindings() returns (ended: seq<Prefix>)
      requires Valid() && tags != []
      modifies this
      ensures Valid() && |tags| == |old(tags)| && tags[0] == NULL
      ensures |ended| <= |old(InScopes()[0])|
      ensures InScopes() == [old(InScopes()[0])[|ended|..]] + old(InScopes())[1..]
      ensures forall i :: 0 <= i < |ended| ==> ended[i] == old(InScopes()[0])[i].prefix
    {
      ended := [];
      ghost var was := InScopes();
      while tags[0] != NULL
        invariant Valid() && |tags| == |old(tags)| && |ended| <= |was[0]|
        invariant InScopes() == [was[0][|ended|..]] + was[1..]
        invariant forall i :: 0 <= i < |ended| ==> ended[i] == was[0][i].prefix
        decreases |lists[0]|
      {
        NextDecl(was[0], |ended|);
        var prefix := CloseBinding();
        ended := ended + [prefix];
      }
    }

    /** An end tag: everything is in scope again that was so outside of the element. */
    method CloseTag() returns (ended: seq<Prefix>)
      requires Valid() && tags != []
      modifies this
      ensures Valid() && |tags| == |old(tags)| - 1 && InScopes() == old(InScopes())[1..]
      ensures |ended| <= |old(InScopes()[0])| && old(InScopes()[0])[|ended|..] == old(InScopes()[1])
      ensures forall i :: 0 <= i < |ended| ==> ended[i] == old(InScopes()[0])[i].prefix
    {
      ended := CloseBindings();
      ClosedLevels(bindings, lists, inherited, separator);
      tags, lists := tags[1..], lists[1..];
    }

    /** What is bound. */
    ghost function Table(): map<Prefix, bytes>
      reads this
    {
      map p | p in prefixes && prefixes[p] != NULL :: Declared(At(bindings, prefixes[p]).uri, separator)
    }

    /** The entries that getContext writes for the prefix table, walked in the order `order`. */
    method PrefixEntries(pool0: bytes, needSep0: bool, order: seq<bytes>, ghost l0: seq<C.Item>)
      returns (pool: bytes, needSep: bool, ghost l: seq<C.Item>)
      requires pool0 == C.Text(l0) && needSep0 == (l0 != [])
      ensures l == l0 + C.BindItems(Table(), order) && pool == C.Text(l) && needSep == (l != [])
    {
      pool, needSep, l := pool0, needSep0, l0;
      assert order[0..] == order;
      for i := 0 to |order|
        invariant pool == C.Text(l) && needSep == (l != [])
        invariant l + C.BindItems(Table(), order[i..]) == l0 + C.BindItems(Table(), order)
      {
        var p := Named(order[i]);
        var b := Lookup(prefixes, p);
        C.BindStep(Table(), order, i, l);
        if b != NULL {
          var uri := Declared(At(bindings, b).uri, separator);
          C.TextAppend(l, C.Bind(p, uri));
          pool := pool + (if needSep then [C.SEP] else []) + (order[i] + [C.EQUALS] + uri);
          needSep := true;
          l := l + [C.Bind(p, uri)];
        }
      }
      assert l + [] == l;
    }

    /** Those for the open entities. */
    method EntityEntries(pool0: bytes, needSep0: bool, entities: map<bytes, bool>, order: seq<bytes>,
        ghost l0: seq<C.Item>)
      returns (pool: bytes, ghost l: seq<C.Item>)
      requires pool0 == C.Text(l0) && needSep0 == (l0 != [])
      ensures l == l0 + C.OpenItems(entities, order) && pool == C.Text(l)
    {
      var needSep := needSep0;
      pool, l := pool0, l0;
      assert order[0..] == order;
      for i := 0 to |order|
        invariant pool == C.Text(l) && needSep == (l != [])
        invariant l + C.OpenItems(entities, order[i..]) == l0 + C.OpenItems(entities, order)
      {
        var name := order[i];
        C.OpenStep(entities, order, i, l);
        if name in entities && entities[name] {
          C.TextAppend(l, C.Open(name));
          pool := pool + (if needSep then [C.SEP] else []) + name;
          needSep := true;
          l := l + [C.Open(name)];
        }
      }
      assert l + [] == l;
    }

    /** The table holds what is in scope. */
    lemma TableIsScope()
      requires Valid()
      ensures forall p :: InScope(InScopes()[0], p) == if p in Table() then Some(Table()[p]) else None
    {
      forall p ensures InScope(InScopes()[0], p) == if p in Table() then Some(Table()[p]) else None {
        UriInScope(p);
      }
    }

    /** getContext; `order` and `entityOrder` are the orders of the prefix table and of the entity table. */
    method GetContext(order: seq<bytes>, entities: map<bytes, bool>, entityOrder: seq<bytes>) returns (pool: bytes)
      requires Valid()
      ensures pool == C.Text(C.ContextItems(Table(), order, entities, entityOrder))
    {
      pool := [];
      var needSep := false;
      ghost var l: seq<C.Item> := [];
      var b := Lookup(prefixes, Default);
      if b != NULL {
        pool := [C.EQUALS] + Declared(At(bindings, b).uri, separator);
        needSep := true;
        C.DefaultText(Table());
        l := C.DefaultItem(Table());
      }
      pool, needSep, l := PrefixEntries(pool, needSep, order, l);
      pool, l := EntityEntries(pool, needSep, entities, entityOrder, l);
    }

    /** setContext, for a parser without open tags: bindings are inherited ones. */
    method SetContext(s: bytes, entities: map<bytes, bool>) returns (entities1: map<bytes, bool>)
      requires Valid() && tags == []
      modifies this
      ensures Valid() && tags == []
      ensures InScopes() == [C.Applied(old(InScopes()[0]), C.Items(s, 0, 0, []))]
      ensures entities1 == C.Opened(entities, C.Items(s, 0, 0, []))
    {
      var context: nat, i: nat := 0, 0;
      var pool: bytes := [];
      entities1 := entities;
      ghost var end, endE := C.Applied(InScopes()[0], C.Items(s, 0, 0, [])), C.Opened(entities, C.Items(s, 0, 0, []));
      while context != |s|
        invariant context <= i <= |s| && Valid() && tags == [] && |InScopes()| == 1
        invariant C.Leads(InScopes()[0], entities1, s, context, i, pool, end, endE)
        decreases |s| - context, |s| - i
      {
        ghost var decls, e := InScopes()[0], entities1;
        if i == |s| || s[i] == C.SEP {
          C.LeadsOpen(decls, e, s, context, i, pool, end, endE);
          if pool in entities1 {
            entities1 := entities1[pool := true];
          }
          i := if i < |s| then i + 1 else i;
          context := i;
          pool := [];
        } else if s[i] == C.EQUALS {
          C.LeadsBind(decls, e, s, context, i, pool, end, endE);
          var prefix := if pool == [] then Default else Named(pool);
          context := C.EntryEnd(s, i + 1);
          AddBinding(prefix, s[i + 1..context]);
          context := if context < |s| then context + 1 else context;
          i := context;
          pool := [];
        } else {
          C.LeadsChar(decls, e, s, context, i, pool, end, endE);
          pool := pool + [s[i]];
          i := i + 1;
        }
      }
    }
  }

  /**
    A parser for an external entity takes over what is in scope in its parent, and
    which entities are open there.
   */
  method Inherit(parent: Scopes, order: seq<bytes>, entities: map<bytes, bool>, entityOrder: seq<bytes>,
      child: Scopes, known: map<bytes, bool>)
    returns (entities1: map<bytes, bool>)
    requires parent.Valid() && child.Valid() && parent != child && child.tags == [] && child.InScopes() == [[]]
    requires C.Covers(parent.Table(), order, entities, entityOrder) && C.CleanTables(parent.Table(), entities)
    requires known.Keys == entities.Keys && forall n :: n in known ==> !known[n]
    modifies child
    ensures child.Valid()
    ensures
      (entities1 == entities && C.SameScope(child.InScopes()[0], parent.InScopes()[0]))
      <==> InScope(parent.InScopes()[0], Named([])) == None
  {
    var context := parent.GetContext(order, entities, entityOrder);
    parent.TableIsScope();
    C.ScopeRestored(parent.Table(), order, entities, entityOrder, known, parent.InScopes()[0]);
    entities1 := child.SetContext(context, known);
  }

  /** A tag without bindings has the scope of what is outside of it. */
  lemma ClosedLevels(s: Store, lists: seq<seq<Ptr>>, inherited: seq<Ptr>, separator: byte)
    requires lists != [] && lists[0] == []
    ensures Flat(lists) == Flat(lists[1..])
    ensures
      var was := Levels(s, lists, inherited, separator);
      was[0] == was[1] && Levels(s, lists[1..], inherited, separator) == was[1..]
  {
    assert [] + Flat(lists[1..]) == Flat(lists[1..]);
  }
}
