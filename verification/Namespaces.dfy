/**
  Namespace scopes of xmlnode/xmlparse.c: BINDING records on the lists of tags, the
  inherited list and the free list, and the binding of each prefix.
 */
module Namespaces {
  import opened Bytes
  import opened Wrappers

  type Ptr = nat

  const NULL: Ptr := 0

  /** PREFIX by its identity: the default prefix, or an entry of the prefix table. */
  datatype Prefix = Default | Named(name: bytes)

  /** BINDING; `uri` are the uriLen bytes of its buffer. */
  datatype Binding = Binding(prefix: Prefix, prevPrefixBinding: Ptr, nextTagBinding: Ptr, uri: bytes)

  type Store = map<Ptr, Binding>

  const Blank := Binding(Default, NULL, NULL, [])

  function At(s: Store, b: Ptr): Binding {
    if b in s then s[b] else Blank
  }

  // ---------------------------------------------------------------- declarations

  /** The buffer for a declared name: with the separator behind it, if there is one. */
  function Stored(uri: bytes, separator: byte): bytes {
    if separator == 0 then uri else uri + [separator]
  }

  /** The name without the separator. */
  function Declared(uri: bytes, separator: byte): bytes {
    if separator == 0 || uri == [] then uri else uri[..|uri| - 1]
  }

  datatype Decl = Decl(prefix: Prefix, uri: bytes)

  /** The name that a prefix stands for: its innermost declaration, an empty one of the default prefix meaning none. */
  function InScope(l: seq<Decl>, p: Prefix): Option<bytes> {
    if l == [] then None
    else if l[0].prefix == p then if p.Default? && l[0].uri == [] then None else Some(l[0].uri)
    else InScope(l[1..], p)
  }

  // ---------------------------------------------------------------- lists of bindings

  /** The bindings from `head` on, by nextTagBinding. */
  predicate Chain(s: Store, head: Ptr, l: seq<Ptr>)
    decreases |l|
  {
    if l == [] then head == NULL
    else head == l[0] && head != NULL && head in s && Chain(s, s[head].nextTagBinding, l[1..])
  }

  function Flat(lists: seq<seq<Ptr>>): seq<Ptr> {
    if lists == [] then [] else lists[0] + Flat(lists[1..])
  }

  /** What a binding makes of its prefix. */
  function Effect(s: Store, b: Ptr, separator: byte): Ptr {
    if At(s, b).prefix.Default? && Declared(At(s, b).uri, separator) == [] then NULL else b
  }

  /** The effect of the first binding of `p`. */
  function Innermost(s: Store, l: seq<Ptr>, p: Prefix, separator: byte): Ptr {
    if l == [] then NULL
    else if At(s, l[0]).prefix == p then Effect(s, l[0], separator)
    else Innermost(s, l[1..], p, separator)
  }

  /** Every binding knows what its prefix was bound to before. */
  predicate Scoped(s: Store, l: seq<Ptr>, separator: byte) {
    l != [] ==>
      && At(s, l[0]).prevPrefixBinding == Innermost(s, l[1..], At(s, l[0]).prefix, separator)
      && Scoped(s, l[1..], separator)
  }

  predicate Distinct(l: seq<Ptr>) {
    l != [] ==> l[0] !in l[1..] && Distinct(l[1..])
  }

  /** The declarations of a list. */
  function Decls(s: Store, l: seq<Ptr>, separator: byte): seq<Decl> {
    if l == [] then []
    else [Decl(At(s, l[0]).prefix, Declared(At(s, l[0]).uri, separator))] + Decls(s, l[1..], separator)
  }

  ghost predicate Same(s: Store, s1: Store, l: seq<Ptr>) {
    forall b :: b in l ==> b in s && b in s1 && s1[b] == s[b]
  }

  lemma {:induction false} ChainKept(s: Store, s1: Store, head: Ptr, l: seq<Ptr>)
    requires Chain(s, head, l) && Same(s, s1, l)
    ensures Chain(s1, head, l)
    decreases |l|
  {
    if l != [] {
      ChainKept(s, s1, s[head].nextTagBinding, l[1..]);
    }
  }

  lemma {:induction false} InnermostKept(s: Store, s1: Store, l: seq<Ptr>, p: Prefix, separator: byte)
    requires Same(s, s1, l)
    ensures Innermost(s1, l, p, separator) == Innermost(s, l, p, separator)
  {
    if l != [] {
      InnermostKept(s, s1, l[1..], p, separator);
    }
  }

  lemma {:induction false} ScopedKept(s: Store, s1: Store, l: seq<Ptr>, separator: byte)
    requires Scoped(s, l, separator) && Same(s, s1, l)
    ensures Scoped(s1, l, separator) && Decls(s1, l, separator) == Decls(s, l, separator)
  {
    if l != [] {
      InnermostKept(s, s1, l[1..], At(s, l[0]).prefix, separator);
      ScopedKept(s, s1, l[1..], separator);
    }
  }

  /** The binding of a prefix is its innermost declaration. */
  lemma {:induction false} InnermostInScope(s: Store, l: seq<Ptr>, p: Prefix, separator: byte)
    requires forall b :: b in l ==> b in s && b != NULL
    ensures
      match InScope(Decls(s, l, separator), p)
      case None => Innermost(s, l, p, separator) == NULL
      case Some(uri) =>
        var b := Innermost(s, l, p, separator);
        b != NULL && b in s && Declared(s[b].uri, separator) == uri
  {
    if l != [] {
      assert Decls(s, l, separator)[1..] == Decls(s, l[1..], separator);
      InnermostInScope(s, l[1..], p, separator);
    }
  }

  // ---------------------------------------------------------------- attribute names

  const XMLNS: bytes := [0x78, 0x6D, 0x6C, 0x6E, 0x73]
  const COLON: byte := 0x3A

  /** What getAttributeId makes of a name: a declaration of a prefix, a name with a prefix, or neither. */
  datatype AttPrefix = Declares(prefix: Prefix) | Uses(prefix: Prefix) | Plain

  function ColonAt(name: bytes, i: nat): (r: nat)
    requires i <= |name|
    ensures i <= r <= |name|
    decreases |name| - i
  {
    if i == |name| || name[i] == COLON then i else ColonAt(name, i + 1)
  }

  function AttPrefixOf(name: bytes): AttPrefix {
    if XMLNS <= name && (|name| == 5 || name[5] == COLON) then
      Declares(if |name| == 5 then Default else Named(name[6..]))
    else
      var i := ColonAt(name, 0);
      if i < |name| then Uses(Named(name[..i])) else Plain
  }
}
