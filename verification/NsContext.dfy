/**
  The context string of xmlnode/xmlparse.c: what is in scope and which entities are
  open, as getContext writes it and setContext reads it.
 */
module NsContext {
  import opened Bytes
  import opened Wrappers
  import opened Namespaces

  const SEP: byte := 0x0C
  const EQUALS: byte := 0x3D

  /** An entry: what a prefix is bound to, or an open entity. */
  datatype Item = Bind(prefix: Prefix, uri: bytes) | Open(name: bytes)

  function Name(p: Prefix): bytes {
    if p.Default? then [] else p.name
  }

  function ItemText(i: Item): bytes {
    match i
    case Bind(p, uri) => Name(p) + [EQUALS] + uri
    case Open(name) => name
  }

  /** The entries, with a separator before each of them, or before each but the first. */
  function Separated(l: seq<Item>): bytes {
    if l == [] then [] else [SEP] + ItemText(l[0]) + Separated(l[1..])
  }

  function Text(l: seq<Item>): bytes {
    if l == [] then [] else ItemText(l[0]) + Separated(l[1..])
  }

  lemma {:induction false} SeparatedAppend(l: seq<Item>, i: Item)
    ensures Separated(l + [i]) == Separated(l) + [SEP] + ItemText(i)
    decreases |l|
  {
    if l == [] {
      assert [] + [i] == [i] && [i][1..] == [];
      assert Separated([i]) == [SEP] + ItemText(i) + Separated([]);
    } else {
      assert (l + [i])[1..] == l[1..] + [i];
      SeparatedAppend(l[1..], i);
      var a, b := [SEP] + ItemText(l[0]), Separated(l[1..]);
      assert a + (b + [SEP] + ItemText(i)) == a + b + [SEP] + ItemText(i);
    }
  }

  /** One more entry. */
  lemma TextAppend(l: seq<Item>, i: Item)
    ensures Text(l + [i]) == Text(l) + (if l != [] then [SEP] else []) + ItemText(i)
  {
    if l == [] {
      assert [] + [i] == [i] && [i][1..] == [];
      assert Text([i]) == ItemText(i) + Separated([]);
    } else {
      assert (l + [i])[1..] == l[1..] + [i];
      SeparatedAppend(l[1..], i);
      var a, b := ItemText(l[0]), Separated(l[1..]);
      assert a + (b + [SEP] + ItemText(i)) == a + b + [SEP] + ItemText(i);
    }
  }

  // ---------------------------------------------------------------- reading

  /** The end of an entry: a separator, or the end of the string. */
  function EntryEnd(s: bytes, i: nat): (r: nat)
    requires i <= |s|
    ensures i <= r <= |s| && SEP !in s[i..r] && (r < |s| ==> s[r] == SEP)
    decreases |s| - i
  {
    if i == |s| || s[i] == SEP then i
    else
      var r := EntryEnd(s, i + 1);
      assert s[i..r] == [s[i]] + s[i + 1..r];
      r
  }

  function Behind(s: bytes, i: nat): (r: nat)
    requires i <= |s|
    ensures i <= r <= |s| && (i < |s| ==> i < r)
  {
    if i < |s| then i + 1 else i
  }

  /** setContext at `i` of an entry that started at `context`, with `pool` read of a name. */
  function Items(s: bytes, context: nat, i: nat, pool: bytes): seq<Item>
    requires context <= i <= |s|
    decreases |s| - context, |s| - i
  {
    if context == |s| then []
    else if i == |s| || s[i] == SEP then
      [Open(pool)] + Items(s, Behind(s, i), Behind(s, i), [])
    else if s[i] == EQUALS then
      var end := EntryEnd(s, i + 1);
      [Bind(if pool == [] then Default else Named(pool), s[i + 1..end])] + Items(s, Behind(s, end), Behind(s, end), [])
    else Items(s, context, i + 1, pool + [s[i]])
  }

  /** Names and URIs without separators, and names without an equals sign; entities have a name. */
  predicate Clean(i: Item) {
    match i
    case Bind(p, uri) => SEP !in Name(p) && EQUALS !in Name(p) && SEP !in uri
    case Open(name) => name != [] && SEP !in name && EQUALS !in name
  }

  predicate AllClean(l: seq<Item>) {
    forall i :: 0 <= i < |l| ==> Clean(l[i])
  }

  /** No prefix of the prefix table has an empty name. */
  predicate AllNamed(l: seq<Item>) {
    forall i :: 0 <= i < |l| && l[i].Bind? ==> l[i].prefix != Named([])
  }

  /** A name is read up to what is behind it. */
  lemma {:induction false} NameRead(s: bytes, context: nat, i: nat, pool: bytes, name: bytes)
    requires context <= i && i + |name| <= |s| && s[i..i + |name|] == name && context < |s|
    requires SEP !in name && EQUALS !in name
    ensures Items(s, context, i, pool) == Items(s, context, i + |name|, pool + name)
    decreases |name|
  {
    if name == [] {
      assert pool + name == pool;
    } else {
      assert s[i] == s[i..i + |name|][0] == name[0];
      assert s[i + 1..i + |name|] == s[i..i + |name|][1..] == name[1..];
      NameRead(s, context, i + 1, pool + [s[i]], name[1..]);
      assert pool + [s[i]] + name[1..] == pool + name;
    }
  }

  lemma {:induction false} EntryEndIs(s: bytes, i: nat, uri: bytes)
    requires i + |uri| <= |s| && s[i..i + |uri|] == uri && SEP !in uri
    requires i + |uri| == |s| || s[i + |uri|] == SEP
    ensures EntryEnd(s, i) == i + |uri|
    decreases |uri|
  {
    if uri != [] {
      assert s[i] == s[i..i + |uri|][0] == uri[0];
      assert s[i + 1..i + |uri|] == s[i..i + |uri|][1..] == uri[1..];
      EntryEndIs(s, i + 1, uri[1..]);
    }
  }

  lemma BindParts(s: bytes, i: nat, name: bytes, uri: bytes)
    requires i + |name| + 1 + |uri| <= |s| && s[i..i + |name| + 1 + |uri|] == name + [EQUALS] + uri
    ensures s[i..i + |name|] == name && s[i + |name|] == EQUALS && s[i + |name| + 1..i + |name| + 1 + |uri|] == uri
  {
    var text := s[i..i + |name| + 1 + |uri|];
    assert text[..|name|] == name && text[|name|] == EQUALS && text[|name| + 1..] == uri;
    assert s[i..i + |name|] == text[..|name|] && s[i + |name| + 1..i + |name| + 1 + |uri|] == text[|name| + 1..];
  }

  /** An entry at `i`, with what is behind it, up to the end or a separator. */
  lemma ItemRead(s: bytes, i: nat, item: Item)
    requires Clean(item) && i + |ItemText(item)| <= |s| && s[i..i + |ItemText(item)|] == ItemText(item)
    requires i + |ItemText(item)| == |s| || s[i + |ItemText(item)|] == SEP
    ensures
      var next := Behind(s, i + |ItemText(item)|);
      Items(s, i, i, []) == [TakenItem(item)] + Items(s, next, next, [])
  {
    match item {
      case Open(name) => OpenRead(s, i, name);
      case Bind(p, uri) => BindRead(s, i, p, uri);
    }
  }

  lemma OpenRead(s: bytes, i: nat, name: bytes)
    requires Clean(Open(name)) && i + |name| <= |s| && s[i..i + |name|] == name
    requires i + |name| == |s| || s[i + |name|] == SEP
    ensures
      var next := Behind(s, i + |name|);
      Items(s, i, i, []) == [Open(name)] + Items(s, next, next, [])
  {
    NameRead(s, i, i, [], name);
    assert [] + name == name;
  }

  lemma BindRead(s: bytes, i: nat, p: Prefix, uri: bytes)
    requires Clean(Bind(p, uri))
    requires
      var text := ItemText(Bind(p, uri));
      var n := i + |text|;
      n <= |s| && s[i..n] == text && (n == |s| || s[n] == SEP)
    ensures
      var next := Behind(s, i + |Name(p)| + 1 + |uri|);
      Items(s, i, i, []) == [Bind(if p == Named([]) then Default else p, uri)] + Items(s, next, next, [])
  {
    var name := Name(p);
    BindParts(s, i, name, uri);
    NameRead(s, i, i, [], name);
    assert [] + name == name;
    EntryEndIs(s, i + |name| + 1, uri);
  }

  /** What is read of the entries: a prefix with an empty name is taken for the default prefix. */
  function TakenItem(i: Item): Item {
    if i.Bind? && i.prefix == Named([]) then Bind(Default, i.uri) else i
  }

  function Taken(l: seq<Item>): seq<Item> {
    if l == [] then [] else [TakenItem(l[0])] + Taken(l[1..])
  }

  lemma {:induction false} SeparatedRead(s: bytes, i: nat, l: seq<Item>)
    requires AllClean(l) && i <= |s| && s[i..] == Separated(l)
    ensures Items(s, Behind(s, i), Behind(s, i), []) == Taken(l)
    decreases |l|, 1
  {
    if l != [] {
      var text := ItemText(l[0]);
      assert s[i..][0] == SEP && s[i + 1..] == s[i..][1..];
      assert s[i + 1..] == text + Separated(l[1..]);
      EntryRead(s, i + 1, l);
    }
  }

  /** Entries from `i` on. */
  lemma {:induction false} EntryRead(s: bytes, i: nat, l: seq<Item>)
    requires AllClean(l) && l != [] && i <= |s| && s[i..] == ItemText(l[0]) + Separated(l[1..])
    ensures Items(s, i, i, []) == Taken(l)
    decreases |l|, 0
  {
    var n := i + |ItemText(l[0])|;
    FirstRead(s, i, l[0], l[1..]);
    SeparatedRead(s, n, l[1..]);
  }

  lemma FirstRead(s: bytes, i: nat, item: Item, rest: seq<Item>)
    requires Clean(item) && i <= |s| && s[i..] == ItemText(item) + Separated(rest)
    ensures
      var n := i + |ItemText(item)|;
      && n <= |s| && s[n..] == Separated(rest)
      && Items(s, i, i, []) == [TakenItem(item)] + Items(s, Behind(s, n), Behind(s, n), [])
  {
    var n := i + |ItemText(item)|;
    Cut(s, i, ItemText(item), Separated(rest));
    SeparatedStart(s, n, rest);
    ItemRead(s, i, item);
  }

  lemma Cut(s: bytes, i: nat, a: bytes, b: bytes)
    requires i <= |s| && s[i..] == a + b
    ensures i + |a| <= |s| && s[i..i + |a|] == a && s[i + |a|..] == b
  {
    assert s[i..i + |a|] == s[i..][..|a|] && s[i + |a|..] == s[i..][|a|..];
  }

  lemma SeparatedStart(s: bytes, n: nat, l: seq<Item>)
    requires n <= |s| && s[n..] == Separated(l)
    ensures n == |s| || s[n] == SEP
  {
    assert n < |s| ==> s[n] == s[n..][0];
  }

  lemma ReadText(l: seq<Item>)
    requires AllClean(l)
    ensures Items(Text(l), 0, 0, []) == Taken(l)
  {
    if l != [] {
      assert Text(l)[0..] == Text(l);
      EntryRead(Text(l), 0, l);
    }
  }

  lemma {:induction false} TakenIs(l: seq<Item>)
    ensures Taken(l) == l <==> AllNamed(l)
  {
    if l != [] {
      TakenIs(l[1..]);
      assert AllNamed(l) <==> (l[0].Bind? ==> l[0].prefix != Named([])) && AllNamed(l[1..]) by {
        assert l == [l[0]] + l[1..];
      }
      assert Taken(l)[1..] == Taken(l[1..]);
    }
  }

  /** setContext reads what getContext wrote, exactly if no prefix of the table has an empty name. */
  lemma ReadsBack(l: seq<Item>)
    requires AllClean(l)
    ensures Items(Text(l), 0, 0, []) == l <==> AllNamed(l)
  {
    ReadText(l);
    TakenIs(l);
  }

  // ---------------------------------------------------------------- what the entries do

  /** The declarations after the entries are read: each is an inherited one. */
  function Applied(decls: seq<Decl>, l: seq<Item>): seq<Decl>
    decreases |l|
  {
    if l == [] then decls
    else Applied(if l[0].Bind? then [Decl(l[0].prefix, l[0].uri)] + decls else decls, l[1..])
  }

  /** The entities: those that are known and have an entry are open. */
  function Opened(e: map<bytes, bool>, l: seq<Item>): map<bytes, bool>
    decreases |l|
  {
    if l == [] then e
    else Opened(if l[0].Open? && l[0].name in e then e[l[0].name := true] else e, l[1..])
  }

  /** The last entry for a prefix. */
  function BoundIn(l: seq<Item>, p: Prefix): Option<bytes> {
    if l == [] then None
    else
      var later := BoundIn(l[1..], p);
      if later.Some? then later else if l[0].Bind? && l[0].prefix == p then Some(l[0].uri) else None
  }

  /** What the rest of the context makes of the declarations `decls` and the entities `e`. */
  ghost predicate Leads(decls: seq<Decl>, e: map<bytes, bool>, s: bytes, context: nat, i: nat, pool: bytes,
      end: seq<Decl>, endE: map<bytes, bool>)
    requires context <= i <= |s|
  {
    Applied(decls, Items(s, context, i, pool)) == end && Opened(e, Items(s, context, i, pool)) == endE
  }

  lemma LeadsOpen(decls: seq<Decl>, e: map<bytes, bool>, s: bytes, context: nat, i: nat, pool: bytes, end: seq<Decl>,
      endE: map<bytes, bool>)
    requires context <= i <= |s| && context < |s| && (i == |s| || s[i] == SEP)
    requires Leads(decls, e, s, context, i, pool, end, endE)
    ensures Leads(decls, if pool in e then e[pool := true] else e, s, Behind(s, i), Behind(s, i), [], end, endE)
  {
    assert Items(s, context, i, pool)[1..] == Items(s, Behind(s, i), Behind(s, i), []);
  }

  lemma LeadsBind(decls: seq<Decl>, e: map<bytes, bool>, s: bytes, context: nat, i: nat, pool: bytes, end: seq<Decl>,
      endE: map<bytes, bool>)
    requires context <= i < |s| && s[i] == EQUALS && Leads(decls, e, s, context, i, pool, end, endE)
    ensures
      var n := EntryEnd(s, i + 1);
      var d := Decl(if pool == [] then Default else Named(pool), s[i + 1..n]);
      Leads([d] + decls, e, s, Behind(s, n), Behind(s, n), [], end, endE)
  {
    var n := EntryEnd(s, i + 1);
    assert Items(s, context, i, pool)[1..] == Items(s, Behind(s, n), Behind(s, n), []);
  }

  lemma LeadsChar(decls: seq<Decl>, e: map<bytes, bool>, s: bytes, context: nat, i: nat, pool: bytes, end: seq<Decl>,
      endE: map<bytes, bool>)
    requires context <= i < |s| && s[i] != SEP && s[i] != EQUALS && Leads(decls, e, s, context, i, pool, end, endE)
    ensures Leads(decls, e, s, context, i + 1, pool + [s[i]], end, endE)
  {
  }

  lemma {:induction false} AppliedInScope(decls: seq<Decl>, l: seq<Item>, p: Prefix)
    ensures
      InScope(Applied(decls, l), p)
      == match BoundIn(l, p)
         case None => InScope(decls, p)
         case Some(uri) => if p.Default? && uri == [] then None else Some(uri)
    decreases |l|
  {
    if l != [] {
      var decls1 := if l[0].Bind? then [Decl(l[0].prefix, l[0].uri)] + decls else decls;
      AppliedInScope(decls1, l[1..], p);
      assert l[0].Bind? ==> decls1[1..] == decls;
    }
  }

  // ---------------------------------------------------------------- writing

  /** The entries for the prefix table, in the order of the table. */
  function BindItems(m: map<Prefix, bytes>, order: seq<bytes>): seq<Item> {
    if order == [] then []
    else
      var p := Named(order[0]);
      (if p in m then [Bind(p, m[p])] else []) + BindItems(m, order[1..])
  }

  function OpenItems(e: map<bytes, bool>, order: seq<bytes>): seq<Item> {
    if order == [] then []
    else (if order[0] in e && e[order[0]] then [Open(order[0])] else []) + OpenItems(e, order[1..])
  }

  lemma BindStep(m: map<Prefix, bytes>, order: seq<bytes>, i: nat, l: seq<Item>)
    requires i < |order|
    ensures
      var p := Named(order[i]);
      l + BindItems(m, order[i..]) == (if p in m then l + [Bind(p, m[p])] else l) + BindItems(m, order[i + 1..])
  {
    assert order[i..][1..] == order[i + 1..];
  }

  lemma OpenStep(e: map<bytes, bool>, order: seq<bytes>, i: nat, l: seq<Item>)
    requires i < |order|
    ensures
      var n := order[i];
      l + OpenItems(e, order[i..]) == (if n in e && e[n] then l + [Open(n)] else l) + OpenItems(e, order[i + 1..])
  {
    assert order[i..][1..] == order[i + 1..];
  }

  function DefaultItem(m: map<Prefix, bytes>): seq<Item> {
    if Default in m then [Bind(Default, m[Default])] else []
  }

  lemma DefaultText(m: map<Prefix, bytes>)
    requires Default in m
    ensures Text(DefaultItem(m)) == [EQUALS] + m[Default]
  {
    assert DefaultItem(m)[1..] == [];
  }

  /** What getContext writes down: `m` is what is bound, `e` tells which entities are open. */
  function ContextItems(m: map<Prefix, bytes>, prefixes: seq<bytes>, e: map<bytes, bool>,
      entities: seq<bytes>): seq<Item> {
    DefaultItem(m) + BindItems(m, prefixes) + OpenItems(e, entities)
  }

  /** The tables are walked completely. */
  ghost predicate Covers(m: map<Prefix, bytes>, prefixes: seq<bytes>, e: map<bytes, bool>, entities: seq<bytes>) {
    (forall n :: Named(n) in m ==> n in prefixes) && (forall n :: n in e ==> n in entities)
  }

  lemma {:induction false} BoundInAppend(a: seq<Item>, b: seq<Item>, p: Prefix)
    ensures BoundIn(a + b, p) == if BoundIn(b, p).Some? then BoundIn(b, p) else BoundIn(a, p)
    decreases |a|
  {
    if a == [] {
      assert a + b == b;
    } else {
      assert (a + b)[1..] == a[1..] + b;
      BoundInAppend(a[1..], b, p);
    }
  }

  lemma {:induction false} BindItemsBind(m: map<Prefix, bytes>, order: seq<bytes>, p: Prefix)
    ensures BoundIn(BindItems(m, order), p) == if p.Named? && p.name in order && p in m then Some(m[p]) else None
  {
    if order != [] {
      BindItemsBind(m, order[1..], p);
      var q := Named(order[0]);
      if q in m {
        assert BindItems(m, order)[1..] == BindItems(m, order[1..]);
      } else {
        assert BindItems(m, order) == BindItems(m, order[1..]);
      }
    }
  }

  lemma {:induction false} OpenItemsBind(e: map<bytes, bool>, order: seq<bytes>, p: Prefix)
    ensures BoundIn(OpenItems(e, order), p) == None
  {
    if order != [] {
      OpenItemsBind(e, order[1..], p);
      if order[0] in e && e[order[0]] {
        assert OpenItems(e, order)[1..] == OpenItems(e, order[1..]);
      } else {
        assert OpenItems(e, order) == OpenItems(e, order[1..]);
      }
    }
  }

  lemma ContextBinds(m: map<Prefix, bytes>, prefixes: seq<bytes>, e: map<bytes, bool>, entities: seq<bytes>, p: Prefix)
    requires Covers(m, prefixes, e, entities)
    ensures BoundIn(ContextItems(m, prefixes, e, entities), p) == if p in m then Some(m[p]) else None
  {
    var a, b, c := DefaultItem(m), BindItems(m, prefixes), OpenItems(e, entities);
    BoundInAppend(a + b, c, p);
    BoundInAppend(a, b, p);
    BindItemsBind(m, prefixes, p);
    OpenItemsBind(e, entities, p);
    assert a != [] ==> a[1..] == [];
  }

  lemma {:induction false} OpenedAt(e: map<bytes, bool>, l: seq<Item>)
    ensures Opened(e, l).Keys == e.Keys
    ensures forall n :: n in e ==> Opened(e, l)[n] == (e[n] || Open(n) in l)
    decreases |l|
  {
    if l != [] {
      OpenedAt(if l[0].Open? && l[0].name in e then e[l[0].name := true] else e, l[1..]);
      assert forall n :: Open(n) in l <==> l[0] == Open(n) || Open(n) in l[1..];
    }
  }

  lemma {:induction false} OpenItemsOpen(e: map<bytes, bool>, order: seq<bytes>, n: bytes)
    ensures Open(n) in OpenItems(e, order) <==> n in order && n in e && e[n]
  {
    if order != [] {
      OpenItemsOpen(e, order[1..], n);
    }
  }

  lemma {:induction false} BindItemsOpen(m: map<Prefix, bytes>, order: seq<bytes>, n: bytes)
    ensures Open(n) !in BindItems(m, order)
  {
    if order != [] {
      BindItemsOpen(m, order[1..], n);
    }
  }

  /** Names and URIs as a document can declare them. */
  ghost predicate CleanTables(m: map<Prefix, bytes>, e: map<bytes, bool>) {
    && (forall p :: p in m ==> Clean(Bind(p, m[p])))
    && (forall n :: n in e && e[n] ==> Clean(Open(n)))
    && (Default in m ==> m[Default] != [])
  }

  lemma {:induction false} BindItemsClean(m: map<Prefix, bytes>, e: map<bytes, bool>, order: seq<bytes>)
    requires CleanTables(m, e)
    ensures AllClean(BindItems(m, order))
    ensures Named([]) !in m ==> AllNamed(BindItems(m, order))
  {
    if order != [] {
      BindItemsClean(m, e, order[1..]);
    }
  }

  lemma {:induction false} OpenItemsClean(m: map<Prefix, bytes>, e: map<bytes, bool>, order: seq<bytes>)
    requires CleanTables(m, e)
    ensures AllClean(OpenItems(e, order)) && AllNamed(OpenItems(e, order))
  {
    if order != [] {
      OpenItemsClean(m, e, order[1..]);
    }
  }

  lemma {:induction false} TakenNeverEmpty(l: seq<Item>)
    ensures BoundIn(Taken(l), Named([])) == None
  {
    if l != [] {
      TakenNeverEmpty(l[1..]);
      assert Taken(l)[1..] == Taken(l[1..]);
    }
  }

  /** What a new parser has in scope, and open, after it has read the context. */
  ghost predicate Restores(l: seq<Item>, m: map<Prefix, bytes>, e0: map<bytes, bool>, e: map<bytes, bool>) {
    && (forall p :: InScope(Applied([], l), p) == if p in m then Some(m[p]) else None)
    && Opened(e0, l) == e
  }

  /**
    setContext undoes getContext, for a parser that knows the same entities and has
    nothing in scope: exactly if no prefix with an empty name is bound.
   */
  lemma ContextRestored(m: map<Prefix, bytes>, prefixes: seq<bytes>, e: map<bytes, bool>, entities: seq<bytes>,
      e0: map<bytes, bool>)
    requires Covers(m, prefixes, e, entities) && CleanTables(m, e)
    requires e0.Keys == e.Keys && forall n :: n in e0 ==> !e0[n]
    ensures
      Restores(Items(Text(ContextItems(m, prefixes, e, entities)), 0, 0, []), m, e0, e) <==> Named([]) !in m
  {
    var l := ContextItems(m, prefixes, e, entities);
    BindItemsClean(m, e, prefixes);
    OpenItemsClean(m, e, entities);
    ReadText(l);
    if Named([]) in m {
      TakenNeverEmpty(l);
      AppliedInScope([], Taken(l), Named([]));
    } else {
      assert AllNamed(l);
      TakenIs(l);
      EntriesRestore(m, prefixes, e, entities, e0);
    }
  }

  lemma EntriesRestore(m: map<Prefix, bytes>, prefixes: seq<bytes>, e: map<bytes, bool>, entities: seq<bytes>,
      e0: map<bytes, bool>)
    requires Covers(m, prefixes, e, entities) && (Default in m ==> m[Default] != [])
    requires e0.Keys == e.Keys && forall n :: n in e0 ==> !e0[n]
    ensures Restores(ContextItems(m, prefixes, e, entities), m, e0, e)
  {
    var l := ContextItems(m, prefixes, e, entities);
    forall p ensures InScope(Applied([], l), p) == if p in m then Some(m[p]) else None {
      ContextBinds(m, prefixes, e, entities, p);
      AppliedInScope([], l, p);
    }
    OpenedAt(e0, l);
    forall n | n in e ensures Opened(e0, l)[n] == e[n] {
      OpenItemsOpen(e, entities, n);
      BindItemsOpen(m, prefixes, n);
    }
  }

  ghost predicate SameScope(a: seq<Decl>, b: seq<Decl>) {
    forall p :: InScope(a, p) == InScope(b, p)
  }

  /** The same, for the declarations `decls` that `m` is the table of. */
  lemma ScopeRestored(
    m: map<Prefix, bytes>, prefixes: seq<bytes>, e: map<bytes, bool>, entities: seq<bytes>, e0: map<bytes, bool>,
    decls: seq<Decl>)
    requires Covers(m, prefixes, e, entities) && CleanTables(m, e)
    requires e0.Keys == e.Keys && forall n :: n in e0 ==> !e0[n]
    requires forall p :: InScope(decls, p) == if p in m then Some(m[p]) else None
    ensures
      var l := Items(Text(ContextItems(m, prefixes, e, entities)), 0, 0, []);
      (Opened(e0, l) == e && SameScope(Applied([], l), decls)) <==> InScope(decls, Named([])) == None
  {
    ContextRestored(m, prefixes, e, entities, e0);
    var l := Items(Text(ContextItems(m, prefixes, e, entities)), 0, 0, []);
    if SameScope(Applied([], l), decls) {
      forall p ensures InScope(Applied([], l), p) == if p in m then Some(m[p]) else None {
        assert InScope(decls, p) == if p in m then Some(m[p]) else None;
      }
    }
    assert Named([]) in m <==> InScope(decls, Named([])) != None;
  }
}
