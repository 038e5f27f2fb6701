/** Which declaration a prefix stands for, which attribute names declare one, and the bytes of a context string. */
module NamespacesLaws {
  import opened Bytes
  import opened Wrappers
  import opened Namespaces
  import C = NsContext

  // ---------------------------------------------------------------- scopes

  /** Entry `i` is the innermost declaration of `p`. */
  predicate IsInnermost(l: seq<Decl>, p: Prefix, i: nat) {
    i < |l| && l[i].prefix == p && forall j :: 0 <= j < i ==> l[j].prefix != p
  }

  /** Section 5 of Namespaces in XML: it is the one in scope; an empty name takes back a default namespace. */
  lemma {:induction false} ScopeIs(l: seq<Decl>, p: Prefix, uri: bytes)
    ensures
      InScope(l, p) == Some(uri)
      <==> !(p == Default && uri == []) && exists i: nat :: IsInnermost(l, p, i) && l[i].uri == uri
    decreases |l|
  {
    if l != [] {
      if l[0].prefix == p {
        assert IsInnermost(l, p, 0);
        forall i: nat | IsInnermost(l, p, i) ensures i == 0 {
        }
      } else {
        ScopeIs(l[1..], p, uri);
        forall i: nat ensures IsInnermost(l, p, i + 1) <==> IsInnermost(l[1..], p, i) {
          if IsInnermost(l[1..], p, i) {
            forall j | 0 <= j < i + 1 ensures l[j].prefix != p {
              assert j > 0 ==> l[1..][j - 1] == l[j];
            }
          }
          if IsInnermost(l, p, i + 1) {
            forall j | 0 <= j < i ensures l[1..][j].prefix != p {
              assert l[1..][j] == l[j + 1];
            }
          }
        }
        Shifted(l, p, uri);
      }
    }
  }

  lemma Shifted(l: seq<Decl>, p: Prefix, uri: bytes)
    requires l != [] && l[0].prefix != p
    requires forall i: nat :: IsInnermost(l, p, i + 1) <==> IsInnermost(l[1..], p, i)
    ensures
      (exists i: nat :: IsInnermost(l, p, i) && l[i].uri == uri)
      <==> exists i: nat :: IsInnermost(l[1..], p, i) && l[1..][i].uri == uri
  {
    if i: nat :| IsInnermost(l, p, i) && l[i].uri == uri {
      assert IsInnermost(l[1..], p, i - 1) && l[1..][i - 1].uri == uri;
    }
    if i: nat :| IsInnermost(l[1..], p, i) && l[1..][i].uri == uri {
      assert IsInnermost(l, p, i + 1) && l[i + 1].uri == uri;
    }
  }

  // ---------------------------------------------------------------- attribute names

  lemma {:induction false} ColonIs(name: bytes, i: nat)
    requires i <= |name|
    ensures COLON !in name[i..ColonAt(name, i)] && (ColonAt(name, i) < |name| ==> name[ColonAt(name, i)] == COLON)
    decreases |name| - i
  {
    if i < |name| && name[i] != COLON {
      ColonIs(name, i + 1);
      var r := ColonAt(name, i);
      assert name[i..r] == [name[i]] + name[i + 1..r];
    }
  }

  /** The name is `p`, the first colon, and a rest. */
  predicate SplitsAt(name: bytes, p: bytes) {
    |p| < |name| && name[..|p|] == p && name[|p|] == 58 && 58 !in p
  }

  lemma SplitIs(name: bytes, p: bytes)
    ensures SplitsAt(name, p) <==> ColonAt(name, 0) < |name| && p == name[..ColonAt(name, 0)]
  {
    var i := ColonAt(name, 0);
    ColonIs(name, 0);
    assert name[0..i] == name[..i];
    if SplitsAt(name, p) {
      assert i == |p|;
    }
  }

  lemma DeclaresSplit(name: bytes, xmlns: bytes)
    requires |xmlns| == 5 && 58 !in xmlns
    ensures xmlns <= name && (|name| == 5 || name[5] == 58) <==> name == xmlns || SplitsAt(name, xmlns)
  {
  }

  lemma SplitRest(name: bytes, a: bytes, p: bytes)
    requires SplitsAt(name, a)
    ensures name[|a| + 1..] == p <==> name == a + [58] + p
  {
    assert name == a + [58] + name[|a| + 1..];
  }

  /** "xmlns" declares the default prefix, "xmlns:" and a name that prefix; any other "p:" at the front uses p. */
  lemma AttributeIs(name: bytes, p: bytes)
    ensures
      var xmlns: bytes := [120, 109, 108, 110, 115];
      && (AttPrefixOf(name) == Declares(Default) <==> name == xmlns)
      && (AttPrefixOf(name) == Declares(Named(p)) <==> name == xmlns + [58] + p)
      && (AttPrefixOf(name) == Uses(Named(p)) <==> SplitsAt(name, p) && p != xmlns)
      && (AttPrefixOf(name) == Plain <==> 58 !in name && name != xmlns)
  {
    var xmlns: bytes := [120, 109, 108, 110, 115];
    assert xmlns == XMLNS;
    PrefixIs(name, p, xmlns);
  }

  lemma PrefixIs(name: bytes, p: bytes, xmlns: bytes)
    requires xmlns == XMLNS && |xmlns| == 5 && 58 !in xmlns
    ensures AttPrefixOf(name) == Declares(Default) <==> name == xmlns
    ensures AttPrefixOf(name) == Declares(Named(p)) <==> name == xmlns + [58] + p
    ensures AttPrefixOf(name) == Uses(Named(p)) <==> SplitsAt(name, p) && p != xmlns
    ensures AttPrefixOf(name) == Plain <==> 58 !in name && name != xmlns
  {
    DeclaresSplit(name, xmlns);
    SplitIs(name, p);
    SplitIs(name, xmlns);
    ColonIs(name, 0);
    var i := ColonAt(name, 0);
    assert i == |name| ==> name[0..i] == name;
    if SplitsAt(name, xmlns) {
      SplitRest(name, xmlns, p);
    }
  }

  // ---------------------------------------------------------------- context strings

  /** prefix=uri, =uri for the default namespace, or the name of an entity, with a form feed between entries. */
  lemma ContextBytes(l: seq<C.Item>, i: C.Item)
    ensures C.Text([]) == []
    ensures
      C.Text(l + [i])
      == C.Text(l) + (if l == [] then [] else [12])
         + match i
           case Bind(Default, uri) => [61] + uri
           case Bind(Named(name), uri) => name + [61] + uri
           case Open(name) => name
  {
    C.TextAppend(l, i);
  }

  /** The name that is stored for a binding, in front of the separator. */
  lemma StoredBytes(uri: bytes, separator: byte)
    ensures separator == 0 ==> Stored(uri, separator) == uri
    ensures separator != 0 ==> Stored(uri, separator) == uri + [separator]
    ensures Declared(Stored(uri, separator), separator) == uri
  {
  }
}
