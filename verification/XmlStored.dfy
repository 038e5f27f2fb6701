/**
  What storeAtts makes of a start tag: the specified attributes in order, then the declared
  defaults of those that are not specified, each name once (section 3.3.2 of XML 1.0).
 */
module XmlStored {
  import opened Bytes
  import opened Wrappers
  import opened XmlTok
  import opened XmlDtd
  import opened XmlAtts
  import opened XmlAttValue
  import opened XmlParse

  // ---------------------------------------------------------------- the type of an attribute

  /** Declaration number `j` is the first one for `name`. */
  ghost predicate FirstDeclared(defs: seq<AttDef>, j: nat, name: bytes) {
    j < |defs| && defs[j].name == name && forall k :: 0 <= k < j ==> defs[k].name != name
  }

  /** The type that the first declaration gives, and CDATA without one. */
  ghost predicate TypeIs(defs: seq<AttDef>, name: bytes, isCdata: bool) {
    if exists j: nat :: FirstDeclared(defs, j, name)
    then exists j: nat :: FirstDeclared(defs, j, name) && defs[j].isCdata == isCdata
    else isCdata
  }

  lemma {:induction false} DeclaredType(defs: seq<AttDef>, name: bytes)
    ensures TypeIs(defs, name, IsCdata(defs, name))
    decreases |defs|
  {
    if defs != [] {
      if defs[0].name == name {
        assert FirstDeclared(defs, 0, name);
      } else {
        DeclaredType(defs[1..], name);
        forall j: nat | FirstDeclared(defs[1..], j, name) ensures FirstDeclared(defs, j + 1, name) {
        }
        forall j: nat | FirstDeclared(defs, j, name) ensures j > 0 && FirstDeclared(defs[1..], j - 1, name) {
          assert forall k :: 0 <= k < j - 1 ==> defs[1..][k] == defs[k + 1];
        }
      }
    }
  }

  /** `r` is the outcome of storing the value of `a`: its bytes, or what storeAttributeValue makes of them. */
  ghost predicate ValueIs(g: Grammar, e: Encoding, elem: bytes, a: RawAtt, open: set<bytes>, r: Outcome<bytes>) {
    if a.normalized then r == Ok(a.raw)
    else exists isCdata :: TypeIs(Defaults(g, elem), a.name, isCdata) && r == StoreValue(g, e, isCdata, a.raw, open)
  }

  lemma ValueOfIs(g: Grammar, e: Encoding, elem: bytes, a: RawAtt, open: set<bytes>)
    ensures ValueIs(g, e, elem, a, open, ValueOf(g, e, elem, a, open))
  {
    DeclaredType(Defaults(g, elem), a.name);
  }

  // ---------------------------------------------------------------- specified attributes

  ghost predicate Distinct(l: seq<(bytes, bytes)>) {
    forall i, j :: 0 <= i < j < |l| ==> l[i].0 != l[j].0
  }

  /** `r` has the names and values of the attributes in `l`. */
  ghost predicate Specifies(
    g: Grammar, e: Encoding, elem: bytes, s: bytes, l: seq<Attribute>, open: set<bytes>, r: seq<(bytes, bytes)>)
  {
    && |r| == |l|
    && forall i :: 0 <= i < |l| ==>
         r[i].0 == RawOf(e, s, l[i]).name && ValueIs(g, e, elem, RawOf(e, s, l[i]), open, Ok(r[i].1))
  }

  /** The attribute `a` after those of `seen` is an error: its name is there already, or else its value is one. */
  ghost predicate Refuses(
    g: Grammar, e: Encoding, elem: bytes, a: RawAtt, open: set<bytes>, seen: seq<(bytes, bytes)>, error: XmlError)
  {
    if exists i :: 0 <= i < |seen| && seen[i].0 == a.name then error == DuplicateAttribute
    else ValueIs(g, e, elem, a, open, Fail(error))
  }

  /** What the loop over the attributes does: it stores all of them, or all in front of the first that is an error. */
  ghost predicate StoresAll(
    g: Grammar, e: Encoding, elem: bytes, s: bytes, l: seq<Attribute>, open: set<bytes>,
    r: Outcome<seq<(bytes, bytes)>>)
  {
    match r
    case Ok(atts) => Specifies(g, e, elem, s, l, open, atts) && Distinct(atts)
    case Fail(error) =>
      exists k, seen ::
        && 0 <= k < |l| && Specifies(g, e, elem, s, l[..k], open, seen) && Distinct(seen)
        && Refuses(g, e, elem, RawOf(e, s, l[k]), open, seen, error)
  }

  lemma {:induction false} SpecifiedFrom(
    g: Grammar, e: Encoding, elem: bytes, s: bytes, l: seq<Attribute>, i: nat, open: set<bytes>,
    seen: seq<(bytes, bytes)>)
    requires i <= |l| && Specifies(g, e, elem, s, l[..i], open, seen) && Distinct(seen)
    ensures StoresAll(g, e, elem, s, l, open, StoreSpecified(g, e, elem, s, l, i, open, seen))
    decreases |l| - i
  {
    if i == |l| {
      assert l[..i] == l;
    } else {
      var a := RawOf(e, s, l[i]);
      ValueOfIs(g, e, elem, a, open);
      if !HasName(seen, a.name) {
        match ValueOf(g, e, elem, a, open)
        case Fail(error) =>
          assert Refuses(g, e, elem, a, open, seen, error);
        case Ok(value) =>
          assert l[..i + 1] == l[..i] + [l[i]];
          assert Specifies(g, e, elem, s, l[..i + 1], open, seen + [(a.name, value)]);
          SpecifiedFrom(g, e, elem, s, l, i + 1, open, seen + [(a.name, value)]);
      } else {
        assert Refuses(g, e, elem, a, open, seen, DuplicateAttribute);
      }
    }
  }

  // ---------------------------------------------------------------- defaults

  /** `name` is among the first `n` names of `l`. */
  ghost predicate Among(l: seq<(bytes, bytes)>, n: nat, name: bytes)
    requires n <= |l|
  {
    exists i :: 0 <= i < n && l[i].0 == name
  }

  /** Declaration number `j` has a value, and there is no earlier one with a value for its name. */
  ghost predicate GivesDefault(defs: seq<AttDef>, j: nat) {
    && j < |defs| && defs[j].value.Some?
    && forall k :: 0 <= k < j && defs[k].value.Some? ==> defs[k].name != defs[j].name
  }

  /** The pair that declaration number `j` stands for. */
  function DefaultPair(d: AttDef): (bytes, bytes)
    requires d.value.Some?
  {
    (d.name, d.value.value)
  }

  /**
    Behind its first `n` pairs `r` has the default of every declaration that gives one and
    whose attribute is not specified, and nothing else, in the order of the declarations.
   */
  ghost predicate DefaultsBehind(defs: seq<AttDef>, r: seq<(bytes, bytes)>, n: nat, idx: seq<nat>) {
    && n <= |r| && |idx| == |r| - n
    && (forall k, k' :: 0 <= k < k' < |idx| ==> idx[k] < idx[k'])
    && (forall k :: 0 <= k < |idx| ==> GivesDefault(defs, idx[k]) && r[n + k] == DefaultPair(defs[idx[k]]))
    && forall j: nat :: j in idx <==> GivesDefault(defs, j) && !Among(r, n, defs[j].name)
  }

  /** The defaults of the first `i` declarations are behind the `n` specified attributes. */
  ghost predicate AddedSoFar(defs: seq<AttDef>, i: nat, l: seq<(bytes, bytes)>, n: nat, idx: seq<nat>) {
    && i <= |defs| && n <= |l| && |idx| == |l| - n
    && (forall k, k' :: 0 <= k < k' < |idx| ==> idx[k] < idx[k'])
    && (forall k :: 0 <= k < |idx| ==> GivesDefault(defs, idx[k]) && l[n + k] == DefaultPair(defs[idx[k]]))
    && (forall j: nat :: j in idx <==> j < i && GivesDefault(defs, j) && !Among(l, n, defs[j].name))
  }

  lemma AmongPrefix(l: seq<(bytes, bytes)>, l': seq<(bytes, bytes)>, n: nat, name: bytes)
    requires n <= |l| && l <= l'
    ensures Among(l', n, name) <==> Among(l, n, name)
  {
    if Among(l', n, name) {
      var i :| 0 <= i < n && l'[i].0 == name;
      assert l[i].0 == name;
    }
    if Among(l, n, name) {
      var i :| 0 <= i < n && l[i].0 == name;
      assert l'[i].0 == name;
    }
  }

  lemma NameIsThere(defs: seq<AttDef>, i: nat, l: seq<(bytes, bytes)>, n: nat, idx: seq<nat>)
    requires AddedSoFar(defs, i, l, n, idx) && i < |defs| && defs[i].value.Some?
    ensures HasName(l, defs[i].name) <==> !(GivesDefault(defs, i) && !Among(l, n, defs[i].name))
  {
    if HasName(l, defs[i].name) && !Among(l, n, defs[i].name) {
      var k :| 0 <= k < |l| && l[k].0 == defs[i].name;
      assert idx[k - n] in idx;
    }
    if !GivesDefault(defs, i) && !Among(l, n, defs[i].name) {
      var j := FirstWithValue(defs, i);
      assert j in idx;
      var k :| 0 <= k < |idx| && idx[k] == j;
      assert l[n + k].0 == defs[i].name;
    }
  }

  /** The first declaration with a value for the same name. */
  lemma {:induction false} FirstWithValue(defs: seq<AttDef>, i: nat) returns (j: nat)
    requires i < |defs| && defs[i].value.Some?
    ensures j <= i && GivesDefault(defs, j) && defs[j].name == defs[i].name
    decreases i
  {
    if GivesDefault(defs, i) {
      j := i;
    } else {
      var k :| 0 <= k < i && defs[k].value.Some? && defs[k].name == defs[i].name;
      j := FirstWithValue(defs, k);
    }
  }

  lemma AddedStep(defs: seq<AttDef>, i: nat, l: seq<(bytes, bytes)>, n: nat, idx: seq<nat>)
    requires AddedSoFar(defs, i, l, n, idx) && i < |defs|
    ensures
      var d := defs[i];
      if d.value.Some? && !HasName(l, d.name) then AddedSoFar(defs, i + 1, l + [DefaultPair(d)], n, idx + [i])
      else AddedSoFar(defs, i + 1, l, n, idx)
  {
    var d := defs[i];
    if d.value.Some? {
      NameIsThere(defs, i, l, n, idx);
      if !HasName(l, d.name) {
        var l' := l + [DefaultPair(d)];
        forall name ensures Among(l', n, name) <==> Among(l, n, name) {
          AmongPrefix(l, l', n, name);
        }
      }
    }
  }

  lemma {:induction false} DefaultsFrom(
    defs: seq<AttDef>, i: nat, l: seq<(bytes, bytes)>, n: nat, idx: seq<nat>) returns (idx': seq<nat>)
    requires AddedSoFar(defs, i, l, n, idx)
    ensures
      var r := AddDefaults(defs[i..], l);
      |l| <= |r| && r[..|l|] == l && DefaultsBehind(defs, r, n, idx')
    decreases |defs| - i
  {
    if i == |defs| {
      idx' := idx;
      forall j: nat ensures j in idx <==> GivesDefault(defs, j) && !Among(l, n, defs[j].name) {
      }
    } else {
      var d := defs[i];
      AddedStep(defs, i, l, n, idx);
      assert defs[i..][1..] == defs[i + 1..] && defs[i..][0] == d;
      if d.value.Some? && !HasName(l, d.name) {
        idx' := DefaultsFrom(defs, i + 1, l + [DefaultPair(d)], n, idx + [i]);
        var r := AddDefaults(defs[i..], l);
        assert r[..|l|] == r[..|l| + 1][..|l|] == l;
      } else {
        idx' := DefaultsFrom(defs, i + 1, l, n, idx);
      }
    }
  }

  // ---------------------------------------------------------------- all attributes

  /** The first `n` pairs are the specified attributes, and the defaults follow; no name is there twice. */
  ghost predicate Complete(
    g: Grammar, e: Encoding, elem: bytes, s: bytes, l: seq<Attribute>, open: set<bytes>, r: seq<(bytes, bytes)>)
  {
    && |l| <= |r| && Specifies(g, e, elem, s, l, open, r[..|l|]) && Distinct(r)
    && exists idx :: DefaultsBehind(Defaults(g, elem), r, |l|, idx)
  }

  lemma StaysDistinct(defs: seq<AttDef>, r: seq<(bytes, bytes)>, n: nat, idx: seq<nat>)
    requires DefaultsBehind(defs, r, n, idx) && Distinct(r[..n])
    ensures Distinct(r)
  {
    forall i, j | 0 <= i < j < |r| ensures r[i].0 != r[j].0 {
      if j < n {
        assert r[..n][i] == r[i] && r[..n][j] == r[j];
      } else {
        var b := idx[j - n];
        assert b in idx && r[n + (j - n)] == DefaultPair(defs[b]);
        if i >= n {
          var a := idx[i - n];
          assert a < b && r[n + (i - n)] == DefaultPair(defs[a]) && GivesDefault(defs, b) && GivesDefault(defs, a);
        }
      }
    }
  }

  /**
    storeAtts. It fails at the first attribute whose name was there before, or whose
    value is an error. Otherwise the specified attributes come first, in order, and behind
    them exactly the declared defaults of the attributes that are not specified.
   */
  lemma StoredExactly(g: Grammar, e: Encoding, elem: bytes, s: bytes, l: seq<Attribute>, open: set<bytes>)
    ensures
      match StoreAtts(g, e, elem, s, l, open)
      case Ok(r) => Complete(g, e, elem, s, l, open, r)
      case Fail(error) => StoresAll(g, e, elem, s, l, open, Fail(error))
  {
    assert Specifies(g, e, elem, s, l[..0], open, []);
    SpecifiedFrom(g, e, elem, s, l, 0, open, []);
    match StoreSpecified(g, e, elem, s, l, 0, open, [])
    case Ok(atts) =>
      var defs, n := Defaults(g, elem), |l|;
      assert AddedSoFar(defs, 0, atts, n, []);
      var idx := DefaultsFrom(defs, 0, atts, n, []);
      assert defs[0..] == defs;
      StaysDistinct(defs, AddDefaults(defs, atts), n, idx);
    case Fail(_) =>
  }

  lemma SameValues(
    g: Grammar, e: Encoding, elem: bytes, a: RawAtt, open: set<bytes>, r: Outcome<bytes>, r': Outcome<bytes>)
    requires ValueIs(g, e, elem, a, open, r) && ValueIs(g, e, elem, a, open, r')
    ensures r == r'
  {
    if !a.normalized {
      var defs := Defaults(g, elem);
      forall j: nat, j': nat | FirstDeclared(defs, j, a.name) && FirstDeclared(defs, j', a.name) ensures j == j' {
      }
    }
  }

  lemma Repeats(
    g: Grammar, e: Encoding, elem: bytes, s: bytes, l: seq<Attribute>, open: set<bytes>, i: nat, k: nat, n: nat,
    seen: seq<(bytes, bytes)>)
    requires i < k < n <= |l| && RawOf(e, s, l[i]).name == RawOf(e, s, l[k]).name
    requires Specifies(g, e, elem, s, l[..n], open, seen)
    ensures k < |seen| && seen[i].0 == seen[k].0
  {
    assert l[..n][i] == l[i] && l[..n][k] == l[k];
  }

  /** What can be stored is not refused. */
  lemma StoredOrRefused(
    g: Grammar, e: Encoding, elem: bytes, s: bytes, l: seq<Attribute>, open: set<bytes>, k: nat,
    seen: seq<(bytes, bytes)>, error: XmlError, n: nat, all: seq<(bytes, bytes)>)
    requires k < n <= |l| && Specifies(g, e, elem, s, l[..n], open, all) && Distinct(all)
    requires Specifies(g, e, elem, s, l[..k], open, seen)
    ensures !Refuses(g, e, elem, RawOf(e, s, l[k]), open, seen, error)
  {
    var a := RawOf(e, s, l[k]);
    assert l[..n][k] == l[k] && all[k].0 == a.name;
    forall i | 0 <= i < k ensures seen[i].0 != a.name {
      assert l[..n][i] == l[i] && l[..k][i] == l[i];
      assert all[i].0 != all[k].0;
    }
    if ValueIs(g, e, elem, a, open, Fail(error)) {
      SameValues(g, e, elem, a, open, Ok(all[k].1), Fail(error));
    }
  }

  /** A name that is specified twice is an error, if everything in front of it can be stored. */
  lemma DuplicateFails(
    g: Grammar, e: Encoding, elem: bytes, s: bytes, l: seq<Attribute>, open: set<bytes>, i: nat, k: nat,
    seen: seq<(bytes, bytes)>)
    requires i < k < |l| && RawOf(e, s, l[i]).name == RawOf(e, s, l[k]).name
    requires Specifies(g, e, elem, s, l[..k], open, seen) && Distinct(seen)
    ensures StoreAtts(g, e, elem, s, l, open) == Fail(DuplicateAttribute)
  {
    StoredExactly(g, e, elem, s, l, open);
    match StoreAtts(g, e, elem, s, l, open)
    case Ok(_) =>
    case Fail(error) =>
      var k': nat, seen': seq<(bytes, bytes)> :|
        && 0 <= k' < |l| && Specifies(g, e, elem, s, l[..k'], open, seen') && Distinct(seen')
        && Refuses(g, e, elem, RawOf(e, s, l[k']), open, seen', error);
      if k' < k {
        StoredOrRefused(g, e, elem, s, l, open, k', seen', error, k, seen);
      } else if k' > k {
        Repeats(g, e, elem, s, l, open, i, k, k', seen');
      } else {
        assert l[..k][i] == l[i] && seen'[i].0 == RawOf(e, s, l[k]).name;
      }
  }
}
