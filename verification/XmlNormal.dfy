/**
  Normalization: what the parser makes of white space in attribute values and of line
  ends in text, as section 2.11 and section 3.3.3 of XML 1.0 demand it, and which
  values and text it leaves as they are.
 */
module XmlNormal {
  import opened Bytes
  import opened XmlTok
  import opened XmlDtd
  import opened XmlParse
  import opened XmlPrintTok
  import P = XmlPrint

  /** A line feed is at `i`, or follows the end of `v`. */
  predicate LfAt(e: Encoding, v: bytes, i: nat, lf: bool) {
    if i < |v| then e.cls(v[i]) == BT_LF else lf
  }

  /** What is reported for the character at `i` of an attribute value, or of text that `lf` says a line feed follows. */
  function NormalChar(e: Encoding, v: bytes, i: nat, value: bool, lf: bool): bytes
    requires i < |v|
  {
    var c, j := e.cls(v[i]), CharEnd(e, v, i);
    if P.IsSpecial(v[i]) then [v[i]]
    else if c == BT_CR && LfAt(e, v, i + 1, lf) then []
    else if IsSpace(c) && (value || c != BT_S) then if value then [BYTE_SPACE] else NEWLINE
    else if j <= |v| then v[i..j]
    else v[i..]
  }

  function Normal(e: Encoding, v: bytes, i: nat, value: bool, lf: bool): bytes
    decreases if i < |v| then |v| - i else 0
  {
    if i >= |v| then [] else NormalChar(e, v, i, value, lf) + Normal(e, v, CharEnd(e, v, i), value, lf)
  }

  /** A byte that is changed where a character starts with it. */
  predicate Changes(e: Encoding, b: byte, value: bool) {
    var c := e.cls(b);
    IsSpace(c) && if value then b != BYTE_SPACE else c == BT_CR || (c == BT_LF && b != 0x0A)
  }

  /** No character is white space that is changed. */
  predicate Kept(e: Encoding, v: bytes, i: nat, value: bool)
    decreases if i < |v| then |v| - i else 0
  {
    i < |v| ==> !Changes(e, v[i], value) && Kept(e, v, CharEnd(e, v, i), value)
  }

  /** A character that is not changed. */
  lemma KeptChar(e: Encoding, v: bytes, i: nat, value: bool, lf: bool)
    requires Ascii(e) && i < |v| && !Changes(e, v[i], value)
    ensures NormalChar(e, v, i, value, lf) == if CharEnd(e, v, i) <= |v| then v[i..CharEnd(e, v, i)] else v[i..]
  {
    assert v[i..i + 1] == [v[i]];
  }

  lemma {:induction false} KeptSame(e: Encoding, v: bytes, i: nat, value: bool, lf: bool)
    requires Ascii(e) && i <= |v| && Kept(e, v, i, value)
    ensures Normal(e, v, i, value, lf) == v[i..]
    decreases |v| - i
  {
    if i < |v| {
      var j := CharEnd(e, v, i);
      KeptChar(e, v, i, value, lf);
      if j < |v| {
        KeptSame(e, v, j, value, lf);
        assert v[i..j] + v[j..] == v[i..];
      } else {
        assert v[i..] + [] == v[i..];
      }
    }
  }

  // ---------------------------------------------------------------- a measure

  /** The bytes, each of those that are changed twice. */
  function Weight(e: Encoding, v: bytes, value: bool): nat {
    if v == [] then 0 else (if Changes(e, v[0], value) then 2 else 1) + Weight(e, v[1..], value)
  }

  lemma {:induction false} WeightAppend(e: Encoding, a: bytes, b: bytes, value: bool)
    ensures Weight(e, a + b, value) == Weight(e, a, value) + Weight(e, b, value)
    decreases |a|
  {
    if a == [] {
      assert a + b == b;
    } else {
      assert (a + b)[1..] == a[1..] + b;
      WeightAppend(e, a[1..], b, value);
    }
  }

  /** A character that is changed weighs less behind it. */
  lemma ChangedChar(e: Encoding, v: bytes, i: nat, value: bool, lf: bool)
    requires Ascii(e) && i < |v| && Changes(e, v[i], value)
    ensures CharEnd(e, v, i) == i + 1 && Weight(e, v[i..i + 1], value) == 2
    ensures Weight(e, NormalChar(e, v, i, value, lf), value) <= 1
  {
    assert v[i..i + 1] == [v[i]] && [v[i]][1..] == [];
    assert NEWLINE[1..] == [] && [BYTE_SPACE][1..] == [];
  }

  lemma FirstWeighs(e: Encoding, v: bytes, i: nat, value: bool, lf: bool)
    requires Ascii(e) && i < |v|
    ensures
      var j := if CharEnd(e, v, i) <= |v| then CharEnd(e, v, i) else |v|;
      Weight(e, NormalChar(e, v, i, value, lf), value) + (if Changes(e, v[i], value) then 1 else 0)
      <= Weight(e, v[i..j], value)
  {
    if Changes(e, v[i], value) {
      ChangedChar(e, v, i, value, lf);
    } else {
      KeptChar(e, v, i, value, lf);
      assert v[i..|v|] == v[i..];
    }
  }

  /** Normalization leaves less, unless there is nothing to change. */
  lemma {:induction false} NormalWeighs(e: Encoding, v: bytes, i: nat, value: bool, lf: bool)
    requires Ascii(e) && i <= |v|
    ensures
      Weight(e, Normal(e, v, i, value, lf), value) + (if Kept(e, v, i, value) then 0 else 1) <= Weight(e, v[i..], value)
    decreases |v| - i
  {
    if i < |v| {
      var j := if CharEnd(e, v, i) <= |v| then CharEnd(e, v, i) else |v|;
      NormalWeighs(e, v, j, value, lf);
      FirstWeighs(e, v, i, value, lf);
      NormalFirst(e, v, i, value, lf, j);
      assert v[i..j] + v[j..] == v[i..];
      WeightAppend(e, v[i..j], v[j..], value);
    }
  }

  lemma NormalFirst(e: Encoding, v: bytes, i: nat, value: bool, lf: bool, j: nat)
    requires i < |v| && j == if CharEnd(e, v, i) <= |v| then CharEnd(e, v, i) else |v|
    ensures Kept(e, v, i, value) <==> !Changes(e, v[i], value) && Kept(e, v, j, value)
    ensures
      Weight(e, Normal(e, v, i, value, lf), value)
      == Weight(e, NormalChar(e, v, i, value, lf), value) + Weight(e, Normal(e, v, j, value, lf), value)
  {
    WeightAppend(e, NormalChar(e, v, i, value, lf), Normal(e, v, j, value, lf), value);
  }

  // ---------------------------------------------------------------- attributes

  function NormalValue(e: Encoding, v: bytes): bytes {
    Normal(e, v, 0, true, false)
  }

  function NormalAtts(e: Encoding, l: seq<P.Att>): (r: seq<P.Att>)
    ensures |r| == |l| && forall i :: 0 <= i < |l| ==> r[i] == (l[i].0, NormalValue(e, l[i].1))
  {
    seq(|l|, i requires 0 <= i < |l| => (l[i].0, NormalValue(e, l[i].1)))
  }

  /** A line feed where the printed form goes on is one in the value. */
  lemma LfIn(e: Encoding, v: bytes, i: nat, w: bytes, p: nat, end: nat, lf: bool)
    requires Ascii(e) && PrintedAt(v, i, w, p, end) && lf == LfAt(e, w, end, false)
    ensures LfAt(e, v, i, lf) <==> LfAt(e, w, p, false)
  {
    PrintedEnd(v, i, w, p, end);
    if i < |v| && P.IsSpecial(v[i]) {
      assert w[p] == w[p..p + |P.EscapeByte(v[i])|][0];
    }
  }
}
