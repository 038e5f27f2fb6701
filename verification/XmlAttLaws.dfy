/**
  What attribute values mean (section 3.3.3 of XML 1.0): the values that getAtts
  marks as normalized need no processing, and a tokenized value has no leading,
  trailing or doubled blank.
 */
module XmlAttLaws {
  import opened Bytes
  import opened XmlTok
  import opened XmlDtd
  import Transcode
  import opened XmlAtts
  import opened XmlAttValue

  // ---------------------------------------------------------------- the fast path

  /**
    The raw bytes of a normalized value: whole characters, no reference, no "<",
    and of white space only single blanks between other characters.
   */
  ghost predicate PlainRaw(e: Encoding, v: bytes, p: nat)
    decreases if p < |v| then |v| - p else 0
  {
    p < |v| ==>
      var c := e.cls(v[p]);
      && c != BT_AMP && c != BT_LT && c != BT_CR && c != BT_LF
      && (c == BT_S ==> v[p] == BYTE_SPACE && p != 0 && p + 1 < |v| && v[p + 1] != BYTE_SPACE)
      && Walk(e, v, p) <= |v|
      && PlainRaw(e, v, Walk(e, v, p))
  }

  /** A multi-byte character of `v` from `p` on ends in the byte of a blank, before a blank or the end. */
  predicate HidesSpace(e: Encoding, v: bytes, p: nat)
    decreases if p < |v| then |v| - p else 0
  {
    p < |v| &&
    (var q := Walk(e, v, p);
     || (IsLead(e.cls(v[p])) && q <= |v| && v[q - 1] == BYTE_SPACE && (q == |v| || v[q] == BYTE_SPACE))
     || HidesSpace(e, v, q))
  }

  /** The value of an accepted attribute that getAtts leaves normalized. */
  lemma {:induction false} NormalizedIsPlain(e: Encoding, open: Class, s: bytes, a: nat, p: nat)
    requires open == BT_QUOT || open == BT_APOS
    requires a <= p <= |s| && ValueTok(e, open, s, p).Closed?
    requires PlainValue(e, open, s, a, p, ValueTok(e, open, s, p).at)
    ensures PlainRaw(e, s[a..ValueTok(e, open, s, p).at], p - a)
    decreases |s| - p
  {
    var b := ValueTok(e, open, s, p).at;
    var v := s[a..b];
    if p < b {
      var to := ValueUnit(e, s, p).to;
      assert to == Walk(e, s, p) && Walk(e, v, p - a) == to - a;
      NormalizedIsPlain(e, open, s, a, to);
    }
  }

  /** A run of plain characters ends at a blank or at the end of the value. */
  lemma {:induction false} PlainRunStops(e: Encoding, v: bytes, p: nat)
    requires p <= |v| && PlainRaw(e, v, p)
    ensures
      var r := PlainRun(e, v, p);
      && r.Token? && PlainRaw(e, v, r.next)
      && (r.next == |v| || e.cls(v[r.next]) == BT_S)
      && (HidesSpace(e, v, r.next) ==> HidesSpace(e, v, p))
    decreases |v| - p
  {
    if p < |v| && e.cls(v[p]) != BT_S {
      PlainRunStops(e, v, Walk(e, v, p));
    }
  }

  /** In a normalized value every round adds a blank or a run of characters. */
  lemma PlainStep(g: Grammar, e: Encoding, isCdata: bool, v: bytes, p: nat, open: set<bytes>, acc: bytes)
    requires p < |v| && PlainRaw(e, v, p)
    ensures PlainRun(e, v, p).Token?
    ensures
      StepAt(g, e, isCdata, v, p, open, acc)
      == if e.cls(v[p]) == BT_S then Added(p + 1, AddBlank(isCdata, acc))
         else Added(PlainRun(e, v, p).next, acc + v[p..PlainRun(e, v, p).next])
  {
    PlainRunStops(e, v, p);
  }

  /** A CDATA attribute that is normalized has its raw bytes as value. */
  lemma {:induction false} PlainCdata(g: Grammar, e: Encoding, v: bytes, p: nat, open: set<bytes>, acc: bytes)
    requires p <= |v| && PlainRaw(e, v, p)
    ensures AppendValue(g, e, true, v, p, open, acc) == Ok(acc + v[p..])
    decreases |v| - p
  {
    if p < |v| {
      PlainStep(g, e, true, v, p, open, acc);
      PlainRunStops(e, v, p);
      var next := StepAt(g, e, true, v, p, open, acc).next;
      assert e.cls(v[p]) == BT_S ==> v[p..next] == [BYTE_SPACE];
      PlainCdata(g, e, v, next, open, acc + v[p..next]);
      assert acc + v[p..next] + v[next..] == acc + v[p..];
    } else {
      assert acc + v[p..] == acc;
    }
  }

  /** Processing never makes a normalized value longer. */
  lemma {:induction false} PlainLength(g: Grammar, e: Encoding, isCdata: bool, v: bytes, p: nat, open: set<bytes>,
      acc: bytes)
    requires p <= |v| && PlainRaw(e, v, p)
    ensures
      var r := AppendValue(g, e, isCdata, v, p, open, acc);
      r.Ok? && |r.value| <= |acc| + |v| - p
    decreases |v| - p
  {
    if p < |v| {
      PlainStep(g, e, isCdata, v, p, open, acc);
      PlainRunStops(e, v, p);
      var st := StepAt(g, e, isCdata, v, p, open, acc);
      PlainLength(g, e, isCdata, v, st.next, open, st.acc);
    }
  }

  /** Within a run of characters only its last byte can hide a blank. */
  lemma {:induction false} RunHides(e: Encoding, v: bytes, p: nat)
    requires LiteralBytes(e) && p < |v| && PlainRaw(e, v, p) && e.cls(v[p]) != BT_S
    ensures
      var n := PlainRun(e, v, p).next;
      && p < n <= |v|
      && (HidesSpace(e, v, p) <==> v[n - 1] == BYTE_SPACE || HidesSpace(e, v, n))
    decreases |v| - p
  {
    var q := Walk(e, v, p);
    if q < |v| && e.cls(v[q]) != BT_S {
      RunHides(e, v, q);
    }
  }

  /** The stored value is the raw value, unless a blank was hidden. */
  predicate StoredAs(r: Outcome<bytes>, v: bytes, hides: bool) {
    r.Ok? && (if hides then |Chop(false, r.value)| < |v| else Chop(false, r.value) == v)
  }

  /** Tokenizing the rest of a normalized value whose first `p` bytes are already there. */
  lemma {:induction false} PlainTokenized(g: Grammar, e: Encoding, v: bytes, p: nat, open: set<bytes>)
    requires LiteralBytes(e) && p <= |v| && PlainRaw(e, v, p)
    requires p == 0 || v[p - 1] != BYTE_SPACE || (p < |v| && e.cls(v[p]) != BT_S)
    ensures StoredAs(AppendValue(g, e, false, v, p, open, v[..p]), v, HidesSpace(e, v, p))
    decreases |v| - p, 1
  {
    if p == |v| {
      assert v[..p] == v;
    } else {
      PlainStep(g, e, false, v, p, open, v[..p]);
      if e.cls(v[p]) == BT_S {
        assert v[..p] + [BYTE_SPACE] == v[..p + 1];
        PlainTokenized(g, e, v, p + 1, open);
      } else {
        var n := PlainRun(e, v, p).next;
        PlainRunStops(e, v, p);
        RunHides(e, v, p);
        assert v[..p] + v[p..n] == v[..n];
        PlainRunTokenized(g, e, v, p, n, open);
      }
    }
  }

  /** The same after a run of characters, which may have hidden a blank in its last byte. */
  lemma {:induction false} PlainRunTokenized(g: Grammar, e: Encoding, v: bytes, p: nat, n: nat, open: set<bytes>)
    requires LiteralBytes(e) && p < n <= |v| && PlainRaw(e, v, n)
    requires n < |v| ==> e.cls(v[n]) == BT_S
    ensures
      StoredAs(AppendValue(g, e, false, v, n, open, v[..n]), v, v[n - 1] == BYTE_SPACE || HidesSpace(e, v, n))
    decreases |v| - p, 0
  {
    if v[n - 1] != BYTE_SPACE {
      PlainTokenized(g, e, v, n, open);
    } else if n < |v| {
      PlainStep(g, e, false, v, n, open, v[..n]);
      PlainLength(g, e, false, v, n + 1, open, v[..n]);
    } else {
      assert v[..n] == v;
    }
  }

  /**
    The fast path of storeAtts. For an attribute that getAtts leaves normalized
    the raw bytes are the value of a CDATA attribute, always; for a tokenized
    one, exactly when no malformed multi-byte character swallows the byte of a
    blank in front of a blank or at the end. In valid UTF-8 there is no such
    character, because continuation bytes are 0x80 and more.
   */
  lemma NormalizedFastPath(g: Grammar, e: Encoding, s: bytes, p: nat, open: set<bytes>)
    requires LiteralBytes(e) && StartsName(e, s, p) && AttributeTok(e, s, AfterFirst(e, s, p)).Closed?
    requires AttributeAt(e, s, p).normalized
    ensures
      var a := AttributeAt(e, s, p);
      var raw := s[a.valuePtr..a.valueEnd];
      && StoreValue(g, e, true, raw, open) == Ok(raw)
      && (StoreValue(g, e, false, raw, open) == Ok(raw) <==> !HidesSpace(e, raw, 0))
  {
    var a := AttributeAt(e, s, p);
    var raw := s[a.valuePtr..a.valueEnd];
    NormalizedIsPlain(e, e.cls(s[a.valuePtr - 1]), s, a.valuePtr, a.valuePtr);
    PlainCdata(g, e, raw, 0, open, []);
    assert [] + raw[0..] == raw;
    assert raw[..0] == [];
    PlainTokenized(g, e, raw, 0, open);
  }

  /** The rounds for the value C3 20 20 78, in which a lead byte swallows a blank. */
  lemma HiddenSpaceRounds(g: Grammar, e: Encoding, open: set<bytes>)
    requires LiteralBytes(e) && e.cls(0xC3) == BT_LEAD2
    ensures
      var v := [0xC3, 0x20, 0x20, 0x78];
      && StepAt(g, e, false, v, 0, open, []) == Added(2, [0xC3, 0x20])
      && StepAt(g, e, false, v, 2, open, [0xC3, 0x20]) == Added(3, [0xC3, 0x20])
      && StepAt(g, e, false, v, 3, open, [0xC3, 0x20]) == Added(4, [0xC3, 0x20, 0x78])
      && StepAt(g, e, false, v, 4, open, [0xC3, 0x20, 0x78]) == Finished
  {
    var v := [0xC3, 0x20, 0x20, 0x78];
    assert PlainRun(e, v, 2) == Token(DataChars, 2) && PlainRun(e, v, 4) == Token(DataChars, 4);
  }

  /** A value of four bytes that processing shortens. */
  lemma HiddenSpaceValue(g: Grammar, e: Encoding, open: set<bytes>)
    requires LiteralBytes(e) && e.cls(0xC3) == BT_LEAD2
    ensures StoreValue(g, e, false, [0xC3, 0x20, 0x20, 0x78], open) == Ok([0xC3, 0x20, 0x78])
  {
    var v := [0xC3, 0x20, 0x20, 0x78];
    HiddenSpaceRounds(g, e, open);
    assert AppendValue(g, e, false, v, 4, open, [0xC3, 0x20, 0x78]) == Ok([0xC3, 0x20, 0x78]);
    assert AppendValue(g, e, false, v, 3, open, [0xC3, 0x20]) == Ok([0xC3, 0x20, 0x78]);
    assert AppendValue(g, e, false, v, 2, open, [0xC3, 0x20]) == Ok([0xC3, 0x20, 0x78]);
  }

  // ---------------------------------------------------------------- tokenized values

  predicate BlankFirst(b: bytes) {
    b != [] && b[0] == BYTE_SPACE
  }

  predicate BlankLast(b: bytes) {
    b != [] && b[|b| - 1] == BYTE_SPACE
  }

  predicate TwoBlanks(b: bytes) {
    exists i :: 0 < i < |b| && b[i - 1] == BYTE_SPACE && b[i] == BYTE_SPACE
  }

  /** No blank at either end, and no two blanks in a row. */
  predicate Tight(b: bytes) {
    !BlankFirst(b) && !BlankLast(b) && !TwoBlanks(b)
  }

  /**
    Two bytes of a blank are next to each other inside a run of characters of the
    value from `p` on, or of the entities that it refers to: a lead byte swallows them.
   */
  predicate HidesTwo(g: Grammar, e: Encoding, v: bytes, p: nat, open: set<bytes>)
    requires p <= |v|
    decreases g.dtd.entities.Keys - open, |v| - p
  {
    match AttributeValueTok(e, v, p)
    case Token(kind, next) =>
      || (kind == DataChars && TwoBlanks(v[p..next]))
      || (kind == EntityRef && EntityHides(g, RefName(v, p, next), open))
      || HidesTwo(g, e, v, next, open)
    case TrailingCr => HidesTwo(g, e, v, p + 1, open)
    case _ => false
  }

  predicate EntityHides(g: Grammar, name: bytes, open: set<bytes>)
    decreases g.dtd.entities.Keys - open, 0
  {
    && Predefined(name).None? && name in g.dtd.entities && name !in open && g.dtd.entities[name].Internal?
    && HidesTwo(g, g.internal, g.dtd.entities[name].text, 0, open + {name})
  }

  /** Bytes that do not start with a blank are appended. */
  lemma AppendBlanks(acc: bytes, b: bytes)
    requires !BlankFirst(b)
    ensures TwoBlanks(acc + b) <==> TwoBlanks(acc) || TwoBlanks(b)
    ensures BlankFirst(acc + b) ==> BlankFirst(acc)
  {
    var r := acc + b;
    if TwoBlanks(acc) {
      var i :| 0 < i < |acc| && acc[i - 1] == BYTE_SPACE && acc[i] == BYTE_SPACE;
      assert r[i - 1] == BYTE_SPACE && r[i] == BYTE_SPACE;
    }
    if TwoBlanks(b) {
      var i :| 0 < i < |b| && b[i - 1] == BYTE_SPACE && b[i] == BYTE_SPACE;
      assert r[|acc| + i - 1] == BYTE_SPACE && r[|acc| + i] == BYTE_SPACE;
    }
    if TwoBlanks(r) {
      var i :| 0 < i < |r| && r[i - 1] == BYTE_SPACE && r[i] == BYTE_SPACE;
      if i < |acc| {
        assert acc[i - 1] == BYTE_SPACE && acc[i] == BYTE_SPACE;
      } else {
        assert b[i - |acc|] == BYTE_SPACE && i != |acc| && b[i - |acc| - 1] == BYTE_SPACE;
      }
    }
  }

  /** A blank is only appended where it makes no second one. */
  lemma BlankAppends(acc: bytes)
    ensures TwoBlanks(AddBlank(false, acc)) <==> TwoBlanks(acc)
    ensures BlankFirst(AddBlank(false, acc)) ==> BlankFirst(acc)
  {
    var r := AddBlank(false, acc);
    if TwoBlanks(acc) {
      var i :| 0 < i < |acc| && acc[i - 1] == BYTE_SPACE && acc[i] == BYTE_SPACE;
      assert r[i - 1] == BYTE_SPACE && r[i] == BYTE_SPACE;
    }
    if TwoBlanks(r) && r != acc {
      var i :| 0 < i < |r| && r[i - 1] == BYTE_SPACE && r[i] == BYTE_SPACE;
      assert i < |acc| && acc[i - 1] == BYTE_SPACE && acc[i] == BYTE_SPACE;
    }
  }

  lemma OneByte(b: byte)
    ensures !TwoBlanks([b]) && (b != BYTE_SPACE ==> !BlankFirst([b]))
  {
  }

  lemma NoBlankBytes(b: bytes)
    requires forall i :: 0 <= i < |b| ==> b[i] != BYTE_SPACE
    ensures !TwoBlanks(b) && !BlankFirst(b)
  {
  }

  /** What happens to the blanks of `acc` when it becomes `r`; `hides` if two are added next to each other. */
  ghost predicate Blanks(acc: bytes, r: bytes, hides: bool) {
    && (TwoBlanks(r) <==> TwoBlanks(acc) || hides)
    && (BlankFirst(r) ==> BlankFirst(acc))
  }

  /** A run of characters starts with no blank. */
  lemma DataStarts(e: Encoding, v: bytes, p: nat)
    requires LiteralBytes(e) && p < |v|
    requires AttributeValueTok(e, v, p).Token? && AttributeValueTok(e, v, p).kind == DataChars
    ensures !BlankFirst(v[p..AttributeValueTok(e, v, p).next])
  {
  }

  lemma CharBlanks(acc: bytes, n: nat)
    ensures Blanks(acc, AddChar(false, acc, n), false)
  {
    if n == BYTE_SPACE {
      BlankAppends(acc);
    } else {
      NoBlankBytes(Transcode.Utf8(n));
      AppendBlanks(acc, Transcode.Utf8(n));
    }
  }

  lemma {:induction false} TokenBlanks(
    g: Grammar, v: bytes, p: nat, open: set<bytes>, acc: bytes, kind: Kind, next: nat)
    requires LiteralBytes(g.internal) && p < next <= |v| && (kind == DataChars ==> !BlankFirst(v[p..next]))
    ensures
      var st := TokenStep(g, false, v, p, open, acc, kind, next);
      var hides :=
        || (kind == DataChars && TwoBlanks(v[p..next]))
        || (kind == EntityRef && EntityHides(g, RefName(v, p, next), open));
      st.Added? ==> Blanks(acc, st.acc, hides)
    decreases g.dtd.entities.Keys - open, |v| - p, 0
  {
    if kind == EntityRef {
      EntityBlanks(g, RefName(v, p, next), next, open, acc);
    } else if kind == DataChars {
      AppendBlanks(acc, v[p..next]);
    } else if kind == CharRef {
      var n := RefNumber(v, p, next);
      if n.Some? {
        CharBlanks(acc, n.value);
      }
    } else {
      BlankAppends(acc);
    }
  }

  lemma {:induction false} EntityBlanks(g: Grammar, name: bytes, next: nat, open: set<bytes>, acc: bytes)
    requires LiteralBytes(g.internal)
    ensures
      var st := EntityStep(g, false, name, next, open, acc);
      st.Added? ==> Blanks(acc, st.acc, EntityHides(g, name, open))
    decreases g.dtd.entities.Keys - open, 0, 0
  {
    if Predefined(name).Some? {
      OneByte(Predefined(name).value);
      AppendBlanks(acc, [Predefined(name).value]);
    } else if name in g.dtd.entities && name !in open && g.dtd.entities[name].Internal? {
      ValueBlanks(g, g.internal, g.dtd.entities[name].text, 0, open + {name}, acc);
    }
  }

  lemma {:induction false} StepBlanks(g: Grammar, e: Encoding, v: bytes, p: nat, open: set<bytes>, acc: bytes)
    requires LiteralBytes(g.internal) && LiteralBytes(e) && p <= |v|
    ensures
      var st := StepAt(g, e, false, v, p, open, acc);
      st.Added? ==>
        exists hides ::
          Blanks(acc, st.acc, hides) && (HidesTwo(g, e, v, p, open) <==> hides || HidesTwo(g, e, v, st.next, open))
    decreases g.dtd.entities.Keys - open, |v| - p, 1
  {
    match AttributeValueTok(e, v, p)
    case Token(kind, next) =>
      if kind == DataChars {
        DataStarts(e, v, p);
      }
      TokenBlanks(g, v, p, open, acc, kind, next);
      var hides :=
        || (kind == DataChars && TwoBlanks(v[p..next]))
        || (kind == EntityRef && EntityHides(g, RefName(v, p, next), open));
      assert HidesTwo(g, e, v, p, open) <==> hides || HidesTwo(g, e, v, next, open);
    case TrailingCr =>
      BlankAppends(acc);
      assert Blanks(acc, AddBlank(false, acc), false);
    case _ =>
  }

  /** Two blanks get next to each other exactly where they are hidden. */
  lemma {:induction false} ValueBlanks(g: Grammar, e: Encoding, v: bytes, p: nat, open: set<bytes>, acc: bytes)
    requires LiteralBytes(g.internal) && LiteralBytes(e) && p <= |v|
    ensures
      var r := AppendValue(g, e, false, v, p, open, acc);
      r.Ok? ==> Blanks(acc, r.value, HidesTwo(g, e, v, p, open))
    decreases g.dtd.entities.Keys - open, |v| - p, 2
  {
    StepBlanks(g, e, v, p, open, acc);
    match StepAt(g, e, false, v, p, open, acc)
    case Added(next, acc') =>
      ValueBlanks(g, e, v, next, open, acc');
    case _ =>
  }

  lemma ChopBlanks(acc: bytes)
    requires !BlankFirst(acc)
    ensures Tight(Chop(false, acc)) <==> !TwoBlanks(acc)
  {
    var r := Chop(false, acc);
    if TwoBlanks(acc) {
      var i :| 0 < i < |acc| && acc[i - 1] == BYTE_SPACE && acc[i] == BYTE_SPACE;
      if i < |r| {
        assert r[i - 1] == BYTE_SPACE && r[i] == BYTE_SPACE;
      } else {
        assert r[|r| - 1] == BYTE_SPACE;
      }
    } else {
      assert forall i :: 0 < i < |acc| ==> !(acc[i - 1] == BYTE_SPACE && acc[i] == BYTE_SPACE);
    }
  }

  /**
    The value that storeAttributeValue makes of a tokenized attribute has no blank at
    either end and no two blanks in a row, entities expanded and all: exactly if no
    lead byte swallows two blanks.
   */
  lemma TokenizedValue(g: Grammar, e: Encoding, v: bytes, open: set<bytes>)
    requires LiteralBytes(g.internal) && LiteralBytes(e)
    ensures
      var r := StoreValue(g, e, false, v, open);
      r.Ok? ==> (Tight(r.value) <==> !HidesTwo(g, e, v, 0, open))
  {
    ValueBlanks(g, e, v, 0, open, []);
    match AppendValue(g, e, false, v, 0, open, [])
    case Ok(acc) => ChopBlanks(acc);
    case _ =>
  }

  // ---------------------------------------------------------------- characters without blanks

  /** From `p` on, `v` consists of whole characters, and none of several bytes contains the byte of a blank. */
  ghost predicate WholeChars(e: Encoding, v: bytes, p: nat)
    decreases if p < |v| then |v| - p else 0
  {
    p < |v| ==>
      var q := Walk(e, v, p);
      && q <= |v|
      && (forall i :: p < i < q ==> v[i] != BYTE_SPACE)
      && (IsLead(e.cls(v[p])) ==> v[p] != BYTE_SPACE)
      && WholeChars(e, v, q)
  }

  ghost predicate WholeEntities(g: Grammar) {
    && LiteralBytes(g.internal)
    && forall name :: name in g.dtd.entities && g.dtd.entities[name].Internal?
        ==> WholeChars(g.internal, g.dtd.entities[name].text, 0)
  }

  lemma {:induction false} NameWhole(e: Encoding, v: bytes, p: nat)
    requires p <= |v| && WholeChars(e, v, p) && NameSpan(e, v, p).SpanEnd?
    ensures WholeChars(e, v, NameSpan(e, v, p).at)
    decreases |v| - p
  {
    if p < |v| && NameCheck(e, v, p).Takes? {
      NameWhole(e, v, p + NameCheck(e, v, p).n);
    }
  }

  lemma {:induction false} DigitsWhole(e: Encoding, hex: bool, v: bytes, p: nat)
    requires p <= |v| && WholeChars(e, v, p)
    ensures WholeChars(e, v, DigitSpan(e, hex, v, p))
    decreases |v| - p
  {
    if p < |v| && IsDigit(e.cls(v[p]), hex) {
      DigitsWhole(e, hex, v, p + 1);
    }
  }

  lemma RefWhole(e: Encoding, v: bytes, p: nat)
    requires LiteralBytes(e) && p <= |v| && WholeChars(e, v, p) && RefTok(e, v, p).Token?
    ensures WholeChars(e, v, RefTok(e, v, p).next)
  {
    var sp := WholeName(e, v, p);
    if sp.at > p {
      NameWhole(e, v, p + NmStrtCheck(e, v, p).n);
    } else {
      var hex := v[p + 1] == BYTE_X;
      DigitsWhole(e, hex, v, if hex then p + 2 else p + 1);
    }
  }

  /** A run of characters contains no blank. */
  lemma {:induction false} RunWhole(e: Encoding, v: bytes, p: nat)
    requires LiteralBytes(e) && p <= |v| && WholeChars(e, v, p) && PlainRun(e, v, p).Token?
    ensures
      var n := PlainRun(e, v, p).next;
      && WholeChars(e, v, n)
      && forall i :: p <= i < n ==> v[i] != BYTE_SPACE
    decreases |v| - p
  {
    if p < |v| && PlainRun(e, v, p).next > p {
      RunWhole(e, v, Walk(e, v, p));
    }
  }

  /** The token at `p` of a value made of whole characters leaves whole characters. */
  lemma TokenWhole(e: Encoding, v: bytes, p: nat)
    requires LiteralBytes(e) && p <= |v| && WholeChars(e, v, p) && AttributeValueTok(e, v, p).Token?
    ensures
      var r := AttributeValueTok(e, v, p);
      && WholeChars(e, v, r.next)
      && (r.kind == DataChars ==> forall i :: 0 <= i < r.next - p ==> v[p..r.next][i] != BYTE_SPACE)
  {
    if e.cls(v[p]) == BT_AMP {
      RefWhole(e, v, p + 1);
    } else if !IsSpace(e.cls(v[p])) {
      RunWhole(e, v, p);
    }
  }

  /** In values and entities of such characters, as in valid UTF-8, no blanks are hidden. */
  lemma {:induction false} WholeHidesNothing(g: Grammar, e: Encoding, v: bytes, p: nat, open: set<bytes>)
    requires WholeEntities(g) && LiteralBytes(e) && p <= |v| && WholeChars(e, v, p)
    ensures !HidesTwo(g, e, v, p, open)
    decreases g.dtd.entities.Keys - open, |v| - p
  {
    match AttributeValueTok(e, v, p)
    case Token(kind, next) =>
      TokenWhole(e, v, p);
      if kind == EntityRef {
        EntityHidesNothing(g, RefName(v, p, next), open);
      }
      assert kind == DataChars ==> !TwoBlanks(v[p..next]);
      WholeHidesNothing(g, e, v, next, open);
    case TrailingCr =>
      assert p + 1 == |v| && AttributeValueTok(e, v, p + 1).NoToken?;
    case _ =>
  }

  lemma {:induction false} EntityHidesNothing(g: Grammar, name: bytes, open: set<bytes>)
    requires WholeEntities(g)
    ensures !EntityHides(g, name, open)
    decreases g.dtd.entities.Keys - open, 0
  {
    if name in g.dtd.entities && name !in open && g.dtd.entities[name].Internal? {
      WholeHidesNothing(g, g.internal, g.dtd.entities[name].text, 0, open + {name});
    }
  }

  /** What hides a space in front of another one, or at the end, is not tight as it is. */
  lemma {:induction false} HiddenIsNotTight(e: Encoding, v: bytes, p: nat)
    requires HidesSpace(e, v, p)
    ensures !Tight(v)
    decreases if p < |v| then |v| - p else 0
  {
    var q := Walk(e, v, p);
    if IsLead(e.cls(v[p])) && q <= |v| && v[q - 1] == BYTE_SPACE && (q == |v| || v[q] == BYTE_SPACE) {
      assert q < |v| ==> TwoBlanks(v);
    } else {
      HiddenIsNotTight(e, v, q);
    }
  }
}
