/**
  Attribute values in pieces: what a value means does not depend on how it is put together,
  and a reference to an internal entity is its replacement text (section 4.4.5 of XML 1.0).
 */
module XmlValueText {
  import opened Bytes
  import opened Wrappers
  import opened XmlTok
  import opened XmlTokLaws
  import opened XmlDtd
  import opened XmlAtts
  import opened XmlAttValue
  import opened XmlTurnLaws
  import opened XmlPrintTok
  import opened XmlEntities
  import opened XmlCharRefs
  import opened XmlShapes
  import opened XmlTagShapes
  import Transcode
  import P = XmlPrint

  // ---------------------------------------------------------------- a reference in a value

  lemma StepIsToken(
    g: Grammar, e: Encoding, isCdata: bool, v: bytes, p: nat, open: set<bytes>, acc: bytes, kind: Kind, next: nat)
    requires p <= |v| && AttributeValueTok(e, v, p) == Token(kind, next)
    ensures p < next <= |v|
    ensures StepAt(g, e, isCdata, v, p, open, acc) == TokenStep(g, isCdata, v, p, open, acc, kind, next)
  {
  }

  lemma StepIsStop(g: Grammar, e: Encoding, isCdata: bool, v: bytes, p: nat, open: set<bytes>, acc: bytes)
    requires p <= |v| && !AttributeValueTok(e, v, p).Token?
    ensures
      StepAt(g, e, isCdata, v, p, open, acc)
      == match AttributeValueTok(e, v, p)
         case NoToken => Finished
         case Invalid(_) => Bad(InvalidToken)
         case Partial => Bad(InvalidToken)
         case TrailingCr => Added(p + 1, AddBlank(isCdata, acc))
         case _ => Bad(Aborted)
  {
  }

  lemma AppendGoesOn(
    g: Grammar, e: Encoding, isCdata: bool, v: bytes, p: nat, open: set<bytes>, acc: bytes, next: nat, acc': bytes)
    requires p <= |v| && StepAt(g, e, isCdata, v, p, open, acc) == Added(next, acc')
    ensures p < next <= |v|
    ensures AppendValue(g, e, isCdata, v, p, open, acc) == AppendValue(g, e, isCdata, v, next, open, acc')
  {
  }

  lemma StepIsEntity(g: Grammar, isCdata: bool, v: bytes, p: nat, open: set<bytes>, acc: bytes, next: nat, name: bytes)
    requires p + 2 <= next <= |v| && v[p + 1..next - 1] == name
    ensures TokenStep(g, isCdata, v, p, open, acc, EntityRef, next) == EntityStep(g, isCdata, name, next, open, acc)
  {
  }

  lemma ReferenceAt(
    g: Grammar, e: Encoding, isCdata: bool, v: bytes, p: nat, name: bytes, open: set<bytes>, acc: bytes)
    requires e.cls(P.AMP) == BT_AMP && e.cls(P.SEMI) == BT_SEMI && NameOk(e, name)
    requires P.StartsWith(v, p, Reference(name))
    ensures p + |name| + 2 <= |v|
    ensures StepAt(g, e, isCdata, v, p, open, acc) == EntityStep(g, isCdata, name, p + |name| + 2, open, acc)
  {
    var next := p + |name| + 2;
    ReferenceIn(e, name, v, p);
    NameInside(name, v, p, next);
    StepIsToken(g, e, isCdata, v, p, open, acc, EntityRef, next);
    StepIsEntity(g, isCdata, v, p, open, acc, next, name);
  }

  /**
    A reference to an internal entity that is not being expanded: its replacement text,
    with references and white space of its own, is added where the reference is.
   */
  lemma InternalInValue(
    g: Grammar, e: Encoding, isCdata: bool, v: bytes, p: nat, name: bytes, text: bytes, open: set<bytes>, acc: bytes)
    requires e.cls(P.AMP) == BT_AMP && e.cls(P.SEMI) == BT_SEMI && NameOk(e, name)
    requires P.StartsWith(v, p, Reference(name))
    requires Predefined(name).None? && name in g.dtd.entities && g.dtd.entities[name] == Internal(text)
    requires name !in open
    ensures p + |name| + 2 <= |v|
    ensures
      AppendValue(g, e, isCdata, v, p, open, acc)
      == match AppendValue(g, g.internal, isCdata, text, 0, open + {name}, acc)
         case Ok(acc') => AppendValue(g, e, isCdata, v, p + |name| + 2, open, acc')
         case Fail(error) => Fail(error)
  {
    ReferenceAt(g, e, isCdata, v, p, name, open, acc);
  }

  /** The error of a reference that is not expanded in a value, if it is one. */
  function ValueReferenceError(g: Grammar, name: bytes, open: set<bytes>): Option<XmlError> {
    if name !in g.dtd.entities then if g.dtd.complete then Some(UndefinedEntity) else None
    else if name in open then Some(RecursiveEntityRef)
    else if g.dtd.entities[name] == Unparsed then Some(BinaryEntityRef)
    else if g.dtd.entities[name] == External then Some(AttributeExternalEntityRef)
    else None
  }

  /**
    Any other reference: one of the five predefined names adds its character as it is, a
    name that is not declared adds nothing unless the DTD is complete, and the rest are errors.
   */
  lemma OtherInValue(
    g: Grammar, e: Encoding, isCdata: bool, v: bytes, p: nat, name: bytes, open: set<bytes>, acc: bytes)
    requires e.cls(P.AMP) == BT_AMP && e.cls(P.SEMI) == BT_SEMI && NameOk(e, name)
    requires P.StartsWith(v, p, Reference(name))
    requires
      Predefined(name).None? && name in g.dtd.entities && g.dtd.entities[name].Internal? ==> name in open
    ensures p + |name| + 2 <= |v|
    ensures
      var r, next := AppendValue(g, e, isCdata, v, p, open, acc), p + |name| + 2;
      match Predefined(name)
      case Some(b) => r == AppendValue(g, e, isCdata, v, next, open, acc + [b])
      case None =>
        match ValueReferenceError(g, name, open) {
          case Some(error) => r == Fail(error)
          case None => r == AppendValue(g, e, isCdata, v, next, open, acc)
        }
  {
    ReferenceAt(g, e, isCdata, v, p, name, open, acc);
  }

  /** The step with positions that are `m` greater. */
  function ShiftStep(st: ValueStep, m: nat): ValueStep {
    match st
    case Added(next, acc) => Added(m + next, acc)
    case _ => st
  }

  // ---------------------------------------------------------------- the beginning of a value

  /** From `p` on, `v` consists of whole characters, as far as their lead bytes say. */
  predicate Walks(e: Encoding, v: bytes, p: nat)
    decreases if p < |v| then |v| - p else 0
  {
    p < |v| ==> Walk(e, v, p) <= |v| && Walks(e, v, Walk(e, v, p))
  }

  /** A line feed behind `v` is one of its own. */
  predicate EndsLine(e: Encoding, v: bytes) {
    v != [] ==> e.cls(v[|v| - 1]) != BT_CR
  }

  lemma {:induction false} NameWalks(e: Encoding, v: bytes, p: nat)
    requires p <= |v| && Walks(e, v, p) && NameSpan(e, v, p).SpanEnd?
    ensures Walks(e, v, NameSpan(e, v, p).at)
    decreases |v| - p
  {
    if p < |v| && NameCheck(e, v, p).Takes? {
      NameWalks(e, v, p + NameCheck(e, v, p).n);
    }
  }

  lemma {:induction false} DigitsWalk(e: Encoding, hex: bool, v: bytes, p: nat)
    requires p <= |v| && Walks(e, v, p)
    ensures Walks(e, v, DigitSpan(e, hex, v, p))
    decreases |v| - p
  {
    if p < |v| && IsDigit(e.cls(v[p]), hex) {
      DigitsWalk(e, hex, v, p + 1);
    }
  }

  lemma RefWalks(e: Encoding, v: bytes, p: nat)
    requires LiteralBytes(e) && p <= |v| && Walks(e, v, p) && RefTok(e, v, p).Token?
    ensures Walks(e, v, RefTok(e, v, p).next)
  {
    var sp := WholeName(e, v, p);
    if sp.at > p {
      NameWalks(e, v, p + NmStrtCheck(e, v, p).n);
    } else {
      var hex := v[p + 1] == BYTE_X;
      DigitsWalk(e, hex, v, if hex then p + 2 else p + 1);
    }
  }

  /** A run of characters that reaches the end of `v` goes on in a longer value. */
  lemma {:induction false} PlainRunGoesOn(e: Encoding, v: bytes, w: bytes, p: nat)
    requires v <= w && p <= |v| && Walks(e, v, p) && PlainRun(e, v, p).Token?
    ensures
      var n := PlainRun(e, v, p).next;
      Walks(e, v, n) && PlainRun(e, w, p) == if n < |v| then Token(DataChars, n) else PlainRun(e, w, |v|)
    decreases |v| - p
  {
    if p < |v| {
      var c := e.cls(v[p]);
      assert w[p] == v[p];
      if IsLead(c) || !(c == BT_AMP || IsSpace(c) || c == BT_LT) {
        PlainRunGoesOn(e, v, w, Walk(e, v, p));
      }
    }
  }

  /** The run at `p` of `w` that goes on behind `n` may be added in two pieces. */
  lemma RunInTwo(
    g: Grammar, e: Encoding, isCdata: bool, w: bytes, p: nat, n: nat, open: set<bytes>, acc: bytes)
    requires p < n <= |w| && AttributeValueTok(e, w, p) == PlainRun(e, w, p) && PlainRun(e, w, p) == PlainRun(e, w, n)
    ensures
      AppendValue(g, e, isCdata, w, p, open, acc) == AppendValue(g, e, isCdata, w, n, open, acc + w[p..n])
  {
    var r := PlainRun(e, w, n);
    if r.Token? {
      StepIsToken(g, e, isCdata, w, p, open, acc, DataChars, r.next);
      AppendGoesOn(g, e, isCdata, w, p, open, acc, r.next, acc + w[p..r.next]);
      if r.next > n {
        assert AttributeValueTok(e, w, n) == r;
        StepIsToken(g, e, isCdata, w, n, open, acc + w[p..n], DataChars, r.next);
        AppendGoesOn(g, e, isCdata, w, n, open, acc + w[p..n], r.next, (acc + w[p..n]) + w[n..r.next]);
        assert acc + w[p..r.next] == (acc + w[p..n]) + w[n..r.next];
      }
    } else {
      assert AttributeValueTok(e, w, n) == r;
      StepIsStop(g, e, isCdata, w, p, open, acc);
      StepIsStop(g, e, isCdata, w, n, open, acc + w[p..n]);
    }
  }

  /** A token other than a run of characters is the same in a longer value. */
  lemma TokenGoesOn(e: Encoding, v: bytes, w: bytes, p: nat)
    requires LiteralBytes(e) && v <= w && p < |v| && Walks(e, v, p) && EndsLine(e, v)
    requires e.cls(v[p]) == BT_AMP || IsSpace(e.cls(v[p]))
    requires AttributeValueTok(e, v, p).Token?
    ensures AttributeValueTok(e, w, p) == AttributeValueTok(e, v, p) && Walks(e, v, AttributeValueTok(e, v, p).next)
  {
    assert w[p] == v[p];
    if e.cls(v[p]) == BT_AMP {
      RefWalks(e, v, p + 1);
      RefWindow(e, v, w, 0, p + 1, p + 1);
    } else {
      assert p + 1 < |v| ==> w[p + 1] == v[p + 1];
    }
  }

  lemma SameStep(
    g: Grammar, e: Encoding, isCdata: bool, v: bytes, w: bytes, p: nat, open: set<bytes>, acc: bytes, kind: Kind,
    next: nat)
    requires v <= w && p < |v| && AttributeValueTok(e, v, p) == Token(kind, next)
    requires AttributeValueTok(e, w, p) == Token(kind, next)
    ensures StepAt(g, e, isCdata, w, p, open, acc) == StepAt(g, e, isCdata, v, p, open, acc)
  {
    StepIsToken(g, e, isCdata, v, p, open, acc, kind, next);
    StepIsToken(g, e, isCdata, w, p, open, acc, kind, next);
    ShiftedToken(g, isCdata, v, w, 0, p, p, open, acc, kind, next);
  }

  lemma ShiftedToken(
    g: Grammar, isCdata: bool, s: bytes, w: bytes, m: nat, p: nat, q: nat, open: set<bytes>, acc: bytes, kind: Kind,
    next: nat)
    requires Window(s, w, m) && q == m + p && p < next <= |s|
    ensures
      TokenStep(g, isCdata, w, q, open, acc, kind, m + next)
      == ShiftStep(TokenStep(g, isCdata, s, p, open, acc, kind, next), m)
  {
    RefNameWindow(s, w, m, p, q, next);
    RefNumberWindow(s, w, m, p, q, next);
    SliceWindow(s, w, m, p, q, next - p);
    assert q + (next - p) == m + next;
    if kind == EntityRef {
      ShiftedEntity(g, isCdata, RefName(s, p, next), next, m, open, acc);
    }
  }

  lemma ShiftedEntity(
    g: Grammar, isCdata: bool, name: bytes, next: nat, m: nat, open: set<bytes>, acc: bytes)
    ensures
      EntityStep(g, isCdata, name, m + next, open, acc)
      == ShiftStep(EntityStep(g, isCdata, name, next, open, acc), m)
  {
  }

  /** One round in `v` is one in a longer value. */
  lemma StepGoesOn(
    g: Grammar, e: Encoding, isCdata: bool, v: bytes, w: bytes, p: nat, open: set<bytes>, acc: bytes)
    requires LiteralBytes(e) && v <= w && p < |v| && Walks(e, v, p) && EndsLine(e, v)
    requires StepAt(g, e, isCdata, v, p, open, acc).Added?
    ensures
      var st := StepAt(g, e, isCdata, v, p, open, acc);
      && Walks(e, v, st.next)
      && AppendValue(g, e, isCdata, w, p, open, acc) == AppendValue(g, e, isCdata, w, st.next, open, st.acc)
  {
    var tok, c := AttributeValueTok(e, v, p), e.cls(v[p]);
    assert w[p] == v[p];
    if c == BT_AMP || IsSpace(c) {
      TokenGoesOn(e, v, w, p);
      SameStep(g, e, isCdata, v, w, p, open, acc, tok.kind, tok.next);
      var st := StepAt(g, e, isCdata, v, p, open, acc);
      AppendGoesOn(g, e, isCdata, w, p, open, acc, st.next, st.acc);
    } else {
      PlainRunGoesOn(e, v, w, p);
      StepIsToken(g, e, isCdata, v, p, open, acc, DataChars, tok.next);
      assert v[p..tok.next] == w[p..tok.next];
      if tok.next == |v| {
        RunInTwo(g, e, isCdata, w, p, |v|, open, acc);
      } else {
        StepIsToken(g, e, isCdata, w, p, open, acc, DataChars, tok.next);
        AppendGoesOn(g, e, isCdata, w, p, open, acc, tok.next, acc + w[p..tok.next]);
      }
    }
  }

  /** The value of `v`, with more behind it. */
  lemma {:induction false} ValueGoesOn(
    g: Grammar, e: Encoding, isCdata: bool, v: bytes, w: bytes, p: nat, open: set<bytes>, acc: bytes)
    requires LiteralBytes(e) && v <= w && p <= |v| && Walks(e, v, p) && EndsLine(e, v)
    requires AppendValue(g, e, isCdata, v, p, open, acc).Ok?
    ensures
      AppendValue(g, e, isCdata, w, p, open, acc)
      == AppendValue(g, e, isCdata, w, |v|, open, AppendValue(g, e, isCdata, v, p, open, acc).value)
    decreases |v| - p
  {
    if p < |v| {
      StepGoesOn(g, e, isCdata, v, w, p, open, acc);
      var st := StepAt(g, e, isCdata, v, p, open, acc);
      ValueGoesOn(g, e, isCdata, v, w, st.next, open, st.acc);
    }
  }

  // ---------------------------------------------------------------- the rest of a value

  lemma {:induction false} PlainRunShift(e: Encoding, s: bytes, w: bytes, m: nat, p: nat, q: nat)
    requires Window(s, w, m) && m + |s| == |w| && q == m + p && p <= |s|
    ensures PlainRun(e, w, q) == Shift(PlainRun(e, s, p), m)
    decreases |s| - p
  {
    if p < |s| {
      var c := e.cls(s[p]);
      if IsLead(c) {
        if LeadLength(c) <= |s| - p {
          PlainRunShift(e, s, w, m, p + LeadLength(c), q + LeadLength(c));
        }
      } else {
        PlainRunShift(e, s, w, m, p + 1, q + 1);
      }
    }
  }

  lemma ValueTokShift(e: Encoding, s: bytes, w: bytes, m: nat, p: nat, q: nat)
    requires Window(s, w, m) && m + |s| == |w| && q == m + p && p <= |s|
    ensures AttributeValueTok(e, w, q) == Shift(AttributeValueTok(e, s, p), m)
  {
    if p < |s| {
      RefWindow(e, s, w, m, p + 1, q + 1);
      PlainRunShift(e, s, w, m, p, q);
      assert p + 1 < |s| ==> s[p + 1] == w[q + 1];
    }
  }

  /** The rest of a value means what it means on its own. */
  lemma {:induction false} ValueShift(
    g: Grammar, e: Encoding, isCdata: bool, s: bytes, w: bytes, m: nat, p: nat, q: nat, open: set<bytes>, acc: bytes)
    requires Window(s, w, m) && m + |s| == |w| && q == m + p && p <= |s|
    ensures AppendValue(g, e, isCdata, w, q, open, acc) == AppendValue(g, e, isCdata, s, p, open, acc)
    decreases |s| - p
  {
    var st := StepAt(g, e, isCdata, s, p, open, acc);
    StepShift(g, e, isCdata, s, w, m, p, q, open, acc, st);
    if st.Added? {
      ValueShift(g, e, isCdata, s, w, m, st.next, m + st.next, open, st.acc);
      AppendGoesOn(g, e, isCdata, s, p, open, acc, st.next, st.acc);
      AppendGoesOn(g, e, isCdata, w, q, open, acc, m + st.next, st.acc);
    } else {
      AppendEnds(g, e, isCdata, s, p, open, acc, st);
      AppendEnds(g, e, isCdata, w, q, open, acc, st);
    }
  }

  lemma AppendEnds(
    g: Grammar, e: Encoding, isCdata: bool, v: bytes, p: nat, open: set<bytes>, acc: bytes, st: ValueStep)
    requires p <= |v| && StepAt(g, e, isCdata, v, p, open, acc) == st && !st.Added?
    ensures AppendValue(g, e, isCdata, v, p, open, acc) == if st.Finished? then Ok(acc) else Fail(st.error)
  {
  }

  lemma StepOfToken(
    g: Grammar, e: Encoding, isCdata: bool, w: bytes, q: nat, open: set<bytes>, acc: bytes, kind: Kind, next: nat,
    st: ValueStep)
    requires q <= |w| && AttributeValueTok(e, w, q) == Token(kind, next)
    requires q < next <= |w| && TokenStep(g, isCdata, w, q, open, acc, kind, next) == st
    ensures StepAt(g, e, isCdata, w, q, open, acc) == st
  {
    StepIsToken(g, e, isCdata, w, q, open, acc, kind, next);
  }

  lemma StepShiftToken(
    g: Grammar, e: Encoding, isCdata: bool, s: bytes, w: bytes, m: nat, p: nat, q: nat, open: set<bytes>, acc: bytes,
    kind: Kind, next: nat, st: ValueStep)
    requires Window(s, w, m) && m + |s| == |w| && q == m + p && p < next <= |s|
    requires AttributeValueTok(e, s, p) == Token(kind, next) && AttributeValueTok(e, w, q) == Token(kind, m + next)
    requires TokenStep(g, isCdata, s, p, open, acc, kind, next) == st
    ensures StepAt(g, e, isCdata, s, p, open, acc) == st
    ensures StepAt(g, e, isCdata, w, q, open, acc) == ShiftStep(st, m)
  {
    ShiftedToken(g, isCdata, s, w, m, p, q, open, acc, kind, next);
    StepOfToken(g, e, isCdata, s, p, open, acc, kind, next, st);
    StepOfToken(g, e, isCdata, w, q, open, acc, kind, m + next, ShiftStep(st, m));
  }

  lemma StepShiftStop(
    g: Grammar, e: Encoding, isCdata: bool, s: bytes, w: bytes, m: nat, p: nat, q: nat, open: set<bytes>, acc: bytes)
    requires q == m + p && p <= |s| && q <= |w| && !AttributeValueTok(e, s, p).Token?
    requires AttributeValueTok(e, w, q) == Shift(AttributeValueTok(e, s, p), m)
    ensures StepAt(g, e, isCdata, w, q, open, acc) == ShiftStep(StepAt(g, e, isCdata, s, p, open, acc), m)
  {
    StepIsStop(g, e, isCdata, s, p, open, acc);
    StepIsStop(g, e, isCdata, w, q, open, acc);
  }

  lemma StepShift(
    g: Grammar, e: Encoding, isCdata: bool, s: bytes, w: bytes, m: nat, p: nat, q: nat, open: set<bytes>, acc: bytes,
    st: ValueStep)
    requires Window(s, w, m) && m + |s| == |w| && q == m + p && p <= |s|
    requires StepAt(g, e, isCdata, s, p, open, acc) == st
    ensures StepAt(g, e, isCdata, w, q, open, acc) == ShiftStep(st, m)
  {
    ValueTokShift(e, s, w, m, p, q);
    match AttributeValueTok(e, s, p)
    case Token(kind, next) =>
      StepShiftToken(
        g, e, isCdata, s, w, m, p, q, open, acc, kind, next, TokenStep(g, isCdata, s, p, open, acc, kind, next));
    case _ => StepShiftStop(g, e, isCdata, s, w, m, p, q, open, acc);
  }

  /**
    The value of two pieces is that of the second, added to that of the first: where no
    character and no line end is cut.
   */
  lemma ValueOfPieces(g: Grammar, e: Encoding, isCdata: bool, a: bytes, b: bytes, open: set<bytes>, acc: bytes)
    requires LiteralBytes(e) && Walks(e, a, 0) && EndsLine(e, a) && AppendValue(g, e, isCdata, a, 0, open, acc).Ok?
    ensures
      AppendValue(g, e, isCdata, a + b, 0, open, acc)
      == AppendValue(g, e, isCdata, b, 0, open, AppendValue(g, e, isCdata, a, 0, open, acc).value)
  {
    ValueGoesOn(g, e, isCdata, a, a + b, 0, open, acc);
    ValueShift(g, e, isCdata, b, a + b, |a|, 0, |a|, open, AppendValue(g, e, isCdata, a, 0, open, acc).value);
  }

  lemma ReferenceThenRest(
    g: Grammar, isCdata: bool, name: bytes, text: bytes, b: bytes, open: set<bytes>, acc: bytes)
    requires g.internal.cls(P.AMP) == BT_AMP && g.internal.cls(P.SEMI) == BT_SEMI && NameOk(g.internal, name)
    requires Predefined(name).None? && name in g.dtd.entities && g.dtd.entities[name] == Internal(text)
    requires name !in open && AppendValue(g, g.internal, isCdata, text, 0, open + {name}, acc).Ok?
    ensures
      AppendValue(g, g.internal, isCdata, Reference(name) + b, 0, open, acc)
      == AppendValue(g, g.internal, isCdata, b, 0, open,
                     AppendValue(g, g.internal, isCdata, text, 0, open + {name}, acc).value)
  {
    var e, w, next := g.internal, Reference(name) + b, |name| + 2;
    assert w[0..next] == Reference(name);
    InternalInValue(g, e, isCdata, w, 0, name, text, open, acc);
    var acc' := AppendValue(g, e, isCdata, text, 0, open + {name}, acc).value;
    ValueShift(g, e, isCdata, b, w, next, 0, next, open, acc');
  }

  /**
    Substitution in values. With one encoding for the document and for entities, a
    reference may be replaced by its replacement text: what storeAttributeValue makes of the
    value is the same. The beginning and the text are values of their own, made of whole
    characters, and do not end in a carriage return.
   */
  lemma SubstitutionInValue(
    g: Grammar, isCdata: bool, a: bytes, name: bytes, text: bytes, b: bytes, open: set<bytes>)
    requires LiteralBytes(g.internal) && Walks(g.internal, a, 0) && EndsLine(g.internal, a)
    requires Walks(g.internal, text, 0) && EndsLine(g.internal, text)
    requires g.internal.cls(P.AMP) == BT_AMP && g.internal.cls(P.SEMI) == BT_SEMI && NameOk(g.internal, name)
    requires Predefined(name).None? && name in g.dtd.entities && g.dtd.entities[name] == Internal(text)
    requires name !in open && AppendValue(g, g.internal, isCdata, a, 0, open, []).Ok?
    requires
      AppendValue(g, g.internal, isCdata, text, 0, open + {name},
                  AppendValue(g, g.internal, isCdata, a, 0, open, []).value).Ok?
    ensures
      StoreValue(g, g.internal, isCdata, a + (Reference(name) + b), open)
      == StoreValue(g, g.internal, isCdata, a + (text + b), open)
  {
    var e := g.internal;
    var acc := AppendValue(g, e, isCdata, a, 0, open, []).value;
    ValueOfPieces(g, e, isCdata, a, Reference(name) + b, open, []);
    ValueOfPieces(g, e, isCdata, a, text + b, open, []);
    ReferenceThenRest(g, isCdata, name, text, b, open, acc);
    AppendFewer(g, e, isCdata, text, 0, open + {name}, open, acc);
    ValueOfPieces(g, e, isCdata, text, b, open, acc);
  }

  // ---------------------------------------------------------------- a value, character by character

  /** A blank is added, unless the value is tokenized and a blank or nothing is in front of it. */
  function WithBlank(isCdata: bool, acc: bytes): bytes {
    if isCdata || (acc != [] && acc[|acc| - 1] != 0x20) then acc + [0x20] else acc
  }

  /** A character of a run is added as it is; the rest of a value that is cut off too. */
  lemma CharInValue(g: Grammar, e: Encoding, isCdata: bool, v: bytes, p: nat, open: set<bytes>, acc: bytes)
    requires p < |v| && e.cls(v[p]) !in {BT_AMP, BT_LT, BT_S, BT_CR, BT_LF}
    ensures
      var q := p + Size(e.cls(v[p]));
      AppendValue(g, e, isCdata, v, p, open, acc)
      == if q <= |v| then AppendValue(g, e, isCdata, v, q, open, acc + v[p..q]) else Ok(acc + v[p..])
  {
    var q := p + Size(e.cls(v[p]));
    if q <= |v| {
      RunInTwo(g, e, isCdata, v, p, q, open, acc);
    } else {
      StepIsToken(g, e, isCdata, v, p, open, acc, DataChars, |v|);
      AppendGoesOn(g, e, isCdata, v, p, open, acc, |v|, acc + v[p..]);
    }
  }

  /** Where a white space of a value ends: a carriage return takes a line feed with it. */
  function SpaceEnds(e: Encoding, v: bytes, p: nat): nat
    requires p < |v|
  {
    if e.cls(v[p]) == BT_CR && p + 1 < |v| && e.cls(v[p + 1]) == BT_LF then p + 2 else p + 1
  }

  /** White space is a blank, a line end being one white space. */
  lemma SpaceInValue(g: Grammar, e: Encoding, isCdata: bool, v: bytes, p: nat, open: set<bytes>, acc: bytes)
    requires p < |v| && e.cls(v[p]) in {BT_S, BT_CR, BT_LF}
    ensures
      AppendValue(g, e, isCdata, v, p, open, acc)
      == AppendValue(g, e, isCdata, v, SpaceEnds(e, v, p), open, WithBlank(isCdata, acc))
  {
    var next := SpaceEnds(e, v, p);
    var tok := AttributeValueTok(e, v, p);
    if tok.Token? {
      StepIsToken(g, e, isCdata, v, p, open, acc, tok.kind, next);
    } else {
      StepIsStop(g, e, isCdata, v, p, open, acc);
    }
    AppendGoesOn(g, e, isCdata, v, p, open, acc, next, WithBlank(isCdata, acc));
  }

  /** A "<" is an error, wherever it is in a value, and a value ends where its bytes end. */
  lemma ValueStops(g: Grammar, e: Encoding, isCdata: bool, v: bytes, p: nat, open: set<bytes>, acc: bytes)
    requires p <= |v|
    ensures p == |v| ==> AppendValue(g, e, isCdata, v, p, open, acc) == Ok(acc)
    ensures p < |v| && e.cls(v[p]) == BT_LT ==> AppendValue(g, e, isCdata, v, p, open, acc) == Fail(InvalidToken)
  {
    StepIsStopIfNone(g, e, isCdata, v, p, open, acc);
  }

  lemma StepIsStopIfNone(g: Grammar, e: Encoding, isCdata: bool, v: bytes, p: nat, open: set<bytes>, acc: bytes)
    requires p <= |v|
    ensures p == |v| ==> StepAt(g, e, isCdata, v, p, open, acc) == Finished
    ensures p < |v| && e.cls(v[p]) == BT_LT ==> StepAt(g, e, isCdata, v, p, open, acc) == Bad(InvalidToken)
  {
  }

  lemma CharRefStep(
    g: Grammar, e: Encoding, isCdata: bool, v: bytes, p: nat, open: set<bytes>, acc: bytes, next: nat, t: bytes)
    requires CharRefAt(e, v, p, next) && v[p + 2..next - 1] == t
    ensures
      StepAt(g, e, isCdata, v, p, open, acc)
      == match CharRefNumber(t)
         case None => Bad(BadCharRef)
         case Some(n) => Added(next, AddChar(isCdata, acc, n))
  {
    CharRefShape(e, v, p, next);
    assert ContentTok(e, v, p) == RefTok(e, v, p + 1);
    StepIsToken(g, e, isCdata, v, p, open, acc, CharRef, next);
  }

  /**
    A character reference adds its character, a blank like any other blank; a number that
    is no character is an error.
   */
  lemma CharRefInValue(
    g: Grammar, e: Encoding, isCdata: bool, v: bytes, p: nat, open: set<bytes>, acc: bytes, next: nat, hex: bool,
    t: bytes, ds: seq<nat>)
    requires CharRefAt(e, v, p, next) && v[p + 2..next - 1] == (if hex then [BYTE_X] + t else t)
    requires t != [] && Spells(hex, t, ds)
    ensures
      var r, n := AppendValue(g, e, isCdata, v, p, open, acc), Value(Base(hex), ds);
      if IsChar(n) then
        r == AppendValue(g, e, isCdata, v, next, open,
                         if n == 0x20 then WithBlank(isCdata, acc) else acc + Transcode.Utf8(n))
      else r == Fail(BadCharRef)
  {
    ReferenceValue(hex, t, ds);
    CharRefStep(g, e, isCdata, v, p, open, acc, next, v[p + 2..next - 1]);
    var n := Value(Base(hex), ds);
    if IsChar(n) {
      AppendGoesOn(g, e, isCdata, v, p, open, acc, next, AddChar(isCdata, acc, n));
    }
  }

  /** What is stored is the value, without a blank at its end if it is tokenized. */
  lemma StoredValue(g: Grammar, e: Encoding, isCdata: bool, v: bytes, open: set<bytes>)
    ensures
      var r := AppendValue(g, e, isCdata, v, 0, open, []);
      StoreValue(g, e, isCdata, v, open)
      == if r.Ok? && !isCdata && r.value != [] && r.value[|r.value| - 1] == 0x20 then Ok(r.value[..|r.value| - 1])
         else r
  {
  }
}
