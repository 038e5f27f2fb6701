/**
  What references mean in content: a reference to an internal entity is its replacement
  text, parsed where the reference is (section 4.4 of XML 1.0).
 */
module XmlEntities {
  import opened Bytes
  import opened Wrappers
  import opened XmlTok
  import opened XmlTokLaws
  import opened XmlDtd
  import opened XmlAtts
  import opened XmlAttValue
  import opened XmlParse
  import opened XmlTurnLaws
  import opened XmlChunks
  import opened XmlNesting
  import opened XmlPrintTok
  import P = XmlPrint

  // ---------------------------------------------------------------- the token

  /** The text of a reference to the entity `name`. */
  function Reference(name: bytes): bytes {
    [P.AMP] + name + [P.SEMI]
  }

  /** contentTok takes such a reference as a whole, wherever it is. */
  lemma ReferenceIn(e: Encoding, name: bytes, w: bytes, p: nat)
    requires e.cls(P.AMP) == BT_AMP && e.cls(P.SEMI) == BT_SEMI && NameOk(e, name)
    requires P.StartsWith(w, p, Reference(name))
    ensures RefTok(e, w, p + 1) == Token(EntityRef, p + |name| + 2)
    ensures ContentTok(e, w, p) == Token(EntityRef, p + |name| + 2)
    ensures w[p + 1..p + 1 + |name|] == name
  {
    NameInside(name, w, p, p + |name| + 2);
    NameIn(e, name, w, p + 1);
  }

  lemma NameInside(name: bytes, w: bytes, p: nat, next: nat)
    requires p <= next <= |w| && w[p..next] == Reference(name)
    ensures next == p + |name| + 2 && w[p] == P.AMP && w[next - 1] == P.SEMI && w[p + 1..next - 1] == name
  {
    var r := Reference(name);
    assert |w[p..next]| == next - p;
    assert w[p] == w[p..next][0] && w[next - 1] == w[p..next][next - 1 - p];
    forall i | 0 <= i < |name| ensures w[p + 1..next - 1][i] == name[i] {
      assert r[1 + i] == name[i] && w[p + 1 + i] == w[p..next][1 + i];
    }
  }

  // ---------------------------------------------------------------- the cases of a reference

  lemma EntityRefIsLong(e: Encoding, s: bytes, p: nat)
    requires p <= |s| && ContentTok(e, s, p).Token? && ContentTok(e, s, p).kind == EntityRef
    ensures p + 3 <= ContentTok(e, s, p).next <= |s|
  {
  }

  lemma ReferenceTurn(
    g: Grammar, e: Encoding, start: nat, st: State, s: bytes, p: nat, next: nat, open: set<bytes>, final: bool)
    requires p <= |s| && st.mode == InContent && start <= |st.tags| && ContentTok(e, s, p) == Token(EntityRef, next)
    ensures p + 3 <= next <= |s|
    ensures TurnAt(g, e, start, st, s, p, open, final) == EntityTurn(g, st, s[p + 1..next - 1], next, open)
  {
    EntityRefIsLong(e, s, p);
    ContentTokenTurn(g, e, start, st, s, p, open, final, EntityRef, next);
  }

  /**
    A reference to an internal entity that is not being expanded: the replacement text
    is parsed as a whole, in the encoding of entities, with the elements around the
    reference kept open, and its events are reported in place of the reference; its
    error, if it has one, is that of the document.
   */
  lemma InternalReference(
    g: Grammar, e: Encoding, start: nat, st: State, s: bytes, p: nat, next: nat, open: set<bytes>, final: bool,
    name: bytes, text: bytes)
    requires p <= |s| && st.mode == InContent && st.tags != [] && start <= |st.tags|
    requires ContentTok(e, s, p) == Token(EntityRef, next) && s[p..next] == Reference(name)
    requires Predefined(name).None? && name in g.dtd.entities && g.dtd.entities[name] == Internal(text)
    requires name !in open
    ensures next <= |s|
    ensures
      match Run(g, g.internal, |st.tags|, st, text, 0, open + {name}, true)
      case Done(st', evs) =>
        && st' == st
        && Run(g, e, start, st, s, p, open, final) == After(evs, Run(g, e, start, st, s, next, open, final))
      case Failed(error) => Run(g, e, start, st, s, p, open, final) == Failed(error)
      case Paused(_, _, _) => false
  {
    ReferenceTurn(g, e, start, st, s, p, next, open, final);
    NameInside(name, s, p, next);
    EntityIsBalanced(g, st.tags, name, text, open);
    assert st == State(InContent, st.tags);
    var r := Run(g, g.internal, |st.tags|, st, text, 0, open + {name}, true);
    assert r == Expansion(g, st.tags, name, text, open);
    if r.Done? {
      RunAdvances(g, e, start, st, s, p, open, final, next, st, r.evs);
    }
  }

  /** The error of a reference that is not expanded, if it is one. */
  function ReferenceError(g: Grammar, name: bytes, open: set<bytes>): Option<XmlError> {
    if name !in g.dtd.entities then
      if g.dtd.complete || g.dtd.standalone then Some(UndefinedEntity) else None
    else if name in open then Some(RecursiveEntityRef)
    else if g.dtd.entities[name] == Unparsed then Some(BinaryEntityRef)
    else None
  }

  /**
    Any other reference: one of the five predefined names stands for its character,
    whatever is declared; a name that is not declared is passed over unless the DTD is
    complete; an external entity is passed over; an open or unparsed one is an error.
   */
  lemma OtherReference(
    g: Grammar, e: Encoding, start: nat, st: State, s: bytes, p: nat, next: nat, open: set<bytes>, final: bool,
    name: bytes)
    requires p <= |s| && st.mode == InContent && start <= |st.tags|
    requires ContentTok(e, s, p) == Token(EntityRef, next) && s[p..next] == Reference(name)
    requires
      Predefined(name).None? && name in g.dtd.entities && g.dtd.entities[name].Internal? ==> name in open
    ensures next <= |s|
    ensures
      var r, rest := Run(g, e, start, st, s, p, open, final), Run(g, e, start, st, s, next, open, final);
      match Predefined(name)
      case Some(b) => r == After([Characters([b])], rest)
      case None =>
        r == if ReferenceError(g, name, open).Some? then Failed(ReferenceError(g, name, open).value) else rest
  {
    ReferenceTurn(g, e, start, st, s, p, next, open, final);
    NameInside(name, s, p, next);
    var t := EntityTurn(g, st, name, next, open);
    if t.Advance? {
      RunAdvances(g, e, start, st, s, p, open, final, next, st, t.evs);
      AfterNothing(Run(g, e, start, st, s, next, open, final));
    }
  }

  // ---------------------------------------------------------------- fewer open entities

  lemma {:induction false} AppendFewer(
    g: Grammar, e: Encoding, isCdata: bool, v: bytes, p: nat, open: set<bytes>, open': set<bytes>, acc: bytes)
    requires open' <= open && p <= |v| && AppendValue(g, e, isCdata, v, p, open, acc).Ok?
    ensures AppendValue(g, e, isCdata, v, p, open', acc) == AppendValue(g, e, isCdata, v, p, open, acc)
    decreases g.dtd.entities.Keys - open, |v| - p, 2
  {
    StepFewer(g, e, isCdata, v, p, open, open', acc);
    match StepAt(g, e, isCdata, v, p, open, acc)
    case Added(next, acc') => AppendFewer(g, e, isCdata, v, next, open, open', acc');
    case _ =>
  }

  lemma {:induction false} StepFewer(
    g: Grammar, e: Encoding, isCdata: bool, v: bytes, p: nat, open: set<bytes>, open': set<bytes>, acc: bytes)
    requires open' <= open && p <= |v| && !StepAt(g, e, isCdata, v, p, open, acc).Bad?
    ensures StepAt(g, e, isCdata, v, p, open', acc) == StepAt(g, e, isCdata, v, p, open, acc)
    decreases g.dtd.entities.Keys - open, |v| - p, 1
  {
    var tok := AttributeValueTok(e, v, p);
    if tok.Token? && tok.kind == EntityRef {
      EntityStepFewer(g, isCdata, RefName(v, p, tok.next), tok.next, open, open', acc);
    }
  }

  lemma {:induction false} EntityStepFewer(
    g: Grammar, isCdata: bool, name: bytes, next: nat, open: set<bytes>, open': set<bytes>, acc: bytes)
    requires open' <= open && !EntityStep(g, isCdata, name, next, open, acc).Bad?
    ensures EntityStep(g, isCdata, name, next, open', acc) == EntityStep(g, isCdata, name, next, open, acc)
    decreases g.dtd.entities.Keys - open, 0, 0
  {
    if Predefined(name).None? && name in g.dtd.entities && name !in open && g.dtd.entities[name].Internal? {
      AppendFewer(g, g.internal, isCdata, g.dtd.entities[name].text, 0, open + {name}, open' + {name}, acc);
    }
  }

  lemma {:induction false} SpecifiedFewer(
    g: Grammar, e: Encoding, elem: bytes, s: bytes, l: seq<Attribute>, i: nat, open: set<bytes>, open': set<bytes>,
    seen: seq<(bytes, bytes)>)
    requires open' <= open && i <= |l| && StoreSpecified(g, e, elem, s, l, i, open, seen).Ok?
    ensures StoreSpecified(g, e, elem, s, l, i, open', seen) == StoreSpecified(g, e, elem, s, l, i, open, seen)
    decreases |l| - i
  {
    if i < |l| {
      var a := RawOf(e, s, l[i]);
      if !a.normalized {
        AppendFewer(g, e, IsCdata(Defaults(g, elem), a.name), a.raw, 0, open, open', []);
      }
      match ValueOf(g, e, elem, a, open)
      case Ok(value) => SpecifiedFewer(g, e, elem, s, l, i + 1, open, open', seen + [(a.name, value)]);
      case _ =>
    }
  }

  lemma StoreFewer(
    g: Grammar, e: Encoding, elem: bytes, s: bytes, l: seq<Attribute>, open: set<bytes>, open': set<bytes>)
    requires open' <= open && StoreAtts(g, e, elem, s, l, open).Ok?
    ensures StoreAtts(g, e, elem, s, l, open') == StoreAtts(g, e, elem, s, l, open)
  {
    SpecifiedFewer(g, e, elem, s, l, 0, open, open', []);
  }

  lemma TagTurnFewer(
    g: Grammar, e: Encoding, st: State, s: bytes, p: nat, open: set<bytes>, open': set<bytes>, kind: Kind, next: nat)
    requires IsTagAt(e, s, p) && open' <= open && !TagTurn(g, e, st, s, p, open, kind, next).Break?
    ensures TagTurn(g, e, st, s, p, open', kind, next) == TagTurn(g, e, st, s, p, open, kind, next)
  {
    StoreFewer(g, e, s[p + 1..NameEnd(e, s, p)], s, TagAtts(e, s, p), open, open');
  }

  lemma {:induction false} EntityTurnFewer(
    g: Grammar, st: State, name: bytes, next: nat, open: set<bytes>, open': set<bytes>)
    requires open' <= open && !EntityTurn(g, st, name, next, open).Break?
    ensures EntityTurn(g, st, name, next, open') == EntityTurn(g, st, name, next, open)
    decreases g.dtd.entities.Keys - open, 0, 0
  {
    if Predefined(name).None? && name in g.dtd.entities && name !in open && g.dtd.entities[name].Internal? {
      var text, n := g.dtd.entities[name].text, |st.tags|;
      RunFewer(g, g.internal, n, n, State(InContent, st.tags), text, 0, open + {name}, open' + {name}, true);
    }
  }

  lemma {:induction false} TokenTurnFewer(
    g: Grammar, e: Encoding, start: nat, start': nat, st: State, s: bytes, p: nat, open: set<bytes>,
    open': set<bytes>, kind: Kind, next: nat)
    requires open' <= open && p < next <= |s| && start' <= start <= |st.tags| && (IsStartTag(kind) ==> IsTagAt(e, s, p))
    requires !TokenTurn(g, e, start, st, s, p, open, kind, next).Break?
    ensures
      TokenTurn(g, e, start', st, s, p, open', kind, next) == TokenTurn(g, e, start, st, s, p, open, kind, next)
    decreases g.dtd.entities.Keys - open, |s| - p, 0
  {
    if IsStartTag(kind) {
      TagTurnFewer(g, e, st, s, p, open, open', kind, next);
    } else if kind == EntityRef {
      EntityTurnFewer(g, st, RefName(s, p, next), next, open, open');
    }
  }

  lemma {:induction false} TurnFewer(
    g: Grammar, e: Encoding, start: nat, start': nat, st: State, s: bytes, p: nat, open: set<bytes>,
    open': set<bytes>, final: bool)
    requires open' <= open && p <= |s| && start' <= start <= |st.tags| && (final ==> start' == start)
    requires !TurnAt(g, e, start, st, s, p, open, final).Break?
    ensures TurnAt(g, e, start', st, s, p, open', final) == TurnAt(g, e, start, st, s, p, open, final)
    decreases g.dtd.entities.Keys - open, |s| - p, 1
  {
    if st.mode == InContent {
      var tok := ContentTok(e, s, p);
      if tok.Token? {
        ContentTokenTurn(g, e, start, st, s, p, open, final, tok.kind, tok.next);
        ContentTokenTurn(g, e, start', st, s, p, open', final, tok.kind, tok.next);
        TokenTurnFewer(g, e, start, start', st, s, p, open, open', tok.kind, tok.next);
      } else {
        ContentStopTurn(g, e, start, st, s, p, open, final);
        ContentStopTurn(g, e, start', st, s, p, open', final);
      }
    }
  }

  /**
    What is parsed without an error while some entities are open is parsed the same
    while fewer are, and, if more bytes are to come, with fewer elements to be kept open.
   */
  lemma {:induction false} RunFewer(
    g: Grammar, e: Encoding, start: nat, start': nat, st: State, s: bytes, p: nat, open: set<bytes>,
    open': set<bytes>, final: bool)
    requires open' <= open && p <= |s| && start' <= start <= |st.tags| && (final ==> start' == start)
    requires !Run(g, e, start, st, s, p, open, final).Failed?
    ensures Run(g, e, start', st, s, p, open', final) == Run(g, e, start, st, s, p, open, final)
    decreases g.dtd.entities.Keys - open, |s| - p, 2
  {
    TurnFewer(g, e, start, start', st, s, p, open, open', final);
    match TurnAt(g, e, start, st, s, p, open, final)
    case Advance(to, st', evs) =>
      RunAdvances(g, e, start, st, s, p, open, final, to, st', evs);
      RunAdvances(g, e, start', st, s, p, open', final, to, st', evs);
      RunFewer(g, e, start, start', st', s, to, open, open', final);
    case _ =>
  }

  // ---------------------------------------------------------------- the text in place of the reference

  /** More bytes behind `s` do not change its last token, except for character data. */
  predicate EndsWhole(e: Encoding, s: bytes) {
    s != [] ==>
      var b := s[|s| - 1];
      b != BYTE_RSQB && e.cls(b) != BT_RSQB && e.cls(b) != BT_CR
  }

  /** Markup and references never end a text. */
  predicate IsMarkup(r: Lexeme) {
    !r.NoToken? && !r.TrailingCr? && !r.TrailingRsqb?
  }

  lemma {:induction false} ValueIsMarkup(e: Encoding, open: Class, s: bytes, p: nat)
    requires p <= |s|
    ensures ValueTok(e, open, s, p).Unclosed? ==> IsMarkup(ValueTok(e, open, s, p).lex)
    decreases |s| - p
  {
    if p < |s| && e.cls(s[p]) != open {
      match ValueUnit(e, s, p)
      case Next(to) => ValueIsMarkup(e, open, s, to);
      case Stop(_) =>
    }
  }

  lemma {:induction false} AttsIsMarkup(e: Encoding, s: bytes, p: nat)
    requires p <= |s|
    ensures IsMarkup(AttsTok(e, s, p))
    decreases |s| - p
  {
    var quote := ValueStart(e, s, p);
    if quote.Closed? {
      ValueIsMarkup(e, e.cls(s[quote.at]), s, quote.at + 1);
      var v := AttributeTok(e, s, p);
      if v.Closed? && v.at + 1 < |s| && IsSpace(e.cls(s[v.at + 1])) {
        GapIsMarkup(e, true, s, SpaceSpan(e, s, v.at + 2));
      }
    }
  }

  lemma {:induction false} GapIsMarkup(e: Encoding, atts: bool, s: bytes, p: nat)
    requires p <= |s|
    ensures IsMarkup(GapTok(e, atts, s, p))
    decreases |s| - p
  {
    if p < |s| {
      match NmStrtCheck(e, s, p)
      case Takes(n) => AttsIsMarkup(e, s, p + n);
      case _ =>
    }
  }

  lemma LtIsMarkup(e: Encoding, s: bytes, p: nat)
    requires p <= |s|
    ensures IsMarkup(LtTok(e, s, p))
  {
    if p < |s| {
      match NmStrtCheck(e, s, p)
      case Takes(n) =>
        var sp := NameSpan(e, s, p + n);
        if sp.SpanEnd? && sp.at < |s| && IsSpace(e.cls(s[sp.at])) {
          GapIsMarkup(e, false, s, SpaceSpan(e, s, sp.at + 1));
        }
      case _ =>
        PiTokIsMark(e, s, p + 1);
        if p + 2 < |s| {
          CommentIsMark(e, s, p + 3);
        }
    }
  }

  /** Where a text may end without an error, and is not at its end yet. */
  lemma LastByte(e: Encoding, s: bytes, p: nat)
    requires p <= |s| && EndsWhole(e, s) && !IsMarkup(ContentTok(e, s, p))
    ensures ContentTok(e, s, p).NoToken? && p == |s|
  {
    if p < |s| {
      LtIsMarkup(e, s, p + 1);
      DataIsMarkup(e, s, p + 1);
      match CharCheck(e, s, p)
      case Takes(n) => DataIsMarkup(e, s, p + n);
      case _ =>
    }
  }

  lemma DataIsMarkup(e: Encoding, s: bytes, p: nat)
    requires p <= |s|
    ensures IsMarkup(DataTok(e, s, p))
  {
    if !DataTok(e, s, p).Token? {
      DataStops(e, s, p);
    }
  }

  lemma FinalTurn(
    g: Grammar, e: Encoding, start: nat, st: State, s: bytes, p: nat, open: set<bytes>)
    requires p <= |s| && 0 < start && Ready(e, start, st, s, p) && EndsWhole(e, s)
    ensures
      var t := TurnAt(g, e, start, st, s, p, open, true);
      && (t.Advance? ==> TurnAt(g, e, start, st, s, p, open, false) == t)
      && (t.Finish? ==> t.evs == [] && TurnAt(g, e, start, st, s, p, open, false) == Suspend(|s|))
  {
    if st.mode == InContent {
      var tok := ContentTok(e, s, p);
      if tok.Token? {
        ContentTokenTurn(g, e, start, st, s, p, open, true, tok.kind, tok.next);
        ContentTokenTurn(g, e, start, st, s, p, open, false, tok.kind, tok.next);
      } else {
        ContentStopTurn(g, e, start, st, s, p, open, true);
        ContentStopTurn(g, e, start, st, s, p, open, false);
        if !IsMarkup(tok) {
          LastByte(e, s, p);
        }
      }
    }
  }

  /** A text that is complete is used up when more bytes are to come. */
  lemma {:induction false} TextPauses(
    g: Grammar, e: Encoding, start: nat, st: State, s: bytes, p: nat, open: set<bytes>)
    requires p <= |s| && 0 < start && Ready(e, start, st, s, p) && EndsWhole(e, s)
    requires Run(g, e, start, st, s, p, open, true).Done?
    ensures
      var r := Run(g, e, start, st, s, p, open, true);
      Run(g, e, start, st, s, p, open, false) == Paused(r.st, |s|, r.evs)
    decreases |s| - p
  {
    FinalTurn(g, e, start, st, s, p, open);
    TurnAtNests(g, e, start, st, s, p, open, true);
    match TurnAt(g, e, start, st, s, p, open, true)
    case Advance(to, st', evs) =>
      RunAdvances(g, e, start, st, s, p, open, true, to, st', evs);
      RunAdvances(g, e, start, st, s, p, open, false, to, st', evs);
      TextPauses(g, e, start, st', s, to, open);
    case _ =>
  }

  /** The replacement text of `name` is well-formed content inside the elements `tags`. */
  ghost predicate Expands(g: Grammar, tags: seq<bytes>, name: bytes, text: bytes, open: set<bytes>) {
    && Predefined(name).None? && name in g.dtd.entities && g.dtd.entities[name] == Internal(text)
    && name !in open && tags != []
    && Run(g, g.internal, |tags|, State(InContent, tags), text, 0, open + {name}, true).Done?
  }

  /**
    The replacement text is parsed as if it were there, in the encoding of the document, and
    followed by what is behind the reference.
   */
  lemma TextRuns(
    g: Grammar, start: nat, tags: seq<bytes>, name: bytes, text: bytes, k: bytes, open: set<bytes>)
    requires Expands(g, tags, name, text, open) && EndsWhole(g.internal, text) && start <= |tags|
    ensures
      var st := State(InContent, tags);
      var r := Run(g, g.internal, |tags|, st, text, 0, open + {name}, true);
      Alike(After(r.evs, Run(g, g.internal, start, st, k, 0, open, true)),
            Run(g, g.internal, start, st, text + k, 0, open, true))
  {
    var e, st, u, more := g.internal, State(InContent, tags), text + k, open + {name};
    var r := Run(g, e, |tags|, st, text, 0, more, true);
    EntityIsBalanced(g, tags, name, text, open);
    assert r == Expansion(g, tags, name, text, open);
    TextPauses(g, e, |tags|, st, text, 0, more);
    RunFewer(g, e, |tags|, start, st, text, 0, more, open, false);
    RunSplits(g, e, start, st, text, u, 0, open, true);
    assert u[|text|..] == k;
    RunShift(g, e, start, st, k, u, |text|, 0, |text|, open, true);
  }

  lemma ReferenceRuns(
    g: Grammar, start: nat, tags: seq<bytes>, name: bytes, text: bytes, k: bytes, open: set<bytes>)
    requires Expands(g, tags, name, text, open) && start <= |tags|
    requires g.internal.cls(P.AMP) == BT_AMP && g.internal.cls(P.SEMI) == BT_SEMI && NameOk(g.internal, name)
    ensures
      var st := State(InContent, tags);
      var r := Run(g, g.internal, |tags|, st, text, 0, open + {name}, true);
      After(r.evs, Run(g, g.internal, start, st, k, 0, open, true))
      == Run(g, g.internal, start, st, Reference(name) + k, 0, open, true)
  {
    var e, st, w, next := g.internal, State(InContent, tags), Reference(name) + k, |name| + 2;
    assert w[0..next] == Reference(name) && w[next..] == k;
    ReferenceIn(e, name, w, 0);
    InternalReference(g, e, start, st, w, 0, next, open, true, name, text);
    RunShift(g, e, start, st, k, w, next, 0, next, open, true);
  }

  /**
    Substitution. In a document in the encoding of entities, behind any beginning `a` that
    is used up in content, a reference may be replaced by its replacement text: the outcome
    is the same, up to how character data was cut. The replacement text has to be
    well-formed content, and must not end in a carriage return or "]", which the tokenizer
    could join with what is behind.
   */
  lemma Substitution(
    g: Grammar, st: State, a: bytes, evs: seq<Event>, tags: seq<bytes>, name: bytes, text: bytes, b: bytes)
    requires g.doc == g.internal && Feed(g, st, [], a, false) == Paused(State(InContent, tags), |a|, evs)
    requires Expands(g, tags, name, text, {}) && EndsWhole(g.doc, text)
    requires g.doc.cls(P.AMP) == BT_AMP && g.doc.cls(P.SEMI) == BT_SEMI && NameOk(g.doc, name)
    ensures Alike(Feed(g, st, [], a + (Reference(name) + b), true), Feed(g, st, [], a + (text + b), true))
  {
    var inner, ref, sub := State(InContent, tags), Reference(name) + b, text + b;
    FeedSplits(g, st, [], a, ref);
    FeedSplits(g, st, [], a, sub);
    assert [] + a == a && a[|a|..] == [] && [] + ref == ref && [] + sub == sub;
    var x, y := Feed(g, inner, [], ref, true), Feed(g, inner, [], sub, true);
    ReferenceRuns(g, 0, tags, name, text, b, {});
    TextRuns(g, 0, tags, name, text, b, {});
    AfterAlike(evs, x, y);
    var whole := Feed(g, st, [], a + ref, true);
    AlikeTrans(After(evs, x), After(evs, y), Feed(g, st, [], a + sub, true));
    AlikeTrans(whole, After(evs, x), Feed(g, st, [], a + sub, true));
  }
}
