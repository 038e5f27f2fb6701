/**
  What every token means for a run of the parser: the events that are reported for it, the
  state behind it, and the error if it is one.
 */
module XmlRounds {
  import opened Bytes
  import opened Wrappers
  import opened XmlTok
  import opened XmlTokLaws
  import opened XmlDtd
  import Transcode
  import opened XmlAtts
  import opened XmlAttValue
  import opened XmlParse
  import opened XmlTurnLaws
  import opened XmlChunks
  import opened XmlCharRefs
  import opened XmlShapes
  import opened XmlStored

  // ---------------------------------------------------------------- content

  /** The run at `p` reports `evs` and goes on in state `st'` at `next`. */
  ghost predicate Continues(
    g: Grammar, e: Encoding, start: nat, st: State, s: bytes, p: nat, open: set<bytes>, final: bool,
    evs: seq<Event>, st': State, next: nat)
    requires p <= |s| && start <= |st.tags|
  {
    && next <= |s| && start <= |st'.tags|
    && Run(g, e, start, st, s, p, open, final) == After(evs, Run(g, e, start, st', s, next, open, final))
  }

  /** The state behind an element that has ended, with `tags` still open. */
  function Outside(tags: seq<bytes>): State {
    if |tags| == 0 then State(InEpilog, []) else State(InContent, tags)
  }

  lemma TokenRound(
    g: Grammar, e: Encoding, start: nat, st: State, s: bytes, p: nat, open: set<bytes>, final: bool, kind: Kind,
    next: nat)
    requires p <= |s| && start <= |st.tags| && st.mode == InContent && ContentTok(e, s, p) == Token(kind, next)
    requires kind != EntityRef
    ensures p < next <= |s|
    ensures IsStartTag(kind) ==> IsTagAt(e, s, p)
    ensures
      TurnAt(g, e, start, st, s, p, open, final)
      == if IsStartTag(kind) then TagTurn(g, e, st, s, p, open, kind, next)
         else if kind == EndTag then EndTagTurn(e, start, st, s, p, next)
         else PlainTurn(st, s, p, kind, next)
  {
    ContentTokenTurn(g, e, start, st, s, p, open, final, kind, next);
  }

  lemma Broken(
    g: Grammar, e: Encoding, start: nat, st: State, s: bytes, p: nat, open: set<bytes>, final: bool, error: XmlError)
    requires p <= |s| && start <= |st.tags| && TurnAt(g, e, start, st, s, p, open, final) == Break(error)
    ensures Run(g, e, start, st, s, p, open, final) == Failed(error)
  {
  }

  /**
    Character data, line ends, comments and processing instructions are reported where
    they are, a line end as one line feed; the start of a CDATA section is reported and
    enters it; a declaration of XML is an error anywhere in content.
   */
  lemma MarkupRuns(
    g: Grammar, e: Encoding, start: nat, st: State, s: bytes, p: nat, open: set<bytes>, final: bool)
    requires p <= |s| && start <= |st.tags| && st.mode == InContent && ContentTok(e, s, p).Token?
    ensures p < ContentTok(e, s, p).next <= |s|
    ensures
      var kind, next := ContentTok(e, s, p).kind, ContentTok(e, s, p).next;
      && (kind == DataChars ==>
            Continues(g, e, start, st, s, p, open, final, [Characters(s[p..next])], st, next))
      && (kind == DataNewline ==> Continues(g, e, start, st, s, p, open, final, [Characters([0x0A])], st, next))
      && (kind == Comment ==> Continues(g, e, start, st, s, p, open, final, [CommentText(s[p..next])], st, next))
      && (kind == PI ==> Continues(g, e, start, st, s, p, open, final, [ProcessingInstruction(s[p..next])], st, next))
      && (kind == CdataSectOpen ==>
            Continues(g, e, start, st, s, p, open, final, [StartCdata], State(InCdata, st.tags), next))
      && (kind == XmlDecl ==> Run(g, e, start, st, s, p, open, final) == Failed(MisplacedXmlPi))
  {
    var kind, next := ContentTok(e, s, p).kind, ContentTok(e, s, p).next;
    if kind != EntityRef {
      TokenRound(g, e, start, st, s, p, open, final, kind, next);
      if kind == XmlDecl {
        Broken(g, e, start, st, s, p, open, final, MisplacedXmlPi);
      } else if !IsStartTag(kind) && kind != EndTag && kind != CharRef {
        var t := PlainTurn(st, s, p, kind, next);
        RunAdvances(g, e, start, st, s, p, open, final, next, t.st, t.evs);
      }
    }
  }

  lemma CharRefText(e: Encoding, s: bytes, p: nat, next: nat, hex: bool, t: bytes)
    requires p <= |s| && ContentTok(e, s, p) == Token(CharRef, next) && p + 3 + |t| == (if hex then next - 1 else next)
    requires hex ==> s[p + 2] == 0x78
    requires s[if hex then p + 3 else p + 2..next - 1] == t
    ensures s[p + 2..next - 1] == (if hex then [BYTE_X] + t else t)
  {
    if hex {
      assert s[p + 2..next - 1] == [s[p + 2]] + s[p + 3..next - 1];
    }
  }

  /**
    A character reference, in decimal or hexadecimal notation: the UTF-8 form of its
    character is reported, and a number that is no character is an error.
   */
  lemma CharRefRuns(
    g: Grammar, e: Encoding, start: nat, st: State, s: bytes, p: nat, open: set<bytes>, final: bool, next: nat,
    hex: bool, ds: seq<nat>)
    requires p <= |s| && start <= |st.tags| && st.mode == InContent && ContentTok(e, s, p) == Token(CharRef, next)
    requires ds != [] && p + 3 + |ds| == (if hex then next - 1 else next) && (hex ==> s[p + 2] == 0x78)
    requires Spells(hex, s[if hex then p + 3 else p + 2..next - 1], ds)
    ensures
      var n := Value(Base(hex), ds);
      if IsChar(n) then Continues(g, e, start, st, s, p, open, final, [Characters(Transcode.Utf8(n))], st, next)
      else Run(g, e, start, st, s, p, open, final) == Failed(BadCharRef)
  {
    var t := s[if hex then p + 3 else p + 2..next - 1];
    CharRefText(e, s, p, next, hex, t);
    ReferenceValue(hex, t, ds);
    TokenRound(g, e, start, st, s, p, open, final, CharRef, next);
    var n := Value(Base(hex), ds);
    if IsChar(n) {
      RunAdvances(g, e, start, st, s, p, open, final, next, st, [Characters(Transcode.Utf8(n))]);
    } else {
      Broken(g, e, start, st, s, p, open, final, BadCharRef);
    }
  }

  // ---------------------------------------------------------------- elements

  /** The run for a start tag whose attributes are stored as `stored`. */
  ghost predicate Opens(
    g: Grammar, e: Encoding, start: nat, st: State, s: bytes, p: nat, open: set<bytes>, final: bool, kind: Kind,
    next: nat, name: bytes, stored: Outcome<seq<(bytes, bytes)>>)
    requires p <= |s| && start <= |st.tags|
  {
    if stored.Fail? then Run(g, e, start, st, s, p, open, final) == Failed(stored.error)
    else if kind == StartTagNoAtts || kind == StartTagWithAtts then
      Continues(g, e, start, st, s, p, open, final, [StartElement(name, stored.value)],
                State(InContent, [name] + st.tags), next)
    else
      Continues(g, e, start, st, s, p, open, final, [StartElement(name, stored.value), EndElement(name)],
                Outside(st.tags), next)
  }

  lemma ElementRuns(
    g: Grammar, e: Encoding, start: nat, st: State, s: bytes, p: nat, open: set<bytes>, final: bool, kind: Kind,
    next: nat, name: bytes, stored: Outcome<seq<(bytes, bytes)>>)
    requires p <= |s| && start <= |st.tags|
    requires TurnAt(g, e, start, st, s, p, open, final) == ElementTurn(st, name, stored, kind, next)
    ensures Opens(g, e, start, st, s, p, open, final, kind, next, name, stored)
  {
    var t := ElementTurn(st, name, stored, kind, next);
    match stored
    case Fail(error) => Broken(g, e, start, st, s, p, open, final, error);
    case Ok(_) => RunAdvances(g, e, start, st, s, p, open, final, next, t.st, t.evs);
  }

  lemma TagIsElement(
    g: Grammar, e: Encoding, st: State, s: bytes, p: nat, open: set<bytes>, kind: Kind, next: nat, name: bytes)
    requires IsTagAt(e, s, p) && s[p + 1..NameEnd(e, s, p)] == name
    ensures
      TagTurn(g, e, st, s, p, open, kind, next)
      == ElementTurn(st, name, StoreAtts(g, e, name, s, TagAtts(e, s, p), open), kind, next)
  {
  }

  /**
    A start tag: the element is opened with the specified attributes and the declared
    defaults; an empty-element tag closes it again. The first error of an attribute is
    that of the document.
   */
  lemma StartTagRuns(
    g: Grammar, e: Encoding, start: nat, st: State, s: bytes, p: nat, open: set<bytes>, final: bool, kind: Kind,
    next: nat, nameEnd: nat)
    requires p <= |s| && start <= |st.tags| && st.mode == InContent && ContentTok(e, s, p) == Token(kind, next)
    requires IsStartTag(kind) && NameTo(e, s, p + 1, nameEnd)
    ensures IsTagAt(e, s, p)
    ensures
      var name, l := s[p + 1..nameEnd], TagAtts(e, s, p);
      var stored := StoreAtts(g, e, name, s, l, open);
      && Opens(g, e, start, st, s, p, open, final, kind, next, name, stored)
      && if stored.Ok? then Complete(g, e, name, s, l, open, stored.value)
         else StoresAll(g, e, name, s, l, open, stored)
  {
    var name, l := s[p + 1..nameEnd], TagAtts(e, s, p);
    var stored := StoreAtts(g, e, name, s, l, open);
    TokenRound(g, e, start, st, s, p, open, final, kind, next);
    WholeNameShape(e, s, p + 1, nameEnd);
    TagIsElement(g, e, st, s, p, open, kind, next, name);
    ElementRuns(g, e, start, st, s, p, open, final, kind, next, name, stored);
    StoredExactly(g, e, name, s, l, open);
  }

  /**
    An end tag ends the innermost element, which has to be one that was started in the same
    text, and have the same name, byte by byte.
   */
  lemma EndTagRuns(
    g: Grammar, e: Encoding, start: nat, st: State, s: bytes, p: nat, open: set<bytes>, final: bool, next: nat,
    nameEnd: nat)
    requires p <= |s| && start <= |st.tags| && st.mode == InContent && EndTagAt(e, s, p, nameEnd, next)
    ensures
      if |st.tags| == start then Run(g, e, start, st, s, p, open, final) == Failed(AsyncEntity)
      else if s[p + 2..nameEnd] != st.tags[0] then Run(g, e, start, st, s, p, open, final) == Failed(TagMismatch)
      else
        Continues(g, e, start, st, s, p, open, final, [EndElement(st.tags[0])], Outside(st.tags[1..]), next)
  {
    EndTagShape(e, s, p, next);
    TokenRound(g, e, start, st, s, p, open, final, EndTag, next);
    WholeNameShape(e, s, p + 2, nameEnd);
    var t := EndTagTurn(e, start, st, s, p, next);
    match t
    case Break(error) => Broken(g, e, start, st, s, p, open, final, error);
    case Advance(_, _, _) => RunAdvances(g, e, start, st, s, p, open, final, next, t.st, t.evs);
    case _ =>
  }

  // ---------------------------------------------------------------- where content stops

  /** The result at the end of a text in which `start` elements were open at first. */
  function AtEnd(start: nat, st: State, evs: seq<Event>): Result {
    if start == 0 then Failed(NoElements) else if |st.tags| != start then Failed(AsyncEntity) else Done(st, evs)
  }

  /**
    Without a token, a call that is not the last one leaves the rest for the next. At the end
    of a text, a carriage return is a line end and brackets are data; anything else that is
    cut off is an error, and so are elements that are still open.
   */
  lemma ContentStops(
    g: Grammar, e: Encoding, start: nat, st: State, s: bytes, p: nat, open: set<bytes>, final: bool)
    requires p <= |s| && start <= |st.tags| && st.mode == InContent && !ContentTok(e, s, p).Token?
    ensures
      var r := Run(g, e, start, st, s, p, open, final);
      match ContentTok(e, s, p)
      case Invalid(_) => r == Failed(InvalidToken)
      case NoToken => r == if final then AtEnd(start, st, []) else Paused(st, p, [])
      case TrailingCr => r == if final then AtEnd(start, st, [Characters([0x0A])]) else Paused(st, p, [])
      case TrailingRsqb => r == if final then AtEnd(start, st, [Characters(s[p..])]) else Paused(st, p, [])
      case Partial => r == if final then Failed(UnclosedToken) else Paused(st, p, [])
      case PartialChar => r == if final then Failed(CutOffChar) else Paused(st, p, [])
      case _ => true
  {
    ContentStopTurn(g, e, start, st, s, p, open, final);
  }

  // ---------------------------------------------------------------- CDATA sections

  lemma SectionRuns(
    g: Grammar, e: Encoding, start: nat, st: State, s: bytes, p: nat, open: set<bytes>, final: bool)
    requires p <= |s| && start <= |st.tags| && st.mode == InCdata
    ensures
      var r, tok := Run(g, e, start, st, s, p, open, final), CdataSectionTok(e, s, p);
      if tok.Token? then
        if tok.kind == CdataSectClose then
          Continues(g, e, start, st, s, p, open, final, [EndCdata], State(InContent, st.tags), tok.next)
        else if tok.kind == DataNewline then
          Continues(g, e, start, st, s, p, open, final, [Characters([0x0A])], st, tok.next)
        else
          && p < tok.next <= |s|
          && Continues(g, e, start, st, s, p, open, final, [Characters(s[p..tok.next])], st, tok.next)
      else if tok.Invalid? then r == Failed(InvalidToken)
      else if !final then r == Paused(st, p, [])
      else r == Failed(if tok.PartialChar? then CutOffChar else UnclosedCdataSection)
  {
    var t := TurnAt(g, e, start, st, s, p, open, final);
    assert t == CdataTurn(e, st, s, p, final);
    if t.Advance? {
      RunAdvances(g, e, start, st, s, p, open, final, t.to, t.st, t.evs);
    }
  }

  // ---------------------------------------------------------------- behind the document element

  /**
    Behind the document element there may be white space, comments and processing
    instructions, and nothing else.
   */
  lemma EpilogRuns(
    g: Grammar, e: Encoding, start: nat, st: State, s: bytes, p: nat, open: set<bytes>, final: bool)
    requires p <= |s| && start <= |st.tags| && st.mode == InEpilog
    ensures
      var r, tok := Run(g, e, start, st, s, p, open, final), PrologTok(e, s, p);
      if tok.Token? && tok.kind == PrologS then Continues(g, e, start, st, s, p, open, final, [], st, tok.next)
      else if tok.Token? && tok.kind == Comment then
        && p <= tok.next <= |s|
        && Continues(g, e, start, st, s, p, open, final, [CommentText(s[p..tok.next])], st, tok.next)
      else if tok.Token? && tok.kind == PI then
        && p <= tok.next <= |s|
        && Continues(g, e, start, st, s, p, open, final, [ProcessingInstruction(s[p..tok.next])], st, tok.next)
      else if tok.Token? || tok.TrailingRsqb? then r == Failed(JunkAfterDocElement)
      else if tok.Invalid? then r == Failed(InvalidToken)
      else if tok.NoToken? || tok.TrailingCr? then r == if final then Done(st, []) else Paused(st, |s|, [])
      else if !final then r == Paused(st, p, [])
      else r == Failed(if tok.PartialChar? then CutOffChar else UnclosedToken)
  {
    var t := TurnAt(g, e, start, st, s, p, open, final);
    assert t == EpilogTurn(e, st, s, p, final);
    if t.Advance? {
      RunAdvances(g, e, start, st, s, p, open, final, t.to, t.st, t.evs);
    }
  }
}
