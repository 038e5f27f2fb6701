/**
  What the content parser computes: the result of doContent, doCdataSection and
  epilogProcessor (xmlnode/xmlparse.c) on a buffer, as a function of the buffer,
  the tag stack and the set of open entities. One `Turn` is one round of a
  token loop; `Run` iterates until the buffer is used up, the text is complete
  or an error is found.
 */
module XmlParse {
  import opened Bytes
  import opened XmlTok
  import opened XmlDtd
  import Transcode
  import opened XmlAtts
  import opened XmlAttValue

  /** A call of a handler. */
  datatype Event =
    | StartElement(name: bytes, atts: seq<(bytes, bytes)>)
    | EndElement(name: bytes)
    | Characters(data: bytes)
    | ProcessingInstruction(raw: bytes)
    | CommentText(raw: bytes)
    | StartCdata
    | EndCdata

  /** The function in `processor`. */
  datatype Mode = InContent | InCdata | InEpilog

  /** The processor and the names on the tag stack, innermost first. */
  datatype State = State(mode: Mode, tags: seq<bytes>)

  const NEWLINE: bytes := [0x0A]

  // ---------------------------------------------------------------- attributes

  /** The name at `p`, as long as nameLength says. */
  function NameAt(e: Encoding, s: bytes, p: nat): bytes
    requires StartsName(e, s, p)
  {
    var sp := WholeName(e, s, p);
    if sp.SpanEnd? then s[p..sp.at] else []
  }

  /** The bytes of an attribute. */
  datatype RawAtt = RawAtt(name: bytes, raw: bytes, normalized: bool)

  function RawOf(e: Encoding, s: bytes, a: Attribute): RawAtt {
    RawAtt(
      if StartsName(e, s, a.name) then NameAt(e, s, a.name) else [],
      if a.valuePtr <= a.valueEnd <= |s| then s[a.valuePtr..a.valueEnd] else [],
      a.normalized)
  }

  function Defaults(g: Grammar, elem: bytes): seq<AttDef> {
    if elem in g.dtd.attDefs then g.dtd.attDefs[elem] else []
  }

  /** Whether `name` is a CDATA attribute of an element with these declarations. */
  predicate IsCdata(defs: seq<AttDef>, name: bytes) {
    if defs == [] then true
    else if defs[0].name == name then defs[0].isCdata
    else IsCdata(defs[1..], name)
  }

  predicate HasName(l: seq<(bytes, bytes)>, name: bytes) {
    exists i :: 0 <= i < |l| && l[i].0 == name
  }

  /** The value of one specified attribute. */
  function ValueOf(g: Grammar, e: Encoding, elem: bytes, a: RawAtt, open: set<bytes>): Outcome<bytes> {
    if a.normalized then Ok(a.raw) else StoreValue(g, e, IsCdata(Defaults(g, elem), a.name), a.raw, open)
  }

  /** The specified attributes from number `i` on, after those in `seen`. */
  function StoreSpecified(
    g: Grammar, e: Encoding, elem: bytes, s: bytes, l: seq<Attribute>, i: nat, open: set<bytes>,
    seen: seq<(bytes, bytes)>
  ): Outcome<seq<(bytes, bytes)>>
    requires i <= |l|
    decreases |l| - i
  {
    if i == |l| then Ok(seen)
    else
      var a := RawOf(e, s, l[i]);
      if HasName(seen, a.name) then Fail(DuplicateAttribute)
      else
        match ValueOf(g, e, elem, a, open)
        case Fail(error) => Fail(error)
        case Ok(value) => StoreSpecified(g, e, elem, s, l, i + 1, open, seen + [(a.name, value)])
  }

  /** The declared defaults of attributes that are not there yet. */
  function AddDefaults(defs: seq<AttDef>, l: seq<(bytes, bytes)>): seq<(bytes, bytes)> {
    if defs == [] then l
    else
      var d := defs[0];
      AddDefaults(defs[1..], if d.value.Some? && !HasName(l, d.name) then l + [(d.name, d.value.value)] else l)
  }

  /** storeAtts for an element with the attributes `l` in `s`. */
  function StoreAtts(
    g: Grammar, e: Encoding, elem: bytes, s: bytes, l: seq<Attribute>, open: set<bytes>
  ): Outcome<seq<(bytes, bytes)>> {
    match StoreSpecified(g, e, elem, s, l, 0, open, [])
    case Fail(error) => Fail(error)
    case Ok(atts) => Ok(AddDefaults(Defaults(g, elem), atts))
  }

  // ---------------------------------------------------------------- one round

  datatype Turn =
    | Advance(to: nat, st: State, evs: seq<Event>)    // a token is done
    | Suspend(rest: nat)                              // more bytes are needed, from `rest` on
    | Finish(evs: seq<Event>)                         // the text is complete
    | Break(error: XmlError)

  /** What a round may do: move forward within the buffer, and keep the outer elements. */
  ghost predicate Sound(start: nat, s: bytes, p: nat, final: bool, t: Turn) {
    match t
    case Advance(to, st', _) => p < to <= |s| && start <= |st'.tags|
    case Suspend(rest) => !final && p <= rest <= |s|
    case Finish(_) => final
    case Break(_) => true
  }

  /** The end of a text whose element depth at its start was `start`. */
  function EndOfText(start: nat, st: State, evs: seq<Event>): Turn {
    if start == 0 then Break(NoElements)
    else if |st.tags| != start then Break(AsyncEntity)
    else Finish(evs)
  }

  /**
    The round for a reference to the entity `name`: the replacement text of an
    internal entity is parsed as a whole, at the depth of the reference.
   */
  function EntityTurn(g: Grammar, st: State, name: bytes, next: nat, open: set<bytes>): (t: Turn)
    ensures t.Break? || (t.Advance? && t.to == next && |st.tags| <= |t.st.tags|)
    decreases g.dtd.entities.Keys - open, 0, 1
  {
    if Predefined(name).Some? then Advance(next, st, [Characters([Predefined(name).value])])
    else if name !in g.dtd.entities then
      if g.dtd.complete || g.dtd.standalone then Break(UndefinedEntity) else Advance(next, st, [])
    else if name in open then Break(RecursiveEntityRef)
    else
      match g.dtd.entities[name]
      case Unparsed => Break(BinaryEntityRef)
      case Internal(text) =>
        match Expansion(g, st.tags, name, text, open) {
          case Done(st', evs) => Advance(next, State(InContent, st'.tags), evs)
          case Failed(error) => Break(error)
        }
      case External => Advance(next, st, [])
  }

  /** After an element has ended, with `tags` still open. */
  function AfterElement(tags: seq<bytes>): State {
    State(if tags == [] then InEpilog else InContent, tags)
  }

  /**
    The start of the element `name`, which is its end too for an empty-element
    tag, when storeAtts has the result `stored`.
   */
  function ElementTurn(st: State, name: bytes, stored: Outcome<seq<(bytes, bytes)>>, kind: Kind, next: nat): (t: Turn)
    ensures t.Break? || (t.Advance? && t.to == next && |st.tags| <= |t.st.tags| && t.st == AfterElement(t.st.tags))
  {
    match stored
    case Fail(error) => Break(error)
    case Ok(atts) =>
      if kind == StartTagNoAtts || kind == StartTagWithAtts
      then Advance(next, State(InContent, [name] + st.tags), [StartElement(name, atts)])
      else Advance(next, AfterElement(st.tags), [StartElement(name, atts), EndElement(name)])
  }

  /** The round for the start tag at `p`. */
  function TagTurn(g: Grammar, e: Encoding, st: State, s: bytes, p: nat, open: set<bytes>, kind: Kind,
      next: nat): (t: Turn)
    requires IsTagAt(e, s, p)
    ensures t.Break? || (t.Advance? && t.to == next && |st.tags| <= |t.st.tags| && t.st == AfterElement(t.st.tags))
  {
    var name := s[p + 1..NameEnd(e, s, p)];
    ElementTurn(st, name, StoreAtts(g, e, name, s, TagAtts(e, s, p), open), kind, next)
  }

  /** The name of the end tag at `p`. */
  function EndTagName(e: Encoding, s: bytes, p: nat): bytes {
    if p + 2 <= |s| && StartsName(e, s, p + 2) then NameAt(e, s, p + 2) else []
  }

  function EndTagTurn(e: Encoding, start: nat, st: State, s: bytes, p: nat, next: nat): Turn {
    if |st.tags| <= start then Break(AsyncEntity)
    else if EndTagName(e, s, p) != st.tags[0] then Break(TagMismatch)
    else Advance(next, AfterElement(st.tags[1..]), [EndElement(st.tags[0])])
  }

  function TokenTurn(
    g: Grammar, e: Encoding, start: nat, st: State, s: bytes, p: nat, open: set<bytes>, kind: Kind, next: nat
  ): (t: Turn)
    requires p < next <= |s| && start <= |st.tags|
    requires IsStartTag(kind) ==> IsTagAt(e, s, p)
    ensures t.Break? || (t.Advance? && t.to == next && start <= |t.st.tags|)
    decreases g.dtd.entities.Keys - open, |s| - p, 1
  {
    if IsStartTag(kind) then TagTurn(g, e, st, s, p, open, kind, next)
    else if kind == EndTag then EndTagTurn(e, start, st, s, p, next)
    else if kind == EntityRef then EntityTurn(g, st, RefName(s, p, next), next, open)
    else PlainTurn(st, s, p, kind, next)
  }

  /** The round for a token that is neither a tag nor an entity reference. */
  function PlainTurn(st: State, s: bytes, p: nat, kind: Kind, next: nat): (t: Turn)
    requires p < next <= |s|
    ensures t.Break? || (t.Advance? && t.to == next && t.st.tags == st.tags && (kind != CdataSectOpen ==> t.st == st))
  {
    if kind == CharRef then
      match RefNumber(s, p, next)
      case None => Break(BadCharRef)
      case Some(n) => Advance(next, st, [Characters(Transcode.Utf8(n))])
    else if kind == XmlDecl then Break(MisplacedXmlPi)
    else if kind == DataNewline then Advance(next, st, [Characters(NEWLINE)])
    else if kind == DataChars then Advance(next, st, [Characters(s[p..next])])
    else if kind == CdataSectOpen then Advance(next, State(InCdata, st.tags), [StartCdata])
    else if kind == PI then Advance(next, st, [ProcessingInstruction(s[p..next])])
    else if kind == Comment then Advance(next, st, [CommentText(s[p..next])])
    else Advance(next, st, [])
  }

  /** What is known of a token of content. */
  predicate TokenFacts(e: Encoding, s: bytes, p: nat, tok: Lexeme) {
    tok.Token? ==>
      && p < tok.next <= |s|
      && (IsStartTag(tok.kind) ==> IsTagAt(e, s, p))
      && (tok.kind == EndTag ==> p + 2 <= |s| && EndTagTok(e, s, p + 2).Token?)
  }

  lemma ContentFacts(e: Encoding, s: bytes, p: nat)
    requires p <= |s|
    ensures TokenFacts(e, s, p, ContentTok(e, s, p))
  {
    TagIsContent(e, s, p);
    EndTagIsContent(e, s, p);
  }

  lemma EndTagIsContent(e: Encoding, s: bytes, p: nat)
    requires p <= |s|
    ensures
      ContentTok(e, s, p).Token? && ContentTok(e, s, p).kind == EndTag ==> p + 2 <= |s| && EndTagTok(e, s, p + 2).Token?
  {
  }

  /** A round of doContent. */
  function ContentTurn(g: Grammar, e: Encoding, start: nat, st: State, s: bytes, p: nat, open: set<bytes>,
      final: bool): (t: Turn)
    requires p <= |s| && start <= |st.tags|
    ensures Sound(start, s, p, final, t)
    decreases g.dtd.entities.Keys - open, |s| - p, 3
  {
    ContentFacts(e, s, p);
    LexemeTurn(g, e, start, st, s, p, open, final, ContentTok(e, s, p))
  }

  /** The round for what contentTok returns. */
  function LexemeTurn(
    g: Grammar, e: Encoding, start: nat, st: State, s: bytes, p: nat, open: set<bytes>, final: bool, tok: Lexeme
  ): (t: Turn)
    requires p <= |s| && start <= |st.tags| && TokenFacts(e, s, p, tok)
    ensures Sound(start, s, p, final, t)
    decreases g.dtd.entities.Keys - open, |s| - p, 2
  {
    if tok.Token? then TokenTurn(g, e, start, st, s, p, open, tok.kind, tok.next)
    else ContentStop(start, st, tok, s[p..], p, final)
  }

  /** The round for what is not a token; `tail` is the rest of the buffer. */
  function ContentStop(start: nat, st: State, tok: Lexeme, tail: bytes, p: nat, final: bool): (t: Turn)
    requires !tok.Token?
  {
    if tok.Invalid? then Break(InvalidToken)
    else if !final then Suspend(p)
    else
      match tok
      case TrailingCr => EndOfText(start, st, [Characters(NEWLINE)])
      case NoToken => EndOfText(start, st, [])
      case TrailingRsqb => EndOfText(start, st, [Characters(tail)])
      case Partial => Break(UnclosedToken)
      case PartialChar => Break(CutOffChar)
  }

  /** A round of doCdataSection. */
  function CdataTurn(e: Encoding, st: State, s: bytes, p: nat, final: bool): Turn
    requires p <= |s| && st.mode == InCdata
  {
    var tok := CdataSectionTok(e, s, p);
    if tok.Token? then
      if tok.kind == CdataSectClose then Advance(tok.next, State(InContent, st.tags), [EndCdata])
      else if tok.kind == DataNewline then Advance(tok.next, st, [Characters(NEWLINE)])
      else Advance(tok.next, st, [Characters(s[p..tok.next])])
    else if tok.Invalid? then Break(InvalidToken)
    else if !final then Suspend(p)
    else if tok.PartialChar? then Break(CutOffChar)
    else Break(UnclosedCdataSection)
  }

  /** A round of epilogProcessor. */
  function EpilogTurn(e: Encoding, st: State, s: bytes, p: nat, final: bool): Turn
    requires p <= |s| && st.mode == InEpilog
  {
    EpilogLexeme(st, PrologTok(e, s, p), s, p, final)
  }

  /** The round for what prologTok returns. */
  function EpilogLexeme(st: State, tok: Lexeme, s: bytes, p: nat, final: bool): Turn
    requires tok.Token? && tok.kind != InstanceStart ==> p < tok.next <= |s|
  {
    if tok.Token? then
      if tok.kind == PrologS then Advance(tok.next, st, [])
      else if tok.kind == PI then Advance(tok.next, st, [ProcessingInstruction(s[p..tok.next])])
      else if tok.kind == Comment then Advance(tok.next, st, [CommentText(s[p..tok.next])])
      else Break(JunkAfterDocElement)
    else if tok.TrailingCr? || tok.NoToken? then if final then Finish([]) else Suspend(|s|)
    else if tok.Invalid? then Break(InvalidToken)
    else if tok.TrailingRsqb? then Break(JunkAfterDocElement)
    else if !final then Suspend(p)
    else if tok.PartialChar? then Break(CutOffChar)
    else Break(UnclosedToken)
  }

  function TurnAt(g: Grammar, e: Encoding, start: nat, st: State, s: bytes, p: nat, open: set<bytes>,
      final: bool): (t: Turn)
    requires p <= |s| && start <= |st.tags|
    ensures Sound(start, s, p, final, t)
    decreases g.dtd.entities.Keys - open, |s| - p, 4
  {
    match st.mode
    case InContent => ContentTurn(g, e, start, st, s, p, open, final)
    case InCdata => CdataTurn(e, st, s, p, final)
    case InEpilog => EpilogTurn(e, st, s, p, final)
  }

  // ---------------------------------------------------------------- whole runs

  datatype Result =
    | Paused(st: State, rest: nat, evs: seq<Event>)
    | Done(st: State, evs: seq<Event>)
    | Failed(error: XmlError)
  {
    function Events(): seq<Event> {
      if Failed? then [] else evs
    }
  }

  /** The result with `evs` before its own events. */
  function After(evs: seq<Event>, r: Result): Result {
    match r
    case Paused(st, rest, evs') => Paused(st, rest, evs + evs')
    case Done(st, evs') => Done(st, evs + evs')
    case Failed(_) => r
  }

  /**
    Parse `s` from `p` on. `start` is the element depth at the start of the text
    and `final` says that no more bytes follow. It terminates for every entity
    table: an expansion opens one more entity, any other round uses up bytes.
   */
  function Run(g: Grammar, e: Encoding, start: nat, st: State, s: bytes, p: nat, open: set<bytes>,
      final: bool): (r: Result)
    requires p <= |s| && start <= |st.tags|
    ensures r.Paused? ==> !final && p <= r.rest <= |s|
    ensures r.Done? ==> final
    ensures !r.Failed? ==> start <= |r.st.tags|
    decreases g.dtd.entities.Keys - open, |s| - p, 5
  {
    Continue(g, e, start, st, s, p, open, final, TurnAt(g, e, start, st, s, p, open, final))
  }

  /** What follows the round `t` at `p`. */
  function Continue(
    g: Grammar, e: Encoding, start: nat, st: State, s: bytes, p: nat, open: set<bytes>, final: bool, t: Turn
  ): (r: Result)
    requires p <= |s| && start <= |st.tags| && Sound(start, s, p, final, t)
    ensures r.Paused? ==> !final && p <= r.rest <= |s|
    ensures r.Done? ==> final
    ensures !r.Failed? ==> start <= |r.st.tags|
    decreases g.dtd.entities.Keys - open, |s| - p, 0
  {
    match t
    case Suspend(rest) => Paused(st, rest, [])
    case Finish(evs) => Done(st, evs)
    case Break(error) => Failed(error)
    case Advance(to, st', evs) => After(evs, Run(g, e, start, st', s, to, open, final))
  }

  /** The text of the internal entity `name`, referred to inside the elements `tags`. */
  function Expansion(g: Grammar, tags: seq<bytes>, name: bytes, text: bytes, open: set<bytes>): (r: Result)
    requires name in g.dtd.entities && name !in open
    ensures !r.Paused?
    ensures !r.Failed? ==> |tags| <= |r.st.tags|
    decreases g.dtd.entities.Keys - open, 0, 0
  {
    Run(g, g.internal, |tags|, State(InContent, tags), text, 0, open + {name}, true)
  }
}
