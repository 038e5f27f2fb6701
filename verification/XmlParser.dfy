/**
  The parser object of xmlnode/xmlparse.c from the start of the document element
  on: the buffer that joins the chunks of several calls, the tag stack, the flags
  of open entities and the scratch pool, all changed in place. Every method is
  proved to do what the functions of XmlParse and XmlAttValue say.
 */
module XmlParser {
  import opened Bytes
  import opened Wrappers
  import opened XmlTok
  import opened XmlScan
  import opened XmlDtd
  import Transcode
  import opened XmlAtts
  import opened XmlAttValue
  import opened XmlParse
  import opened XmlTurnLaws
  import opened XmlChunks
  import opened XmlNesting

  const INIT_BUFFER_SIZE := 1024
  const INIT_ATTS_SIZE := 16

  /** What was done for a token in content is what the round `t` says; `tags` is the stack after it. */
  ghost predicate Did(t: Turn, error: Option<XmlError>, evs: seq<Event>, tags: seq<bytes>) {
    match t
    case Advance(_, st, evs') => error == None && evs == evs' && tags == st.tags
    case Break(err) => error == Some(err)
    case _ => false
  }

  function EventsOf(t: Turn): seq<Event> {
    if t.Advance? then t.evs else []
  }

  /** The cases of a round. */
  lemma TokenTurnIs(
    g: Grammar, e: Encoding, start: nat, st: State, s: bytes, p: nat, open: set<bytes>, kind: Kind, next: nat)
    requires p < next <= |s| && start <= |st.tags| && (IsStartTag(kind) ==> IsTagAt(e, s, p))
    ensures
      TokenTurn(g, e, start, st, s, p, open, kind, next)
      == if IsStartTag(kind) then TagTurn(g, e, st, s, p, open, kind, next)
         else if kind == EndTag then EndTagTurn(e, start, st, s, p, next)
         else if kind == EntityRef then EntityTurn(g, st, RefName(s, p, next), next, open)
         else PlainTurn(st, s, p, kind, next)
  {
  }

  /** What is known of the token of content at `p`. */
  ghost predicate IsToken(e: Encoding, st: State, s: bytes, p: nat, kind: Kind, next: nat) {
    && p < next <= |s| && st.mode == InContent
    && (IsStartTag(kind) ==> IsTagAt(e, s, p) && TagTok(e, s, AfterFirst(e, s, p + 1)) == Token(kind, next))
    && (st.tags == [] ==> IsStartTag(kind))
  }

  /** The round for a token of content. */
  lemma TokenTurnAt(
    g: Grammar, e: Encoding, start: nat, st: State, s: bytes, p: nat, open: set<bytes>, final: bool, kind: Kind,
    next: nat)
    requires p <= |s| && ContentTok(e, s, p) == Token(kind, next)
    requires st.mode == InContent && Ready(e, start, st, s, p)
    ensures IsToken(e, st, s, p, kind, next)
    ensures TurnAt(g, e, start, st, s, p, open, final) == TokenTurn(g, e, start, st, s, p, open, kind, next)
  {
    ContentTokenTurn(g, e, start, st, s, p, open, final, kind, next);
  }

  lemma DidRun(
    g: Grammar, e: Encoding, start: nat, st: State, s: bytes, p: nat, open: set<bytes>, final: bool, kind: Kind,
    next: nat,
    error: Option<XmlError>, evs: seq<Event>, tags: seq<bytes>)
    requires Ready(e, start, st, s, p) && IsToken(e, st, s, p, kind, next) && kind != CdataSectOpen
    requires TurnAt(g, e, start, st, s, p, open, final) == TokenTurn(g, e, start, st, s, p, open, kind, next)
    requires Did(TokenTurn(g, e, start, st, s, p, open, kind, next), error, evs, tags)
    ensures
      var r := Run(g, e, start, st, s, p, open, final);
      if error.Some? then r == Failed(error.value)
      else
        && Ready(e, start, AfterElement(tags), s, next)
        && r == After(evs, Run(g, e, start, AfterElement(tags), s, next, open, final))
  {
    TurnAtNests(g, e, start, st, s, p, open, final);
    ContentTokenState(g, e, start, st, s, p, open, kind, next);
  }

  /** The mode after a token of content follows from the tag stack. */
  lemma ContentTokenState(
    g: Grammar, e: Encoding, start: nat, st: State, s: bytes, p: nat, open: set<bytes>, kind: Kind, next: nat)
    requires Ready(e, start, st, s, p) && IsToken(e, st, s, p, kind, next) && kind != CdataSectOpen
    ensures
      var t := TokenTurn(g, e, start, st, s, p, open, kind, next);
      t.Advance? ==> t.st == AfterElement(t.st.tags)
  {
    if kind == EntityRef {
      EntityTurnNests(g, e, start, st, s, p, open, RefName(s, p, next), next);
    }
  }

  lemma CdataOpenRun(
    g: Grammar, e: Encoding, start: nat, st: State, s: bytes, p: nat, next: nat, open: set<bytes>, final: bool)
    requires Ready(e, start, st, s, p) && IsToken(e, st, s, p, CdataSectOpen, next)
    requires TurnAt(g, e, start, st, s, p, open, final) == TokenTurn(g, e, start, st, s, p, open, CdataSectOpen, next)
    ensures Run(g, e, start, st, s, p, open, final)
         == After([StartCdata], Run(g, e, start, State(InCdata, st.tags), s, next, open, final))
  {
    RunAdvances(g, e, start, st, s, p, open, final, next, State(InCdata, st.tags), [StartCdata]);
  }

  /** The run at a place without a token. */
  lemma ContentStopRun(g: Grammar, e: Encoding, start: nat, st: State, s: bytes, p: nat, open: set<bytes>,
      final: bool, tok: Lexeme)
    requires p <= |s| && start <= |st.tags| && !tok.Token?
    requires TurnAt(g, e, start, st, s, p, open, final) == ContentStop(start, st, tok, s[p..], p, final)
    ensures
      var r := Run(g, e, start, st, s, p, open, final);
      match ContentStop(start, st, tok, s[p..], p, final)
      case Suspend(at) => at == p && r == Paused(st, p, [])
      case Finish(evs) => r == Done(st, evs)
      case Break(err) => r == Failed(err)
      case Advance(_, _, _) => false
  {
  }

  /** The result `r` of a run that started with the events `before`, as the client sees it. */
  ghost predicate Reported(
    r: Result, before: seq<Event>, st: State, events: seq<Event>, error: Option<XmlError>, rest: nat)
  {
    match r
    case Failed(err) => error == Some(err)
    case Done(st', evs) => error == None && st == st' && events == before + evs
    case Paused(st', next, evs) => error == None && st == st' && events == before + evs && rest == next
  }

  lemma ReportedAfter(
    evs: seq<Event>, r: Result, before: seq<Event>, st: State, events: seq<Event>, error: Option<XmlError>, rest: nat)
    requires Reported(r, before + evs, st, events, error, rest)
    ensures Reported(After(evs, r), before, st, events, error, rest)
  {
    if !r.Failed? {
      assert (before + evs) + r.evs == before + (evs + r.evs);
    }
  }

  /**
    A round of doContent with the run `r` ahead: it ends the call, or it has made
    the calls `evs` and content goes on at `rest`.
   */
  ghost predicate Goes(
    g: Grammar, e: Encoding, start: nat, s: bytes, open: set<bytes>, final: bool, r: Result, before: seq<Event>,
    done: bool, st: State, events: seq<Event>, error: Option<XmlError>, rest: nat, evs: seq<Event>)
  {
    if done then Reported(r, before, st, events, error, rest)
    else
      && error == None && events == before + evs && rest <= |s|
      && st.mode == InContent && Ready(e, start, st, s, rest)
      && r == After(evs, Run(g, e, start, st, s, rest, open, final))
  }

  lemma AppendEvents(a: seq<Event>, b: seq<Event>, c: seq<Event>)
    ensures (a + b) + c == a + (b + c)
  {
  }

  class Parser {
    const g: Grammar

    var processor: Mode
    var tagStack: seq<bytes>       // names of the open elements, innermost first
    var tagLevel: nat
    var open: set<bytes>           // the entities with their flag `open` set
    var pool: bytes                // the unfinished string of tempPool
    var atts: array<Attribute>
    var events: seq<Event>         // the calls of handlers so far
    var buffer: array<byte>
    var bufferPtr: nat
    var bufferEnd: nat

    // -------------------------------------------------------------- attribute values

    /** The reference to the entity `name` in an attribute value. */
    method AppendEntity(isCdata: bool, name: bytes, ghost next: nat) returns (error: Option<XmlError>)
      modifies this`open, this`pool
      ensures open == old(open)
      ensures Stepped(EntityStep(g, isCdata, name, next, old(open), old(pool)), error)
      decreases g.dtd.entities.Keys - open, 0, 2
    {
      var ch := Predefined(name);
      if ch.Some? {
        pool := pool + [ch.value];
        return None;
      }
      if name !in g.dtd.entities {
        return if g.dtd.complete then Some(UndefinedEntity) else None;
      }
      if name in open { return Some(RecursiveEntityRef); }
      match g.dtd.entities[name] {
        case Unparsed => return Some(BinaryEntityRef);
        case External => return Some(AttributeExternalEntityRef);
        case Internal(text) =>
          ghost var was := open;
          open := open + {name};
          error := AppendAttributeValue(g.internal, isCdata, text, 0);
          open := open - {name};
          assert open == was;
      }
    }

    /** A round has added to the pool what `st` says, or there was an error. */
    ghost predicate Stepped(st: ValueStep, error: Option<XmlError>)
      reads this`pool
    {
      match st
      case Added(_, acc) => error == None && pool == acc
      case Bad(e) => error == Some(e)
      case Finished => false
    }

    /** A value has been added to the pool, or there was an error. */
    ghost predicate Appended(r: Outcome<bytes>, error: Option<XmlError>)
      reads this`pool
    {
      match r
      case Ok(acc) => error == None && pool == acc
      case Fail(e) => error == Some(e)
    }

    method AppendAttributeValue(e: Encoding, isCdata: bool, v: bytes, start: nat) returns (error: Option<XmlError>)
      requires start <= |v|
      modifies this`open, this`pool
      ensures open == old(open)
      ensures Appended(AppendValue(g, e, isCdata, v, start, old(open), old(pool)), error)
      decreases g.dtd.entities.Keys - open, |v| - start, 1
    {
      var ptr := start;
      while true
        invariant start <= ptr <= |v| && open == old(open)
        invariant AppendValue(g, e, isCdata, v, start, open, old(pool))
            == AppendValue(g, e, isCdata, v, ptr, open, pool)
        decreases |v| - ptr
      {
        ghost var step := StepAt(g, e, isCdata, v, ptr, open, pool);
        var tok := ScanAttributeValue(e, v, ptr);
        if tok.NoToken? { return None; }
        if tok.Invalid? || tok.Partial? { return Some(InvalidToken); }
        if tok.TrailingCr? {
          pool := AddBlank(isCdata, pool);
          ptr := ptr + 1;
        } else if !tok.Token? {
          return Some(Aborted);
        } else {
          error := AppendToken(isCdata, v, ptr, tok.kind, tok.next);
          if error.Some? { return; }
          ptr := tok.next;
        }
      }
    }

    method AppendToken(isCdata: bool, v: bytes, p: nat, kind: Kind, next: nat) returns (error: Option<XmlError>)
      requires p < next <= |v|
      modifies this`open, this`pool
      ensures open == old(open)
      ensures Stepped(TokenStep(g, isCdata, v, p, old(open), old(pool), kind, next), error)
      decreases g.dtd.entities.Keys - open, |v| - p, 0
    {
      error := None;
      if kind == EntityRef {
        error := AppendEntity(isCdata, RefName(v, p, next), next);
      } else if kind == DataChars {
        pool := pool + v[p..next];
      } else if kind == AttributeValueS || kind == DataNewline {
        pool := AddBlank(isCdata, pool);
      } else if kind == CharRef {
        var n := RefNumber(v, p, next);
        if n.None? { return Some(BadCharRef); }
        pool := AddChar(isCdata, pool, n.value);
      } else {
        error := Some(Aborted);
      }
    }

    method StoreAttributeValue(e: Encoding, isCdata: bool, v: bytes) returns (error: Option<XmlError>)
      requires pool == []
      modifies this`open, this`pool
      ensures open == old(open)
      ensures Appended(StoreValue(g, e, isCdata, v, open), error)
    {
      error := AppendAttributeValue(e, isCdata, v, 0);
      if error.Some? { return; }
      if !isCdata && |pool| != 0 && pool[|pool| - 1] == BYTE_SPACE {
        pool := pool[..|pool| - 1];
      }
    }

    // -------------------------------------------------------------- start tags

    /** storeAtts for the start tag at `p`; the list is in `atts` in the source. */
    method StoreAttributes(e: Encoding, s: bytes, p: nat, elem: bytes)
        returns (error: Option<XmlError>, l: seq<(bytes, bytes)>)
      requires LiteralBytes(e) && IsTagAt(e, s, p) && pool == []
      modifies this`open, this`pool, this`atts, atts
      ensures open == old(open) && (atts == old(atts) || fresh(atts))
      ensures
        match StoreAtts(g, e, elem, s, TagAtts(e, s, p), open)
        case Ok(list) => error == None && l == list && pool == []
        case Fail(err) => error == Some(err)
    {
      var defs := Defaults(g, elem);
      var n := GetAttributes(e, s, p, |defs|);
      error, l := StoreEach(e, s, elem, n);
      if error.Some? { return; }
      l := StoreDefaults(defs, l);
    }

    /** The loop over the declared attributes. */
    static method StoreDefaults(defs: seq<AttDef>, specified: seq<(bytes, bytes)>) returns (l: seq<(bytes, bytes)>)
      ensures l == AddDefaults(defs, specified)
    {
      l := specified;
      var j := 0;
      assert defs[0..] == defs;
      while j < |defs|
        invariant j <= |defs| && AddDefaults(defs[j..], l) == AddDefaults(defs, specified)
        decreases |defs| - j
      {
        var da := defs[j];
        assert defs[j..][1..] == defs[j + 1..];
        if !HasName(l, da.name) && da.value.Some? {
          l := l + [(da.name, da.value.value)];
        }
        j := j + 1;
      }
    }

    /** The loop over the `n` attributes in `atts`. */
    method StoreEach(e: Encoding, s: bytes, elem: bytes, n: nat)
        returns (error: Option<XmlError>, l: seq<(bytes, bytes)>)
      requires n <= atts.Length && pool == []
      modifies this`open, this`pool
      ensures open == old(open)
      ensures
        match StoreSpecified(g, e, elem, s, atts[..n], 0, open, [])
        case Ok(list) => error == None && l == list && pool == []
        case Fail(err) => error == Some(err)
    {
      error, l := None, [];
      var i := 0;
      ghost var all := atts[..n];
      while i < n
        invariant 0 <= i <= n == |all| && all == atts[..n] && open == old(open) && pool == [] && error == None
        invariant StoreSpecified(g, e, elem, s, all, 0, open, []) == StoreSpecified(g, e, elem, s, all, i, open, l)
        decreases n - i
      {
        var a := RawOf(e, s, atts[i]);
        if HasName(l, a.name) { return Some(DuplicateAttribute), l; }
        var value;
        error, value := StoreOne(e, elem, a);
        if error.Some? { return; }
        l := l + [(a.name, value)];
        i := i + 1;
      }
    }

    /** One attribute: its bytes, or what storeAttributeValue leaves in the pool. */
    method StoreOne(e: Encoding, elem: bytes, a: RawAtt) returns (error: Option<XmlError>, value: bytes)
      requires pool == []
      modifies this`open, this`pool
      ensures open == old(open)
      ensures
        match ValueOf(g, e, elem, a, open)
        case Ok(v) => error == None && value == v && pool == []
        case Fail(err) => error == Some(err)
    {
      error, value := None, a.raw;
      if !a.normalized {
        error := StoreAttributeValue(e, IsCdata(Defaults(g, elem), a.name), a.raw);
        if error.Some? { return; }
        value, pool := pool, [];
      }
    }

    /** The calls of getAtts: a second one when there were more attributes than room in `atts`. */
    method GetAttributes(e: Encoding, s: bytes, p: nat, nDefaultAtts: nat) returns (n: nat)
      requires LiteralBytes(e) && IsTagAt(e, s, p)
      modifies this`atts, atts
      ensures atts == old(atts) || fresh(atts)
      ensures n + nDefaultAtts <= atts.Length && atts[..n] == TagAtts(e, s, p)
    {
      n := GetAtts(e, s, p, atts);
      if n + nDefaultAtts > atts.Length {
        var more := new Attribute[n + nDefaultAtts + INIT_ATTS_SIZE];
        forall i | 0 <= i < atts.Length && i < more.Length {
          more[i] := atts[i];
        }
        var oldAttsSize := atts.Length;
        atts := more;
        if n > oldAttsSize {
          var _ := GetAtts(e, s, p, atts);
        }
      }
    }

    // -------------------------------------------------------------- tokens of content

    /** The parser is in the state `st`. */
    ghost predicate At(st: State)
      reads this`processor, this`tagStack, this`tagLevel
    {
      processor == st.mode && tagStack == st.tags && tagLevel == |tagStack|
    }

    /** The handling of a token did what the round `t` says. */
    ghost predicate Made(t: Turn, before: seq<Event>, error: Option<XmlError>)
      reads this`tagStack, this`tagLevel, this`events
    {
      match t
      case Advance(_, st, evs) => error == None && tagStack == st.tags && tagLevel == |tagStack|
          && events == before + evs
      case Break(err) => error == Some(err)
      case _ => false
    }

    /** The cases of start tags and empty elements. */
    method StartTag(e: Encoding, s: bytes, p: nat, kind: Kind, ghost next: nat) returns (error: Option<XmlError>)
      requires LiteralBytes(e) && IsTagAt(e, s, p)
      requires pool == [] && tagLevel == |tagStack|
      modifies this`tagStack, this`tagLevel, this`open, this`pool, this`atts, this`events, atts
      ensures open == old(open) && (atts == old(atts) || fresh(atts))
      ensures error.None? ==> pool == []
      ensures Made(TagTurn(g, e, State(InContent, old(tagStack)), s, p, open, kind, next), old(events), error)
    {
      var name := s[p + 1..NameEnd(e, s, p)];
      ghost var stored := StoreAtts(g, e, name, s, TagAtts(e, s, p), open);
      var starts := kind == StartTagNoAtts || kind == StartTagWithAtts;
      if starts {
        tagStack := [name] + tagStack;
        tagLevel := tagLevel + 1;
      }
      var l;
      error, l := StoreAttributes(e, s, p, name);
      if error.None? {
        StartElementCalls(name, l, starts);
      }
      assert Made(ElementTurn(State(InContent, old(tagStack)), name, stored, kind, next), old(events), error);
    }

    /** The calls of handlers for a start tag or an empty element. */
    method StartElementCalls(name: bytes, l: seq<(bytes, bytes)>, starts: bool)
      modifies this`events
      ensures events == old(events) + if starts then [StartElement(name, l)]
          else [StartElement(name, l), EndElement(name)]
    {
      events := events + [StartElement(name, l)];
      if !starts {
        events := events + [EndElement(name)];
      }
    }

    /** XML_TOK_END_TAG. On a mismatch the source has already taken the tag from its stack. */
    method EndTagToken(e: Encoding, startTagLevel: nat, s: bytes, p: nat, ghost next: nat)
        returns (error: Option<XmlError>)
      requires tagLevel == |tagStack| && startTagLevel <= tagLevel
      modifies this`tagStack, this`tagLevel, this`events
      ensures Made(EndTagTurn(e, startTagLevel, State(InContent, old(tagStack)), s, p, next), old(events), error)
    {
      if tagLevel == startTagLevel { return Some(AsyncEntity); }
      var tag := tagStack[0];
      tagStack := tagStack[1..];
      if EndTagName(e, s, p) != tag { return Some(TagMismatch); }
      tagLevel := tagLevel - 1;
      events := events + [EndElement(tag)];
      error := None;
    }

    /** The tokens that neither touch the tag stack nor refer to an entity. */
    method OtherToken(s: bytes, p: nat, kind: Kind, next: nat) returns (error: Option<XmlError>)
      requires p < next <= |s| && kind != EntityRef && kind != CdataSectOpen && tagLevel == |tagStack|
      modifies this`events
      ensures Made(PlainTurn(State(InContent, tagStack), s, p, kind, next), old(events), error)
    {
      error := None;
      if kind == CharRef {
        var n := RefNumber(s, p, next);
        if n.None? { return Some(BadCharRef); }
        events := events + [Characters(Transcode.Utf8(n.value))];
      } else if kind == XmlDecl {
        return Some(MisplacedXmlPi);
      } else if kind == DataNewline {
        events := events + [Characters(NEWLINE)];
      } else if kind == DataChars {
        events := events + [Characters(s[p..next])];
      } else if kind == PI {
        events := events + [ProcessingInstruction(s[p..next])];
      } else if kind == Comment {
        events := events + [CommentText(s[p..next])];
      }
    }

    // -------------------------------------------------------------- processors

    /** The call did what the run `r` says, and the next call starts at `rest`. */
    ghost predicate Outcome(r: Result, before: seq<Event>, error: Option<XmlError>, rest: nat)
      reads this`processor, this`tagStack, this`tagLevel, this`events
    {
      && Reported(r, before, State(processor, tagStack), events, error, rest)
      && (error.None? ==> tagLevel == |tagStack|)
    }

    method EpilogProcessor(s: bytes, start: nat, final: bool) returns (error: Option<XmlError>, rest: nat)
      requires start <= |s| && tagStack == [] && tagLevel == 0
      modifies this`processor, this`events
      ensures Outcome(Run(g, g.doc, 0, State(InEpilog, []), s, start, open, final), old(events), error, rest)
    {
      processor := InEpilog;
      var ptr := start;
      ghost var st, sofar := State(InEpilog, []), [];
      AfterNothing(Run(g, g.doc, 0, st, s, start, open, final));
      while true
        invariant start <= ptr <= |s| && events == old(events) + sofar && At(st)
        invariant Run(g, g.doc, 0, st, s, start, open, final) == After(sofar, Run(g, g.doc, 0, st, s, ptr, open, final))
        decreases |s| - ptr
      {
        var tok := ScanProlog(g.doc, s, ptr);
        if !tok.Token? || (tok.kind != PrologS && tok.kind != PI && tok.kind != Comment) {
          error, rest := EpilogEnd(s, ptr, final, tok);
          return;
        }
        ghost var t := TurnAt(g, g.doc, 0, st, s, ptr, open, final);
        if tok.kind == PI {
          events := events + [ProcessingInstruction(s[ptr..tok.next])];
        } else if tok.kind == Comment {
          events := events + [CommentText(s[ptr..tok.next])];
        }
        RunAdvances(g, g.doc, 0, st, s, ptr, open, final, tok.next, st, t.evs);
        AfterAfter(sofar, t.evs, Run(g, g.doc, 0, st, s, tok.next, open, final));
        sofar := sofar + t.evs;
        ptr := tok.next;
      }
    }

    /** The cases of epilogProcessor that end the call. */
    method EpilogEnd(s: bytes, ptr: nat, final: bool, tok: Lexeme) returns (error: Option<XmlError>, rest: nat)
      requires ptr <= |s| && tok == PrologTok(g.doc, s, ptr) && At(State(InEpilog, []))
      requires !tok.Token? || (tok.kind != PrologS && tok.kind != PI && tok.kind != Comment)
      ensures Outcome(Run(g, g.doc, 0, State(InEpilog, []), s, ptr, open, final), events, error, rest)
    {
      if tok.TrailingCr? || tok.NoToken? { return None, |s|; }
      if tok.Invalid? { return Some(InvalidToken), ptr; }
      if tok.Partial? {
        if !final { return None, ptr; }
        return Some(UnclosedToken), ptr;
      }
      if tok.PartialChar? {
        if !final { return None, ptr; }
        return Some(CutOffChar), ptr;
      }
      return Some(JunkAfterDocElement), ptr;
    }

    /**
      doCdataSection: `closed` when the section ends in the buffer, in which case
      content goes on at `next`, and `evs` are the calls of handlers.
     */
    method DoCdataSection(e: Encoding, ghost startTagLevel: nat, s: bytes, start: nat, final: bool)
      returns (error: Option<XmlError>, closed: bool, next: nat, ghost evs: seq<Event>)
      requires start <= |s| && startTagLevel <= |tagStack|
      modifies this`events
      ensures events == old(events) + evs && next <= |s|
      ensures
        var r := Run(g, e, startTagLevel, State(InCdata, tagStack), s, start, open, final);
        if closed then
          && error == None && start < next
          && r == After(evs, Run(g, e, startTagLevel, State(InContent, tagStack), s, next, open, final))
        else if r.Failed? then error == Some(r.error)
        else error == None && r == Paused(State(InCdata, tagStack), next, evs)
    {
      var ptr := start;
      ghost var st := State(InCdata, tagStack);
      evs := [];
      AfterNothing(Run(g, e, startTagLevel, st, s, start, open, final));
      while true
        invariant start <= ptr <= |s| && events == old(events) + evs
        invariant Run(g, e, startTagLevel, st, s, start, open, final)
               == After(evs, Run(g, e, startTagLevel, st, s, ptr, open, final))
        decreases |s| - ptr
      {
        var tok := ScanCdataContent(e, s, ptr);
        ghost var t := TurnAt(g, e, startTagLevel, st, s, ptr, open, final);
        if !tok.Token? {
          closed, next := false, ptr;
          if tok.Invalid? { return Some(InvalidToken), closed, next, evs; }
          if !final { return None, closed, next, evs; }
          return Some(if tok.PartialChar? then CutOffChar else UnclosedCdataSection), closed, next, evs;
        }
        RunAdvances(g, e, startTagLevel, st, s, ptr, open, final, tok.next, t.st, t.evs);
        AfterAfter(evs, t.evs, Run(g, e, startTagLevel, t.st, s, tok.next, open, final));
        evs := evs + t.evs;
        if tok.kind == CdataSectClose {
          events := events + [EndCdata];
          return None, true, tok.next, evs;
        } else if tok.kind == DataNewline {
          events := events + [Characters(NEWLINE)];
        } else {
          events := events + [Characters(s[ptr..tok.next])];
        }
        ptr := tok.next;
      }
    }

    // -------------------------------------------------------------- content

    /** The encodings have the literal bytes of the scanners, and `tagLevel` is the depth of the stack. */
    ghost predicate Usable()
      reads this`pool, this`tagStack, this`tagLevel
    {
      LiteralBytes(g.doc) && LiteralBytes(g.internal) && pool == [] && tagLevel == |tagStack|
    }

    /** A reference to the entity `name` in content. */
    method EntityToken(name: bytes, ghost next: nat) returns (error: Option<XmlError>, ghost evs: seq<Event>)
      requires Usable() && processor == InContent && tagStack != []
      modifies this`processor, this`tagStack, this`tagLevel, this`open, this`pool, this`atts, this`events, atts
      ensures open == old(open) && (atts == old(atts) || fresh(atts))
      ensures error.None? ==> Usable() && processor == InContent && events == old(events) + evs
      ensures Did(EntityTurn(g, State(InContent, old(tagStack)), name, next, open), error, evs, tagStack)
      decreases g.dtd.entities.Keys - open, 0, 2
    {
      error, evs := None, [];
      var ch := Predefined(name);
      if ch.Some? {
        evs := [Characters([ch.value])];
        events := events + [Characters([ch.value])];
        return;
      }
      if name !in g.dtd.entities {
        if g.dtd.complete || g.dtd.standalone { return Some(UndefinedEntity), evs; }
        return;
      }
      if name in open { return Some(RecursiveEntityRef), evs; }
      match g.dtd.entities[name] {
        case Unparsed => return Some(BinaryEntityRef), evs;
        case External => return;
        case Internal(text) =>
          ghost var was := open;
          EntityIsBalanced(g, tagStack, name, text, open);
          evs := Expansion(g, tagStack, name, text, open).Events();
          open := open + {name};
          var rest;
          error, rest := DoContent(g.internal, tagLevel, text, 0, true);
          open := open - {name};
          assert open == was;
      }
    }

    /** The cases of doContent for the token at `p`, all but the start of a CDATA section. */
    method TokenCases(e: Encoding, startTagLevel: nat, s: bytes, p: nat, kind: Kind, next: nat)
      returns (error: Option<XmlError>, ghost evs: seq<Event>)
      requires IsToken(e, State(InContent, tagStack), s, p, kind, next) && kind != CdataSectOpen
      requires Usable() && processor == InContent && LiteralBytes(e) && startTagLevel <= |tagStack|
      modifies this`processor, this`tagStack, this`tagLevel, this`open, this`pool, this`atts, this`events, atts
      ensures open == old(open) && (atts == old(atts) || fresh(atts))
      ensures error.None? ==> Usable() && processor == InContent && events == old(events) + evs
      ensures
        var st := State(InContent, old(tagStack));
        Did(TokenTurn(g, e, startTagLevel, st, s, p, open, kind, next), error, evs, tagStack)
      decreases g.dtd.entities.Keys - open, |s| - p, 0
    {
      TokenTurnIs(g, e, startTagLevel, State(InContent, tagStack), s, p, open, kind, next);
      if kind == EntityRef {
        error, evs := EntityToken(RefName(s, p, next), next);
      } else {
        error, evs := OtherCases(e, startTagLevel, s, p, kind, next);
      }
    }

    /** The cases that do not expand an entity in content. */
    method OtherCases(e: Encoding, startTagLevel: nat, s: bytes, p: nat, kind: Kind, next: nat)
      returns (error: Option<XmlError>, ghost evs: seq<Event>)
      requires IsToken(e, State(InContent, tagStack), s, p, kind, next) && kind != CdataSectOpen && kind != EntityRef
      requires Usable() && LiteralBytes(e) && startTagLevel <= |tagStack|
      modifies this`tagStack, this`tagLevel, this`open, this`pool, this`atts, this`events, atts
      ensures open == old(open) && (atts == old(atts) || fresh(atts))
      ensures error.None? ==> Usable() && events == old(events) + evs
      ensures
        var st := State(InContent, old(tagStack));
        Did(TokenTurn(g, e, startTagLevel, st, s, p, open, kind, next), error, evs, tagStack)
    {
      ghost var st, t := State(InContent, tagStack), Turn.Break(Aborted);
      TokenTurnIs(g, e, startTagLevel, st, s, p, open, kind, next);
      if IsStartTag(kind) {
        t := TagTurn(g, e, st, s, p, open, kind, next);
        error := StartTag(e, s, p, kind, next);
      } else if kind == EndTag {
        t := EndTagTurn(e, startTagLevel, st, s, p, next);
        error := EndTagToken(e, startTagLevel, s, p, next);
      } else {
        t := PlainTurn(st, s, p, kind, next);
        error := OtherToken(s, p, kind, next);
      }
      evs := EventsOf(t);
      MadeDid(t, old(events), error);
    }

    lemma MadeDid(t: Turn, before: seq<Event>, error: Option<XmlError>)
      requires Made(t, before, error)
      ensures Did(t, error, EventsOf(t), tagStack)
      ensures error.None? ==> tagLevel == |tagStack| && events == before + EventsOf(t)
    {
    }

    /** A round of doContent with such a token: it ends the call, or content goes on at `next`. */
    method TokenRound(e: Encoding, startTagLevel: nat, s: bytes, p: nat, kind: Kind, next: nat, final: bool)
      returns (done: bool, error: Option<XmlError>, rest: nat, ghost evs: seq<Event>)
      requires IsToken(e, State(InContent, tagStack), s, p, kind, next) && kind != CdataSectOpen
      requires
        var st := State(InContent, tagStack);
        && Ready(e, startTagLevel, st, s, p)
        && TurnAt(g, e, startTagLevel, st, s, p, open, final)
             == TokenTurn(g, e, startTagLevel, st, s, p, open, kind, next)
      requires Usable() && processor == InContent && LiteralBytes(e)
      requires startTagLevel == 0 ==> e == g.doc
      modifies this`processor, this`tagStack, this`tagLevel, this`open, this`pool, this`atts, this`events, atts
      ensures open == old(open) && (atts == old(atts) || fresh(atts))
      ensures error.None? ==> Usable()
      ensures
        && (!done ==> rest == next)
        && Goes(
             g, e, startTagLevel, s, open, final, Run(g, e, startTagLevel, State(InContent, old(tagStack)), s, p,
                 open, final),
             old(events), done, State(processor, tagStack), events, error, rest, evs)
      decreases g.dtd.entities.Keys - open, |s| - p, 1
    {
      ghost var st := State(InContent, tagStack);
      error, evs := TokenCases(e, startTagLevel, s, p, kind, next);
      DidRun(g, e, startTagLevel, st, s, p, open, final, kind, next, error, evs, tagStack);
      rest, done := next, error.Some?;
      if !done && tagLevel == 0 {
        done := true;
        ghost var tail := Run(g, e, startTagLevel, State(InEpilog, []), s, next, open, final);
        error, rest := EpilogProcessor(s, next, final);
        ReportedAfter(evs, tail, old(events), State(processor, tagStack), events, error, rest);
      }
    }

    /** XmlContentTok at `p`, and the round for its result. */
    method NextToken(e: Encoding, ghost startTagLevel: nat, s: bytes, p: nat, ghost final: bool) returns (tok: Lexeme)
      requires p <= |s| && Ready(e, startTagLevel, State(InContent, tagStack), s, p)
      ensures
        var st := State(InContent, tagStack);
        var t := TurnAt(g, e, startTagLevel, st, s, p, open, final);
        if tok.Token? then
          && IsToken(e, st, s, p, tok.kind, tok.next)
          && t == TokenTurn(g, e, startTagLevel, st, s, p, open, tok.kind, tok.next)
        else t == ContentStop(startTagLevel, st, tok, s[p..], p, final)
    {
      tok := ScanContent(e, s, p);
      if tok.Token? {
        TokenTurnAt(g, e, startTagLevel, State(InContent, tagStack), s, p, open, final, tok.kind, tok.next);
      } else {
        ContentStopTurn(g, e, startTagLevel, State(InContent, tagStack), s, p, open, final);
      }
    }

    /** The cases of doContent in which there is no token. */
    method ContentEnd(e: Encoding, startTagLevel: nat, tok: Lexeme, s: bytes, p: nat, final: bool)
      returns (error: Option<XmlError>, rest: nat)
      requires p <= |s| && !tok.Token?
      requires
        var st := State(InContent, tagStack);
        && startTagLevel <= |tagStack|
        && TurnAt(g, e, startTagLevel, st, s, p, open, final) == ContentStop(startTagLevel, st, tok, s[p..], p, final)
      requires processor == InContent && tagLevel == |tagStack| && startTagLevel <= tagLevel
      modifies this`events
      ensures
        Outcome(Run(g, e, startTagLevel, State(InContent, tagStack), s, p, open, final), old(events), error, rest)
    {
      ContentStopRun(g, e, startTagLevel, State(InContent, tagStack), s, p, open, final, tok);
      rest := p;
      if tok.Invalid? { return Some(InvalidToken), rest; }
      if !final { return None, rest; }
      if tok.Partial? { return Some(UnclosedToken), rest; }
      if tok.PartialChar? { return Some(CutOffChar), rest; }
      if tok.TrailingCr? {
        events := events + [Characters(NEWLINE)];
      } else if tok.TrailingRsqb? {
        events := events + [Characters(s[p..])];
      }
      if startTagLevel == 0 { return Some(NoElements), rest; }
      if tagLevel != startTagLevel { return Some(AsyncEntity), rest; }
      error := None;
    }

    method DoContent(e: Encoding, startTagLevel: nat, s: bytes, start: nat, final: bool)
      returns (error: Option<XmlError>, rest: nat)
      requires start <= |s| && Usable() && processor == InContent && LiteralBytes(e)
      requires Ready(e, startTagLevel, State(InContent, tagStack), s, start) && (startTagLevel == 0 ==> e == g.doc)
      modifies this`processor, this`tagStack, this`tagLevel, this`open, this`pool, this`atts, this`events, atts
      ensures open == old(open) && (atts == old(atts) || fresh(atts))
      ensures error.None? ==> Usable()
      ensures
        Outcome(
          Run(g, e, startTagLevel, State(InContent, old(tagStack)), s, start, open, final), old(events), error, rest)
      decreases g.dtd.entities.Keys - open, |s| - start, 3
    {
      var ptr := start;
      ghost var sofar := [];
      ghost var all := Run(g, e, startTagLevel, State(InContent, tagStack), s, start, open, final);
      AfterNothing(all);
      while true
        invariant start <= ptr <= |s| && Usable() && processor == InContent && events == old(events) + sofar
        invariant open == old(open) && (atts == old(atts) || fresh(atts))
        invariant Ready(e, startTagLevel, State(InContent, tagStack), s, ptr)
        invariant all == After(sofar, Run(g, e, startTagLevel, State(InContent, tagStack), s, ptr, open, final))
        decreases |s| - ptr
      {
        ghost var evs, here;
        here := Run(g, e, startTagLevel, State(InContent, tagStack), s, ptr, open, final);
        var done;
        done, error, rest, evs := ContentRound(e, startTagLevel, s, ptr, final);
        if done {
          ReportedAfter(sofar, here, old(events), State(processor, tagStack), events, error, rest);
          return;
        }
        AfterAfter(sofar, evs, Run(g, e, startTagLevel, State(InContent, tagStack), s, rest, open, final));
        AppendEvents(old(events), sofar, evs);
        sofar, ptr := sofar + evs, rest;
      }
    }

    /** One round of the loop of doContent: it ends the call, or content goes on at `rest`. */
    method ContentRound(e: Encoding, startTagLevel: nat, s: bytes, p: nat, final: bool)
      returns (done: bool, error: Option<XmlError>, rest: nat, ghost evs: seq<Event>)
      requires p <= |s| && Usable() && processor == InContent && LiteralBytes(e)
      requires Ready(e, startTagLevel, State(InContent, tagStack), s, p) && (startTagLevel == 0 ==> e == g.doc)
      modifies this`processor, this`tagStack, this`tagLevel, this`open, this`pool, this`atts, this`events, atts
      ensures open == old(open) && (atts == old(atts) || fresh(atts))
      ensures error.None? ==> Usable()
      ensures
        && (!done ==> p < rest)
        && Goes(
             g, e, startTagLevel, s, open, final, Run(g, e, startTagLevel, State(InContent, old(tagStack)), s, p,
                 open, final),
             old(events), done, State(processor, tagStack), events, error, rest, evs)
      decreases g.dtd.entities.Keys - open, |s| - p, 2
    {
      var tok := NextToken(e, startTagLevel, s, p, final);
      evs := [];
      if !tok.Token? {
        done := true;
        error, rest := ContentEnd(e, startTagLevel, tok, s, p, final);
      } else if tok.kind == CdataSectOpen {
        done, error, rest, evs := CdataRound(e, startTagLevel, s, p, tok.next, final);
      } else {
        done, error, rest, evs := TokenRound(e, startTagLevel, s, p, tok.kind, tok.next, final);
      }
    }

    /** XML_TOK_CDATA_SECT_OPEN: the section is read as far as it goes. */
    method CdataRound(e: Encoding, ghost startTagLevel: nat, s: bytes, p: nat, start: nat, final: bool)
      returns (done: bool, error: Option<XmlError>, rest: nat, ghost evs: seq<Event>)
      requires
        var st := State(InContent, tagStack);
        && IsToken(e, st, s, p, CdataSectOpen, start) && Ready(e, startTagLevel, st, s, p)
        && TurnAt(g, e, startTagLevel, st, s, p, open, final)
           == TokenTurn(g, e, startTagLevel, st, s, p, open, CdataSectOpen, start)
      requires Usable() && processor == InContent
      modifies this`processor, this`events
      ensures
        && (!done ==> p < rest)
        && Goes(
             g, e, startTagLevel, s, open, final, Run(g, e, startTagLevel, State(InContent, tagStack), s, p, open,
                 final),
             old(events), done, State(processor, tagStack), events, error, rest, evs)
    {
      ghost var st := State(InContent, tagStack);
      CdataOpenRun(g, e, startTagLevel, st, s, p, start, open, final);
      events := events + [StartCdata];
      var closed;
      error, closed, rest, evs := DoCdataSection(e, startTagLevel, s, start, final);
      done := !closed;
      AppendEvents(old(events), [StartCdata], evs);
      if closed {
        AfterAfter([StartCdata], evs, Run(g, e, startTagLevel, st, s, rest, open, final));
      } else {
        processor := InCdata;
      }
      evs := [StartCdata] + evs;
    }

    method CdataSectionProcessor(s: bytes, final: bool) returns (error: Option<XmlError>, rest: nat)
      requires Usable() && processor == InCdata && tagStack != []
      modifies this`processor, this`tagStack, this`tagLevel, this`open, this`pool, this`atts, this`events, atts
      ensures open == old(open) && (atts == old(atts) || fresh(atts))
      ensures error.None? ==> Usable()
      ensures Outcome(Run(g, g.doc, 0, State(InCdata, old(tagStack)), s, 0, open, final), old(events), error, rest)
    {
      var closed;
      ghost var evs;
      error, closed, rest, evs := DoCdataSection(g.doc, 0, s, 0, final);
      if closed {
        processor := InContent;
        ghost var tail := Run(g, g.doc, 0, State(InContent, tagStack), s, rest, open, final);
        error, rest := DoContent(g.doc, 0, s, rest, final);
        ReportedAfter(evs, tail, old(events), State(processor, tagStack), events, error, rest);
      }
    }

    /** The call of `processor`. */
    method Process(s: bytes, final: bool) returns (error: Option<XmlError>, rest: nat)
      requires Usable() && Ready(g.doc, 0, State(processor, tagStack), s, 0)
      modifies this`processor, this`tagStack, this`tagLevel, this`open, this`pool, this`atts, this`events, atts
      ensures open == old(open) && (atts == old(atts) || fresh(atts))
      ensures error.None? ==> Usable()
      ensures
        Outcome(Run(g, g.doc, 0, State(old(processor), old(tagStack)), s, 0, open, final), old(events), error, rest)
    {
      match processor {
        case InContent => error, rest := DoContent(g.doc, 0, s, 0, final);
        case InCdata => error, rest := CdataSectionProcessor(s, final);
        case InEpilog => error, rest := EpilogProcessor(s, 0, final);
      }
    }

    // -------------------------------------------------------------- the buffer

    ghost predicate Valid()
      reads this
    {
      Usable() && open == {} && bufferPtr <= bufferEnd <= buffer.Length
    }

    /** The bytes that have been handed in and not been used up. */
    ghost function Pending(): bytes
      reads this, buffer
      requires Valid()
    {
      buffer[bufferPtr..bufferEnd]
    }

    /** A parser at the start of the document element, where prologProcessor hands over to contentProcessor. */
    constructor (g: Grammar)
      requires LiteralBytes(g.doc) && LiteralBytes(g.internal)
      ensures Valid() && this.g == g && fresh(atts) && fresh(buffer)
      ensures processor == InContent && tagStack == [] && events == [] && Pending() == []
    {
      this.g := g;
      processor, tagStack, tagLevel, open, pool, events := InContent, [], 0, {}, [], [];
      atts := new Attribute[INIT_ATTS_SIZE];
      buffer := new byte[0];
      bufferPtr, bufferEnd := 0, 0;
    }

    /** XML_GetBuffer: room for `len` bytes after the pending ones, which move to the front or to a larger buffer. */
    method GetBuffer(len: nat)
      requires Valid()
      modifies this`buffer, this`bufferPtr, this`bufferEnd, buffer
      ensures Valid() && (buffer == old(buffer) || fresh(buffer))
      ensures len <= buffer.Length - bufferEnd
      ensures Pending() == old(Pending())
    {
      if len > buffer.Length - bufferEnd {
        ghost var pending := Pending();
        var pendingLen := bufferEnd - bufferPtr;
        var neededSize := len + pendingLen;
        if neededSize <= buffer.Length {
          forall i | 0 <= i < pendingLen {
            buffer[i] := buffer[bufferPtr + i];
          }
          assert buffer[..pendingLen] == pending;
        } else {
          var bufferSize := buffer.Length - bufferPtr;
          if bufferSize == 0 {
            bufferSize := INIT_BUFFER_SIZE;
          }
          bufferSize := Double(bufferSize, neededSize);
          var newBuf := new byte[bufferSize];
          forall i | 0 <= i < pendingLen {
            newBuf[i] := buffer[bufferPtr + i];
          }
          assert newBuf[..pendingLen] == pending;
          buffer := newBuf;
        }
        bufferPtr, bufferEnd := 0, pendingLen;
        assert buffer[bufferPtr..bufferEnd] == buffer[..pendingLen];
      }
    }

    /** do { size *= 2 } while (size < needed) */
    static method Double(start: nat, needed: nat) returns (size: nat)
      requires start > 0
      ensures size >= needed && size >= 2 * start
    {
      size := 2 * start;
      while size < needed
        invariant size >= 2 * start
        decreases needed - size
      {
        size := 2 * size;
      }
    }

    /** The state after a call, whose run is `r` on the bytes `all`. */
    ghost predicate Answers(r: Result, all: bytes, before: seq<Event>, error: Option<XmlError>)
      reads this, buffer
    {
      && Reported(r, before, State(processor, tagStack), events, error, if r.Paused? then r.rest else 0)
      && (error.None? ==> Valid())
      && (r.Paused? ==>
            && r.rest <= |all| && Pending() == all[r.rest..]
            && Ready(g.doc, 0, State(processor, tagStack), Pending(), 0))
    }

    /** XML_ParseBuffer, for `len` bytes that the client has put behind the pending ones. */
    method ParseBuffer(len: nat, final: bool) returns (error: Option<XmlError>)
      requires Valid() && len <= buffer.Length - bufferEnd
      requires Ready(g.doc, 0, State(processor, tagStack), buffer[bufferPtr..bufferEnd + len], 0)
      modifies this`processor, this`tagStack, this`tagLevel, this`open, this`pool, this`atts, this`events, atts
      modifies this`bufferPtr, this`bufferEnd
      ensures atts == old(atts) || fresh(atts)
      ensures
        var all := old(buffer[bufferPtr..bufferEnd + len]);
        Answers(
          Run(g, g.doc, 0, State(old(processor), old(tagStack)), all, 0, {}, final), all, old(events), error)
    {
      var start := bufferPtr;
      bufferEnd := bufferEnd + len;
      var all := buffer[start..bufferEnd];
      ghost var st := State(processor, tagStack);
      RunNests(g, g.doc, 0, st, all, 0, {}, final);
      var rest;
      error, rest := Process(all, final);
      if error.None? && !final {
        bufferPtr := start + rest;
        assert buffer[bufferPtr..bufferEnd] == all[rest..];
      }
    }

    /** XML_Parse with nothing pending: the processor works on the client's bytes, and only what it leaves is copied. */
    method ParseDirect(s: bytes, final: bool) returns (error: Option<XmlError>)
      requires Valid() && bufferPtr == bufferEnd && Ready(g.doc, 0, State(processor, tagStack), s, 0)
      modifies this, buffer, atts
      ensures (atts == old(atts) || fresh(atts)) && (buffer == old(buffer) || fresh(buffer))
      ensures
        Answers(Run(g, g.doc, 0, State(old(processor), old(tagStack)), s, 0, {}, final), s, old(events), error)
    {
      ghost var st := State(processor, tagStack);
      RunNests(g, g.doc, 0, st, s, 0, {}, final);
      var rest;
      error, rest := Process(s, final);
      if error.Some? || final { return; }
      var nLeftOver := |s| - rest;
      if nLeftOver != 0 {
        if nLeftOver > buffer.Length {
          buffer := new byte[2 * |s|];
        }
        forall i | 0 <= i < nLeftOver {
          buffer[i] := s[rest + i];
        }
        bufferPtr, bufferEnd := 0, nLeftOver;
        assert buffer[0..nLeftOver] == s[rest..];
      }
    }

    /** XML_Parse. */
    method Parse(s: bytes, final: bool) returns (error: Option<XmlError>)
      requires Valid() && Ready(g.doc, 0, State(processor, tagStack), Pending() + s, 0)
      modifies this, buffer, atts
      ensures (atts == old(atts) || fresh(atts)) && (buffer == old(buffer) || fresh(buffer))
      ensures
        s == [] && !final ==>
          error == None && Valid() && State(processor, tagStack) == State(old(processor), old(tagStack))
          && Pending() == old(Pending()) && events == old(events)
      ensures
        s != [] || final ==>
          Answers(
            Feed(g, State(old(processor), old(tagStack)), old(Pending()), s, final), old(Pending()) + s,
                old(events), error)
    {
      if |s| == 0 {
        if !final { return None; }
        assert Pending() + s == Pending() && buffer[bufferPtr..bufferEnd + 0] == Pending();
        error := ParseBuffer(0, true);
      } else if bufferPtr == bufferEnd {
        assert Pending() + s == s;
        error := ParseDirect(s, final);
      } else {
        ghost var all := Pending() + s;
        GetBuffer(|s|);
        var at := bufferEnd;
        ghost var pending := Pending();
        forall i | 0 <= i < |s| {
          buffer[at + i] := s[i];
        }
        assert buffer[bufferPtr..bufferEnd] == pending;
        assert buffer[bufferPtr..bufferEnd + |s|] == all;
        error := ParseBuffer(|s|, final);
      }
    }
  }

  /** The next chunk is big enough for prologTok to have seen that the document element starts. */
  ghost predicate Begun(e: Encoding, st: State, left: bytes, chunks: seq<bytes>, last: bytes) {
    Ready(e, 0, st, left + (if chunks == [] then last else chunks[0]), 0)
  }

  /** What all calls together report is what one call would, up to how character data is cut. */
  ghost predicate ReportedAll(
    whole: Result, before: seq<Event>, st: State, events: seq<Event>, error: Option<XmlError>)
  {
    if error.Some? then whole == Failed(error.value)
    else whole.Done? && st == whole.st && exists evs :: events == before + evs && Merge(evs) == Merge(whole.evs)
  }

  lemma ReportsAll(
    all: Result, whole: Result, before: seq<Event>, st: State, events: seq<Event>, error: Option<XmlError>)
    requires Alike(all, whole) && !all.Paused?
    requires Reported(all, before, st, events, error, 0)
    ensures ReportedAll(whole, before, st, events, error)
  {
  }

  /**
    A client that hands in `chunks`, as long as there is no error, and then `last`.
    It gets what one call with the whole text gives, up to how character data is cut.
   */
  method ParseChunks(parser: Parser, chunks: seq<bytes>, last: bytes) returns (error: Option<XmlError>)
    requires parser.Valid()
        && Begun(parser.g.doc, State(parser.processor, parser.tagStack), parser.Pending(), chunks, last)
    modifies parser, parser.buffer, parser.atts
    ensures
      ReportedAll(
        Feed(
          parser.g, State(old(parser.processor), old(parser.tagStack)), old(parser.Pending()),
              Joined(chunks) + last, true),
        old(parser.events), State(parser.processor, parser.tagStack), parser.events, error)
  {
    ghost var g, st0, left, before := parser.g, State(parser.processor, parser.tagStack), parser.Pending(),
        parser.events;
    ghost var all, sofar := ParseAll(g, st0, left, chunks, last), [];
    ghost var whole := Feed(g, st0, left, Joined(chunks) + last, true);
    ChunkIndependence(g, st0, left, chunks, last);
    DocumentEnds(g, st0, left, chunks, last);
    AfterNothing(all);
    var i := 0;
    assert chunks[0..] == chunks;
    while i < |chunks|
      invariant i <= |chunks| && parser.Valid()
      invariant parser.buffer == old(parser.buffer) || fresh(parser.buffer)
      invariant parser.atts == old(parser.atts) || fresh(parser.atts)
      invariant Begun(g.doc, State(parser.processor, parser.tagStack), parser.Pending(), chunks[i..], last)
      invariant parser.events == before + sofar
      invariant all
             == After(sofar, ParseAll(g, State(parser.processor, parser.tagStack), parser.Pending(), chunks[i..], last))
      decreases |chunks| - i
    {
      ghost var st, pending := State(parser.processor, parser.tagStack), parser.Pending();
      ghost var r := Feed(g, st, pending, chunks[i], false);
      assert chunks[i..][0] == chunks[i] && chunks[i..][1..] == chunks[i + 1..];
      error := parser.Parse(chunks[i], false);
      if error.Some? {
        return;
      }
      if chunks[i] != [] {
        ghost var tail :=
          ParseAll(g, State(parser.processor, parser.tagStack), parser.Pending(), chunks[i + 1..], last);
        AfterAfter(sofar, r.evs, tail);
        AppendEvents(before, sofar, r.evs);
        sofar := sofar + r.evs;
      }
      i := i + 1;
    }
    ghost var tail := ParseAll(g, State(parser.processor, parser.tagStack), parser.Pending(), chunks[i..], last);
    error := parser.Parse(last, true);
    ReportedAfter(sofar, tail, before, State(parser.processor, parser.tagStack), parser.events, error, 0);
    ReportsAll(all, whole, before, State(parser.processor, parser.tagStack), parser.events, error);
  }

  lemma {:induction false} DocumentEnds(g: Grammar, st: State, left: bytes, chunks: seq<bytes>, last: bytes)
    ensures !ParseAll(g, st, left, chunks, last).Paused?
    decreases |chunks|
  {
    if chunks != [] {
      if chunks[0] == [] {
        DocumentEnds(g, st, left, chunks[1..], last);
      } else {
        match Feed(g, st, left, chunks[0], false)
        case Paused(st', rest, evs) => DocumentEnds(g, st', (left + chunks[0])[rest..], chunks[1..], last);
        case _ =>
      }
    }
  }
}
