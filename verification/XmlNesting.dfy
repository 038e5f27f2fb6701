/**
  The events of a run are well nested: they can be replayed on a stack of names,
  which is the tag stack of the parser at every point where it stops.
 */
module XmlNesting {
  import opened Bytes
  import opened Wrappers
  import opened XmlTok
  import opened XmlDtd
  import opened XmlAtts
  import opened XmlAttValue
  import opened XmlParse
  import opened XmlTurnLaws
  import opened XmlChunks

  // ---------------------------------------------------------------- the replay of events

  /**
    A reader of events that only knows what may follow what. With no element
    open in content it waits for the document element; `floor` elements are not
    its own and may not be ended.
   */
  function Replay1(floor: nat, st: State, ev: Event): Option<State> {
    match st.mode
    case InContent =>
      if ev.StartElement? then Some(State(InContent, [ev.name] + st.tags))
      else if st.tags == [] then None
      else if ev.EndElement? then
        if |st.tags| > floor && ev.name == st.tags[0] then Some(AfterElement(st.tags[1..])) else None
      else if ev.StartCdata? then Some(State(InCdata, st.tags))
      else if ev.EndCdata? then None
      else Some(st)
    case InCdata =>
      if ev.Characters? then Some(st)
      else if ev.EndCdata? then Some(State(InContent, st.tags))
      else None
    case InEpilog =>
      if ev.ProcessingInstruction? || ev.CommentText? then Some(st) else None
  }

  function Replay(floor: nat, st: State, evs: seq<Event>): Option<State>
    decreases |evs|
  {
    if evs == [] then Some(st)
    else
      match Replay1(floor, st, evs[0])
      case None => None
      case Some(st') => Replay(floor, st', evs[1..])
  }

  lemma {:induction false} ReplayAppend(floor: nat, st: State, a: seq<Event>, b: seq<Event>)
    requires Replay(floor, st, a).Some?
    ensures Replay(floor, st, a + b) == Replay(floor, Replay(floor, st, a).value, b)
    decreases |a|
  {
    if a == [] {
      assert a + b == b;
    } else {
      assert (a + b)[1..] == a[1..] + b;
      ReplayAppend(floor, Replay1(floor, st, a[0]).value, a[1..], b);
    }
  }

  /** The `floor` outermost names. */
  function Base(floor: nat, tags: seq<bytes>): seq<bytes>
    requires floor <= |tags|
  {
    tags[|tags| - floor..]
  }

  lemma BaseBelow(floor: nat, name: bytes, tags: seq<bytes>)
    requires floor <= |tags|
    ensures Base(floor, [name] + tags) == Base(floor, tags)
  {
  }

  lemma Replay1Keeps(floor: nat, st: State, ev: Event)
    requires floor <= |st.tags| && Replay1(floor, st, ev).Some?
    ensures
      var st' := Replay1(floor, st, ev).value;
      floor <= |st'.tags| && Base(floor, st'.tags) == Base(floor, st.tags)
  {
    if ev.StartElement? {
      BaseBelow(floor, ev.name, st.tags);
    } else if ev.EndElement? {
      BaseBelow(floor, st.tags[0], st.tags[1..]);
      assert [st.tags[0]] + st.tags[1..] == st.tags;
    }
  }

  /** A replay leaves the elements that are not its own. */
  lemma {:induction false} ReplayKeeps(floor: nat, st: State, evs: seq<Event>)
    requires floor <= |st.tags| && Replay(floor, st, evs).Some?
    ensures
      var st' := Replay(floor, st, evs).value;
      floor <= |st'.tags| && Base(floor, st'.tags) == Base(floor, st.tags)
    decreases |evs|
  {
    if evs != [] {
      Replay1Keeps(floor, st, evs[0]);
      ReplayKeeps(floor, Replay1(floor, st, evs[0]).value, evs[1..]);
    }
  }

  /** With a lower floor the same events can be replayed. */
  lemma {:induction false} ReplayLower(floor: nat, floor': nat, st: State, evs: seq<Event>)
    requires floor' <= floor && Replay(floor, st, evs).Some?
    ensures Replay(floor', st, evs) == Replay(floor, st, evs)
    decreases |evs|
  {
    if evs != [] {
      ReplayLower(floor, floor', Replay1(floor, st, evs[0]).value, evs[1..]);
    }
  }

  // ---------------------------------------------------------------- runs

  /** The mode fits the tag stack, and where the document element is expected, its start tag is in the buffer. */
  predicate Ready(e: Encoding, start: nat, st: State, s: bytes, p: nat) {
    && start <= |st.tags|
    && (st.mode == InEpilog ==> st.tags == [])
    && (st.mode == InCdata ==> st.tags != [])
    && (st.mode == InContent && st.tags == [] ==>
          p + 1 < |s| && e.cls(s[p]) == BT_LT && StartsInstance(e.cls(s[p + 1])))
  }

  /** The state at the end of a text: the document is complete, or the entity has closed its own elements. */
  predicate Complete(start: nat, st: State) {
    if start == 0 then st == State(InEpilog, []) else st.mode == InContent && |st.tags| == start
  }

  /** What the round `t` does to the tag stack is what its events say. */
  ghost predicate TurnNests(g: Grammar, e: Encoding, start: nat, st: State, s: bytes, p: nat, t: Turn) {
    match t
    case Advance(to, st', evs) => Replay(start, st, evs) == Some(st') && Ready(e, start, st', s, to)
    case Suspend(rest) => Ready(e, start, st, s, rest)
    case Finish(evs) => Replay(start, st, evs) == Some(st) && Complete(start, st)
    case Break(_) => true
  }

  lemma Replay2(floor: nat, st: State, a: Event, b: Event)
    requires Replay1(floor, st, a).Some?
    ensures Replay(floor, st, [a]) == Replay1(floor, st, a)
    ensures Replay(floor, st, [a, b]) == Replay1(floor, Replay1(floor, st, a).value, b)
  {
    assert [a, b][1..] == [b] && [a][1..] == [] && [b][1..] == [];
    var st' := Replay1(floor, st, a).value;
    assert Replay(floor, st', [b]) == Replay1(floor, st', b);
  }

  lemma ElementTurnNests(
    g: Grammar, e: Encoding, start: nat, st: State, s: bytes, p: nat, name: bytes, stored: Outcome<seq<(bytes, bytes)>>,
    kind: Kind, next: nat)
    requires st.mode == InContent && Ready(e, start, st, s, p)
    ensures TurnNests(g, e, start, st, s, p, ElementTurn(st, name, stored, kind, next))
  {
    var t := ElementTurn(st, name, stored, kind, next);
    if t.Advance? {
      Replay2(start, st, t.evs[0], EndElement(name));
      assert ([name] + st.tags)[1..] == st.tags;
    }
  }

  lemma PlainTurnNests(g: Grammar, e: Encoding, start: nat, st: State, s: bytes, p: nat, kind: Kind, next: nat)
    requires p < next <= |s| && st.mode == InContent && st.tags != [] && start <= |st.tags|
    ensures TurnNests(g, e, start, st, s, p, PlainTurn(st, s, p, kind, next))
  {
    var t := PlainTurn(st, s, p, kind, next);
    if t.Advance? && t.evs != [] {
      Replay2(start, st, t.evs[0], t.evs[0]);
    }
  }

  lemma EntityTurnNests(
    g: Grammar, e: Encoding, start: nat, st: State, s: bytes, p: nat, open: set<bytes>, name: bytes, next: nat)
    requires p < next <= |s| && st.mode == InContent && st.tags != [] && start <= |st.tags|
    ensures TurnNests(g, e, start, st, s, p, EntityTurn(g, st, name, next, open))
    decreases g.dtd.entities.Keys - open, 0, 1
  {
    if Predefined(name).Some? {
      var ev := Characters([Predefined(name).value]);
      Replay2(start, st, ev, ev);
    } else if name in g.dtd.entities && name !in open && g.dtd.entities[name].Internal? {
      var text := g.dtd.entities[name].text;
      EntityIsBalanced(g, st.tags, name, text, open);
      var r := Expansion(g, st.tags, name, text, open);
      if r.Done? {
        ReplayLower(|st.tags|, start, st, r.evs);
      }
    }
  }

  lemma EndTagTurnNests(g: Grammar, e: Encoding, start: nat, st: State, s: bytes, p: nat, next: nat)
    requires p < next <= |s| && st.mode == InContent && st.tags != [] && start <= |st.tags|
    ensures TurnNests(g, e, start, st, s, p, EndTagTurn(e, start, st, s, p, next))
  {
    var t := EndTagTurn(e, start, st, s, p, next);
    if t.Advance? {
      Replay2(start, st, t.evs[0], t.evs[0]);
    }
  }

  lemma EndOfTextNests(g: Grammar, e: Encoding, start: nat, st: State, s: bytes, p: nat, evs: seq<Event>)
    requires st.mode == InContent && start <= |st.tags|
    requires evs == [] || (|evs| == 1 && evs[0].Characters?)
    ensures TurnNests(g, e, start, st, s, p, EndOfText(start, st, evs))
  {
    if start != 0 && evs != [] {
      Replay2(start, st, evs[0], evs[0]);
      assert evs == [evs[0]];
    }
  }

  lemma ContentTurnNests(
    g: Grammar, e: Encoding, start: nat, st: State, s: bytes, p: nat, open: set<bytes>, final: bool)
    requires p <= |s| && st.mode == InContent && Ready(e, start, st, s, p)
    ensures TurnNests(g, e, start, st, s, p, ContentTurn(g, e, start, st, s, p, open, final))
    decreases g.dtd.entities.Keys - open, |s| - p, 1
  {
    var tok := ContentTok(e, s, p);
    if tok.Token? {
      ContentTokenTurn(g, e, start, st, s, p, open, final, tok.kind, tok.next);
      if IsStartTag(tok.kind) {
        var name := s[p + 1..NameEnd(e, s, p)];
        var stored := StoreAtts(g, e, name, s, TagAtts(e, s, p), open);
        ElementTurnNests(g, e, start, st, s, p, name, stored, tok.kind, tok.next);
      } else if tok.kind == EndTag {
        EndTagTurnNests(g, e, start, st, s, p, tok.next);
      } else if tok.kind == EntityRef {
        EntityTurnNests(g, e, start, st, s, p, open, RefName(s, p, tok.next), tok.next);
      } else {
        PlainTurnNests(g, e, start, st, s, p, tok.kind, tok.next);
      }
    } else {
      ContentStopTurn(g, e, start, st, s, p, open, final);
      EndOfTextNests(g, e, start, st, s, p, [Characters(NEWLINE)]);
      EndOfTextNests(g, e, start, st, s, p, []);
      EndOfTextNests(g, e, start, st, s, p, [Characters(s[p..])]);
    }
  }

  lemma CdataTurnNests(g: Grammar, e: Encoding, start: nat, st: State, s: bytes, p: nat, final: bool)
    requires p <= |s| && st.mode == InCdata && Ready(e, start, st, s, p)
    ensures TurnNests(g, e, start, st, s, p, CdataTurn(e, st, s, p, final))
  {
    var t := CdataTurn(e, st, s, p, final);
    if t.Advance? {
      Replay2(start, st, t.evs[0], t.evs[0]);
    }
  }

  lemma EpilogTurnNests(g: Grammar, e: Encoding, start: nat, st: State, s: bytes, p: nat, final: bool)
    requires p <= |s| && st.mode == InEpilog && Ready(e, start, st, s, p)
    ensures TurnNests(g, e, start, st, s, p, EpilogTurn(e, st, s, p, final))
  {
    var t := EpilogTurn(e, st, s, p, final);
    if t.Advance? && t.evs != [] {
      Replay2(start, st, t.evs[0], t.evs[0]);
    }
  }

  lemma TurnAtNests(g: Grammar, e: Encoding, start: nat, st: State, s: bytes, p: nat, open: set<bytes>, final: bool)
    requires p <= |s| && Ready(e, start, st, s, p)
    ensures TurnNests(g, e, start, st, s, p, TurnAt(g, e, start, st, s, p, open, final))
    decreases g.dtd.entities.Keys - open, |s| - p, 2
  {
    match st.mode {
      case InContent => ContentTurnNests(g, e, start, st, s, p, open, final);
      case InCdata => CdataTurnNests(g, e, start, st, s, p, final);
      case InEpilog => EpilogTurnNests(g, e, start, st, s, p, final);
    }
  }

  /** What a run does to the tag stack is what its events say. */
  ghost predicate Nests(e: Encoding, start: nat, st: State, s: bytes, r: Result) {
    match r
    case Paused(st', rest, evs) => Replay(start, st, evs) == Some(st') && Ready(e, start, st', s, rest)
    case Done(st', evs) => Replay(start, st, evs) == Some(st') && Complete(start, st')
    case Failed(_) => true
  }

  lemma NestsAfter(e: Encoding, start: nat, st: State, st': State, s: bytes, evs: seq<Event>, r: Result)
    requires Replay(start, st, evs) == Some(st') && Nests(e, start, st', s, r)
    ensures Nests(e, start, st, s, After(evs, r))
  {
    if !r.Failed? {
      ReplayAppend(start, st, evs, r.evs);
    }
  }

  /**
    Well-nestedness. In every run, from wherever it starts, the events replay to
    the tag stack with which it stops; a document that is accepted has exactly
    one element at the outside, and all elements are ended by their own names.
   */
  lemma {:induction false} RunNests(
    g: Grammar, e: Encoding, start: nat, st: State, s: bytes, p: nat, open: set<bytes>, final: bool)
    requires p <= |s| && Ready(e, start, st, s, p)
    ensures Nests(e, start, st, s, Run(g, e, start, st, s, p, open, final))
    decreases g.dtd.entities.Keys - open, |s| - p, 3
  {
    TurnAtNests(g, e, start, st, s, p, open, final);
    ContinueNests(g, e, start, st, s, p, open, final, TurnAt(g, e, start, st, s, p, open, final));
  }

  lemma {:induction false} ContinueNests(
    g: Grammar, e: Encoding, start: nat, st: State, s: bytes, p: nat, open: set<bytes>, final: bool, t: Turn)
    requires p <= |s| && start <= |st.tags| && Sound(start, s, p, final, t)
    requires TurnNests(g, e, start, st, s, p, t)
    ensures Nests(e, start, st, s, Continue(g, e, start, st, s, p, open, final, t))
    decreases g.dtd.entities.Keys - open, |s| - p, 2
  {
    match t
    case Advance(to, st', evs) =>
      RunNests(g, e, start, st', s, to, open, final);
      NestsAfter(e, start, st, st', s, evs, Run(g, e, start, st', s, to, open, final));
    case _ =>
  }

  /**
    The replacement text of an entity that is expanded in content is balanced on
    its own: it ends no element that it has not started, and ends all it starts.
   */
  lemma {:induction false} EntityIsBalanced(g: Grammar, tags: seq<bytes>, name: bytes, text: bytes, open: set<bytes>)
    requires name in g.dtd.entities && name !in open && tags != []
    ensures
      var st := State(InContent, tags);
      var r := Expansion(g, tags, name, text, open);
      r.Done? ==> r.st == st && Replay(|tags|, st, r.evs) == Some(st)
    decreases g.dtd.entities.Keys - open, 0, 0
  {
    var st := State(InContent, tags);
    RunNests(g, g.internal, |tags|, st, text, 0, open + {name}, true);
    var r := Expansion(g, tags, name, text, open);
    if r.Done? {
      ReplayKeeps(|tags|, st, r.evs);
      assert r.st.tags == Base(|tags|, r.st.tags) && tags == Base(|tags|, tags);
    }
  }

  /** One call of the parser keeps what the next call needs. */
  lemma FeedNests(g: Grammar, st: State, left: bytes, chunk: bytes, final: bool)
    requires Ready(g.doc, 0, st, left + chunk, 0)
    ensures
      var r := Feed(g, st, left, chunk, final);
      && (r.Paused? ==> Replay(0, st, r.evs) == Some(r.st) && Ready(g.doc, 0, r.st, (left + chunk)[r.rest..], 0))
      && (r.Done? ==> Replay(0, st, r.evs) == Some(State(InEpilog, [])))
  {
    RunNests(g, g.doc, 0, st, left + chunk, 0, {}, final);
  }

  /**
    The events of all calls together, in the order in which they were made, are
    those of one document: one element, and what is allowed after it.
   */
  lemma {:induction false} DocumentNests(g: Grammar, st: State, left: bytes, chunks: seq<bytes>, last: bytes)
    requires Ready(g.doc, 0, st, left, 0)
    ensures
      var r := ParseAll(g, st, left, chunks, last);
      && !r.Paused?
      && (r.Done? ==> Replay(0, st, r.evs) == Some(State(InEpilog, [])))
    decreases |chunks|
  {
    if chunks == [] {
      FeedNests(g, st, left, last, true);
    } else if chunks[0] == [] {
      DocumentNests(g, st, left, chunks[1..], last);
    } else {
      FeedNests(g, st, left, chunks[0], false);
      match Feed(g, st, left, chunks[0], false)
      case Paused(st', rest, evs) =>
        var left' := (left + chunks[0])[rest..];
        DocumentNests(g, st', left', chunks[1..], last);
        var r := ParseAll(g, st', left', chunks[1..], last);
        if r.Done? {
          ReplayAppend(0, st, evs, r.evs);
        }
      case _ =>
    }
  }
}
