/**
  Chunk independence: however a document is cut into the buffers of several
  calls, content parsing has the same outcome as on the whole document.
 */
module XmlChunks {
  import opened Bytes
  import opened XmlTok
  import opened XmlTokLaws
  import opened XmlDtd
  import opened XmlAtts
  import opened XmlAttValue
  import opened XmlParse
  import opened XmlTurnLaws

  // ---------------------------------------------------------------- merged events

  /** `ev` before merged events. */
  function Put(ev: Event, l: seq<Event>): seq<Event> {
    if ev.Characters? && l != [] && l[0].Characters? then [Characters(ev.data + l[0].data)] + l[1..] else [ev] + l
  }

  /** The events with adjacent character data joined. */
  function Merge(l: seq<Event>): seq<Event> {
    if l == [] then [] else Put(l[0], Merge(l[1..]))
  }

  lemma {:induction false} MergeAfter(a: seq<Event>, b: seq<Event>, b': seq<Event>)
    requires Merge(b) == Merge(b')
    ensures Merge(a + b) == Merge(a + b')
  {
    if a == [] {
      assert a + b == b && a + b' == b';
    } else {
      MergeAfter(a[1..], b, b');
      assert (a + b)[1..] == a[1..] + b && (a + b')[1..] == a[1..] + b';
    }
  }

  /** Character data reported in two pieces is the same as in one. */
  lemma MergeJoin(x: bytes, y: bytes, l: seq<Event>)
    ensures Merge([Characters(x)] + ([Characters(y)] + l)) == Merge([Characters(x + y)] + l)
  {
    var m := Merge(l);
    assert ([Characters(y)] + l)[1..] == l && ([Characters(x + y)] + l)[1..] == l;
    assert ([Characters(x)] + ([Characters(y)] + l))[1..] == [Characters(y)] + l;
    if m != [] && m[0].Characters? {
      assert (x + y) + m[0].data == x + (y + m[0].data);
    }
  }

  /** Two results that a client cannot tell apart, except by how character data was cut. */
  ghost predicate Alike(r: Result, r': Result) {
    match r
    case Failed(error) => r' == Failed(error)
    case Done(st, evs) => r'.Done? && r'.st == st && Merge(evs) == Merge(r'.evs)
    case Paused(st, rest, evs) => r'.Paused? && r'.st == st && r'.rest == rest && Merge(evs) == Merge(r'.evs)
  }

  lemma AfterAlike(evs: seq<Event>, r: Result, r': Result)
    requires Alike(r, r')
    ensures Alike(After(evs, r), After(evs, r'))
  {
    if !r.Failed? {
      MergeAfter(evs, r.evs, r'.evs);
    }
  }

  lemma AfterAfter(a: seq<Event>, b: seq<Event>, r: Result)
    ensures After(a, After(b, r)) == After(a + b, r)
  {
    if !r.Failed? {
      assert a + (b + r.evs) == (a + b) + r.evs;
    }
  }

  lemma AfterNothing(r: Result)
    ensures After([], r) == r
  {
    if !r.Failed? {
      assert [] + r.evs == r.evs;
    }
  }

  lemma AfterJoin(x: bytes, y: bytes, r: Result)
    ensures Alike(After([Characters(x)], After([Characters(y)], r)), After([Characters(x + y)], r))
  {
    if !r.Failed? {
      MergeJoin(x, y, r.evs);
    }
  }

  // ---------------------------------------------------------------- character data that was cut

  /** A run at `p` that does the same as reporting `evs` and running on at `to`. */
  ghost predicate Joins(
    g: Grammar, e: Encoding, start: nat, st: State, u: bytes, p: nat, to: nat, evs: seq<Event>, open: set<bytes>,
    final: bool)
    requires p <= |u| && to <= |u| && start <= |st.tags|
  {
    Alike(After(evs, Run(g, e, start, st, u, to, open, final)), Run(g, e, start, st, u, p, open, final))
  }

  lemma RunAdvances(
    g: Grammar, e: Encoding, start: nat, st: State, u: bytes, p: nat, open: set<bytes>, final: bool,
    to: nat, st': State, evs: seq<Event>)
    requires p <= |u| && start <= |st.tags| && TurnAt(g, e, start, st, u, p, open, final) == Advance(to, st', evs)
    ensures p < to <= |u| && start <= |st'.tags|
    ensures Run(g, e, start, st, u, p, open, final) == After(evs, Run(g, e, start, st', u, to, open, final))
  {
  }

  lemma JoinsSplit(
    g: Grammar, e: Encoding, start: nat, st: State, u: bytes, p: nat, to: nat, next: nat, open: set<bytes>, final: bool)
    requires p < to < next <= |u| && start <= |st.tags|
    requires TurnAt(g, e, start, st, u, p, open, final) == Advance(next, st, [Characters(u[p..next])])
    requires TurnAt(g, e, start, st, u, to, open, final) == Advance(next, st, [Characters(u[to..next])])
    ensures Joins(g, e, start, st, u, p, to, [Characters(u[p..to])], open, final)
  {
    RunAdvances(g, e, start, st, u, p, open, final, next, st, [Characters(u[p..next])]);
    RunAdvances(g, e, start, st, u, to, open, final, next, st, [Characters(u[to..next])]);
    AfterJoin(u[p..to], u[to..next], Run(g, e, start, st, u, next, open, final));
    assert u[p..to] + u[to..next] == u[p..next];
  }

  lemma ContentDataTurn(g: Grammar, e: Encoding, start: nat, st: State, u: bytes, p: nat, open: set<bytes>, final: bool)
    requires p <= |u| && start <= |st.tags| && st.mode == InContent
    requires ContentTok(e, u, p).Token? && ContentTok(e, u, p).kind == DataChars
    ensures
      var next := ContentTok(e, u, p).next;
      TurnAt(g, e, start, st, u, p, open, final) == Advance(next, st, [Characters(u[p..next])])
  {
    ContentTokenTurn(g, e, start, st, u, p, open, final, ContentTok(e, u, p).kind, ContentTok(e, u, p).next);
  }

  lemma ContentInvalidRun(g: Grammar, e: Encoding, start: nat, st: State, u: bytes, p: nat, open: set<bytes>,
      final: bool)
    requires p <= |u| && start <= |st.tags| && st.mode == InContent && ContentTok(e, u, p).Invalid?
    ensures Run(g, e, start, st, u, p, open, final) == Failed(InvalidToken)
  {
    ContentStopTurn(g, e, start, st, u, p, open, final);
    assert TurnAt(g, e, start, st, u, p, open, final) == Break(InvalidToken);
  }

  /** Character data of content may be cut anywhere between two characters. */
  lemma ContentDataJoins(
    g: Grammar, e: Encoding, start: nat, st: State, u: bytes, p: nat, to: nat, open: set<bytes>, final: bool)
    requires p < to <= |u| && start <= |st.tags| && st.mode == InContent
    requires ContentTok(e, u, p) == DataTok(e, u, to)
    ensures Joins(g, e, start, st, u, p, to, [Characters(u[p..to])], open, final)
  {
    DataResumes(e, u, to);
    var tok := ContentTok(e, u, p);
    if !tok.Token? {
      DataStops(e, u, to);
      ContentInvalidRun(g, e, start, st, u, p, open, final);
      ContentInvalidRun(g, e, start, st, u, to, open, final);
    } else {
      ContentDataTurn(g, e, start, st, u, p, open, final);
      if tok.next == to {
        RunAdvances(g, e, start, st, u, p, open, final, to, st, [Characters(u[p..to])]);
      } else {
        ContentDataTurn(g, e, start, st, u, to, open, final);
        JoinsSplit(g, e, start, st, u, p, to, tok.next, open, final);
      }
    }
  }

  lemma CdataDataTurn(g: Grammar, e: Encoding, start: nat, st: State, u: bytes, p: nat, open: set<bytes>, final: bool)
    requires p <= |u| && start <= |st.tags| && st.mode == InCdata
    requires CdataSectionTok(e, u, p).Token? && CdataSectionTok(e, u, p).kind == DataChars
    ensures
      var next := CdataSectionTok(e, u, p).next;
      TurnAt(g, e, start, st, u, p, open, final) == Advance(next, st, [Characters(u[p..next])])
  {
  }

  /** The same in a CDATA section. */
  lemma CdataDataJoins(
    g: Grammar, e: Encoding, start: nat, st: State, u: bytes, p: nat, to: nat, open: set<bytes>, final: bool)
    requires p < to <= |u| && start <= |st.tags| && st.mode == InCdata
    requires CdataSectionTok(e, u, p) == CdataDataTok(e, u, to)
    ensures Joins(g, e, start, st, u, p, to, [Characters(u[p..to])], open, final)
  {
    CdataDataResumes(e, u, to);
    var next := CdataSectionTok(e, u, p).next;
    CdataDataTurn(g, e, start, st, u, p, open, final);
    if next == to {
      RunAdvances(g, e, start, st, u, p, open, final, to, st, [Characters(u[p..to])]);
    } else {
      CdataDataTurn(g, e, start, st, u, to, open, final);
      JoinsSplit(g, e, start, st, u, p, to, next, open, final);
    }
  }

  lemma EpilogSpaceTurn(g: Grammar, e: Encoding, start: nat, st: State, u: bytes, p: nat, open: set<bytes>, final: bool)
    requires p <= |u| && start <= |st.tags| && st.mode == InEpilog
    requires PrologTok(e, u, p).Token? && PrologTok(e, u, p).kind == PrologS
    ensures TurnAt(g, e, start, st, u, p, open, final) == Advance(PrologTok(e, u, p).next, st, [])
  {
  }

  /** White space after the document element may be cut anywhere. */
  lemma EpilogSpaceJoins(
    g: Grammar, e: Encoding, start: nat, st: State, u: bytes, p: nat, to: nat, open: set<bytes>, final: bool)
    requires p < to <= |u| && start <= |st.tags| && st.mode == InEpilog
    requires PrologTok(e, u, p) == Token(PrologS, PrologSpaceEnd(e, u, to))
    ensures Joins(g, e, start, st, u, p, to, [], open, final)
  {
    var next := PrologSpaceEnd(e, u, to);
    EpilogSpaceTurn(g, e, start, st, u, p, open, final);
    RunAdvances(g, e, start, st, u, p, open, final, next, st, []);
    AfterNothing(Run(g, e, start, st, u, next, open, final));
    AfterNothing(Run(g, e, start, st, u, to, open, final));
    if next != to {
      PrologSpaceResumes(e, u, to);
      EpilogSpaceTurn(g, e, start, st, u, to, open, final);
      RunAdvances(g, e, start, st, u, to, open, final, next, st, []);
    }
  }

  // ---------------------------------------------------------------- a round on the first part of a buffer

  /**
    What a non-final round at `p` on the first part of `u` means for a run on all
    of `u`: the round is the same, or it is joined with what follows.
   */
  ghost predicate RoundSplits(
    g: Grammar, e: Encoding, start: nat, st: State, u: bytes, p: nat, open: set<bytes>, final: bool, t: Turn)
    requires p <= |u| && start <= |st.tags|
  {
    if t.Suspend? then t.rest <= |u| && Joins(g, e, start, st, u, p, t.rest, [], open, final)
    else
      || TurnAt(g, e, start, st, u, p, open, final) == t
      || (t.Advance? && t.st == st && t.to <= |u| && Joins(g, e, start, st, u, p, t.to, t.evs, open, final))
  }

  lemma JoinsHere(g: Grammar, e: Encoding, start: nat, st: State, u: bytes, p: nat, open: set<bytes>, final: bool)
    requires p <= |u| && start <= |st.tags|
    ensures Joins(g, e, start, st, u, p, p, [], open, final)
  {
    AfterNothing(Run(g, e, start, st, u, p, open, final));
  }

  lemma ShiftTurnByNothing(t: Turn)
    ensures ShiftTurn(t, 0) == t
  {
  }

  lemma ContentDataSplits(
    g: Grammar, e: Encoding, start: nat, st: State, a: bytes, u: bytes, p: nat, open: set<bytes>, final: bool)
    requires a <= u && p <= |a| && start <= |st.tags| && st.mode == InContent
    requires ContentTok(e, a, p).Token? && ContentTok(e, a, p).kind == DataChars
    ensures RoundSplits(g, e, start, st, u, p, open, final, TurnAt(g, e, start, st, a, p, open, false))
  {
    var next := ContentTok(e, a, p).next;
    DataExtends(e, a, u, p);
    ContentDataTurn(g, e, start, st, a, p, open, false);
    ContentDataJoins(g, e, start, st, u, p, next, open, final);
    assert a[p..next] == u[p..next];
  }

  lemma ContentTokenSplits(
    g: Grammar, e: Encoding, start: nat, st: State, a: bytes, u: bytes, p: nat, open: set<bytes>, final: bool)
    requires a <= u && p <= |a| && start <= |st.tags|
    requires ContentTok(e, a, p).Token? && ContentTok(e, a, p).kind != DataChars
    ensures ContentTurn(g, e, start, st, u, p, open, final) == ContentTurn(g, e, start, st, a, p, open, false)
  {
    ContentKinds(e, a, p);
    ContentWindow(e, a, u, 0, p, p);
    ContentFacts(e, a, p);
    ContentFacts(e, u, p);
    LexemeTurnWindow(g, e, start, st, a, u, 0, p, p, open, false, final, ContentTok(e, a, p));
    ShiftTurnByNothing(LexemeTurn(g, e, start, st, a, p, open, false, ContentTok(e, a, p)));
  }

  lemma ContentRoundSplits(
    g: Grammar, e: Encoding, start: nat, st: State, a: bytes, u: bytes, p: nat, open: set<bytes>, final: bool)
    requires a <= u && p <= |a| && start <= |st.tags| && st.mode == InContent
    ensures RoundSplits(g, e, start, st, u, p, open, final, TurnAt(g, e, start, st, a, p, open, false))
  {
    var tok := ContentTok(e, a, p);
    if tok.Token? {
      if tok.kind == DataChars {
        ContentDataSplits(g, e, start, st, a, u, p, open, final);
      } else {
        ContentTokenSplits(g, e, start, st, a, u, p, open, final);
      }
    } else {
      ContentStopTurn(g, e, start, st, a, p, open, false);
      if tok.Invalid? {
        ContentWindow(e, a, u, 0, p, p);
        ContentStopTurn(g, e, start, st, u, p, open, final);
      } else {
        JoinsHere(g, e, start, st, u, p, open, final);
      }
    }
  }

  lemma CdataExtends(e: Encoding, a: bytes, u: bytes, p: nat)
    requires a <= u && p <= |a| && CdataSectionTok(e, a, p).Token? && CdataSectionTok(e, a, p).kind == DataChars
    ensures CdataSectionTok(e, u, p) == CdataDataTok(e, u, CdataSectionTok(e, a, p).next)
  {
    CharWindow(e, a, u, 0, p, p);
    CdataDataContinues(e, a, u, DataFrom(e, a, p));
  }

  lemma CdataRoundSplits(
    g: Grammar, e: Encoding, start: nat, st: State, a: bytes, u: bytes, p: nat, open: set<bytes>, final: bool)
    requires a <= u && p <= |a| && start <= |st.tags| && st.mode == InCdata
    ensures RoundSplits(g, e, start, st, u, p, open, final, TurnAt(g, e, start, st, a, p, open, false))
  {
    var tok := CdataSectionTok(e, a, p);
    CdataSectionWindow(e, a, u, 0, p, p);
    if tok.Token? && tok.kind == DataChars {
      CdataExtends(e, a, u, p);
      CdataDataTurn(g, e, start, st, a, p, open, false);
      CdataDataJoins(g, e, start, st, u, p, tok.next, open, final);
      assert a[p..tok.next] == u[p..tok.next];
    } else if !tok.Token? && !tok.Invalid? {
      JoinsHere(g, e, start, st, u, p, open, final);
    }
  }

  /** A carriage return at the end of a buffer is passed over after the document element. */
  lemma EpilogCrJoins(g: Grammar, e: Encoding, start: nat, st: State, u: bytes, p: nat, open: set<bytes>, final: bool)
    requires p < |u| && start <= |st.tags| && st.mode == InEpilog && e.cls(u[p]) == BT_CR
    ensures Joins(g, e, start, st, u, p, p + 1, [], open, final)
  {
    if p + 1 == |u| {
      assert TurnAt(g, e, start, st, u, p, open, final) == TurnAt(g, e, start, st, u, p + 1, open, final);
      AfterNothing(Run(g, e, start, st, u, p + 1, open, final));
    } else {
      EpilogSpaceJoins(g, e, start, st, u, p, p + 1, open, final);
    }
  }

  lemma EpilogSpaceExtends(e: Encoding, a: bytes, u: bytes, p: nat)
    requires a <= u && p <= |a| && PrologTok(e, a, p).Token? && PrologTok(e, a, p).kind == PrologS
    ensures p < PrologTok(e, a, p).next <= |a|
    ensures PrologTok(e, u, p) == Token(PrologS, PrologSpaceEnd(e, u, PrologTok(e, a, p).next))
  {
    PrologSpaces(e, a, p);
    PrologSpaceContinues(e, a, u, p + 1);
  }

  lemma EpilogTokenSplits(e: Encoding, st: State, a: bytes, u: bytes, p: nat, final: bool)
    requires a <= u && p <= |a| && st.mode == InEpilog
    requires PrologTok(e, a, p).Token? && PrologTok(e, a, p).kind != DataChars && PrologTok(e, a, p).kind != PrologS
    ensures EpilogTurn(e, st, u, p, final) == EpilogTurn(e, st, a, p, false)
  {
    PrologWindow(e, a, u, 0, p, p);
    var next := PrologTok(e, a, p).next;
    if p <= next {
      assert a[p..next] == u[p..next];
    }
  }

  lemma EpilogRoundSplits(
    g: Grammar, e: Encoding, start: nat, st: State, a: bytes, u: bytes, p: nat, open: set<bytes>, final: bool)
    requires a <= u && p <= |a| && start <= |st.tags| && st.mode == InEpilog
    ensures RoundSplits(g, e, start, st, u, p, open, final, TurnAt(g, e, start, st, a, p, open, false))
  {
    var tok := PrologTok(e, a, p);
    PrologWindow(e, a, u, 0, p, p);
    PrologSpaces(e, a, p);
    if tok.Token? && tok.kind == PrologS {
      EpilogSpaceExtends(e, a, u, p);
      EpilogSpaceTurn(g, e, start, st, a, p, open, false);
      EpilogSpaceJoins(g, e, start, st, u, p, tok.next, open, final);
    } else if tok.TrailingCr? {
      EpilogCrJoins(g, e, start, st, u, p, open, final);
    } else if tok.NoToken? || tok.Partial? || tok.PartialChar? {
      JoinsHere(g, e, start, st, u, p, open, final);
    } else if tok.Token? {
      EpilogTokenSplits(e, st, a, u, p, final);
    }
  }

  // ---------------------------------------------------------------- runs

  /** A run that stops at the end of the first part of `u` is the beginning of a run on all of `u`. */
  ghost predicate Splits(
    g: Grammar, e: Encoding, start: nat, st: State, u: bytes, p: nat, open: set<bytes>, final: bool, r: Result)
    requires p <= |u| && start <= |st.tags|
  {
    match r
    case Failed(error) => Run(g, e, start, st, u, p, open, final) == r
    case Done(_, _) => false
    case Paused(st', rest, evs) =>
      && rest <= |u| && start <= |st'.tags|
      && Alike(After(evs, Run(g, e, start, st', u, rest, open, final)), Run(g, e, start, st, u, p, open, final))
  }

  lemma {:induction false} RunSplits(
    g: Grammar, e: Encoding, start: nat, st: State, a: bytes, u: bytes, p: nat, open: set<bytes>, final: bool)
    requires a <= u && p <= |a| && start <= |st.tags|
    ensures Splits(g, e, start, st, u, p, open, final, Run(g, e, start, st, a, p, open, false))
    decreases |a| - p, 1
  {
    match st.mode {
      case InContent => ContentRoundSplits(g, e, start, st, a, u, p, open, final);
      case InCdata => CdataRoundSplits(g, e, start, st, a, u, p, open, final);
      case InEpilog => EpilogRoundSplits(g, e, start, st, a, u, p, open, final);
    }
    ContinueSplits(g, e, start, st, a, u, p, open, final, TurnAt(g, e, start, st, a, p, open, false));
  }

  lemma {:induction false} ContinueSplits(
    g: Grammar, e: Encoding, start: nat, st: State, a: bytes, u: bytes, p: nat, open: set<bytes>, final: bool, t: Turn)
    requires a <= u && p <= |a| && start <= |st.tags|
    requires Sound(start, a, p, false, t) && RoundSplits(g, e, start, st, u, p, open, final, t)
    ensures Splits(g, e, start, st, u, p, open, final, Continue(g, e, start, st, a, p, open, false, t))
    decreases |a| - p, 0
  {
    match t
    case Advance(to, st', evs) =>
      RunSplits(g, e, start, st', a, u, to, open, final);
      SplitsAfter(g, e, start, st, st', u, p, to, evs, open, final, Run(g, e, start, st', a, to, open, false));
    case _ =>
  }

  /** A round with events `evs` before a run that splits. */
  lemma SplitsAfter(
    g: Grammar, e: Encoding, start: nat, st: State, st': State, u: bytes, p: nat, to: nat, evs: seq<Event>,
    open: set<bytes>, final: bool, r: Result)
    requires p <= |u| && to <= |u| && start <= |st.tags| && start <= |st'.tags|
    requires Splits(g, e, start, st', u, to, open, final, r)
    requires Alike(After(evs, Run(g, e, start, st', u, to, open, final)), Run(g, e, start, st, u, p, open, final))
    ensures Splits(g, e, start, st, u, p, open, final, After(evs, r))
  {
    if r.Paused? {
      var rest := Run(g, e, start, r.st, u, r.rest, open, final);
      AfterAfter(evs, r.evs, rest);
      AfterAlike(evs, After(r.evs, rest), Run(g, e, start, st', u, to, open, final));
    }
  }

  // ---------------------------------------------------------------- calls of XML_Parse

  /** A call with `chunk`, when `left` is what the calls before have not used up. */
  function Feed(g: Grammar, st: State, left: bytes, chunk: bytes, final: bool): Result {
    Run(g, g.doc, 0, st, left + chunk, 0, {}, final)
  }

  /** Non-final calls with `chunks`, as long as they succeed, and then a final call with `last`. */
  function ParseAll(g: Grammar, st: State, left: bytes, chunks: seq<bytes>, last: bytes): Result
    decreases |chunks|
  {
    if chunks == [] then Feed(g, st, left, last, true)
    else if chunks[0] == [] then ParseAll(g, st, left, chunks[1..], last)
    else
      match Feed(g, st, left, chunks[0], false)
      case Paused(st', rest, evs) => After(evs, ParseAll(g, st', (left + chunks[0])[rest..], chunks[1..], last))
      case r => r
  }

  function Joined(chunks: seq<bytes>): bytes {
    if chunks == [] then [] else chunks[0] + Joined(chunks[1..])
  }

  /** What is left over and new bytes are, together, the rest of the document. */
  lemma FeedSplits(g: Grammar, st: State, left: bytes, chunk: bytes, more: bytes)
    ensures
      match Feed(g, st, left, chunk, false)
      case Paused(st', rest, evs) =>
        Alike(After(evs, Feed(g, st', (left + chunk)[rest..], more, true)), Feed(g, st, left, chunk + more, true))
      case r => Feed(g, st, left, chunk + more, true) == r
  {
    var a, u := left + chunk, left + (chunk + more);
    RunSplits(g, g.doc, 0, st, a, u, 0, {}, true);
    match Feed(g, st, left, chunk, false)
    case Paused(st', rest, evs) =>
      assert u[rest..] == a[rest..] + more;
      RunShift(g, g.doc, 0, st', u[rest..], u, rest, 0, rest, {}, true);
    case _ =>
  }

  lemma AlikeTrans(a: Result, b: Result, c: Result)
    requires Alike(a, b) && Alike(b, c)
    ensures Alike(a, c)
  {
  }

  /**
    Chunk independence. For every DTD, encoding and parser state, and every way
    of cutting a text into chunks, the calls succeed exactly when the one call
    with the whole text does; they fail with the same error, or end in the same
    state with the same events, up to how character data was cut.
   */
  lemma {:induction false} ChunkIndependence(g: Grammar, st: State, left: bytes, chunks: seq<bytes>, last: bytes)
    ensures Alike(ParseAll(g, st, left, chunks, last), Feed(g, st, left, Joined(chunks) + last, true))
    decreases |chunks|
  {
    if chunks == [] {
      assert [] + last == last;
    } else {
      var more := Joined(chunks[1..]) + last;
      assert Joined(chunks) + last == chunks[0] + more;
      if chunks[0] == [] {
        assert chunks[0] + more == more;
        ChunkIndependence(g, st, left, chunks[1..], last);
      } else {
        FeedSplits(g, st, left, chunks[0], more);
        match Feed(g, st, left, chunks[0], false)
        case Paused(st', rest, evs) =>
          var left' := (left + chunks[0])[rest..];
          ChunkIndependence(g, st', left', chunks[1..], last);
          AfterAlike(evs, ParseAll(g, st', left', chunks[1..], last), Feed(g, st', left', more, true));
          AlikeTrans(
            ParseAll(g, st, left, chunks, last),
            After(evs, Feed(g, st', left', more, true)),
            Feed(g, st, left, Joined(chunks) + last, true));
        case _ =>
      }
    }
  }
}
