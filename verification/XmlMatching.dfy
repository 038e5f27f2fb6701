/** Which events are a pair: every end of an element belongs to a start of the same name. */
module XmlMatching {
  import opened Bytes
  import opened Wrappers
  import opened XmlDtd
  import opened XmlParse
  import N = XmlNesting
  import C = XmlChunks

  /** The elements that are started in `l`, less those that are ended. */
  function Height(l: seq<Event>): int {
    if l == [] then 0
    else
      Height(l[..|l| - 1])
      + match l[|l| - 1]
        case StartElement(_, _) => 1
        case EndElement(_) => -1
        case _ => 0
  }

  /** Nothing is ended from `from` on that was started before. */
  predicate NeverBelow(l: seq<Event>, from: nat, to: nat)
    requires to <= |l|
  {
    forall k :: from <= k <= to ==> Height(l[from..k]) >= 0
  }

  /** Event `i` starts an element with this name that is not ended later; `inner` elements inside of it are open. */
  ghost predicate OpenAt(l: seq<Event>, i: nat, inner: nat, name: bytes) {
    && i < |l| && l[i].StartElement? && l[i].name == name && Height(l[i + 1..]) == inner
    && NeverBelow(l, i + 1, |l|)
  }

  /** Event `i` starts the element that event `j` ends: what is between has its own starts and ends. */
  ghost predicate Pair(l: seq<Event>, i: nat, j: nat) {
    && i < j < |l| && l[i].StartElement? && l[j].EndElement? && l[i].name == l[j].name
    && Height(l[i + 1..j]) == 0
    && NeverBelow(l, i + 1, j)
  }

  lemma OpenStays(l: seq<Event>, ev: Event, i: nat, inner: nat, name: bytes, inner': nat)
    requires OpenAt(l, i, inner, name)
    requires inner' == inner + if ev.StartElement? then 1 else if ev.EndElement? then -1 else 0
    ensures OpenAt(l + [ev], i, inner', name)
  {
    var m := l + [ev];
    assert m[i + 1..][..|m| - i - 2] == l[i + 1..] && m[i + 1..][|m| - i - 2] == ev;
    var from := i + 1;
    forall k | from <= k <= |m| ensures Height(m[from..k]) >= 0 {
      if k < |m| {
        assert m[from..k] == l[from..k];
      } else {
        assert m[from..k] == m[from..];
      }
    }
  }

  lemma OpenNow(l: seq<Event>, ev: Event)
    requires ev.StartElement?
    ensures OpenAt(l + [ev], |l|, 0, ev.name)
  {
    var m, from := l + [ev], |l| + 1;
    assert m[from..] == [];
    assert forall k :: from <= k <= |m| ==> m[from..k] == [];
  }

  ghost predicate SomeOpen(l: seq<Event>, inner: nat, name: bytes) {
    exists i: nat :: OpenAt(l, i, inner, name)
  }

  /** The elements above the `floor` outermost ones started in `l`, the innermost last. */
  ghost predicate AllOpen(l: seq<Event>, tags: seq<bytes>, floor: nat) {
    floor <= |tags| && forall m: nat :: m < |tags| - floor ==> SomeOpen(l, m, tags[m])
  }

  lemma ReplayLast(floor: nat, st: State, l: seq<Event>, ev: Event)
    requires N.Replay(floor, st, l + [ev]).Some?
    ensures N.Replay(floor, st, l).Some?
    ensures N.Replay(floor, st, l + [ev]) == N.Replay1(floor, N.Replay(floor, st, l).value, ev)
    decreases |l|
  {
    if l == [] {
      assert l + [ev] == [ev] && [ev][1..] == [];
    } else {
      assert (l + [ev])[1..] == l[1..] + [ev] && (l + [ev])[0] == l[0];
      ReplayLast(floor, N.Replay1(floor, st, l[0]).value, l[1..], ev);
    }
  }

  lemma StepOpen(floor: nat, st: State, l: seq<Event>, ev: Event, st': State)
    requires AllOpen(l, st.tags, floor) && N.Replay1(floor, st, ev) == Some(st')
    ensures AllOpen(l + [ev], st'.tags, floor)
  {
    if ev.StartElement? {
      OpenNow(l, ev);
      assert st'.tags[0] == ev.name;
    }
    forall m: nat | m < |st'.tags| - floor ensures SomeOpen(l + [ev], m, st'.tags[m]) {
      if !(ev.StartElement? && m == 0) {
        var n: nat := m + if ev.StartElement? then -1 else if ev.EndElement? then 1 else 0;
        assert n < |st.tags| - floor && st.tags[n] == st'.tags[m];
        assert SomeOpen(l, n, st.tags[n]);
        var i: nat :| OpenAt(l, i, n, st.tags[n]);
        OpenStays(l, ev, i, n, st.tags[n], m);
        assert OpenAt(l + [ev], i, m, st'.tags[m]);
      } else {
        assert OpenAt(l + [ev], |l|, m, st'.tags[m]);
      }
    }
  }

  lemma {:induction false} StackIs(floor: nat, st: State, l: seq<Event>)
    requires N.Replay(floor, st, l).Some? && |st.tags| == floor
    ensures AllOpen(l, N.Replay(floor, st, l).value.tags, floor)
    decreases |l|
  {
    if l != [] {
      var pre, ev := l[..|l| - 1], l[|l| - 1];
      assert l == pre + [ev];
      ReplayLast(floor, st, pre, ev);
      StackIs(floor, st, pre);
      StepOpen(floor, N.Replay(floor, st, pre).value, pre, ev, N.Replay(floor, st, l).value);
    }
  }

  lemma PairOf(l: seq<Event>, i: nat, j: nat)
    requires j < |l| && l[j].EndElement? && OpenAt(l[..j], i, 0, l[j].name)
    ensures Pair(l, i, j)
  {
    assert l[..j][i + 1..] == l[i + 1..j];
    var from := i + 1;
    forall k | from <= k <= j ensures Height(l[from..k]) >= 0 {
      assert l[..j][from..k] == l[from..k];
    }
  }

  lemma {:induction false} ReplayPrefix(floor: nat, st: State, l: seq<Event>, j: nat)
    requires N.Replay(floor, st, l).Some? && j <= |l|
    ensures N.Replay(floor, st, l[..j]).Some?
    decreases |l|
  {
    if j < |l| {
      var pre, ev := l[..|l| - 1], l[|l| - 1];
      assert l == pre + [ev] && pre[..j] == l[..j];
      ReplayLast(floor, st, pre, ev);
      ReplayPrefix(floor, st, pre, j);
    } else {
      assert l[..j] == l;
    }
  }

  /** In well-nested events every end is that of an element that was started with the same name. */
  lemma EndHasStart(floor: nat, st: State, l: seq<Event>, j: nat) returns (i: nat)
    requires N.Replay(floor, st, l).Some? && |st.tags| == floor && j < |l| && l[j].EndElement?
    ensures Pair(l, i, j)
  {
    ReplayPrefix(floor, st, l, j + 1);
    assert l[..j + 1] == l[..j] + [l[j]];
    ReplayLast(floor, st, l[..j], l[j]);
    StackIs(floor, st, l[..j]);
    var tags := N.Replay(floor, st, l[..j]).value.tags;
    assert SomeOpen(l[..j], 0, tags[0]);
    i :| OpenAt(l[..j], i, 0, tags[0]);
    PairOf(l, i, j);
  }

  lemma {:induction false} HeightIs(floor: nat, st: State, l: seq<Event>)
    requires N.Replay(floor, st, l).Some?
    ensures |N.Replay(floor, st, l).value.tags| == |st.tags| + Height(l)
    decreases |l|
  {
    if l != [] {
      var pre, ev := l[..|l| - 1], l[|l| - 1];
      assert l == pre + [ev];
      ReplayLast(floor, st, pre, ev);
      HeightIs(floor, st, pre);
    }
  }

  /**
    The events of a document that is accepted, however it is cut: every end of an element
    has its start, and as many elements are ended as were started.
   */
  lemma DocumentMatches(g: Grammar, left: bytes, chunks: seq<bytes>, last: bytes)
    requires N.Ready(g.doc, 0, State(InContent, []), left, 0)
    ensures
      var r := C.ParseAll(g, State(InContent, []), left, chunks, last);
      r.Done? ==>
        && Height(r.evs) == 0
        && forall j :: 0 <= j < |r.evs| && r.evs[j].EndElement? ==> exists i: nat :: Pair(r.evs, i, j)
  {
    var st := State(InContent, []);
    N.DocumentNests(g, st, left, chunks, last);
    var r := C.ParseAll(g, st, left, chunks, last);
    if r.Done? {
      HeightIs(0, st, r.evs);
      forall j | 0 <= j < |r.evs| && r.evs[j].EndElement? ensures exists i: nat :: Pair(r.evs, i, j) {
        var i := EndHasStart(0, st, r.evs, j);
      }
    }
  }
}
