/**
  What it means that two lists of events are the same after adjacent character data is
  joined: a client that takes character data byte by byte cannot tell them apart.
 */
module XmlMerged {
  import opened Bytes
  import opened XmlParse
  import opened XmlDtd
  import C = XmlChunks

  /** What such a client sees: single bytes, and everything else as it is. */
  datatype Atom = Byte(b: byte) | Other(ev: Event)

  function BytesOf(x: bytes): (r: seq<Atom>)
    ensures |r| == |x| && forall i :: 0 <= i < |x| ==> r[i] == Byte(x[i])
  {
    if x == [] then [] else [Byte(x[0])] + BytesOf(x[1..])
  }

  function Atoms(l: seq<Event>): seq<Atom> {
    if l == [] then []
    else (if l[0].Characters? then BytesOf(l[0].data) else [Other(l[0])]) + Atoms(l[1..])
  }

  /** No piece of character data is empty. */
  predicate NoEmpty(l: seq<Event>) {
    forall i :: 0 <= i < |l| && l[i].Characters? ==> l[i].data != []
  }

  /** No two pieces of character data are adjacent. */
  predicate Apart(l: seq<Event>) {
    forall i :: 0 <= i < |l| - 1 ==> !(l[i].Characters? && l[i + 1].Characters?)
  }

  lemma {:induction false} BytesAppend(x: bytes, y: bytes)
    ensures BytesOf(x + y) == BytesOf(x) + BytesOf(y)
  {
    forall i | 0 <= i < |x + y| ensures BytesOf(x + y)[i] == (BytesOf(x) + BytesOf(y))[i] {
      assert BytesOf(x + y)[i] == Byte((x + y)[i]);
    }
  }

  lemma AtomsFirst(ev: Event, l: seq<Event>)
    ensures Atoms([ev] + l) == (if ev.Characters? then BytesOf(ev.data) else [Other(ev)]) + Atoms(l)
  {
    assert ([ev] + l)[1..] == l;
  }

  lemma PutAtoms(ev: Event, l: seq<Event>)
    ensures Atoms(C.Put(ev, l)) == Atoms([ev] + l)
  {
    AtomsFirst(ev, l);
    if ev.Characters? && l != [] && l[0].Characters? {
      var x, y := ev.data, l[0].data;
      BytesAppend(x, y);
      AtomsFirst(Characters(x + y), l[1..]);
      assert BytesOf(x) + (BytesOf(y) + Atoms(l[1..])) == BytesOf(x) + BytesOf(y) + Atoms(l[1..]);
    }
  }

  lemma PutNormal(ev: Event, l: seq<Event>)
    requires NoEmpty([ev] + l) && Apart(l)
    ensures NoEmpty(C.Put(ev, l)) && Apart(C.Put(ev, l))
  {
    var m := C.Put(ev, l);
    assert ([ev] + l)[0] == ev;
    forall i | 0 <= i < |l| && l[i].Characters? ensures l[i].data != [] {
      assert ([ev] + l)[i + 1] == l[i];
    }
    if |m| == |l| {
      assert forall i :: 0 < i < |m| ==> m[i] == l[i];
    } else {
      assert forall i :: 0 < i < |m| ==> m[i] == l[i - 1];
    }
  }

  /** Joining loses nothing, and leaves nothing to join. */
  lemma {:induction false} MergeIs(l: seq<Event>)
    ensures Atoms(C.Merge(l)) == Atoms(l)
    ensures NoEmpty(l) ==> NoEmpty(C.Merge(l)) && Apart(C.Merge(l))
    decreases |l|
  {
    if l != [] {
      MergeIs(l[1..]);
      PutAtoms(l[0], C.Merge(l[1..]));
      AtomsFirst(l[0], C.Merge(l[1..]));
      if NoEmpty(l) {
        assert NoEmpty(l[1..]) && ([l[0]] + C.Merge(l[1..]))[1..] == C.Merge(l[1..]);
        PutNormal(l[0], C.Merge(l[1..]));
      }
    }
  }

  /** How far the bytes at the start go. */
  lemma FirstBytes(x: bytes, y: bytes, a: seq<Atom>, b: seq<Atom>)
    requires BytesOf(x) + a == BytesOf(y) + b
    requires (a != [] ==> a[0].Other?) && (b != [] ==> b[0].Other?)
    ensures x == y && a == b
  {
    var s := BytesOf(x) + a;
    assert forall i :: 0 <= i < |x| ==> s[i] == Byte(x[i]);
    assert forall i :: 0 <= i < |y| ==> s[i] == Byte(y[i]);
    assert |s| == |x| + |a| == |y| + |b|;
    assert (a != [] ==> s[|x|] == a[0]) && (b != [] ==> s[|y|] == b[0]);
    assert |x| == |y|;
    assert a == s[|x|..] && b == s[|y|..];
    forall i | 0 <= i < |x| ensures x[i] == y[i] {
      assert s[i] == Byte(x[i]) && s[i] == Byte(y[i]);
    }
  }

  lemma AtomsStart(l: seq<Event>)
    requires NoEmpty(l) && l != []
    ensures Atoms(l) != [] && (Atoms(l)[0].Byte? <==> l[0].Characters?)
  {
    assert l == [l[0]] + l[1..];
    AtomsFirst(l[0], l[1..]);
  }

  lemma RestNormal(l: seq<Event>)
    requires NoEmpty(l) && Apart(l) && l != []
    ensures NoEmpty(l[1..]) && Apart(l[1..]) && l == [l[0]] + l[1..]
    ensures l[0].Characters? && l[1..] != [] ==> Atoms(l[1..]) != [] && Atoms(l[1..])[0].Other?
    ensures l[1..] == [] ==> Atoms(l[1..]) == []
  {
    assert NoEmpty(l[1..]);
    if l[1..] != [] {
      AtomsStart(l[1..]);
    }
  }

  /** Joined events are the same as soon as their bytes and the other events are. */
  lemma {:induction false} NormalIs(a: seq<Event>, b: seq<Event>)
    requires NoEmpty(a) && Apart(a) && NoEmpty(b) && Apart(b) && Atoms(a) == Atoms(b)
    ensures a == b
    decreases |a|
  {
    if a == [] {
      if b != [] {
        AtomsStart(b);
      }
    } else {
      AtomsStart(a);
      if b != [] {
        AtomsStart(b);
        RestNormal(a);
        RestNormal(b);
        AtomsFirst(a[0], a[1..]);
        AtomsFirst(b[0], b[1..]);
        if a[0].Characters? {
          FirstBytes(a[0].data, b[0].data, Atoms(a[1..]), Atoms(b[1..]));
        } else {
          OtherFirst(a[0], Atoms(a[1..]), b[0], Atoms(b[1..]));
        }
        NormalIs(a[1..], b[1..]);
      }
    }
  }

  lemma OtherFirst(x: Event, a: seq<Atom>, y: Event, b: seq<Atom>)
    requires [Other(x)] + a == [Other(y)] + b
    ensures x == y && a == b
  {
    assert ([Other(x)] + a)[0] == ([Other(y)] + b)[0];
    assert a == ([Other(x)] + a)[1..] && b == ([Other(y)] + b)[1..];
  }

  /** Two lists are the same after joining exactly if a client that takes single bytes sees the same. */
  lemma SameMerged(a: seq<Event>, b: seq<Event>)
    requires NoEmpty(a) && NoEmpty(b)
    ensures C.Merge(a) == C.Merge(b) <==> Atoms(a) == Atoms(b)
  {
    MergeIs(a);
    MergeIs(b);
    if Atoms(a) == Atoms(b) {
      NormalIs(C.Merge(a), C.Merge(b));
    }
  }

  /** The same outcome, and the same bytes and other events in the same order. */
  ghost predicate Indistinguishable(r: Result, r': Result) {
    match r
    case Failed(error) => r' == Failed(error)
    case Done(st, evs) => r'.Done? && r'.st == st && Atoms(r'.evs) == Atoms(evs)
    case Paused(st, rest, evs) => r'.Paused? && r'.st == st && r'.rest == rest && Atoms(r'.evs) == Atoms(evs)
  }

  /** However a document is cut, a client that takes character data byte by byte sees the same. */
  lemma ChunksAreInvisible(g: Grammar, st: State, left: bytes, chunks: seq<bytes>, last: bytes)
    ensures
      Indistinguishable(C.ParseAll(g, st, left, chunks, last), C.Feed(g, st, left, C.Joined(chunks) + last, true))
  {
    C.ChunkIndependence(g, st, left, chunks, last);
    var r, r' := C.ParseAll(g, st, left, chunks, last), C.Feed(g, st, left, C.Joined(chunks) + last, true);
    if !r.Failed? {
      MergeIs(r.evs);
      MergeIs(r'.evs);
    }
  }
}
