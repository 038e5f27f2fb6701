/** What is written to a packet is read back: numbers and compressed names. */
module DnsLaws {
  import opened Bytes
  import opened Wrappers
  import opened Dns

  /** `q` goes on where `s` ends; the header may differ. */
  ghost predicate Agree(s: bytes, q: bytes) {
    |s| <= |q| && forall i {:trigger s[i]} :: HEADER_LEN <= i < |s| ==> s[i] == q[i]
  }

  /** The bytes `b` are at `p` of `q`. */
  ghost predicate Holds(q: bytes, p: nat, b: bytes) {
    p + |b| <= |q| && q[p..p + |b|] == b
  }

  lemma HoldsParts(q: bytes, p: nat, a: bytes, b: bytes)
    requires Holds(q, p, a + b)
    ensures Holds(q, p, a) && Holds(q, p + |a|, b)
  {
    assert q[p..p + |a|] == (a + b)[..|a|];
    assert q[p + |a|..p + |a| + |b|] == (a + b)[|a|..];
  }

  lemma HoldsAgrees(s: bytes, q: bytes, p: nat, b: bytes)
    requires Agree(s, q) && HEADER_LEN <= p && Holds(s, p, b)
    ensures Holds(q, p, b)
  {
    forall i | 0 <= i < |b| ensures q[p..p + |b|][i] == b[i] {
      assert s[p + i] == s[p..p + |b|][i];
    }
  }

  lemma ShortReads(q: bytes, p: nat, n: u16)
    requires Holds(q, p, Short(n))
    ensures p + 2 <= |q| && ShortAt(q, p) == n
  {
    assert q[p] == Short(n)[0] && q[p + 1] == Short(n)[1];
  }

  lemma LongReads(q: bytes, p: nat, n: u32)
    requires Holds(q, p, Long(n))
    ensures p + 4 <= |q| && LongAt(q, p) == n
  {
    assert q[p] == Long(n)[0] && q[p + 1] == Long(n)[1] && q[p + 2] == Long(n)[2] && q[p + 3] == Long(n)[3];
  }

  /** A name that is complete in `s` is the same in every packet that goes on from `s`. */
  lemma {:induction false} NameAgrees(s: bytes, q: bytes, p: nat, lim: nat)
    requires Agree(s, q) && HEADER_LEN <= p && NameAt(s, p, lim).Some?
    ensures NameAt(q, p, lim) == NameAt(s, p, lim)
    decreases lim, if p < |s| then |s| - p else 0
  {
    if s[p] == 0 {
    } else if s[p] >= 0x40 {
      var t := Offset(s[p], s[p + 1]);
      assert s[p + 1] == q[p + 1] && s[t] == q[t];
      NameAgrees(s, q, t, t);
    } else {
      var n := p + 1 + s[p];
      NameAgrees(s, q, n, lim);
      assert s[p + 1..n] == q[p + 1..n];
    }
  }

  lemma EntryAgrees(s: bytes, q: bytes, t: nat)
    requires Agree(s, q) && GoodEntry(s, t)
    ensures GoodEntry(q, t) && NameAt(q, t, t) == NameAt(s, t, t)
  {
    NameAgrees(s, q, t, t);
  }

  lemma TableAgrees(s: bytes, q: bytes, table: seq<nat>)
    requires Agree(s, q) && GoodTable(s, table)
    ensures GoodTable(q, table)
  {
    forall y | 0 <= y < |table| ensures GoodEntry(q, table[y]) {
      EntryAgrees(s, q, table[y]);
    }
  }

  /**
    A compressed name reads back as the name. Its pointer goes back to a suffix
    that was written before, behind which the rest of the name can be read.
   */
  lemma {:induction false} CompressedReads(s: bytes, table: seq<nat>, d: Domain, q: bytes, p: nat, lim: nat)
    requires GoodTable(s, table) && GoodLabels(d) && Agree(s, q) && |s| <= lim
    requires Holds(q, p, Compressed(s, table, d))
    ensures NameAt(q, p, lim) == Some(d)
    ensures NameEnd(q, p) == p + |Compressed(s, table, d)|
    decreases d
  {
    var b := Compressed(s, table, d);
    assert q[p] == b[0];
    match d
    case Root =>
    case Sub(first, parent) =>
      var f := Find(s, table, d, 0);
      if f.Some? {
        PointerReads(s, table, d, q, p, lim, f.value);
      } else {
        LabelReads(q, p, first, Compressed(s, table, parent), lim);
        CompressedReads(s, table, parent, q, p + 1 + |first|, lim);
      }
  }

  lemma PointerReads(s: bytes, table: seq<nat>, d: Domain, q: bytes, p: nat, lim: nat, t: nat)
    requires GoodTable(s, table) && Agree(s, q) && |s| <= lim
    requires Find(s, table, d, 0) == Some(t) && t < 4096 && Holds(q, p, Pointer(t))
    ensures NameAt(q, p, lim) == Some(d) && NameEnd(q, p) == p + 2
  {
    FoundIsGood(s, table, d, 0);
    assert q[p] == Pointer(t)[0] && q[p + 1] == Pointer(t)[1];
    EntryAgrees(s, q, t);
  }

  /** A label and what is behind it. */
  lemma LabelReads(q: bytes, p: nat, first: bytes, rest: bytes, lim: nat)
    requires 0 < |first| < 64 && Holds(q, p, [|first|] + first + rest)
    ensures p < |q| && q[p] == |first| && p + 1 + |first| <= |q| && q[p + 1..p + 1 + |first|] == first
    ensures Holds(q, p + 1 + |first|, rest)
  {
    HoldsParts(q, p, [|first|] + first, rest);
    HoldsParts(q, p, [|first|], first);
    assert q[p] == [|first|][0];
  }

  /** The labels of a name that was written out can be pointed to. */
  lemma {:induction false} RegisterIsGood(
    s: bytes, table: seq<nat>, d: Domain, q: bytes, p: nat, entries: seq<nat>)
    requires GoodTable(s, table) && GoodLabels(d) && Agree(s, q) && |s| <= p && HEADER_LEN <= p && |q| <= 4096
    requires Holds(q, p, Compressed(s, table, d)) && GoodTable(q, entries)
    ensures GoodTable(q, Register(s, table, d, p, entries))
    decreases d
  {
    match d
    case Root =>
    case Sub(first, parent) =>
      if Find(s, table, d, 0).None? && |entries| + 1 < 19 {
        CompressedReads(s, table, d, q, p, p);
        LabelReads(q, p, first, Compressed(s, table, parent), p);
        assert GoodEntry(q, p);
        RegisterIsGood(s, table, parent, q, p + 1 + |first|, entries + [p]);
      }
  }

  /** A name that can be read ends inside the packet. */
  lemma {:induction false} NameEnds(s: bytes, p: nat, lim: nat)
    requires NameAt(s, p, lim).Some?
    ensures NameEnd(s, p) <= |s|
    decreases if p < |s| then |s| - p else 0
  {
    if s[p] != 0 && s[p] < 0x40 {
      NameEnds(s, p + 1 + s[p], lim);
    }
  }
}
