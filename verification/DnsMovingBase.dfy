/**
  What _lmatch and _host do while a packet is built. dns/1035.c resolves
  compression pointers from `m->_buf`, which in a message that is being built is
  the write cursor, `base`, and not the start of the packet. The bytes from the
  cursor on are 0, so that a name which the packet holds with a pointer looks as if
  it ended there; the comparison then runs past the end of the name in the buffer
  of _host, onto two bytes, `j0` and `j1`, that the source has not set.
 */
module DnsMovingBase {
  import opened Bytes
  import opened Wrappers
  import opened Dns
  import opened DnsLaws
  import opened DnsMessage

  /** What _lmatch returns, unless it reads behind the packet. */
  datatype Answer = Matches | Differs | Outside

  /** The labels at `p` that are written out, and whether a pointer follows them. */
  function Literal(s: bytes, p: nat): (Domain, bool)
    decreases if p < |s| then |s| - p else 0
  {
    if p >= |s| || s[p] == 0 then (Root, false)
    else if s[p] >= 0x40 then (Root, true)
    else if p + 1 + s[p] > |s| then (Root, false)
    else
      var (parent, pointer) := Literal(s, p + 1 + s[p]);
      (Sub(s[p + 1..p + 1 + s[p]], parent), pointer)
  }

  /** The offset in that pointer. */
  function PointerAt(s: bytes, p: nat): (t: nat)
    ensures t < 4096
    decreases if p < |s| then |s| - p else 0
  {
    if p >= |s| || s[p] == 0 then 0
    else if s[p] >= 0x40 then if p + 1 < |s| then Offset(s[p], s[p + 1]) else 0
    else PointerAt(s, p + 1 + s[p])
  }

  /** The comparison of the end of the name with the 0 at `t`: it goes on with the two unset bytes. */
  function BehindName(base: nat, t: nat, j0: byte, j1: byte): Answer {
    if t + 1 >= MAX_PACKET_LEN then Outside
    else if j0 == 0 then Matches
    else if j0 < 0x40 then Differs
    else
      var u := base + Offset(j0, j1);
      if u >= MAX_PACKET_LEN then Outside
      else if u == t + 1 then Matches
      else if u + 1 >= MAX_PACKET_LEN || t + 2 >= MAX_PACKET_LEN then Outside
      else Matches
  }

  /** _lmatch with the cursor as base, for what is left of a name and the label at `p`. */
  function MovingMatch(s: bytes, base: nat, p: nat, d: Domain, j0: byte, j1: byte): Answer
    decreases d
  {
    if p >= |s| then Differs
    else if s[p] >= 0x40 then
      var t := base + PointerAt(s, p);
      if t >= MAX_PACKET_LEN then Outside else if d.Sub? then Differs else BehindName(base, t, j0, j1)
    else if d.Root? || s[p] != |d.first| || p + 1 + s[p] >= |s| || s[p + 1..p + 1 + s[p]] != d.first then Differs
    else if d.parent.Root? && s[p + 1 + s[p]] == 0 then Matches
    else MovingMatch(s, base, p + 1 + s[p], d.parent, j0, j1)
  }

  lemma {:induction false} NotRoot(s: bytes, p: nat, lim: nat)
    requires NameAt(s, p, lim).Some? && s[p] != 0
    ensures NameAt(s, p, lim).value.Sub?
    decreases lim
  {
    if s[p] >= 0x40 {
      NotRoot(s, Offset(s[p], s[p + 1]), Offset(s[p], s[p + 1]));
    }
  }

  /** The name at `p` goes on behind a pointer, which leads back. */
  lemma {:induction false} PointerGoesOn(s: bytes, p: nat, lim: nat)
    requires NameAt(s, p, lim).Some?
    ensures Literal(s, p).1 ==> NameAt(s, p, lim) != Some(Literal(s, p).0) && PointerAt(s, p) < |s|
    ensures !Literal(s, p).1 ==> NameAt(s, p, lim) == Some(Literal(s, p).0)
    decreases if p < |s| then |s| - p else 0
  {
    if s[p] >= 0x40 {
      NotRoot(s, p, lim);
    } else if s[p] != 0 {
      PointerGoesOn(s, p + 1 + s[p], lim);
    }
  }

  /**
    It finds the names that are written out as a whole, and, depending on the unset bytes, the
    labels in front of a pointer.
   */
  lemma {:induction false} MovingMatchFinds(s: bytes, base: nat, p: nat, lim: nat, d: Domain, j0: byte, j1: byte)
    requires NameAt(s, p, lim).Some? && s[p] != 0 && GoodLabels(d)
    ensures
      MovingMatch(s, base, p, d, j0, j1) == Matches <==>
      && Literal(s, p).0 == d
      && (Literal(s, p).1 ==> BehindName(base, base + PointerAt(s, p), j0, j1) == Matches)
    decreases d
  {
    if s[p] < 0x40 && d.Sub? && s[p] == |d.first| && s[p + 1..p + 1 + s[p]] == d.first {
      var q := p + 1 + s[p];
      LiteralStep(s, p);
      if s[q] != 0 {
        MovingMatchFinds(s, base, q, lim, d.parent, j0, j1);
      } else if d.parent.Sub? {
        assert s[q] != |d.parent.first|;
      }
    }
  }

  /** Past a label that is written out. */
  lemma LiteralStep(s: bytes, p: nat)
    requires p < |s| && 0 < s[p] < 0x40 && p + 1 + s[p] <= |s|
    ensures
      var q := p + 1 + s[p];
      && Literal(s, p) == (Sub(s[p + 1..q], Literal(s, q).0), Literal(s, q).1)
      && PointerAt(s, p) == PointerAt(s, q)
  {
  }

  /**
    The exact condition for given unset bytes: a match is a name that the packet
    has, unless the name is what an earlier name has in front of its pointer, and
    the comparison of what is behind both succeeds.
   */
  lemma MovingMatchSound(s: bytes, base: nat, p: nat, lim: nat, d: Domain, j0: byte, j1: byte)
    requires NameAt(s, p, lim).Some? && s[p] != 0 && GoodLabels(d)
    ensures
      (MovingMatch(s, base, p, d, j0, j1) == Matches ==> NameAt(s, p, lim) == Some(d))
      <==> !(Literal(s, p) == (d, true) && BehindName(base, base + PointerAt(s, p), j0, j1) == Matches)
  {
    MovingMatchFinds(s, base, p, lim, d, j0, j1);
    PointerGoesOn(s, p, lim);
  }

  /**
    The exact condition for all contents of the unset bytes, in the first half of the
    packet: the name is not what an earlier name has in front of a pointer.
   */
  lemma MovingMatchRight(s: bytes, base: nat, p: nat, lim: nat, d: Domain)
    requires NameAt(s, p, lim).Some? && s[p] != 0 && GoodLabels(d) && |s| <= base && 2 * base < MAX_PACKET_LEN
    ensures
      (forall j0, j1 :: MovingMatch(s, base, p, d, j0, j1) == Matches ==> NameAt(s, p, lim) == Some(d))
      <==> Literal(s, p) != (d, true)
  {
    PointerGoesOn(s, p, lim);
    forall j0, j1
      ensures
        (MovingMatch(s, base, p, d, j0, j1) == Matches ==> NameAt(s, p, lim) == Some(d))
        <==> !(Literal(s, p) == (d, true) && BehindName(base, base + PointerAt(s, p), j0, j1) == Matches) {
      MovingMatchSound(s, base, p, lim, d, j0, j1);
    }
    if Literal(s, p) == (d, true) {
      assert BehindName(base, base + PointerAt(s, p), 0, 0) == Matches;
      MovingMatchFinds(s, base, p, lim, d, 0, 0);
    }
  }

  // ---------------------------------------------------------------- names that are written

  /** The first registered label, from entry `y` on, that _host takes for the name. */
  function MovingFind(s: bytes, base: nat, table: seq<nat>, d: Domain, y: nat, j0: byte, j1: byte): Option<nat>
    decreases if y < |table| then |table| - y else 0
  {
    if y >= |table| then None
    else if MovingMatch(s, base, table[y], d, j0, j1) == Matches then Some(table[y])
    else MovingFind(s, base, table, d, y + 1, j0, j1)
  }

  lemma {:induction false} MovingFindIsEntry(s: bytes, base: nat, table: seq<nat>, d: Domain, y: nat, j0: byte,
      j1: byte)
    ensures MovingFind(s, base, table, d, y, j0, j1).Some? ==> MovingFind(s, base, table, d, y, j0, j1).value in table
    decreases if y < |table| then |table| - y else 0
  {
    if y < |table| {
      MovingFindIsEntry(s, base, table, d, y + 1, j0, j1);
    }
  }

  /** _host: the bytes for the name `d`. */
  function MovingCompressed(s: bytes, base: nat, table: seq<nat>, d: Domain, j0: byte, j1: byte): (b: bytes)
    requires GoodTable(s, table) && GoodLabels(d)
    ensures b != []
  {
    match d
    case Root => [0]
    case Sub(first, parent) =>
      match MovingFind(s, base, table, d, 0, j0, j1)
      case Some(t) =>
        MovingFindIsEntry(s, base, table, d, 0, j0, j1);
        Pointer(t)
      case None => [|first|] + first + MovingCompressed(s, base, table, parent, j0, j1)
  }

  /** The name that these bytes stand for. */
  function Meant(s: bytes, base: nat, table: seq<nat>, d: Domain, j0: byte, j1: byte): Domain
    requires GoodTable(s, table)
  {
    match d
    case Root => Root
    case Sub(first, parent) =>
      match MovingFind(s, base, table, d, 0, j0, j1)
      case Some(t) =>
        MovingFindIsEntry(s, base, table, d, 0, j0, j1);
        NameAt(s, t, t).value
      case None => Sub(first, Meant(s, base, table, parent, j0, j1))
  }

  lemma {:induction false} MovingReads(
    s: bytes, base: nat, table: seq<nat>, d: Domain, q: bytes, p: nat, lim: nat, j0: byte, j1: byte)
    requires GoodTable(s, table) && GoodLabels(d) && Agree(s, q) && |s| <= lim
    requires Holds(q, p, MovingCompressed(s, base, table, d, j0, j1))
    ensures NameAt(q, p, lim) == Some(Meant(s, base, table, d, j0, j1))
    decreases d
  {
    var b := MovingCompressed(s, base, table, d, j0, j1);
    assert q[p] == b[0];
    match d
    case Root =>
    case Sub(first, parent) =>
      var f := MovingFind(s, base, table, d, 0, j0, j1);
      if f.Some? {
        MovingFindIsEntry(s, base, table, d, 0, j0, j1);
        EntryPointerReads(s, table, q, p, lim, f.value);
      } else {
        var rest := MovingCompressed(s, base, table, parent, j0, j1);
        LabelReads(q, p, first, rest, lim);
        MovingReads(s, base, table, parent, q, p + 1 + |first|, lim, j0, j1);
        LabelIsFirst(q, p, first, lim);
      }
  }

  lemma LabelIsFirst(q: bytes, p: nat, first: bytes, lim: nat)
    requires 0 < |first| < 64 && p + 1 + |first| <= |q| && q[p] == |first| && q[p + 1..p + 1 + |first|] == first
    requires NameAt(q, p + 1 + |first|, lim).Some?
    ensures NameAt(q, p, lim) == Some(Sub(first, NameAt(q, p + 1 + |first|, lim).value))
  {
  }

  /** A pointer to a registered label reads as the name there. */
  lemma EntryPointerReads(s: bytes, table: seq<nat>, q: bytes, p: nat, lim: nat, t: nat)
    requires GoodTable(s, table) && t in table && Agree(s, q) && |s| <= lim && t < 4096 && Holds(q, p, Pointer(t))
    ensures NameAt(q, p, lim) == NameAt(s, t, t)
  {
    assert q[p] == Pointer(t)[0] && q[p + 1] == Pointer(t)[1];
    EntryAgrees(s, q, t);
  }

  /** The first registered label whose written-out labels are the name. */
  function FirstLiteral(s: bytes, table: seq<nat>, d: Domain, y: nat): Option<nat>
    decreases if y < |table| then |table| - y else 0
  {
    if y >= |table| then None
    else if Literal(s, table[y]).0 == d then Some(table[y])
    else FirstLiteral(s, table, d, y + 1)
  }

  /**
    A condition on the names that were added before: of the name and its suffixes,
    the first one that is found written out in the packet is not followed by a pointer.
   */
  predicate Decided(s: bytes, table: seq<nat>, d: Domain) {
    match d
    case Root => true
    case Sub(_, parent) =>
      match FirstLiteral(s, table, d, 0)
      case Some(t) => !Literal(s, t).1
      case None => Decided(s, table, parent)
  }

  /** A label that is not followed by a pointer is found, whatever the unset bytes are. */
  lemma {:induction false} FindsLiteral(s: bytes, base: nat, table: seq<nat>, d: Domain, y: nat, j0: byte, j1: byte)
    requires GoodTable(s, table) && GoodLabels(d) && d.Sub? && |s| <= base && 2 * base < MAX_PACKET_LEN
    requires FirstLiteral(s, table, d, y).Some? ==> !Literal(s, FirstLiteral(s, table, d, y).value).1 || j0 == 0
    ensures MovingFind(s, base, table, d, y, j0, j1) == FirstLiteral(s, table, d, y)
    decreases if y < |table| then |table| - y else 0
  {
    if y < |table| {
      var t := table[y];
      assert GoodEntry(s, t);
      MovingMatchFinds(s, base, t, t, d, j0, j1);
      PointerGoesOn(s, t, t);
      if Literal(s, t).0 != d {
        FindsLiteral(s, base, table, d, y + 1, j0, j1);
      }
    }
  }

  lemma {:induction false} FirstLiteralIsEntry(s: bytes, table: seq<nat>, d: Domain, y: nat)
    requires FirstLiteral(s, table, d, y).Some?
    ensures
      var t := FirstLiteral(s, table, d, y).value;
      t in table && Literal(s, t).0 == d
    decreases if y < |table| then |table| - y else 0
  {
    if Literal(s, table[y]).0 != d {
      FirstLiteralIsEntry(s, table, d, y + 1);
    }
  }

  lemma {:induction false} DecidedMeans(s: bytes, base: nat, table: seq<nat>, d: Domain, j0: byte, j1: byte)
    requires GoodTable(s, table) && GoodLabels(d) && |s| <= base && 2 * base < MAX_PACKET_LEN
    requires Decided(s, table, d) || j0 == 0
    ensures Meant(s, base, table, d, j0, j1) == d <==> Decided(s, table, d)
    decreases d
  {
    if d.Sub? {
      FindsLiteral(s, base, table, d, 0, j0, j1);
      var f := FirstLiteral(s, table, d, 0);
      if f.Some? {
        FirstLiteralIsEntry(s, table, d, 0);
        assert GoodEntry(s, f.value);
        PointerGoesOn(s, f.value, f.value);
      } else {
        DecidedMeans(s, base, table, d.parent, j0, j1);
      }
    }
  }

  /** In every packet that goes on from `s`, the bytes `b` are read as the name. */
  ghost predicate ReadsAs(s: bytes, b: bytes, d: Domain) {
    forall q, p, lim :: Agree(s, q) && |s| <= lim && Holds(q, p, b) ==> NameAt(q, p, lim) == Some(d)
  }

  lemma NameReadsAs(s: bytes, base: nat, table: seq<nat>, d: Domain, j0: byte, j1: byte)
    requires GoodTable(s, table) && GoodLabels(d)
    ensures ReadsAs(s, MovingCompressed(s, base, table, d, j0, j1), d) <==> Meant(s, base, table, d, j0, j1) == d
  {
    var b := MovingCompressed(s, base, table, d, j0, j1);
    forall q, p, lim | Agree(s, q) && |s| <= lim && Holds(q, p, b)
      ensures NameAt(q, p, lim) == Some(Meant(s, base, table, d, j0, j1)) {
      MovingReads(s, base, table, d, q, p, lim, j0, j1);
    }
    var q := s + b;
    assert q[|s|..|s| + |b|] == b;
    assert Agree(s, q) && Holds(q, |s|, b);
    assert NameAt(q, |s|, |s|) == Some(Meant(s, base, table, d, j0, j1));
  }

  /**
    Names are read back as they were added, with the cursor as base: for all contents
    of the unset bytes exactly if no name or suffix is first found in front of a pointer.
   */
  lemma MovingNameRestored(s: bytes, base: nat, table: seq<nat>, d: Domain)
    requires GoodTable(s, table) && GoodLabels(d) && |s| <= base && 2 * base < MAX_PACKET_LEN
    ensures
      (forall j0, j1 :: ReadsAs(s, MovingCompressed(s, base, table, d, j0, j1), d)) <==> Decided(s, table, d)
  {
    forall j0, j1
      ensures ReadsAs(s, MovingCompressed(s, base, table, d, j0, j1), d) <==> Meant(s, base, table, d, j0, j1) == d {
      NameReadsAs(s, base, table, d, j0, j1);
    }
    if Decided(s, table, d) {
      forall j0, j1 ensures Meant(s, base, table, d, j0, j1) == d {
        DecidedMeans(s, base, table, d, j0, j1);
      }
    } else {
      DecidedMeans(s, base, table, d, 0, 0);
      assert !ReadsAs(s, MovingCompressed(s, base, table, d, 0, 0), d);
    }
  }

  // ---------------------------------------------------------------- an example

  const A := Sub([0x61], Root)
  const B := Sub([0x62], Root)
  const XB := Sub([0x78], B)
  const AB := Sub([0x61], B)

  /** The packet with the question "x.b", and with "a.b" behind it; the registered labels are at 12, 14 and 21. */
  const ONE_QUESTION: bytes := EMPTY.packet + [1, 0x78, 1, 0x62, 0] + [0, 1, 0, 1]
  const TWO_QUESTIONS: bytes := ONE_QUESTION + [1, 0x61, 0xC0, 14] + [0, 1, 0, 1]

  /** The bytes of "x.b" behind the header. */
  ghost predicate HasFirst(s: bytes) {
    |s| >= 21 && s[12] == 1 && s[13] == 0x78 && s[14] == 1 && s[15] == 0x62 && s[16] == 0
  }

  /** Those of "a.b" too, compressed. */
  ghost predicate HasSecond(s: bytes) {
    HasFirst(s) && |s| == 29 && s[21] == 1 && s[22] == 0x61 && s[23] == 0xC0 && s[24] == 14
  }

  lemma ExampleBytes()
    ensures HasFirst(ONE_QUESTION) && HasSecond(TWO_QUESTIONS)
  {
    var s := EMPTY.packet + [1, 0x78, 1, 0x62, 0];
    assert |s| == 17 && s[12..17] == [1, 0x78, 1, 0x62, 0];
    assert ONE_QUESTION[..17] == s;
    assert TWO_QUESTIONS[..21] == ONE_QUESTION && TWO_QUESTIONS[21..25] == [1, 0x61, 0xC0, 14];
  }

  lemma FirstNames(s: bytes, lim: nat)
    requires HasFirst(s)
    ensures NameAt(s, 14, lim) == Some(B) && Literal(s, 14) == (B, false)
  {
    assert s[15..16] == [0x62];
    assert NameAt(s, 16, lim) == Some(Root) && Literal(s, 16) == (Root, false);
  }

  lemma FirstName(s: bytes)
    requires HasFirst(s)
    ensures NameAt(s, 12, 12) == Some(XB) && Literal(s, 12) == (XB, false) && GoodTable(s, [12, 14])
  {
    assert s[13..14] == [0x78];
    FirstNames(s, 12);
    FirstNames(s, 14);
    assert GoodEntry(s, 12) && GoodEntry(s, 14);
  }

  lemma SecondName(s: bytes)
    requires HasSecond(s)
    ensures NameAt(s, 21, 21) == Some(AB) && Literal(s, 21) == (A, true) && PointerAt(s, 21) == 14
    ensures GoodTable(s, [12, 14, 21])
  {
    assert s[22..23] == [0x61];
    assert Offset(s[23], s[24]) == 14;
    FirstNames(s, 14);
    assert NameAt(s, 23, 21) == Some(B) && Literal(s, 23) == (Root, true) && PointerAt(s, 23) == 14;
    FirstName(s);
    assert GoodEntry(s, 21) && GoodEntry(s, 12) && GoodEntry(s, 14);
  }

  /** What _lmatch answers for the labels of "x.b". */
  lemma FirstAnswers(s: bytes, base: nat, d: Domain, j0: byte, j1: byte)
    requires HasFirst(s) && GoodLabels(d)
    ensures MovingMatch(s, base, 12, d, j0, j1) == Matches <==> d == XB
    ensures MovingMatch(s, base, 14, d, j0, j1) == Matches <==> d == B
  {
    FirstName(s);
    FirstNames(s, 14);
    MovingMatchFinds(s, base, 12, 12, d, j0, j1);
    MovingMatchFinds(s, base, 14, 14, d, j0, j1);
  }

  lemma FindInTwo(s: bytes, base: nat, d: Domain, j0: byte, j1: byte)
    requires HasFirst(s) && GoodLabels(d)
    ensures
      MovingFind(s, base, [12, 14], d, 0, j0, j1) == if d == XB then Some(12) else if d == B then Some(14) else None
  {
    FirstAnswers(s, base, d, j0, j1);
    assert MovingFind(s, base, [12, 14], d, 2, j0, j1) == None;
    assert MovingFind(s, base, [12, 14], d, 1, j0, j1) == if d == B then Some(14) else None;
  }

  lemma FindInThree(s: bytes, j0: byte, j1: byte)
    requires HasSecond(s)
    ensures
      MovingFind(s, 29, [12, 14, 21], A, 0, j0, j1) == if BehindName(29, 43, j0, j1) == Matches then Some(21) else None
    ensures FirstLiteral(s, [12, 14, 21], A, 0) == Some(21)
  {
    var l := [12, 14, 21];
    FirstAnswers(s, 29, A, j0, j1);
    FirstName(s);
    FirstNames(s, 14);
    SecondName(s);
    MovingMatchFinds(s, 29, 21, 21, A, j0, j1);
    assert MovingFind(s, 29, l, A, 3, j0, j1) == None;
    assert MovingFind(s, 29, l, A, 2, j0, j1) == if BehindName(29, 43, j0, j1) == Matches then Some(21) else None;
    assert MovingFind(s, 29, l, A, 1, j0, j1) == MovingFind(s, 29, l, A, 2, j0, j1);
    assert FirstLiteral(s, l, A, 2) == Some(21) && FirstLiteral(s, l, A, 1) == Some(21);
  }

  lemma FirstIsWritten(s: bytes, j0: byte, j1: byte)
    requires s == EMPTY.packet
    ensures GoodTable(s, []) && MovingCompressed(s, 12, [], XB, j0, j1) == [1, 0x78, 1, 0x62, 0]
  {
    assert MovingFind(s, 12, [], XB, 0, j0, j1) == None && MovingFind(s, 12, [], B, 0, j0, j1) == None;
    assert MovingCompressed(s, 12, [], B, j0, j1) == [1, 0x62, 0];
  }

  lemma SecondIsWritten(s: bytes, j0: byte, j1: byte)
    requires HasFirst(s)
    ensures GoodTable(s, [12, 14]) && MovingCompressed(s, 21, [12, 14], AB, j0, j1) == [1, 0x61, 0xC0, 14]
  {
    FirstName(s);
    FindInTwo(s, 21, AB, j0, j1);
    FindInTwo(s, 21, B, j0, j1);
    assert MovingCompressed(s, 21, [12, 14], B, j0, j1) == Pointer(14) == [0xC0, 14];
  }

  /** message_qd for "x.b", and then for "a.b", gives these packets, whatever the unset bytes are. */
  lemma ExampleIsBuilt(j0: byte, j1: byte)
    ensures HasFirst(ONE_QUESTION) && HasSecond(TWO_QUESTIONS)
    ensures
      GoodTable(EMPTY.packet, []) && GoodTable(ONE_QUESTION, [12, 14])
      && ONE_QUESTION == EMPTY.packet + MovingCompressed(EMPTY.packet, 12, [], XB, j0, j1) + [0, 1, 0, 1]
      && TWO_QUESTIONS
         == ONE_QUESTION + MovingCompressed(ONE_QUESTION, 21, [12, 14], AB, j0, j1) + [0, 1, 0, 1]
  {
    ExampleBytes();
    FirstIsWritten(EMPTY.packet, j0, j1);
    SecondIsWritten(ONE_QUESTION, j0, j1);
  }

  /**
    The name "a" behind the two questions is written as a pointer to "a.b" if the
    first unset byte is 0, or 0xC0 with any byte behind it, and as "a" if it is 1.
   */
  lemma MovingMatchExample(j1: byte)
    ensures HasSecond(TWO_QUESTIONS) && GoodTable(TWO_QUESTIONS, [12, 14, 21])
    ensures NameAt(TWO_QUESTIONS, 21, 21) == Some(AB) && !Decided(TWO_QUESTIONS, [12, 14, 21], A)
    ensures MovingCompressed(TWO_QUESTIONS, 29, [12, 14, 21], A, 0, j1) == Pointer(21)
    ensures MovingCompressed(TWO_QUESTIONS, 29, [12, 14, 21], A, 0xC0, j1) == Pointer(21)
    ensures MovingCompressed(TWO_QUESTIONS, 29, [12, 14, 21], A, 1, j1) == [1, 0x61, 0]
  {
    var s := TWO_QUESTIONS;
    ExampleBytes();
    SecondName(s);
    FindInThree(s, 0, j1);
    FindInThree(s, 0xC0, j1);
    FindInThree(s, 1, j1);
    assert MovingCompressed(s, 29, [12, 14, 21], Root, 1, j1) == [0];
  }
}
