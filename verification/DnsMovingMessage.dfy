/**
  Packets that are built with the write cursor as the base of pointers: which names
  come back, whatever the bytes of the buffer of _host are that the source has not set.
 */
module DnsMovingMessage {
  import opened Bytes
  import opened Wrappers
  import opened Dns
  import opened DnsLaws
  import opened DnsMessage
  import opened DnsMovingBase

  /** What the calls of message_qd, message_an, ... append: numbers and raw data, and names. */
  datatype Piece = Numbers(b: bytes) | Name(d: Domain)

  /** The two unset bytes at a call of _host. */
  type Unset = (byte, byte)

  /** The labels that _host remembers. */
  function MovingRegister(s: bytes, table: seq<nat>, d: Domain, p: nat, entries: seq<nat>, j: Unset): seq<nat> {
    match d
    case Root => entries
    case Sub(first, parent) =>
      if MovingFind(s, |s|, table, d, 0, j.0, j.1).Some? || |entries| + 1 >= 19 then entries
      else MovingRegister(s, table, parent, p + 1 + |first|, entries + [p], j)
  }

  predicate GoodPiece(x: Piece) {
    x.Name? ==> GoodName(x.d)
  }

  predicate GoodPieces(l: seq<Piece>) {
    forall x :: x in l ==> GoodPiece(x)
  }

  /** One call. */
  function MovingAdd(b: Builder, x: Piece, j: Unset): Builder
    requires GoodBuilder(b) && GoodPiece(x)
  {
    match x
    case Numbers(n) => AddBytes(b, n)
    case Name(d) =>
      Builder(
        b.packet + MovingCompressed(b.packet, |b.packet|, b.table, d, j.0, j.1),
        MovingRegister(b.packet, b.table, d, |b.packet|, b.table, j))
  }

  /** The room that the pieces take at most. */
  function Room(l: seq<Piece>): nat {
    if l == [] then 0
    else (if l[0].Numbers? then |l[0].b| else |Dotted(l[0].d)| + 2) + Room(l[1..])
  }

  lemma {:induction false} MovingLength(s: bytes, base: nat, table: seq<nat>, d: Domain, j: Unset)
    requires GoodTable(s, table) && GoodLabels(d)
    ensures |MovingCompressed(s, base, table, d, j.0, j.1)| <= |Dotted(d)| + 2
  {
    if d.Sub? {
      MovingLength(s, base, table, d.parent, j);
    }
  }

  /** The labels of a name that was written out can be pointed to, whatever was taken for the rest of it. */
  lemma {:induction false} MovingRegisterIsGood(
    s: bytes, table: seq<nat>, d: Domain, q: bytes, p: nat, entries: seq<nat>, j: Unset)
    requires GoodTable(s, table) && GoodLabels(d) && Agree(s, q) && |s| <= p && HEADER_LEN <= p && |q| <= 4096
    requires Holds(q, p, MovingCompressed(s, |s|, table, d, j.0, j.1)) && GoodTable(q, entries)
    ensures GoodTable(q, MovingRegister(s, table, d, p, entries, j))
    decreases d
  {
    match d
    case Root =>
    case Sub(first, parent) =>
      if MovingFind(s, |s|, table, d, 0, j.0, j.1).None? && |entries| + 1 < 19 {
        MovingReads(s, |s|, table, d, q, p, p, j.0, j.1);
        LabelReads(q, p, first, MovingCompressed(s, |s|, table, parent, j.0, j.1), p);
        assert GoodEntry(q, p);
        MovingRegisterIsGood(s, table, parent, q, p + 1 + |first|, entries + [p], j);
      }
  }

  /** Each call keeps what was built, and the labels that can be pointed to. */
  lemma MovingAddIsGood(b: Builder, x: Piece, j: Unset)
    requires GoodBuilder(b) && GoodPiece(x) && |b.packet| + Room([x]) <= 4096
    ensures GoodBuilder(MovingAdd(b, x, j)) && Agree(b.packet, MovingAdd(b, x, j).packet)
    ensures |MovingAdd(b, x, j).packet| <= |b.packet| + Room([x])
  {
    assert [x][1..] == [];
    match x
    case Numbers(n) =>
      assert Agree(b.packet, b.packet + n);
      TableAgrees(b.packet, b.packet + n, b.table);
    case Name(d) =>
      NameAddIsGood(b, d, j);
  }

  lemma NameAddIsGood(b: Builder, d: Domain, j: Unset)
    requires GoodBuilder(b) && GoodName(d) && |b.packet| + |Dotted(d)| + 2 <= 4096
    ensures
      var c := MovingCompressed(b.packet, |b.packet|, b.table, d, j.0, j.1);
      var q := b.packet + c;
      && GoodBuilder(MovingAdd(b, Name(d), j)) && Agree(b.packet, q) && Holds(q, |b.packet|, c)
      && |q| <= |b.packet| + |Dotted(d)| + 2
  {
    var s := b.packet;
    var c := MovingCompressed(s, |s|, b.table, d, j.0, j.1);
    var q := s + c;
    MovingLength(s, |s|, b.table, d, j);
    assert q[|s|..|s| + |c|] == c;
    assert Agree(s, q);
    TableAgrees(s, q, b.table);
    MovingRegisterIsGood(s, b.table, d, q, |s|, b.table, j);
  }

  // ---------------------------------------------------------------- whole packets

  /** Pieces that fit into the first half of a packet. */
  predicate FitsHalf(b: Builder, l: seq<Piece>) {
    GoodPieces(l) && 2 * (|b.packet| + Room(l)) < MAX_PACKET_LEN
  }

  lemma FitsNext(b: Builder, l: seq<Piece>, j: Unset)
    requires GoodBuilder(b) && FitsHalf(b, l) && l != []
    ensures GoodPiece(l[0]) && |b.packet| + Room([l[0]]) <= 4096 && 2 * |b.packet| < MAX_PACKET_LEN
    ensures GoodBuilder(MovingAdd(b, l[0], j)) && FitsHalf(MovingAdd(b, l[0], j), l[1..])
    ensures Agree(b.packet, MovingAdd(b, l[0], j).packet)
  {
    assert l[0] in l && forall x :: x in l[1..] ==> x in l;
    assert [l[0]][1..] == [];
    assert Room(l) == Room([l[0]]) + Room(l[1..]);
    MovingAddIsGood(b, l[0], j);
  }

  /** All calls; `js` are the unset bytes at each of them. */
  function MovingBuild(b: Builder, l: seq<Piece>, js: seq<Unset>): Builder
    requires GoodBuilder(b) && FitsHalf(b, l) && |js| == |l|
    decreases |l|
  {
    if l == [] then b
    else
      FitsNext(b, l, js[0]);
      MovingBuild(MovingAdd(b, l[0], js[0]), l[1..], js[1..])
  }

  /** The fields that a reader expects: some number of bytes, or a name. */
  datatype Field = Width(n: nat) | NameField

  function Fields(l: seq<Piece>): seq<Field> {
    if l == [] then [] else [if l[0].Numbers? then Width(|l[0].b|) else NameField] + Fields(l[1..])
  }

  /** The fields at `p`, one behind the other, as message_parse and _rrparse take them from a packet. */
  function PiecesAt(q: bytes, p: nat, fields: seq<Field>): Option<seq<Piece>>
    decreases |fields|
  {
    if fields == [] then Some([])
    else
      match FieldAt(q, p, fields[0])
      case None => None
      case Some((x, next)) =>
        match PiecesAt(q, next, fields[1..])
        case None => None
        case Some(l) => Some([x] + l)
  }

  function FieldAt(q: bytes, p: nat, f: Field): Option<(Piece, nat)> {
    match f
    case Width(n) => if p + n <= |q| then Some((Numbers(q[p..p + n]), p + n)) else None
    case NameField =>
      match NameAt(q, p, p)
      case None => None
      case Some(d) => Some((Name(d), NameEnd(q, p)))
  }

  const ZERO: Unset := (0, 0)

  /** No name, and no suffix of one, is first found in front of a pointer, along the names that are added. */
  predicate AllDecided(b: Builder, l: seq<Piece>)
    requires GoodBuilder(b) && FitsHalf(b, l)
    decreases |l|
  {
    if l == [] then true
    else
      FitsNext(b, l, ZERO);
      (l[0].Name? ==> Decided(b.packet, b.table, l[0].d)) && AllDecided(MovingAdd(b, l[0], ZERO), l[1..])
  }

  /** What is built goes on where it was. */
  lemma {:induction false} BuildAgrees(b: Builder, l: seq<Piece>, js: seq<Unset>)
    requires GoodBuilder(b) && FitsHalf(b, l) && |js| == |l|
    ensures Agree(b.packet, MovingBuild(b, l, js).packet)
    decreases |l|
  {
    if l != [] {
      FitsNext(b, l, js[0]);
      BuildAgrees(MovingAdd(b, l[0], js[0]), l[1..], js[1..]);
    }
  }

  /** The bytes of a name end where the next field starts. */
  lemma {:induction false} MovingEnds(s: bytes, table: seq<nat>, d: Domain, q: bytes, p: nat, j: Unset)
    requires GoodTable(s, table) && GoodLabels(d)
    requires Holds(q, p, MovingCompressed(s, |s|, table, d, j.0, j.1))
    ensures NameEnd(q, p) == p + |MovingCompressed(s, |s|, table, d, j.0, j.1)|
    decreases d
  {
    var c := MovingCompressed(s, |s|, table, d, j.0, j.1);
    assert q[p] == c[0];
    match d
    case Root =>
    case Sub(first, parent) =>
      if MovingFind(s, |s|, table, d, 0, j.0, j.1).Some? {
        MovingFindIsEntry(s, |s|, table, d, 0, j.0, j.1);
      } else {
        LabelReads(q, p, first, MovingCompressed(s, |s|, table, parent, j.0, j.1), p);
        MovingEnds(s, table, parent, q, p + 1 + |first|, j);
      }
  }

  /** What is read for the piece `x`: a name as _host meant it. */
  function Received(b: Builder, x: Piece, j: Unset): Piece
    requires GoodBuilder(b)
  {
    if x.Numbers? then x else Name(Meant(b.packet, |b.packet|, b.table, x.d, j.0, j.1))
  }

  lemma NameFieldReads(b: Builder, d: Domain, j: Unset, q: bytes)
    requires GoodBuilder(b) && GoodName(d) && |b.packet| + |Dotted(d)| + 2 <= 4096
    requires Agree(MovingAdd(b, Name(d), j).packet, q)
    ensures
      FieldAt(q, |b.packet|, NameField) == Some((Received(b, Name(d), j), |MovingAdd(b, Name(d), j).packet|))
  {
    var s, q1 := b.packet, MovingAdd(b, Name(d), j).packet;
    var c := MovingCompressed(s, |s|, b.table, d, j.0, j.1);
    NameAddIsGood(b, d, j);
    HoldsAgrees(q1, q, |s|, c);
    AgreeTrans(s, q1, q);
    MovingReads(s, |s|, b.table, d, q, |s|, |s|, j.0, j.1);
    MovingEnds(s, b.table, d, q, |s|, j);
  }

  lemma FirstReads(b: Builder, l: seq<Piece>, js: seq<Unset>)
    requires GoodBuilder(b) && FitsHalf(b, l) && |js| == |l| && l != []
    ensures
      var b1 := MovingAdd(b, l[0], js[0]);
      FieldAt(MovingBuild(b, l, js).packet, |b.packet|, Fields(l)[0])
      == Some((Received(b, l[0], js[0]), |b1.packet|))
  {
    var b1 := MovingAdd(b, l[0], js[0]);
    var q := MovingBuild(b, l, js).packet;
    FitsNext(b, l, js[0]);
    assert [l[0]][1..] == [];
    BuildAgrees(b1, l[1..], js[1..]);
    match l[0]
    case Numbers(n) => BytesRead(b, n, q);
    case Name(d) => NameFieldReads(b, d, js[0], q);
  }

  /** The unset bytes do not matter for a name that is decided. */
  lemma {:induction false} DecidedSame(s: bytes, table: seq<nat>, d: Domain, p: nat, entries: seq<nat>, j: Unset)
    requires GoodTable(s, table) && GoodLabels(d) && 2 * |s| < MAX_PACKET_LEN && Decided(s, table, d)
    ensures MovingCompressed(s, |s|, table, d, j.0, j.1) == MovingCompressed(s, |s|, table, d, 0, 0)
    ensures MovingRegister(s, table, d, p, entries, j) == MovingRegister(s, table, d, p, entries, ZERO)
    decreases d
  {
    if d.Sub? {
      FindsLiteral(s, |s|, table, d, 0, j.0, j.1);
      FindsLiteral(s, |s|, table, d, 0, 0, 0);
      if FirstLiteral(s, table, d, 0).None? {
        DecidedSame(s, table, d.parent, p + 1 + |d.first|, entries + [p], j);
      }
    }
  }

  lemma AddSame(b: Builder, l: seq<Piece>, j: Unset)
    requires GoodBuilder(b) && FitsHalf(b, l) && l != [] && GoodPiece(l[0])
    requires l[0].Name? ==> Decided(b.packet, b.table, l[0].d)
    ensures MovingAdd(b, l[0], j) == MovingAdd(b, l[0], ZERO)
  {
    if l[0].Name? {
      FitsNext(b, l, j);
      DecidedSame(b.packet, b.table, l[0].d, |b.packet|, b.table, j);
    }
  }

  /** Reading the first field, and then the others. */
  lemma ReadsStep(q: bytes, p: nat, l: seq<Piece>, x: Piece, next: nat)
    requires l != [] && FieldAt(q, p, Fields(l)[0]) == Some((x, next))
    ensures PiecesAt(q, p, Fields(l)) == Some(l) <==> x == l[0] && PiecesAt(q, next, Fields(l[1..])) == Some(l[1..])
  {
    assert l == [l[0]] + l[1..];
    assert Fields(l)[1..] == Fields(l[1..]);
    var r := PiecesAt(q, next, Fields(l[1..]));
    if r.Some? {
      assert ([x] + r.value)[0] == x && ([x] + r.value)[1..] == r.value;
    }
  }

  lemma {:induction false} DecidedReads(b: Builder, l: seq<Piece>, js: seq<Unset>)
    requires GoodBuilder(b) && FitsHalf(b, l) && |js| == |l|
    requires AllDecided(b, l) || forall i :: 0 <= i < |js| ==> js[i] == ZERO
    ensures PiecesAt(MovingBuild(b, l, js).packet, |b.packet|, Fields(l)) == Some(l) <==> AllDecided(b, l)
    decreases |l|
  {
    if l != [] {
      var j, b1 := js[0], MovingAdd(b, l[0], js[0]);
      FitsNext(b, l, j);
      FitsNext(b, l, ZERO);
      FirstReads(b, l, js);
      ReadsStep(MovingBuild(b, l, js).packet, |b.packet|, l, Received(b, l[0], j), |b1.packet|);
      if l[0].Name? {
        DecidedMeans(b.packet, |b.packet|, b.table, l[0].d, j.0, j.1);
      }
      if l[0].Numbers? || Decided(b.packet, b.table, l[0].d) {
        AddSame(b, l, j);
        DecidedReads(b1, l[1..], js[1..]);
      }
    }
  }

  /**
    A packet is read back as it was built, for all contents of the unset bytes at all
    calls, exactly if no name, and no suffix of one, is first found in front of a
    pointer when it is added.
   */
  lemma MovingPacket(l: seq<Piece>)
    requires FitsHalf(EMPTY, l)
    ensures GoodBuilder(EMPTY)
    ensures
      (forall js: seq<Unset> :: |js| == |l| ==>
        PiecesAt(MovingBuild(EMPTY, l, js).packet, HEADER_LEN, Fields(l)) == Some(l))
      <==> AllDecided(EMPTY, l)
  {
    if AllDecided(EMPTY, l) {
      forall js: seq<Unset> | |js| == |l|
        ensures PiecesAt(MovingBuild(EMPTY, l, js).packet, HEADER_LEN, Fields(l)) == Some(l) {
        DecidedReads(EMPTY, l, js);
      }
    } else {
      var js := seq(|l|, i => ZERO);
      DecidedReads(EMPTY, l, js);
      assert PiecesAt(MovingBuild(EMPTY, l, js).packet, HEADER_LEN, Fields(l)) != Some(l);
    }
  }
}
