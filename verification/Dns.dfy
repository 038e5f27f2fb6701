/**
  The wire format of dns/1035.c (section 4.1 of RFC 1035): numbers, domain names
  with compression (section 4.1.4), questions and resource records, as they are
  built and as they are read back.
 */
module Dns {
  import opened Bytes
  import opened Wrappers

  // ---------------------------------------------------------------- numbers

  type u16 = n: nat | n < 0x10000
  type u32 = n: nat | n < 0x1_0000_0000

  /** short2net. */
  function Short(n: u16): (b: bytes)
    ensures |b| == 2
  {
    [n / 0x100, n % 0x100]
  }

  /** long2net, with its shifts of a byte each. */
  function Long(n: u32): (b: bytes)
    ensures |b| == 4
  {
    var l1 := n / 0x100;
    var l2 := l1 / 0x100;
    [l2 / 0x100, l2 % 0x100, l1 % 0x100, n % 0x100]
  }

  /** net2short. */
  function ShortAt(s: bytes, p: nat): u16
    requires p + 2 <= |s|
  {
    (s[p] as int) * 0x100 + s[p + 1]
  }

  /** net2long. */
  function LongAt(s: bytes, p: nat): u32
    requires p + 4 <= |s|
  {
    (((s[p] as int) * 0x100 + s[p + 1]) * 0x100 + s[p + 2]) * 0x100 + s[p + 3]
  }

  // ---------------------------------------------------------------- domain names

  /** A domain name: its first label and the domain that this is a label of. */
  datatype Domain = Root | Sub(first: bytes, parent: Domain)

  const HEADER_LEN := 12
  const MAX_PACKET_LEN := 4000
  const MAX_LABELS := 18
  const DOT: byte := 0x2E

  /** The text of a name, every label with a dot behind it. */
  function Dotted(d: Domain): bytes {
    match d
    case Root => []
    case Sub(first, parent) => first + [DOT] + Dotted(parent)
  }

  /** Labels of 1 to 63 bytes. */
  predicate GoodLabels(d: Domain) {
    match d
    case Root => true
    case Sub(first, parent) => 0 < |first| < 64 && GoodLabels(parent)
  }

  /** A name for which _host has room in its own buffer. */
  predicate GoodName(d: Domain) {
    GoodLabels(d) && |Dotted(d)| <= 255
  }

  /** _ldecomp: the offset in a compression pointer. */
  function Offset(hi: byte, lo: byte): (t: nat)
    requires hi >= 0x40
    ensures t < 4096
  {
    var i := (if hi >= 0xC0 then hi - 0xC0 else if hi >= 0x80 then hi - 0x40 else hi + 0x40) * 0x100 + lo;
    if i >= 4096 then 4095 else i
  }

  function Pointer(t: nat): (b: bytes)
    requires t < 4096
    ensures |b| == 2 && b[0] >= 0xC0 && Offset(b[0], b[1]) == t
  {
    [0xC0 + t / 0x100, t % 0x100]
  }

  /**
    The name at `p` of a packet. Each compression pointer has to lead to a label
    in front of `lim`, the start of the part of the name that it ends.
   */
  function NameAt(s: bytes, p: nat, lim: nat): Option<Domain>
    decreases lim, if p < |s| then |s| - p else 0
  {
    if p >= |s| then None
    else if s[p] == 0 then Some(Root)
    else if s[p] >= 0x40 then
      if p + 1 < |s| && HEADER_LEN <= Offset(s[p], s[p + 1]) < lim && Offset(s[p], s[p + 1]) < |s|
         && s[Offset(s[p], s[p + 1])] != 0
      then NameAt(s, Offset(s[p], s[p + 1]), Offset(s[p], s[p + 1]))
      else None
    else if p + 1 + s[p] > |s| then None
    else
      match NameAt(s, p + 1 + s[p], lim)
      case None => None
      case Some(parent) => Some(Sub(s[p + 1..p + 1 + s[p]], parent))
  }

  /** The position after the name at `p`. */
  function NameEnd(s: bytes, p: nat): (q: nat)
    ensures p < q
    decreases if p < |s| then |s| - p else 0
  {
    if p >= |s| || s[p] == 0 then p + 1
    else if s[p] >= 0x40 then p + 2
    else NameEnd(s, p + 1 + s[p])
  }

  // ---------------------------------------------------------------- compression

  /** The first offset of the table, from entry `y` on, at which the packet has the name `d`. */
  function Find(s: bytes, table: seq<nat>, d: Domain, y: nat): Option<nat>
    decreases if y < |table| then |table| - y else 0
  {
    if y >= |table| then None
    else if NameAt(s, table[y], table[y]) == Some(d) then Some(table[y])
    else Find(s, table, d, y + 1)
  }

  /** An offset that a compression pointer may hold. */
  ghost predicate GoodEntry(s: bytes, t: nat) {
    && HEADER_LEN <= t < |s| && t < 4096
    && s[t] != 0
    && NameAt(s, t, t).Some? && NameAt(s, t, t).value.Sub?
  }

  ghost predicate GoodTable(s: bytes, table: seq<nat>) {
    |table| <= MAX_LABELS && forall y :: 0 <= y < |table| ==> GoodEntry(s, table[y])
  }

  /** _host: the name `d`, ended by a pointer as soon as the packet has the rest of it. */
  function Compressed(s: bytes, table: seq<nat>, d: Domain): (b: bytes)
    requires GoodTable(s, table) && GoodLabels(d)
    ensures b != []
  {
    match d
    case Root => [0]
    case Sub(first, parent) =>
      match Find(s, table, d, 0)
      case Some(t) =>
        FoundIsGood(s, table, d, 0);
        Pointer(t)
      case None => [|first|] + first + Compressed(s, table, parent)
  }

  lemma FoundIsGood(s: bytes, table: seq<nat>, d: Domain, y: nat)
    requires GoodTable(s, table) && Find(s, table, d, y).Some?
    ensures GoodEntry(s, Find(s, table, d, y).value)
    ensures NameAt(s, Find(s, table, d, y).value, Find(s, table, d, y).value) == Some(d)
    decreases |table| - y
  {
    if NameAt(s, table[y], table[y]) != Some(d) {
      FoundIsGood(s, table, d, y + 1);
    }
  }

  /** The table after `d` has been written at `p`: the labels that were written out are added, while there is room. */
  function Register(s: bytes, table: seq<nat>, d: Domain, p: nat, entries: seq<nat>): seq<nat> {
    match d
    case Root => entries
    case Sub(first, parent) =>
      if Find(s, table, d, 0).Some? || |entries| + 1 >= 19 then entries
      else Register(s, table, parent, p + 1 + |first|, entries + [p])
  }
}
