/**
  The octets of a packet, as section 4.1 of RFC 1035 and RFC 2782 number them, and which
  names are shortened by a pointer to an earlier name.
 */
module DnsOctets {
  import opened Bytes
  import opened Wrappers
  import opened Dns
  import opened DnsLaws
  import opened DnsMessage

  // ---------------------------------------------------------------- numbers

  /** Section 2.3.2 of RFC 1035: the most significant octet comes first. */
  function Octets2(n: u16): bytes {
    [n / 256, n % 256]
  }

  function Octets4(n: u32): bytes {
    [n / 16777216, n / 65536 % 256, n / 256 % 256, n % 256]
  }

  lemma OctetsAre(n: u16, m: u32)
    ensures Short(n) == Octets2(n) && Long(m) == Octets4(m)
  {
  }

  /** Section 4.1.1: the header, with its flags from the most significant bit down. */
  lemma HeaderOctets(id: u16, h: Header, qd: u16, an: u16, ns: u16, ar: u16)
    ensures
      var flags := [
        (if h.qr then 128 else 0) + 8 * h.opcode + (if h.aa then 4 else 0) + (if h.tc then 2 else 0)
        + (if h.rd then 1 else 0),
        (if h.ra then 128 else 0) + 16 * h.z + h.rcode];
      HeaderBytes(id, h, qd, an, ns, ar)
      == Octets2(id) + flags + Octets2(qd) + Octets2(an) + Octets2(ns) + Octets2(ar)
  {
  }

  // ---------------------------------------------------------------- names

  function Labels(d: Domain): seq<bytes> {
    match d
    case Root => []
    case Sub(first, parent) => [first] + Labels(parent)
  }

  /** The domain without its `k` first labels. */
  function Suffix(d: Domain, k: nat): Domain {
    if k == 0 || d.Root? then d else Suffix(d.parent, k - 1)
  }

  /** A length octet and the octets of the label, for every label. */
  function Spelled(labels: seq<bytes>): seq<int> {
    if labels == [] then [] else [|labels[0]|] + labels[0] + Spelled(labels[1..])
  }

  /** Entry `y` of the table is the first one at which the packet has the name `d`. */
  ghost predicate FirstWith(s: bytes, table: seq<nat>, d: Domain, y: nat) {
    && y < |table| && NameAt(s, table[y], table[y]) == Some(d)
    && forall z :: 0 <= z < y ==> NameAt(s, table[z], table[z]) != Some(d)
  }

  ghost predicate IsKnown(s: bytes, table: seq<nat>, d: Domain) {
    exists y: nat :: FirstWith(s, table, d, y)
  }

  lemma {:induction false} FindIsFirst(s: bytes, table: seq<nat>, d: Domain, y: nat)
    requires forall z :: 0 <= z < y && z < |table| ==> NameAt(s, table[z], table[z]) != Some(d)
    ensures
      match Find(s, table, d, y)
      case None => !IsKnown(s, table, d)
      case Some(t) => exists x: nat :: FirstWith(s, table, d, x) && table[x] == t
    decreases if y < |table| then |table| - y else 0
  {
    if y < |table| {
      if NameAt(s, table[y], table[y]) == Some(d) {
        assert FirstWith(s, table, d, y);
      } else {
        FindIsFirst(s, table, d, y + 1);
      }
    }
  }

  lemma FoundAtFirst(s: bytes, table: seq<nat>, d: Domain)
    ensures Find(s, table, d, 0).Some? <==> IsKnown(s, table, d)
    ensures forall y: nat :: FirstWith(s, table, d, y) ==> Find(s, table, d, 0) == Some(table[y])
  {
    FindIsFirst(s, table, d, 0);
    forall y: nat, z: nat | FirstWith(s, table, d, y) && FirstWith(s, table, d, z) ensures y == z {
    }
  }

  /**
    Section 4.1.4: `k` labels are spelled out, none of which starts a name that the packet
    has. Then the name is over, or a pointer of two octets, with the two highest bits set,
    leads to the first place that has the rest of it.
   */
  ghost predicate IsCompressed(s: bytes, table: seq<nat>, d: Domain, k: nat, b: bytes) {
    && k <= |Labels(d)|
    && (forall j :: 0 <= j < k ==> !IsKnown(s, table, Suffix(d, j)))
    && if k == |Labels(d)| then b == Spelled(Labels(d)) + [0]
       else
         exists y: nat ::
           FirstWith(s, table, Suffix(d, k), y)
           && b == Spelled(Labels(d)[..k]) + [192 + table[y] / 256, table[y] % 256]
  }

  lemma CompressedMore(s: bytes, table: seq<nat>, first: bytes, parent: Domain, k: nat, b: bytes)
    requires IsCompressed(s, table, parent, k, b) && !IsKnown(s, table, Sub(first, parent)) && |first| < 64
    ensures IsCompressed(s, table, Sub(first, parent), k + 1, [|first|] + first + b)
  {
    var d := Sub(first, parent);
    var labels := Labels(d);
    assert labels[1..] == Labels(parent) && labels[..k + 1][1..] == Labels(parent)[..k];
    forall j | 0 <= j < k + 1 ensures !IsKnown(s, table, Suffix(d, j)) {
      if j > 0 {
        assert Suffix(d, j) == Suffix(parent, j - 1);
      }
    }
    assert Suffix(d, k + 1) == Suffix(parent, k);
    if k < |Labels(parent)| {
      var y: nat :|
        FirstWith(s, table, Suffix(parent, k), y)
        && b == Spelled(Labels(parent)[..k]) + [192 + table[y] / 256, table[y] % 256];
      assert [|first|] + first + b == Spelled(labels[..k + 1]) + [192 + table[y] / 256, table[y] % 256];
    }
  }

  /** _host writes a name like that. */
  lemma {:induction false} CompressedOctets(s: bytes, table: seq<nat>, d: Domain) returns (k: nat)
    requires GoodTable(s, table) && GoodLabels(d)
    ensures IsCompressed(s, table, d, k, Compressed(s, table, d))
    decreases d
  {
    match d {
      case Root => k := 0;
      case Sub(first, parent) =>
        FoundAtFirst(s, table, d);
        if Find(s, table, d, 0).Some? {
          k := 0;
          var y: nat :| FirstWith(s, table, d, y);
          assert Suffix(d, 0) == d && Spelled(Labels(d)[..0]) == [];
        } else {
          var n := CompressedOctets(s, table, parent);
          CompressedMore(s, table, first, parent, n, Compressed(s, table, parent));
          k := n + 1;
        }
    }
  }

  /** Where the labels start that are spelled out from `p` on. */
  function Starts(labels: seq<bytes>, p: nat): seq<nat> {
    if labels == [] then [] else [p] + Starts(labels[1..], p + 1 + |labels[0]|)
  }

  function Shorter(a: nat, b: nat): nat {
    if a < b then a else b
  }

  lemma StartsStep(labels: seq<bytes>, p: nat, k: nat, entries: seq<nat>)
    requires 0 < k <= |labels| && |entries| < 18
    ensures
      var rest := Starts(labels[1..][..k - 1], p + 1 + |labels[0]|);
      && |rest| == k - 1 && Starts(labels[..k], p) == [p] + rest
      && (entries + [p]) + rest[..Shorter(k - 1, 17 - |entries|)]
         == entries + ([p] + rest)[..Shorter(k, 18 - |entries|)]
  {
    assert labels[..k][1..] == labels[1..][..k - 1];
    StartsLength(labels[1..][..k - 1], p + 1 + |labels[0]|);
  }

  lemma RegisterStops(s: bytes, table: seq<nat>, d: Domain, p: nat, entries: seq<nat>)
    requires d.Root? || IsKnown(s, table, d) || |entries| >= 18
    ensures Register(s, table, d, p, entries) == entries
  {
    FoundAtFirst(s, table, d);
  }

  lemma RegisterStep(s: bytes, table: seq<nat>, first: bytes, parent: Domain, p: nat, entries: seq<nat>)
    requires !IsKnown(s, table, Sub(first, parent)) && |entries| < 18
    ensures
      Register(s, table, Sub(first, parent), p, entries)
      == Register(s, table, parent, p + 1 + |first|, entries + [p])
  {
    FoundAtFirst(s, table, Sub(first, parent));
  }

  /** The places of the labels that were spelled out are remembered, in order, as long as there are less than 18. */
  lemma {:induction false} RegisteredStarts(
    s: bytes, table: seq<nat>, d: Domain, p: nat, entries: seq<nat>, k: nat, b: bytes)
    requires IsCompressed(s, table, d, k, b) && |entries| <= 18
    ensures
      var starts := Starts(Labels(d)[..k], p);
      |starts| == k && Register(s, table, d, p, entries) == entries + starts[..Shorter(k, 18 - |entries|)]
    decreases d
  {
    StartsLength(Labels(d)[..k], p);
    assert Suffix(d, 0) == d && entries + [] == entries;
    if k == 0 || |entries| == 18 {
      RegisterStops(s, table, d, p, entries);
    } else {
      RegisterStep(s, table, d.first, d.parent, p, entries);
      CompressedLess(s, table, d.first, d.parent, k, b);
      RegisteredStarts(s, table, d.parent, p + 1 + |d.first|, entries + [p], k - 1, b[1 + |d.first|..]);
      assert Labels(d)[1..] == Labels(d.parent);
      StartsStep(Labels(d), p, k, entries);
    }
  }

  lemma {:induction false} StartsLength(labels: seq<bytes>, p: nat)
    ensures |Starts(labels, p)| == |labels|
    decreases |labels|
  {
    if labels != [] {
      StartsLength(labels[1..], p + 1 + |labels[0]|);
    }
  }

  lemma CompressedLess(s: bytes, table: seq<nat>, first: bytes, parent: Domain, k: nat, b: bytes)
    requires IsCompressed(s, table, Sub(first, parent), k, b) && k > 0
    ensures 1 + |first| <= |b| && IsCompressed(s, table, parent, k - 1, b[1 + |first|..])
  {
    var d := Sub(first, parent);
    var labels := Labels(d);
    assert labels[1..] == Labels(parent) && labels[..k][1..] == Labels(parent)[..k - 1];
    forall j | 0 <= j < k - 1 ensures !IsKnown(s, table, Suffix(parent, j)) {
      assert Suffix(d, j + 1) == Suffix(parent, j);
    }
    assert Suffix(d, k) == Suffix(parent, k - 1);
    if k == |labels| {
      assert b[1 + |first|..] == Spelled(Labels(parent)) + [0];
    } else {
      var y: nat :|
        FirstWith(s, table, Suffix(d, k), y)
        && b == Spelled(labels[..k]) + [192 + table[y] / 256, table[y] % 256];
      assert b[1 + |first|..] == Spelled(Labels(parent)[..k - 1]) + [192 + table[y] / 256, table[y] % 256];
    }
  }

  /**
    A name that was added to a packet is a pointer from then on, unless there was no more
    place to remember where it is.
   */
  lemma AddedTwice(b: Builder, gap: bytes, d: Domain)
    requires GoodBuilder(b) && GoodName(d) && d.Sub? && |b.table| < 18 && |AddName(b, gap, d).packet| <= 4096
    ensures
      var b' := AddName(b, gap, d);
      GoodBuilder(b') && |Compressed(b'.packet, b'.table, d)| == 2
  {
    var b' := AddName(b, gap, d);
    NameReads(b, gap, d, b'.packet);
    assert Agree(b.packet, b'.packet);
    FoundAtFirst(b.packet, b.table, d);
    if Find(b.packet, b.table, d, 0).Some? {
      var y: nat :| FirstWith(b.packet, b.table, d, y);
      KnownStays(b.packet, b'.packet, b.table, d, y);
      RegisterStops(b.packet, b.table, d, |b.packet| + |gap|, b.table);
      KnownIsFound(b'.packet, b'.table, d, y);
    } else {
      NewIsRegistered(b, gap, d);
      KnownIsFound(b'.packet, b'.table, d, |b.table|);
    }
  }

  lemma KnownStays(s: bytes, q: bytes, table: seq<nat>, d: Domain, y: nat)
    requires GoodTable(s, table) && Agree(s, q) && FirstWith(s, table, d, y)
    ensures NameAt(q, table[y], table[y]) == Some(d)
  {
    assert GoodEntry(s, table[y]);
    NameAgrees(s, q, table[y], table[y]);
  }

  /** A name that the packet did not have is registered where it was added. */
  lemma NewIsRegistered(b: Builder, gap: bytes, d: Domain)
    requires GoodBuilder(b) && GoodName(d) && d.Sub? && |b.table| < 18 && !IsKnown(b.packet, b.table, d)
    ensures
      var b' := AddName(b, gap, d);
      |b.table| < |b'.table| && NameAt(b'.packet, b'.table[|b.table|], b'.table[|b.table|]) == Some(d)
  {
    var b', p := AddName(b, gap, d), |b.packet| + |gap|;
    var c := Compressed(b.packet, b.table, d);
    assert Agree(b.packet, b'.packet) && Holds(b'.packet, p, c);
    CompressedReads(b.packet, b.table, d, b'.packet, p, p);
    RegisterStep(b.packet, b.table, d.first, d.parent, p, b.table);
    RegisterGrows(b.packet, b.table, d.parent, p + 1 + |d.first|, b.table + [p]);
    assert b'.table[|b.table|] == (b.table + [p])[|b.table|];
  }

  lemma {:induction false} RegisterGrows(s: bytes, table: seq<nat>, d: Domain, p: nat, entries: seq<nat>)
    ensures entries <= Register(s, table, d, p, entries)
    decreases d
  {
    match d
    case Root =>
    case Sub(first, parent) =>
      if Find(s, table, d, 0).None? && |entries| + 1 < 19 {
        RegisterGrows(s, table, parent, p + 1 + |first|, entries + [p]);
      }
  }

  /** What the packet has at some entry is found at the first such entry. */
  lemma {:induction false} KnownIsFound(s: bytes, table: seq<nat>, d: Domain, y: nat)
    requires y < |table| && NameAt(s, table[y], table[y]) == Some(d)
    ensures Find(s, table, d, 0).Some?
  {
    FoundAtFirst(s, table, d);
    if Find(s, table, d, 0).None? {
      var z := FirstOf(s, table, d, y);
      assert FirstWith(s, table, d, z);
    }
  }

  lemma {:induction false} FirstOf(s: bytes, table: seq<nat>, d: Domain, y: nat) returns (z: nat)
    requires y < |table| && NameAt(s, table[y], table[y]) == Some(d)
    ensures FirstWith(s, table, d, z)
    decreases y
  {
    if x :| 0 <= x < y && NameAt(s, table[x], table[x]) == Some(d) {
      z := FirstOf(s, table, d, x);
    } else {
      z := y;
    }
  }

  // ---------------------------------------------------------------- reading names

  /**
    Section 4.1.4, as it is read: an octet 0 is the end; 1 to 63 is the length of a label;
    two octets of 192 and more are a pointer to where the rest is, which has to be behind
    the header and in front of `lim`.
   */
  lemma NameOctets(s: bytes, p: nat, lim: nat)
    requires p < |s|
    ensures s[p] == 0 ==> NameAt(s, p, lim) == Some(Root) && NameEnd(s, p) == p + 1
    ensures
      1 <= s[p] <= 63 && p + 1 + s[p] <= |s| ==>
        && NameEnd(s, p) == NameEnd(s, p + 1 + s[p])
        && NameAt(s, p, lim)
           == match NameAt(s, p + 1 + s[p], lim)
              case None => None
              case Some(parent) => Some(Sub(s[p + 1..p + 1 + s[p]], parent))
    ensures
      s[p] >= 192 && p + 1 < |s| ==>
        var t := (s[p] as int - 192) * 256 + s[p + 1];
        && NameEnd(s, p) == p + 2
        && (t < 4096 ==>
              NameAt(s, p, lim) == if 12 <= t < lim && t < |s| && s[t] != 0 then NameAt(s, t, t) else None)
  {
  }

  // ---------------------------------------------------------------- questions and records

  /** Section 4.1.2: name, type and class. */
  lemma QuestionOctets(b: Builder, q: Question)
    requires GoodBuilder(b) && GoodLabels(q.name)
    ensures
      AddQuestion(b, q).packet
      == b.packet + Compressed(b.packet, b.table, q.name) + Octets2(q.qtype) + Octets2(q.qclass)
  {
    OctetsAre(q.qtype, 0);
    OctetsAre(q.qclass, 0);
    assert b.packet + [] == b.packet;
  }

  /** Section 4.1.3: name, type, class and time to live; the length of the data follows with the data. */
  lemma FieldOctets(b: Builder, r: Record)
    requires GoodBuilder(b) && GoodLabels(r.name)
    ensures
      AddFields(b, r).packet
      == b.packet + Compressed(b.packet, b.table, r.name) + Octets2(r.rtype) + Octets2(r.rclass) + Octets4(r.ttl)
  {
    OctetsAre(r.rtype, r.ttl);
    OctetsAre(r.rclass, 0);
    assert b.packet + [] == b.packet;
  }

  /** Sections 3.3 and 3.4.1 of RFC 1035, and RFC 2782: the length of the data, and the data. */
  lemma DataOctets(b: Builder, r: RData)
    requires GoodBuilder(b) && GoodRData(r)
    ensures
      AddRData(b, r).packet
      == match r
         case Address(ip) => b.packet + [0, 4] + Octets4(ip)
         case Raw(data) => b.packet + Octets2(|data|) + data
         case Host(target) =>
           var name := Compressed(b.packet, b.table, target);
           b.packet + [|name| / 256, |name| % 256] + name
         case Service(priority, weight, port, target) =>
           var name := Compressed(b.packet, b.table, target);
           b.packet + [(6 + |name|) / 256, (6 + |name|) % 256] + Octets2(priority) + Octets2(weight) + Octets2(port)
           + name
  {
    match r
    case Address(ip) =>
      OctetsAre(4, ip);
      assert b.packet + (Short(4) + Long(ip)) == b.packet + [0, 4] + Octets4(ip);
    case Raw(data) =>
      OctetsAre(|data|, 0);
      assert b.packet + (Short(|data|) + data) == b.packet + Octets2(|data|) + data;
    case Host(target) => OctetsAre(NameLen(b, target), 0);
    case Service(priority, weight, port, target) =>
      var n := 6 + NameLen(b, target);
      OctetsAre(n, 0);
      OctetsAre(priority, 0);
      OctetsAre(weight, 0);
      OctetsAre(port, 0);
      assert b.packet + (Short(n) + (Short(priority) + (Short(weight) + Short(port))))
          == b.packet + Octets2(n) + Octets2(priority) + Octets2(weight) + Octets2(port);
  }

  /**
    The types: 1 is an address (A), 2, 5 and 12 are a name (NS, CNAME and PTR), 33 is a
    service (SRV), and the data of any other type is passed over.
   */
  lemma TypesOfData(s: bytes, p: nat, rtype: u16, rdlength: u16)
    requires p + 6 <= |s|
    ensures
      var known := KnownAt(s, p, rtype, rdlength);
      && (rtype == 1 ==> known == Some((KnownAddress(LongAt(s, p)), p + 4)))
      && (rtype in {2, 5, 12} && TextAt(s, p).Some? ==> known == Some((KnownName(TextAt(s, p).value), NameEnd(s, p))))
      && (rtype == 33 && TextAt(s, p + 6).Some? ==>
            known == Some((KnownService(ShortAt(s, p), ShortAt(s, p + 2), ShortAt(s, p + 4), TextAt(s, p + 6).value),
                           NameEnd(s, p + 6))))
      && (rtype !in {1, 2, 5, 12, 33} ==> known == Some((Unknown, p + rdlength)))
  {
  }
}
