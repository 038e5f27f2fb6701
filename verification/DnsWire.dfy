/**
  struct message of dns/1035.c while a packet is built: the packet, the cursor
  `_buf`, the offsets `_labels` and the counts, all changed in place. Offsets
  stand for the pointers of the source, and compression pointers count from the
  start of the packet.
 */
module DnsWire {
  import opened Bytes
  import opened Wrappers
  import opened Dns
  import opened DnsLaws
  import opened DnsMessage

  // ---------------------------------------------------------------- names as text

  /** The name whose text goes on at `y`, after the bytes `cur` of its first label. */
  function Split(text: bytes, y: nat, cur: bytes): Domain
    requires y <= |text|
    decreases |text| - y
  {
    if y == |text| then Sub(cur, Root)
    else if text[y] != DOT then Split(text, y + 1, cur + [text[y]])
    else if y + 1 == |text| then Sub(cur, Root)
    else Sub(cur, Split(text, y + 1, []))
  }

  function DomainOf(text: bytes): Domain {
    if text == [] || text == [DOT] then Root else Split(text, 0, [])
  }

  predicate EndsWithDot(text: bytes) {
    text != [] && text[|text| - 1] == DOT
  }

  lemma {:induction false} SplitDotted(text: bytes, y: nat, cur: bytes)
    requires y <= |text|
    ensures Dotted(Split(text, y, cur)) == cur + text[y..] + if y < |text| && EndsWithDot(text) then [] else [DOT]
    decreases |text| - y
  {
    if y < |text| {
      assert text[y..] == [text[y]] + text[y + 1..];
      if text[y] != DOT {
        SplitDotted(text, y + 1, cur + [text[y]]);
      } else if y + 1 < |text| {
        SplitDotted(text, y + 1, []);
      }
    }
  }

  /** The text of the name that a text stands for: a dot is added at the end, unless it is there. */
  lemma DomainText(text: bytes)
    ensures
      Dotted(DomainOf(text))
      == if text == [] || text == [DOT] then [] else if EndsWithDot(text) then text else text + [DOT]
  {
    if text != [] && text != [DOT] {
      SplitDotted(text, 0, []);
      assert [] + text[0..] == text;
    }
  }

  // ---------------------------------------------------------------- names as labels

  /** A name without compression. */
  function Wire(d: Domain): (b: bytes)
    requires GoodLabels(d)
    ensures b != []
  {
    match d
    case Root => [0]
    case Sub(first, parent) => [|first|] + first + Wire(parent)
  }

  /** _lmatch: the name at `l1` of the bytes `name`, which has no pointers, is the one at `l2` of the packet. */
  method LMatch(name: bytes, l1: nat, packet: bytes, l2: nat, ghost d: Domain, ghost lim: nat) returns (same: bool)
    requires GoodLabels(d) && Holds(name, l1, Wire(d))
    requires NameAt(packet, l2, lim).Some? && !(d.Root? && packet[l2] == 0)
    ensures same <==> NameAt(packet, l2, lim) == Some(d)
    decreases lim, |packet| - l2
  {
    assert name[l1] == Wire(d)[0];
    if packet[l2] >= 0x40 {
      var t := Offset(packet[l2], packet[l2 + 1]);
      same := LMatch(name, l1, packet, t, d, t);
      return;
    }
    if name[l1] != packet[l2] { return false; }
    LabelReads(name, l1, d.first, Wire(d.parent), 0);
    var n: nat := name[l1];
    var len := 1;
    while len <= n
      invariant 1 <= len <= n + 1
      invariant name[l1 + 1..l1 + len] == packet[l2 + 1..l2 + len]
      decreases n + 1 - len
    {
      if name[l1 + len] != packet[l2 + len] {
        assert d.first[len - 1] != packet[l2 + 1..l2 + 1 + n][len - 1];
        return false;
      }
      assert name[l1 + 1..l1 + len + 1] == name[l1 + 1..l1 + len] + [name[l1 + len]];
      assert packet[l2 + 1..l2 + len + 1] == packet[l2 + 1..l2 + len] + [packet[l2 + len]];
      len := len + 1;
    }
    assert d.first == packet[l2 + 1..l2 + 1 + n];
    assert name[l1 + n + 1] == Wire(d.parent)[0];
    if name[l1 + n + 1] == 0 && packet[l2 + n + 1] == 0 { return true; }
    same := LMatch(name, l1 + n + 1, packet, l2 + n + 1, d.parent, lim);
  }

  // ---------------------------------------------------------------- laws of the specification

  lemma {:induction false} FindAgrees(s: bytes, q: bytes, table: seq<nat>, d: Domain, y: nat)
    requires GoodTable(s, table) && Agree(s, q)
    ensures Find(q, table, d, y) == Find(s, table, d, y)
    decreases if y < |table| then |table| - y else 0
  {
    if y < |table| {
      EntryAgrees(s, q, table[y]);
      FindAgrees(s, q, table, d, y + 1);
    }
  }

  /** Compression depends on the labels in the table only. */
  lemma {:induction false} CompressedAgrees(s: bytes, q: bytes, table: seq<nat>, d: Domain)
    requires GoodTable(s, table) && GoodTable(q, table) && Agree(s, q) && GoodLabels(d)
    ensures Compressed(q, table, d) == Compressed(s, table, d)
  {
    match d
    case Root =>
    case Sub(_, parent) =>
      FindAgrees(s, q, table, d, 0);
      CompressedAgrees(s, q, table, parent);
  }

  lemma {:induction false} RegisterAgrees(s: bytes, q: bytes, table: seq<nat>, d: Domain, p: nat, entries: seq<nat>)
    requires GoodTable(s, table) && Agree(s, q)
    ensures Register(q, table, d, p, entries) == Register(s, table, d, p, entries)
    decreases d
  {
    match d
    case Root =>
    case Sub(first, parent) =>
      FindAgrees(s, q, table, d, 0);
      RegisterAgrees(s, q, table, parent, p + 1 + |first|, entries + [p]);
  }

  /** A name behind a gap is a name in the packet that the gap has been added to. */
  lemma AddNameGap(b: Builder, gap: bytes, d: Domain)
    requires GoodBuilder(b) && GoodLabels(d)
    ensures GoodBuilder(AddBytes(b, gap)) && AddName(AddBytes(b, gap), [], d) == AddName(b, gap, d)
  {
    var q := b.packet + gap;
    assert Agree(b.packet, q) && q + [] == q;
    TableAgrees(b.packet, q, b.table);
    CompressedAgrees(b.packet, q, b.table, d);
    RegisterAgrees(b.packet, q, b.table, d, |q|, b.table);
  }

  /** The length of a name does not depend on the gap in front of it. */
  lemma SameLength(b: Builder, gap: bytes, d: Domain)
    requires GoodBuilder(b) && GoodName(d)
    ensures GoodTable(b.packet + gap, b.table)
    ensures |Compressed(b.packet + gap, b.table, d)| == NameLen(b, d)
  {
    assert Agree(b.packet, b.packet + gap);
    TableAgrees(b.packet, b.packet + gap, b.table);
    CompressedAgrees(b.packet, b.packet + gap, b.table, d);
  }

  /** A name keeps the builder good. */
  lemma NameIsGood(b: Builder, gap: bytes, d: Domain)
    requires GoodBuilder(b) && GoodName(d) && |AddName(b, gap, d).packet| <= MAX_PACKET_LEN
    ensures GoodBuilder(AddName(b, gap, d))
  {
    var q := AddName(b, gap, d).packet;
    assert Agree(q, q);
    NameReads(b, gap, d, q);
  }

  /** Gaps of the same length differ in their bytes only. */
  lemma SameGap(b: Builder, gap: bytes, gap1: bytes, d: Domain)
    requires GoodBuilder(b) && GoodLabels(d) && |gap| == |gap1|
    ensures AddName(b, gap1, d).table == AddName(b, gap, d).table
    ensures |AddName(b, gap1, d).packet| == |AddName(b, gap, d).packet|
  {
  }

  lemma GapIsFilled(b: Builder, gap: bytes, d: Domain, n: u16, was: bytes, s: bytes)
    requires GoodBuilder(b) && GoodName(d) && |gap| >= 2 && was == AddName(b, gap, d).packet && |was| <= MAX_PACKET_LEN
    requires s == was[..|b.packet|] + Short(n) + was[|b.packet| + 2..]
    ensures AddName(b, Short(n) + gap[2..], d) == Builder(s, AddName(b, gap, d).table)
    ensures GoodBuilder(AddName(b, Short(n) + gap[2..], d))
  {
    GapFilled(b.packet, gap, Compressed(b.packet, b.table, d), n);
    SameGap(b, gap, Short(n) + gap[2..], d);
    NameIsGood(b, Short(n) + gap[2..], d);
  }

  lemma GapFilled(s: bytes, gap: bytes, c: bytes, n: u16)
    requires |gap| >= 2
    ensures (s + gap + c)[..|s|] + Short(n) + (s + gap + c)[|s| + 2..] == s + (Short(n) + gap[2..]) + c
  {
  }

  /** A name for which _host has no room in its own buffer. */
  predicate LongName(d: Domain) {
    |Dotted(d)| > 255
  }

  /** message_qd: a name that is too long is left out, and the rest is written all the same. */
  function QuestionAdded(b: Builder, q: Question): Builder
    requires GoodBuilder(b) && GoodLabels(q.name)
  {
    if LongName(q.name) then AddBytes(b, Short(q.qtype) + Short(q.qclass)) else AddQuestion(b, q)
  }

  /** _rrappend. */
  function FieldsAdded(b: Builder, r: Record): Builder
    requires GoodBuilder(b) && GoodLabels(r.name)
  {
    if LongName(r.name) then AddBytes(b, Short(r.rtype) + (Short(r.rclass) + Long(r.ttl))) else AddFields(b, r)
  }

  predicate GoodData(r: RData) {
    && (r.Host? || r.Service? ==> GoodLabels(r.target))
    && (r.Raw? ==> |r.data| < 0x10000)
  }

  /** message_rdata_...: a name that is too long, and data that is, count as nothing. */
  function DataAdded(b: Builder, r: RData): Builder
    requires GoodBuilder(b) && GoodData(r)
  {
    match r
    case Address(_) => AddRData(b, r)
    case Host(target) => if LongName(target) then AddBytes(b, Short(0)) else AddRData(b, r)
    case Service(priority, weight, port, target) =>
      if LongName(target) then AddBytes(b, Short(6) + (Short(priority) + (Short(weight) + Short(port))))
      else AddRData(b, r)
    case Raw(data) => if |b.packet| + |data| > 4096 then AddBytes(b, Short(0)) else AddRData(b, r)
  }

  /** A packet that a name has been added to. */
  lemma NameWritten(b: Builder, d: Domain, s: bytes)
    requires GoodBuilder(b) && GoodName(d) && s == b.packet + Compressed(b.packet, b.table, d) && |s| <= MAX_PACKET_LEN
    ensures AddName(b, [], d) == Builder(s, Register(b.packet, b.table, d, |b.packet|, b.table))
    ensures GoodBuilder(AddName(b, [], d)) && |b.packet| <= |s| && s[..|b.packet|] == b.packet
  {
    assert b.packet + [] == b.packet;
    NameIsGood(b, [], d);
  }

  lemma {:induction false} WireLength(d: Domain)
    requires GoodLabels(d)
    ensures |Wire(d)| == |Dotted(d)| + 1
  {
    match d
    case Root =>
    case Sub(_, parent) => WireLength(parent);
  }

  // ---------------------------------------------------------------- names in the buffer of _host

  /** A text of one label or more. */
  predicate HasLabels(text: bytes) {
    text != [] && text != [DOT]
  }

  lemma WireFirst(done: bytes, cur: bytes, rest: Domain)
    requires 0 < |cur| < 64 && GoodLabels(rest)
    ensures done + Wire(Sub(cur, rest)) == (done + [|cur|] + cur) + Wire(rest)
  {
  }

  /** The bytes `lab` hold the labels of `d` up to the position `y` of the text `name`. */
  ghost predicate Labels(name: bytes, d: Domain, lab: bytes, last: nat, x: nat, y: nat) {
    && y <= |name| && last < x == y + 1 <= |lab|
    && (!HasLabels(name) ==> y == 0)
    && (HasLabels(name) ==>
          && GoodLabels(Split(name, y, lab[last + 1..x])) && GoodLabels(d)
          && lab[..last] + Wire(Split(name, y, lab[last + 1..x])) == Wire(d))
  }

  /** A dot ends a label. */
  lemma LabelsDot(name: bytes, d: Domain, lab: bytes, last: nat, x: nat, y: nat, lab': bytes)
    requires Labels(name, d, lab, last, x, y) && y + 1 < |name| && name[y] == DOT && x + 1 <= |lab|
        && x - (last + 1) < 64
    requires lab' == lab[last := x - (last + 1)]
    ensures Labels(name, d, lab', x, x + 1, y + 1)
  {
    var cur := lab[last + 1..x];
    assert lab'[..x] == lab[..last] + [|cur|] + cur && lab'[x + 1..x + 1] == [];
    WireFirst(lab[..last], cur, Split(name, y + 1, []));
  }

  lemma LabelsByte(name: bytes, d: Domain, lab: bytes, last: nat, x: nat, y: nat, lab': bytes)
    requires Labels(name, d, lab, last, x, y) && y < |name| && name[y] != DOT && x + 1 <= |lab|
    requires lab' == lab[x := name[y]]
    ensures Labels(name, d, lab', last, x + 1, y + 1)
  {
    assert lab'[last + 1..x + 1] == lab[last + 1..x] + [name[y]];
    assert lab'[..last] == lab[..last];
  }

  /** The end of the text, or of all but a last dot. */
  lemma LabelsEnd(name: bytes, lab: bytes, last: nat, x: nat, y: nat, lab': bytes)
    requires Labels(name, DomainOf(name), lab, last, x, y) && HasLabels(name) && x + 1 <= |lab| && x - (last + 1) < 64
    requires y == |name| || (y + 1 == |name| && name[y] == DOT)
    requires lab' == lab[last := x - (last + 1)][x := 0]
    ensures lab'[..x + 1] == Wire(DomainOf(name))
  {
    var cur := lab[last + 1..x];
    assert Split(name, y, cur) == Sub(cur, Root);
    WireFirst(lab[..last], cur, Root);
    assert lab'[..x + 1] == (lab[..last] + [|cur|] + cur) + [0];
  }

  lemma LabelIsShort(name: bytes, d: Domain, lab: bytes, last: nat, x: nat, y: nat)
    requires Labels(name, d, lab, last, x, y) && HasLabels(name)
    requires y == |name| || name[y] == DOT
    ensures 0 < x - (last + 1) < 64
  {
  }

  /** The first loop of _host: the labels of a name, or 0 when they do not fit. */
  method MakeLabel(name: bytes, lab: array<byte>) returns (len: nat)
    requires lab.Length == LABEL_SIZE && GoodLabels(DomainOf(name))
    modifies lab
    ensures
      var d := DomainOf(name);
      if |Dotted(d)| > 255 then len == 0 else len == |Wire(d)| <= LABEL_SIZE && lab[..len] == Wire(d)
  {
    var x, y, last := 1, 0, 0;
    ghost var d := DomainOf(name);
    DomainText(name);
    WireLength(d);
    assert lab[..][1..1] == [] && lab[..][..0] == [];
    while y < |name|
      invariant x <= 255 && Labels(name, d, lab[..], last, x, y)
      decreases |name| - y
    {
      ghost var was := lab[..];
      if name[y] == DOT {
        if y + 1 == |name| { break; }
        LabelIsShort(name, d, was, last, x, y);
        lab[last] := x - (last + 1);
        LabelsDot(name, d, was, last, x, y, lab[..]);
        last := x;
      } else {
        lab[x] := name[y];
        LabelsByte(name, d, was, last, x, y, lab[..]);
      }
      if x == 255 { return 0; }
      x, y := x + 1, y + 1;
    }
    len := EndLabel(name, lab, last, x, y);
  }

  /** The end of the last label, and the final 0. */
  method EndLabel(name: bytes, lab: array<byte>, last: nat, x: nat, ghost y: nat) returns (len: nat)
    requires lab.Length == LABEL_SIZE && x <= 255 && GoodLabels(DomainOf(name))
    requires Labels(name, DomainOf(name), lab[..], last, x, y)
    requires y == |name| || (y + 1 == |name| && name[y] == DOT)
    modifies lab
    ensures len <= LABEL_SIZE && lab[..len] == Wire(DomainOf(name))
  {
    ghost var was := lab[..];
    if HasLabels(name) {
      LabelIsShort(name, DomainOf(name), was, last, x, y);
    }
    lab[last] := x - (last + 1);
    var end := if x == 1 then 0 else x;
    lab[end] := 0;
    len := end + 1;
    if HasLabels(name) {
      LabelsEnd(name, was, last, x, y, lab[..]);
    } else {
      assert lab[..len] == [0];
    }
  }

  /** The labels of `d` are the last bytes of `s`, from `x` on. */
  ghost predicate Suffix(s: bytes, x: nat, d: Domain) {
    GoodLabels(d) && x < |s| && s[x..] == Wire(d)
  }

  lemma SuffixStep(s: bytes, x: nat, d: Domain)
    requires Suffix(s, x, d) && s[x] != 0
    ensures d.Sub? && s[x] == |d.first| && x + 2 <= |s| && Holds(s, x, Wire(d))
    ensures Suffix(s, x + 1 + |d.first|, d.parent) && s[x + 1..x + 1 + |d.first|] == d.first
  {
    assert s[x] == s[x..][0];
    LabelReads(s, x, d.first, Wire(d.parent), 0);
    assert s[x..][1 + |d.first|..] == s[x + 1 + |d.first|..];
  }

  /** A suffix that the packet has. */
  lemma CompressedFound(b: Builder, s: bytes, x: nat, d: Domain, t: nat)
    requires GoodBuilder(b) && Suffix(s, x, d) && d.Sub? && t < 4096 && Find(b.packet, b.table, d, 0) == Some(t)
    ensures Compressed(b.packet, b.table, d) == Pointer(t)
  {
  }

  /** A label that is written out. */
  lemma CompressedStep(b: Builder, s: bytes, x: nat, d: Domain)
    requires GoodBuilder(b) && Suffix(s, x, d) && s[x] != 0 && d.Sub? && Find(b.packet, b.table, d, 0).None?
    ensures x + 1 + |d.first| <= |s|
    ensures s[..x] + Compressed(b.packet, b.table, d)
         == s[..x + 1 + |d.first|] + Compressed(b.packet, b.table, d.parent)
  {
    SuffixStep(s, x, d);
    assert s[..x + 1 + |d.first|] == s[..x] + ([|d.first|] + d.first);
  }

  /** The label at `x` of a compressed name. */
  lemma WrittenStep(s: bytes, table: seq<nat>, d: Domain, written: bytes, x: nat)
    requires GoodTable(s, table) && GoodLabels(d) && x < |written| && written[x..] == Compressed(s, table, d)
    requires 0 < written[x] < 0x40
    ensures d.Sub? && Find(s, table, d, 0).None? && written[x] == |d.first|
    ensures x + 1 + |d.first| < |written| && written[x + 1 + |d.first|..] == Compressed(s, table, d.parent)
  {
    assert written[x] == written[x..][0];
    assert written[x..][1 + |d.first|..] == written[x + 1 + |d.first|..];
  }

  lemma SuffixEnd(s: bytes, x: nat, d: Domain)
    requires Suffix(s, x, d) && s[x] == 0
    ensures d.Root? && x + 1 == |s|
  {
    assert s[x] == s[x..][0];
  }

  // ---------------------------------------------------------------- the message being built

  const LABEL_SIZE := 256
  const LABELS_SIZE := 20

  class Message {
    var packet: array<byte>
    var buf: nat                  // the offset of `_buf`
    var labels: array<nat>        // 0 for the null pointer
    var labelCount: nat           // `_label`
    var qdcount: nat
    var ancount: nat
    var nscount: nat
    var arcount: nat

    ghost predicate Valid()
      reads this, packet, labels
    {
      && packet.Length == MAX_PACKET_LEN && labels.Length == LABELS_SIZE
      && HEADER_LEN <= buf <= packet.Length && labelCount <= MAX_LABELS
      && (forall i :: 0 <= i < HEADER_LEN ==> packet[i] == 0)
      && (forall i :: labelCount <= i < LABELS_SIZE ==> labels[i] == 0)
      && GoodBuilder(Contents())
    }

    /** What has been written, and the labels that can be pointed to. */
    ghost function Contents(): Builder
      reads this, packet, labels
      requires buf <= packet.Length && labelCount <= labels.Length
    {
      Builder(packet[..buf], labels[..labelCount])
    }

    /** A zeroed message, with the cursor behind the header. */
    constructor ()
      ensures Valid() && Contents() == EMPTY && fresh(packet) && fresh(labels)
      ensures qdcount == ancount == nscount == arcount == 0
    {
      packet := new byte[MAX_PACKET_LEN](_ => 0);
      labels := new nat[LABELS_SIZE](_ => 0);
      buf, labelCount := HEADER_LEN, 0;
      qdcount, ancount, nscount, arcount := 0, 0, 0, 0;
    }

    /** The double loop of _host: the first suffix that the packet has becomes a pointer. */
    method Compress(lab: array<byte>, n: nat, ghost d: Domain) returns (len: nat)
      requires Valid() && lab != packet && GoodLabels(d) && n == |Wire(d)| <= lab.Length && lab[..n] == Wire(d)
      modifies lab
      ensures
        var c := Compressed(Contents().packet, Contents().table, d);
        len == |c| <= lab.Length && lab[..len] == c
    {
      ghost var b, s, rest := Contents(), Wire(d), d;
      var x := 0;
      assert s[0..] == Wire(d) && s[..0] == [];
      while lab[x] != 0
        invariant Suffix(s, x, rest) && n == |s| <= lab.Length && lab[..n] == s
        invariant s[..x] + Compressed(b.packet, b.table, rest) == Compressed(b.packet, b.table, d)
        decreases n - x
      {
        SuffixStep(s, x, rest);
        var found := Lookup(lab[..n], x, rest);
        if found != 0 {
          len := PutPointer(lab, n, x, found);
          CompressedFound(b, s, x, rest, found);
          return;
        }
        CompressedStep(b, s, x, rest);
        x := x + (lab[x] as nat) + 1;
        rest := rest.parent;
      }
      len := n;
      SuffixEnd(s, x, rest);
      assert s == s[..x] + [0];
    }

    /** short2net of the offset, with the two high bits set. */
    static method PutPointer(lab: array<byte>, n: nat, x: nat, t: nat) returns (len: nat)
      requires x + 2 <= n <= lab.Length && t < 4096
      modifies lab
      ensures len == x + 2 && lab[..len] == old(lab[..n])[..x] + Pointer(t)
    {
      ghost var done := lab[..n][..x];
      lab[x], lab[x + 1] := 0xC0 + t / 0x100, t % 0x100;
      len := x + 2;
      assert lab[..x] == done;
      assert lab[..len] == lab[..x] + [lab[x], lab[x + 1]];
    }

    /** The inner loop: the first entry of `labels` with the name at `x`, or 0. */
    method Lookup(name: bytes, x: nat, ghost d: Domain) returns (found: nat)
      requires Valid() && GoodLabels(d) && d.Sub? && Holds(name, x, Wire(d))
      ensures
        match Find(Contents().packet, Contents().table, d, 0)
        case None => found == 0
        case Some(t) => found == t != 0 && t < 4096
    {
      ghost var b := Contents();
      var y := 0;
      while labels[y] != 0
        invariant y <= labelCount
        invariant Find(b.packet, b.table, d, 0) == Find(b.packet, b.table, d, y)
        decreases labelCount - y
      {
        assert b.table[y] == labels[y];
        var same := LMatch(name, x, packet[..buf], labels[y], d, labels[y]);
        if same {
          assert GoodEntry(b.packet, b.table[y]);
          return labels[y];
        }
        y := y + 1;
      }
      assert forall i :: 0 <= i < labelCount ==> labels[i] == b.table[i] && GoodEntry(b.packet, b.table[i]);
      found := 0;
    }

    /** The last loop of _host: the labels at `at` that were written out are added to `labels`, while there is room. */
    method RegisterLabels(at: nat, ghost s: bytes, ghost d: Domain)
      requires labels.Length == LABELS_SIZE && labelCount <= MAX_LABELS && buf <= packet.Length
          && HEADER_LEN <= at <= buf
      requires forall i :: labelCount <= i < LABELS_SIZE ==> labels[i] == 0
      requires GoodLabels(d) && GoodTable(s, labels[..labelCount])
          && packet[at..buf] == Compressed(s, labels[..labelCount], d)
      modifies this`labelCount, labels
      ensures labelCount <= MAX_LABELS
      ensures labels[..labelCount] == Register(s, old(labels[..labelCount]), d, at, old(labels[..labelCount]))
      ensures forall i :: labelCount <= i < LABELS_SIZE ==> labels[i] == 0
    {
      ghost var table, rest := labels[..labelCount], d;
      ghost var written := packet[at..buf];
      var x := 0;
      while packet[at + x] != 0
        invariant at + x < buf && GoodLabels(rest) && written[x..] == Compressed(s, table, rest)
        invariant packet[at + x] == written[x..][0]
        invariant labelCount <= MAX_LABELS
        invariant Register(s, table, d, at, table) == Register(s, table, rest, at + x, labels[..labelCount])
        invariant forall i :: labelCount <= i < LABELS_SIZE ==> labels[i] == 0
        decreases buf - (at + x)
      {
        if packet[at + x] >= 0x40 { break; }
        if labelCount + 1 >= 19 { break; }
        ghost var entries := labels[..labelCount];
        labels[labelCount] := at + x;
        labelCount := labelCount + 1;
        assert labels[..labelCount] == entries + [at + x];
        WrittenStep(s, table, rest, written, x);
        x := x + (packet[at + x] as nat) + 1;
        rest := rest.parent;
        assert written[x..][0] == packet[at + x];
      }
    }

    /** _host. A name that does not fit its buffer writes nothing. */
    method Host(name: bytes) returns (len: nat)
      requires Valid() && GoodLabels(DomainOf(name))
      requires LongName(DomainOf(name)) || Fits(AddName(Contents(), [], DomainOf(name)))
      modifies this`buf, this`labelCount, labels, packet
      ensures Valid()
      ensures
        var d, b := DomainOf(name), old(Contents());
        if LongName(d) then len == 0 && Contents() == b
        else len == |Compressed(b.packet, b.table, d)| && Contents() == AddName(b, [], d)
    {
      ghost var d, b := DomainOf(name), Contents();
      var lab := new byte[LABEL_SIZE];
      var n := MakeLabel(name, lab);
      if n == 0 { return 0; }
      len := Compress(lab, n, d);
      AppendName(lab, len, d);
    }

    /** The end of _host: `len` bytes of `lab` go to the cursor. */
    method AppendName(lab: array<byte>, len: nat, ghost d: Domain)
      requires Valid() && lab != packet && GoodName(d) && len <= lab.Length
      requires lab[..len] == Compressed(Contents().packet, Contents().table, d) && buf + len <= MAX_PACKET_LEN
      modifies this`buf, this`labelCount, labels, packet
      ensures Valid() && Contents() == AddName(old(Contents()), [], d)
    {
      ghost var b, c := Contents(), lab[..len];
      var at := buf;
      CopyBytes(lab, len);
      ghost var s := packet[..buf];
      assert packet[at..buf] == c && labels[..labelCount] == b.table;
      NameWritten(b, d, s);
      RegisterLabels(at, b.packet, d);
      assert packet[..buf] == s;
      assert forall i :: 0 <= i < HEADER_LEN ==> packet[i] == s[i] && s[i] == b.packet[i];
    }

    /** memcpy to the cursor. */
    method CopyBytes(from: array<byte>, len: nat)
      requires from != packet && len <= from.Length && buf + len <= packet.Length
      modifies this`buf, packet
      ensures buf == old(buf) + len && packet[..buf] == old(packet[..buf]) + from[..len]
    {
      forall i | 0 <= i < len {
        packet[buf + i] := from[i];
      }
      buf := buf + len;
    }

    /** short2net at the cursor. */
    method PutShort(n: u16)
      requires Valid() && buf + 2 <= MAX_PACKET_LEN
      modifies this`buf, packet
      ensures Valid() && Contents() == AddBytes(old(Contents()), Short(n))
    {
      ghost var b := Contents();
      packet[buf + 1] := n % 0x100;
      packet[buf] := n / 0x100;
      buf := buf + 2;
      assert packet[..buf] == b.packet + Short(n);
      BytesRead(b, Short(n), packet[..buf]);
    }

    /** long2net at the cursor. */
    method PutLong(n: u32)
      requires Valid() && buf + 4 <= MAX_PACKET_LEN
      modifies this`buf, packet
      ensures Valid() && Contents() == AddBytes(old(Contents()), Long(n))
    {
      ghost var b := Contents();
      var l: nat := n;
      packet[buf + 3] := l % 0x100;
      l := l / 0x100;
      packet[buf + 2] := l % 0x100;
      l := l / 0x100;
      packet[buf + 1] := l % 0x100;
      l := l / 0x100;
      packet[buf] := l;
      buf := buf + 4;
      assert packet[..buf] == b.packet + Long(n);
      BytesRead(b, Long(n), packet[..buf]);
    }

    // -------------------------------------------------------------- questions and records

    /** message_qd. */
    method AddQd(name: bytes, qtype: u16, qclass: u16)
      requires Valid() && GoodLabels(DomainOf(name))
      requires Fits(QuestionAdded(Contents(), Question(DomainOf(name), qtype, qclass)))
      modifies this`qdcount, this`buf, this`labelCount, labels, packet
      ensures Valid() && qdcount == old(qdcount) + 1
      ensures Contents() == QuestionAdded(old(Contents()), Question(DomainOf(name), qtype, qclass))
    {
      ghost var b := Contents();
      qdcount := qdcount + 1;
      var len := Host(name);
      ghost var b1 := Contents();
      PutShort(qtype);
      PutShort(qclass);
      assert (b1.packet + Short(qtype)) + Short(qclass) == b1.packet + (Short(qtype) + Short(qclass));
    }

    /** _rrappend. */
    method RrAppend(name: bytes, rtype: u16, rclass: u16, ttl: u32)
      requires Valid() && GoodLabels(DomainOf(name))
      requires Fits(FieldsAdded(Contents(), Record(DomainOf(name), rtype, rclass, ttl, Raw([]))))
      modifies this`buf, this`labelCount, labels, packet
      ensures Valid() && Contents() == FieldsAdded(old(Contents()), Record(DomainOf(name), rtype, rclass, ttl, Raw([])))
    {
      ghost var b := Contents();
      var len := Host(name);
      ghost var b1 := Contents();
      PutShort(rtype);
      PutShort(rclass);
      PutLong(ttl);
      assert ((b1.packet + Short(rtype)) + Short(rclass)) + Long(ttl)
          == b1.packet + (Short(rtype) + (Short(rclass) + Long(ttl)));
    }

    /** m->_buf += n, behind which the bytes are filled in later. */
    method Skip(n: nat) returns (ghost gap: bytes)
      requires Valid() && buf + n <= MAX_PACKET_LEN
      modifies this`buf
      ensures |gap| == n && Valid() && Contents() == AddBytes(old(Contents()), gap)
    {
      ghost var b := Contents();
      gap := packet[buf..buf + n];
      buf := buf + n;
      assert packet[..buf] == b.packet + gap;
      BytesRead(b, gap, packet[..buf]);
    }

    /** short2net at `at`. */
    method PatchShort(at: nat, n: u16)
      requires at + 2 <= buf <= packet.Length
      modifies packet
      ensures packet[..buf] == old(packet[..buf])[..at] + Short(n) + old(packet[..buf])[at + 2..]
    {
      packet[at + 1] := n % 0x100;
      packet[at] := n / 0x100;
    }

    /** The same in the gap in front of the name `d` that was written behind it. */
    method FillGap(at: nat, n: u16, ghost b: Builder, ghost gap: bytes, ghost d: Domain)
      requires Valid() && GoodBuilder(b) && GoodName(d) && at == |b.packet| && |gap| >= 2
          && Contents() == AddName(b, gap, d)
      modifies packet
      ensures Valid() && Contents() == AddName(b, Short(n) + gap[2..], d)
    {
      ghost var was, table := packet[..buf], labels[..labelCount];
      PatchShort(at, n);
      GapIsFilled(b, gap, d, n, was, packet[..buf]);
      assert labels[..labelCount] == table;
      assert forall i :: 0 <= i < HEADER_LEN ==> packet[..buf][i] == was[i];
    }

    /** message_rdata_long. */
    method RDataLong(ip: u32)
      requires Valid() && Fits(AddRData(Contents(), Address(ip)))
      modifies this`buf, packet
      ensures Valid() && Contents() == AddRData(old(Contents()), Address(ip))
    {
      ghost var b := Contents();
      PutShort(4);
      PutLong(ip);
      assert (b.packet + Short(4)) + Long(ip) == b.packet + (Short(4) + Long(ip));
    }

    /** Space for a length, with nothing or with numbers behind it, is filled in. */
    method FillBytes(at: nat, n: u16, ghost b: Builder, ghost gap: bytes)
      requires Valid() && GoodBuilder(b) && at == |b.packet| && |gap| >= 2 && Contents() == AddBytes(b, gap)
      modifies packet
      ensures Valid() && Contents() == AddBytes(b, Short(n) + gap[2..])
    {
      ghost var was, table := packet[..buf], labels[..labelCount];
      PatchShort(at, n);
      assert packet[..buf] == b.packet + (Short(n) + gap[2..]);
      assert labels[..labelCount] == table;
      assert forall i :: 0 <= i < HEADER_LEN ==> packet[..buf][i] == was[i];
      BytesRead(b, Short(n) + gap[2..], packet[..buf]);
    }

    /** message_rdata_name: the length goes in front of the name afterwards. */
    method RDataName(name: bytes)
      requires Valid() && GoodLabels(DomainOf(name)) && Fits(DataAdded(Contents(), RData.Host(DomainOf(name))))
      modifies this`buf, this`labelCount, labels, packet
      ensures Valid() && Contents() == DataAdded(old(Contents()), RData.Host(DomainOf(name)))
    {
      ghost var d, b := DomainOf(name), Contents();
      var mybuf := buf;
      ghost var gap := Skip(2);
      if !LongName(d) {
        AddNameGap(b, gap, d);
        SameLength(b, gap, d);
      }
      var len := Host(name);
      if len == 0 {
        FillBytes(mybuf, 0, b, gap);
        assert Short(0) + gap[2..] == Short(0);
      } else {
        FillGap(mybuf, len, b, gap, d);
        assert Short(len) + gap[2..] == Short(len);
      }
    }

    /** message_rdata_srv. */
    method RDataSrv(priority: u16, weight: u16, port: u16, name: bytes)
      requires Valid() && GoodLabels(DomainOf(name))
      requires Fits(DataAdded(Contents(), Service(priority, weight, port, DomainOf(name))))
      modifies this`buf, this`labelCount, labels, packet
      ensures Valid() && Contents() == DataAdded(old(Contents()), Service(priority, weight, port, DomainOf(name)))
    {
      ghost var d, b := DomainOf(name), Contents();
      var mybuf := buf;
      ghost var gap := SrvFields(priority, weight, port);
      if !LongName(d) {
        AddNameGap(b, gap, d);
        SameLength(b, gap, d);
      }
      var len := Host(name);
      if len == 0 {
        FillBytes(mybuf, 6, b, gap);
      } else {
        FillGap(mybuf, len + 6, b, gap, d);
      }
    }

    /** The numbers of a service, behind the space for the length. */
    method SrvFields(priority: u16, weight: u16, port: u16) returns (ghost gap: bytes)
      requires Valid() && buf + 8 <= MAX_PACKET_LEN
      modifies this`buf, packet
      ensures Valid() && Contents() == AddBytes(old(Contents()), gap)
      ensures |gap| == 8 && gap[2..] == Short(priority) + (Short(weight) + Short(port))
    {
      ghost var b := Contents();
      ghost var gap2 := Skip(2);
      PutShort(priority);
      PutShort(weight);
      PutShort(port);
      gap := gap2 + (Short(priority) + (Short(weight) + Short(port)));
      assert ((b.packet + gap2 + Short(priority)) + Short(weight)) + Short(port) == b.packet + gap;
    }

    /** message_rdata_raw: data that goes beyond 4096 bytes is left out. */
    method RDataRaw(rdata: bytes)
      requires Valid() && |rdata| < 0x10000 && Fits(DataAdded(Contents(), Raw(rdata)))
      modifies this`buf, packet
      ensures Valid() && Contents() == DataAdded(old(Contents()), Raw(rdata))
    {
      ghost var b := Contents();
      var rdlength := |rdata|;
      if buf + rdlength > 4096 { rdlength := 0; }
      PutShort(rdlength);
      var at := buf;
      forall i | 0 <= i < rdlength {
        packet[at + i] := rdata[i];
      }
      buf := at + rdlength;
      ghost var written := Short(rdlength) + rdata[..rdlength];
      assert packet[..buf] == b.packet + written;
      assert rdlength == |rdata| ==> rdata[..rdlength] == rdata;
      assert rdlength == 0 ==> written == Short(0);
      BytesRead(b, written, packet[..buf]);
    }

    /** message_an. */
    method AddAn(name: bytes, rtype: u16, rclass: u16, ttl: u32)
      requires Valid() && GoodLabels(DomainOf(name))
      requires Fits(FieldsAdded(Contents(), Record(DomainOf(name), rtype, rclass, ttl, Raw([]))))
      modifies this`ancount, this`buf, this`labelCount, labels, packet
      ensures Valid() && Contents() == FieldsAdded(old(Contents()), Record(DomainOf(name), rtype, rclass, ttl, Raw([])))
      ensures ancount == old(ancount) + 1
    {
      ancount := ancount + 1;
      RrAppend(name, rtype, rclass, ttl);
    }

    /** message_ns. */
    method AddNs(name: bytes, rtype: u16, rclass: u16, ttl: u32)
      requires Valid() && GoodLabels(DomainOf(name))
      requires Fits(FieldsAdded(Contents(), Record(DomainOf(name), rtype, rclass, ttl, Raw([]))))
      modifies this`nscount, this`buf, this`labelCount, labels, packet
      ensures Valid() && Contents() == FieldsAdded(old(Contents()), Record(DomainOf(name), rtype, rclass, ttl, Raw([])))
      ensures nscount == old(nscount) + 1
    {
      nscount := nscount + 1;
      RrAppend(name, rtype, rclass, ttl);
    }

    /** message_ar. */
    method AddAr(name: bytes, rtype: u16, rclass: u16, ttl: u32)
      requires Valid() && GoodLabels(DomainOf(name))
      requires Fits(FieldsAdded(Contents(), Record(DomainOf(name), rtype, rclass, ttl, Raw([]))))
      modifies this`arcount, this`buf, this`labelCount, labels, packet
      ensures Valid() && Contents() == FieldsAdded(old(Contents()), Record(DomainOf(name), rtype, rclass, ttl, Raw([])))
      ensures arcount == old(arcount) + 1
    {
      arcount := arcount + 1;
      RrAppend(name, rtype, rclass, ttl);
    }

    /** short2net at `at`. */
    method ShortToNet(n: u16, at: nat)
      requires at + 2 <= packet.Length
      modifies packet
      ensures packet[at] == Short(n)[0] && packet[at + 1] == Short(n)[1]
      ensures forall i :: 0 <= i < packet.Length && i != at && i != at + 1 ==> packet[i] == old(packet[i])
    {
      packet[at + 1] := n % 0x100;
      packet[at] := n / 0x100;
    }

    /** The flags are set one by one in bytes that are 0. */
    static method FlagBytes(h: Header) returns (b0: byte, b1: byte)
      ensures (b0, b1) == Flags(h)
    {
      b0, b1 := 0, 0;
      if h.qr { b0 := b0 + 0x80; }
      b0 := b0 + h.opcode * 0x08;
      if h.aa { b0 := b0 + 0x04; }
      if h.tc { b0 := b0 + 0x02; }
      if h.rd { b0 := b0 + 0x01; }
      if h.ra { b1 := b1 + 0x80; }
      b1 := b1 + h.z * 0x10;
      b1 := b1 + h.rcode;
    }

    method WriteHeader(id: u16, h: Header)
      requires Valid() && qdcount < 0x10000 && ancount < 0x10000 && nscount < 0x10000 && arcount < 0x10000
      modifies packet
      ensures packet[..HEADER_LEN] == HeaderBytes(id, h, qdcount, ancount, nscount, arcount)
      ensures forall i :: HEADER_LEN <= i < packet.Length ==> packet[i] == old(packet[i])
    {
      ShortToNet(id, 0);
      packet[2], packet[3] := FlagBytes(h);
      ShortToNet(qdcount, 4);
      ShortToNet(ancount, 6);
      ShortToNet(nscount, 8);
      ShortToNet(arcount, 10);
    }

    /** message_packet. */
    method FinishPacket(id: u16, h: Header) returns (p: bytes)
      requires Valid() && qdcount < 0x10000 && ancount < 0x10000 && nscount < 0x10000 && arcount < 0x10000
      modifies packet
      ensures p == packet[..buf]
      ensures p == HeaderBytes(id, h, qdcount, ancount, nscount, arcount) + old(Contents()).packet[HEADER_LEN..]
    {
      ghost var was := Contents().packet;
      WriteHeader(id, h);
      p := packet[..buf];
      assert p[..HEADER_LEN] == packet[..HEADER_LEN];
      assert p[HEADER_LEN..] == was[HEADER_LEN..];
    }
  }
}
