/**
  Whole messages: what a sequence of calls of message_qd, message_an, message_ns,
  message_ar and message_rdata_... leaves in the packet, what message_parse makes
  of a packet, and that the second undoes the first.
 */
module DnsMessage {
  import opened Bytes
  import opened Wrappers
  import opened Dns
  import opened DnsLaws

  // ---------------------------------------------------------------- messages to send

  datatype Question = Question(name: Domain, qtype: u16, qclass: u16)

  /** What message_rdata_long, message_rdata_name, message_rdata_srv and message_rdata_raw append. */
  datatype RData =
    | Address(ip: u32)
    | Host(target: Domain)
    | Service(priority: u16, weight: u16, port: u16, target: Domain)
    | Raw(data: bytes)

  datatype Record = Record(name: Domain, rtype: u16, rclass: u16, ttl: u32, data: RData)

  type u3 = n: nat | n < 8
  type u4 = n: nat | n < 16

  datatype Header = Header(qr: bool, opcode: u4, aa: bool, tc: bool, rd: bool, ra: bool, z: u3, rcode: u4)

  datatype Message = Message(
    id: u16, header: Header, qd: seq<Question>, an: seq<Record>, ns: seq<Record>, ar: seq<Record>)

  const QTYPE_A := 1
  const QTYPE_NS := 2
  const QTYPE_CNAME := 5
  const QTYPE_PTR := 12
  const QTYPE_SRV := 33

  predicate IsNameType(t: u16) {
    t == QTYPE_NS || t == QTYPE_CNAME || t == QTYPE_PTR
  }

  /** The data is of the kind that its type says. */
  predicate TypeFits(rtype: u16, r: RData) {
    match r
    case Address(_) => rtype == QTYPE_A
    case Host(_) => IsNameType(rtype)
    case Service(_, _, _, _) => rtype == QTYPE_SRV
    case Raw(_) => rtype != QTYPE_A && !IsNameType(rtype) && rtype != QTYPE_SRV
  }

  predicate GoodRData(r: RData) {
    && (r.Host? || r.Service? ==> GoodName(r.target))
    && (r.Raw? ==> |r.data| < 0x10000)
  }

  predicate GoodRecord(r: Record) {
    GoodName(r.name) && GoodRData(r.data) && TypeFits(r.rtype, r.data)
  }

  // ---------------------------------------------------------------- building

  /** The packet so far, header space included, and the offsets in `_labels`. */
  datatype Builder = Builder(packet: bytes, table: seq<nat>)

  const EMPTY := Builder([0, 0, 0, 0, 0, 0, 0, 0, 0, 0, 0, 0], [])

  ghost predicate GoodBuilder(b: Builder) {
    HEADER_LEN <= |b.packet| && GoodTable(b.packet, b.table)
  }

  function AddBytes(b: Builder, x: bytes): Builder {
    b.(packet := b.packet + x)
  }

  /** _host for a name behind the bytes `gap`. */
  function AddName(b: Builder, gap: bytes, d: Domain): Builder
    requires GoodBuilder(b) && GoodLabels(d)
  {
    Builder(
      b.packet + gap + Compressed(b.packet, b.table, d),
      Register(b.packet, b.table, d, |b.packet| + |gap|, b.table))
  }

  function AddQuestion(b: Builder, q: Question): Builder
    requires GoodBuilder(b) && GoodLabels(q.name)
  {
    AddBytes(AddName(b, [], q.name), Short(q.qtype) + Short(q.qclass))
  }

  /** The length of a compressed name, for the field rdlength. */
  function NameLen(b: Builder, d: Domain): (n: nat)
    requires GoodBuilder(b) && GoodName(d)
    ensures n <= 257
  {
    CompressedLength(b.packet, b.table, d);
    |Compressed(b.packet, b.table, d)|
  }

  lemma {:induction false} CompressedLength(s: bytes, table: seq<nat>, d: Domain)
    requires GoodTable(s, table) && GoodLabels(d)
    ensures |Compressed(s, table, d)| <= |Dotted(d)| + 2
  {
    match d
    case Root =>
    case Sub(_, parent) => CompressedLength(s, table, parent);
  }

  function AddRData(b: Builder, r: RData): Builder
    requires GoodBuilder(b) && GoodRData(r)
  {
    match r
    case Address(ip) => AddBytes(b, Short(4) + Long(ip))
    case Host(target) => AddName(b, Short(NameLen(b, target)), target)
    case Service(priority, weight, port, target) =>
      AddName(b, Short(6 + NameLen(b, target)) + (Short(priority) + (Short(weight) + Short(port))), target)
    case Raw(data) => AddBytes(b, Short(|data|) + data)
  }

  /** The part of a record in front of its data: _rrappend. */
  function AddFields(b: Builder, r: Record): Builder
    requires GoodBuilder(b) && GoodLabels(r.name)
  {
    AddBytes(AddName(b, [], r.name), Short(r.rtype) + (Short(r.rclass) + Long(r.ttl)))
  }

  // ---------------------------------------------------------------- reading

  datatype ParsedQuestion = ParsedQuestion(name: bytes, qtype: u16, qclass: u16)

  /** The union `known`. */
  datatype Known =
    | KnownAddress(ip: u32)
    | KnownName(name: bytes)
    | KnownService(priority: u16, weight: u16, port: u16, name: bytes)
    | Unknown

  datatype ParsedRecord = ParsedRecord(name: bytes, rtype: u16, rclass: u16, ttl: u32, rdata: bytes, known: Known)

  datatype ParsedMessage = ParsedMessage(
    id: u16, header: Header, qd: seq<ParsedQuestion>, an: seq<ParsedRecord>, ns: seq<ParsedRecord>,
    ar: seq<ParsedRecord>)

  /** _label: the text of the name at `p`; None where the source gives up or leaves the packet. */
  function TextAt(s: bytes, p: nat): Option<bytes> {
    match NameAt(s, p, p)
    case None => None
    case Some(d) => if |Dotted(d)| <= 256 then Some(Dotted(d)) else None
  }

  function QuestionAt(s: bytes, p: nat): Option<(ParsedQuestion, nat)> {
    var name, e := TextAt(s, p), NameEnd(s, p);
    if name.None? || e + 4 > |s| then None
    else Some((ParsedQuestion(name.value, ShortAt(s, e), ShortAt(s, e + 2)), e + 4))
  }

  /** The cases of _rrparse: the data at `p`, and where the next record starts. */
  function KnownAt(s: bytes, p: nat, rtype: u16, rdlength: u16): Option<(Known, nat)> {
    if rtype == QTYPE_A then
      if p + 4 > |s| then None else Some((KnownAddress(LongAt(s, p)), p + 4))
    else if IsNameType(rtype) then
      match TextAt(s, p)
      case None => None
      case Some(name) => Some((KnownName(name), NameEnd(s, p)))
    else if rtype == QTYPE_SRV then
      if p + 6 > |s| || TextAt(s, p + 6).None? then None
      else Some((KnownService(ShortAt(s, p), ShortAt(s, p + 2), ShortAt(s, p + 4), TextAt(s, p + 6).value),
          NameEnd(s, p + 6)))
    else Some((Unknown, p + rdlength))
  }

  /** One round of the loop of _rrparse. */
  function RecordAt(s: bytes, p: nat): Option<(ParsedRecord, nat)> {
    var name, e := TextAt(s, p), NameEnd(s, p);
    if name.None? || e + 10 > |s| then None
    else
      var rtype, rdlength := ShortAt(s, e), ShortAt(s, e + 8);
      if e + 10 + rdlength > MAX_PACKET_LEN || e + 10 + rdlength > |s| then None
      else
        match KnownAt(s, e + 10, rtype, rdlength)
        case None => None
        case Some((known, next)) =>
          Some((ParsedRecord(
                  name.value, rtype, ShortAt(s, e + 2), LongAt(s, e + 4), s[e + 10..e + 10 + rdlength], known), next))
  }

  // ---------------------------------------------------------------- one name

  /** A name behind a gap, in the packet `q` that goes on from there. */
  lemma NameReads(b: Builder, gap: bytes, d: Domain, q: bytes)
    requires GoodBuilder(b) && GoodName(d) && Agree(AddName(b, gap, d).packet, q) && |AddName(b, gap, d).packet| <= 4096
    ensures GoodBuilder(AddName(b, gap, d))
    ensures Holds(q, |b.packet|, gap)
    ensures TextAt(q, |b.packet| + |gap|) == Some(Dotted(d))
    ensures NameEnd(q, |b.packet| + |gap|) == |AddName(b, gap, d).packet|
  {
    var b' := AddName(b, gap, d);
    var p := |b.packet| + |gap|;
    var c := Compressed(b.packet, b.table, d);
    assert Agree(b.packet, b'.packet) && Agree(b.packet, q);
    assert Holds(b'.packet, p, c) && Holds(b'.packet, |b.packet|, gap);
    HoldsAgrees(b'.packet, q, p, c);
    HoldsAgrees(b'.packet, q, |b.packet|, gap);
    CompressedReads(b.packet, b.table, d, q, p, p);
    TableAgrees(b.packet, b'.packet, b.table);
    RegisterIsGood(b.packet, b.table, d, b'.packet, p, b.table);
  }

  lemma BytesRead(b: Builder, x: bytes, q: bytes)
    requires GoodBuilder(b) && Agree(AddBytes(b, x).packet, q)
    ensures GoodBuilder(AddBytes(b, x)) && Holds(q, |b.packet|, x) && Agree(b.packet, q)
  {
    assert Agree(b.packet, AddBytes(b, x).packet) && Holds(AddBytes(b, x).packet, |b.packet|, x);
    HoldsAgrees(AddBytes(b, x).packet, q, |b.packet|, x);
    TableAgrees(b.packet, AddBytes(b, x).packet, b.table);
  }

  // ---------------------------------------------------------------- questions and records

  function ExpectedQuestion(q: Question): ParsedQuestion {
    ParsedQuestion(Dotted(q.name), q.qtype, q.qclass)
  }

  lemma QuestionReads(b: Builder, x: Question, q: bytes)
    requires GoodBuilder(b) && GoodName(x.name)
    requires Agree(AddQuestion(b, x).packet, q) && |AddQuestion(b, x).packet| <= 4096
    ensures GoodBuilder(AddQuestion(b, x))
    ensures QuestionAt(q, |b.packet|) == Some((ExpectedQuestion(x), |AddQuestion(b, x).packet|))
  {
    var b1 := AddName(b, [], x.name);
    assert Agree(b1.packet, AddQuestion(b, x).packet);
    NameReads(b, [], x.name, q);
    BytesRead(b1, Short(x.qtype) + Short(x.qclass), q);
    HoldsParts(q, |b1.packet|, Short(x.qtype), Short(x.qclass));
    ShortReads(q, |b1.packet|, x.qtype);
    ShortReads(q, |b1.packet| + 2, x.qclass);
  }

  /** The bytes in front of the data: its length field. */
  function RDataLength(b: Builder, r: RData): u16
    requires GoodBuilder(b) && GoodRData(r)
  {
    match r
    case Address(_) => 4
    case Host(target) => NameLen(b, target)
    case Service(_, _, _, target) => 6 + NameLen(b, target)
    case Raw(data) => |data|
  }

  function ExpectedKnown(r: RData): Known {
    match r
    case Address(ip) => KnownAddress(ip)
    case Host(target) => KnownName(Dotted(target))
    case Service(priority, weight, port, target) => KnownService(priority, weight, port, Dotted(target))
    case Raw(_) => Unknown
  }

  /** The data of a record in `q`: its length field, and behind it what the case of its type reads. */
  ghost predicate DataReads(b: Builder, r: RData, rtype: u16, q: bytes)
    requires GoodBuilder(b) && GoodRData(r)
  {
    var p, end := |b.packet|, |AddRData(b, r).packet|;
    && p + 2 + RDataLength(b, r) == end <= |q| && ShortAt(q, p) == RDataLength(b, r)
    && KnownAt(q, p + 2, rtype, RDataLength(b, r)) == Some((ExpectedKnown(r), end))
    && (r.Address? ==> q[p + 2..end] == Long(r.ip))
    && (r.Raw? ==> q[p + 2..end] == r.data)
  }

  lemma BytesDataReads(b: Builder, r: RData, rtype: u16, q: bytes, n: u16, x: bytes)
    requires GoodBuilder(b) && GoodRData(r) && (r.Address? || r.Raw?) && TypeFits(rtype, r)
    requires Agree(AddRData(b, r).packet, q)
    requires n == RDataLength(b, r) && x == if r.Address? then Long(r.ip) else r.data
    ensures GoodBuilder(AddRData(b, r)) && DataReads(b, r, rtype, q)
  {
    var p := |b.packet|;
    BytesRead(b, Short(n) + x, q);
    HoldsParts(q, p, Short(n), x);
    ShortReads(q, p, n);
    if r.Address? {
      LongReads(q, p + 2, r.ip);
    }
  }

  lemma HostDataReads(b: Builder, target: Domain, rtype: u16, q: bytes)
    requires GoodBuilder(b) && GoodName(target) && IsNameType(rtype)
    requires Agree(AddRData(b, Host(target)).packet, q) && |AddRData(b, Host(target)).packet| <= 4096
    ensures GoodBuilder(AddRData(b, Host(target))) && DataReads(b, Host(target), rtype, q)
  {
    var n := NameLen(b, target);
    NameReads(b, Short(n), target, q);
    ShortReads(q, |b.packet|, n);
  }

  lemma ServiceGapReads(q: bytes, p: nat, n: u16, priority: u16, weight: u16, port: u16)
    requires Holds(q, p, Short(n) + (Short(priority) + (Short(weight) + Short(port))))
    ensures p + 8 <= |q| && ShortAt(q, p) == n
    ensures ShortAt(q, p + 2) == priority && ShortAt(q, p + 4) == weight && ShortAt(q, p + 6) == port
  {
    HoldsParts(q, p, Short(n), Short(priority) + (Short(weight) + Short(port)));
    HoldsParts(q, p + 2, Short(priority), Short(weight) + Short(port));
    HoldsParts(q, p + 4, Short(weight), Short(port));
    ShortReads(q, p, n);
    ShortReads(q, p + 2, priority);
    ShortReads(q, p + 4, weight);
    ShortReads(q, p + 6, port);
  }

  lemma ServiceDataReads(b: Builder, r: RData, q: bytes)
    requires GoodBuilder(b) && r.Service? && GoodName(r.target)
    requires Agree(AddRData(b, r).packet, q) && |AddRData(b, r).packet| <= 4096
    ensures GoodBuilder(AddRData(b, r)) && DataReads(b, r, QTYPE_SRV, q)
  {
    var n: u16 := 6 + NameLen(b, r.target);
    var gap := Short(n) + (Short(r.priority) + (Short(r.weight) + Short(r.port)));
    NameReads(b, gap, r.target, q);
    ServiceGapReads(q, |b.packet|, n, r.priority, r.weight, r.port);
  }

  lemma RDataReads(b: Builder, r: RData, rtype: u16, q: bytes)
    requires GoodBuilder(b) && GoodRData(r) && TypeFits(rtype, r)
    requires Agree(AddRData(b, r).packet, q) && |AddRData(b, r).packet| <= 4096
    ensures GoodBuilder(AddRData(b, r)) && DataReads(b, r, rtype, q)
  {
    match r
    case Address(ip) => BytesDataReads(b, r, rtype, q, 4, Long(ip));
    case Raw(data) => BytesDataReads(b, r, rtype, q, |data|, data);
    case Host(target) => HostDataReads(b, target, rtype, q);
    case Service(_, _, _, _) => ServiceDataReads(b, r, q);
  }

  lemma FieldsRead(b: Builder, r: Record, q: bytes)
    requires GoodBuilder(b) && GoodName(r.name)
    requires Agree(AddFields(b, r).packet, q) && |AddFields(b, r).packet| <= 4096
    ensures GoodBuilder(AddFields(b, r))
    ensures
      var e := NameEnd(q, |b.packet|);
      && TextAt(q, |b.packet|) == Some(Dotted(r.name)) && e + 8 == |AddFields(b, r).packet|
      && ShortAt(q, e) == r.rtype && ShortAt(q, e + 2) == r.rclass && LongAt(q, e + 4) == r.ttl
  {
    var b1 := AddName(b, [], r.name);
    var p := |b1.packet|;
    assert Agree(b1.packet, AddFields(b, r).packet);
    NameReads(b, [], r.name, q);
    BytesRead(b1, Short(r.rtype) + (Short(r.rclass) + Long(r.ttl)), q);
    HoldsParts(q, p, Short(r.rtype), Short(r.rclass) + Long(r.ttl));
    HoldsParts(q, p + 2, Short(r.rclass), Long(r.ttl));
    ShortReads(q, p, r.rtype);
    ShortReads(q, p + 2, r.rclass);
    LongReads(q, p + 4, r.ttl);
  }

  /** What the parser has to report for the record `r`: its data bytes may be compressed, unless they are no name. */
  predicate Reports(r: Record, x: ParsedRecord) {
    && x.name == Dotted(r.name) && x.rtype == r.rtype && x.rclass == r.rclass && x.ttl == r.ttl
    && x.known == ExpectedKnown(r.data)
    && (r.data.Address? ==> x.rdata == Long(r.data.ip))
    && (r.data.Raw? ==> x.rdata == r.data.data)
  }

  // ---------------------------------------------------------------- sequences of calls

  predicate GoodRecords(l: seq<Record>) {
    forall x :: x in l ==> GoodRecord(x)
  }

  predicate GoodQuestions(l: seq<Question>) {
    forall x :: x in l ==> GoodName(x.name)
  }

  /** The packet has room for what was added. */
  predicate Fits(b: Builder) {
    |b.packet| <= MAX_PACKET_LEN
  }

  /** message_an, message_ns or message_ar, and a call for the data; None when the packet is too small. */
  function AddRecord(b: Builder, r: Record): (r': Option<Builder>)
    requires GoodBuilder(b) && GoodRecord(r)
    ensures r'.Some? ==> GoodBuilder(r'.value) && Agree(b.packet, r'.value.packet) && Fits(r'.value)
  {
    var b1 := AddFields(b, r);
    if !Fits(b1) then None
    else
      FieldsAreGood(b, r);
      var b2 := AddRData(b1, r.data);
      if !Fits(b2) then None
      else
        DataIsGood(b1, r.data, r.rtype);
        Some(b2)
  }

  lemma FieldsAreGood(b: Builder, r: Record)
    requires GoodBuilder(b) && GoodName(r.name) && Fits(AddFields(b, r))
    ensures GoodBuilder(AddFields(b, r)) && Agree(b.packet, AddFields(b, r).packet)
  {
    FieldsRead(b, r, AddFields(b, r).packet);
  }

  lemma DataIsGood(b: Builder, r: RData, rtype: u16)
    requires GoodBuilder(b) && GoodRData(r) && TypeFits(rtype, r) && Fits(AddRData(b, r))
    ensures GoodBuilder(AddRData(b, r)) && Agree(b.packet, AddRData(b, r).packet)
  {
    RDataReads(b, r, rtype, AddRData(b, r).packet);
  }

  lemma QuestionIsGood(b: Builder, x: Question)
    requires GoodBuilder(b) && GoodName(x.name) && Fits(AddQuestion(b, x))
    ensures GoodBuilder(AddQuestion(b, x)) && Agree(b.packet, AddQuestion(b, x).packet)
  {
    QuestionReads(b, x, AddQuestion(b, x).packet);
  }

  function AddRecords(b: Builder, l: seq<Record>): (r: Option<Builder>)
    requires GoodBuilder(b) && Fits(b) && GoodRecords(l)
    ensures r.Some? ==> GoodBuilder(r.value) && Agree(b.packet, r.value.packet) && Fits(r.value)
    decreases |l|
  {
    if l == [] then Some(b)
    else
      match AddRecord(b, l[0])
      case None => None
      case Some(b') => AddRecords(b', l[1..])
  }

  function AddQuestions(b: Builder, l: seq<Question>): (r: Option<Builder>)
    requires GoodBuilder(b) && Fits(b) && GoodQuestions(l)
    ensures r.Some? ==> GoodBuilder(r.value) && Agree(b.packet, r.value.packet) && Fits(r.value)
    decreases |l|
  {
    if l == [] then Some(b)
    else
      var b' := AddQuestion(b, l[0]);
      if !Fits(b') then None
      else
        QuestionIsGood(b, l[0]);
        AddQuestions(b', l[1..])
  }

  function QuestionsAt(s: bytes, p: nat, n: nat): Option<(seq<ParsedQuestion>, nat)>
    decreases n
  {
    if n == 0 then Some(([], p))
    else
      match QuestionAt(s, p)
      case None => None
      case Some((x, next)) =>
        match QuestionsAt(s, next, n - 1)
        case None => None
        case Some((l, end)) => Some(([x] + l, end))
  }

  function RecordsAt(s: bytes, p: nat, n: nat): Option<(seq<ParsedRecord>, nat)>
    decreases n
  {
    if n == 0 then Some(([], p))
    else
      match RecordAt(s, p)
      case None => None
      case Some((x, next)) =>
        match RecordsAt(s, next, n - 1)
        case None => None
        case Some((l, end)) => Some(([x] + l, end))
  }

  /** A record whose fields end at `e + 8`, in front of data that can be read. */
  lemma RecordAssembles(b: Builder, r: Record, q: bytes, p: nat)
    requires GoodBuilder(b) && GoodRecord(r) && DataReads(b, r.data, r.rtype, q) && Fits(AddRData(b, r.data))
    requires TextAt(q, p) == Some(Dotted(r.name)) && NameEnd(q, p) + 8 == |b.packet|
    requires
      var e := NameEnd(q, p);
      ShortAt(q, e) == r.rtype && ShortAt(q, e + 2) == r.rclass && LongAt(q, e + 4) == r.ttl
    ensures
      var x := RecordAt(q, p);
      x.Some? && Reports(r, x.value.0) && x.value.1 == |AddRData(b, r.data).packet|
  {
  }

  lemma RecordReads(b: Builder, r: Record, q: bytes)
    requires GoodBuilder(b) && GoodRecord(r) && AddRecord(b, r).Some? && Agree(AddRecord(b, r).value.packet, q)
    ensures
      var x := RecordAt(q, |b.packet|);
      x.Some? && Reports(r, x.value.0) && x.value.1 == |AddRecord(b, r).value.packet|
  {
    FieldsAreGood(b, r);
    var b1 := AddFields(b, r);
    DataIsGood(b1, r.data, r.rtype);
    AgreeTrans(b1.packet, AddRData(b1, r.data).packet, q);
    FieldsRead(b, r, q);
    RDataReads(b1, r.data, r.rtype, q);
    RecordAssembles(b1, r, q, |b.packet|);
  }

  lemma RecordsAtStep(q: bytes, p: nat, n: nat)
    requires RecordAt(q, p).Some? && RecordsAt(q, RecordAt(q, p).value.1, n).Some?
    ensures
      var r := RecordsAt(q, RecordAt(q, p).value.1, n).value;
      RecordsAt(q, p, n + 1) == Some(([RecordAt(q, p).value.0] + r.0, r.1))
  {
  }

  ghost predicate AllReport(l: seq<Record>, l': seq<ParsedRecord>) {
    |l| == |l'| && forall i :: 0 <= i < |l| ==> Reports(l[i], l'[i])
  }

  lemma {:induction false} RecordsRead(b: Builder, l: seq<Record>, q: bytes)
    requires GoodBuilder(b) && Fits(b) && GoodRecords(l)
    requires AddRecords(b, l).Some? && Agree(AddRecords(b, l).value.packet, q)
    ensures
      var r := RecordsAt(q, |b.packet|, |l|);
      r.Some? && AllReport(l, r.value.0) && r.value.1 == |AddRecords(b, l).value.packet|
    decreases |l|
  {
    if l != [] {
      var b' := AddRecord(b, l[0]).value;
      AgreeTrans(b'.packet, AddRecords(b', l[1..]).value.packet, q);
      RecordReads(b, l[0], q);
      RecordsRead(b', l[1..], q);
      RecordsAtStep(q, |b.packet|, |l| - 1);
      AllReportFirst(l[0], l[1..], RecordAt(q, |b.packet|).value.0, RecordsAt(q, |b'.packet|, |l| - 1).value.0);
      assert l == [l[0]] + l[1..];
    }
  }

  lemma AllReportFirst(r: Record, l: seq<Record>, x: ParsedRecord, l': seq<ParsedRecord>)
    requires Reports(r, x) && AllReport(l, l')
    ensures AllReport([r] + l, [x] + l')
  {
    forall i | 0 <= i < |[r] + l| ensures Reports(([r] + l)[i], ([x] + l')[i]) {
      if i > 0 {
        assert Reports(l[i - 1], l'[i - 1]);
      }
    }
  }

  ghost predicate AllExpected(l: seq<Question>, l': seq<ParsedQuestion>) {
    |l| == |l'| && forall i :: 0 <= i < |l| ==> l'[i] == ExpectedQuestion(l[i])
  }

  lemma QuestionsAtStep(q: bytes, p: nat, n: nat)
    requires QuestionAt(q, p).Some? && QuestionsAt(q, QuestionAt(q, p).value.1, n).Some?
    ensures
      var r := QuestionsAt(q, QuestionAt(q, p).value.1, n).value;
      QuestionsAt(q, p, n + 1) == Some(([QuestionAt(q, p).value.0] + r.0, r.1))
  {
  }

  lemma AllExpectedFirst(x: Question, l: seq<Question>, l': seq<ParsedQuestion>)
    requires AllExpected(l, l')
    ensures AllExpected([x] + l, [ExpectedQuestion(x)] + l')
  {
    forall i | 0 <= i < |[x] + l| ensures ([ExpectedQuestion(x)] + l')[i] == ExpectedQuestion(([x] + l)[i]) {
      if i > 0 {
        assert l'[i - 1] == ExpectedQuestion(l[i - 1]);
      }
    }
  }

  lemma {:induction false} QuestionsRead(b: Builder, l: seq<Question>, q: bytes)
    requires GoodBuilder(b) && Fits(b) && GoodQuestions(l)
    requires AddQuestions(b, l).Some? && Agree(AddQuestions(b, l).value.packet, q)
    ensures
      var r := QuestionsAt(q, |b.packet|, |l|);
      r.Some? && AllExpected(l, r.value.0) && r.value.1 == |AddQuestions(b, l).value.packet|
    decreases |l|
  {
    if l != [] {
      var b' := AddQuestion(b, l[0]);
      QuestionIsGood(b, l[0]);
      QuestionReads(b, l[0], q);
      QuestionsRead(b', l[1..], q);
      QuestionsAtStep(q, |b.packet|, |l| - 1);
      AllExpectedFirst(l[0], l[1..], QuestionsAt(q, |b'.packet|, |l| - 1).value.0);
      assert l == [l[0]] + l[1..];
    }
  }

  // ---------------------------------------------------------------- the header

  function Bit(b: bool): (n: nat)
    ensures n < 2
  {
    if b then 1 else 0
  }

  /** The two bytes of flags that message_packet sets. */
  function Flags(h: Header): (b: (byte, byte))
  {
    (Bit(h.qr) * 0x80 + h.opcode * 0x08 + Bit(h.aa) * 0x04 + Bit(h.tc) * 0x02 + Bit(h.rd),
     Bit(h.ra) * 0x80 + h.z * 0x10 + h.rcode)
  }

  /** The flags as message_parse takes them apart. */
  function HeaderOf(b0: byte, b1: byte): Header {
    Header(
      b0 / 0x80 == 1, b0 / 0x08 % 0x10, b0 / 0x04 % 2 == 1, b0 / 0x02 % 2 == 1, b0 % 2 == 1,
      b1 / 0x80 == 1, b1 / 0x10 % 0x08, b1 % 0x10)
  }

  /** A byte of a bit, four bits, and three bits. */
  lemma FirstFlags(qr: nat, opcode: nat, aa: nat, tc: nat, rd: nat)
    requires qr < 2 && opcode < 16 && aa < 2 && tc < 2 && rd < 2
    ensures
      var b := qr * 0x80 + opcode * 0x08 + aa * 0x04 + tc * 0x02 + rd;
      b / 0x80 == qr && b / 0x08 % 0x10 == opcode && b / 0x04 % 2 == aa && b / 0x02 % 2 == tc && b % 2 == rd
  {
    var low := aa * 0x04 + tc * 0x02 + rd;
    var b := qr * 0x80 + opcode * 0x08 + low;
    assert b / 0x08 == qr * 0x10 + opcode;
    assert b / 0x04 == qr * 0x20 + opcode * 0x02 + aa;
    assert b / 0x02 == qr * 0x40 + opcode * 0x04 + aa * 0x02 + tc;
  }

  /** A byte of a bit, three bits, and four bits. */
  lemma SecondFlags(ra: nat, z: nat, rcode: nat)
    requires ra < 2 && z < 8 && rcode < 16
    ensures
      var b := ra * 0x80 + z * 0x10 + rcode;
      b / 0x80 == ra && b / 0x10 % 0x08 == z && b % 0x10 == rcode
  {
    assert (ra * 0x80 + z * 0x10 + rcode) / 0x10 == ra * 0x08 + z;
  }

  lemma FlagsRead(h: Header)
    ensures HeaderOf(Flags(h).0, Flags(h).1) == h
  {
    FirstFlags(Bit(h.qr), h.opcode, Bit(h.aa), Bit(h.tc), Bit(h.rd));
    SecondFlags(Bit(h.ra), h.z, h.rcode);
  }

  ghost predicate GoodMessage(m: Message) {
    && |m.qd| < 0x10000 && |m.an| < 0x10000 && |m.ns| < 0x10000 && |m.ar| < 0x10000
    && GoodQuestions(m.qd) && GoodRecords(m.an) && GoodRecords(m.ns) && GoodRecords(m.ar)
  }

  function HeaderBytes(id: u16, h: Header, qd: u16, an: u16, ns: u16, ar: u16): (b: bytes)
    ensures |b| == HEADER_LEN
  {
    [Short(id)[0], Short(id)[1], Flags(h).0, Flags(h).1,
     Short(qd)[0], Short(qd)[1], Short(an)[0], Short(an)[1],
     Short(ns)[0], Short(ns)[1], Short(ar)[0], Short(ar)[1]]
  }

  /** The builder after all calls, which are made in the order of the sections. */
  function Built(m: Message): (r: Option<Builder>)
    requires GoodMessage(m)
    ensures r.Some? ==> GoodBuilder(r.value) && Fits(r.value)
  {
    match AddQuestions(EMPTY, m.qd)
    case None => None
    case Some(b) =>
      match AddRecords(b, m.an)
      case None => None
      case Some(b1) =>
        match AddRecords(b1, m.ns)
        case None => None
        case Some(b2) => AddRecords(b2, m.ar)
  }

  /** message_packet: the header goes in front of what was built. */
  function Packet(m: Message): Option<bytes>
    requires GoodMessage(m)
  {
    match Built(m)
    case None => None
    case Some(b) => Some(HeaderBytes(m.id, m.header, |m.qd|, |m.an|, |m.ns|, |m.ar|) + b.packet[HEADER_LEN..])
  }

  /** message_parse. */
  function Parse(s: bytes): Option<ParsedMessage> {
    if |s| < HEADER_LEN then None
    else
      match QuestionsAt(s, HEADER_LEN, ShortAt(s, 4))
      case None => None
      case Some((qd, p1)) =>
        match RecordsAt(s, p1, ShortAt(s, 6))
        case None => None
        case Some((an, p2)) =>
          match RecordsAt(s, p2, ShortAt(s, 8))
          case None => None
          case Some((ns, p3)) =>
            match RecordsAt(s, p3, ShortAt(s, 10))
            case None => None
            case Some((ar, p4)) => Some(ParsedMessage(ShortAt(s, 0), HeaderOf(s[2], s[3]), qd, an, ns, ar))
  }

  ghost predicate ReportsMessage(m: Message, x: ParsedMessage) {
    && x.id == m.id && x.header == m.header
    && AllExpected(m.qd, x.qd) && AllReport(m.an, x.an) && AllReport(m.ns, x.ns) && AllReport(m.ar, x.ar)
  }

  lemma HeaderReads(q: bytes, id: u16, h: Header, qd: u16, an: u16, ns: u16, ar: u16)
    requires HeaderBytes(id, h, qd, an, ns, ar) <= q
    ensures ShortAt(q, 0) == id && HeaderOf(q[2], q[3]) == h
    ensures ShortAt(q, 4) == qd && ShortAt(q, 6) == an && ShortAt(q, 8) == ns && ShortAt(q, 10) == ar
  {
    var b := HeaderBytes(id, h, qd, an, ns, ar);
    assert forall i :: 0 <= i < HEADER_LEN ==> q[i] == b[i];
    FlagsRead(h);
  }

  /** All sections of a packet that agrees with what was built. */
  lemma BodyReads(m: Message, q: bytes)
    requires GoodMessage(m) && Built(m).Some? && Agree(Built(m).value.packet, q)
    ensures
      var qd := QuestionsAt(q, HEADER_LEN, |m.qd|);
      && qd.Some? && AllExpected(m.qd, qd.value.0)
      && var an := RecordsAt(q, qd.value.1, |m.an|);
      && an.Some? && AllReport(m.an, an.value.0)
      && var ns := RecordsAt(q, an.value.1, |m.ns|);
      && ns.Some? && AllReport(m.ns, ns.value.0)
      && var ar := RecordsAt(q, ns.value.1, |m.ar|);
      && ar.Some? && AllReport(m.ar, ar.value.0)
  {
    var b := AddQuestions(EMPTY, m.qd).value;
    var b1 := AddRecords(b, m.an).value;
    var b2 := AddRecords(b1, m.ns).value;
    var b3 := AddRecords(b2, m.ar).value;
    AgreeTrans(b2.packet, b3.packet, q);
    AgreeTrans(b1.packet, b2.packet, q);
    AgreeTrans(b.packet, b1.packet, q);
    QuestionsRead(EMPTY, m.qd, q);
    RecordsRead(b, m.an, q);
    RecordsRead(b1, m.ns, q);
    RecordsRead(b2, m.ar, q);
  }

  lemma AgreeTrans(a: bytes, b: bytes, c: bytes)
    requires Agree(a, b) && Agree(b, c)
    ensures Agree(a, c)
  {
    forall i | HEADER_LEN <= i < |a| ensures a[i] == c[i] {
      assert a[i] == b[i];
    }
  }

  /**
    The round trip: every message whose packet has room is read back as it was
    written, with a dot behind every label, although its names share suffixes.
   */
  lemma RoundTrip(m: Message)
    requires GoodMessage(m) && Packet(m).Some?
    ensures Parse(Packet(m).value).Some? && ReportsMessage(m, Parse(Packet(m).value).value)
  {
    var q := Packet(m).value;
    HeaderReads(q, m.id, m.header, |m.qd|, |m.an|, |m.ns|, |m.ar|);
    BodyReads(m, q);
  }
}
