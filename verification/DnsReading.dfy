/**
  Which packets message_parse reads, and as what: questions and records one behind the
  other, each in the octets of section 4.1 of RFC 1035.
 */
module DnsReading {
  import opened Bytes
  import opened Wrappers
  import opened Dns
  import opened DnsLaws
  import opened DnsMessage
  import opened DnsOctets

  // ---------------------------------------------------------------- numbers

  lemma ShortIs(s: bytes, p: nat, n: u16)
    requires p + 2 <= |s|
    ensures ShortAt(s, p) == n <==> s[p..p + 2] == Octets2(n)
  {
    assert s[p..p + 2] == [s[p], s[p + 1]];
    assert [s[p], s[p + 1]] == Octets2(n) <==> s[p] == n / 256 && s[p + 1] == n % 256 by {
      assert [s[p], s[p + 1]][0] == s[p] && [s[p], s[p + 1]][1] == s[p + 1];
      assert Octets2(n)[0] == n / 256 && Octets2(n)[1] == n % 256;
    }
  }

  lemma LongIs(s: bytes, p: nat, n: u32)
    requires p + 4 <= |s|
    ensures LongAt(s, p) == n <==> s[p..p + 4] == Octets4(n)
  {
    var b := s[p..p + 4];
    assert b == [s[p], s[p + 1], s[p + 2], s[p + 3]];
    OctetsAre(0, n);
    if b == Octets4(n) {
      LongReads(s, p, n);
    } else if LongAt(s, p) == n {
      LongDigits(s[p], s[p + 1], s[p + 2], s[p + 3]);
    }
  }

  lemma LongDigits(a: byte, b: byte, c: byte, d: byte)
    ensures
      var n := ((a * 256 + b) * 256 + c) * 256 + d;
      n < 0x1_0000_0000 && Octets4(n) == [a, b, c, d]
  {
    var n := ((a * 256 + b) * 256 + c) * 256 + d;
    assert n / 256 == (a * 256 + b) * 256 + c && n % 256 == d;
    assert n / 65536 == a * 256 + b && n / 16777216 == a;
  }

  /** The place that two octets above 63 lead to: 14 bits behind two that are set, or the last place there is. */
  lemma PlaceOfPointer(hi: byte, lo: byte)
    requires hi >= 64
    ensures Offset(hi, lo) == if 192 <= hi < 208 then (hi - 192) * 256 + lo else 4095
  {
  }

  // ---------------------------------------------------------------- questions and records

  /** Name, type and class, from `p` up to `next`. */
  lemma QuestionIs(s: bytes, p: nat, q: ParsedQuestion, next: nat)
    ensures
      QuestionAt(s, p) == Some((q, next))
      <==> && TextAt(s, p) == Some(q.name) && next == NameEnd(s, p) + 4 && next <= |s|
           && s[next - 4..next - 2] == Octets2(q.qtype) && s[next - 2..next] == Octets2(q.qclass)
  {
    var e := NameEnd(s, p);
    if e + 4 <= |s| {
      ShortIs(s, e, q.qtype);
      ShortIs(s, e + 2, q.qclass);
    }
  }

  /** What is known of the data at `p`, by its type, and where the next record starts. */
  ghost predicate DataIs(s: bytes, p: nat, rtype: u16, rdlength: u16, known: Known, next: nat) {
    match known
    case KnownAddress(ip) => rtype == 1 && next == p + 4 <= |s| && s[p..p + 4] == Octets4(ip)
    case KnownName(name) => rtype in {2, 5, 12} && TextAt(s, p) == Some(name) && next == NameEnd(s, p)
    case KnownService(priority, weight, port, name) =>
      && rtype == 33 && p + 6 <= |s| && s[p..p + 2] == Octets2(priority) && s[p + 2..p + 4] == Octets2(weight)
      && s[p + 4..p + 6] == Octets2(port) && TextAt(s, p + 6) == Some(name) && next == NameEnd(s, p + 6)
    case Unknown => rtype !in {1, 2, 5, 12, 33} && next == p + rdlength
  }

  lemma KnownIs(s: bytes, p: nat, rtype: u16, rdlength: u16, known: Known, next: nat)
    ensures KnownAt(s, p, rtype, rdlength) == Some((known, next)) <==> DataIs(s, p, rtype, rdlength, known, next)
  {
    if rtype == 1 && p + 4 <= |s| && known.KnownAddress? {
      LongIs(s, p, known.ip);
    }
    if rtype == 33 && p + 6 <= |s| && known.KnownService? {
      ShortIs(s, p, known.priority);
      ShortIs(s, p + 2, known.weight);
      ShortIs(s, p + 4, known.port);
    }
  }

  /** The fields of a record behind its name, at `e`, and its data. */
  ghost predicate FieldsAre(s: bytes, e: nat, r: ParsedRecord) {
    && |r.rdata| < 65536 && e + 10 + |r.rdata| <= |s|
    && s[e..e + 2] == Octets2(r.rtype) && s[e + 2..e + 4] == Octets2(r.rclass) && s[e + 4..e + 8] == Octets4(r.ttl)
    && s[e + 8..e + 10] == Octets2(|r.rdata|) && s[e + 10..e + 10 + |r.rdata|] == r.rdata
  }

  lemma FieldsIs(s: bytes, e: nat, r: ParsedRecord)
    requires e + 10 <= |s|
    ensures
      FieldsAre(s, e, r)
      <==> && e + 10 + ShortAt(s, e + 8) <= |s| && r.rtype == ShortAt(s, e) && r.rclass == ShortAt(s, e + 2)
           && r.ttl == LongAt(s, e + 4) && r.rdata == s[e + 10..e + 10 + ShortAt(s, e + 8)]
  {
    ShortIs(s, e, r.rtype);
    ShortIs(s, e + 2, r.rclass);
    LongIs(s, e + 4, r.ttl);
    if |r.rdata| < 65536 {
      ShortIs(s, e + 8, |r.rdata|);
    }
  }

  /** A record from `p` up to `next`: no longer than 4000 octets and the packet allow. */
  lemma RecordIs(s: bytes, p: nat, r: ParsedRecord, next: nat)
    ensures
      var e := NameEnd(s, p);
      RecordAt(s, p) == Some((r, next))
      <==> && TextAt(s, p) == Some(r.name) && FieldsAre(s, e, r) && e + 10 + |r.rdata| <= 4000
           && DataIs(s, e + 10, r.rtype, |r.rdata|, r.known, next)
  {
    var e := NameEnd(s, p);
    if e + 10 <= |s| {
      FieldsIs(s, e, r);
      KnownIs(s, e + 10, r.rtype, ShortAt(s, e + 8), r.known, next);
    }
  }

  // ---------------------------------------------------------------- sections

  /** The questions `l` are one behind the other from `at[0]` on. */
  ghost predicate QuestionsFrom(s: bytes, at: seq<nat>, l: seq<ParsedQuestion>) {
    |at| == |l| + 1 && forall i :: 0 <= i < |l| ==> QuestionAt(s, at[i]) == Some((l[i], at[i + 1]))
  }

  ghost predicate RecordsFrom(s: bytes, at: seq<nat>, l: seq<ParsedRecord>) {
    |at| == |l| + 1 && forall i :: 0 <= i < |l| ==> RecordAt(s, at[i]) == Some((l[i], at[i + 1]))
  }

  lemma {:induction false} QuestionsAre(s: bytes, p: nat, n: nat) returns (at: seq<nat>)
    requires QuestionsAt(s, p, n).Some?
    ensures
      var (l, end) := QuestionsAt(s, p, n).value;
      |l| == n && QuestionsFrom(s, at, l) && at[0] == p && at[n] == end
    decreases n
  {
    at := [p];
    if n > 0 {
      var rest := QuestionsAre(s, QuestionAt(s, p).value.1, n - 1);
      at := [p] + rest;
    }
  }

  lemma {:induction false} RecordsAre(s: bytes, p: nat, n: nat) returns (at: seq<nat>)
    requires RecordsAt(s, p, n).Some?
    ensures
      var (l, end) := RecordsAt(s, p, n).value;
      |l| == n && RecordsFrom(s, at, l) && at[0] == p && at[n] == end
    decreases n
  {
    at := [p];
    if n > 0 {
      var rest := RecordsAre(s, RecordAt(s, p).value.1, n - 1);
      at := [p] + rest;
    }
  }

  lemma {:induction false} QuestionsRead(s: bytes, at: seq<nat>, l: seq<ParsedQuestion>)
    requires QuestionsFrom(s, at, l)
    ensures QuestionsAt(s, at[0], |l|) == Some((l, at[|l|]))
    decreases |l|
  {
    if l != [] {
      forall i | 0 <= i < |l[1..]| ensures QuestionAt(s, at[1..][i]) == Some((l[1..][i], at[1..][i + 1])) {
        assert QuestionAt(s, at[i + 1]) == Some((l[i + 1], at[i + 2]));
      }
      QuestionsRead(s, at[1..], l[1..]);
      assert at[1..][0] == at[1] && QuestionAt(s, at[0]) == Some((l[0], at[1])) && [l[0]] + l[1..] == l;
    }
  }

  lemma {:induction false} RecordsRead(s: bytes, at: seq<nat>, l: seq<ParsedRecord>)
    requires RecordsFrom(s, at, l)
    ensures RecordsAt(s, at[0], |l|) == Some((l, at[|l|]))
    decreases |l|
  {
    if l != [] {
      forall i | 0 <= i < |l[1..]| ensures RecordAt(s, at[1..][i]) == Some((l[1..][i], at[1..][i + 1])) {
        assert RecordAt(s, at[i + 1]) == Some((l[i + 1], at[i + 2]));
      }
      RecordsRead(s, at[1..], l[1..]);
      assert at[1..][0] == at[1] && RecordAt(s, at[0]) == Some((l[0], at[1])) && [l[0]] + l[1..] == l;
    }
  }

  // ---------------------------------------------------------------- packets

  /** The places of everything in a packet, section by section. */
  datatype Places = Places(qd: seq<nat>, an: seq<nat>, ns: seq<nat>, ar: seq<nat>)

  /** Each section starts where the one in front of it ends. */
  ghost predicate Laid(s: bytes, at: Places, m: ParsedMessage) {
    && QuestionsFrom(s, at.qd, m.qd) && RecordsFrom(s, at.an, m.an) && RecordsFrom(s, at.ns, m.ns)
    && RecordsFrom(s, at.ar, m.ar)
    && at.qd[0] == 12 && at.an[0] == at.qd[|m.qd|] && at.ns[0] == at.an[|m.an|] && at.ar[0] == at.ns[|m.ns|]
  }

  /** The header of a packet with the counts of its sections. */
  ghost predicate HeaderIs(s: bytes, m: ParsedMessage) {
    && |m.qd| < 65536 && |m.an| < 65536 && |m.ns| < 65536 && |m.ar| < 65536
    && HeaderBytes(m.id, m.header, |m.qd|, |m.an|, |m.ns|, |m.ar|) <= s
  }

  lemma FirstByte(b: byte)
    ensures
      var h := HeaderOf(b, 0);
      b == Bit(h.qr) * 0x80 + h.opcode * 0x08 + Bit(h.aa) * 0x04 + Bit(h.tc) * 0x02 + Bit(h.rd)
  {
  }

  lemma SecondByte(b: byte)
    ensures
      var h := HeaderOf(0, b);
      b == Bit(h.ra) * 0x80 + h.z * 0x10 + h.rcode
  {
  }

  lemma HeaderRead(s: bytes, m: ParsedMessage)
    requires |s| >= 12
    ensures
      HeaderIs(s, m)
      <==> && ShortAt(s, 0) == m.id && HeaderOf(s[2], s[3]) == m.header && ShortAt(s, 4) == |m.qd|
           && ShortAt(s, 6) == |m.an| && ShortAt(s, 8) == |m.ns| && ShortAt(s, 10) == |m.ar|
  {
    if HeaderIs(s, m) {
      HeaderReads(s, m.id, m.header, |m.qd|, |m.an|, |m.ns|, |m.ar|);
    }
    FirstByte(s[2]);
    SecondByte(s[3]);
    HeaderStarts(s);
  }

  /** The first octets of a packet are those of the header that is read. */
  lemma HeaderStarts(s: bytes)
    requires |s| >= 12
    ensures
      var h := HeaderOf(s[2], s[3]);
      HeaderBytes(ShortAt(s, 0), h, ShortAt(s, 4), ShortAt(s, 6), ShortAt(s, 8), ShortAt(s, 10)) <= s
  {
    FirstByte(s[2]);
    SecondByte(s[3]);
    ShortStarts(s, 0);
    ShortStarts(s, 4);
    ShortStarts(s, 6);
    ShortStarts(s, 8);
    ShortStarts(s, 10);
  }

  lemma ShortStarts(s: bytes, p: nat)
    requires p + 2 <= |s|
    ensures Short(ShortAt(s, p)) == [s[p], s[p + 1]]
  {
  }

  lemma PartsOf(s: bytes, m: ParsedMessage) returns (at: Places)
    requires Parse(s) == Some(m)
    ensures HeaderIs(s, m) && Laid(s, at, m)
  {
    var qd := QuestionsAre(s, 12, ShortAt(s, 4));
    var an := RecordsAre(s, qd[|qd| - 1], ShortAt(s, 6));
    var ns := RecordsAre(s, an[|an| - 1], ShortAt(s, 8));
    var ar := RecordsAre(s, ns[|ns| - 1], ShortAt(s, 10));
    at := Places(qd, an, ns, ar);
    HeaderRead(s, m);
  }

  lemma PartsRead(s: bytes, m: ParsedMessage, at: Places)
    requires HeaderIs(s, m) && Laid(s, at, m)
    ensures Parse(s) == Some(m)
  {
    HeaderRead(s, m);
    QuestionsRead(s, at.qd, m.qd);
    RecordsRead(s, at.an, m.an);
    RecordsRead(s, at.ns, m.ns);
    RecordsRead(s, at.ar, m.ar);
  }

  /** A packet is read as `m` exactly if its header says so, and the sections are laid out behind it. */
  lemma PacketIs(s: bytes, m: ParsedMessage)
    ensures Parse(s) == Some(m) <==> HeaderIs(s, m) && exists at: Places :: Laid(s, at, m)
  {
    if Parse(s) == Some(m) {
      var at := PartsOf(s, m);
    } else if at: Places :| HeaderIs(s, m) && Laid(s, at, m) {
      PartsRead(s, m, at);
    }
  }
}
