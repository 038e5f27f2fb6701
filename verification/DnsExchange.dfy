/**
  A client that builds a packet and reads it back: the calls of the library, in
  order, give the message that went in.
 */
module DnsExchange {
  import opened Bytes
  import opened Wrappers
  import opened Dns
  import opened DnsLaws
  import opened DnsMessage
  import DnsWire
  import opened DnsParse

  /** No label contains a dot, so that the name can be written as text. */
  predicate NoDots(d: Domain) {
    match d
    case Root => true
    case Sub(first, parent) => DOT !in first && NoDots(parent)
  }

  /** The text of a name stands for the name. */
  lemma {:induction false} SplitOfText(text: bytes, y: nat, cur: bytes, more: bytes, parent: Domain)
    requires y <= |text| && text[y..] == more + ([DOT] + Dotted(parent))
    requires DOT !in more && NoDots(parent) && GoodLabels(parent)
    ensures DnsWire.Split(text, y, cur) == Sub(cur + more, parent)
    decreases |text| - y
  {
    assert text[y] == (more + ([DOT] + Dotted(parent)))[0];
    assert text[y + 1..] == text[y..][1..];
    if more != [] {
      assert text[y + 1..] == more[1..] + ([DOT] + Dotted(parent));
      SplitOfText(text, y + 1, cur + [text[y]], more[1..], parent);
      assert cur + [text[y]] + more[1..] == cur + more;
    } else {
      assert text[y + 1..] == Dotted(parent) && cur + more == cur;
      match parent
      case Root =>
      case Sub(first, grand) =>
        assert first + [DOT] + Dotted(grand) == first + ([DOT] + Dotted(grand));
        SplitOfText(text, y + 1, [], first, grand);
        assert [] + first == first;
    }
  }

  lemma DomainOfText(d: Domain)
    requires NoDots(d) && GoodLabels(d)
    ensures DnsWire.DomainOf(Dotted(d)) == d
  {
    match d
    case Root =>
    case Sub(first, parent) =>
      var text := Dotted(d);
      assert text[0..] == first + ([DOT] + Dotted(parent));
      assert [] + first == first;
      assert |text| >= 2;
      SplitOfText(text, 0, [], first, parent);
  }

  predicate DotlessData(r: RData) {
    r.Host? || r.Service? ==> NoDots(r.target)
  }

  predicate DotlessRecords(l: seq<Record>) {
    forall x :: x in l ==> NoDots(x.name) && DotlessData(x.data)
  }

  predicate DotlessQuestions(l: seq<Question>) {
    forall x :: x in l ==> NoDots(x.name)
  }

  predicate Dotless(m: Message) {
    DotlessQuestions(m.qd) && DotlessRecords(m.an) && DotlessRecords(m.ns) && DotlessRecords(m.ar)
  }

  method SendQuestions(w: DnsWire.Message, l: seq<Question>)
    requires w.Valid() && GoodQuestions(l) && DotlessQuestions(l) && AddQuestions(w.Contents(), l).Some?
    modifies w, w.packet, w.labels
    ensures w.Valid() && w.packet == old(w.packet) && w.labels == old(w.labels)
    ensures w.Contents() == AddQuestions(old(w.Contents()), l).value
    ensures w.qdcount == old(w.qdcount) + |l|
    ensures w.ancount == old(w.ancount) && w.nscount == old(w.nscount) && w.arcount == old(w.arcount)
  {
    var i := 0;
    assert l[0..] == l;
    while i < |l|
      invariant 0 <= i <= |l| && w.Valid() && w.packet == old(w.packet) && w.labels == old(w.labels)
      invariant AddQuestions(w.Contents(), l[i..]) == AddQuestions(old(w.Contents()), l)
      invariant w.qdcount == old(w.qdcount) + i
      invariant w.ancount == old(w.ancount) && w.nscount == old(w.nscount) && w.arcount == old(w.arcount)
      decreases |l| - i
    {
      var x := l[i];
      assert l[i..][0] == x && l[i..][1..] == l[i + 1..] && x in l;
      DomainOfText(x.name);
      w.AddQd(Dotted(x.name), x.qtype, x.qclass);
      i := i + 1;
    }
  }

  method SendData(w: DnsWire.Message, r: RData)
    requires w.Valid() && GoodRData(r) && DotlessData(r) && Fits(AddRData(w.Contents(), r))
    modifies w`buf, w`labelCount, w.packet, w.labels
    ensures w.Valid() && w.Contents() == AddRData(old(w.Contents()), r)
  {
    match r {
      case Address(ip) => w.RDataLong(ip);
      case Host(target) =>
        DomainOfText(target);
        w.RDataName(Dotted(target));
      case Service(priority, weight, port, target) =>
        DomainOfText(target);
        w.RDataSrv(priority, weight, port, Dotted(target));
      case Raw(data) => w.RDataRaw(data);
    }
  }

  datatype Section = Answer | Authority | Additional

  method SendRecord(w: DnsWire.Message, r: Record, section: Section)
    requires w.Valid() && GoodRecord(r) && NoDots(r.name) && DotlessData(r.data) && AddRecord(w.Contents(), r).Some?
    modifies w, w.packet, w.labels
    ensures w.Valid() && w.packet == old(w.packet) && w.labels == old(w.labels)
    ensures w.Contents() == AddRecord(old(w.Contents()), r).value
    ensures w.qdcount == old(w.qdcount)
    ensures w.ancount == old(w.ancount) + (if section.Answer? then 1 else 0)
    ensures w.nscount == old(w.nscount) + (if section.Authority? then 1 else 0)
    ensures w.arcount == old(w.arcount) + (if section.Additional? then 1 else 0)
  {
    DomainOfText(r.name);
    ghost var b := w.Contents();
    match section {
      case Answer => w.AddAn(Dotted(r.name), r.rtype, r.rclass, r.ttl);
      case Authority => w.AddNs(Dotted(r.name), r.rtype, r.rclass, r.ttl);
      case Additional => w.AddAr(Dotted(r.name), r.rtype, r.rclass, r.ttl);
    }
    assert w.Contents() == AddFields(b, r);
    SendData(w, r.data);
  }

  method SendRecords(w: DnsWire.Message, l: seq<Record>, section: Section)
    requires w.Valid() && GoodRecords(l) && DotlessRecords(l) && Fits(w.Contents()) && AddRecords(w.Contents(), l).Some?
    modifies w, w.packet, w.labels
    ensures w.Valid() && w.packet == old(w.packet) && w.labels == old(w.labels)
    ensures w.Contents() == AddRecords(old(w.Contents()), l).value
    ensures w.qdcount == old(w.qdcount)
    ensures w.ancount == old(w.ancount) + (if section.Answer? then |l| else 0)
    ensures w.nscount == old(w.nscount) + (if section.Authority? then |l| else 0)
    ensures w.arcount == old(w.arcount) + (if section.Additional? then |l| else 0)
  {
    var i := 0;
    assert l[0..] == l;
    while i < |l|
      invariant 0 <= i <= |l| && w.Valid() && w.packet == old(w.packet) && w.labels == old(w.labels)
      invariant Fits(w.Contents()) && AddRecords(w.Contents(), l[i..]) == AddRecords(old(w.Contents()), l)
      invariant w.qdcount == old(w.qdcount)
      invariant w.ancount == old(w.ancount) + (if section.Answer? then i else 0)
      invariant w.nscount == old(w.nscount) + (if section.Authority? then i else 0)
      invariant w.arcount == old(w.arcount) + (if section.Additional? then i else 0)
      decreases |l| - i
    {
      var r := l[i];
      assert l[i..][0] == r && l[i..][1..] == l[i + 1..] && r in l;
      SendRecord(w, r, section);
      i := i + 1;
    }
  }

  /** All sections of a message, in order. */
  method SendSections(w: DnsWire.Message, m: Message)
    requires w.Valid() && w.Contents() == EMPTY && GoodMessage(m) && Dotless(m) && Built(m).Some?
    requires w.qdcount == w.ancount == w.nscount == w.arcount == 0
    modifies w, w.packet, w.labels
    ensures w.Valid() && w.packet == old(w.packet) && w.Contents() == Built(m).value
    ensures w.qdcount == |m.qd| && w.ancount == |m.an| && w.nscount == |m.ns| && w.arcount == |m.ar|
  {
    SendQuestions(w, m.qd);
    assert w.Contents() == AddQuestions(EMPTY, m.qd).value;
    SendRecords(w, m.an, Answer);
    ghost var b := w.Contents();
    SendRecords(w, m.ns, Authority);
    assert w.Contents() == AddRecords(b, m.ns).value;
    SendRecords(w, m.ar, Additional);
  }

  /** A message that fits in a packet is received as it was sent. */
  method Exchange(m: Message) returns (x: ParsedMessage)
    requires GoodMessage(m) && Dotless(m) && Packet(m).Some?
    ensures ReportsMessage(m, x)
  {
    var w := new DnsWire.Message();
    SendSections(w, m);
    var packet := w.FinishPacket(m.id, m.header);
    assert packet == Packet(m).value;
    RoundTrip(m);
    x := MessageParse(packet);
  }
}
