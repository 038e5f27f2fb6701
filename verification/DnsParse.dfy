/** message_parse, _rrparse and _label of dns/1035.c, on packets whose pointers lead backwards. */
module DnsParse {
  import opened Bytes
  import opened Wrappers
  import opened Dns
  import opened DnsLaws
  import opened DnsMessage

  /**
    _label: the text of the name at `start`, every label with a dot behind it, and where
    the name ends; it gives up without a text where that is longer than 256 bytes.
   */
  method Label(packet: bytes, start: nat) returns (r: Option<bytes>, next: nat)
    requires NameAt(packet, start, start).Some?
    ensures r == TextAt(packet, start) && next == if r.Some? then NameEnd(packet, start) else start
    ensures r.Some? <==> |Dotted(NameAt(packet, start, start).value)| <= 256
  {
    var name: bytes := [];
    var at: nat := start;
    ghost var lim: nat := start;
    ghost var rest := NameAt(packet, start, start).value;
    ghost var whole := Dotted(rest);
    assert [] + Dotted(rest) == Dotted(rest);
    while packet[at] != 0
      invariant at < |packet| && NameAt(packet, at, lim) == Some(rest)
      invariant whole == name + Dotted(rest) && |name| <= 256
      decreases lim, |packet| - at
    {
      at, lim := SkipPointers(packet, at, lim);
      var n: nat := packet[at];
      LabelHere(packet, at, lim, rest);
      LongerName(name, rest);
      if |name| + n > 255 { return None, start; }
      name := name + packet[at + 1..at + 1 + n];
      name := name + [DOT];
      at := at + n + 1;
      rest := rest.parent;
    }
    assert name + Dotted(rest) == name;
    NameEnds(packet, start, start);
    next := Skip(packet, start);
    r := Some(name);
  }

  /** The label at `at` of a name. */
  lemma LabelHere(packet: bytes, at: nat, lim: nat, d: Domain)
    requires at < |packet| && 0 < packet[at] < 0x40 && NameAt(packet, at, lim) == Some(d)
    ensures d.Sub? && |d.first| == packet[at]
    ensures
      var next := at + 1 + packet[at];
      next < |packet| && packet[at + 1..next] == d.first && NameAt(packet, next, lim) == Some(d.parent)
  {
  }

  /** One label moves to the text. */
  lemma LongerName(name: bytes, d: Domain)
    requires d.Sub?
    ensures name + Dotted(d) == (name + d.first + [DOT]) + Dotted(d.parent)
    ensures |name + Dotted(d)| >= |name| + |d.first| + 1
  {
  }

  /** The inner loop: past any compression pointers. */
  method SkipPointers(packet: bytes, start: nat, ghost lim: nat) returns (at: nat, ghost lim': nat)
    requires NameAt(packet, start, lim).Some? && packet[start] != 0
    ensures at < |packet| && NameAt(packet, at, lim') == NameAt(packet, start, lim)
    ensures 0 < packet[at] < 0x40 && (lim' < lim || (lim' == lim && at == start))
  {
    at, lim' := start, lim;
    while packet[at] >= 0x40
      invariant at < |packet| && packet[at] != 0 && NameAt(packet, at, lim') == NameAt(packet, start, lim)
      invariant lim' < lim || (lim' == lim && at == start)
      decreases lim'
    {
      at := Offset(packet[at], packet[at + 1]);
      lim' := at;
      if packet[at] == 0 { break; }
    }
  }

  /** The second loop of _label. */
  method Skip(packet: bytes, start: nat) returns (next: nat)
    requires NameEnd(packet, start) <= |packet|
    ensures next == NameEnd(packet, start)
  {
    var at: nat := start;
    while packet[at] != 0
      invariant at < |packet| && NameEnd(packet, at) == NameEnd(packet, start)
      decreases |packet| - at
    {
      if packet[at] >= 0x40 {
        at := at + 1;
        break;
      }
      at := at + (packet[at] as nat) + 1;
    }
    next := at + 1;
  }

  /** The cases of _rrparse. */
  method ParseKnown(packet: bytes, p: nat, rtype: u16, rdlength: u16) returns (known: Known, next: nat)
    requires KnownAt(packet, p, rtype, rdlength).Some?
    ensures Some((known, next)) == KnownAt(packet, p, rtype, rdlength)
  {
    if rtype == QTYPE_A {
      known, next := KnownAddress(LongAt(packet, p)), p + 4;
    } else if rtype == QTYPE_NS || rtype == QTYPE_CNAME || rtype == QTYPE_PTR {
      var name;
      name, next := Label(packet, p);
      known := KnownName(name.value);
    } else if rtype == QTYPE_SRV {
      var priority, weight, port := ShortAt(packet, p), ShortAt(packet, p + 2), ShortAt(packet, p + 4);
      var name;
      name, next := Label(packet, p + 6);
      known := KnownService(priority, weight, port, name.value);
    } else {
      known, next := Unknown, p + rdlength;
    }
  }

  /** One round of _rrparse. */
  method ParseRecord(packet: bytes, start: nat) returns (r: ParsedRecord, next: nat)
    requires RecordAt(packet, start).Some?
    ensures Some((r, next)) == RecordAt(packet, start)
  {
    var name, e := Label(packet, start);
    var rtype, rclass := ShortAt(packet, e), ShortAt(packet, e + 2);
    var ttl, rdlength := LongAt(packet, e + 4), ShortAt(packet, e + 8);
    var rdata := packet[e + 10..e + 10 + rdlength];
    var known;
    known, next := ParseKnown(packet, e + 10, rtype, rdlength);
    r := ParsedRecord(name.value, rtype, rclass, ttl, rdata, known);
  }

  /** The list `l` before the result of a loop. */
  ghost predicate GoesOn<T>(whole: Option<(seq<T>, nat)>, l: seq<T>, rest: Option<(seq<T>, nat)>) {
    whole.Some? && rest.Some? && whole.value == (l + rest.value.0, rest.value.1)
  }

  lemma GoesOnStart<T>(whole: Option<(seq<T>, nat)>)
    requires whole.Some?
    ensures GoesOn(whole, [], whole)
  {
    assert [] + whole.value.0 == whole.value.0;
  }

  lemma GoesOnStep<T>(whole: Option<(seq<T>, nat)>, l: seq<T>, x: T, here: Option<(seq<T>, nat)>,
      rest: Option<(seq<T>, nat)>)
    requires GoesOn(whole, l, here) && GoesOn(here, [x], rest)
    ensures GoesOn(whole, l + [x], rest)
  {
    assert l + ([x] + rest.value.0) == (l + [x]) + rest.value.0;
  }

  lemma GoesOnEnd<T>(whole: Option<(seq<T>, nat)>, l: seq<T>, next: nat)
    requires GoesOn(whole, l, Some(([], next)))
    ensures whole == Some((l, next))
  {
    assert l + [] == l;
  }

  lemma RecordsStep(s: bytes, p: nat, n: nat)
    requires n > 0 && RecordsAt(s, p, n).Some?
    ensures RecordAt(s, p).Some?
    ensures GoesOn(RecordsAt(s, p, n), [RecordAt(s, p).value.0], RecordsAt(s, RecordAt(s, p).value.1, n - 1))
  {
  }

  /** _rrparse. */
  method RrParse(packet: bytes, start: nat, count: nat) returns (l: seq<ParsedRecord>, next: nat)
    requires RecordsAt(packet, start, count).Some?
    ensures Some((l, next)) == RecordsAt(packet, start, count)
  {
    l, next := [], start;
    var i := 0;
    ghost var whole := RecordsAt(packet, start, count);
    GoesOnStart(whole);
    while i < count
      invariant i <= count && GoesOn(whole, l, RecordsAt(packet, next, count - i))
      decreases count - i
    {
      ghost var here := RecordsAt(packet, next, count - i);
      RecordsStep(packet, next, count - i);
      var r;
      r, next := ParseRecord(packet, next);
      GoesOnStep(whole, l, r, here, RecordsAt(packet, next, count - i - 1));
      l, i := l + [r], i + 1;
    }
    GoesOnEnd(whole, l, next);
  }

  method ParseQuestion(packet: bytes, start: nat) returns (x: ParsedQuestion, next: nat)
    requires QuestionAt(packet, start).Some?
    ensures Some((x, next)) == QuestionAt(packet, start)
  {
    var name, e := Label(packet, start);
    x, next := ParsedQuestion(name.value, ShortAt(packet, e), ShortAt(packet, e + 2)), e + 4;
  }

  lemma QuestionsStep(s: bytes, p: nat, n: nat)
    requires n > 0 && QuestionsAt(s, p, n).Some?
    ensures QuestionAt(s, p).Some?
    ensures GoesOn(QuestionsAt(s, p, n), [QuestionAt(s, p).value.0], QuestionsAt(s, QuestionAt(s, p).value.1, n - 1))
  {
  }

  /** The loop of message_parse over the questions. */
  method ParseQuestions(packet: bytes, start: nat, count: nat) returns (l: seq<ParsedQuestion>, next: nat)
    requires QuestionsAt(packet, start, count).Some?
    ensures Some((l, next)) == QuestionsAt(packet, start, count)
  {
    l, next := [], start;
    var i := 0;
    ghost var whole := QuestionsAt(packet, start, count);
    GoesOnStart(whole);
    while i < count
      invariant i <= count && GoesOn(whole, l, QuestionsAt(packet, next, count - i))
      decreases count - i
    {
      ghost var here := QuestionsAt(packet, next, count - i);
      QuestionsStep(packet, next, count - i);
      var x;
      x, next := ParseQuestion(packet, next);
      GoesOnStep(whole, l, x, here, QuestionsAt(packet, next, count - i - 1));
      l, i := l + [x], i + 1;
    }
    GoesOnEnd(whole, l, next);
  }

  /** message_parse. */
  method MessageParse(packet: bytes) returns (m: ParsedMessage)
    requires Parse(packet).Some?
    ensures Some(m) == Parse(packet)
  {
    var id, h := ShortAt(packet, 0), HeaderOf(packet[2], packet[3]);
    var qdcount, ancount := ShortAt(packet, 4), ShortAt(packet, 6);
    var nscount, arcount := ShortAt(packet, 8), ShortAt(packet, 10);
    var qd, p1 := ParseQuestions(packet, HEADER_LEN, qdcount);
    var an, p2 := RrParse(packet, p1, ancount);
    var ns, p3 := RrParse(packet, p2, nscount);
    var ar, p4 := RrParse(packet, p3, arcount);
    m := ParsedMessage(id, h, qd, an, ns, ar);
  }
}
