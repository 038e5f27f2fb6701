/**
  Laws of the tokenizer: a token that was decided on part of a buffer stays the
  same when the buffer is seen as a part of a longer one, and character data
  that was cut off is taken up again where it was cut.

  In the window lemmas `s` is the part of `w` that starts at `m`, and position
  `p` of `s` is position `q` of `w`.
 */
module XmlTokLaws {
  import opened Bytes
  import opened XmlTok

  ghost predicate Window(s: bytes, w: bytes, m: nat) {
    && m + |s| <= |w|
    && forall i {:trigger s[i]} :: 0 <= i < |s| ==> s[i] == w[m + i]
  }

  /** The same token, `m` bytes further on. */
  function Shift(l: Lexeme, m: nat): Lexeme {
    match l
    case Invalid(n) => Invalid(m + n)
    case Token(k, n) => Token(k, m + n)
    case _ => l
  }

  /** What a scanner may say only because the buffer ended. */
  predicate Tentative(l: Lexeme) {
    match l
    case Invalid(_) => false
    case Token(k, _) => k == DataChars || k == PrologS
    case _ => true
  }

  /** The claim of the window lemmas: `long` is what `short` says, unless more bytes could change it. */
  ghost predicate Agrees(short: Lexeme, long: Lexeme, s: bytes, w: bytes, m: nat) {
    m + |s| == |w| || !Tentative(short) ==> long == Shift(short, m)
  }

  ghost predicate ChecksAgree(short: Check, long: Check, s: bytes, w: bytes, m: nat) {
    m + |s| == |w| || !short.ShortChar? ==> long == short
  }

  function ShiftSpan(sp: Span, m: nat): Span {
    match sp
    case SpanEnd(at) => SpanEnd(m + at)
    case SpanShort => SpanShort
    case SpanBad(at) => SpanBad(m + at)
  }

  ghost predicate SpansAgree(short: Span, long: Span, s: bytes, w: bytes, m: nat) {
    m + |s| == |w| || short.SpanBad? || (short.SpanEnd? && short.at < |s|) ==> long == ShiftSpan(short, m)
  }

  ghost predicate PositionsAgree(short: nat, long: nat, s: bytes, w: bytes, m: nat) {
    m + |s| == |w| || short < |s| ==> long == m + short
  }

  function ShiftValue(v: ValueScan, m: nat): ValueScan {
    match v
    case Closed(at) => Closed(m + at)
    case Unclosed(l) => Unclosed(Shift(l, m))
  }

  ghost predicate ValuesAgree(short: ValueScan, long: ValueScan, s: bytes, w: bytes, m: nat) {
    m + |s| == |w| || short.Closed? || !Tentative(short.lex) ==> long == ShiftValue(short, m)
  }

  ghost predicate UnitsAgree(short: Unit, long: Unit, s: bytes, w: bytes, m: nat) {
    m + |s| == |w| || short.Next? || !Tentative(short.lex)
    ==> long == match short case Next(to) => Next(m + to) case Stop(l) => Stop(Shift(l, m))
  }

  lemma SliceWindow(s: bytes, w: bytes, m: nat, p: nat, q: nat, n: nat)
    requires Window(s, w, m) && q == m + p && p + n <= |s|
    ensures s[p..p + n] == w[q..q + n]
  {
  }

  lemma NmStrtWindow(e: Encoding, s: bytes, w: bytes, m: nat, p: nat, q: nat)
    requires Window(s, w, m) && q == m + p && p < |s|
    ensures ChecksAgree(NmStrtCheck(e, s, p), NmStrtCheck(e, w, q), s, w, m)
  {
    var c := e.cls(s[p]);
    if IsLead(c) && LeadLength(c) <= |s| - p {
      SliceWindow(s, w, m, p, q, LeadLength(c));
    }
  }

  lemma NameWindow(e: Encoding, s: bytes, w: bytes, m: nat, p: nat, q: nat)
    requires Window(s, w, m) && q == m + p && p < |s|
    ensures ChecksAgree(NameCheck(e, s, p), NameCheck(e, w, q), s, w, m)
  {
    var c := e.cls(s[p]);
    if IsLead(c) && LeadLength(c) <= |s| - p {
      SliceWindow(s, w, m, p, q, LeadLength(c));
    }
  }

  lemma CharWindow(e: Encoding, s: bytes, w: bytes, m: nat, p: nat, q: nat)
    requires Window(s, w, m) && q == m + p && p < |s|
    ensures ChecksAgree(CharCheck(e, s, p), CharCheck(e, w, q), s, w, m)
  {
    var c := e.cls(s[p]);
    if IsLead(c) && LeadLength(c) <= |s| - p {
      SliceWindow(s, w, m, p, q, LeadLength(c));
    }
  }

  lemma {:induction false} NameSpanWindow(e: Encoding, s: bytes, w: bytes, m: nat, p: nat, q: nat)
    requires Window(s, w, m) && q == m + p && p <= |s|
    ensures SpansAgree(NameSpan(e, s, p), NameSpan(e, w, q), s, w, m)
    decreases |s| - p
  {
    if p < |s| {
      NameWindow(e, s, w, m, p, q);
      var k := NameCheck(e, s, p);
      if k.Takes? {
        NameSpanWindow(e, s, w, m, p + k.n, q + k.n);
      }
    }
  }

  lemma WholeNameWindow(e: Encoding, s: bytes, w: bytes, m: nat, p: nat, q: nat)
    requires Window(s, w, m) && q == m + p && p < |s|
    ensures SpansAgree(WholeName(e, s, p), WholeName(e, w, q), s, w, m)
  {
    NmStrtWindow(e, s, w, m, p, q);
    var k := NmStrtCheck(e, s, p);
    if k.Takes? {
      NameSpanWindow(e, s, w, m, p + k.n, q + k.n);
    }
  }

  lemma {:induction false} SpaceSpanWindow(e: Encoding, s: bytes, w: bytes, m: nat, p: nat, q: nat)
    requires Window(s, w, m) && q == m + p && p <= |s|
    ensures PositionsAgree(SpaceSpan(e, s, p), SpaceSpan(e, w, q), s, w, m)
    decreases |s| - p
  {
    if p < |s| && IsSpace(e.cls(s[p])) {
      SpaceSpanWindow(e, s, w, m, p + 1, q + 1);
    }
  }

  lemma {:induction false} DigitSpanWindow(e: Encoding, hex: bool, s: bytes, w: bytes, m: nat, p: nat, q: nat)
    requires Window(s, w, m) && q == m + p && p <= |s|
    ensures PositionsAgree(DigitSpan(e, hex, s, p), DigitSpan(e, hex, w, q), s, w, m)
    decreases |s| - p
  {
    if p < |s| && IsDigit(e.cls(s[p]), hex) {
      DigitSpanWindow(e, hex, s, w, m, p + 1, q + 1);
    }
  }

  lemma CharRefWindow(e: Encoding, s: bytes, w: bytes, m: nat, p: nat, q: nat)
    requires Window(s, w, m) && q == m + p && p <= |s|
    ensures Agrees(CharRefTok(e, s, p), CharRefTok(e, w, q), s, w, m)
  {
    if p < |s| {
      if s[p] == BYTE_X {
        DigitSpanWindow(e, true, s, w, m, p + 1, q + 1);
      } else {
        DigitSpanWindow(e, false, s, w, m, p, q);
      }
    }
  }

  lemma RefWindow(e: Encoding, s: bytes, w: bytes, m: nat, p: nat, q: nat)
    requires Window(s, w, m) && q == m + p && p <= |s|
    ensures Agrees(RefTok(e, s, p), RefTok(e, w, q), s, w, m)
  {
    if p < |s| {
      WholeNameWindow(e, s, w, m, p, q);
      if e.cls(s[p]) == BT_NUM {
        CharRefWindow(e, s, w, m, p + 1, q + 1);
      }
    }
  }

  lemma EndTagWindow(e: Encoding, s: bytes, w: bytes, m: nat, p: nat, q: nat)
    requires Window(s, w, m) && q == m + p && p <= |s|
    ensures Agrees(EndTagTok(e, s, p), EndTagTok(e, w, q), s, w, m)
  {
    if p < |s| {
      WholeNameWindow(e, s, w, m, p, q);
      var sp := WholeName(e, s, p);
      if sp.SpanEnd? {
        SpaceSpanWindow(e, s, w, m, sp.at, m + sp.at);
      }
    }
  }

  lemma UnitWindow(e: Encoding, s: bytes, w: bytes, m: nat, p: nat, q: nat)
    requires Window(s, w, m) && q == m + p && p < |s|
    ensures UnitsAgree(ValueUnit(e, s, p), ValueUnit(e, w, q), s, w, m)
  {
    CharWindow(e, s, w, m, p, q);
    if e.cls(s[p]) == BT_AMP {
      RefWindow(e, s, w, m, p + 1, q + 1);
    }
  }

  lemma {:induction false} ValueWindow(e: Encoding, open: Class, s: bytes, w: bytes, m: nat, p: nat, q: nat)
    requires Window(s, w, m) && q == m + p && p <= |s|
    ensures ValuesAgree(ValueTok(e, open, s, p), ValueTok(e, open, w, q), s, w, m)
    decreases |s| - p
  {
    if p < |s| && e.cls(s[p]) != open {
      UnitWindow(e, s, w, m, p, q);
      var u := ValueUnit(e, s, p);
      if u.Next? {
        ValueWindow(e, open, s, w, m, u.to, m + u.to);
      }
    }
  }

  lemma ValueStartWindow(e: Encoding, s: bytes, w: bytes, m: nat, p: nat, q: nat)
    requires Window(s, w, m) && q == m + p && p <= |s|
    ensures ValuesAgree(ValueStart(e, s, p), ValueStart(e, w, q), s, w, m)
  {
    NameSpanWindow(e, s, w, m, p, q);
    var sp := NameSpan(e, s, p);
    if sp.SpanEnd? {
      SpaceSpanWindow(e, s, w, m, sp.at, m + sp.at);
      var eq := SpaceSpan(e, s, sp.at);
      if eq < |s| {
        SpaceSpanWindow(e, s, w, m, eq + 1, m + eq + 1);
      }
    }
  }

  lemma AttributeWindow(e: Encoding, s: bytes, w: bytes, m: nat, p: nat, q: nat)
    requires Window(s, w, m) && q == m + p && p <= |s|
    ensures ValuesAgree(AttributeTok(e, s, p), AttributeTok(e, w, q), s, w, m)
  {
    ValueStartWindow(e, s, w, m, p, q);
    var quote := ValueStart(e, s, p);
    if quote.Closed? {
      QuotedWindow(e, s, w, m, p, q, quote.at);
    } else {
      AttributeUnquoted(e, s, p);
      if ValueStart(e, w, q).Unclosed? {
        AttributeUnquoted(e, w, q);
      }
    }
  }

  lemma AttributeUnquoted(e: Encoding, s: bytes, p: nat)
    requires p <= |s| && ValueStart(e, s, p).Unclosed?
    ensures AttributeTok(e, s, p) == ValueStart(e, s, p)
  {
  }

  lemma AttributeQuoted(e: Encoding, s: bytes, p: nat, quote: nat)
    requires p <= |s| && ValueStart(e, s, p) == Closed(quote)
    ensures AttributeTok(e, s, p) == ValueTok(e, e.cls(s[quote]), s, quote + 1)
  {
  }

  lemma QuotedWindow(e: Encoding, s: bytes, w: bytes, m: nat, p: nat, q: nat, quote: nat)
    requires Window(s, w, m) && q == m + p && p <= |s|
    requires ValueStart(e, s, p) == Closed(quote) && ValueStart(e, w, q) == Closed(m + quote)
    ensures ValuesAgree(AttributeTok(e, s, p), AttributeTok(e, w, q), s, w, m)
  {
    AttributeQuoted(e, s, p, quote);
    AttributeQuoted(e, w, q, m + quote);
    ValueWindow(e, e.cls(s[quote]), s, w, m, quote + 1, m + quote + 1);
  }

  lemma {:induction false} AttsWindow(e: Encoding, s: bytes, w: bytes, m: nat, p: nat, q: nat)
    requires Window(s, w, m) && q == m + p && p <= |s|
    ensures Agrees(AttsTok(e, s, p), AttsTok(e, w, q), s, w, m)
    decreases |s| - p, 2
  {
    AttributeWindow(e, s, w, m, p, q);
    var v := AttributeTok(e, s, p);
    if v.Closed? {
      AfterValueWindow(e, s, w, m, v.at + 1, m + v.at + 1);
    }
  }

  lemma {:induction false} AfterValueWindow(e: Encoding, s: bytes, w: bytes, m: nat, p: nat, q: nat)
    requires Window(s, w, m) && q == m + p && p <= |s|
    ensures Agrees(AfterValueTok(e, s, p), AfterValueTok(e, w, q), s, w, m)
    decreases |s| - p, 1
  {
    if p < |s| && IsSpace(e.cls(s[p])) {
      SpaceSpanWindow(e, s, w, m, p + 1, q + 1);
      var g := SpaceSpan(e, s, p + 1);
      GapWindow(e, true, s, w, m, g, m + g);
    }
  }

  lemma TagEndWindow(e: Encoding, atts: bool, s: bytes, w: bytes, m: nat, p: nat, q: nat)
    requires Window(s, w, m) && q == m + p && p < |s|
    ensures Agrees(TagEndTok(e, atts, s, p), TagEndTok(e, atts, w, q), s, w, m)
  {
  }

  lemma {:induction false} GapWindow(e: Encoding, atts: bool, s: bytes, w: bytes, m: nat, p: nat, q: nat)
    requires Window(s, w, m) && q == m + p && p <= |s|
    ensures Agrees(GapTok(e, atts, s, p), GapTok(e, atts, w, q), s, w, m)
    decreases |s| - p, 0
  {
    if p < |s| {
      NmStrtWindow(e, s, w, m, p, q);
      var k := NmStrtCheck(e, s, p);
      if k.Takes? {
        AttsWindow(e, s, w, m, p + k.n, q + k.n);
      } else {
        TagEndWindow(e, atts, s, w, m, p, q);
      }
    }
  }

  lemma TagWindow(e: Encoding, s: bytes, w: bytes, m: nat, p: nat, q: nat)
    requires Window(s, w, m) && q == m + p && p <= |s|
    ensures Agrees(TagTok(e, s, p), TagTok(e, w, q), s, w, m)
  {
    NameSpanWindow(e, s, w, m, p, q);
    var sp := NameSpan(e, s, p);
    if sp.SpanEnd? && sp.at < |s| {
      if IsSpace(e.cls(s[sp.at])) {
        SpaceBehindName(e, s, w, m, p, q, sp.at);
      } else {
        EndBehindName(e, s, w, m, p, q, sp.at);
      }
    }
  }

  /** The token behind white space that follows the name of a tag. */
  lemma TagSpace(e: Encoding, s: bytes, p: nat, n: nat)
    requires p <= |s| && NameSpan(e, s, p) == SpanEnd(n) && n < |s| && IsSpace(e.cls(s[n]))
    ensures TagTok(e, s, p) == GapTok(e, false, s, SpaceSpan(e, s, n + 1))
  {
  }

  lemma TagNoSpace(e: Encoding, s: bytes, p: nat, n: nat)
    requires p <= |s| && NameSpan(e, s, p) == SpanEnd(n) && n < |s| && !IsSpace(e.cls(s[n]))
    ensures TagTok(e, s, p) == TagEndTok(e, false, s, n)
  {
  }

  lemma SpaceGapWindow(e: Encoding, s: bytes, w: bytes, m: nat, n: nat)
    requires Window(s, w, m) && n < |s| && IsSpace(e.cls(s[n]))
    ensures
      var g, h := SpaceSpan(e, s, n + 1), SpaceSpan(e, w, m + n + 1);
      Agrees(GapTok(e, false, s, g), GapTok(e, false, w, h), s, w, m)
  {
    SpaceSpanWindow(e, s, w, m, n + 1, m + n + 1);
    var g := SpaceSpan(e, s, n + 1);
    GapWindow(e, false, s, w, m, g, m + g);
  }

  lemma SpaceBehindName(e: Encoding, s: bytes, w: bytes, m: nat, p: nat, q: nat, n: nat)
    requires Window(s, w, m) && q == m + p && p <= |s| && n < |s| && IsSpace(e.cls(s[n]))
    requires NameSpan(e, s, p) == SpanEnd(n) && NameSpan(e, w, q) == SpanEnd(m + n)
    ensures Agrees(TagTok(e, s, p), TagTok(e, w, q), s, w, m)
  {
    TagSpace(e, s, p, n);
    TagSpace(e, w, q, m + n);
    SpaceGapWindow(e, s, w, m, n);
  }

  lemma EndBehindName(e: Encoding, s: bytes, w: bytes, m: nat, p: nat, q: nat, n: nat)
    requires Window(s, w, m) && q == m + p && p <= |s| && n < |s| && !IsSpace(e.cls(s[n]))
    requires NameSpan(e, s, p) == SpanEnd(n) && NameSpan(e, w, q) == SpanEnd(m + n)
    ensures Agrees(TagTok(e, s, p), TagTok(e, w, q), s, w, m)
  {
    TagNoSpace(e, s, p, n);
    TagNoSpace(e, w, q, m + n);
    TagEndWindow(e, false, s, w, m, n, m + n);
  }

  lemma {:induction false} CommentBodyWindow(e: Encoding, s: bytes, w: bytes, m: nat, p: nat, q: nat)
    requires Window(s, w, m) && q == m + p && p <= |s|
    ensures Agrees(CommentBodyTok(e, s, p), CommentBodyTok(e, w, q), s, w, m)
    decreases |s| - p
  {
    if p < |s| {
      CharWindow(e, s, w, m, p, q);
      var k := CharCheck(e, s, p);
      if k.Takes? {
        CommentBodyWindow(e, s, w, m, p + k.n, q + k.n);
      } else if k.NotListed? {
        CommentBodyWindow(e, s, w, m, p + 1, q + 1);
      }
    }
  }

  lemma {:induction false} CdataMatchWindow(s: bytes, w: bytes, m: nat, p: nat, q: nat, i: nat)
    requires Window(s, w, m) && q == m + p && i <= 6 && p + 6 <= |s|
    ensures CdataMatch(s, p, i) == CdataMatch(w, q, i)
    decreases 6 - i
  {
    if i < 6 && s[p + i] == CDATA_OPEN[i] {
      CdataMatchWindow(s, w, m, p, q, i + 1);
    }
  }

  lemma {:induction false} PiBodyWindow(e: Encoding, pi: Kind, s: bytes, w: bytes, m: nat, p: nat, q: nat)
    requires Window(s, w, m) && q == m + p && p <= |s| && (pi == PI || pi == XmlDecl)
    ensures Agrees(PiBodyTok(e, pi, s, p), PiBodyTok(e, pi, w, q), s, w, m)
    decreases |s| - p
  {
    if p < |s| {
      CharWindow(e, s, w, m, p, q);
      var k := CharCheck(e, s, p);
      if k.Takes? {
        PiBodyWindow(e, pi, s, w, m, p + k.n, q + k.n);
      } else if k.NotListed? {
        PiBodyWindow(e, pi, s, w, m, p + 1, q + 1);
      }
    }
  }

  lemma AfterTargetWindow(e: Encoding, target: bytes, s: bytes, w: bytes, m: nat, p: nat, q: nat)
    requires Window(s, w, m) && q == m + p && p < |s|
    ensures Agrees(AfterTargetTok(e, target, s, p), AfterTargetTok(e, target, w, q), s, w, m)
  {
    var t := CheckPiTarget(target);
    if t.Target? {
      PiBodyWindow(e, t.kind, s, w, m, p + 1, q + 1);
    }
  }

  lemma PiWindow(e: Encoding, s: bytes, w: bytes, m: nat, p: nat, q: nat)
    requires Window(s, w, m) && q == m + p && p <= |s|
    ensures Agrees(PiTok(e, s, p), PiTok(e, w, q), s, w, m)
  {
    if p < |s| {
      WholeNameWindow(e, s, w, m, p, q);
      var sp := WholeName(e, s, p);
      if sp.SpanEnd? && sp.at < |s| {
        SliceWindow(s, w, m, p, q, sp.at - p);
        AfterTargetWindow(e, s[p..sp.at], s, w, m, sp.at, m + sp.at);
      }
    }
  }

  lemma ExclWindow(e: Encoding, s: bytes, w: bytes, m: nat, p: nat, q: nat)
    requires Window(s, w, m) && q == m + p && p <= |s|
    ensures Agrees(ExclTok(e, s, p), ExclTok(e, w, q), s, w, m)
  {
    if p + 1 < |s| {
      CommentBodyWindow(e, s, w, m, p + 2, q + 2);
    }
    if p + 7 <= |s| {
      CdataMatchWindow(s, w, m, p + 1, q + 1, 0);
    }
  }

  lemma LtWindow(e: Encoding, s: bytes, w: bytes, m: nat, p: nat, q: nat)
    requires Window(s, w, m) && q == m + p && p <= |s|
    ensures Agrees(LtTok(e, s, p), LtTok(e, w, q), s, w, m)
  {
    if p < |s| {
      NmStrtWindow(e, s, w, m, p, q);
      var k := NmStrtCheck(e, s, p);
      if k.Takes? {
        TagWindow(e, s, w, m, p + k.n, q + k.n);
      } else if e.cls(s[p]) == BT_EXCL {
        ExclWindow(e, s, w, m, p + 1, q + 1);
      } else if e.cls(s[p]) == BT_QUEST {
        PiWindow(e, s, w, m, p + 1, q + 1);
      } else if e.cls(s[p]) == BT_SOL {
        EndTagWindow(e, s, w, m, p + 1, q + 1);
      }
    }
  }

  lemma {:induction false} DataWindow(e: Encoding, s: bytes, w: bytes, m: nat, p: nat, q: nat)
    requires Window(s, w, m) && q == m + p && p <= |s|
    ensures Agrees(DataTok(e, s, p), DataTok(e, w, q), s, w, m)
    decreases |s| - p
  {
    if p < |s| {
      CharWindow(e, s, w, m, p, q);
      var k := CharCheck(e, s, p);
      if k.Takes? {
        DataWindow(e, s, w, m, p + k.n, q + k.n);
      } else if k.NotListed? {
        DataWindow(e, s, w, m, p + 1, q + 1);
      }
    }
  }

  lemma ContentKinds(e: Encoding, s: bytes, p: nat)
    requires p <= |s|
    ensures ContentTok(e, s, p).Token? ==> ContentTok(e, s, p).kind != PrologS
  {
  }

  /** A content token other than character data is the same in every longer buffer. */
  lemma ContentWindow(e: Encoding, s: bytes, w: bytes, m: nat, p: nat, q: nat)
    requires Window(s, w, m) && q == m + p && p <= |s|
    ensures Agrees(ContentTok(e, s, p), ContentTok(e, w, q), s, w, m)
  {
    if p < |s| {
      if e.cls(s[p]) == BT_LT {
        LtWindow(e, s, w, m, p + 1, q + 1);
      } else if e.cls(s[p]) == BT_AMP {
        RefWindow(e, s, w, m, p + 1, q + 1);
      } else {
        DataStartWindow(e, s, w, m, p, q);
      }
    }
  }

  /** Where content is no markup. */
  lemma DataStartWindow(e: Encoding, s: bytes, w: bytes, m: nat, p: nat, q: nat)
    requires Window(s, w, m) && q == m + p && p < |s| && e.cls(s[p]) != BT_LT && e.cls(s[p]) != BT_AMP
    ensures Agrees(ContentTok(e, s, p), ContentTok(e, w, q), s, w, m)
  {
    CharWindow(e, s, w, m, p, q);
    var k := CharCheck(e, s, p);
    if k.Takes? {
      DataWindow(e, s, w, m, p + k.n, q + k.n);
    } else {
      DataWindow(e, s, w, m, p + 1, q + 1);
    }
  }

  lemma {:induction false} CdataDataWindow(e: Encoding, s: bytes, w: bytes, m: nat, p: nat, q: nat)
    requires Window(s, w, m) && q == m + p && p <= |s|
    ensures Agrees(CdataDataTok(e, s, p), CdataDataTok(e, w, q), s, w, m)
    decreases |s| - p
  {
    if p < |s| {
      CharWindow(e, s, w, m, p, q);
      var k := CharCheck(e, s, p);
      if k.Takes? {
        CdataDataWindow(e, s, w, m, p + k.n, q + k.n);
      } else if k.NotListed? {
        CdataDataWindow(e, s, w, m, p + 1, q + 1);
      }
    }
  }

  lemma CdataSectionWindow(e: Encoding, s: bytes, w: bytes, m: nat, p: nat, q: nat)
    requires Window(s, w, m) && q == m + p && p <= |s|
    ensures Agrees(CdataSectionTok(e, s, p), CdataSectionTok(e, w, q), s, w, m)
  {
    if p < |s| {
      CharWindow(e, s, w, m, p, q);
      var k := CharCheck(e, s, p);
      if k.Takes? {
        CdataDataWindow(e, s, w, m, p + k.n, q + k.n);
      } else {
        CdataDataWindow(e, s, w, m, p + 1, q + 1);
      }
    }
  }

  lemma PrologNameWindow(e: Encoding, nmtoken: bool, s: bytes, w: bytes, m: nat, p: nat, q: nat)
    requires Window(s, w, m) && q == m + p && p <= |s|
    ensures Agrees(PrologNameTok(e, nmtoken, s, p), PrologNameTok(e, nmtoken, w, q), s, w, m)
  {
    NameSpanWindow(e, s, w, m, p, q);
  }

  lemma LeadNameWindow(e: Encoding, s: bytes, w: bytes, m: nat, p: nat, q: nat, n: nat)
    requires Window(s, w, m) && q == m + p && p < |s| && 0 < n
    ensures Agrees(LeadNameTok(e, s, p, n), LeadNameTok(e, w, q, n), s, w, m)
  {
    if n <= |s| - p {
      SliceWindow(s, w, m, p, q, n);
      PrologNameWindow(e, s[p..p + n] !in e.nmStrt, s, w, m, p + n, q + n);
    }
  }

  lemma {:induction false} LitWindow(e: Encoding, open: Class, s: bytes, w: bytes, m: nat, p: nat, q: nat)
    requires Window(s, w, m) && q == m + p && p <= |s|
    ensures Agrees(LitTok(e, open, s, p), LitTok(e, open, w, q), s, w, m)
    decreases |s| - p
  {
    if p < |s| {
      CharWindow(e, s, w, m, p, q);
      var k := CharCheck(e, s, p);
      if k.Takes? {
        LitWindow(e, open, s, w, m, p + k.n, q + k.n);
      } else if k.NotListed? {
        LitWindow(e, open, s, w, m, p + 1, q + 1);
      }
    }
  }

  lemma {:induction false} DeclNameWindow(e: Encoding, s: bytes, w: bytes, m: nat, p: nat, q: nat)
    requires Window(s, w, m) && q == m + p && p <= |s|
    ensures Agrees(DeclNameTok(e, s, p), DeclNameTok(e, w, q), s, w, m)
    decreases |s| - p
  {
    if p < |s| {
      DeclNameWindow(e, s, w, m, p + 1, q + 1);
    }
  }

  lemma DeclWindow(e: Encoding, s: bytes, w: bytes, m: nat, p: nat, q: nat)
    requires Window(s, w, m) && q == m + p && p <= |s|
    ensures Agrees(DeclTok(e, s, p), DeclTok(e, w, q), s, w, m)
  {
    if p < |s| {
      DeclNameWindow(e, s, w, m, p + 1, q + 1);
      if p + 1 < |s| {
        CommentBodyWindow(e, s, w, m, p + 2, q + 2);
      }
    }
  }

  lemma PercentWindow(e: Encoding, s: bytes, w: bytes, m: nat, p: nat, q: nat)
    requires Window(s, w, m) && q == m + p && p <= |s|
    ensures Agrees(PercentTok(e, s, p), PercentTok(e, w, q), s, w, m)
  {
    if p < |s| {
      WholeNameWindow(e, s, w, m, p, q);
    }
  }

  lemma PoundWindow(e: Encoding, s: bytes, w: bytes, m: nat, p: nat, q: nat)
    requires Window(s, w, m) && q == m + p && p <= |s|
    ensures Agrees(PoundTok(e, s, p), PoundTok(e, w, q), s, w, m)
  {
    if p < |s| {
      WholeNameWindow(e, s, w, m, p, q);
    }
  }

  lemma PrologLtWindow(e: Encoding, s: bytes, w: bytes, m: nat, p: nat, q: nat)
    requires Window(s, w, m) && q == m + p && 0 < p <= |s|
    ensures Agrees(PrologLtTok(e, s, p), PrologLtTok(e, w, q), s, w, m)
  {
    if p < |s| && e.cls(s[p]) == BT_EXCL {
      DeclWindow(e, s, w, m, p + 1, q + 1);
    } else if p < |s| && e.cls(s[p]) == BT_QUEST {
      PiWindow(e, s, w, m, p + 1, q + 1);
    }
  }

  lemma {:induction false} PrologSpaceWindow(e: Encoding, s: bytes, w: bytes, m: nat, p: nat, q: nat)
    requires Window(s, w, m) && q == m + p && p <= |s| && m + |s| == |w|
    ensures PrologSpaceEnd(e, w, q) == m + PrologSpaceEnd(e, s, p)
    decreases |s| - p
  {
    if p < |s| {
      PrologSpaceWindow(e, s, w, m, p + 1, q + 1);
    }
  }

  lemma PrologWordWindow(e: Encoding, s: bytes, w: bytes, m: nat, p: nat, q: nat)
    requires Window(s, w, m) && q == m + p && p < |s|
    ensures Agrees(PrologWordTok(e, s, p), PrologWordTok(e, w, q), s, w, m)
  {
    var c := e.cls(s[p]);
    if IsLead(c) {
      LeadNameWindow(e, s, w, m, p, q, LeadLength(c));
    } else {
      PrologNameWindow(e, !(c == BT_NMSTRT || c == BT_HEX), s, w, m, p + 1, q + 1);
    }
  }

  lemma PrologMarkWindow(e: Encoding, s: bytes, w: bytes, m: nat, p: nat, q: nat)
    requires Window(s, w, m) && q == m + p && p < |s|
    ensures Agrees(PrologMarkTok(e, s, p), PrologMarkTok(e, w, q), s, w, m)
  {
    var c := e.cls(s[p]);
    if c == BT_QUOT || c == BT_APOS {
      LitWindow(e, c, s, w, m, p + 1, q + 1);
    } else if c == BT_PERCNT {
      PercentWindow(e, s, w, m, p + 1, q + 1);
    } else if c == BT_NUM {
      PoundWindow(e, s, w, m, p + 1, q + 1);
    } else {
      PrologWordWindow(e, s, w, m, p, q);
    }
  }

  /** A prolog token other than white space is the same in every longer buffer. */
  lemma PrologWindow(e: Encoding, s: bytes, w: bytes, m: nat, p: nat, q: nat)
    requires Window(s, w, m) && q == m + p && p <= |s|
    ensures Agrees(PrologTok(e, s, p), PrologTok(e, w, q), s, w, m)
  {
    if p < |s| {
      var c := e.cls(s[p]);
      if c == BT_LT {
        PrologLtWindow(e, s, w, m, p + 1, q + 1);
      } else if IsSpace(c) {
        if m + |s| == |w| {
          PrologSpaceWindow(e, s, w, m, p + 1, q + 1);
        }
      } else {
        PrologMarkWindow(e, s, w, m, p, q);
      }
    }
  }

  // ---------------------------------------------------------------- cut-off runs

  /** Where the data loop over `s` stopped, the loop over a longer `w` passes as well. */
  lemma {:induction false} DataContinues(e: Encoding, s: bytes, w: bytes, p: nat)
    requires s <= w && p <= |s| && DataTok(e, s, p).Token?
    ensures DataTok(e, w, p) == DataTok(e, w, DataTok(e, s, p).next)
    decreases |s| - p
  {
    if DataTok(e, s, p).next > p {
      CharWindow(e, s, w, 0, p, p);
      var k := CharCheck(e, s, p);
      DataContinues(e, s, w, if k.Takes? then p + k.n else p + 1);
    }
  }

  /** Character data fails only at a "]]>". */
  lemma {:induction false} DataStops(e: Encoding, s: bytes, p: nat)
    requires p <= |s| && !DataTok(e, s, p).Token?
    ensures
      var r := DataTok(e, s, p);
      && r.Invalid? && p + 2 <= r.next < |s|
      && e.cls(s[r.next - 2]) == BT_RSQB && s[r.next - 1] == BYTE_RSQB && s[r.next] == BYTE_GT
    decreases |s| - p
  {
    var k := CharCheck(e, s, p);
    var next := if k.Takes? then p + k.n else p + 1;
    if DataTok(e, s, p) == DataTok(e, s, next) {
      DataStops(e, s, next);
    }
  }

  /** Character data that was scanned up to `p` goes on as a token that starts there. */
  lemma DataResumes(e: Encoding, w: bytes, p: nat)
    requires p <= |w|
    ensures DataTok(e, w, p) == Token(DataChars, p) || (p < |w| && DataTok(e, w, p) == ContentTok(e, w, p))
  {
  }

  lemma {:induction false} CdataDataContinues(e: Encoding, s: bytes, w: bytes, p: nat)
    requires s <= w && p <= |s|
    ensures CdataDataTok(e, w, p) == CdataDataTok(e, w, CdataDataTok(e, s, p).next)
    decreases |s| - p
  {
    if p < |s| {
      CharWindow(e, s, w, 0, p, p);
      var k := CharCheck(e, s, p);
      var next := if k.Takes? then p + k.n else p + 1;
      if CdataDataTok(e, s, p).next > p {
        CdataDataContinues(e, s, w, next);
      }
    }
  }

  lemma CdataDataResumes(e: Encoding, w: bytes, p: nat)
    requires p <= |w|
    ensures CdataDataTok(e, w, p) == Token(DataChars, p)
         || (p < |w| && CdataDataTok(e, w, p) == CdataSectionTok(e, w, p))
  {
  }

  lemma {:induction false} PrologSpaceContinues(e: Encoding, s: bytes, w: bytes, p: nat)
    requires s <= w && p <= |s|
    ensures PrologSpaceEnd(e, w, p) == PrologSpaceEnd(e, w, PrologSpaceEnd(e, s, p))
    decreases |s| - p
  {
    if PrologSpaceEnd(e, s, p) > p {
      PrologSpaceContinues(e, s, w, p + 1);
    }
  }

  lemma {:induction false} CommentIsMark(e: Encoding, s: bytes, p: nat)
    requires p <= |s|
    ensures IsMark(CommentBodyTok(e, s, p))
    decreases |s| - p
  {
    if p < |s| {
      var k := CharCheck(e, s, p);
      CommentIsMark(e, s, if k.Takes? then p + k.n else p + 1);
    }
  }

  lemma {:induction false} PiIsMark(e: Encoding, pi: Kind, s: bytes, p: nat)
    requires p <= |s| && pi != PrologS && pi != DataChars
    ensures IsMark(PiBodyTok(e, pi, s, p))
    decreases |s| - p
  {
    if p < |s| {
      var k := CharCheck(e, s, p);
      PiIsMark(e, pi, s, if k.Takes? then p + k.n else p + 1);
    }
  }

  lemma PiTokIsMark(e: Encoding, s: bytes, p: nat)
    requires p <= |s|
    ensures IsMark(PiTok(e, s, p))
  {
    if p < |s| {
      var sp := WholeName(e, s, p);
      if sp.SpanEnd? && sp.at < |s| {
        var t := CheckPiTarget(s[p..sp.at]);
        if t.Target? {
          PiIsMark(e, t.kind, s, sp.at + 1);
        }
      }
    }
  }

  lemma PrologLtIsMark(e: Encoding, s: bytes, p: nat)
    requires 0 < p <= |s|
    ensures IsMark(PrologLtTok(e, s, p))
  {
    if p < |s| && e.cls(s[p]) == BT_QUEST {
      PiTokIsMark(e, s, p + 1);
    } else if p + 2 < |s| {
      CommentIsMark(e, s, p + 3);
    }
  }

  /** Which tokens of the prolog are white space, and where a carriage return ends the buffer. */
  lemma PrologSpaces(e: Encoding, s: bytes, p: nat)
    requires p <= |s|
    ensures
      var tok := PrologTok(e, s, p);
      && (tok.Token? && tok.kind == PrologS ==>
            && p < |s| && IsSpace(e.cls(s[p])) && (e.cls(s[p]) == BT_CR ==> p + 1 < |s|)
            && tok.next == PrologSpaceEnd(e, s, p + 1))
      && (tok.TrailingCr? ==> p + 1 == |s| && e.cls(s[p]) == BT_CR)
      && (tok.NoToken? ==> p == |s|)
      && !tok.TrailingRsqb? && (tok.Token? ==> tok.kind != DataChars)
  {
    if p < |s| {
      if e.cls(s[p]) == BT_LT {
        PrologLtIsMark(e, s, p + 1);
      } else if !IsSpace(e.cls(s[p])) {
        assert IsMark(PrologMarkTok(e, s, p));
      }
    }
  }

  lemma PrologSpaceResumes(e: Encoding, w: bytes, p: nat)
    requires p <= |w| && PrologSpaceEnd(e, w, p) > p
    ensures PrologTok(e, w, p) == Token(PrologS, PrologSpaceEnd(e, w, p))
  {
  }

  /** The position from which the data loop runs, for a token that is character data. */
  function DataFrom(e: Encoding, s: bytes, p: nat): (at: nat)
    requires p < |s|
    ensures p < at <= |s|
  {
    var k := CharCheck(e, s, p);
    if k.Takes? then p + k.n else p + 1
  }

  /** Cut-off character data is a prefix of what the longer buffer gives. */
  lemma DataExtends(e: Encoding, s: bytes, w: bytes, p: nat)
    requires s <= w && p <= |s|
    requires ContentTok(e, s, p).Token? && ContentTok(e, s, p).kind == DataChars
    ensures ContentTok(e, w, p) == DataTok(e, w, ContentTok(e, s, p).next)
  {
    CharWindow(e, s, w, 0, p, p);
    DataContinues(e, s, w, DataFrom(e, s, p));
  }

  /**
    Prefix stability of contentTok. On a longer buffer every delimited token and
    every error stays what it was; character data can only grow, or turn out to
    run into the forbidden "]]>".
   */
  lemma PrefixStability(e: Encoding, s: bytes, t: bytes, p: nat)
    requires p <= |s|
    ensures !Tentative(ContentTok(e, s, p)) ==> ContentTok(e, s + t, p) == ContentTok(e, s, p)
    ensures
      var short, long := ContentTok(e, s, p), ContentTok(e, s + t, p);
      short.Token? && short.kind == DataChars ==>
        || (long.Token? && long.kind == DataChars && short.next <= long.next)
        || (long.Invalid? && short.next <= long.next - 2 && long.next < |s + t|
            && e.cls((s + t)[long.next - 2]) == BT_RSQB && (s + t)[long.next - 1] == BYTE_RSQB
                 && (s + t)[long.next] == BYTE_GT)
  {
    var w := s + t;
    ContentWindow(e, s, w, 0, p, p);
    var short := ContentTok(e, s, p);
    if short.Token? && short.kind == DataChars {
      DataExtends(e, s, w, p);
      if !DataTok(e, w, short.next).Token? {
        DataStops(e, w, short.next);
      }
    }
  }
}
