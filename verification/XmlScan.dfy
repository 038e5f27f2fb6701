/**
  The scanners of xmlnode/xmltok_impl.c in their own form: each moves `ptr`
  over the buffer in loops and returns a token. Each is proved to compute the
  function of XmlTok that describes its tokens.
 */
module XmlScan {
  import opened Bytes
  import opened XmlTok

  /** The loop over CHECK_NAME_CASES, from anywhere in a name to the byte that ends it. */
  method ScanName(e: Encoding, s: bytes, start: nat) returns (sp: Span)
    requires start <= |s|
    ensures sp == NameSpan(e, s, start)
  {
    var ptr := start;
    while ptr != |s|
      invariant ptr <= |s|
      invariant NameSpan(e, s, start) == NameSpan(e, s, ptr)
      decreases |s| - ptr
    {
      match NameCheck(e, s, ptr) {
        case Takes(n) => ptr := ptr + n;
        case ShortChar => return SpanShort;
        case Refused => return SpanBad(ptr);
        case NotListed => return SpanEnd(ptr);
      }
    }
    return SpanEnd(ptr);
  }

  /** CHECK_NMSTRT_CASES and then the loop over CHECK_NAME_CASES. */
  method ScanWholeName(e: Encoding, s: bytes, start: nat) returns (sp: Span)
    requires start < |s|
    ensures sp == WholeName(e, s, start)
  {
    match NmStrtCheck(e, s, start) {
      case Takes(n) => sp := ScanName(e, s, start + n);
      case ShortChar => sp := SpanShort;
      case Refused => sp := SpanBad(start);
      case NotListed => sp := SpanEnd(start);
    }
  }

  /** The loops over BT_S, BT_CR and BT_LF. */
  method ScanSpace(e: Encoding, s: bytes, start: nat) returns (at: nat)
    requires start <= |s|
    ensures at == SpaceSpan(e, s, start)
  {
    at := start;
    while at != |s| && IsSpace(e.cls(s[at]))
      invariant start <= at <= |s|
      invariant SpaceSpan(e, s, start) == SpaceSpan(e, s, at)
      decreases |s| - at
    {
      at := at + 1;
    }
  }

  method ScanComment(e: Encoding, s: bytes, start: nat) returns (r: Lexeme)
    requires start <= |s|
    ensures r == CommentTok(e, s, start)
  {
    var ptr := start;
    if ptr != |s| {
      if s[ptr] != BYTE_MINUS {
        return Invalid(ptr);
      }
      ptr := ptr + 1;
      while ptr != |s|
        invariant ptr <= |s|
        invariant CommentTok(e, s, start) == CommentBodyTok(e, s, ptr)
        decreases |s| - ptr
      {
        match CharCheck(e, s, ptr) {
          case Takes(n) => ptr := ptr + n;
          case ShortChar => return PartialChar;
          case Refused => return Invalid(ptr);
          case NotListed =>
            if e.cls(s[ptr]) == BT_MINUS {
              ptr := ptr + 1;
              if ptr == |s| { return Partial; }
              if s[ptr] == BYTE_MINUS {
                ptr := ptr + 1;
                if ptr == |s| { return Partial; }
                if s[ptr] != BYTE_GT { return Invalid(ptr); }
                return Token(Comment, ptr + 1);
              }
            } else {
              ptr := ptr + 1;
            }
        }
      }
    }
    return Partial;
  }

  method ScanDecl(e: Encoding, s: bytes, start: nat) returns (r: Lexeme)
    requires start <= |s|
    ensures r == DeclTok(e, s, start)
  {
    var ptr := start;
    if ptr == |s| { return Partial; }
    var first := e.cls(s[ptr]);
    if first == BT_MINUS {
      r := ScanComment(e, s, ptr + 1);
      return;
    } else if first == BT_LSQB {
      return Token(CondSectOpen, ptr + 1);
    } else if first == BT_NMSTRT || first == BT_HEX {
      ptr := ptr + 1;
    } else {
      return Invalid(ptr);
    }
    while ptr != |s|
      invariant ptr <= |s|
      invariant DeclTok(e, s, start) == DeclNameTok(e, s, ptr)
      decreases |s| - ptr
    {
      var t := e.cls(s[ptr]);
      if t == BT_PERCNT {
        if ptr + 1 == |s| { return Partial; }
        var t' := e.cls(s[ptr + 1]);
        if IsSpace(t') || t' == BT_PERCNT { return Invalid(ptr); }
        return Token(DeclOpen, ptr);
      } else if IsSpace(t) {
        return Token(DeclOpen, ptr);
      } else if t == BT_NMSTRT || t == BT_HEX {
        ptr := ptr + 1;
      } else {
        return Invalid(ptr);
      }
    }
    return Partial;
  }

  method ScanPi(e: Encoding, s: bytes, start: nat) returns (r: Lexeme)
    requires start <= |s|
    ensures r == PiTok(e, s, start)
  {
    if start == |s| { return Partial; }
    var sp := ScanWholeName(e, s, start);
    if !sp.SpanEnd? { return Fault(sp); }
    var ptr := sp.at;
    if ptr == |s| { return Partial; }
    if ptr == start { return Invalid(ptr); }
    var t := e.cls(s[ptr]);
    if !IsSpace(t) && t != BT_QUEST { return Invalid(ptr); }
    var tok := CheckPiTarget(s[start..ptr]);
    if tok.BadTarget? { return Invalid(ptr); }
    ptr := ptr + 1;
    if IsSpace(t) {
      r := ScanPiBody(e, tok.kind, s, ptr);
    } else if ptr == |s| {
      r := Partial;
    } else if s[ptr] == BYTE_GT {
      r := Token(tok.kind, ptr + 1);
    } else {
      r := Invalid(ptr);
    }
  }

  /** The inner loop of scanPi, after the space that ends the target. */
  method ScanPiBody(e: Encoding, tok: Kind, s: bytes, start: nat) returns (r: Lexeme)
    requires start <= |s|
    ensures r == PiBodyTok(e, tok, s, start)
  {
    var ptr := start;
    while ptr != |s|
      invariant ptr <= |s|
      invariant PiBodyTok(e, tok, s, start) == PiBodyTok(e, tok, s, ptr)
      decreases |s| - ptr
    {
      match CharCheck(e, s, ptr) {
        case Takes(n) => ptr := ptr + n;
        case ShortChar => return PartialChar;
        case Refused => return Invalid(ptr);
        case NotListed =>
          if e.cls(s[ptr]) == BT_QUEST {
            ptr := ptr + 1;
            if ptr == |s| { return Partial; }
            if s[ptr] == BYTE_GT { return Token(tok, ptr + 1); }
          } else {
            ptr := ptr + 1;
          }
      }
    }
    return Partial;
  }

  method ScanCdataSection(s: bytes, start: nat) returns (r: Lexeme)
    requires start <= |s|
    ensures r == CdataOpenTok(s, start)
  {
    if |s| - start < 6 { return Partial; }
    var i, ptr := 0, start;
    while i < 6
      invariant 0 <= i <= 6 && ptr == start + i
      invariant CdataMatch(s, start, 0) == CdataMatch(s, start, i)
    {
      if s[ptr] != CDATA_OPEN[i] { return Invalid(ptr); }
      i, ptr := i + 1, ptr + 1;
    }
    return Token(CdataSectOpen, ptr);
  }

  method ScanEndTag(e: Encoding, s: bytes, start: nat) returns (r: Lexeme)
    requires start <= |s|
    ensures r == EndTagTok(e, s, start)
  {
    if start == |s| { return Partial; }
    var sp := ScanWholeName(e, s, start);
    if !sp.SpanEnd? { return Fault(sp); }
    if sp.at == start { return Invalid(start); }
    var ptr := ScanSpace(e, s, sp.at);
    if ptr == |s| { return Partial; }
    if e.cls(s[ptr]) == BT_GT { return Token(EndTag, ptr + 1); }
    r := Invalid(ptr);
  }

  method ScanHexCharRef(e: Encoding, s: bytes, start: nat) returns (r: Lexeme)
    requires start <= |s|
    ensures r == DigitsTok(e, true, s, start)
  {
    var ptr := start;
    if ptr != |s| {
      var t := e.cls(s[ptr]);
      if !(t == BT_DIGIT || t == BT_HEX) { return Invalid(ptr); }
      ptr := ptr + 1;
      while ptr != |s|
        invariant start < ptr <= |s|
        invariant DigitSpan(e, true, s, start) == DigitSpan(e, true, s, ptr)
        decreases |s| - ptr
      {
        var u := e.cls(s[ptr]);
        if u == BT_SEMI { return Token(CharRef, ptr + 1); }
        if !(u == BT_DIGIT || u == BT_HEX) { return Invalid(ptr); }
        ptr := ptr + 1;
      }
    }
    return Partial;
  }

  method ScanCharRef(e: Encoding, s: bytes, start: nat) returns (r: Lexeme)
    requires start <= |s|
    ensures r == CharRefTok(e, s, start)
  {
    var ptr := start;
    if ptr != |s| {
      if s[ptr] == BYTE_X {
        r := ScanHexCharRef(e, s, ptr + 1);
        return;
      }
      if e.cls(s[ptr]) != BT_DIGIT { return Invalid(ptr); }
      ptr := ptr + 1;
      while ptr != |s|
        invariant start < ptr <= |s|
        invariant DigitSpan(e, false, s, start) == DigitSpan(e, false, s, ptr)
        decreases |s| - ptr
      {
        var u := e.cls(s[ptr]);
        if u == BT_SEMI { return Token(CharRef, ptr + 1); }
        if u != BT_DIGIT { return Invalid(ptr); }
        ptr := ptr + 1;
      }
    }
    return Partial;
  }

  method ScanRef(e: Encoding, s: bytes, start: nat) returns (r: Lexeme)
    requires start <= |s|
    ensures r == RefTok(e, s, start)
  {
    if start == |s| { return Partial; }
    var sp := ScanWholeName(e, s, start);
    if !sp.SpanEnd? { return Fault(sp); }
    var ptr := sp.at;
    if ptr == |s| { return Partial; }
    if ptr == start {
      if e.cls(s[ptr]) != BT_NUM { return Invalid(ptr); }
      r := ScanCharRef(e, s, ptr + 1);
      return;
    }
    if e.cls(s[ptr]) == BT_SEMI { return Token(EntityRef, ptr + 1); }
    r := Invalid(ptr);
  }

  /** The `sol:` label: a slash has been read and only '>' may follow. */
  method ScanSol(atts: bool, s: bytes, start: nat) returns (r: Lexeme)
    requires start <= |s|
    ensures r == SolTok(atts, s, start)
  {
    if start == |s| { return Partial; }
    if s[start] != BYTE_GT { return Invalid(start); }
    return Token(if atts then EmptyElementWithAtts else EmptyElementNoAtts, start + 1);
  }

  /** The loop over an attribute value. */
  method ScanValue(e: Encoding, open: Class, s: bytes, start: nat) returns (v: ValueScan)
    requires start <= |s|
    ensures v == ValueTok(e, open, s, start)
  {
    var ptr := start;
    while true
      invariant start <= ptr <= |s|
      invariant ValueTok(e, open, s, start) == ValueTok(e, open, s, ptr)
      decreases |s| - ptr
    {
      if ptr == |s| { return Unclosed(Partial); }
      var t := e.cls(s[ptr]);
      if t == open { return Closed(ptr); }
      match CharCheck(e, s, ptr) {
        case Takes(n) => ptr := ptr + n;
        case ShortChar => return Unclosed(PartialChar);
        case Refused => return Unclosed(Invalid(ptr));
        case NotListed =>
          if t == BT_AMP {
            var tok := ScanRef(e, s, ptr + 1);
            if !tok.Token? { return Unclosed(tok); }
            ptr := tok.next;
          } else if t == BT_LT {
            return Unclosed(Invalid(ptr));
          } else {
            ptr := ptr + 1;
          }
      }
    }
  }

  /** The part of the loop of scanAtts from an attribute name to the opening quote. */
  method ScanValueStart(e: Encoding, s: bytes, start: nat) returns (v: ValueScan)
    requires start <= |s|
    ensures v == ValueStart(e, s, start)
  {
    var sp := ScanName(e, s, start);
    if !sp.SpanEnd? { return Unclosed(Fault(sp)); }
    var ptr := ScanSpace(e, s, sp.at);
    if ptr == |s| { return Unclosed(Partial); }
    if e.cls(s[ptr]) != BT_EQUALS { return Unclosed(Invalid(ptr)); }
    ptr := ScanSpace(e, s, ptr + 1);
    if ptr == |s| { return Unclosed(Partial); }
    var open := e.cls(s[ptr]);
    if open == BT_QUOT || open == BT_APOS { return Closed(ptr); }
    return Unclosed(Invalid(ptr));
  }

  /** The `gt:` and `sol:` labels of scanLt and scanAtts. */
  method ScanTagEnd(e: Encoding, atts: bool, s: bytes, start: nat) returns (r: Lexeme)
    requires start < |s|
    ensures r == TagEndTok(e, atts, s, start)
  {
    var t := e.cls(s[start]);
    if t == BT_GT {
      r := Token(if atts then StartTagWithAtts else StartTagNoAtts, start + 1);
    } else if t == BT_SOL {
      r := ScanSol(atts, s, start + 1);
    } else {
      r := Invalid(start);
    }
  }

  /** After white space in a start tag: the next attribute name has begun before `ptr`, or the tag ends in `r`. */
  method ScanGap(e: Encoding, atts: bool, s: bytes, start: nat) returns (more: bool, ptr: nat, r: Lexeme)
    requires start <= |s|
    ensures more ==> start < ptr <= |s| && GapTok(e, atts, s, start) == AttsTok(e, s, ptr)
    ensures !more ==> r == GapTok(e, atts, s, start)
  {
    more, ptr, r := false, start, Partial;
    if ptr == |s| { return; }
    match NmStrtCheck(e, s, ptr) {
      case Takes(n) => more, ptr := true, ptr + n;
      case ShortChar => r := PartialChar;
      case Refused => r := Invalid(ptr);
      case NotListed => r := ScanTagEnd(e, atts, s, ptr);
    }
  }

  /** One round of the loop of scanAtts: an attribute and what follows it. */
  method ScanAttribute(e: Encoding, s: bytes, start: nat) returns (more: bool, ptr: nat, r: Lexeme)
    requires start <= |s|
    ensures more ==> start < ptr <= |s| && AttsTok(e, s, start) == AttsTok(e, s, ptr)
    ensures !more ==> r == AttsTok(e, s, start)
  {
    more, ptr := false, start;
    var q := ScanValueStart(e, s, start);
    if q.Unclosed? { return false, ptr, q.lex; }
    var v := ScanValue(e, e.cls(s[q.at]), s, q.at + 1);
    if v.Unclosed? { return false, ptr, v.lex; }
    assert AttsTok(e, s, start) == AfterValueTok(e, s, v.at + 1);
    ptr := v.at + 1;
    if ptr == |s| {
      r := Partial;
    } else if !IsSpace(e.cls(s[ptr])) {
      r := ScanTagEnd(e, true, s, ptr);
    } else {
      ptr := ScanSpace(e, s, ptr + 1);
      more, ptr, r := ScanGap(e, true, s, ptr);
    }
  }

  method ScanAtts(e: Encoding, s: bytes, start: nat) returns (r: Lexeme)
    requires start <= |s|
    ensures r == AttsTok(e, s, start)
  {
    var more, ptr := true, start;
    r := Partial;
    while more
      invariant more ==> ptr <= |s| && AttsTok(e, s, start) == AttsTok(e, s, ptr)
      invariant !more ==> r == AttsTok(e, s, start)
      decreases more, |s| - ptr
    {
      more, ptr, r := ScanAttribute(e, s, ptr);
    }
  }

  /** The loop of scanLt over the rest of a start tag. */
  method ScanTag(e: Encoding, s: bytes, start: nat) returns (r: Lexeme)
    requires start <= |s|
    ensures r == TagTok(e, s, start)
  {
    var sp := ScanName(e, s, start);
    if !sp.SpanEnd? { return Fault(sp); }
    var ptr := sp.at;
    if ptr == |s| { return Partial; }
    if !IsSpace(e.cls(s[ptr])) {
      r := ScanTagEnd(e, false, s, ptr);
      return;
    }
    ptr := ScanSpace(e, s, ptr + 1);
    var more, next, tok := ScanGap(e, false, s, ptr);
    if !more { return tok; }
    r := ScanAtts(e, s, next);
  }

  /** The BT_EXCL case of scanLt. */
  method ScanExcl(e: Encoding, s: bytes, start: nat) returns (r: Lexeme)
    requires start <= |s|
    ensures r == ExclTok(e, s, start)
  {
    if start == |s| { return Partial; }
    var t := e.cls(s[start]);
    if t == BT_MINUS {
      r := ScanComment(e, s, start + 1);
    } else if t == BT_LSQB {
      r := ScanCdataSection(s, start + 1);
    } else {
      r := Invalid(start);
    }
  }

  method ScanLt(e: Encoding, s: bytes, start: nat) returns (r: Lexeme)
    requires start <= |s|
    ensures r == LtTok(e, s, start)
  {
    var ptr := start;
    if ptr == |s| { return Partial; }
    match NmStrtCheck(e, s, ptr) {
      case Takes(n) => r := ScanTag(e, s, ptr + n);
      case ShortChar => r := PartialChar;
      case Refused => r := Invalid(ptr);
      case NotListed =>
        var t := e.cls(s[ptr]);
        if t == BT_EXCL {
          r := ScanExcl(e, s, ptr + 1);
        } else if t == BT_QUEST {
          r := ScanPi(e, s, ptr + 1);
        } else if t == BT_SOL {
          r := ScanEndTag(e, s, ptr + 1);
        } else {
          r := Invalid(ptr);
        }
    }
  }

  method ScanContent(e: Encoding, s: bytes, start: nat) returns (r: Lexeme)
    requires start <= |s|
    ensures r == ContentTok(e, s, start)
  {
    var ptr := start;
    if ptr == |s| { return NoToken; }
    var first := e.cls(s[ptr]);
    if first == BT_LT {
      r := ScanLt(e, s, ptr + 1);
      return;
    } else if first == BT_AMP {
      r := ScanRef(e, s, ptr + 1);
      return;
    } else if first == BT_CR {
      ptr := ptr + 1;
      if ptr == |s| { return TrailingCr; }
      if e.cls(s[ptr]) == BT_LF { ptr := ptr + 1; }
      return Token(DataNewline, ptr);
    } else if first == BT_LF {
      return Token(DataNewline, ptr + 1);
    } else if first == BT_RSQB {
      ptr := ptr + 1;
      if ptr == |s| { return TrailingRsqb; }
      if s[ptr] == BYTE_RSQB {
        ptr := ptr + 1;
        if ptr == |s| { return TrailingRsqb; }
        if s[ptr] == BYTE_GT { return Invalid(ptr); }
        ptr := ptr - 1;
      }
    } else {
      match CharCheck(e, s, ptr) {
        case Takes(n) => ptr := ptr + n;
        case ShortChar => return PartialChar;
        case Refused => return Invalid(ptr);
        case NotListed => ptr := ptr + 1;
      }
    }
    while ptr != |s|
      invariant ptr <= |s|
      invariant ContentTok(e, s, start) == DataTok(e, s, ptr)
      decreases |s| - ptr
    {
      var t := e.cls(s[ptr]);
      if t == BT_RSQB {
        if ptr + 1 == |s| { return Token(DataChars, ptr); }
        if s[ptr + 1] != BYTE_RSQB {
          ptr := ptr + 1;
        } else {
          if ptr + 2 == |s| { return Token(DataChars, ptr); }
          if s[ptr + 2] == BYTE_GT { return Invalid(ptr + 2); }
          ptr := ptr + 1;
        }
      } else if t == BT_AMP || t == BT_LT || t == BT_CR || t == BT_LF {
        return Token(DataChars, ptr);
      } else {
        match CharCheck(e, s, ptr) {
          case Takes(n) => ptr := ptr + n;
          case NotListed => ptr := ptr + 1;
          case _ => return Token(DataChars, ptr);
        }
      }
    }
    return Token(DataChars, ptr);
  }

  method ScanCdataContent(e: Encoding, s: bytes, start: nat) returns (r: Lexeme)
    requires start <= |s|
    ensures r == CdataSectionTok(e, s, start)
  {
    var ptr := start;
    if ptr == |s| { return NoToken; }
    var t := e.cls(s[ptr]);
    if t == BT_RSQB {
      ptr := ptr + 1;
      if ptr == |s| { return Partial; }
      if s[ptr] == BYTE_RSQB {
        ptr := ptr + 1;
        if ptr == |s| { return Partial; }
        if s[ptr] == BYTE_GT { return Token(CdataSectClose, ptr + 1); }
        ptr := ptr - 1;
      }
    } else if t == BT_CR {
      ptr := ptr + 1;
      if ptr == |s| { return Partial; }
      if e.cls(s[ptr]) == BT_LF { ptr := ptr + 1; }
      return Token(DataNewline, ptr);
    } else if t == BT_LF {
      return Token(DataNewline, ptr + 1);
    } else {
      match CharCheck(e, s, ptr) {
        case Takes(n) => ptr := ptr + n;
        case ShortChar => return PartialChar;
        case Refused => return Invalid(ptr);
        case NotListed => ptr := ptr + 1;
      }
    }
    while ptr != |s|
      invariant ptr <= |s|
      invariant CdataSectionTok(e, s, start) == CdataDataTok(e, s, ptr)
      decreases |s| - ptr
    {
      var u := e.cls(s[ptr]);
      if u == BT_CR || u == BT_LF || u == BT_RSQB { return Token(DataChars, ptr); }
      match CharCheck(e, s, ptr) {
        case Takes(n) => ptr := ptr + n;
        case NotListed => ptr := ptr + 1;
        case _ => return Token(DataChars, ptr);
      }
    }
    return Token(DataChars, ptr);
  }

  method ScanPercent(e: Encoding, s: bytes, start: nat) returns (r: Lexeme)
    requires start <= |s|
    ensures r == PercentTok(e, s, start)
  {
    if start == |s| { return Partial; }
    var sp := ScanWholeName(e, s, start);
    if !sp.SpanEnd? { return Fault(sp); }
    if sp.at == |s| { return Partial; }
    var t := e.cls(s[sp.at]);
    if sp.at == start {
      return if IsSpace(t) || t == BT_PERCNT then Token(Percent, start) else Invalid(start);
    }
    if t == BT_SEMI { return Token(ParamEntityRef, sp.at + 1); }
    r := Invalid(sp.at);
  }

  method ScanPoundName(e: Encoding, s: bytes, start: nat) returns (r: Lexeme)
    requires start <= |s|
    ensures r == PoundTok(e, s, start)
  {
    if start == |s| { return Partial; }
    var sp := ScanWholeName(e, s, start);
    if !sp.SpanEnd? { return Fault(sp); }
    if sp.at == |s| { return Partial; }
    if sp.at == start { return Invalid(start); }
    var t := e.cls(s[sp.at]);
    if IsSpace(t) || t == BT_RPAR || t == BT_GT || t == BT_PERCNT || t == BT_VERBAR { return Token(PoundName, sp.at); }
    r := Invalid(sp.at);
  }

  method ScanLit(e: Encoding, open: Class, s: bytes, start: nat) returns (r: Lexeme)
    requires open == BT_QUOT || open == BT_APOS
    requires start <= |s|
    ensures r == LitTok(e, open, s, start)
  {
    var ptr := start;
    while ptr != |s|
      invariant ptr <= |s|
      invariant LitTok(e, open, s, start) == LitTok(e, open, s, ptr)
      decreases |s| - ptr
    {
      var t := e.cls(s[ptr]);
      match CharCheck(e, s, ptr) {
        case Takes(n) => ptr := ptr + n;
        case ShortChar => return PartialChar;
        case Refused => return Invalid(ptr);
        case NotListed =>
          ptr := ptr + 1;
          if t == open {
            if ptr == |s| { return Partial; }
            var u := e.cls(s[ptr]);
            if IsSpace(u) || u == BT_GT || u == BT_PERCNT || u == BT_LSQB { return Token(Literal, ptr); }
            return Invalid(ptr);
          }
      }
    }
    return Partial;
  }

  /** The S loop of prologTok, entered at a white-space byte. */
  method ScanPrologSpace(e: Encoding, s: bytes, start: nat) returns (r: Lexeme)
    requires start < |s|
    ensures r == Token(PrologS, PrologSpaceEnd(e, s, start + 1))
  {
    var ptr := start;
    while true
      invariant ptr < |s|
      invariant PrologSpaceEnd(e, s, start + 1) == PrologSpaceEnd(e, s, ptr + 1)
      decreases |s| - ptr
    {
      ptr := ptr + 1;
      if ptr == |s| { break; }
      var t := e.cls(s[ptr]);
      if !(t == BT_S || t == BT_LF || (t == BT_CR && ptr + 1 != |s|)) { return Token(PrologS, ptr); }
    }
    return Token(PrologS, ptr);
  }

  /** The end of prologTok, over the rest of a name or name token. */
  method ScanPrologName(e: Encoding, nmtoken: bool, s: bytes, start: nat) returns (r: Lexeme)
    requires start <= |s|
    ensures r == PrologNameTok(e, nmtoken, s, start)
  {
    var sp := ScanName(e, s, start);
    if !sp.SpanEnd? { return Fault(sp); }
    if sp.at == |s| { return Partial; }
    var t := e.cls(s[sp.at]);
    if t == BT_GT || t == BT_RPAR || t == BT_COMMA || t == BT_VERBAR || t == BT_LSQB || t == BT_PERCNT || IsSpace(t) {
      return Token(if nmtoken then NmToken else Name, sp.at);
    }
    if nmtoken { return Invalid(sp.at); }
    if t == BT_PLUS { return Token(NamePlus, sp.at + 1); }
    if t == BT_AST { return Token(NameAsterisk, sp.at + 1); }
    if t == BT_QUEST { return Token(NameQuestion, sp.at + 1); }
    return Invalid(sp.at);
  }

  method ScanProlog(e: Encoding, s: bytes, start: nat) returns (r: Lexeme)
    requires start <= |s|
    ensures r == PrologTok(e, s, start)
  {
    if start == |s| { return NoToken; }
    var first := e.cls(s[start]);
    if first == BT_LT {
      r := ScanPrologLt(e, s, start + 1);
    } else if first == BT_CR && start + 1 == |s| {
      r := TrailingCr;
    } else if IsSpace(first) {
      r := ScanPrologSpace(e, s, start);
    } else {
      r := ScanPrologMark(e, s, start);
    }
  }

  /** The BT_LT case of prologTok. */
  method ScanPrologLt(e: Encoding, s: bytes, start: nat) returns (r: Lexeme)
    requires 0 < start <= |s|
    ensures r == PrologLtTok(e, s, start)
  {
    if start == |s| { return Partial; }
    var t := e.cls(s[start]);
    if t == BT_EXCL {
      r := ScanDecl(e, s, start + 1);
    } else if t == BT_QUEST {
      r := ScanPi(e, s, start + 1);
    } else if StartsInstance(t) {
      r := Token(InstanceStart, start - 1);
    } else {
      r := Invalid(start);
    }
  }

  /** The cases of prologTok for punctuation and names. */
  method ScanPrologMark(e: Encoding, s: bytes, start: nat) returns (r: Lexeme)
    requires start < |s|
    ensures r == PrologMarkTok(e, s, start)
  {
    var ptr := start + 1;
    var first := e.cls(s[start]);
    if first == BT_QUOT || first == BT_APOS {
      r := ScanLit(e, first, s, ptr);
    } else if first == BT_PERCNT {
      r := ScanPercent(e, s, ptr);
    } else if first == BT_COMMA {
      r := Token(CommaTok, ptr);
    } else if first == BT_LSQB {
      r := Token(OpenBracket, ptr);
    } else if first == BT_RSQB {
      if ptr == |s| { return Partial; }
      if s[ptr] == BYTE_RSQB {
        if ptr + 1 == |s| { return Partial; }
        if s[ptr + 1] == BYTE_GT { return Token(CondSectClose, ptr + 2); }
      }
      r := Token(CloseBracket, ptr);
    } else if first == BT_LPAR {
      r := Token(OpenParen, ptr);
    } else if first == BT_RPAR {
      r := ScanCloseParen(e, s, ptr);
    } else if first == BT_VERBAR {
      r := Token(Or, ptr);
    } else if first == BT_GT {
      r := Token(DeclClose, ptr);
    } else if first == BT_NUM {
      r := ScanPoundName(e, s, ptr);
    } else if IsLead(first) {
      r := ScanLeadName(e, s, start, LeadLength(first));
    } else if first == BT_NMSTRT || first == BT_HEX {
      r := ScanPrologName(e, false, s, ptr);
    } else if first == BT_DIGIT || first == BT_NAME || first == BT_MINUS {
      r := ScanPrologName(e, true, s, ptr);
    } else {
      r := Invalid(start);
    }
  }

  /** The BT_RPAR case of prologTok. */
  method ScanCloseParen(e: Encoding, s: bytes, start: nat) returns (r: Lexeme)
    requires start <= |s|
    ensures r == CloseParenTok(e, s, start)
  {
    if start == |s| { return Partial; }
    var t := e.cls(s[start]);
    if t == BT_AST {
      r := Token(CloseParenAsterisk, start + 1);
    } else if t == BT_QUEST {
      r := Token(CloseParenQuestion, start + 1);
    } else if t == BT_PLUS {
      r := Token(CloseParenPlus, start + 1);
    } else if IsSpace(t) || t == BT_GT || t == BT_COMMA || t == BT_VERBAR || t == BT_RPAR {
      r := Token(CloseParen, start);
    } else {
      r := Invalid(start);
    }
  }

  /** The LEAD_CASE of prologTok. */
  method ScanLeadName(e: Encoding, s: bytes, start: nat, n: nat) returns (r: Lexeme)
    requires start < |s| && 0 < n
    ensures r == LeadNameTok(e, s, start, n)
  {
    if |s| - start < n { return PartialChar; }
    if s[start..start + n] in e.nmStrt {
      r := ScanPrologName(e, false, s, start + n);
    } else if s[start..start + n] in e.name {
      r := ScanPrologName(e, true, s, start + n);
    } else {
      r := Invalid(start);
    }
  }
}
