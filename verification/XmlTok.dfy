/**
  The lexical grammar of the XML tokenizer (xmlnode/xmltok_impl.c), built without
  XML_NS and for an encoding with one byte per ASCII character.

  A token is described by the spans it is made of: a name, white space, a
  quoted value, ... Every function takes the whole buffer and a position and
  says which token starts there, or why the buffer is too short to tell. The
  scanners of the source, which move a pointer in loops, are the methods of
  module XmlScan; they are proved to compute these functions.
 */
module XmlTok {
  import opened Bytes

  /** Byte classes, numbered as in xmlnode/xmltok_impl.h. */
  newtype Class = c: int | 0 <= c < 37

  const BT_NONXML: Class := 0
  const BT_MALFORM: Class := 1
  const BT_LT: Class := 2
  const BT_AMP: Class := 3
  const BT_RSQB: Class := 4
  const BT_LEAD2: Class := 5
  const BT_LEAD3: Class := 6
  const BT_LEAD4: Class := 7
  const BT_TRAIL: Class := 8
  const BT_CR: Class := 9
  const BT_LF: Class := 10
  const BT_GT: Class := 11
  const BT_QUOT: Class := 12
  const BT_APOS: Class := 13
  const BT_EQUALS: Class := 14
  const BT_QUEST: Class := 15
  const BT_EXCL: Class := 16
  const BT_SOL: Class := 17
  const BT_SEMI: Class := 18
  const BT_NUM: Class := 19
  const BT_LSQB: Class := 20
  const BT_S: Class := 21
  const BT_NMSTRT: Class := 22
  const BT_COLON: Class := 23
  const BT_HEX: Class := 24
  const BT_DIGIT: Class := 25
  const BT_NAME: Class := 26
  const BT_MINUS: Class := 27
  const BT_OTHER: Class := 28
  const BT_NONASCII: Class := 29
  const BT_PERCNT: Class := 30
  const BT_LPAR: Class := 31
  const BT_RPAR: Class := 32
  const BT_AST: Class := 33
  const BT_PLUS: Class := 34
  const BT_COMMA: Class := 35
  const BT_VERBAR: Class := 36

  /** The `type` table of a normal_encoding. */
  type ByteTable = l: seq<Class> | |l| == 256 witness seq(256, _ => BT_OTHER)

  /**
    An encoding with one byte per ASCII character: the byte table, and which byte
    strings are multi-byte characters that start a name, continue one, or are not
    valid.
   */
  datatype Encoding = Encoding(types: ByteTable, nmStrt: set<bytes>, name: set<bytes>, invalid: set<bytes>) {
    function cls(b: byte): Class {
      types[b]
    }
  }

  datatype Kind =
    | StartTagWithAtts | StartTagNoAtts | EmptyElementWithAtts | EmptyElementNoAtts | EndTag
    | DataChars | DataNewline | CdataSectOpen | CdataSectClose | EntityRef | CharRef
    | PI | XmlDecl | Comment
    | PrologS | DeclOpen | DeclClose | Name | NmToken | PoundName | Or | Percent
    | OpenParen | CloseParen | OpenBracket | CloseBracket | Literal | ParamEntityRef | InstanceStart
    | NameQuestion | NameAsterisk | NamePlus | CondSectOpen | CondSectClose
    | CloseParenQuestion | CloseParenAsterisk | CloseParenPlus | CommaTok
    | AttributeValueS

  /** What a scanner returns; `next` is the pointer it stores, where it stores one. */
  datatype Lexeme =
    | NoToken | Partial | PartialChar | TrailingCr | TrailingRsqb
    | Invalid(next: nat)
    | Token(kind: Kind, next: nat)

  const BYTE_MINUS: byte := 0x2D
  const BYTE_GT: byte := 0x3E
  const BYTE_RSQB: byte := 0x5D
  const BYTE_SPACE: byte := 0x20
  const BYTE_X: byte := 0x78
  const CDATA_OPEN: bytes := [0x43, 0x44, 0x41, 0x54, 0x41, 0x5B]  // CDATA[

  predicate IsSpace(c: Class) {
    c == BT_S || c == BT_CR || c == BT_LF
  }

  predicate IsLead(c: Class) {
    c == BT_LEAD2 || c == BT_LEAD3 || c == BT_LEAD4
  }

  function LeadLength(c: Class): (n: nat)
    requires IsLead(c)
    ensures 2 <= n <= 4
  {
    if c == BT_LEAD2 then 2 else if c == BT_LEAD3 then 3 else 4
  }

  /** The outcome of a CHECK_..._CASE or INVALID_LEAD_CASE macro. */
  datatype Check = Takes(n: nat) | ShortChar | Refused | NotListed

  /** A character of `n` bytes that has to be one of `ok`. */
  function LeadCheck(ok: set<bytes>, s: bytes, p: nat, n: nat): Check
    requires p < |s|
  {
    if |s| - p < n then ShortChar else if s[p..p + n] in ok then Takes(n) else Refused
  }

  function NmStrtCheck(e: Encoding, s: bytes, p: nat): Check
    requires p < |s|
  {
    var c := e.cls(s[p]);
    if c == BT_NONASCII then Refused
    else if c == BT_NMSTRT || c == BT_HEX then Takes(1)
    else if IsLead(c) then LeadCheck(e.nmStrt, s, p, LeadLength(c))
    else NotListed
  }

  function NameCheck(e: Encoding, s: bytes, p: nat): Check
    requires p < |s|
  {
    var c := e.cls(s[p]);
    if c == BT_NONASCII then Refused
    else if c == BT_NMSTRT || c == BT_HEX || c == BT_DIGIT || c == BT_NAME || c == BT_MINUS then Takes(1)
    else if IsLead(c) then LeadCheck(e.name, s, p, LeadLength(c))
    else NotListed
  }

  /** INVALID_CASES: what no XML character may start with is refused, any other byte is not listed. */
  function CharCheck(e: Encoding, s: bytes, p: nat): Check
    requires p < |s|
  {
    var c := e.cls(s[p]);
    if IsLead(c) then
      if |s| - p < LeadLength(c) then ShortChar
      else if s[p..p + LeadLength(c)] in e.invalid then Refused
      else Takes(LeadLength(c))
    else if c == BT_NONXML || c == BT_MALFORM || c == BT_TRAIL then Refused
    else NotListed
  }

  /** checkPiTarget: XML_TOK_XML_DECL for "xml", refused for its other spellings, XML_TOK_PI otherwise. */
  datatype PiTarget = Target(kind: Kind) | BadTarget

  function CheckPiTarget(t: bytes): PiTarget {
    if |t| != 3 then Target(PI)
    else if t[0] != 0x78 && t[0] != 0x58 then Target(PI)
    else if t[1] != 0x6D && t[1] != 0x4D then Target(PI)
    else if t[2] != 0x6C && t[2] != 0x4C then Target(PI)
    else if t == [0x78, 0x6D, 0x6C] then Target(XmlDecl)
    else BadTarget
  }

  // ---------------------------------------------------------------- spans

  /** A run of characters: up to the byte `at`, into a cut-off character, or to a character that is not allowed. */
  datatype Span = SpanEnd(at: nat) | SpanShort | SpanBad(at: nat)

  /** The token reported for a span that does not end at a byte or at the end of the buffer. */
  function Fault(sp: Span): Lexeme
    requires !sp.SpanEnd?
  {
    if sp.SpanShort? then PartialChar else Invalid(sp.at)
  }

  /** The rest of a name. */
  function NameSpan(e: Encoding, s: bytes, p: nat): (sp: Span)
    requires p <= |s|
    ensures sp.SpanEnd? ==> p <= sp.at <= |s|
    decreases |s| - p
  {
    if p == |s| then SpanEnd(p)
    else
      match NameCheck(e, s, p)
      case Takes(n) => NameSpan(e, s, p + n)
      case ShortChar => SpanShort
      case Refused => SpanBad(p)
      case NotListed => SpanEnd(p)
  }

  /** A whole name; `SpanEnd(p)` if no name starts at `p`. */
  function WholeName(e: Encoding, s: bytes, p: nat): (sp: Span)
    requires p < |s|
    ensures sp.SpanEnd? ==> p <= sp.at <= |s|
  {
    match NmStrtCheck(e, s, p)
    case Takes(n) => NameSpan(e, s, p + n)
    case ShortChar => SpanShort
    case Refused => SpanBad(p)
    case NotListed => SpanEnd(p)
  }

  function SpaceSpan(e: Encoding, s: bytes, p: nat): (at: nat)
    requires p <= |s|
    ensures p <= at <= |s|
    ensures at < |s| ==> !IsSpace(e.cls(s[at]))
    decreases |s| - p
  {
    if p < |s| && IsSpace(e.cls(s[p])) then SpaceSpan(e, s, p + 1) else p
  }

  predicate IsDigit(c: Class, hex: bool) {
    c == BT_DIGIT || (hex && c == BT_HEX)
  }

  function DigitSpan(e: Encoding, hex: bool, s: bytes, p: nat): (at: nat)
    requires p <= |s|
    ensures p <= at <= |s|
    decreases |s| - p
  {
    if p < |s| && IsDigit(e.cls(s[p]), hex) then DigitSpan(e, hex, s, p + 1) else p
  }

  // ---------------------------------------------------------------- references

  /** scanCharRef and scanHexCharRef; `p` is after "&#". */
  function CharRefTok(e: Encoding, s: bytes, p: nat): (r: Lexeme)
    requires p <= |s|
    ensures r.Token? ==> p < r.next <= |s|
  {
    if p < |s| && s[p] == BYTE_X then DigitsTok(e, true, s, p + 1) else DigitsTok(e, false, s, p)
  }

  function DigitsTok(e: Encoding, hex: bool, s: bytes, p: nat): (r: Lexeme)
    requires p <= |s|
    ensures r.Token? ==> p < r.next <= |s|
  {
    var at := DigitSpan(e, hex, s, p);
    if at == |s| then Partial
    else if at > p && e.cls(s[at]) == BT_SEMI then Token(CharRef, at + 1)
    else Invalid(at)
  }

  /** scanRef; `p` is after "&". */
  function RefTok(e: Encoding, s: bytes, p: nat): (r: Lexeme)
    requires p <= |s|
    ensures r.Token? ==> p < r.next <= |s| && (r.kind == EntityRef || r.kind == CharRef)
  {
    if p == |s| then Partial
    else
      var sp := WholeName(e, s, p);
      if !sp.SpanEnd? then Fault(sp)
      else if sp.at == |s| then Partial
      else if sp.at == p then if e.cls(s[p]) == BT_NUM then CharRefTok(e, s, p + 1) else Invalid(p)
      else if e.cls(s[sp.at]) == BT_SEMI then Token(EntityRef, sp.at + 1)
      else Invalid(sp.at)
  }

  // ---------------------------------------------------------------- tags

  /** scanEndTag; `p` is after "</". */
  function EndTagTok(e: Encoding, s: bytes, p: nat): (r: Lexeme)
    requires p <= |s|
    ensures r.Token? ==> p < r.next <= |s| && r.kind == EndTag
  {
    if p == |s| then Partial
    else
      var sp := WholeName(e, s, p);
      if !sp.SpanEnd? then Fault(sp)
      else if sp.at == p then Invalid(p)
      else
        var at := SpaceSpan(e, s, sp.at);
        if at == |s| then Partial
        else if e.cls(s[at]) == BT_GT then Token(EndTag, at + 1)
        else Invalid(at)
  }

  /** The `sol:` labels; `p` is after the slash. */
  function SolTok(atts: bool, s: bytes, p: nat): (r: Lexeme)
    requires p <= |s|
    ensures r.Token? ==> p < r.next <= |s| && IsStartTag(r.kind)
  {
    if p == |s| then Partial
    else if s[p] != BYTE_GT then Invalid(p)
    else Token(if atts then EmptyElementWithAtts else EmptyElementNoAtts, p + 1)
  }

  predicate IsStartTag(k: Kind) {
    k == StartTagNoAtts || k == StartTagWithAtts || k == EmptyElementNoAtts || k == EmptyElementWithAtts
  }

  /** An attribute value is closed by its quote at `at`, or the scan ends in it. */
  datatype ValueScan = Closed(at: nat) | Unclosed(lex: Lexeme)

  /** One character or reference of an attribute value ends at `to`, or the scan ends in it. */
  datatype Unit = Next(to: nat) | Stop(lex: Lexeme)

  function ValueUnit(e: Encoding, s: bytes, p: nat): (u: Unit)
    requires p < |s|
    ensures u.Next? ==> p < u.to <= |s|
    ensures u.Stop? ==> !u.lex.Token?
  {
    match CharCheck(e, s, p)
    case Takes(n) => Next(p + n)
    case ShortChar => Stop(PartialChar)
    case Refused => Stop(Invalid(p))
    case NotListed =>
      if e.cls(s[p]) == BT_AMP then
        var r := RefTok(e, s, p + 1);
        if r.Token? then Next(r.next) else Stop(r)
      else if e.cls(s[p]) == BT_LT then Stop(Invalid(p))
      else Next(p + 1)
  }

  /** The loop over an attribute value whose quotes are of class `open`. */
  function ValueTok(e: Encoding, open: Class, s: bytes, p: nat): (v: ValueScan)
    requires p <= |s|
    ensures v.Closed? ==> p <= v.at < |s| && e.cls(s[v.at]) == open
    ensures v.Unclosed? ==> !v.lex.Token?
    decreases |s| - p
  {
    if p == |s| then Unclosed(Partial)
    else if e.cls(s[p]) == open then Closed(p)
    else
      match ValueUnit(e, s, p)
      case Next(to) => ValueTok(e, open, s, to)
      case Stop(lex) => Unclosed(lex)
  }

  /** Where the value of an attribute whose name continues at `p` starts: the position of its opening quote. */
  function ValueStart(e: Encoding, s: bytes, p: nat): (v: ValueScan)
    requires p <= |s|
    ensures v.Closed? ==> p < v.at < |s| && (e.cls(s[v.at]) == BT_QUOT || e.cls(s[v.at]) == BT_APOS)
    ensures v.Unclosed? ==> !v.lex.Token?
  {
    var sp := NameSpan(e, s, p);
    if !sp.SpanEnd? then Unclosed(Fault(sp))
    else
      var eq := SpaceSpan(e, s, sp.at);
      if eq == |s| then Unclosed(Partial)
      else if e.cls(s[eq]) != BT_EQUALS then Unclosed(Invalid(eq))
      else
        var q := SpaceSpan(e, s, eq + 1);
        if q == |s| then Unclosed(Partial)
        else if e.cls(s[q]) == BT_QUOT || e.cls(s[q]) == BT_APOS then Closed(q)
        else Unclosed(Invalid(q))
  }

  /** An attribute whose name continues at `p`, up to its closing quote. */
  function AttributeTok(e: Encoding, s: bytes, p: nat): (v: ValueScan)
    requires p <= |s|
    ensures v.Closed? ==> p < v.at < |s|
    ensures v.Unclosed? ==> !v.lex.Token?
  {
    var quote := ValueStart(e, s, p);
    if quote.Unclosed? then quote else ValueTok(e, e.cls(s[quote.at]), s, quote.at + 1)
  }

  /** scanAtts; `p` is after the first character of an attribute name. */
  function AttsTok(e: Encoding, s: bytes, p: nat): (r: Lexeme)
    requires p <= |s|
    ensures r.Token? ==> p < r.next <= |s| && IsStartTag(r.kind)
    decreases |s| - p
  {
    match AttributeTok(e, s, p)
    case Closed(at) => AfterValueTok(e, s, at + 1)
    case Unclosed(lex) => lex
  }

  /** What follows a closing quote. */
  function AfterValueTok(e: Encoding, s: bytes, p: nat): (r: Lexeme)
    requires p <= |s|
    ensures r.Token? ==> p < r.next <= |s| && IsStartTag(r.kind)
    decreases |s| - p
  {
    if p == |s| then Partial
    else if IsSpace(e.cls(s[p])) then GapTok(e, true, s, SpaceSpan(e, s, p + 1))
    else TagEndTok(e, true, s, p)
  }

  /** After white space in a start tag: another attribute, or the end; `atts` if there was an attribute already. */
  function GapTok(e: Encoding, atts: bool, s: bytes, p: nat): (r: Lexeme)
    requires p <= |s|
    ensures r.Token? ==> p < r.next <= |s| && IsStartTag(r.kind)
    decreases |s| - p
  {
    if p == |s| then Partial
    else
      match NmStrtCheck(e, s, p)
      case Takes(n) => AttsTok(e, s, p + n)
      case ShortChar => PartialChar
      case Refused => Invalid(p)
      case NotListed => TagEndTok(e, atts, s, p)
  }

  /** The end of a start tag. */
  function TagEndTok(e: Encoding, atts: bool, s: bytes, p: nat): (r: Lexeme)
    requires p < |s|
    ensures r.Token? ==> p < r.next <= |s| && IsStartTag(r.kind)
  {
    if e.cls(s[p]) == BT_GT then Token(if atts then StartTagWithAtts else StartTagNoAtts, p + 1)
    else if e.cls(s[p]) == BT_SOL then SolTok(atts, s, p + 1)
    else Invalid(p)
  }

  /** The rest of a start tag; `p` is after the first character of the element name. */
  function TagTok(e: Encoding, s: bytes, p: nat): (r: Lexeme)
    requires p <= |s|
    ensures r.Token? ==> p < r.next <= |s| && IsStartTag(r.kind)
  {
    var sp := NameSpan(e, s, p);
    if !sp.SpanEnd? then Fault(sp)
    else if sp.at == |s| then Partial
    else if IsSpace(e.cls(s[sp.at])) then GapTok(e, false, s, SpaceSpan(e, s, sp.at + 1))
    else TagEndTok(e, false, s, sp.at)
  }

  // ---------------------------------------------------------------- other markup

  /** Neither white space nor character data, nor an end of the buffer that is no error. */
  predicate IsMark(r: Lexeme) {
    !r.NoToken? && !r.TrailingCr? && !r.TrailingRsqb? && (r.Token? ==> r.kind != PrologS && r.kind != DataChars)
  }

  /** The body of a comment, after "<!--". */
  function CommentBodyTok(e: Encoding, s: bytes, p: nat): (r: Lexeme)
    requires p <= |s|
    ensures r.Token? ==> p < r.next <= |s| && r.kind == Comment
    decreases |s| - p
  {
    if p == |s| then Partial
    else
      match CharCheck(e, s, p)
      case Takes(n) => CommentBodyTok(e, s, p + n)
      case ShortChar => PartialChar
      case Refused => Invalid(p)
      case NotListed =>
        if e.cls(s[p]) != BT_MINUS then CommentBodyTok(e, s, p + 1)
        else if p + 1 == |s| then Partial
        else if s[p + 1] != BYTE_MINUS then CommentBodyTok(e, s, p + 1)
        else if p + 2 == |s| then Partial
        else if s[p + 2] != BYTE_GT then Invalid(p + 2)
        else Token(Comment, p + 3)
  }

  /** scanComment; `p` is after "<!-". */
  function CommentTok(e: Encoding, s: bytes, p: nat): (r: Lexeme)
    requires p <= |s|
    ensures r.Token? ==> p < r.next <= |s| && r.kind == Comment
  {
    if p == |s| then Partial
    else if s[p] != BYTE_MINUS then Invalid(p)
    else CommentBodyTok(e, s, p + 1)
  }

  /** The number of bytes, up to 6, in which `s` agrees with "CDATA[" from `p`. */
  function CdataMatch(s: bytes, p: nat, i: nat): (k: nat)
    requires i <= 6 && p + 6 <= |s|
    ensures i <= k <= 6
    decreases 6 - i
  {
    if i < 6 && s[p + i] == CDATA_OPEN[i] then CdataMatch(s, p, i + 1) else i
  }

  /** scanCdataSection; `p` is after "<![". */
  function CdataOpenTok(s: bytes, p: nat): (r: Lexeme)
    requires p <= |s|
    ensures r.Token? ==> p < r.next <= |s| && r.kind == CdataSectOpen
  {
    if |s| - p < 6 then Partial
    else
      var k := CdataMatch(s, p, 0);
      if k < 6 then Invalid(p + k) else Token(CdataSectOpen, p + 6)
  }

  /** The inside of a processing instruction after its target. */
  function PiBodyTok(e: Encoding, pi: Kind, s: bytes, p: nat): (r: Lexeme)
    requires p <= |s|
    ensures r.Token? ==> p < r.next <= |s| && r.kind == pi
    decreases |s| - p
  {
    if p == |s| then Partial
    else
      match CharCheck(e, s, p)
      case Takes(n) => PiBodyTok(e, pi, s, p + n)
      case ShortChar => PartialChar
      case Refused => Invalid(p)
      case NotListed =>
        if e.cls(s[p]) != BT_QUEST then PiBodyTok(e, pi, s, p + 1)
        else if p + 1 == |s| then Partial
        else if s[p + 1] != BYTE_GT then PiBodyTok(e, pi, s, p + 1)
        else Token(pi, p + 2)
  }

  /** What follows the target of a processing instruction. */
  function AfterTargetTok(e: Encoding, target: bytes, s: bytes, p: nat): (r: Lexeme)
    requires p < |s|
    ensures r.Token? ==> p < r.next <= |s| && (r.kind == PI || r.kind == XmlDecl)
  {
    var c := e.cls(s[p]);
    var t := CheckPiTarget(target);
    if !(IsSpace(c) || c == BT_QUEST) || t.BadTarget? then Invalid(p)
    else if IsSpace(c) then PiBodyTok(e, t.kind, s, p + 1)
    else if p + 1 == |s| then Partial
    else if s[p + 1] == BYTE_GT then Token(t.kind, p + 2)
    else Invalid(p + 1)
  }

  /** scanPi; `p` is after "<?". */
  function PiTok(e: Encoding, s: bytes, p: nat): (r: Lexeme)
    requires p <= |s|
    ensures r.Token? ==> p < r.next <= |s| && (r.kind == PI || r.kind == XmlDecl)
  {
    if p == |s| then Partial
    else
      var sp := WholeName(e, s, p);
      if !sp.SpanEnd? then Fault(sp)
      else if sp.at == |s| then Partial
      else if sp.at == p then Invalid(p)
      else AfterTargetTok(e, s[p..sp.at], s, sp.at)
  }

  /** What "<!" starts in content; `p` is after it. */
  function ExclTok(e: Encoding, s: bytes, p: nat): (r: Lexeme)
    requires p <= |s|
    ensures r.Token? ==> p < r.next <= |s|
  {
    if p == |s| then Partial
    else if e.cls(s[p]) == BT_MINUS then CommentTok(e, s, p + 1)
    else if e.cls(s[p]) == BT_LSQB then CdataOpenTok(s, p + 1)
    else Invalid(p)
  }

  /** The classes that make "<" the start of the document element. */
  predicate StartsInstance(c: Class) {
    c == BT_NMSTRT || c == BT_HEX || c == BT_NONASCII || IsLead(c)
  }

  /** scanLt; `p` is after "<". */
  function LtTok(e: Encoding, s: bytes, p: nat): (r: Lexeme)
    requires p <= |s|
    ensures r.Token? ==> p < r.next <= |s|
    ensures p < |s| && StartsInstance(e.cls(s[p])) && r.Token? ==> IsStartTag(r.kind)
  {
    if p == |s| then Partial
    else
      match NmStrtCheck(e, s, p)
      case Takes(n) => TagTok(e, s, p + n)
      case ShortChar => PartialChar
      case Refused => Invalid(p)
      case NotListed =>
        if e.cls(s[p]) == BT_EXCL then ExclTok(e, s, p + 1)
        else if e.cls(s[p]) == BT_QUEST then PiTok(e, s, p + 1)
        else if e.cls(s[p]) == BT_SOL then EndTagTok(e, s, p + 1)
        else Invalid(p)
  }

  // ---------------------------------------------------------------- content

  /** The loop of contentTok over character data. */
  function DataTok(e: Encoding, s: bytes, p: nat): (r: Lexeme)
    requires p <= |s|
    ensures r.Token? ==> p <= r.next <= |s| && r.kind == DataChars
    decreases |s| - p
  {
    if p == |s| then Token(DataChars, p)
    else
      var c := e.cls(s[p]);
      if c == BT_RSQB then
        if p + 1 == |s| then Token(DataChars, p)
        else if s[p + 1] != BYTE_RSQB then DataTok(e, s, p + 1)
        else if p + 2 == |s| then Token(DataChars, p)
        else if s[p + 2] != BYTE_GT then DataTok(e, s, p + 1)
        else Invalid(p + 2)
      else if c == BT_AMP || c == BT_LT || c == BT_CR || c == BT_LF then Token(DataChars, p)
      else
        match CharCheck(e, s, p)
        case Takes(n) => DataTok(e, s, p + n)
        case NotListed => DataTok(e, s, p + 1)
        case _ => Token(DataChars, p)
  }

  /** The newline token of a carriage return at `p - 1`, with a line feed that follows it. */
  function CrTok(e: Encoding, s: bytes, p: nat): Lexeme
    requires p < |s|
  {
    Token(DataNewline, if e.cls(s[p]) == BT_LF then p + 1 else p)
  }

  function ContentTok(e: Encoding, s: bytes, p: nat): (r: Lexeme)
    requires p <= |s|
    ensures r.Token? ==> p < r.next <= |s|
  {
    if p == |s| then NoToken
    else
      var c := e.cls(s[p]);
      if c == BT_LT then LtTok(e, s, p + 1)
      else if c == BT_AMP then RefTok(e, s, p + 1)
      else if c == BT_CR then if p + 1 == |s| then TrailingCr else CrTok(e, s, p + 1)
      else if c == BT_LF then Token(DataNewline, p + 1)
      else if c == BT_RSQB then
        if p + 1 == |s| then TrailingRsqb
        else if s[p + 1] != BYTE_RSQB then DataTok(e, s, p + 1)
        else if p + 2 == |s| then TrailingRsqb
        else if s[p + 2] != BYTE_GT then DataTok(e, s, p + 1)
        else Invalid(p + 2)
      else
        match CharCheck(e, s, p)
        case Takes(n) => DataTok(e, s, p + n)
        case ShortChar => PartialChar
        case Refused => Invalid(p)
        case NotListed => DataTok(e, s, p + 1)
  }

  /** The loop of cdataSectionTok. */
  function CdataDataTok(e: Encoding, s: bytes, p: nat): (r: Lexeme)
    requires p <= |s|
    ensures r.Token? && r.kind == DataChars && p <= r.next <= |s|
    decreases |s| - p
  {
    if p == |s| then Token(DataChars, p)
    else
      var c := e.cls(s[p]);
      if c == BT_RSQB || c == BT_CR || c == BT_LF then Token(DataChars, p)
      else
        match CharCheck(e, s, p)
        case Takes(n) => CdataDataTok(e, s, p + n)
        case NotListed => CdataDataTok(e, s, p + 1)
        case _ => Token(DataChars, p)
  }

  function CdataSectionTok(e: Encoding, s: bytes, p: nat): (r: Lexeme)
    requires p <= |s|
    ensures r.Token? ==> p < r.next <= |s|
    ensures r.Token? ==> r.kind == DataChars || r.kind == DataNewline || r.kind == CdataSectClose
    ensures !r.TrailingCr? && !r.TrailingRsqb?
  {
    if p == |s| then NoToken
    else
      var c := e.cls(s[p]);
      if c == BT_RSQB then
        if p + 1 == |s| then Partial
        else if s[p + 1] != BYTE_RSQB then CdataDataTok(e, s, p + 1)
        else if p + 2 == |s| then Partial
        else if s[p + 2] != BYTE_GT then CdataDataTok(e, s, p + 1)
        else Token(CdataSectClose, p + 3)
      else if c == BT_CR then if p + 1 == |s| then Partial else CrTok(e, s, p + 1)
      else if c == BT_LF then Token(DataNewline, p + 1)
      else
        match CharCheck(e, s, p)
        case Takes(n) => CdataDataTok(e, s, p + n)
        case ShortChar => PartialChar
        case Refused => Invalid(p)
        case NotListed => CdataDataTok(e, s, p + 1)
  }

  // ---------------------------------------------------------------- prolog and epilog

  /** The end of a run of white space in the prolog, which does not separate a CR from the LF that may follow. */
  function PrologSpaceEnd(e: Encoding, s: bytes, p: nat): (at: nat)
    requires p <= |s|
    ensures p <= at <= |s|
    decreases |s| - p
  {
    if p == |s| then p
    else
      var c := e.cls(s[p]);
      if c == BT_S || c == BT_LF || (c == BT_CR && p + 1 != |s|) then PrologSpaceEnd(e, s, p + 1) else p
  }

  /** The rest of a name or name token; `nmtoken` if its first character cannot start a name. */
  function PrologNameTok(e: Encoding, nmtoken: bool, s: bytes, p: nat): (r: Lexeme)
    requires p <= |s|
    ensures r.Token? ==> p <= r.next <= |s|
    ensures IsMark(r)
  {
    var sp := NameSpan(e, s, p);
    if !sp.SpanEnd? then Fault(sp)
    else if sp.at == |s| then Partial
    else
      var c := e.cls(s[sp.at]);
      if c == BT_GT || c == BT_RPAR || c == BT_COMMA || c == BT_VERBAR || c == BT_LSQB || c == BT_PERCNT || IsSpace(c)
      then Token(if nmtoken then NmToken else Name, sp.at)
      else if nmtoken then Invalid(sp.at)
      else if c == BT_PLUS then Token(NamePlus, sp.at + 1)
      else if c == BT_AST then Token(NameAsterisk, sp.at + 1)
      else if c == BT_QUEST then Token(NameQuestion, sp.at + 1)
      else Invalid(sp.at)
  }

  /** A name or name token whose first character, at `p`, takes `n` bytes. */
  function LeadNameTok(e: Encoding, s: bytes, p: nat, n: nat): (r: Lexeme)
    requires p < |s| && 0 < n
    ensures r.Token? ==> p < r.next <= |s|
    ensures IsMark(r)
  {
    if |s| - p < n then PartialChar
    else if s[p..p + n] in e.nmStrt then PrologNameTok(e, false, s, p + n)
    else if s[p..p + n] in e.name then PrologNameTok(e, true, s, p + n)
    else Invalid(p)
  }

  /** scanLit: a literal in quotes of class `open`, which has to be followed by a delimiter. */
  function LitTok(e: Encoding, open: Class, s: bytes, p: nat): (r: Lexeme)
    requires p <= |s|
    ensures r.Token? ==> p < r.next <= |s|
    ensures IsMark(r)
    decreases |s| - p
  {
    if p == |s| then Partial
    else
      match CharCheck(e, s, p)
      case Takes(n) => LitTok(e, open, s, p + n)
      case ShortChar => PartialChar
      case Refused => Invalid(p)
      case NotListed =>
        if e.cls(s[p]) != open then LitTok(e, open, s, p + 1)
        else if p + 1 == |s| then Partial
        else
          var c := e.cls(s[p + 1]);
          if IsSpace(c) || c == BT_GT || c == BT_PERCNT || c == BT_LSQB then Token(Literal, p + 1) else Invalid(p + 1)
  }

  /** The keyword of a declaration. */
  function DeclNameTok(e: Encoding, s: bytes, p: nat): (r: Lexeme)
    requires p <= |s|
    ensures r.Token? ==> p <= r.next <= |s|
    ensures IsMark(r)
    decreases |s| - p
  {
    if p == |s| then Partial
    else
      var c := e.cls(s[p]);
      if c == BT_NMSTRT || c == BT_HEX then DeclNameTok(e, s, p + 1)
      else if c == BT_PERCNT then
        if p + 1 == |s| then Partial
        else if IsSpace(e.cls(s[p + 1])) || e.cls(s[p + 1]) == BT_PERCNT then Invalid(p)
        else Token(DeclOpen, p)
      else if IsSpace(c) then Token(DeclOpen, p)
      else Invalid(p)
  }

  /** scanDecl; `p` is after "<!". */
  function DeclTok(e: Encoding, s: bytes, p: nat): (r: Lexeme)
    requires p <= |s|
    ensures r.Token? ==> p < r.next <= |s|
  {
    if p == |s| then Partial
    else
      var c := e.cls(s[p]);
      if c == BT_MINUS then CommentTok(e, s, p + 1)
      else if c == BT_LSQB then Token(CondSectOpen, p + 1)
      else if c == BT_NMSTRT || c == BT_HEX then DeclNameTok(e, s, p + 1)
      else Invalid(p)
  }

  /** scanPercent; `p` is after "%". */
  function PercentTok(e: Encoding, s: bytes, p: nat): (r: Lexeme)
    requires p <= |s|
    ensures r.Token? ==> p <= r.next <= |s|
    ensures IsMark(r)
  {
    if p == |s| then Partial
    else
      var sp := WholeName(e, s, p);
      if !sp.SpanEnd? then Fault(sp)
      else if sp.at == |s| then Partial
      else
        var c := e.cls(s[sp.at]);
        if sp.at == p then if IsSpace(c) || c == BT_PERCNT then Token(Percent, p) else Invalid(p)
        else if c == BT_SEMI then Token(ParamEntityRef, sp.at + 1)
        else Invalid(sp.at)
  }

  /** scanPoundName; `p` is after "#". */
  function PoundTok(e: Encoding, s: bytes, p: nat): (r: Lexeme)
    requires p <= |s|
    ensures r.Token? ==> p < r.next <= |s|
    ensures IsMark(r)
  {
    if p == |s| then Partial
    else
      var sp := WholeName(e, s, p);
      if !sp.SpanEnd? then Fault(sp)
      else if sp.at == |s| then Partial
      else if sp.at == p then Invalid(p)
      else
        var c := e.cls(s[sp.at]);
        if IsSpace(c) || c == BT_RPAR || c == BT_GT || c == BT_PERCNT || c == BT_VERBAR then Token(PoundName, sp.at)
        else Invalid(sp.at)
  }

  /** "]" or "]]>"; `p` is after the first bracket. */
  function CloseBracketTok(s: bytes, p: nat): (r: Lexeme)
    requires p <= |s|
    ensures r.Token? ==> p <= r.next <= |s|
    ensures IsMark(r)
  {
    if p == |s| then Partial
    else if s[p] != BYTE_RSQB then Token(CloseBracket, p)
    else if p + 1 == |s| then Partial
    else if s[p + 1] != BYTE_GT then Token(CloseBracket, p)
    else Token(CondSectClose, p + 2)
  }

  /** ")" with its occurrence indicator; `p` is after the parenthesis. */
  function CloseParenTok(e: Encoding, s: bytes, p: nat): (r: Lexeme)
    requires p <= |s|
    ensures r.Token? ==> p <= r.next <= |s|
    ensures IsMark(r)
  {
    if p == |s| then Partial
    else
      var c := e.cls(s[p]);
      if c == BT_AST then Token(CloseParenAsterisk, p + 1)
      else if c == BT_QUEST then Token(CloseParenQuestion, p + 1)
      else if c == BT_PLUS then Token(CloseParenPlus, p + 1)
      else if IsSpace(c) || c == BT_GT || c == BT_COMMA || c == BT_VERBAR || c == BT_RPAR then Token(CloseParen, p)
      else Invalid(p)
  }

  /** What "<" starts in the prolog; `p` is after it. */
  function PrologLtTok(e: Encoding, s: bytes, p: nat): (r: Lexeme)
    requires 0 < p <= |s|
    ensures r.Token? && r.kind != InstanceStart ==> p < r.next <= |s|
  {
    if p == |s| then Partial
    else
      var c := e.cls(s[p]);
      if c == BT_EXCL then DeclTok(e, s, p + 1)
      else if c == BT_QUEST then PiTok(e, s, p + 1)
      else if StartsInstance(c) then Token(InstanceStart, p - 1)
      else Invalid(p)
  }

  /** The tokens of the prolog that start with a name character. */
  function PrologWordTok(e: Encoding, s: bytes, p: nat): (r: Lexeme)
    requires p < |s|
    ensures r.Token? ==> p < r.next <= |s|
    ensures IsMark(r)
  {
    var c := e.cls(s[p]);
    if IsLead(c) then LeadNameTok(e, s, p, LeadLength(c))
    else if c == BT_NMSTRT || c == BT_HEX then PrologNameTok(e, false, s, p + 1)
    else if c == BT_DIGIT || c == BT_NAME || c == BT_MINUS then PrologNameTok(e, true, s, p + 1)
    else Invalid(p)
  }

  /** The tokens of the prolog that start with a punctuation byte. */
  function PrologMarkTok(e: Encoding, s: bytes, p: nat): (r: Lexeme)
    requires p < |s|
    ensures r.Token? ==> p < r.next <= |s|
    ensures IsMark(r)
  {
    var c := e.cls(s[p]);
    if c == BT_QUOT || c == BT_APOS then LitTok(e, c, s, p + 1)
    else if c == BT_PERCNT then PercentTok(e, s, p + 1)
    else if c == BT_COMMA then Token(CommaTok, p + 1)
    else if c == BT_LSQB then Token(OpenBracket, p + 1)
    else if c == BT_RSQB then CloseBracketTok(s, p + 1)
    else if c == BT_LPAR then Token(OpenParen, p + 1)
    else if c == BT_RPAR then CloseParenTok(e, s, p + 1)
    else if c == BT_VERBAR then Token(Or, p + 1)
    else if c == BT_GT then Token(DeclClose, p + 1)
    else if c == BT_NUM then PoundTok(e, s, p + 1)
    else PrologWordTok(e, s, p)
  }

  function PrologTok(e: Encoding, s: bytes, p: nat): (r: Lexeme)
    requires p <= |s|
    ensures r.Token? && r.kind != InstanceStart ==> p < r.next <= |s|
  {
    if p == |s| then NoToken
    else
      var c := e.cls(s[p]);
      if c == BT_LT then PrologLtTok(e, s, p + 1)
      else if c == BT_CR && p + 1 == |s| then TrailingCr
      else if IsSpace(c) then Token(PrologS, PrologSpaceEnd(e, s, p + 1))
      else PrologMarkTok(e, s, p)
  }
}
