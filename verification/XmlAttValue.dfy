/**
  Attribute values: attributeValueTok, appendAttributeValue and
  storeAttributeValue, with the recursive expansion of internal entities.
 */
module XmlAttValue {
  import opened Bytes
  import opened Wrappers
  import opened XmlTok
  import opened XmlScan
  import opened XmlDtd
  import Transcode

  /**
    The loop of attributeValueTok. A multi-byte character is skipped without a
    look at its bytes; one that is cut off ends the value.
   */
  function PlainRun(e: Encoding, v: bytes, p: nat): (r: Lexeme)
    requires p <= |v|
    ensures r.Token? ==> p <= r.next <= |v| && r.kind == DataChars
    ensures !r.Token? ==> r.Invalid?
    decreases |v| - p
  {
    if p == |v| then Token(DataChars, p)
    else
      var c := e.cls(v[p]);
      if IsLead(c) then
        if |v| - p < LeadLength(c) then Token(DataChars, |v|) else PlainRun(e, v, p + LeadLength(c))
      else if c == BT_AMP || IsSpace(c) then Token(DataChars, p)
      else if c == BT_LT then Invalid(p)
      else PlainRun(e, v, p + 1)
  }

  function AttributeValueTok(e: Encoding, v: bytes, p: nat): (r: Lexeme)
    requires p <= |v|
    ensures r.Token? ==> p < r.next <= |v|
    ensures r.TrailingCr? ==> p + 1 == |v|
  {
    if p == |v| then NoToken
    else
      var c := e.cls(v[p]);
      if c == BT_AMP then RefTok(e, v, p + 1)
      else if c == BT_LF then Token(DataNewline, p + 1)
      else if c == BT_CR then if p + 1 == |v| then TrailingCr else CrTok(e, v, p + 1)
      else if c == BT_S then Token(AttributeValueS, p + 1)
      else PlainRun(e, v, p)
  }

  /** attributeValueTok in its own form. */
  method ScanAttributeValue(e: Encoding, v: bytes, start: nat) returns (r: Lexeme)
    requires start <= |v|
    ensures r == AttributeValueTok(e, v, start)
  {
    if start == |v| { return NoToken; }
    var ptr := start;
    while ptr != |v|
      invariant start <= ptr <= |v|
      invariant ptr != start ==> AttributeValueTok(e, v, start) == PlainRun(e, v, ptr)
      decreases |v| - ptr
    {
      var c := e.cls(v[ptr]);
      if IsLead(c) {
        if |v| - ptr < LeadLength(c) { return Token(DataChars, |v|); }
        ptr := ptr + LeadLength(c);
      } else if c == BT_AMP {
        if ptr == start {
          r := ScanRef(e, v, ptr + 1);
          return;
        }
        return Token(DataChars, ptr);
      } else if c == BT_LT {
        return Invalid(ptr);
      } else if c == BT_LF {
        return Token(if ptr == start then DataNewline else DataChars, if ptr == start then ptr + 1 else ptr);
      } else if c == BT_CR {
        if ptr != start { return Token(DataChars, ptr); }
        ptr := ptr + 1;
        if ptr == |v| { return TrailingCr; }
        if e.cls(v[ptr]) == BT_LF { ptr := ptr + 1; }
        return Token(DataNewline, ptr);
      } else if c == BT_S {
        return Token(if ptr == start then AttributeValueS else DataChars, if ptr == start then ptr + 1 else ptr);
      } else {
        ptr := ptr + 1;
      }
    }
    return Token(DataChars, ptr);
  }

  /** A blank is dropped at the start and after a blank, unless the attribute is CDATA. */
  function AddBlank(isCdata: bool, acc: bytes): bytes {
    if !isCdata && (acc == [] || acc[|acc| - 1] == BYTE_SPACE) then acc else acc + [BYTE_SPACE]
  }

  function AddChar(isCdata: bool, acc: bytes, n: int): bytes {
    if n == BYTE_SPACE then AddBlank(isCdata, acc) else acc + Transcode.Utf8(n)
  }

  /** The number of the character reference in `p..next`. */
  function RefNumber(v: bytes, p: nat, next: nat): (r: Option<nat>)
    requires p < next <= |v|
    ensures r.Some? ==> r.value < CHAR_LIMIT && IsXmlChar(r.value)
  {
    if p + 3 <= next then CharRefNumber(v[p + 2..next - 1]) else None
  }

  /** The name in the entity reference in `p..next`. */
  function RefName(v: bytes, p: nat, next: nat): bytes
    requires p < next <= |v|
  {
    if p + 2 <= next then v[p + 1..next - 1] else []
  }

  /** One round of the loop of appendAttributeValue: the value is complete, or goes on at `next` with `acc`. */
  datatype ValueStep = Finished | Bad(error: XmlError) | Added(next: nat, acc: bytes)

  /** The round for a reference to the entity `name`, which ends at `next`. */
  function EntityStep(g: Grammar, isCdata: bool, name: bytes, next: nat, open: set<bytes>, acc: bytes): (st: ValueStep)
    ensures st.Bad? || (st.Added? && st.next == next)
    decreases g.dtd.entities.Keys - open, 0, 0
  {
    if Predefined(name).Some? then Added(next, acc + [Predefined(name).value])
    else if name !in g.dtd.entities then if g.dtd.complete then Bad(UndefinedEntity) else Added(next, acc)
    else if name in open then Bad(RecursiveEntityRef)
    else
      match g.dtd.entities[name]
      case Unparsed => Bad(BinaryEntityRef)
      case External => Bad(AttributeExternalEntityRef)
      case Internal(text) =>
        match AppendValue(g, g.internal, isCdata, text, 0, open + {name}, acc) {
          case Ok(acc') => Added(next, acc')
          case Fail(error) => Bad(error)
        }
  }

  /** The round for a token. */
  function TokenStep(
    g: Grammar, isCdata: bool, v: bytes, p: nat, open: set<bytes>, acc: bytes, kind: Kind, next: nat): (st: ValueStep)
    requires p < next <= |v|
    ensures st.Bad? || (st.Added? && st.next == next)
    decreases g.dtd.entities.Keys - open, |v| - p, 0
  {
    if kind == EntityRef then EntityStep(g, isCdata, RefName(v, p, next), next, open, acc)
    else if kind == DataChars then Added(next, acc + v[p..next])
    else if kind == AttributeValueS || kind == DataNewline then Added(next, AddBlank(isCdata, acc))
    else if kind == CharRef then
      match RefNumber(v, p, next)
      case None => Bad(BadCharRef)
      case Some(n) => Added(next, AddChar(isCdata, acc, n))
    else Bad(Aborted)
  }

  function StepAt(g: Grammar, e: Encoding, isCdata: bool, v: bytes, p: nat, open: set<bytes>,
      acc: bytes): (st: ValueStep)
    requires p <= |v|
    ensures st.Added? ==> p < st.next <= |v|
    decreases g.dtd.entities.Keys - open, |v| - p, 1
  {
    match AttributeValueTok(e, v, p)
    case NoToken => Finished
    case Invalid(_) => Bad(InvalidToken)
    case Partial => Bad(InvalidToken)
    case TrailingCr => Added(p + 1, AddBlank(isCdata, acc))
    case Token(kind, next) => TokenStep(g, isCdata, v, p, open, acc, kind, next)
    case _ => Bad(Aborted)
  }

  /**
    appendAttributeValue: the value `v` from `p` on is added to `acc`, while the
    entities of `open` are being expanded. It terminates for every entity table:
    an expansion opens one more entity, and any other round uses up bytes.
   */
  function AppendValue(g: Grammar, e: Encoding, isCdata: bool, v: bytes, p: nat, open: set<bytes>,
      acc: bytes): Outcome<bytes>
    requires p <= |v|
    decreases g.dtd.entities.Keys - open, |v| - p, 2
  {
    match StepAt(g, e, isCdata, v, p, open, acc)
    case Finished => Ok(acc)
    case Bad(error) => Fail(error)
    case Added(next, acc') => AppendValue(g, e, isCdata, v, next, open, acc')
  }

  /** storeAttributeValue: a blank at the end is dropped too, unless the attribute is CDATA. */
  function StoreValue(g: Grammar, e: Encoding, isCdata: bool, v: bytes, open: set<bytes>): Outcome<bytes> {
    match AppendValue(g, e, isCdata, v, 0, open, [])
    case Ok(acc) => Ok(Chop(isCdata, acc))
    case Fail(error) => Fail(error)
  }

  function Chop(isCdata: bool, acc: bytes): bytes {
    if !isCdata && acc != [] && acc[|acc| - 1] == BYTE_SPACE then acc[..|acc| - 1] else acc
  }
}
