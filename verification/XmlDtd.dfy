/** What the parser knows from the prolog, the errors it reports, and character references. */
module XmlDtd {
  import opened Bytes
  import opened Wrappers
  import opened XmlTok

  /** enum XML_Error, as far as content reaches it; `Aborted` stands for the calls of abort(). */
  datatype XmlError =
    | NoElements | InvalidToken | UnclosedToken | CutOffChar | TagMismatch | DuplicateAttribute
    | JunkAfterDocElement | UndefinedEntity | RecursiveEntityRef | AsyncEntity | BadCharRef
    | BinaryEntityRef | AttributeExternalEntityRef | MisplacedXmlPi | UnclosedCdataSection
    | Aborted

  datatype Outcome<+T> = Ok(value: T) | Fail(error: XmlError)

  /** ENTITY without its `open` flag: replacement text, or not expanded by the parser. */
  datatype Entity = Internal(text: bytes) | External | Unparsed

  /** DEFAULT_ATTRIBUTE. */
  datatype AttDef = AttDef(name: bytes, isCdata: bool, value: Option<bytes>)

  datatype Dtd = Dtd(
    entities: map<bytes, Entity>,
    attDefs: map<bytes, seq<AttDef>>,
    complete: bool,
    standalone: bool)

  /** The encoding of the document, that of entity text, and the DTD. */
  datatype Grammar = Grammar(doc: Encoding, internal: Encoding, dtd: Dtd)

  const BYTE_SEMI: byte := 0x3B

  // ---------------------------------------------------------------- character references

  /** The value of a digit that is added to 16 times the number before it, if it is one. */
  function HexDigit(b: byte): Option<nat> {
    if 0x30 <= b <= 0x39 then Some(b - 0x30)
    else if 0x41 <= b <= 0x46 then Some(10 + (b - 0x41))
    else if 0x61 <= b <= 0x66 then Some(10 + (b - 0x61))
    else None
  }

  /** One round of the loops of charRefNumber. */
  function AddDigit(hex: bool, n: int, b: byte): int {
    if !hex then n * 10 + (b - 0x30)
    else
      match HexDigit(b)
      case Some(d) => n * 16 + d
      case None => n
  }

  const CHAR_LIMIT := 0x110000

  /** The number that the digits `t` add to `n`; None when it leaves the range of characters on the way. */
  function DigitsNumber(hex: bool, t: bytes, n: int): (r: Option<int>)
    requires n < CHAR_LIMIT
    ensures r.Some? ==> r.value < CHAR_LIMIT
    decreases |t|
  {
    if t == [] then Some(n)
    else
      var n' := AddDigit(hex, n, t[0]);
      if n' >= CHAR_LIMIT then None else DigitsNumber(hex, t[1..], n')
  }

  /** checkCharRefNumber: not a surrogate, not a control character, not U+FFFE or U+FFFF. */
  predicate IsXmlChar(n: int) {
    && !(0xD800 <= n < 0xE000)
    && !(0 <= n < 0x20 && n != 0x9 && n != 0xA && n != 0xD)
    && n != 0xFFFE && n != 0xFFFF
  }

  /** charRefNumber for the bytes between "&#" and ";"; None where the source returns a negative number. */
  function CharRefNumber(t: bytes): (r: Option<nat>)
    ensures r.Some? ==> r.value < CHAR_LIMIT && IsXmlChar(r.value)
  {
    var hex := t != [] && t[0] == BYTE_X;
    match DigitsNumber(hex, if hex then t[1..] else t, 0)
    case None => None
    case Some(n) => if 0 <= n && IsXmlChar(n) then Some(n) else None
  }

  /**
    charRefNumber in its own form: `start` is the position of "&#", and the loop
    stops at the first semicolon, which is at `end`.
   */
  method ComputeCharRefNumber(s: bytes, start: nat, ghost end: nat) returns (result: int)
    requires start + 2 <= end < |s| && s[end] == BYTE_SEMI
    requires forall i :: start + 2 <= i < end ==> s[i] != BYTE_SEMI
    ensures
      match CharRefNumber(s[start + 2..end])
      case Some(n) => result == n
      case None => result < 0
  {
    var ptr := start + 2;
    ghost var t := s[ptr..end];
    var hex := s[ptr] == BYTE_X;
    if hex {
      ptr := ptr + 1;
    }
    result := 0;
    assert hex ==> t[1..] == s[ptr..end];
    while s[ptr] != BYTE_SEMI
      invariant start + 2 <= ptr <= end
      invariant result < CHAR_LIMIT
      invariant DigitsNumber(hex, if hex then t[1..] else t, 0) == DigitsNumber(hex, s[ptr..end], result)
      decreases end - ptr
    {
      assert s[ptr..end][1..] == s[ptr + 1..end];
      result := AddDigit(hex, result, s[ptr]);
      if result >= CHAR_LIMIT { return -1; }
      ptr := ptr + 1;
    }
    if !IsXmlChar(result) { return -1; }
  }

  // ---------------------------------------------------------------- predefined entities

  const NAME_LT: bytes := [0x6C, 0x74]
  const NAME_GT: bytes := [0x67, 0x74]
  const NAME_AMP: bytes := [0x61, 0x6D, 0x70]
  const NAME_QUOT: bytes := [0x71, 0x75, 0x6F, 0x74]
  const NAME_APOS: bytes := [0x61, 0x70, 0x6F, 0x73]

  /** predefinedEntityName. */
  function Predefined(name: bytes): Option<byte> {
    if name == NAME_LT then Some(0x3C)
    else if name == NAME_GT then Some(0x3E)
    else if name == NAME_AMP then Some(0x26)
    else if name == NAME_QUOT then Some(0x22)
    else if name == NAME_APOS then Some(0x27)
    else None
  }
}
