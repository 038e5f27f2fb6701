/**
  Which bytes are which token of content: every token has the form that the productions of
  XML 1.0 give it, and bytes of that form are that token. The shapes say nothing of the order
  in which a scanner looks at bytes, and nothing of the end of the buffer.
 */
module XmlShapes {
  import opened Bytes
  import opened XmlTok
  import opened XmlTokLaws

  // ---------------------------------------------------------------- characters

  /** The number of bytes of a character with a first byte of class `c`. */
  function Size(c: Class): nat {
    if c == BT_LEAD2 then 2 else if c == BT_LEAD3 then 3 else if c == BT_LEAD4 then 4 else 1
  }

  /** A whole character at `p`, of one byte or one of `ok`. */
  predicate IsOneOf(e: Encoding, s: bytes, p: nat, single: set<Class>, ok: set<bytes>) {
    && p < |s| && p + Size(e.cls(s[p])) <= |s|
    && if Size(e.cls(s[p])) == 1 then e.cls(s[p]) in single else s[p..p + Size(e.cls(s[p]))] in ok
  }

  /** A character that may start a name. */
  predicate NameStarts(e: Encoding, s: bytes, p: nat) {
    IsOneOf(e, s, p, {BT_NMSTRT, BT_HEX}, e.nmStrt)
  }

  /** A character that may be in a name. */
  predicate NameGoesOn(e: Encoding, s: bytes, p: nat) {
    IsOneOf(e, s, p, {BT_NMSTRT, BT_HEX, BT_DIGIT, BT_NAME, BT_MINUS}, e.name)
  }

  /** A character that may be in a document. */
  predicate IsCharAt(e: Encoding, s: bytes, p: nat) {
    && p < |s| && p + Size(e.cls(s[p])) <= |s|
    && e.cls(s[p]) != BT_NONXML && e.cls(s[p]) != BT_MALFORM && e.cls(s[p]) != BT_TRAIL
    && (Size(e.cls(s[p])) > 1 ==> s[p..p + Size(e.cls(s[p]))] !in e.invalid)
  }

  /** Behind the character at `p`. */
  function Behind(e: Encoding, s: bytes, p: nat): (q: nat)
    requires p < |s|
    ensures p < q
  {
    p + Size(e.cls(s[p]))
  }

  lemma StartChecks(e: Encoding, s: bytes, p: nat)
    requires p < |s|
    ensures NmStrtCheck(e, s, p).Takes? <==> NameStarts(e, s, p)
    ensures NmStrtCheck(e, s, p).Takes? ==> p + NmStrtCheck(e, s, p).n == Behind(e, s, p)
  {
  }

  lemma NameChecks(e: Encoding, s: bytes, p: nat)
    requires p < |s|
    ensures NameCheck(e, s, p).Takes? <==> NameGoesOn(e, s, p)
    ensures NameCheck(e, s, p).Takes? ==> p + NameCheck(e, s, p).n == Behind(e, s, p)
  {
  }

  lemma CharChecks(e: Encoding, s: bytes, p: nat)
    requires p < |s|
    ensures CharCheck(e, s, p).Takes? || CharCheck(e, s, p).NotListed? <==> IsCharAt(e, s, p)
    ensures CharCheck(e, s, p).Takes? ==> IsLead(e.cls(s[p])) && p + CharCheck(e, s, p).n == Behind(e, s, p)
    ensures CharCheck(e, s, p).NotListed? ==> Behind(e, s, p) == p + 1
  {
  }

  // ---------------------------------------------------------------- names, spaces and digits

  /** Name characters from `p` to `end`. */
  ghost predicate NameChars(e: Encoding, s: bytes, p: nat, end: nat)
    decreases if p < end then end - p else 0
  {
    p == end || (p < end && NameGoesOn(e, s, p) && NameChars(e, s, Behind(e, s, p), end))
  }

  /** A name from `p` to `end`, with something behind it that is no character of a name. */
  ghost predicate NameTo(e: Encoding, s: bytes, p: nat, end: nat) {
    && NameStarts(e, s, p) && NameChars(e, s, Behind(e, s, p), end) && NameStops(e, s, end)
  }

  /** At `end` a name is over: neither a character of names nor a refused byte is there. */
  predicate NameStops(e: Encoding, s: bytes, end: nat) {
    end < |s| && !NameGoesOn(e, s, end) && Size(e.cls(s[end])) == 1 && e.cls(s[end]) != BT_NONASCII
  }

  ghost predicate Spaces(e: Encoding, s: bytes, p: nat, end: nat) {
    p <= end <= |s| && forall i :: p <= i < end ==> e.cls(s[i]) in {BT_S, BT_CR, BT_LF}
  }

  ghost predicate Digits(e: Encoding, hex: bool, s: bytes, p: nat, end: nat) {
    p <= end <= |s| && forall i :: p <= i < end ==> e.cls(s[i]) == BT_DIGIT || (hex && e.cls(s[i]) == BT_HEX)
  }

  lemma {:induction false} NameSpanShape(e: Encoding, s: bytes, p: nat, end: nat)
    requires p <= |s|
    ensures
      NameSpan(e, s, p) == SpanEnd(end) && end < |s| <==> NameChars(e, s, p, end) && NameStops(e, s, end)
    decreases |s| - p
  {
    if p < |s| {
      NameChecks(e, s, p);
      if NameGoesOn(e, s, p) {
        NameSpanShape(e, s, Behind(e, s, p), end);
        NameStopsOnce(e, s, p);
      }
    }
  }

  lemma NameStopsOnce(e: Encoding, s: bytes, p: nat)
    requires NameGoesOn(e, s, p)
    ensures !NameStops(e, s, p)
  {
  }

  lemma WholeNameShape(e: Encoding, s: bytes, p: nat, end: nat)
    requires p < |s|
    ensures
      WholeName(e, s, p) == SpanEnd(end) && p < end < |s| <==> NameTo(e, s, p, end)
  {
    StartChecks(e, s, p);
    if NameStarts(e, s, p) {
      NameSpanShape(e, s, Behind(e, s, p), end);
    }
  }

  lemma {:induction false} SpaceShape(e: Encoding, s: bytes, p: nat, end: nat)
    requires p <= |s|
    ensures SpaceSpan(e, s, p) == end <==> Spaces(e, s, p, end) && (end < |s| ==> !IsSpace(e.cls(s[end])))
    decreases |s| - p
  {
    if p < |s| && IsSpace(e.cls(s[p])) {
      SpaceShape(e, s, p + 1, end);
    }
  }

  lemma {:induction false} DigitShape(e: Encoding, hex: bool, s: bytes, p: nat, end: nat)
    requires p <= |s|
    ensures
      DigitSpan(e, hex, s, p) == end
      <==> Digits(e, hex, s, p, end) && (end < |s| ==> !IsDigit(e.cls(s[end]), hex))
    decreases |s| - p
  {
    if p < |s| && IsDigit(e.cls(s[p]), hex) {
      DigitShape(e, hex, s, p + 1, end);
    }
  }

  // ---------------------------------------------------------------- references and end tags

  /** "&" name ";" */
  ghost predicate EntityRefAt(e: Encoding, s: bytes, p: nat, next: nat) {
    && p + 2 < next <= |s| && e.cls(s[p]) == BT_AMP
    && NameTo(e, s, p + 1, next - 1) && e.cls(s[next - 1]) == BT_SEMI
  }

  /** "&#" digits ";" or "&#x" digits ";" */
  ghost predicate CharRefAt(e: Encoding, s: bytes, p: nat, next: nat) {
    && p + 2 < next <= |s| && e.cls(s[p]) == BT_AMP && e.cls(s[p + 1]) == BT_NUM
    && var hex := s[p + 2] == 0x78;
       var from := if hex then p + 3 else p + 2;
       from < next - 1 && Digits(e, hex, s, from, next - 1) && e.cls(s[next - 1]) == BT_SEMI
  }

  /** "</" name white space ">" */
  ghost predicate EndTagAt(e: Encoding, s: bytes, p: nat, end: nat, next: nat) {
    && p + 2 < end < next <= |s| && e.cls(s[p]) == BT_LT && e.cls(s[p + 1]) == BT_SOL
    && NameTo(e, s, p + 2, end) && Spaces(e, s, end, next - 1) && e.cls(s[next - 1]) == BT_GT
  }

  lemma EntityRefShape(e: Encoding, s: bytes, p: nat, next: nat)
    requires p <= |s|
    ensures ContentTok(e, s, p) == Token(EntityRef, next) <==> EntityRefAt(e, s, p, next)
  {
    if p + 1 < |s| && e.cls(s[p]) == BT_AMP {
      if next > 0 {
        WholeNameShape(e, s, p + 1, next - 1);
      }
      var sp := WholeName(e, s, p + 1);
      if sp.SpanEnd? {
        WholeNameShape(e, s, p + 1, sp.at);
      }
    }
  }

  lemma CharRefShape(e: Encoding, s: bytes, p: nat, next: nat)
    requires p <= |s|
    ensures ContentTok(e, s, p) == Token(CharRef, next) <==> CharRefAt(e, s, p, next)
  {
    if p + 2 < |s| && e.cls(s[p]) == BT_AMP && e.cls(s[p + 1]) == BT_NUM {
      var hex := s[p + 2] == 0x78;
      var from := if hex then p + 3 else p + 2;
      var at := DigitSpan(e, hex, s, from);
      DigitShape(e, hex, s, from, at);
      if next > 0 {
        DigitShape(e, hex, s, from, next - 1);
      }
      assert RefTok(e, s, p + 1) == DigitsTok(e, hex, s, from);
    }
  }

  lemma EndTagTokShape(e: Encoding, s: bytes, p: nat, end: nat, next: nat)
    requires p < |s| && WholeName(e, s, p) == SpanEnd(end) && p < end < |s|
    ensures
      EndTagTok(e, s, p) == Token(EndTag, next)
      <==> end < next <= |s| && Spaces(e, s, end, next - 1) && e.cls(s[next - 1]) == BT_GT
  {
    var at := SpaceSpan(e, s, end);
    SpaceShape(e, s, end, at);
    if end < next <= |s| {
      SpaceShape(e, s, end, next - 1);
    }
  }

  lemma EndTagShape(e: Encoding, s: bytes, p: nat, next: nat)
    requires p <= |s|
    ensures ContentTok(e, s, p) == Token(EndTag, next) <==> exists end: nat :: EndTagAt(e, s, p, end, next)
  {
    if p + 2 < |s| && e.cls(s[p]) == BT_LT && e.cls(s[p + 1]) == BT_SOL {
      assert ContentTok(e, s, p) == EndTagTok(e, s, p + 2);
      var sp := WholeName(e, s, p + 2);
      if sp.SpanEnd? && p + 2 < sp.at < |s| {
        WholeNameShape(e, s, p + 2, sp.at);
        EndTagTokShape(e, s, p + 2, sp.at, next);
        if ContentTok(e, s, p) == Token(EndTag, next) {
          assert EndTagAt(e, s, p, sp.at, next);
        }
      }
      forall end: nat | EndTagAt(e, s, p, end, next) ensures ContentTok(e, s, p) == Token(EndTag, next) {
        WholeNameShape(e, s, p + 2, end);
        EndTagTokShape(e, s, p + 2, end, next);
      }
    }
  }

  // ---------------------------------------------------------------- line ends and CDATA sections

  /** A line feed, or a carriage return with something behind it and a line feed if it is there. */
  predicate NewlineAt(e: Encoding, s: bytes, p: nat, next: nat) {
    p < |s| &&
    if e.cls(s[p]) == BT_CR then p + 1 < |s| && next == if e.cls(s[p + 1]) == BT_LF then p + 2 else p + 1
    else e.cls(s[p]) == BT_LF && next == p + 1
  }

  lemma NewlineShape(e: Encoding, s: bytes, p: nat, next: nat)
    requires p <= |s|
    ensures ContentTok(e, s, p) == Token(DataNewline, next) <==> NewlineAt(e, s, p, next)
  {
  }

  /** "<![CDATA[" */
  predicate CdataOpenAt(e: Encoding, s: bytes, p: nat, next: nat) {
    && next == p + 9 && next <= |s| && e.cls(s[p]) == BT_LT && e.cls(s[p + 1]) == BT_EXCL && e.cls(s[p + 2]) == BT_LSQB
    && s[p + 3] == 0x43 && s[p + 4] == 0x44 && s[p + 5] == 0x41 && s[p + 6] == 0x54 && s[p + 7] == 0x41
    && s[p + 8] == 0x5B
  }

  lemma CdataMatches(s: bytes, p: nat)
    requires p + 6 <= |s|
    ensures CdataMatch(s, p, 0) == 6 <==> s[p..p + 6] == [0x43, 0x44, 0x41, 0x54, 0x41, 0x5B]
  {
    assert CdataMatch(s, p, 5) == if s[p + 5] == 0x5B then 6 else 5;
    assert CdataMatch(s, p, 4) == if s[p + 4] == 0x41 then CdataMatch(s, p, 5) else 4;
    assert CdataMatch(s, p, 3) == if s[p + 3] == 0x54 then CdataMatch(s, p, 4) else 3;
    assert CdataMatch(s, p, 2) == if s[p + 2] == 0x41 then CdataMatch(s, p, 3) else 2;
    assert CdataMatch(s, p, 1) == if s[p + 1] == 0x44 then CdataMatch(s, p, 2) else 1;
    var t := s[p..p + 6];
    assert t[0] == s[p] && t[1] == s[p + 1] && t[2] == s[p + 2] && t[3] == s[p + 3] && t[4] == s[p + 4];
    assert t[5] == s[p + 5];
  }

  lemma CdataOpenShape(e: Encoding, s: bytes, p: nat, next: nat)
    requires p <= |s|
    ensures ContentTok(e, s, p) == Token(CdataSectOpen, next) <==> CdataOpenAt(e, s, p, next)
  {
    if p + 3 <= |s| && e.cls(s[p]) == BT_LT && e.cls(s[p + 1]) == BT_EXCL && e.cls(s[p + 2]) == BT_LSQB {
      assert ContentTok(e, s, p) == CdataOpenTok(s, p + 3);
      if p + 9 <= |s| {
        CdataMatches(s, p + 3);
        var t := s[p + 3..p + 9];
        assert t[0] == s[p + 3] && t[1] == s[p + 4] && t[2] == s[p + 5] && t[3] == s[p + 6] && t[4] == s[p + 7];
        assert t[5] == s[p + 8];
      }
    }
  }

  // ---------------------------------------------------------------- comments

  /** Two hyphens at `p`. */
  predicate HyphensAt(e: Encoding, s: bytes, p: nat) {
    p + 1 < |s| && e.cls(s[p]) == BT_MINUS && s[p + 1] == 0x2D
  }

  /** Whole characters from `p` to `end`, and no two hyphens at the start of any. */
  ghost predicate CommentChars(e: Encoding, s: bytes, p: nat, end: nat)
    decreases if p < end then end - p else 0
  {
    || p == end
    || (p < end && IsCharAt(e, s, p) && !HyphensAt(e, s, p) && CommentChars(e, s, Behind(e, s, p), end))
  }

  /** "<!--" characters "-->" */
  ghost predicate CommentAt(e: Encoding, s: bytes, p: nat, next: nat) {
    && p + 7 <= next <= |s|
    && e.cls(s[p]) == BT_LT && e.cls(s[p + 1]) == BT_EXCL && e.cls(s[p + 2]) == BT_MINUS && s[p + 3] == 0x2D
    && CommentChars(e, s, p + 4, next - 3) && HyphensAt(e, s, next - 3) && s[next - 1] == 0x3E
  }

  lemma {:induction false} CommentBodyShape(e: Encoding, s: bytes, p: nat, next: nat)
    requires p <= |s|
    ensures
      CommentBodyTok(e, s, p) == Token(Comment, next)
      <==> p + 3 <= next <= |s| && CommentChars(e, s, p, next - 3) && HyphensAt(e, s, next - 3) && s[next - 1] == 0x3E
    decreases |s| - p
  {
    if p < |s| {
      CharChecks(e, s, p);
      if IsCharAt(e, s, p) && !(e.cls(s[p]) == BT_MINUS && (p + 1 == |s| || s[p + 1] == 0x2D)) {
        CommentBodyShape(e, s, Behind(e, s, p), next);
      }
    }
  }

  lemma CommentShape(e: Encoding, s: bytes, p: nat, next: nat)
    requires p <= |s|
    ensures ContentTok(e, s, p) == Token(Comment, next) <==> CommentAt(e, s, p, next)
  {
    if p + 4 <= |s| && e.cls(s[p]) == BT_LT && e.cls(s[p + 1]) == BT_EXCL && e.cls(s[p + 2]) == BT_MINUS {
      assert ContentTok(e, s, p) == CommentTok(e, s, p + 3);
      CommentBodyShape(e, s, p + 4, next);
    }
  }

  // ---------------------------------------------------------------- processing instructions

  /** "?>" at `p`. */
  predicate PiEndsAt(e: Encoding, s: bytes, p: nat) {
    p + 1 < |s| && e.cls(s[p]) == BT_QUEST && s[p + 1] == 0x3E
  }

  /** Whole characters from `p` to `end`, and no "?>" at the start of any. */
  ghost predicate PiChars(e: Encoding, s: bytes, p: nat, end: nat)
    decreases if p < end then end - p else 0
  {
    || p == end
    || (p < end && IsCharAt(e, s, p) && !PiEndsAt(e, s, p) && PiChars(e, s, Behind(e, s, p), end))
  }

  /** "xml" in one of its eight spellings. */
  predicate SpellsXml(t: bytes) {
    |t| == 3 && t[0] in {0x78, 0x58} && t[1] in {0x6D, 0x4D} && t[2] in {0x6C, 0x4C}
  }

  /** "<?" target "?>", or "<?" target, a white space, characters "?>"; the target ends at `end`. */
  ghost predicate PiAt(e: Encoding, s: bytes, p: nat, end: nat, next: nat) {
    && p + 2 < end < next <= |s| && e.cls(s[p]) == BT_LT && e.cls(s[p + 1]) == BT_QUEST
    && NameTo(e, s, p + 2, end) && end + 2 <= next && PiEndsAt(e, s, next - 2)
    && (end == next - 2 || (e.cls(s[end]) in {BT_S, BT_CR, BT_LF} && PiChars(e, s, end + 1, next - 2)))
  }

  lemma {:induction false} PiBodyShape(e: Encoding, pi: Kind, s: bytes, p: nat, next: nat)
    requires p <= |s|
    ensures
      PiBodyTok(e, pi, s, p) == Token(pi, next)
      <==> p + 2 <= next <= |s| && PiChars(e, s, p, next - 2) && PiEndsAt(e, s, next - 2)
    decreases |s| - p
  {
    if p < |s| {
      CharChecks(e, s, p);
      if IsCharAt(e, s, p) && !(e.cls(s[p]) == BT_QUEST && (p + 1 == |s| || s[p + 1] == 0x3E)) {
        PiBodyShape(e, pi, s, Behind(e, s, p), next);
      }
    }
  }

  lemma TargetKinds(t: bytes)
    ensures CheckPiTarget(t) == Target(XmlDecl) <==> t == [0x78, 0x6D, 0x6C]
    ensures CheckPiTarget(t) == Target(PI) <==> !SpellsXml(t)
  {
    if |t| == 3 {
      assert t == [t[0], t[1], t[2]];
    }
  }

  lemma AfterTargetShape(e: Encoding, target: bytes, s: bytes, p: nat, kind: Kind, next: nat)
    requires p < |s|
    ensures
      AfterTargetTok(e, target, s, p) == Token(kind, next)
      <==> && CheckPiTarget(target) == Target(kind)
           && p + 2 <= next <= |s| && PiEndsAt(e, s, next - 2)
           && (p == next - 2 || (e.cls(s[p]) in {BT_S, BT_CR, BT_LF} && PiChars(e, s, p + 1, next - 2)))
  {
    PiBodyShape(e, kind, s, p + 1, next);
    if p == next - 2 && PiEndsAt(e, s, p) {
      assert e.cls(s[p]) == BT_QUEST;
    }
  }

  /** A target "xml" makes a declaration, its other spellings make no token, and any other target an instruction. */
  predicate TargetIs(t: bytes, kind: Kind) {
    if kind == PI then !SpellsXml(t) else t == [0x78, 0x6D, 0x6C]
  }

  lemma PiTokIs(e: Encoding, s: bytes, p: nat, end: nat)
    requires p < |s| && WholeName(e, s, p) == SpanEnd(end) && p < end < |s|
    ensures PiTok(e, s, p) == AfterTargetTok(e, s[p..end], s, end)
  {
  }

  lemma LtIsPi(e: Encoding, s: bytes, p: nat)
    requires p + 2 < |s| && e.cls(s[p]) == BT_LT && e.cls(s[p + 1]) == BT_QUEST
    ensures ContentTok(e, s, p) == PiTok(e, s, p + 2)
  {
  }

  lemma PiForTarget(e: Encoding, s: bytes, p: nat, end: nat, kind: Kind, next: nat)
    requires p + 2 < end < |s| && e.cls(s[p]) == BT_LT && e.cls(s[p + 1]) == BT_QUEST && NameTo(e, s, p + 2, end)
    requires kind == PI || kind == XmlDecl
    ensures ContentTok(e, s, p) == Token(kind, next) <==> PiAt(e, s, p, end, next) && TargetIs(s[p + 2..end], kind)
  {
    var target := s[p + 2..end];
    LtIsPi(e, s, p);
    WholeNameShape(e, s, p + 2, end);
    PiTokIs(e, s, p + 2, end);
    TargetKinds(target);
    AfterTargetShape(e, target, s, end, kind, next);
  }

  lemma PiHasTarget(e: Encoding, s: bytes, p: nat, kind: Kind, next: nat) returns (end: nat)
    requires p <= |s| && (kind == PI || kind == XmlDecl) && ContentTok(e, s, p) == Token(kind, next)
    ensures p + 2 < end < |s| && e.cls(s[p]) == BT_LT && e.cls(s[p + 1]) == BT_QUEST && NameTo(e, s, p + 2, end)
  {
    LtIsPi(e, s, p);
    end := WholeName(e, s, p + 2).at;
    WholeNameShape(e, s, p + 2, end);
  }

  lemma PiShape(e: Encoding, s: bytes, p: nat, kind: Kind, next: nat)
    requires p <= |s| && (kind == PI || kind == XmlDecl)
    ensures
      ContentTok(e, s, p) == Token(kind, next)
      <==> exists end: nat :: PiAt(e, s, p, end, next) && TargetIs(s[p + 2..end], kind)
  {
    if ContentTok(e, s, p) == Token(kind, next) {
      var end := PiHasTarget(e, s, p, kind, next);
      PiForTarget(e, s, p, end, kind, next);
    }
    forall end: nat | PiAt(e, s, p, end, next) && TargetIs(s[p + 2..end], kind)
      ensures ContentTok(e, s, p) == Token(kind, next)
    {
      PiForTarget(e, s, p, end, kind, next);
    }
  }
}
