/**
  Which bytes are which token of the prolog, in the form of XmlShapes: names with what may
  follow them, literals, declarations, references to parameter entities and punctuation.
 */
module XmlPrologShapes {
  import opened Bytes
  import opened XmlTok
  import opened XmlTokLaws
  import opened XmlShapes

  // ---------------------------------------------------------------- comments, instructions, white space

  lemma PrologCommentShape(e: Encoding, s: bytes, p: nat, next: nat)
    requires p <= |s|
    ensures PrologTok(e, s, p) == Token(Comment, next) <==> CommentAt(e, s, p, next)
  {
    PrologMarkKinds(e, s, p);
    if p + 4 <= |s| && e.cls(s[p]) == BT_LT && e.cls(s[p + 1]) == BT_EXCL && e.cls(s[p + 2]) == BT_MINUS {
      assert PrologTok(e, s, p) == CommentTok(e, s, p + 3);
      CommentBodyShape(e, s, p + 4, next);
    } else if p + 2 < |s| && e.cls(s[p]) == BT_LT && e.cls(s[p + 2]) != BT_MINUS {
      DeclKinds(e, s, p + 2);
    }
  }

  lemma {:induction false} DeclNameKinds(e: Encoding, s: bytes, p: nat)
    requires p <= |s|
    ensures DeclNameTok(e, s, p).Token? ==> DeclNameTok(e, s, p).kind == DeclOpen
    decreases |s| - p
  {
    if p < |s| {
      DeclNameKinds(e, s, p + 1);
    }
  }

  lemma DeclKinds(e: Encoding, s: bytes, p: nat)
    requires p < |s| && e.cls(s[p]) != BT_MINUS
    ensures DeclTok(e, s, p).Token? ==> DeclTok(e, s, p).kind in {CondSectOpen, DeclOpen}
  {
    DeclNameKinds(e, s, p + 1);
  }

  lemma {:induction false} LitKinds(e: Encoding, open: Class, s: bytes, p: nat)
    requires p <= |s|
    ensures LitTok(e, open, s, p).Token? ==> LitTok(e, open, s, p).kind == Literal
    decreases |s| - p
  {
    if p < |s| {
      match CharCheck(e, s, p)
      case Takes(n) => LitKinds(e, open, s, p + n);
      case NotListed => LitKinds(e, open, s, p + 1);
      case _ =>
    }
  }

  /** The kinds of token that start with "<". */
  predicate IsLtKind(kind: Kind) {
    kind in {Comment, PI, XmlDecl, DeclOpen, CondSectOpen, InstanceStart}
  }

  lemma WordTokKinds(e: Encoding, s: bytes, p: nat)
    requires p < |s|
    ensures PrologWordTok(e, s, p).Token? ==> !IsLtKind(PrologWordTok(e, s, p).kind)
  {
  }

  lemma MarkTokKinds(e: Encoding, s: bytes, p: nat)
    requires p < |s|
    ensures PrologMarkTok(e, s, p).Token? ==> !IsLtKind(PrologMarkTok(e, s, p).kind)
  {
    WordTokKinds(e, s, p);
    LitKinds(e, e.cls(s[p]), s, p + 1);
  }

  lemma PrologMarkKinds(e: Encoding, s: bytes, p: nat)
    requires p <= |s|
    ensures
      p < |s| && e.cls(s[p]) != BT_LT && PrologTok(e, s, p).Token? ==> !IsLtKind(PrologTok(e, s, p).kind)
    ensures p < |s| && e.cls(s[p]) == BT_LT && PrologTok(e, s, p).Token? ==> p + 1 < |s|
  {
    if p < |s| && e.cls(s[p]) != BT_LT {
      MarkTokKinds(e, s, p);
    }
  }

  lemma PrologPiShape(e: Encoding, s: bytes, p: nat, kind: Kind, next: nat)
    requires p <= |s| && (kind == PI || kind == XmlDecl)
    ensures
      PrologTok(e, s, p) == Token(kind, next)
      <==> exists end: nat :: PiAt(e, s, p, end, next) && TargetIs(s[p + 2..end], kind)
  {
    PiShape(e, s, p, kind, next);
    PrologMarkKinds(e, s, p);
    if p + 1 < |s| && e.cls(s[p]) == BT_LT && e.cls(s[p + 1]) == BT_QUEST {
      assert PrologTok(e, s, p) == PiTok(e, s, p + 2) == ContentTok(e, s, p);
    } else if p + 2 < |s| && e.cls(s[p]) == BT_LT && e.cls(s[p + 2]) != BT_MINUS {
      DeclKinds(e, s, p + 2);
    }
  }

  /** White space that does not separate a carriage return at the end of the buffer from what may follow. */
  ghost predicate SpaceRun(e: Encoding, s: bytes, p: nat, next: nat) {
    && Spaces(e, s, p, next)
    && (next > p && next == |s| ==> e.cls(s[next - 1]) != BT_CR)
    && (next < |s| && e.cls(s[next]) in {BT_S, BT_CR, BT_LF} ==> e.cls(s[next]) == BT_CR && next + 1 == |s|)
  }

  lemma {:induction false} SpaceRunShape(e: Encoding, s: bytes, p: nat, next: nat)
    requires p <= |s|
    ensures PrologSpaceEnd(e, s, p) == next <==> SpaceRun(e, s, p, next)
    decreases |s| - p
  {
    if p < |s| {
      var c := e.cls(s[p]);
      if c == BT_S || c == BT_LF || (c == BT_CR && p + 1 != |s|) {
        SpaceRunShape(e, s, p + 1, next);
      }
    }
  }

  lemma PrologSpaceShape(e: Encoding, s: bytes, p: nat, next: nat)
    requires p <= |s|
    ensures PrologTok(e, s, p) == Token(PrologS, next) <==> p < next && SpaceRun(e, s, p, next)
    ensures PrologTok(e, s, p).TrailingCr? <==> p + 1 == |s| && e.cls(s[p]) == BT_CR
  {
    PrologSpaces(e, s, p);
    if p < |s| {
      SpaceRunShape(e, s, p + 1, next);
    }
  }

  /** "<" in front of a byte that may start a name is the start of the document element. */
  lemma InstanceShape(e: Encoding, s: bytes, p: nat, next: nat)
    requires p <= |s|
    ensures
      PrologTok(e, s, p) == Token(InstanceStart, next)
      <==> && p + 1 < |s| && e.cls(s[p]) == BT_LT && next == p
           && e.cls(s[p + 1]) in {BT_NMSTRT, BT_HEX, BT_NONASCII, BT_LEAD2, BT_LEAD3, BT_LEAD4}
  {
    PrologMarkKinds(e, s, p);
    if p + 1 < |s| && e.cls(s[p]) == BT_LT {
      if e.cls(s[p + 1]) == BT_EXCL && p + 2 < |s| && e.cls(s[p + 2]) != BT_MINUS {
        DeclKinds(e, s, p + 2);
      }
    }
  }

  // ---------------------------------------------------------------- declarations

  /** "<!" and letters, in front of white space or of "%" with no space and no "%" behind it. */
  ghost predicate DeclOpenAt(e: Encoding, s: bytes, p: nat, next: nat) {
    && p + 2 < next < |s| && e.cls(s[p]) == BT_LT && e.cls(s[p + 1]) == BT_EXCL
    && (forall i :: p + 2 <= i < next ==> e.cls(s[i]) in {BT_NMSTRT, BT_HEX})
    && DeclStops(e, s, next)
  }

  predicate DeclStops(e: Encoding, s: bytes, next: nat) {
    next < |s| &&
    (|| e.cls(s[next]) in {BT_S, BT_CR, BT_LF}
     || (e.cls(s[next]) == BT_PERCNT && next + 1 < |s| && e.cls(s[next + 1]) !in {BT_S, BT_CR, BT_LF, BT_PERCNT}))
  }

  lemma {:induction false} DeclNameShape(e: Encoding, s: bytes, p: nat, next: nat)
    requires p <= |s|
    ensures
      DeclNameTok(e, s, p) == Token(DeclOpen, next)
      <==> p <= next && DeclStops(e, s, next) && forall i :: p <= i < next ==> e.cls(s[i]) in {BT_NMSTRT, BT_HEX}
    decreases |s| - p
  {
    if p < |s| {
      var c := e.cls(s[p]);
      if c == BT_NMSTRT || c == BT_HEX {
        DeclNameShape(e, s, p + 1, next);
      }
    }
  }

  lemma DeclOpenShape(e: Encoding, s: bytes, p: nat, next: nat)
    requires p <= |s|
    ensures PrologTok(e, s, p) == Token(DeclOpen, next) <==> DeclOpenAt(e, s, p, next)
    ensures
      PrologTok(e, s, p) == Token(CondSectOpen, next)
      <==> next == p + 3 <= |s| && e.cls(s[p]) == BT_LT && e.cls(s[p + 1]) == BT_EXCL && e.cls(s[p + 2]) == BT_LSQB
  {
    PrologMarkKinds(e, s, p);
    if p + 2 < |s| && e.cls(s[p]) == BT_LT && e.cls(s[p + 1]) == BT_EXCL {
      assert PrologTok(e, s, p) == DeclTok(e, s, p + 2);
      DeclNameShape(e, s, p + 3, next);
      DeclNameKinds(e, s, p + 3);
    }
  }

  // ---------------------------------------------------------------- names

  /** What a name or name token may be followed by. */
  predicate NameDelimits(c: Class) {
    c in {BT_GT, BT_RPAR, BT_COMMA, BT_VERBAR, BT_LSQB, BT_PERCNT, BT_S, BT_CR, BT_LF}
  }

  /** A name, or a name token that is no name, from `p` to `end`. */
  ghost predicate WordTo(e: Encoding, s: bytes, p: nat, nmtoken: bool, end: nat) {
    && p < |s| && (if nmtoken then IsWord(e, s, p) && !NameStarts(e, s, p) else NameStarts(e, s, p))
    && NameChars(e, s, Behind(e, s, p), end) && NameStops(e, s, end)
  }

  predicate IsWord(e: Encoding, s: bytes, p: nat) {
    IsOneOf(e, s, p, {BT_DIGIT, BT_NAME, BT_MINUS}, e.name)
  }

  /** The kind of a name, with the byte behind it, and where the token ends. */
  ghost predicate WordIs(e: Encoding, s: bytes, nmtoken: bool, end: nat, kind: Kind, next: nat) {
    end < |s| &&
    var c := e.cls(s[end]);
    if NameDelimits(c) then next == end && kind == if nmtoken then NmToken else Name
    else
      && !nmtoken && next == end + 1
      && ((c == BT_PLUS && kind == NamePlus) || (c == BT_AST && kind == NameAsterisk)
          || (c == BT_QUEST && kind == NameQuestion))
  }

  lemma PrologNameShape(e: Encoding, nmtoken: bool, s: bytes, p: nat, kind: Kind, next: nat)
    requires p <= |s|
    ensures
      PrologNameTok(e, nmtoken, s, p) == Token(kind, next)
      <==> exists end: nat ::
             NameChars(e, s, p, end) && NameStops(e, s, end) && WordIs(e, s, nmtoken, end, kind, next)
  {
    var sp := NameSpan(e, s, p);
    if sp.SpanEnd? {
      NameSpanShape(e, s, p, sp.at);
    }
    forall end: nat | NameChars(e, s, p, end) && NameStops(e, s, end) ensures sp == SpanEnd(end) {
      NameSpanShape(e, s, p, end);
    }
  }

  predicate IsWordKind(kind: Kind) {
    kind in {Name, NmToken, NamePlus, NameAsterisk, NameQuestion}
  }

  /** The first character of a name or a name token. */
  lemma WordTok(e: Encoding, s: bytes, p: nat)
    requires p < |s|
    ensures
      PrologWordTok(e, s, p)
      == if NameStarts(e, s, p) then PrologNameTok(e, false, s, Behind(e, s, p))
         else if IsWord(e, s, p) then PrologNameTok(e, true, s, Behind(e, s, p))
         else if p + Size(e.cls(s[p])) > |s| then PartialChar
         else Invalid(p)
  {
  }

  lemma WordKinds(e: Encoding, nmtoken: bool, s: bytes, p: nat)
    requires p <= |s| && PrologNameTok(e, nmtoken, s, p).Token?
    ensures IsWordKind(PrologNameTok(e, nmtoken, s, p).kind)
  {
  }

  predicate StartsWord(e: Encoding, s: bytes, p: nat) {
    NameStarts(e, s, p) || IsWord(e, s, p)
  }

  lemma PrologWordIs(e: Encoding, s: bytes, p: nat)
    requires p < |s|
    ensures StartsWord(e, s, p) ==> PrologTok(e, s, p) == PrologWordTok(e, s, p)
    ensures
      !StartsWord(e, s, p) && PrologTok(e, s, p).Token? ==> !IsWordKind(PrologTok(e, s, p).kind)
  {
    if e.cls(s[p]) == BT_LT && p + 2 < |s| && e.cls(s[p + 2]) != BT_MINUS {
      DeclKinds(e, s, p + 2);
    }
    if e.cls(s[p]) == BT_QUOT || e.cls(s[p]) == BT_APOS {
      LitKinds(e, e.cls(s[p]), s, p + 1);
    }
    WordTok(e, s, p);
  }

  /** Names and name tokens, with the indicator of occurrence behind a name. */
  lemma WordShape(e: Encoding, s: bytes, p: nat, kind: Kind, next: nat)
    requires p <= |s| && IsWordKind(kind)
    ensures
      PrologTok(e, s, p) == Token(kind, next)
      <==> exists nmtoken, end: nat :: WordTo(e, s, p, nmtoken, end) && WordIs(e, s, nmtoken, end, kind, next)
  {
    if p < |s| {
      PrologWordIs(e, s, p);
      WordTok(e, s, p);
      var nmtoken := !NameStarts(e, s, p);
      if StartsWord(e, s, p) {
        PrologNameShape(e, nmtoken, s, Behind(e, s, p), kind, next);
        if PrologTok(e, s, p) == Token(kind, next) {
          var end: nat :|
            NameChars(e, s, Behind(e, s, p), end) && NameStops(e, s, end) && WordIs(e, s, nmtoken, end, kind, next);
          assert WordTo(e, s, p, nmtoken, end);
        }
      }
    }
  }

  // ---------------------------------------------------------------- literals and references

  /** Characters other than the quote. */
  ghost predicate LiteralChars(e: Encoding, quote: Class, s: bytes, p: nat, end: nat)
    decreases if p < end then end - p else 0
  {
    || p == end
    || (p < end && IsCharAt(e, s, p) && e.cls(s[p]) != quote && LiteralChars(e, quote, s, Behind(e, s, p), end))
  }

  /** A literal in quotes, in front of something that may follow one. */
  ghost predicate LiteralAt(e: Encoding, s: bytes, p: nat, next: nat) {
    && p + 2 <= next < |s| && e.cls(s[p]) in {BT_QUOT, BT_APOS} && e.cls(s[next - 1]) == e.cls(s[p])
    && LiteralChars(e, e.cls(s[p]), s, p + 1, next - 1)
    && e.cls(s[next]) in {BT_S, BT_CR, BT_LF, BT_GT, BT_PERCNT, BT_LSQB}
  }

  lemma {:induction false} LitShape(e: Encoding, quote: Class, s: bytes, p: nat, next: nat)
    requires p <= |s| && (quote == BT_QUOT || quote == BT_APOS)
    ensures
      LitTok(e, quote, s, p) == Token(Literal, next)
      <==> && p < next < |s| && e.cls(s[next - 1]) == quote && LiteralChars(e, quote, s, p, next - 1)
           && e.cls(s[next]) in {BT_S, BT_CR, BT_LF, BT_GT, BT_PERCNT, BT_LSQB}
    decreases |s| - p
  {
    if p < |s| {
      CharChecks(e, s, p);
      if IsCharAt(e, s, p) && e.cls(s[p]) != quote {
        LitShape(e, quote, s, Behind(e, s, p), next);
      }
    }
  }

  lemma LiteralShape(e: Encoding, s: bytes, p: nat, next: nat)
    requires p <= |s|
    ensures PrologTok(e, s, p) == Token(Literal, next) <==> LiteralAt(e, s, p, next)
  {
    if p < |s| {
      if e.cls(s[p]) == BT_QUOT || e.cls(s[p]) == BT_APOS {
        LitShape(e, e.cls(s[p]), s, p + 1, next);
      } else if e.cls(s[p]) == BT_LT && p + 2 < |s| && e.cls(s[p + 2]) != BT_MINUS {
        DeclKinds(e, s, p + 2);
      }
    }
  }

  /** "%" name ";" */
  lemma ParamRefShape(e: Encoding, s: bytes, p: nat, next: nat)
    requires p < |s| && e.cls(s[p]) == BT_PERCNT
    ensures
      PrologTok(e, s, p) == Token(ParamEntityRef, next)
      <==> p + 2 < next <= |s| && NameTo(e, s, p + 1, next - 1) && e.cls(s[next - 1]) == BT_SEMI
    ensures
      PrologTok(e, s, p) == Token(Percent, next)
      <==> next == p + 1 && next < |s| && e.cls(s[next]) in {BT_S, BT_CR, BT_LF, BT_PERCNT}
  {
    if p + 1 < |s| {
      var sp := WholeName(e, s, p + 1);
      if sp.SpanEnd? {
        WholeNameShape(e, s, p + 1, sp.at);
      }
      if next > 0 {
        WholeNameShape(e, s, p + 1, next - 1);
      }
      StartChecks(e, s, p + 1);
    }
  }

  /** "#" name, in front of white space, ")", ">", "%" or "|". */
  lemma PoundNameShape(e: Encoding, s: bytes, p: nat, next: nat)
    requires p < |s| && e.cls(s[p]) == BT_NUM
    ensures
      PrologTok(e, s, p) == Token(PoundName, next)
      <==> && NameTo(e, s, p + 1, next) && p + 1 < next
           && e.cls(s[next]) in {BT_S, BT_CR, BT_LF, BT_RPAR, BT_GT, BT_PERCNT, BT_VERBAR}
  {
    if p + 1 < |s| {
      WholeNameShape(e, s, p + 1, next);
      var sp := WholeName(e, s, p + 1);
      if sp.SpanEnd? {
        WholeNameShape(e, s, p + 1, sp.at);
      }
    }
  }

  // ---------------------------------------------------------------- punctuation

  /** The kinds of token that are one byte of their own. */
  predicate SingleMark(c: Class, kind: Kind) {
    || (c == BT_COMMA && kind == CommaTok) || (c == BT_LSQB && kind == OpenBracket)
    || (c == BT_LPAR && kind == OpenParen) || (c == BT_VERBAR && kind == Or) || (c == BT_GT && kind == DeclClose)
  }

  /** "," "[" "(" "|" and ">"; "]" and "]]>"; ")" with the indicator of occurrence behind it. */
  lemma MarkShape(e: Encoding, s: bytes, p: nat, kind: Kind, next: nat)
    requires p < |s|
    ensures SingleMark(e.cls(s[p]), kind) ==> PrologTok(e, s, p) == Token(kind, p + 1)
    ensures
      e.cls(s[p]) == BT_RSQB ==>
        (PrologTok(e, s, p) == Token(CondSectClose, next)
         <==> p + 2 < |s| && s[p + 1] == 0x5D && s[p + 2] == 0x3E && next == p + 3)
        && (PrologTok(e, s, p) == Token(CloseBracket, next)
            <==> p + 1 < |s| && (s[p + 1] != 0x5D || (p + 2 < |s| && s[p + 2] != 0x3E)) && next == p + 1)
    ensures
      e.cls(s[p]) == BT_RPAR && p + 1 < |s| ==>
        var c := e.cls(s[p + 1]);
        PrologTok(e, s, p)
        == if c == BT_AST then Token(CloseParenAsterisk, p + 2)
           else if c == BT_QUEST then Token(CloseParenQuestion, p + 2)
           else if c == BT_PLUS then Token(CloseParenPlus, p + 2)
           else if c in {BT_S, BT_CR, BT_LF, BT_GT, BT_COMMA, BT_VERBAR, BT_RPAR} then Token(CloseParen, p + 1)
           else Invalid(p + 1)
  {
  }
}
