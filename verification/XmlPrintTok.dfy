/**
  What the tokenizer makes of printed XML: the references of strescape, names,
  attribute values, tags and character data.
 */
module XmlPrintTok {
  import opened Bytes
  import opened Wrappers
  import opened XmlTok
  import opened XmlTokLaws
  import opened XmlDtd
  import opened XmlAtts
  import opened XmlAttValue
  import opened XmlParse
  import P = XmlPrint

  /** The classes of the bytes that the printer writes, as in asciitab.h. */
  ghost predicate Ascii(e: Encoding) {
    && e.cls(P.LT) == BT_LT && e.cls(P.GT) == BT_GT && e.cls(P.AMP) == BT_AMP && e.cls(P.SEMI) == BT_SEMI
    && e.cls(P.QUOT) == BT_QUOT && e.cls(P.APOS) == BT_APOS && e.cls(P.SOL) == BT_SOL
    && e.cls(P.EQUALS) == BT_EQUALS && e.cls(P.SPACE) == BT_S && e.cls(0x0A) == BT_LF
    && IsLetter(e, 0x61) && IsLetter(e, 0x67) && IsLetter(e, 0x6C) && IsLetter(e, 0x6D) && IsLetter(e, 0x6F)
    && IsLetter(e, 0x70) && IsLetter(e, 0x71) && IsLetter(e, 0x73) && IsLetter(e, 0x74) && IsLetter(e, 0x75)
  }

  predicate IsLetter(e: Encoding, b: byte) {
    e.cls(b) == BT_NMSTRT || e.cls(b) == BT_HEX
  }

  // ---------------------------------------------------------------- references

  /** The name in a reference: letters from 1 up to the semicolon at `n`. */
  lemma {:induction false} LettersSpan(e: Encoding, r: bytes, i: nat, n: nat)
    requires 1 <= i <= n && n + 1 == |r| && e.cls(r[n]) == BT_SEMI && forall k :: i <= k < n ==> IsLetter(e, r[k])
    ensures NameSpan(e, r, i) == SpanEnd(n)
    decreases n - i
  {
    if i < n {
      LettersSpan(e, r, i + 1, n);
    }
  }

  lemma RefText(e: Encoding, r: bytes)
    requires |r| >= 3 && e.cls(r[|r| - 1]) == BT_SEMI && forall k :: 1 <= k < |r| - 1 ==> IsLetter(e, r[k])
    ensures RefTok(e, r, 1) == Token(EntityRef, |r|)
  {
    LettersSpan(e, r, 2, |r| - 1);
  }

  /** A special byte is printed as a reference that names it. */
  lemma EscapedRef(e: Encoding, b: byte)
    requires Ascii(e) && P.IsSpecial(b)
    ensures
      var r := P.EscapeByte(b);
      && |r| >= 4 && RefTok(e, r, 1) == Token(EntityRef, |r|)
      && Predefined(r[1..|r| - 1]) == Some(b)
  {
    RefText(e, P.EscapeByte(b));
    EscapedName(b);
  }

  lemma EscapedName(b: byte)
    requires P.IsSpecial(b)
    ensures |P.EscapeByte(b)| >= 4 && Predefined(P.EscapeByte(b)[1..|P.EscapeByte(b)| - 1]) == Some(b)
  {
    if b == P.AMP {
      assert P.REF_AMP[1..4] == NAME_AMP;
    } else if b == P.LT {
      assert P.REF_LT[1..3] == NAME_LT;
    } else if b == P.GT {
      assert P.REF_GT[1..3] == NAME_GT;
    } else if b == P.QUOT {
      assert P.REF_QUOT[1..5] == NAME_QUOT;
    } else {
      assert P.REF_APOS[1..5] == NAME_APOS;
    }
  }

  /** Text that starts at `p` of `w` is a window on it. */
  lemma StartsIsWindow(w: bytes, p: nat, s: bytes)
    requires P.StartsWith(w, p, s)
    ensures Window(s, w, p)
  {
    forall i | 0 <= i < |s| ensures s[i] == w[p + i] {
      assert w[p..p + |s|][i] == w[p + i];
    }
  }

  /** The reference for a special byte, anywhere in a buffer. */
  lemma EscapedRefAt(e: Encoding, w: bytes, p: nat, b: byte)
    requires Ascii(e) && P.IsSpecial(b) && P.StartsWith(w, p, P.EscapeByte(b))
    ensures
      var next := p + |P.EscapeByte(b)|;
      && p + 4 <= next <= |w| && w[p] == P.AMP
      && RefTok(e, w, p + 1) == Token(EntityRef, next)
      && Predefined(RefName(w, p, next)) == Some(b)
  {
    var r := P.EscapeByte(b);
    StartsIsWindow(w, p, r);
    EscapedRef(e, b);
    RefWindow(e, r, w, p, 1, p + 1);
    SliceWindow(r, w, p, 1, p + 1, |r| - 2);
    assert r[0] == w[p];
  }

  // ---------------------------------------------------------------- names

  /** A name: the scanners read all of it, and nothing else. */
  predicate NameOk(e: Encoding, name: bytes) {
    name != [] && WholeName(e, name, 0) == SpanEnd(|name|)
  }

  /** A byte behind which a printed name ends. */
  predicate EndsName(c: Class) {
    c == BT_GT || c == BT_SOL || c == BT_S || c == BT_EQUALS || c == BT_SEMI
  }

  lemma {:induction false} NameSpanIn(e: Encoding, name: bytes, w: bytes, p: nat, i: nat)
    requires Window(name, w, p) && p + |name| < |w| && EndsName(e.cls(w[p + |name|]))
    requires i <= |name| && NameSpan(e, name, i) == SpanEnd(|name|)
    ensures NameSpan(e, w, p + i) == SpanEnd(p + |name|)
    decreases |name| - i
  {
    if i < |name| {
      NameWindow(e, name, w, p, i, p + i);
      NameSpanIn(e, name, w, p, i + NameCheck(e, name, i).n);
    }
  }

  /** A printed name is read as that name. */
  lemma NameIn(e: Encoding, name: bytes, w: bytes, p: nat)
    requires NameOk(e, name) && P.StartsWith(w, p, name) && p + |name| < |w| && EndsName(e.cls(w[p + |name|]))
    ensures StartsName(e, w, p) && WholeName(e, w, p) == SpanEnd(p + |name|)
    ensures NameSpan(e, w, AfterFirst(e, w, p)) == SpanEnd(p + |name|) && NameAt(e, w, p) == name
  {
    StartsIsWindow(w, p, name);
    NmStrtWindow(e, name, w, p, 0, p);
    NameSpanIn(e, name, w, p, NmStrtCheck(e, name, 0).n);
  }

  // ---------------------------------------------------------------- characters of values and text

  function CharLen(e: Encoding, b: byte): (n: nat)
    ensures 1 <= n <= 4
  {
    if IsLead(e.cls(b)) then LeadLength(e.cls(b)) else 1
  }

  /** A whole character of `n` bytes at `i`, valid, and without bytes that are escaped. */
  predicate CharOk(e: Encoding, s: bytes, i: nat, n: nat) {
    && 1 <= n && i + n <= |s|
    && (forall k :: i <= k < i + n ==> !P.IsSpecial(s[k]))
    && (CharCheck(e, s, i) == Takes(n) || (n == 1 && CharCheck(e, s, i) == NotListed))
  }

  /** A value that the scanners take as a whole. */
  predicate ValueOk(e: Encoding, v: bytes, i: nat)
    decreases if i < |v| then |v| - i else 0
  {
    i < |v| ==>
      if P.IsSpecial(v[i]) then ValueOk(e, v, i + 1)
      else
        var c := e.cls(v[i]);
        && c != BT_AMP && c != BT_LT && c != BT_APOS && c != BT_QUOT
        && CharOk(e, v, i, CharLen(e, v[i])) && ValueOk(e, v, i + CharLen(e, v[i]))
  }

  /** Text that the scanner takes for character data. */
  predicate TextOk(e: Encoding, d: bytes, i: nat)
    decreases if i < |d| then |d| - i else 0
  {
    i < |d| ==>
      if P.IsSpecial(d[i]) then TextOk(e, d, i + 1)
      else
        var c := e.cls(d[i]);
        && c != BT_AMP && c != BT_LT
        && (c == BT_RSQB ==> d[i] == BYTE_RSQB)
        && CharOk(e, d, i, CharLen(e, d[i])) && TextOk(e, d, i + CharLen(e, d[i]))
  }

  /** Bytes without special ones are printed as they are. */
  lemma {:induction false} EscapePlain(s: bytes)
    requires forall k :: 0 <= k < |s| ==> !P.IsSpecial(s[k])
    ensures P.Escape(s) == s
    decreases |s|
  {
    if s != [] {
      EscapePlain(s[1..]);
      assert [s[0]] + s[1..] == s;
    }
  }

  /** The printed form of `v` from `i` on is at `p..end` of `w`. */
  ghost predicate PrintedAt(v: bytes, i: nat, w: bytes, p: nat, end: nat)
    decreases if i < |v| then |v| - i else 0
  {
    if i >= |v| then i == |v| && p == end <= |w|
    else if P.IsSpecial(v[i]) then
      P.StartsWith(w, p, P.EscapeByte(v[i])) && PrintedAt(v, i + 1, w, p + |P.EscapeByte(v[i])|, end)
    else p < |w| && w[p] == v[i] && PrintedAt(v, i + 1, w, p + 1, end)
  }

  lemma {:induction false} PrintedEnd(v: bytes, i: nat, w: bytes, p: nat, end: nat)
    requires PrintedAt(v, i, w, p, end)
    ensures i <= |v| && p <= end <= |w|
    decreases if i < |v| then |v| - i else 0
  {
    if i < |v| {
      PrintedEnd(v, i + 1, w, if P.IsSpecial(v[i]) then p + |P.EscapeByte(v[i])| else p + 1, end);
    }
  }

  lemma EscapeFirst(v: bytes, i: nat, k: bytes)
    requires i < |v|
    ensures P.Escape(v[i..]) + k == P.EscapeByte(v[i]) + (P.Escape(v[i + 1..]) + k)
    ensures |P.Escape(v[i..])| == |P.EscapeByte(v[i])| + |P.Escape(v[i + 1..])|
  {
    assert v[i..][1..] == v[i + 1..];
    var r, rest := P.EscapeByte(v[i]), P.Escape(v[i + 1..]);
    assert r + rest + k == r + (rest + k);
  }

  lemma EscapeStep(v: bytes, i: nat, w: bytes, p: nat, k: bytes)
    requires i < |v| && p <= |w| && w[p..] == P.Escape(v[i..]) + k
    ensures
      var r := P.EscapeByte(v[i]);
      P.StartsWith(w, p, r) && p < |w| && w[p] == r[0] && w[p + |r|..] == P.Escape(v[i + 1..]) + k
  {
    var r, rest := P.EscapeByte(v[i]), P.Escape(v[i + 1..]) + k;
    EscapeFirst(v, i, k);
    P.PartsAt(r, rest, w, p);
    assert w[p] == w[p..p + |r|][0];
  }

  lemma {:induction false} EscapeIsPrinted(v: bytes, i: nat, w: bytes, p: nat, k: bytes)
    requires i <= |v| && p <= |w| && w[p..] == P.Escape(v[i..]) + k
    ensures PrintedAt(v, i, w, p, p + |P.Escape(v[i..])|)
    decreases |v| - i
  {
    if i < |v| {
      EscapeStep(v, i, w, p, k);
      EscapeFirst(v, i, k);
      EscapeIsPrinted(v, i + 1, w, p + |P.EscapeByte(v[i])|, k);
    }
  }

  /** Bytes that are not escaped. */
  lemma {:induction false} PlainIn(v: bytes, i: nat, n: nat, w: bytes, p: nat, end: nat)
    requires PrintedAt(v, i, w, p, end) && i + n <= |v| && forall k :: i <= k < i + n ==> !P.IsSpecial(v[k])
    ensures p + n <= |w| && PrintedAt(v, i + n, w, p + n, end)
    ensures w[p..p + n] == v[i..i + n]
    decreases n
  {
    if n > 0 {
      PlainIn(v, i + 1, n - 1, w, p + 1, end);
      assert w[p..p + n] == [w[p]] + w[p + 1..p + n] && v[i..i + n] == [v[i]] + v[i + 1..i + n];
    } else {
      PrintedEnd(v, i, w, p, end);
    }
  }

  /** The end of the character at `i`. */
  function CharEnd(e: Encoding, v: bytes, i: nat): (j: nat)
    requires i < |v|
    ensures i < j
  {
    if P.IsSpecial(v[i]) then i + 1 else i + CharLen(e, v[i])
  }

  /** The printed form of the character at `i`, at `p..q`. */
  ghost predicate CharAt(e: Encoding, v: bytes, i: nat, w: bytes, p: nat, q: nat)
    requires i < |v|
  {
    var j := CharEnd(e, v, i);
    && j <= |v| && p < q <= |w|
    && if P.IsSpecial(v[i]) then P.StartsWith(w, p, P.EscapeByte(v[i])) && q == p + |P.EscapeByte(v[i])|
       else w[p..q] == v[i..j] && q == p + (j - i)
  }

  /** What follows a printed character. */
  lemma CharIn(e: Encoding, v: bytes, i: nat, w: bytes, p: nat, end: nat) returns (j: nat, q: nat)
    requires i < |v| && (P.IsSpecial(v[i]) || CharOk(e, v, i, CharLen(e, v[i]))) && PrintedAt(v, i, w, p, end)
    ensures j == CharEnd(e, v, i) && CharAt(e, v, i, w, p, q) && PrintedAt(v, j, w, q, end) && q <= end
  {
    j := CharEnd(e, v, i);
    if P.IsSpecial(v[i]) {
      q := p + |P.EscapeByte(v[i])|;
    } else {
      q := p + (j - i);
      PlainIn(v, i, j - i, w, p, end);
    }
    PrintedEnd(v, j, w, q, end);
  }

  /** A character that is escaped starts with "&", and is read as a reference to it. */
  lemma SpecialChar(e: Encoding, v: bytes, i: nat, w: bytes, p: nat, q: nat)
    requires Ascii(e) && i < |v| && P.IsSpecial(v[i]) && CharAt(e, v, i, w, p, q)
    ensures w[p] == P.AMP && e.cls(w[p]) == BT_AMP && CharCheck(e, w, p) == NotListed
    ensures p + 4 <= q && RefTok(e, w, p + 1) == Token(EntityRef, q) && Predefined(RefName(w, p, q)) == Some(v[i])
  {
    EscapedRefAt(e, w, p, v[i]);
  }

  /** Any other character is checked as before it was printed. */
  lemma OtherChar(e: Encoding, v: bytes, i: nat, w: bytes, p: nat, q: nat)
    requires i < |v| && !P.IsSpecial(v[i]) && CharOk(e, v, i, CharLen(e, v[i])) && CharAt(e, v, i, w, p, q)
    ensures w[p] == v[i] && CharCheck(e, w, p) == CharCheck(e, v, i) && q == p + CharLen(e, v[i])
    ensures CharCheck(e, w, p) == Takes(q - p) || (q == p + 1 && CharCheck(e, w, p) == NotListed)
  {
    var n := q - p;
    assert w[p] == w[p..q][0] && v[i] == v[i..i + n][0];
  }

  // ---------------------------------------------------------------- attribute values

  /** One character of a printed value, as the scanners take it. */
  lemma UnitIn(e: Encoding, v: bytes, i: nat, w: bytes, p: nat, q: nat)
    requires Ascii(e) && i < |v| && ValueOk(e, v, i) && CharAt(e, v, i, w, p, q)
    ensures e.cls(w[p]) != BT_APOS && ValueUnit(e, w, p) == Next(q)
  {
    if P.IsSpecial(v[i]) {
      SpecialChar(e, v, i, w, p, q);
    } else {
      OtherChar(e, v, i, w, p, q);
    }
  }

  /** A printed value ends at its quote. */
  lemma {:induction false} ValueIn(e: Encoding, v: bytes, i: nat, w: bytes, p: nat, end: nat)
    requires Ascii(e) && ValueOk(e, v, i) && PrintedAt(v, i, w, p, end) && end < |w| && w[end] == P.APOS
    ensures p <= end && ValueTok(e, BT_APOS, w, p) == Closed(end)
    decreases if i < |v| then |v| - i else 0
  {
    if i < |v| {
      var j, q := CharIn(e, v, i, w, p, end);
      UnitIn(e, v, i, w, p, q);
      ValueIn(e, v, j, w, q, end);
    }
  }
}
