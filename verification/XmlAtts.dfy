/**
  The attributes of a start tag. `TagAtts` reads them off the lexical grammar;
  getAtts of xmlnode/xmltok_impl.c finds them in one pass with three states and
  without looking at the end of the buffer. `GetAttsHalts` shows that on every
  start tag that contentTok accepts the pass stops inside the tag, with exactly
  the attributes of the grammar.
 */
module XmlAtts {
  import opened Bytes
  import opened XmlTok

  /** ATTRIBUTE of xmlnode/xmltok.h. */
  datatype Attribute = Attribute(name: nat, valuePtr: nat, valueEnd: nat, normalized: bool)

  /** The next character of getAtts: only the lead byte is looked at. */
  function Walk(e: Encoding, s: bytes, p: nat): (to: nat)
    requires p < |s|
    ensures p < to
  {
    if IsLead(e.cls(s[p])) then p + LeadLength(e.cls(s[p])) else p + 1
  }

  /** The byte at `p`, or NUL after the buffer. */
  function Peek(s: bytes, p: nat): byte {
    if p < |s| then s[p] else 0
  }

  /** A character of a value leaves the value as it is: no reference, no line end, and only single inner spaces. */
  predicate PlainChar(e: Encoding, open: Class, s: bytes, start: nat, p: nat)
    requires p < |s|
  {
    var c := e.cls(s[p]);
    && c != BT_AMP && c != BT_CR && c != BT_LF
    && (c == BT_S ==> p != start && s[p] == BYTE_SPACE
                      && Peek(s, p + 1) != BYTE_SPACE && e.cls(Peek(s, p + 1)) != open)
  }

  /** Every character of the value from `p` on is plain; the value is `start..end`. */
  predicate PlainValue(e: Encoding, open: Class, s: bytes, start: nat, p: nat, end: nat)
    requires end <= |s|
    decreases if p < end then end - p else 0
  {
    p < end ==> PlainChar(e, open, s, start, p) && PlainValue(e, open, s, start, Walk(e, s, p), end)
  }

  // ---------------------------------------------------------------- the grammar's attributes

  predicate StartsName(e: Encoding, s: bytes, p: nat) {
    p < |s| && NmStrtCheck(e, s, p).Takes?
  }

  /** The position after the first character of a name. */
  function AfterFirst(e: Encoding, s: bytes, p: nat): (q: nat)
    requires StartsName(e, s, p)
    ensures p < q <= |s|
  {
    p + NmStrtCheck(e, s, p).n
  }

  /** The attribute whose name starts at `p`. */
  function AttributeAt(e: Encoding, s: bytes, p: nat): (a: Attribute)
    requires StartsName(e, s, p) && AttributeTok(e, s, AfterFirst(e, s, p)).Closed?
    ensures p < a.valuePtr <= a.valueEnd < |s|
  {
    var quote := ValueStart(e, s, AfterFirst(e, s, p)).at;
    var end := AttributeTok(e, s, AfterFirst(e, s, p)).at;
    Attribute(p, quote + 1, end, PlainValue(e, e.cls(s[quote]), s, quote + 1, quote + 1, end))
  }

  /** The attributes from the name at `p` on. */
  function AttList(e: Encoding, s: bytes, p: nat): seq<Attribute>
    requires StartsName(e, s, p) && AttsTok(e, s, AfterFirst(e, s, p)).Token?
    decreases |s| - p, 1
  {
    var a := AttributeAt(e, s, p);
    [a] + AttsAfter(e, s, a.valueEnd + 1)
  }

  /** The attributes after the closing quote before `p`. */
  function AttsAfter(e: Encoding, s: bytes, p: nat): seq<Attribute>
    requires p <= |s| && AfterValueTok(e, s, p).Token?
    decreases |s| - p, 0
  {
    if IsSpace(e.cls(s[p])) then GapAtts(e, true, s, SpaceSpan(e, s, p + 1)) else []
  }

  /** The attributes after white space that ends at `p`. */
  function GapAtts(e: Encoding, atts: bool, s: bytes, p: nat): seq<Attribute>
    requires p <= |s| && GapTok(e, atts, s, p).Token?
    decreases |s| - p, 2
  {
    if StartsName(e, s, p) then AttList(e, s, p) else []
  }

  /** A start tag that contentTok accepts. */
  predicate IsTagAt(e: Encoding, s: bytes, p: nat) {
    && p < |s| && e.cls(s[p]) == BT_LT
    && StartsName(e, s, p + 1)
    && TagTok(e, s, AfterFirst(e, s, p + 1)).Token?
  }

  lemma TagIsContent(e: Encoding, s: bytes, p: nat)
    requires p <= |s|
    ensures IsTagAt(e, s, p) <==> (ContentTok(e, s, p).Token? && IsStartTag(ContentTok(e, s, p).kind))
    ensures IsTagAt(e, s, p) ==> ContentTok(e, s, p) == TagTok(e, s, AfterFirst(e, s, p + 1))
  {
  }

  /** The end of the element name of a start tag. */
  function NameEnd(e: Encoding, s: bytes, p: nat): (at: nat)
    requires IsTagAt(e, s, p)
    ensures p + 1 < at < |s|
  {
    NameSpan(e, s, AfterFirst(e, s, p + 1)).at
  }

  /** The attributes of a start tag whose name ends at `at`. */
  function AttsFrom(e: Encoding, s: bytes, at: nat): seq<Attribute>
    requires at < |s| && (IsSpace(e.cls(s[at])) ==> GapTok(e, false, s, SpaceSpan(e, s, at + 1)).Token?)
  {
    if IsSpace(e.cls(s[at])) then GapAtts(e, false, s, SpaceSpan(e, s, at + 1)) else []
  }

  /** The attributes of the start tag at `p`. */
  function TagAtts(e: Encoding, s: bytes, p: nat): seq<Attribute>
    requires IsTagAt(e, s, p)
  {
    AttsFrom(e, s, NameEnd(e, s, p))
  }

  // ---------------------------------------------------------------- the one-pass scan

  datatype AttState = Between | InName | InValue

  /**
    The variables of getAtts: its state, the attributes that are complete, the
    one being read, and what the array held before the call.
   */
  datatype Scan = Scan(state: AttState, open: Class, done: seq<Attribute>, cur: Attribute, slots: seq<Attribute>)

  /** What slot `i` holds before it is written. */
  function Slot(slots: seq<Attribute>, i: nat): Attribute {
    if i < |slots| then slots[i] else Attribute(0, 0, 0, false)
  }

  /** START_NAME. */
  function StartName(sc: Scan, p: nat): Scan {
    if sc.state == Between then sc.(state := InName, cur := sc.cur.(name := p, normalized := true)) else sc
  }

  /** BT_QUOT and BT_APOS. */
  function Quote(c: Class, sc: Scan, p: nat): Scan {
    if sc.state != InValue then sc.(state := InValue, open := c, cur := sc.cur.(valuePtr := p + 1))
    else if sc.open == c then
      sc.(state := Between, done := sc.done + [sc.cur.(valueEnd := p)], cur := Slot(sc.slots, |sc.done| + 1))
    else sc
  }

  function Blank(e: Encoding, s: bytes, sc: Scan, p: nat): Scan
    requires p < |s|
  {
    if sc.state == InName then sc.(state := Between)
    else if sc.state == InValue && !PlainChar(e, sc.open, s, sc.cur.valuePtr, p) then
      sc.(cur := sc.cur.(normalized := false))
    else sc
  }

  /** What getAtts does at the byte at `p`. */
  function ScanByte(e: Encoding, s: bytes, sc: Scan, p: nat): Scan
    requires p < |s|
  {
    var c := e.cls(s[p]);
    if IsLead(c) || c == BT_NONASCII || c == BT_NMSTRT || c == BT_HEX then StartName(sc, p)
    else if c == BT_QUOT || c == BT_APOS then Quote(c, sc, p)
    else if c == BT_AMP then sc.(cur := sc.cur.(normalized := false))
    else if IsSpace(c) then Blank(e, s, sc, p)
    else sc
  }

  predicate StopsAt(e: Encoding, s: bytes, sc: Scan, p: nat)
    requires p < |s|
  {
    (e.cls(s[p]) == BT_GT || e.cls(s[p]) == BT_SOL) && sc.state != InValue
  }

  /** Where the scan stops, and with which attributes; it has no test for the end of the buffer. */
  datatype Scanned = Stopped(at: nat, atts: seq<Attribute>) | RanOut

  function ScanFrom(e: Encoding, s: bytes, sc: Scan, p: nat): Scanned
    decreases if p < |s| then |s| - p else 0
  {
    if p >= |s| then RanOut
    else if StopsAt(e, s, sc, p) then Stopped(p, sc.done)
    else ScanFrom(e, s, ScanByte(e, s, sc, p), Walk(e, s, p))
  }

  function Init(slots: seq<Attribute>): Scan {
    Scan(InName, BT_NONXML, [], Slot(slots, 0), slots)
  }

  // ---------------------------------------------------------------- scan and grammar agree

  /** Name characters do not change a scan that is inside a name. */
  lemma {:induction false} ScanName(e: Encoding, s: bytes, sc: Scan, p: nat)
    requires sc.state == InName && p <= |s| && NameSpan(e, s, p).SpanEnd?
    ensures ScanFrom(e, s, sc, p) == ScanFrom(e, s, sc, NameSpan(e, s, p).at)
    decreases |s| - p
  {
    if p < |s| && NameCheck(e, s, p).Takes? {
      ScanName(e, s, sc, p + NameCheck(e, s, p).n);
    }
  }

  /** White space takes a scan out of a name, and otherwise only matters inside a value. */
  lemma {:induction false} ScanSpaces(e: Encoding, s: bytes, sc: Scan, p: nat)
    requires sc.state != InValue && p <= |s|
    ensures
      var at := SpaceSpan(e, s, p);
      ScanFrom(e, s, sc, p) == ScanFrom(e, s, if at > p then sc.(state := Between) else sc, at)
    decreases |s| - p
  {
    if p < |s| && IsSpace(e.cls(s[p])) {
      ScanSpaces(e, s, sc.(state := Between), p + 1);
    }
  }

  /** From the inside of an attribute name to the inside of its value. */
  lemma ScanToValue(e: Encoding, s: bytes, sc: Scan, p: nat)
    requires sc.state == InName && p <= |s| && ValueStart(e, s, p).Closed?
    ensures
      var quote := ValueStart(e, s, p).at;
      ScanFrom(e, s, sc, p)
      == ScanFrom(e, s, sc.(state := InValue, open := e.cls(s[quote]), cur := sc.cur.(valuePtr := quote + 1)),
          quote + 1)
  {
    ScanName(e, s, sc, p);
    var at := NameSpan(e, s, p).at;
    ScanSpaces(e, s, sc, at);
    var eq := SpaceSpan(e, s, at);
    var sc' := if eq > at then sc.(state := Between) else sc;
    assert ScanFrom(e, s, sc', eq) == ScanFrom(e, s, sc', eq + 1);
    ScanSpaces(e, s, sc', eq + 1);
  }

  /** A name inside a value leaves the scan as it is. */
  lemma {:induction false} ScanNameInValue(e: Encoding, s: bytes, sc: Scan, p: nat)
    requires sc.state == InValue && p <= |s| && NameSpan(e, s, p).SpanEnd?
    ensures ScanFrom(e, s, sc, p) == ScanFrom(e, s, sc, NameSpan(e, s, p).at)
    decreases |s| - p
  {
    if p < |s| && NameCheck(e, s, p).Takes? {
      ScanNameInValue(e, s, sc, p + NameCheck(e, s, p).n);
    }
  }

  lemma {:induction false} ScanDigitsInValue(e: Encoding, hex: bool, s: bytes, sc: Scan, p: nat)
    requires sc.state == InValue && p <= |s|
    ensures ScanFrom(e, s, sc, p) == ScanFrom(e, s, sc, DigitSpan(e, hex, s, p))
    decreases |s| - p
  {
    if p < |s| && IsDigit(e.cls(s[p]), hex) {
      ScanDigitsInValue(e, hex, s, sc, p + 1);
    }
  }

  lemma ScanCharRef(e: Encoding, s: bytes, sc: Scan, p: nat)
    requires LiteralBytes(e) && sc.state == InValue && !sc.cur.normalized
    requires p <= |s| && CharRefTok(e, s, p).Token?
    ensures ScanFrom(e, s, sc, p) == ScanFrom(e, s, sc, CharRefTok(e, s, p).next)
  {
    if s[p] == BYTE_X {
      ScanDigitsInValue(e, true, s, sc, p + 1);
    } else {
      ScanDigitsInValue(e, false, s, sc, p);
    }
  }

  /** A reference inside a value spoils the normal form and nothing else. */
  lemma ScanRef(e: Encoding, s: bytes, sc: Scan, p: nat)
    requires LiteralBytes(e) && sc.state == InValue && !sc.cur.normalized
    requires p <= |s| && RefTok(e, s, p).Token?
    ensures ScanFrom(e, s, sc, p) == ScanFrom(e, s, sc, RefTok(e, s, p).next)
  {
    var sp := WholeName(e, s, p);
    if sp.at > p {
      ScanNameInValue(e, s, sc, p + NmStrtCheck(e, s, p).n);
    } else {
      ScanCharRef(e, s, sc, p + 1);
    }
  }

  /** The bytes that scanners compare with literally have the class of the character they stand for. */
  ghost predicate LiteralBytes(e: Encoding) {
    && e.cls(BYTE_X) == BT_NMSTRT
    && e.cls(BYTE_SPACE) == BT_S
  }

  /** From the inside of a value to its closing quote; the normal form survives exactly plain characters. */
  lemma {:induction false} ScanValue(e: Encoding, s: bytes, sc: Scan, p: nat)
    requires LiteralBytes(e) && sc.state == InValue && (sc.open == BT_QUOT || sc.open == BT_APOS)
    requires p <= |s| && ValueTok(e, sc.open, s, p).Closed?
    ensures
      var end := ValueTok(e, sc.open, s, p).at;
      ScanFrom(e, s, sc, p)
      == ScanFrom(e, s, Spoil(sc, PlainValue(e, sc.open, s, sc.cur.valuePtr, p, end)), end)
    decreases |s| - p
  {
    if e.cls(s[p]) != sc.open {
      var to := ValueUnit(e, s, p).to;
      var sc' := ScanByte(e, s, sc, p);
      assert sc' == Spoil(sc, PlainChar(e, sc.open, s, sc.cur.valuePtr, p));
      if e.cls(s[p]) == BT_AMP {
        ScanRef(e, s, sc', p + 1);
      }
      assert ScanFrom(e, s, sc, p) == ScanFrom(e, s, sc', to);
      ScanValue(e, s, sc', to);
    }
  }

  /** The attribute being read stays normalized only if `keep`. */
  function Spoil(sc: Scan, keep: bool): Scan {
    if keep then sc else sc.(cur := sc.cur.(normalized := false))
  }

  /** A whole attribute, from its name to the byte after its closing quote. */
  lemma ScanAttribute(e: Encoding, s: bytes, sc: Scan, p: nat) returns (sc': Scan)
    requires LiteralBytes(e) && sc.state == Between
    requires StartsName(e, s, p) && AttributeTok(e, s, AfterFirst(e, s, p)).Closed?
    ensures
      var a := AttributeAt(e, s, p);
      && sc'.state == Between && sc'.done == sc.done + [a]
      && ScanFrom(e, s, sc, p) == ScanFrom(e, s, sc', a.valueEnd + 1)
  {
    var a := AttributeAt(e, s, p);
    var q := AfterFirst(e, s, p);
    var sc1 := StartName(sc, p);
    assert ScanFrom(e, s, sc, p) == ScanFrom(e, s, sc1, q);
    ScanToValue(e, s, sc1, q);
    var open := e.cls(s[a.valuePtr - 1]);
    var sc2 := sc1.(state := InValue, open := open, cur := sc1.cur.(valuePtr := a.valuePtr));
    ScanValue(e, s, sc2, a.valuePtr);
    var sc3 := Spoil(sc2, a.normalized);
    sc' := Quote(open, sc3, a.valueEnd);
  }

  /** From a tag's end, the scan stops at once. */
  ghost predicate StopsInside(r: Scanned, atts: seq<Attribute>, p: nat, next: nat) {
    r.Stopped? && p <= r.at < next && r.atts == atts
  }

  lemma {:induction false} ScanAttList(e: Encoding, s: bytes, sc: Scan, p: nat)
    requires LiteralBytes(e) && sc.state == Between
    requires StartsName(e, s, p) && AttsTok(e, s, AfterFirst(e, s, p)).Token?
    ensures StopsInside(ScanFrom(e, s, sc, p), sc.done + AttList(e, s, p), p, AttsTok(e, s, AfterFirst(e, s, p)).next)
    decreases |s| - p, 1
  {
    var a := AttributeAt(e, s, p);
    var after := a.valueEnd + 1;
    assert AttsTok(e, s, AfterFirst(e, s, p)) == AfterValueTok(e, s, after);
    var sc' := ScanAttribute(e, s, sc, p);
    ScanAttsAfter(e, s, sc', after);
    calc {
      sc'.done + AttsAfter(e, s, after);
      sc.done + ([a] + AttsAfter(e, s, after));
      sc.done + AttList(e, s, p);
    }
  }

  lemma {:induction false} ScanAttsAfter(e: Encoding, s: bytes, sc: Scan, p: nat)
    requires LiteralBytes(e) && sc.state == Between
    requires p <= |s| && AfterValueTok(e, s, p).Token?
    ensures StopsInside(ScanFrom(e, s, sc, p), sc.done + AttsAfter(e, s, p), p, AfterValueTok(e, s, p).next)
    decreases |s| - p, 0
  {
    if IsSpace(e.cls(s[p])) {
      var g := SpaceSpan(e, s, p + 1);
      ScanSpaces(e, s, sc, p);
      ScanGap(e, true, s, sc, g);
    }
  }

  lemma {:induction false} ScanGap(e: Encoding, atts: bool, s: bytes, sc: Scan, p: nat)
    requires LiteralBytes(e) && sc.state == Between
    requires p <= |s| && GapTok(e, atts, s, p).Token?
    ensures StopsInside(ScanFrom(e, s, sc, p), sc.done + GapAtts(e, atts, s, p), p, GapTok(e, atts, s, p).next)
    decreases |s| - p, 2
  {
    if StartsName(e, s, p) {
      ScanAttList(e, s, sc, p);
    }
  }

  /**
    On a start tag that contentTok accepts, the scan of getAtts stops before the
    end of the tag and has found the attributes of the tag, whatever the array
    held before.
   */
  lemma GetAttsHalts(e: Encoding, s: bytes, p: nat, slots: seq<Attribute>)
    requires LiteralBytes(e) && IsTagAt(e, s, p)
    ensures
      StopsInside(
        ScanFrom(e, s, Init(slots), p + 1), TagAtts(e, s, p), p + 1, TagTok(e, s, AfterFirst(e, s, p + 1)).next)
  {
    var q := AfterFirst(e, s, p + 1);
    var sc := Init(slots);
    var at := NameEnd(e, s, p);
    assert ScanFrom(e, s, sc, p + 1) == ScanFrom(e, s, sc, q);
    ScanName(e, s, sc, q);
    if IsSpace(e.cls(s[at])) {
      ScanSpaces(e, s, sc, at);
      ScanGap(e, false, s, sc.(state := Between), SpaceSpan(e, s, at + 1));
    }
  }

  /**
    getAtts in its own form: one loop over the bytes after "<", which fills the
    array in place as far as it goes, and counts all attributes.
   */
  method GetAtts(e: Encoding, s: bytes, start: nat, atts: array<Attribute>) returns (nAtts: nat)
    requires LiteralBytes(e) && IsTagAt(e, s, start)
    modifies atts
    ensures nAtts == |TagAtts(e, s, start)|
    ensures forall i :: 0 <= i < nAtts && i < atts.Length ==> atts[i] == TagAtts(e, s, start)[i]
  {
    var state, open: Class := InName, BT_NONXML;
    nAtts := 0;
    var ptr := start + 1;
    ghost var slots := atts[..];
    ghost var sc := Init(slots);
    GetAttsHalts(e, s, start, slots);
    while true
      invariant sc.state == state && sc.open == open && |sc.done| == nAtts && sc.slots == slots
          && |slots| == atts.Length
      invariant forall i :: 0 <= i < nAtts && i < atts.Length ==> atts[i] == sc.done[i]
      invariant nAtts < atts.Length ==> atts[nAtts] == sc.cur
      invariant forall i :: nAtts < i < atts.Length ==> atts[i] == slots[i]
      invariant ScanFrom(e, s, Init(slots), start + 1) == ScanFrom(e, s, sc, ptr)
      decreases |s| - ptr
    {
      var c := e.cls(s[ptr]);
      ghost var at, before := ptr, sc;
      sc := ScanByte(e, s, sc, ptr);
      if IsLead(c) || c == BT_NONASCII || c == BT_NMSTRT || c == BT_HEX {
        if state == Between {
          if nAtts < atts.Length {
            atts[nAtts] := atts[nAtts].(name := ptr, normalized := true);
          }
          state := InName;
        }
        if IsLead(c) {
          ptr := ptr + LeadLength(c) - 1;
        }
      } else if c == BT_QUOT || c == BT_APOS {
        if state != InValue {
          if nAtts < atts.Length {
            atts[nAtts] := atts[nAtts].(valuePtr := ptr + 1);
          }
          state, open := InValue, c;
        } else if open == c {
          state := Between;
          if nAtts < atts.Length {
            atts[nAtts] := atts[nAtts].(valueEnd := ptr);
          }
          nAtts := nAtts + 1;
        }
      } else if c == BT_AMP {
        if nAtts < atts.Length {
          atts[nAtts] := atts[nAtts].(normalized := false);
        }
      } else if c == BT_S {
        if state == InName {
          state := Between;
        } else if state == InValue && nAtts < atts.Length && atts[nAtts].normalized
                  && (ptr == atts[nAtts].valuePtr || s[ptr] != BYTE_SPACE
                      || Peek(s, ptr + 1) == BYTE_SPACE || e.cls(Peek(s, ptr + 1)) == open) {
          atts[nAtts] := atts[nAtts].(normalized := false);
        }
      } else if c == BT_CR || c == BT_LF {
        if state == InName {
          state := Between;
        } else if state == InValue && nAtts < atts.Length {
          atts[nAtts] := atts[nAtts].(normalized := false);
        }
      } else if c == BT_GT || c == BT_SOL {
        if state != InValue { return; }
      }
      ptr := ptr + 1;
    }
  }
}
