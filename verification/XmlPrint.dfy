/**
  Printing XML trees: strescape, strunescape (xmlnode/str.c) and the text of a
  tree, as _xmlnode2spool (xmlnode/xmlnode.c) writes it.
 */
module XmlPrint {
  import opened Bytes

  const LT: byte := 0x3C
  const GT: byte := 0x3E
  const AMP: byte := 0x26
  const QUOT: byte := 0x22
  const APOS: byte := 0x27
  const SOL: byte := 0x2F
  const EQUALS: byte := 0x3D
  const SPACE: byte := 0x20
  const SEMI: byte := 0x3B

  const REF_AMP: bytes := [0x26, 0x61, 0x6D, 0x70, 0x3B]
  const REF_APOS: bytes := [0x26, 0x61, 0x70, 0x6F, 0x73, 0x3B]
  const REF_QUOT: bytes := [0x26, 0x71, 0x75, 0x6F, 0x74, 0x3B]
  const REF_LT: bytes := [0x26, 0x6C, 0x74, 0x3B]
  const REF_GT: bytes := [0x26, 0x67, 0x74, 0x3B]

  predicate IsSpecial(b: byte) {
    b == AMP || b == APOS || b == QUOT || b == LT || b == GT
  }

  /** The reference for a byte that is escaped, and any other byte itself. */
  function EscapeByte(b: byte): (r: bytes)
    ensures r != [] && (IsSpecial(b) ==> r[0] == AMP) && (!IsSpecial(b) ==> r == [b])
  {
    if b == AMP then REF_AMP
    else if b == APOS then REF_APOS
    else if b == QUOT then REF_QUOT
    else if b == LT then REF_LT
    else if b == GT then REF_GT
    else [b]
  }

  /** strescape. */
  function Escape(s: bytes): bytes {
    if s == [] then [] else EscapeByte(s[0]) + Escape(s[1..])
  }

  lemma {:induction false} EscapeAppend(a: bytes, b: bytes)
    ensures Escape(a + b) == Escape(a) + Escape(b)
    decreases |a|
  {
    if a == [] {
      assert a + b == b;
    } else {
      assert (a + b)[1..] == a[1..] + b;
      EscapeAppend(a[1..], b);
    }
  }

  predicate StartsWith(s: bytes, i: nat, p: bytes) {
    i + |p| <= |s| && s[i..i + |p|] == p
  }

  /** A known reference at `i`, and the byte it stands for. */
  datatype Known = NoRef | Ref(len: nat, b: byte)

  function KnownAt(s: bytes, i: nat): (r: Known)
    ensures r.Ref? ==> r.len >= 4 && i + r.len <= |s|
  {
    if StartsWith(s, i, REF_AMP) then Ref(5, AMP)
    else if StartsWith(s, i, REF_QUOT) then Ref(6, QUOT)
    else if StartsWith(s, i, REF_APOS) then Ref(6, APOS)
    else if StartsWith(s, i, REF_LT) then Ref(4, LT)
    else if StartsWith(s, i, REF_GT) then Ref(4, GT)
    else NoRef
  }

  /**
    A round of strunescape: the byte that is written, and where it goes on. `junk`
    is a byte of the buffer that is left as it was, behind "&" without a known name.
   */
  function UnescapeByte(s: bytes, i: nat, junk: byte): (r: (byte, nat))
    requires i < |s|
    ensures i < r.1 <= |s|
  {
    if s[i] != AMP then (s[i], i + 1)
    else
      match KnownAt(s, i)
      case NoRef => (junk, i + 1)
      case Ref(len, b) => (b, i + len)
  }

  /** strunescape from `i` on; `unset` is what the new buffer holds from the next byte to be written on. */
  function Unescape(s: bytes, i: nat, unset: bytes): bytes
    requires i <= |s| && |s| - i <= |unset|
    decreases |s| - i
  {
    if i == |s| then []
    else
      var (b, next) := UnescapeByte(s, i, unset[0]);
      [b] + Unescape(s, next, unset[1..])
  }

  lemma StartsByte(s: bytes, i: nat, p: bytes, k: nat)
    requires StartsWith(s, i, p) && k < |p|
    ensures s[i + k] == p[k]
  {
    assert s[i..i + |p|][k] == s[i + k];
  }

  /** A buffer does not hold two references that differ at the same place. */
  lemma Excludes(s: bytes, i: nat, p: bytes, q: bytes, k: nat)
    requires StartsWith(s, i, p) && k < |p| && k < |q| && p[k] != q[k]
    ensures !StartsWith(s, i, q)
  {
    StartsByte(s, i, p, k);
    if StartsWith(s, i, q) {
      StartsByte(s, i, q, k);
      assert false;
    }
  }

  lemma KnownEscaped(s: bytes, i: nat, b: byte)
    requires IsSpecial(b) && StartsWith(s, i, EscapeByte(b))
    ensures KnownAt(s, i) == Ref(|EscapeByte(b)|, b)
  {
    var r := EscapeByte(b);
    if b != AMP {
      Excludes(s, i, r, REF_AMP, if b == APOS then 2 else 1);
      if b != QUOT {
        Excludes(s, i, r, REF_QUOT, 1);
        if b != APOS {
          Excludes(s, i, r, REF_APOS, 1);
          if b != LT {
            Excludes(s, i, r, REF_LT, 1);
          }
        }
      }
    }
  }

  /** What is escaped at `i` is unescaped there, whatever follows. */
  lemma UnescapeByteEscaped(s: bytes, i: nat, b: byte, junk: byte)
    requires StartsWith(s, i, EscapeByte(b))
    ensures i < |s| && UnescapeByte(s, i, junk) == (b, i + |EscapeByte(b)|)
  {
    var r := EscapeByte(b);
    assert s[i] == s[i..i + |r|][0];
    if IsSpecial(b) {
      KnownEscaped(s, i, b);
    }
  }

  lemma PartsAt(x: bytes, y: bytes, w: bytes, i: nat)
    requires i <= |w| && w[i..] == x + y
    ensures StartsWith(w, i, x) && w[i + |x|..] == y
  {
    assert w[i..i + |x|] == w[i..][..|x|] && w[i + |x|..] == w[i..][|x|..];
  }

  lemma EscapedParts(s: bytes, w: bytes, i: nat)
    requires s != [] && i <= |w| && w[i..] == Escape(s)
    ensures StartsWith(w, i, EscapeByte(s[0])) && w[i + |EscapeByte(s[0])|..] == Escape(s[1..])
  {
    PartsAt(EscapeByte(s[0]), Escape(s[1..]), w, i);
  }

  /** strunescape undoes strescape. */
  lemma {:induction false} UnescapeEscape(s: bytes, w: bytes, i: nat, unset: bytes)
    requires i <= |w| && w[i..] == Escape(s) && |w| - i <= |unset|
    ensures Unescape(w, i, unset) == s
    decreases |s|
  {
    if s != [] {
      EscapedParts(s, w, i);
      UnescapeByteEscaped(w, i, s[0], unset[0]);
      UnescapeEscape(s[1..], w, i + |EscapeByte(s[0])|, unset[1..]);
    }
  }

  // ---------------------------------------------------------------- in place

  /** The size that strescape asks for: the references are added to the bytes that they replace. */
  function Room(s: bytes): (n: nat)
    ensures n >= |s|
  {
    if s == [] then 0
    else 1 + (if IsSpecial(s[0]) then |EscapeByte(s[0])| else 0) + Room(s[1..])
  }

  lemma {:induction false} RoomAppend(a: bytes, b: bytes)
    ensures Room(a + b) == Room(a) + Room(b)
    decreases |a|
  {
    if a == [] {
      assert a + b == b;
    } else {
      assert (a + b)[1..] == a[1..] + b;
      RoomAppend(a[1..], b);
    }
  }

  /** That is enough, and it is the old size only where there is nothing to escape. */
  lemma {:induction false} RoomEnough(s: bytes)
    ensures |Escape(s)| <= Room(s) && (Room(s) == |s| ==> Escape(s) == s)
  {
    if s != [] {
      RoomEnough(s[1..]);
    }
  }

  /** The first loop of strescape. */
  method EscapedRoom(buf: bytes) returns (newlen: nat)
    ensures newlen == Room(buf)
  {
    newlen := |buf|;
    var i := 0;
    assert buf[0..] == buf && buf[..0] == [];
    while i < |buf|
      invariant i <= |buf| && newlen + i == Room(buf[..i]) + |buf|
      decreases |buf| - i
    {
      assert buf[..i + 1] == buf[..i] + [buf[i]] && [buf[i]][1..] == [];
      RoomAppend(buf[..i], [buf[i]]);
      if IsSpecial(buf[i]) {
        newlen := newlen + |EscapeByte(buf[i])|;
      }
      i := i + 1;
    }
    assert buf[..i] == buf;
  }

  /** strescape: a new buffer is filled byte by byte, unless nothing is escaped. */
  method Strescape(buf: bytes) returns (r: bytes)
    ensures r == Escape(buf)
  {
    var newlen := EscapedRoom(buf);
    RoomEnough(buf);
    if newlen == |buf| {
      return buf;
    }
    var temp := new byte[newlen + 1];
    var i: nat, j: nat := 0, 0;
    assert buf[..0] == [] && temp[..0] == [] && buf[0..] == buf;
    while i < |buf|
      invariant i <= |buf| && temp.Length == newlen + 1 && j + |Escape(buf[i..])| == |Escape(buf)|
      invariant temp[..j] == Escape(buf[..i])
      decreases |buf| - i
    {
      assert buf[..i + 1] == buf[..i] + [buf[i]] && [buf[i]][1..] == [] && buf[i..][1..] == buf[i + 1..];
      EscapeAppend(buf[..i], [buf[i]]);
      j := Put(temp, j, EscapeByte(buf[i]));
      i := i + 1;
    }
    assert buf[..i] == buf;
    temp[j] := 0;
    r := temp[..j];
  }

  /** One round of strunescape. */
  method PutUnescaped(buf: bytes, i: nat, temp: array<byte>, j: nat, ghost junk: byte) returns (next: nat)
    requires i < |buf| && j < temp.Length && temp[j] == junk
    modifies temp
    ensures next == UnescapeByte(buf, i, junk).1
    ensures temp[..j + 1] == old(temp[..j]) + [UnescapeByte(buf, i, junk).0]
    ensures forall k :: j < k < temp.Length ==> temp[k] == old(temp[k])
  {
    next := i + 1;
    if buf[i] == AMP {
      var known := KnownAt(buf, i);
      if known.Ref? {
        temp[j] := known.b;
        next := i + known.len;
      }
    } else {
      temp[j] := buf[i];
    }
  }

  lemma UnescapeStep(done: bytes, s: bytes, i: nat, unset: bytes)
    requires i < |s| && |s| - i <= |unset|
    ensures
      var (b, next) := UnescapeByte(s, i, unset[0]);
      done + Unescape(s, i, unset) == done + [b] + Unescape(s, next, unset[1..])
  {
    var (b, next) := UnescapeByte(s, i, unset[0]);
    assert done + ([b] + Unescape(s, next, unset[1..])) == done + [b] + Unescape(s, next, unset[1..]);
  }

  /** strunescape, for a buffer `temp` with unknown contents. */
  method Strunescape(buf: bytes, temp: array<byte>) returns (j: nat)
    requires temp.Length == |buf| + 1
    modifies temp
    ensures j < temp.Length && temp[..j] == Unescape(buf, 0, old(temp[..])) && temp[j] == 0
  {
    ghost var unset := temp[..];
    var i: nat := 0;
    j := 0;
    assert temp[..0] + Unescape(buf, 0, unset) == Unescape(buf, 0, unset);
    while i < |buf|
      invariant j <= i <= |buf| && forall k :: j <= k < temp.Length ==> temp[k] == unset[k]
      invariant temp[..j] + Unescape(buf, i, unset[j..]) == Unescape(buf, 0, unset)
      decreases |buf| - i
    {
      UnescapeStep(temp[..j], buf, i, unset[j..]);
      assert unset[j..][1..] == unset[j + 1..];
      i := PutUnescaped(buf, i, temp, j, unset[j]);
      j := j + 1;
    }
    ghost var done := temp[..j];
    assert done + [] == done;
    temp[j] := 0;
    assert temp[..j] == done;
  }

  // ---------------------------------------------------------------- trees

  type Att = (bytes, bytes)

  /** xmlnode, as a value: elements with attributes and children, and text. */
  datatype Tree = Elem(name: bytes, atts: seq<Att>, kids: Trees) | Text(data: bytes)

  datatype Trees = None | Some(head: Tree, tail: Trees)

  /** An attribute, and those of a start tag. */
  function AttText(a: Att): bytes {
    a.0 + ([EQUALS, APOS] + (Escape(a.1) + [APOS]))
  }

  function PrintAtts(l: seq<Att>): bytes {
    if l == [] then [] else [SPACE] + (AttText(l[0]) + PrintAtts(l[1..]))
  }

  /** _xmlnode_tag2str with flag 1, 0 and 2. */
  function StartTag(name: bytes, atts: seq<Att>): bytes {
    [LT] + name + PrintAtts(atts) + [GT]
  }

  function EmptyTag(name: bytes, atts: seq<Att>): bytes {
    [LT] + name + PrintAtts(atts) + [SOL, GT]
  }

  function EndTag(name: bytes): bytes {
    [LT, SOL] + name + [GT]
  }

  /** The bytes of a C string: those before a NUL. */
  function CString(s: bytes): bytes {
    if s == [] || s[0] == 0 then [] else [s[0]] + CString(s[1..])
  }

  /** The text of a tree. */
  function Print(t: Tree): bytes
    decreases t
  {
    match t
    case Elem(name, atts, None) => EmptyTag(name, atts)
    case Elem(name, atts, kids) => StartTag(name, atts) + PrintAll(kids) + EndTag(name)
    case Text(data) => Escape(CString(data))
  }

  function PrintAll(l: Trees): bytes
    decreases l
  {
    match l
    case None => []
    case Some(head, tail) => Print(head) + PrintAll(tail)
  }
}
