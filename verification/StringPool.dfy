/** STRING_POOL of xmlnode/xmlparse.c: strings that are built at the end of a block, and stay where they are. */
module StringPool {
  import opened Bytes
  import T = TranscodeLaws

  const INIT_BLOCK_SIZE: nat := 1024

  /** A string that poolFinish has left in a block: where it is, and its bytes. */
  datatype Finished = Finished(block: array<byte>, from: nat, to: nat, text: bytes)

  predicate Distinct(l: seq<array<byte>>) {
    l != [] ==> l[0] !in l[1..] && Distinct(l[1..])
  }

  /** The two lists have no block in common, and none twice. */
  predicate Apart(l: seq<array<byte>>, free: seq<array<byte>>) {
    && Distinct(l) && Distinct(free) && (forall b :: b in l ==> b !in free)
    && (forall b :: b in l ==> b.Length > 0) && (forall b :: b in free ==> b.Length > 0)
  }

  /** A block at the front of a list. */
  lemma Pushed(b: array<byte>, l: seq<array<byte>>)
    requires Distinct(l) && b !in l
    ensures Distinct([b] + l) && forall c :: c in [b] + l <==> c == b || c in l
  {
    assert ([b] + l)[1..] == l;
  }

  /** The front block of a list. */
  lemma Popped(l: seq<array<byte>>)
    requires Distinct(l) && l != []
    ensures Distinct(l[1..]) && l[0] !in l[1..] && forall c :: c in l <==> c == l[0] || c in l[1..]
  {
    assert l == [l[0]] + l[1..];
  }

  function Reverse(l: seq<array<byte>>): (r: seq<array<byte>>)
    ensures |r| == |l| && forall i :: 0 <= i < |l| ==> r[i] == l[|l| - 1 - i]
  {
    if l == [] then [] else Reverse(l[1..]) + [l[0]]
  }

  /**
    The blocks in use, the newest first, and the free ones. The unfinished string is
    at start..ptr of the newest block; `finished` are the strings that are kept.
   */
  class Pool {
    var blocks: seq<array<byte>>
    var freeBlocks: seq<array<byte>>
    var start: nat
    var ptr: nat
    ghost var finished: seq<Finished>

    function Arrays(): set<array<byte>>
      reads this
    {
      (set b | b in blocks) + (set b | b in freeBlocks)
    }

    /** A string that is still at its place, outside the part of the newest block that is written. */
    ghost predicate Kept(f: Finished)
      reads this, f.block
    {
      && f.from < f.to <= f.block.Length && f.block[f.from..f.to] == f.text && f.block in blocks
      && (f.block == blocks[0] ==> f.to <= start)
    }

    ghost predicate Valid()
      reads this, Arrays(), set f | f in finished :: f.block
    {
      && Apart(blocks, freeBlocks)
      && (if blocks == [] then start == 0 && ptr == 0 else start <= ptr <= blocks[0].Length)
      && forall f :: f in finished ==> Kept(f)
    }

    function End(): nat
      reads this
    {
      if blocks == [] then 0 else blocks[0].Length
    }

    /** The unfinished string. */
    ghost function Current(): bytes
      requires Valid()
      reads this, Arrays(), set f | f in finished :: f.block
    {
      if blocks == [] then [] else blocks[0][start..ptr]
    }

    /** poolInit. */
    constructor ()
      ensures Valid() && Arrays() == {} && finished == [] && Current() == []
    {
      blocks, freeBlocks, start, ptr, finished := [], [], 0, 0, [];
    }

    /** poolClear: every block is free, the finished strings are given up. */
    method Clear()
      requires Valid()
      modifies this
      ensures Valid() && finished == [] && Current() == [] && blocks == []
      ensures freeBlocks == if old(freeBlocks) == [] then old(blocks) else Reverse(old(blocks)) + old(freeBlocks)
    {
      finished := [];
      if freeBlocks == [] {
        freeBlocks := blocks;
      } else {
        var p := blocks;
        while p != []
          invariant Reverse(p) + freeBlocks == Reverse(old(blocks)) + old(freeBlocks)
          invariant Apart(p, freeBlocks) && finished == []
          decreases |p|
        {
          Popped(p);
          Pushed(p[0], freeBlocks);
          assert Reverse(p) + freeBlocks == Reverse(p[1..]) + ([p[0]] + freeBlocks);
          freeBlocks := [p[0]] + freeBlocks;
          p := p[1..];
        }
        assert [] + freeBlocks == freeBlocks;
      }
      blocks, start, ptr := [], 0, 0;
    }

    /** poolGrow with a free block: the unfinished string goes there. */
    method TakeFree()
      requires Valid() && freeBlocks != [] && (blocks == [] || End() - start < freeBlocks[0].Length)
      modifies this, freeBlocks[0]
      ensures Valid() && Arrays() == old(Arrays()) && finished == old(finished)
      ensures Current() == old(Current()) && End() - ptr > old(End() - ptr)
    {
      Popped(freeBlocks);
      var b := freeBlocks[0];
      freeBlocks := freeBlocks[1..];
      if blocks != [] {
        var was := blocks[0];
        forall i | 0 <= i < was.Length - start {
          b[i] := was[start + i];
        }
      }
      Pushed(b, blocks);
      blocks := [b] + blocks;
      ptr, start := ptr - start, 0;
    }

    /** poolGrow where the unfinished string has its block for itself: that is reallocated. */
    method Enlarge()
      requires Valid() && blocks != [] && start == 0
      modifies this
      ensures Valid() && fresh(Arrays() - old(Arrays())) && finished == old(finished)
      ensures Current() == old(Current()) && End() - ptr > old(End() - ptr)
    {
      var was := blocks[0];
      var b := new byte[2 * was.Length];
      forall i | 0 <= i < was.Length {
        b[i] := was[i];
      }
      Popped(blocks);
      Pushed(b, blocks[1..]);
      blocks := [b] + blocks[1..];
    }

    /** poolGrow with a new block. */
    method AddBlock()
      requires Valid()
      modifies this
      ensures Valid() && fresh(Arrays() - old(Arrays())) && finished == old(finished)
      ensures Current() == old(Current()) && End() - ptr > old(End() - ptr)
    {
      var size := End() - start;
      var b := new byte[if size < INIT_BLOCK_SIZE then INIT_BLOCK_SIZE else 2 * size];
      if blocks != [] {
        var was := blocks[0];
        forall i | 0 <= i < ptr - start {
          b[i] := was[start + i];
        }
      }
      Pushed(b, blocks);
      blocks := [b] + blocks;
      ptr, start := ptr - start, 0;
    }

    /** poolGrow: there is more room, and every string is as it was. */
    method Grow()
      requires Valid()
      modifies this, Arrays()
      ensures Valid() && fresh(Arrays() - old(Arrays())) && finished == old(finished)
      ensures Current() == old(Current()) && End() - ptr > old(End() - ptr)
    {
      if freeBlocks != [] && (blocks == [] || End() - start < freeBlocks[0].Length) {
        TakeFree();
      } else if blocks != [] && start == 0 {
        Enlarge();
      } else {
        AddBlock();
      }
    }

    /** A byte at the end of the unfinished string, where there is room. */
    method PutChar(c: byte)
      requires Valid() && blocks != [] && ptr < End()
      modifies this`ptr, blocks[0]
      ensures Valid() && Current() == old(Current()) + [c] && ptr == old(ptr) + 1
    {
      blocks[0][ptr] := c;
      ptr := ptr + 1;
    }

    /** poolAppendChar. */
    method AppendChar(c: byte)
      requires Valid()
      modifies this, Arrays()
      ensures Valid() && fresh(Arrays() - old(Arrays())) && finished == old(finished)
      ensures Current() == old(Current()) + [c] && blocks != []
    {
      if ptr == End() {
        Grow();
      }
      PutChar(c);
    }

    /** poolFinish: the string keeps its place. */
    method Finish() returns (ghost f: Finished)
      requires Valid() && blocks != []
      modifies this
      ensures Valid() && Current() == [] && blocks == old(blocks) && freeBlocks == old(freeBlocks)
      ensures f == Finished(blocks[0], old(start), ptr, old(Current()))
      ensures finished == if f.text == [] then old(finished) else old(finished) + [f]
    {
      f := Finished(blocks[0], start, ptr, Current());
      if ptr > start {
        finished := finished + [f];
      }
      start := ptr;
    }

    /** poolDiscard. */
    method Discard()
      requires Valid()
      modifies this`ptr
      ensures Valid() && Current() == []
    {
      ptr := start;
    }

    /** poolChop, for a string that is not empty. */
    method Chop()
      requires Valid() && Current() != []
      modifies this`ptr
      ensures Valid() && Current() == old(Current()[..|Current()| - 1])
    {
      ptr := ptr - 1;
    }

    /** How far utf8_toUtf8 goes. */
    method ConvertTo(s: bytes, from0: nat) returns (fromLim: nat)
      requires Valid() && blocks != [] && from0 <= |s|
      ensures fromLim == T.CopyEnd(s, from0, End() - ptr)
    {
      fromLim := |s|;
      if |s| - from0 > End() - ptr {
        fromLim := from0 + (End() - ptr);
        while fromLim > from0 && 0x80 <= s[fromLim - 1] < 0xC0
          invariant from0 <= fromLim <= from0 + (End() - ptr)
          invariant T.Back(s, from0, fromLim) == T.Back(s, from0, from0 + (End() - ptr))
        {
          fromLim := fromLim - 1;
        }
      }
    }

    /** XmlConvert, as utf8_toUtf8 does it. */
    method Convert(s: bytes, from0: nat) returns (from: nat)
      requires Valid() && blocks != [] && from0 <= |s|
      modifies this`ptr, blocks[0]
      ensures Valid() && from == T.CopyEnd(s, from0, old(End() - ptr)) && Current() == old(Current()) + s[from0..from]
      ensures ptr == old(ptr) + (from - from0)
      ensures |s| - from0 <= old(End() - ptr) ==> from == |s|
    {
      var fromLim := ConvertTo(s, from0);
      ghost var was := Current();
      from := from0;
      assert s[from0..from0] == [] && was + [] == was;
      while from != fromLim
        invariant from0 <= from <= fromLim && Valid() && ptr == old(ptr) + (from - from0)
        invariant Current() == was + s[from0..from]
        decreases fromLim - from
      {
        NextByte(was, s, from0, from);
        PutChar(s[from]);
        from := from + 1;
      }
    }

    /** A round of the loop of poolAppend; unless all is copied then, there is more room. */
    method AppendPart(s: bytes, from: nat) returns (next: nat)
      requires Valid() && blocks != [] && from <= |s|
      modifies this, Arrays()
      ensures Valid() && fresh(Arrays() - old(Arrays())) && finished == old(finished) && blocks != []
      ensures from <= next <= |s| && Current() == old(Current()) + s[from..next]
      ensures next != |s| ==> |s| - next - (End() - ptr) < |s| - from - old(End() - ptr)
      ensures next != |s| ==> |s| - from > old(End() - ptr)
    {
      next := Convert(s, from);
      if next != |s| {
        Grow();
      }
    }

    /** poolAppend. */
    method Append(s: bytes)
      requires Valid()
      modifies this, Arrays()
      ensures Valid() && fresh(Arrays() - old(Arrays())) && finished == old(finished)
      ensures Current() == old(Current()) + s && blocks != []
    {
      if blocks == [] {
        Grow();
      }
      ghost var was := Current();
      var from := 0;
      assert was + s[..0] == was;
      while true
        invariant Valid() && fresh(Arrays() - old(Arrays())) && finished == old(finished) && blocks != []
        invariant from <= |s| && Current() == was + s[..from]
        decreases if |s| - from > End() - ptr then |s| - from - (End() - ptr) else 0
      {
        var next := AppendPart(s, from);
        NextPart(was, s, from, next);
        from := next;
        if from == |s| {
          assert s[..from] == s;
          break;
        }
      }
    }

    /** poolStoreString: the bytes and a NUL. */
    method StoreString(s: bytes)
      requires Valid()
      modifies this, Arrays()
      ensures Valid() && fresh(Arrays() - old(Arrays())) && finished == old(finished)
      ensures Current() == old(Current()) + s + [0] && blocks != []
    {
      Append(s);
      if ptr == End() {
        Grow();
      }
      PutChar(0);
    }

    /** The loop of poolCopyString: the bytes of a C string, with its NUL. */
    method AppendCString(s: bytes)
      requires Valid() && 0 !in s
      modifies this, Arrays()
      ensures Valid() && fresh(Arrays() - old(Arrays())) && finished == old(finished) && blocks != []
      ensures Current() == old(Current()) + s + [0]
    {
      var n := 0;
      ghost var was := Current();
      assert was + s[..0] == was;
      while true
        invariant Valid() && fresh(Arrays() - old(Arrays())) && finished == old(finished)
        invariant n <= |s| && Current() == was + s[..n]
        decreases |s| - n
      {
        var c := if n < |s| then s[n] else 0;
        AppendChar(c);
        if c == 0 {
          assert s[..n] == s;
          return;
        }
        OneMore(was, s, n);
        n := n + 1;
      }
    }

    /** poolCopyString: the C string of the bytes `s` is appended, with its NUL, and finished. */
    method CopyString(s: bytes) returns (ghost f: Finished)
      requires Valid() && 0 !in s
      modifies this, Arrays()
      ensures Valid() && fresh(Arrays() - old(Arrays())) && Current() == []
      ensures f.text == old(Current()) + s + [0] && finished == old(finished) + [f]
    {
      AppendCString(s);
      f := Finish();
    }

    /** poolCopyStringN: `n` bytes, without a NUL. */
    method CopyStringN(s: bytes, n: nat) returns (ghost f: Finished)
      requires Valid() && n <= |s|
      modifies this, Arrays()
      ensures Valid() && fresh(Arrays() - old(Arrays())) && Current() == []
      ensures f.text == old(Current()) + s[..n]
      ensures finished == if f.text == [] then old(finished) else old(finished) + [f]
    {
      if blocks == [] {
        Grow();
      }
      ghost var was := Current();
      assert was + s[..0] == was;
      for i := 0 to n
        invariant Valid() && fresh(Arrays() - old(Arrays())) && finished == old(finished) && blocks != []
        invariant Current() == was + s[..i]
      {
        AppendChar(s[i]);
        OneMore(was, s, i);
      }
      f := Finish();
    }
  }

  lemma OneMore(a: bytes, s: bytes, n: nat)
    requires n < |s|
    ensures a + s[..n] + [s[n]] == a + s[..n + 1]
  {
    assert s[..n] + [s[n]] == s[..n + 1];
  }

  lemma NextByte(a: bytes, s: bytes, i: nat, n: nat)
    requires i <= n < |s|
    ensures a + s[i..n] + [s[n]] == a + s[i..n + 1]
  {
    assert s[i..n] + [s[n]] == s[i..n + 1];
  }

  lemma NextPart(a: bytes, s: bytes, i: nat, n: nat)
    requires i <= n <= |s|
    ensures a + s[..i] + s[i..n] == a + s[..n]
  {
    assert s[..i] + s[i..n] == s[..n];
  }
}
