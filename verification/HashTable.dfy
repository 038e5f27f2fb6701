/**
  xmlnode/hashtable.c: an open-addressing table of entries with names, probed
  downwards around the end, which doubles when it is half full.
 */
module HashTable {
  import opened Bytes

  const INIT_SIZE := 64
  const ULONG := 0x1_0000_0000_0000_0000

  /** hash, from the hash `h` of the bytes before; `unsigned long` has 64 bits. */
  function Hash(s: bytes, h: nat): nat
    decreases |s|
  {
    if s == [] then h else Hash(s[1..], (h * 32 + h + s[0]) % ULONG)
  }

  function Power(n: nat): nat {
    if n == 0 then 1 else 33 * Power(n - 1)
  }

  /** The bytes of a name as the digits of a number to the base 33. */
  function Digits(s: bytes): nat {
    if s == [] then 0 else s[0] * Power(|s| - 1) + Digits(s[1..])
  }

  /** A remainder may be taken before a number is multiplied and added to. */
  lemma Modulo(a: nat, k: nat, b: nat, m: nat)
    requires m > 0
    ensures (a % m * k + b) % m == (a * k + b) % m
  {
    var q, r := a / m, a % m;
    assert a * k == q * k * m + r * k by {
      assert a == q * m + r;
    }
    SameRemainder(a * k + b, r * k + b, q * k, m);
  }

  lemma SameRemainder(x: nat, y: nat, n: nat, m: nat)
    requires m > 0 && x == y + n * m
    ensures x % m == y % m
  {
    var q := x / m - y / m;
    assert x == m * (x / m) + x % m && y == m * (y / m) + y % m;
    assert (q - n) * m == y % m - x % m;
    Small(q - n, m);
  }

  lemma Small(k: int, m: int)
    requires -m < k * m < m
    ensures k == 0
  {
  }

  /** The hash is that number, as far as it fits. */
  lemma {:induction false} HashIs(s: bytes, h: nat)
    requires h < ULONG
    ensures Hash(s, h) == (h * Power(|s|) + Digits(s)) % ULONG
    decreases |s|
  {
    if s != [] {
      var p := Power(|s| - 1);
      HashIs(s[1..], (h * 32 + h + s[0]) % ULONG);
      Modulo(h * 33 + s[0], p, Digits(s[1..]), ULONG);
      assert (h * 33 + s[0]) * p == h * (33 * p) + s[0] * p;
    }
  }

  lemma SizeDoubles(n: nat)
    requires IsSize(n)
    ensures IsSize(2 * n) && n >= INIT_SIZE
  {
    assert 2 * n / 2 == n;
  }

  class Named {
    const name: bytes

    constructor (name: bytes)
      ensures this.name == name
    {
      this.name := name;
    }
  }

  type Slots = seq<Named?>

  /** The sizes of a table: 64 and its doubles, for which the mask `size - 1` takes the remainder. */
  predicate IsSize(n: nat) {
    n == INIT_SIZE || (n > INIT_SIZE && n % 2 == 0 && IsSize(n / 2))
  }

  // ---------------------------------------------------------------- probing

  /** The slot that `d` steps of `i == 0 ? i = size - 1 : --i` lead to from `h`. */
  function SlotAt(h: nat, d: nat, size: nat): (i: nat)
    requires h < size && d < size
    ensures i < size
  {
    if d <= h then h - d else h + size - d
  }

  /** The number of steps from `h` to `i`. */
  function Distance(h: nat, i: nat, size: nat): (d: nat)
    requires h < size && i < size
    ensures d < size && SlotAt(h, d, size) == i
  {
    if i <= h then h - i else h + size - i
  }

  lemma DistanceOfSlot(h: nat, d: nat, size: nat)
    requires h < size && d < size
    ensures Distance(h, SlotAt(h, d, size), size) == d
  {
  }

  function Home(name: bytes, size: nat): (h: nat)
    requires size > 0
    ensures h < size
  {
    Hash(name, 0) % size
  }

  /** No gap on the way from the home slot of `name` to the one `d` steps from it. */
  ghost predicate NoGap(v: Slots, name: bytes, d: nat)
    requires d <= |v|
  {
    |v| > 0 && forall k :: 0 <= k < d ==> v[SlotAt(Home(name, |v|), k, |v|)] != null
  }

  /** Every entry can be reached from its home slot, and no two have the same name. */
  ghost predicate Reachable(v: Slots) {
    && (forall i :: 0 <= i < |v| && v[i] != null ==> NoGap(v, v[i].name, Distance(Home(v[i].name, |v|), i, |v|)))
    && forall i, j :: 0 <= i < j < |v| && v[i] != null && v[j] != null ==> v[i].name != v[j].name
  }

  ghost function Entries(v: Slots): set<Named> {
    set i | 0 <= i < |v| && v[i] != null :: v[i] as Named
  }

  function Count(v: Slots): nat {
    if v == [] then 0 else Count(v[1..]) + if v[0] != null then 1 else 0
  }

  lemma {:induction false} FreeSlot(v: Slots) returns (i: nat)
    requires Count(v) < |v|
    ensures i < |v| && v[i] == null
    decreases |v|
  {
    if v[0] == null {
      i := 0;
    } else {
      i := FreeSlot(v[1..]);
      i := i + 1;
    }
  }

  lemma {:induction false} CountFilled(v: Slots, i: nat, e: Named)
    requires i < |v| && v[i] == null
    ensures Count(v[i := e]) == Count(v) + 1
    decreases |v|
  {
    if i == 0 {
      assert v[i := e][1..] == v[1..];
    } else {
      assert v[i := e][1..] == v[1..][i - 1 := e];
      CountFilled(v[1..], i - 1, e);
    }
  }

  /** An entry with the name is found on the way to the first free slot. */
  lemma NotThere(v: Slots, name: bytes, d: nat)
    requires Reachable(v) && d < |v| && NoGap(v, name, d) && v[SlotAt(Home(name, |v|), d, |v|)] == null
    requires forall k :: 0 <= k < d ==> v[SlotAt(Home(name, |v|), k, |v|)].name != name
    ensures forall e :: e in Entries(v) ==> e.name != name
  {
    forall i | 0 <= i < |v| && v[i] != null ensures v[i].name != name {
      var k := Distance(Home(v[i].name, |v|), i, |v|);
      assert NoGap(v, v[i].name, k);
    }
  }

  /** A new entry in the first free slot keeps every entry reachable. */
  lemma Filled(v: Slots, e: Named, d: nat)
    requires Reachable(v) && d < |v| && NoGap(v, e.name, d) && v[SlotAt(Home(e.name, |v|), d, |v|)] == null
    requires forall x :: x in Entries(v) ==> x.name != e.name
    ensures
      var v' := v[SlotAt(Home(e.name, |v|), d, |v|) := e];
      Reachable(v') && Entries(v') == Entries(v) + {e}
  {
    var at := SlotAt(Home(e.name, |v|), d, |v|);
    var v' := v[at := e];
    DistanceOfSlot(Home(e.name, |v|), d, |v|);
    forall i | 0 <= i < |v| && v'[i] != null
      ensures NoGap(v', v'[i].name, Distance(Home(v'[i].name, |v|), i, |v|))
    {
      if i != at {
        assert NoGap(v, v[i].name, Distance(Home(v[i].name, |v|), i, |v|));
      }
    }
    forall i | 0 <= i < |v| && i != at && v[i] != null ensures v[i].name != e.name {
      assert v[i] in Entries(v);
    }
    EntriesFilled(v, at, e);
  }

  lemma EntriesFilled(v: Slots, at: nat, e: Named)
    requires at < |v| && v[at] == null
    ensures Entries(v[at := e]) == Entries(v) + {e}
  {
    var v' := v[at := e];
    assert v'[at] == e;
    forall x | x in Entries(v) ensures x in Entries(v') {
      var i :| 0 <= i < |v| && v[i] == x;
      assert v'[i] == x;
    }
  }

  lemma {:induction false} CountEmpty(v: Slots)
    requires forall i :: 0 <= i < |v| ==> v[i] == null
    ensures Count(v) == 0 && Entries(v) == {}
    decreases |v|
  {
    if v != [] {
      CountEmpty(v[1..]);
    }
  }

  lemma {:induction false} CountPrefix(v: Slots, i: nat)
    requires i < |v|
    ensures Count(v[..i + 1]) == Count(v[..i]) + if v[i] != null then 1 else 0
    ensures Entries(v[..i + 1]) == Entries(v[..i]) + if v[i] != null then {v[i] as Named} else {}
    ensures Count(v[..i]) <= Count(v)
    decreases |v|
  {
    CountAppend(v[..i], v[i]);
    EntriesAppend(v[..i], v[i]);
    assert v[..i + 1] == v[..i] + [v[i]];
    CountConcat(v[..i], v[i..]);
    assert v == v[..i] + v[i..];
  }

  lemma {:induction false} CountConcat(a: Slots, b: Slots)
    ensures Count(a + b) == Count(a) + Count(b)
    decreases |a|
  {
    if a == [] {
      assert a + b == b;
    } else {
      assert (a + b)[1..] == a[1..] + b;
      CountConcat(a[1..], b);
    }
  }

  lemma CountAppend(a: Slots, x: Named?)
    ensures Count(a + [x]) == Count(a) + if x != null then 1 else 0
  {
    CountConcat(a, [x]);
  }

  lemma EntriesAppend(a: Slots, x: Named?)
    ensures Entries(a + [x]) == Entries(a) + if x != null then {x as Named} else {}
  {
    var b := a + [x];
    assert b[|a|] == x;
    forall e | e in Entries(a) ensures e in Entries(b) {
      var i :| 0 <= i < |a| && a[i] == e;
      assert b[i] == e;
    }
  }

  // ---------------------------------------------------------------- the table

  class Table {
    var v: array<Named?>
    var used: nat
    var usedLim: nat

    ghost predicate Valid()
      reads this, v
    {
      && Reachable(v[..]) && used == Count(v[..]) && used <= usedLim
      && (v.Length == 0 ==> usedLim == 0)
      && (v.Length > 0 ==> IsSize(v.Length) && usedLim == v.Length / 2)
    }

    ghost function Contents(): set<Named>
      reads this, v
    {
      Entries(v[..])
    }

    /** hashTableInit. */
    constructor ()
      ensures Valid() && Contents() == {} && fresh(v)
    {
      v := new Named?[0];
      used, usedLim := 0, 0;
    }

    /** The first free slot on the way from the home of `name`: it exists, because the table is never full. */
    static method FirstFree(w: array<Named?>, name: bytes) returns (j: nat, ghost d: nat)
      requires w.Length > 0 && Count(w[..]) < w.Length
      ensures d < w.Length && j == SlotAt(Home(name, w.Length), d, w.Length) && w[j] == null && NoGap(w[..], name, d)
    {
      ghost var free := FreeSlot(w[..]);
      ghost var h := Home(name, w.Length);
      j, d := Hash(name, 0) % w.Length, 0;
      while w[j] != null
        invariant d <= Distance(h, free, w.Length) && j == SlotAt(h, d, w.Length) && NoGap(w[..], name, d)
        decreases Distance(h, free, w.Length) - d
      {
        j := if j == 0 then w.Length - 1 else j - 1;
        d := d + 1;
      }
    }

    /** The loop of lookup: the entry with the name, or the free slot where it would be. */
    method Search(name: bytes) returns (found: Named?, i: nat, ghost d: nat)
      requires Valid() && v.Length > 0
      ensures found != null ==> found in Contents() && found.name == name
      ensures
        found == null ==>
          && (forall e :: e in Contents() ==> e.name != name)
          && d < v.Length && i == SlotAt(Home(name, v.Length), d, v.Length) && v[i] == null && NoGap(v[..], name, d)
    {
      ghost var free := FreeSlot(v[..]);
      ghost var h := Home(name, v.Length);
      i, d := Hash(name, 0) % v.Length, 0;
      while v[i] != null
        invariant d <= Distance(h, free, v.Length) && i == SlotAt(h, d, v.Length) && NoGap(v[..], name, d)
        invariant forall k :: 0 <= k < d ==> v[..][SlotAt(h, k, v.Length)].name != name
        decreases Distance(h, free, v.Length) - d
      {
        if v[i].name == name {
          assert v[..][i] == v[i];
          return v[i], i, d;
        }
        i := if i == 0 then v.Length - 1 else i - 1;
        d := d + 1;
      }
      found := null;
      NotThere(v[..], name, d);
    }

    /** The table becomes twice as large. */
    method Grow()
      requires Valid() && v.Length > 0 && used == usedLim
      modifies this`v, this`usedLim
      ensures Valid() && Contents() == old(Contents()) && used < usedLim && v.Length == 2 * old(v.Length) && fresh(v)
    {
      SizeDoubles(v.Length);
      v := Rehash(2 * v.Length);
      usedLim := v.Length / 2;
    }

    /** The loops that move every entry to a new table. */
    method Rehash(size: nat) returns (newV: array<Named?>)
      requires Reachable(v[..]) && Count(v[..]) < size
      ensures fresh(newV) && newV.Length == size
      ensures Reachable(newV[..]) && Count(newV[..]) == Count(v[..]) && Entries(newV[..]) == Entries(v[..])
    {
      newV := new Named?[size](_ => null);
      CountEmpty(newV[..]);
      ghost var s := v[..];
      assert s[..0] == [] && Entries([]) == {};
      var i := 0;
      while i < v.Length
        invariant i <= v.Length && s == v[..] && newV.Length == size && newV != v
        invariant Reachable(newV[..]) && Count(newV[..]) == Count(s[..i]) && Entries(newV[..]) == Entries(s[..i])
        decreases v.Length - i
      {
        CountPrefix(s, i);
        if v[i] != null {
          MoveEntry(newV, v[i], s, i);
        }
        i := i + 1;
      }
      assert s[..i] == s;
    }

    /** One entry goes to its place in the new table. */
    static method MoveEntry(newV: array<Named?>, e: Named, ghost s: Slots, ghost i: nat)
      requires Reachable(s) && i < |s| && s[i] == e && Count(s) < newV.Length
      requires Reachable(newV[..]) && Count(newV[..]) == Count(s[..i]) && Entries(newV[..]) == Entries(s[..i])
      modifies newV
      ensures Reachable(newV[..]) && Entries(newV[..]) == Entries(s[..i]) + {e} && Count(newV[..]) == Count(s[..i]) + 1
    {
      CountPrefix(s, i);
      ghost var w := newV[..];
      var j;
      ghost var d;
      j, d := FirstFree(newV, e.name);
      forall x | x in Entries(s[..i]) ensures x.name != e.name {
        var k :| 0 <= k < i && s[..i][k] == x;
        assert s[k] == x;
      }
      Filled(w, e, d);
      CountFilled(w, j, e);
      newV[j] := e;
      assert newV[..] == w[j := e];
    }

    /** A new entry in the free slot `i`, which is `d` steps from its home. */
    method Insert(name: bytes, i: nat, ghost d: nat) returns (e: Named)
      requires Valid() && v.Length > 0 && used < usedLim && (forall x :: x in Contents() ==> x.name != name)
      requires d < v.Length && i == SlotAt(Home(name, v.Length), d, v.Length) && v[i] == null && NoGap(v[..], name, d)
      modifies this`used, v
      ensures Valid() && fresh(e) && e.name == name && Contents() == old(Contents()) + {e}
    {
      e := new Named(name);
      ghost var w := v[..];
      Filled(w, e, d);
      CountFilled(w, i, e);
      v[i] := e;
      assert v[..] == w[i := e];
      used := used + 1;
    }

    /**
      lookup: the entry with the name; if there is none and `create`, a new one.
      The table is a finite map from names to entries.
     */
    method Lookup(name: bytes, create: bool) returns (e: Named?)
      requires Valid()
      modifies this, v
      ensures Valid() && (v == old(v) || fresh(v))
      ensures
        (exists x :: x in old(Contents()) && x.name == name) ==>
          e in old(Contents()) && e != null && e.name == name
      ensures
        (exists x :: x in old(Contents()) && x.name == name) || !create ==> Contents() == old(Contents())
      ensures
        (forall x :: x in old(Contents()) ==> x.name != name) ==>
          if create then e != null && fresh(e) && e.name == name && Contents() == old(Contents()) + {e} else e == null
    {
      var i: nat := 0;
      ghost var d: nat := 0;
      if v.Length == 0 {
        assert Contents() == {};
        if !create { return null; }
        v := new Named?[INIT_SIZE](_ => null);
        usedLim := INIT_SIZE / 2;
        CountEmpty(v[..]);
        i := Hash(name, 0) % v.Length;
      } else {
        e, i, d := Search(name);
        if e != null || !create { return; }
        if used == usedLim {
          Grow();
          CountLess();
          i, d := FirstFree(v, name);
        }
      }
      e := Insert(name, i, d);
    }

    /** A table that is at most half full has free slots. */
    lemma CountLess()
      requires Valid() && v.Length > 0
      ensures Count(v[..]) < v.Length
    {
    }
  }
}
