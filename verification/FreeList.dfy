/** user/umalloc.c: the free list as a value.  Addresses and sizes are in units of one header
    (16 bytes).  The list is written from the base header on, in address order; the last block
    points back to the base, the single wrap of the ring. */
module FreeList {
  datatype Block = Block(addr: nat, size: nat)

  predicate Before(a: Block, b: Block) { a.addr + a.size < b.addr }

  /** Blocks in address order, no two of which touch; only the base, the first, is empty. */
  ghost predicate Ordered(fl: seq<Block>) {
    && |fl| >= 1 && fl[0].size == 0
    && (forall i :: 1 <= i < |fl| ==> fl[i].size > 0)
    && (forall i, j :: 0 <= i < j < |fl| ==> Before(fl[i], fl[j]))
  }

  function Sum(s: seq<Block>, n: nat): nat
    requires n <= |s|
  {
    if n == 0 then 0 else Sum(s, n - 1) + s[n - 1].size
  }

  function Units(s: seq<Block>): nat { Sum(s, |s|) }

  lemma {:induction false} SumSame(s: seq<Block>, t: seq<Block>, n: nat)
    requires n <= |s| && n <= |t| && forall i :: 0 <= i < n ==> s[i] == t[i]
    ensures Sum(s, n) == Sum(t, n)
  {
    if n > 0 { SumSame(s, t, n - 1); }
  }

  lemma {:induction false} SumCat(a: seq<Block>, b: seq<Block>, n: nat)
    requires n <= |b|
    ensures Sum(a + b, |a| + n) == Units(a) + Sum(b, n)
  {
    if n == 0 { SumSame(a + b, a, |a|); } else { SumCat(a, b, n - 1); }
  }

  lemma UnitsCat(a: seq<Block>, b: seq<Block>)
    ensures Units(a + b) == Units(a) + Units(b)
  {
    SumCat(a, b, |b|);
  }

  lemma UnitsOne(b: Block)
    ensures Units([b]) == b.size
  {
    assert Sum([b], 1) == Sum([b], 0) + b.size;
  }

  lemma UnitsThree(a: seq<Block>, m: Block, c: seq<Block>)
    ensures Units(a + [m] + c) == Units(a) + m.size + Units(c)
  {
    UnitsCat(a + [m], c);
    UnitsCat(a, [m]);
    UnitsOne(m);
  }

  lemma UnitsSplit(s: seq<Block>, i: nat)
    requires i < |s|
    ensures Units(s) == Units(s[..i]) + s[i].size + Units(s[i + 1..])
  {
    assert s == s[..i] + [s[i]] + s[i + 1..];
    UnitsThree(s[..i], s[i], s[i + 1..]);
  }

  predicate Apart(a: Block, b: Block) { a.addr + a.size <= b.addr || b.addr + b.size <= a.addr }

  // ----- free -----

  /** b goes between blocks j and j+1. */
  predicate Fits(fl: seq<Block>, j: nat, b: Block) {
    j < |fl| && fl[j].addr < b.addr && (j + 1 < |fl| ==> b.addr < fl[j + 1].addr)
  }

  predicate TouchesRight(fl: seq<Block>, j: nat, b: Block) { j + 1 < |fl| && b.addr + b.size == fl[j + 1].addr }
  predicate TouchesLeft(fl: seq<Block>, j: nat, b: Block) { j < |fl| && fl[j].addr + fl[j].size == b.addr }

  function Right(fl: seq<Block>, j: nat, b: Block): seq<Block>
    requires j < |fl|
  {
    if TouchesRight(fl, j, b) then [Block(b.addr, b.size + fl[j + 1].size)] + fl[j + 2..] else [b] + fl[j + 1..]
  }

  /** Insert b after block j, joining it with neighbours it touches. */
  function Insert(fl: seq<Block>, j: nat, b: Block): seq<Block>
    requires j < |fl|
  {
    var r := Right(fl, j, b);
    if TouchesLeft(fl, j, b) then fl[..j] + [Block(fl[j].addr, fl[j].size + r[0].size)] + r[1..]
    else fl[..j + 1] + r
  }

  /** b lies clear of every free block. */
  ghost predicate Clear(fl: seq<Block>, b: Block) {
    b.size > 0 && forall i :: 0 <= i < |fl| ==> Apart(fl[i], b)
  }

  lemma RightOrdered(fl: seq<Block>, j: nat, b: Block)
    requires Ordered(fl) && Fits(fl, j, b) && Clear(fl, b)
    ensures var r := Right(fl, j, b);
      && r[0].addr == b.addr && r[0].size >= b.size
      && (forall i :: 0 <= i < |r| ==> r[i].size > 0)
      && (forall i, k :: 0 <= i < k < |r| ==> Before(r[i], r[k]))
      && (forall i, k :: 0 <= i < j && 0 <= k < |r| ==> Before(fl[i], r[k]))
      && (forall k :: 0 <= k < |r| ==> fl[j].addr + fl[j].size <= r[k].addr && (k > 0 ==> Before(fl[j], r[k])))
  {
    var r := Right(fl, j, b);
    assert Apart(fl[j], b);
    if j + 1 < |fl| { assert Apart(fl[j + 1], b); }
    forall k | 0 <= k < |r| ensures k > 0 ==> r[k] == fl[j + 1 + k - (if TouchesRight(fl, j, b) then 0 else 1)] { }
  }

  lemma InsertOrdered(fl: seq<Block>, j: nat, b: Block)
    requires Ordered(fl) && Fits(fl, j, b) && Clear(fl, b)
    ensures Ordered(Insert(fl, j, b)) && Insert(fl, j, b)[0] == fl[0]
  {
    RightOrdered(fl, j, b);
  }

  /** Coalescing loses no units. */
  lemma InsertUnits(fl: seq<Block>, j: nat, b: Block)
    requires j < |fl|
    ensures Units(Insert(fl, j, b)) == Units(fl) + b.size
  {
    var r := Right(fl, j, b);
    RightUnits(fl, j, b);
    UnitsSplit(fl, j);
    if TouchesLeft(fl, j, b) { JoinUnits(fl, j, r); } else { AfterUnits(fl, j, r); }
  }

  lemma JoinUnits(fl: seq<Block>, j: nat, r: seq<Block>)
    requires j < |fl| && |r| > 0
    ensures Units(fl[..j] + [Block(fl[j].addr, fl[j].size + r[0].size)] + r[1..]) ==
      Units(fl[..j]) + fl[j].size + Units(r)
  {
    UnitsThree(fl[..j], Block(fl[j].addr, fl[j].size + r[0].size), r[1..]);
    UnitsSplit(r, 0);
    assert r[..0] == [];
  }

  lemma AfterUnits(fl: seq<Block>, j: nat, r: seq<Block>)
    requires j < |fl|
    ensures Units(fl[..j + 1] + r) == Units(fl[..j]) + fl[j].size + Units(r)
  {
    UnitsThree(fl[..j], fl[j], r);
    assert fl[..j + 1] == fl[..j] + [fl[j]];
  }

  lemma RightUnits(fl: seq<Block>, j: nat, b: Block)
    requires j < |fl|
    ensures Units(Right(fl, j, b)) == b.size + Units(fl[j + 1..])
  {
    var rest := fl[j + 1..];
    if TouchesRight(fl, j, b) {
      var m := Block(b.addr, b.size + fl[j + 1].size);
      UnitsCat([m], fl[j + 2..]);
      UnitsOne(m);
      UnitsSplit(rest, 0);
      assert rest[1..] == fl[j + 2..] && rest[..0] == [];
    } else {
      UnitsCat([b], rest);
      UnitsOne(b);
    }
  }

  /** Whatever lies clear of the list and of b lies clear of the result. */
  lemma InsertClear(fl: seq<Block>, j: nat, b: Block, x: Block)
    requires Ordered(fl) && Fits(fl, j, b) && Clear(fl, b) && Clear(fl, x) && Apart(b, x)
    ensures Clear(Insert(fl, j, b), x)
  {
    assert Apart(fl[j], b) && Apart(fl[j], x);
    if j + 1 < |fl| { assert Apart(fl[j + 1], b) && Apart(fl[j + 1], x); }
    var r := Right(fl, j, b);
    RightClear(fl, j, b, x);
  }

  lemma RightClear(fl: seq<Block>, j: nat, b: Block, x: Block)
    requires Ordered(fl) && Fits(fl, j, b) && Clear(fl, b) && Clear(fl, x) && Apart(b, x)
    ensures forall k :: 0 <= k < |Right(fl, j, b)| ==> Apart(Right(fl, j, b)[k], x)
  {
    if j + 1 < |fl| { assert Apart(fl[j + 1], b) && Apart(fl[j + 1], x); }
    var r := Right(fl, j, b);
    forall k | 0 <= k < |r| ensures Apart(r[k], x) {
      if k > 0 { assert r[k] == fl[j + 1 + k - (if TouchesRight(fl, j, b) then 0 else 1)]; }
    }
  }

  // ----- malloc -----

  /** The block malloc cuts from the end of block i. */
  function Cut(fl: seq<Block>, i: nat, n: nat): Block
    requires i < |fl| && n <= fl[i].size
  {
    Block(fl[i].addr + fl[i].size - n, n)
  }

  /** The list after n units are taken from block i. */
  function Take(fl: seq<Block>, i: nat, n: nat): seq<Block>
    requires i < |fl| && n <= fl[i].size
  {
    if fl[i].size == n then fl[..i] + fl[i + 1..] else fl[i := Block(fl[i].addr, fl[i].size - n)]
  }

  lemma TakeOrdered(fl: seq<Block>, i: nat, n: nat)
    requires Ordered(fl) && 0 < i < |fl| && 0 < n <= fl[i].size
    ensures Ordered(Take(fl, i, n)) && Take(fl, i, n)[0] == fl[0]
  {
  }

  lemma TakeUnits(fl: seq<Block>, i: nat, n: nat)
    requires i < |fl| && n <= fl[i].size
    ensures Units(Take(fl, i, n)) + n == Units(fl)
  {
    UnitsSplit(fl, i);
    if fl[i].size == n {
      UnitsCat(fl[..i], fl[i + 1..]);
    } else {
      var t := fl[i := Block(fl[i].addr, fl[i].size - n)];
      UnitsSplit(t, i);
      assert t[..i] == fl[..i] && t[i + 1..] == fl[i + 1..];
    }
  }

  /** The block cut off lies clear of what remains. */
  lemma CutClear(fl: seq<Block>, i: nat, n: nat)
    requires Ordered(fl) && 0 < i < |fl| && 0 < n <= fl[i].size
    ensures Clear(Take(fl, i, n), Cut(fl, i, n))
  {
    var t := Take(fl, i, n);
    forall k | 0 <= k < |t| ensures Apart(t[k], Cut(fl, i, n)) {
      var k' := if fl[i].size == n && k >= i then k + 1 else k;
      assert k' < i ==> Before(fl[k'], fl[i]);
      assert k' > i ==> Before(fl[i], fl[k']);
    }
  }

  lemma TakeClear(fl: seq<Block>, i: nat, n: nat, x: Block)
    requires Ordered(fl) && 0 < i < |fl| && 0 < n <= fl[i].size && Clear(fl, x)
    ensures Clear(Take(fl, i, n), x) && Apart(Cut(fl, i, n), x)
  {
    assert Apart(fl[i], x);
    var t := Take(fl, i, n);
    forall k | 0 <= k < |t| ensures Apart(t[k], x) {
      var k' := if fl[i].size == n && k >= i then k + 1 else k;
      assert Apart(fl[k'], x);
    }
  }

  // ----- The list in memory -----

  type Words = map<nat, nat>                    // header address -> field

  ghost predicate Hop(s: seq<Block>, size: Words, ptr: Words, end: nat, i: nat) {
    i < |s| ==>
      && s[i].addr in size && size[s[i].addr] == s[i].size
      && s[i].addr in ptr && ptr[s[i].addr] == (if i + 1 < |s| then s[i + 1].addr else end)
  }

  /** From each block of s the fields hold its size and lead to the next, from the last to end. */
  ghost predicate Path(s: seq<Block>, size: Words, ptr: Words, end: nat) {
    forall i {:trigger Hop(s, size, ptr, end, i)} :: Hop(s, size, ptr, end, i)
  }

  /** The list is one ring: its last block leads back to the base. */
  ghost predicate Linked(fl: seq<Block>, size: Words, ptr: Words) {
    |fl| > 0 && Path(fl, size, ptr, fl[0].addr)
  }

  function Start(s: seq<Block>, end: nat): nat { if s == [] then end else s[0].addr }

  lemma PathSplit(a: seq<Block>, b: seq<Block>, size: Words, ptr: Words, end: nat)
    requires Path(a + b, size, ptr, end)
    ensures Path(a, size, ptr, Start(b, end)) && Path(b, size, ptr, end)
  {
    var s, mid := a + b, Start(b, end);
    forall i: nat ensures Hop(a, size, ptr, mid, i) { assert Hop(s, size, ptr, end, i); }
    forall i: nat ensures Hop(b, size, ptr, end, i) { assert Hop(s, size, ptr, end, |a| + i); }
  }

  lemma PathJoin(a: seq<Block>, b: seq<Block>, size: Words, ptr: Words, end: nat)
    requires Path(a, size, ptr, Start(b, end)) && Path(b, size, ptr, end)
    ensures Path(a + b, size, ptr, end)
  {
    var s, mid := a + b, Start(b, end);
    forall i: nat ensures Hop(s, size, ptr, end, i) {
      if i < |a| { assert Hop(a, size, ptr, mid, i); } else { assert Hop(b, size, ptr, end, i - |a|); }
    }
  }

  /** Changing the fields of headers outside s keeps its path. */
  lemma PathFrame(s: seq<Block>, size: Words, ptr: Words, size': Words, ptr': Words, end: nat, x: nat)
    requires Path(s, size, ptr, end) && (forall i :: 0 <= i < |s| ==> s[i].addr != x)
    requires forall a :: a in size && a != x ==> a in size' && size'[a] == size[a]
    requires forall a :: a in ptr && a != x ==> a in ptr' && ptr'[a] == ptr[a]
    ensures Path(s, size', ptr', end)
  {
    forall i: nat ensures Hop(s, size', ptr', end, i) { assert Hop(s, size, ptr, end, i); }
  }

  lemma PathOne(b: Block, size: Words, ptr: Words, end: nat)
    requires b.addr in size && size[b.addr] == b.size && b.addr in ptr && ptr[b.addr] == end
    ensures Path([b], size, ptr, end)
  {
    var one := [b];
    forall i: nat ensures Hop(one, size, ptr, end, i) { }
  }

  lemma LinkedParts(fl: seq<Block>, size: Words, ptr: Words, j: nat)
    requires Linked(fl, size, ptr) && j < |fl|
    ensures Path(fl[..j], size, ptr, fl[j].addr) && Path(fl[j + 1..], size, ptr, fl[0].addr)
    ensures fl[j].addr in size && size[fl[j].addr] == fl[j].size
    ensures fl[j].addr in ptr && ptr[fl[j].addr] == Start(fl[j + 1..], fl[0].addr)
  {
    assert Hop(fl, size, ptr, fl[0].addr, j);
    assert fl == fl[..j] + fl[j..] && fl[j..] == [fl[j]] + fl[j + 1..];
    PathSplit(fl[..j], fl[j..], size, ptr, fl[0].addr);
    PathSplit([fl[j]], fl[j + 1..], size, ptr, fl[0].addr);
  }

  // ----- free's two links -----

  /** First the new block takes over its right neighbour, or leads to it. */
  lemma LinkRight(fl: seq<Block>, size: Words, ptr: Words, j: nat, b: Block, size1: Words, ptr1: Words)
    requires Linked(fl, size, ptr) && Ordered(fl) && Fits(fl, j, b) && fl[j].addr in ptr
    requires (forall i :: 0 <= i < |fl| ==> fl[i].addr != b.addr)
    requires if TouchesRight(fl, j, b)
             then size1 == size[b.addr := b.size + fl[j + 1].size]
                  && fl[j + 1].addr in ptr && ptr1 == ptr[b.addr := ptr[fl[j + 1].addr]]
             else size1 == size[b.addr := b.size] && ptr1 == ptr[b.addr := ptr[fl[j].addr]]
    ensures Path(Right(fl, j, b), size1, ptr1, fl[0].addr)
    ensures Path(fl[..j], size1, ptr1, fl[j].addr)
  {
    LinkedParts(fl, size, ptr, j);
    PathFrame(fl[..j], size, ptr, size1, ptr1, fl[j].addr, b.addr);
    if TouchesRight(fl, j, b) {
      LinkedParts(fl, size, ptr, j + 1);
      PathFrame(fl[j + 2..], size, ptr, size1, ptr1, fl[0].addr, b.addr);
      PathOne(Block(b.addr, b.size + fl[j + 1].size), size1, ptr1, Start(fl[j + 2..], fl[0].addr));
      PathJoin([Block(b.addr, b.size + fl[j + 1].size)], fl[j + 2..], size1, ptr1, fl[0].addr);
    } else {
      PathFrame(fl[j + 1..], size, ptr, size1, ptr1, fl[0].addr, b.addr);
      PathOne(b, size1, ptr1, Start(fl[j + 1..], fl[0].addr));
      PathJoin([b], fl[j + 1..], size1, ptr1, fl[0].addr);
    }
  }

  /** Then the left neighbour takes over the new block, or leads to it. */
  lemma LinkLeft(fl: seq<Block>, j: nat, b: Block, r: seq<Block>, size1: Words, ptr1: Words, size2: Words, ptr2: Words)
    requires j < |fl| && |r| > 0 && r[0].addr == b.addr
    requires Path(r, size1, ptr1, fl[0].addr) && Path(fl[..j], size1, ptr1, fl[j].addr)
    requires (forall i :: 0 <= i < j ==> fl[i].addr != fl[j].addr)
    requires (forall i :: 0 <= i < |r| ==> r[i].addr != fl[j].addr)
    requires fl[j].addr in size1 && size1[fl[j].addr] == fl[j].size && b.addr in size1 && b.addr in ptr1
    requires if TouchesLeft(fl, j, b)
             then size2 == size1[fl[j].addr := fl[j].size + size1[b.addr]] && ptr2 == ptr1[fl[j].addr := ptr1[b.addr]]
             else size2 == size1 && ptr2 == ptr1[fl[j].addr := b.addr]
    ensures TouchesLeft(fl, j, b) ==>
      Path(fl[..j] + [Block(fl[j].addr, fl[j].size + r[0].size)] + r[1..], size2, ptr2, fl[0].addr)
    ensures !TouchesLeft(fl, j, b) ==> Path(fl[..j + 1] + r, size2, ptr2, fl[0].addr)
  {
    assert Hop(r, size1, ptr1, fl[0].addr, 0);
    assert r == [r[0]] + r[1..];
    PathSplit([r[0]], r[1..], size1, ptr1, fl[0].addr);
    PathFrame(fl[..j], size1, ptr1, size2, ptr2, fl[j].addr, fl[j].addr);
    if TouchesLeft(fl, j, b) {
      var m := Block(fl[j].addr, fl[j].size + r[0].size);
      PathFrame(r[1..], size1, ptr1, size2, ptr2, fl[0].addr, fl[j].addr);
      PathOne(m, size2, ptr2, Start(r[1..], fl[0].addr));
      PathJoin([m], r[1..], size2, ptr2, fl[0].addr);
      PathJoin(fl[..j], [m] + r[1..], size2, ptr2, fl[0].addr);
      assert fl[..j] + ([m] + r[1..]) == fl[..j] + [m] + r[1..];
    } else {
      PathFrame(r, size1, ptr1, size2, ptr2, fl[0].addr, fl[j].addr);
      PathOne(fl[j], size2, ptr2, b.addr);
      PathJoin([fl[j]], r, size2, ptr2, fl[0].addr);
      PathJoin(fl[..j], [fl[j]] + r, size2, ptr2, fl[0].addr);
      assert fl[..j] + ([fl[j]] + r) == fl[..j + 1] + r;
    }
  }

  // ----- malloc's unlinking -----

  lemma LinkTake(fl: seq<Block>, size: Words, ptr: Words, i: nat, n: nat, ptr': Words)
    requires Linked(fl, size, ptr) && Ordered(fl) && 0 < i < |fl| && n == fl[i].size
    requires fl[i].addr in ptr && ptr' == ptr[fl[i - 1].addr := ptr[fl[i].addr]]
    ensures Linked(Take(fl, i, n), size, ptr')
  {
    LinkedParts(fl, size, ptr, i);
    LinkedParts(fl, size, ptr, i - 1);
    var a := fl[..i - 1];
    PathFrame(a, size, ptr, size, ptr', fl[i - 1].addr, fl[i - 1].addr);
    PathFrame(fl[i + 1..], size, ptr, size, ptr', fl[0].addr, fl[i - 1].addr);
    PathOne(fl[i - 1], size, ptr', Start(fl[i + 1..], fl[0].addr));
    PathJoin([fl[i - 1]], fl[i + 1..], size, ptr', fl[0].addr);
    PathJoin(a, [fl[i - 1]] + fl[i + 1..], size, ptr', fl[0].addr);
    assert a + ([fl[i - 1]] + fl[i + 1..]) == Take(fl, i, n);
  }

  lemma LinkShrink(fl: seq<Block>, size: Words, ptr: Words, i: nat, n: nat, size': Words)
    requires Linked(fl, size, ptr) && Ordered(fl) && 0 < i < |fl| && 0 < n < fl[i].size
    requires size' == size[fl[i].addr := fl[i].size - n][Cut(fl, i, n).addr := n]
    ensures Linked(Take(fl, i, n), size', ptr)
  {
    var t := Take(fl, i, n);
    forall k: nat ensures Hop(t, size', ptr, t[0].addr, k) {
      assert Hop(fl, size, ptr, fl[0].addr, k);
      if k < |fl| && k != i { assert if k < i then Before(fl[k], fl[i]) else Before(fl[i], fl[k]); }
    }
  }
}
