/** user/umalloc.c: malloc and free on the ring of free blocks, for memory that sbrk has not
    handed out before. */
module Umalloc {
  import opened FreeList
  import opened Options

  const HEADER := 16                            // sizeof(Header)
  const MINUNITS := 4096                        // the least morecore asks for

  // ----- The heap as a value -----

  ghost predicate LiveOk(fl: seq<Block>, live: seq<Block>, top: nat, i: nat) {
    i < |live| ==> Clear(fl, live[i]) && live[i].addr + live[i].size <= top && fl != [] && fl[0].addr < live[i].addr
  }

  ghost predicate LiveApart(live: seq<Block>, i: nat, k: nat) {
    i < k < |live| ==> Apart(live[i], live[k])
  }

  ghost predicate Below(fl: seq<Block>, top: nat, i: nat) { i < |fl| ==> fl[i].addr + fl[i].size <= top }

  /** The free list is an ordered ring from the base, live blocks lie clear of it and of each other,
      all below top, and free and live units together are the units obtained. */
  ghost predicate Good(fl: seq<Block>, live: seq<Block>, got: nat, top: nat, base: nat) {
    && Ordered(fl) && fl[0] == Block(base, 0) && base < top
    && Units(fl) + Units(live) == got
    && (forall i {:trigger LiveOk(fl, live, top, i)} :: LiveOk(fl, live, top, i))
    && (forall i, k {:trigger LiveApart(live, i, k)} :: LiveApart(live, i, k))
    && (forall i {:trigger Below(fl, top, i)} :: Below(fl, top, i))
  }

  function Remove(s: seq<Block>, l: nat): seq<Block>
    requires l < |s|
  {
    s[..l] + s[l + 1..]
  }

  lemma RemoveUnits(s: seq<Block>, l: nat)
    requires l < |s|
    ensures Units(Remove(s, l)) + s[l].size == Units(s)
  {
    UnitsSplit(s, l);
    UnitsCat(s[..l], s[l + 1..]);
  }

  lemma ApartBoth(live: seq<Block>, i: nat, k: nat)
    requires LiveApart(live, i, k) && LiveApart(live, k, i) && i < |live| && k < |live| && i != k
    ensures Apart(live[i], live[k])
  {
  }

  lemma InsertBelow(fl: seq<Block>, j: nat, b: Block, top: nat, k: nat)
    requires j < |fl| && (forall i :: 0 <= i < |fl| ==> fl[i].addr + fl[i].size <= top) && b.addr + b.size <= top
    ensures Below(Insert(fl, j, b), top, k)
  {
    var r := Right(fl, j, b);
    forall i | 0 <= i < |r| ensures r[i].addr + r[i].size <= top {
      if i > 0 { assert r[i] == fl[j + 1 + i - (if TouchesRight(fl, j, b) then 0 else 1)]; }
    }
  }

  lemma FreeLive(fl: seq<Block>, live: seq<Block>, got: nat, top: nat, base: nat, l: nat, j: nat, i: nat)
    requires Good(fl, live, got, top, base) && l < |live| && Fits(fl, j, live[l]) && i < |live| - 1
    ensures LiveOk(Insert(fl, j, live[l]), Remove(live, l), top, i)
  {
    var k := if i < l then i else i + 1;
    assert LiveOk(fl, live, top, l) && LiveOk(fl, live, top, k) && LiveApart(live, l, k) && LiveApart(live, k, l);
    ApartBoth(live, l, k);
    InsertClear(fl, j, live[l], live[k]);
    InsertOrdered(fl, j, live[l]);
  }

  /** Freeing live block l. */
  lemma FreeGood(fl: seq<Block>, live: seq<Block>, got: nat, top: nat, base: nat, l: nat, j: nat)
    requires Good(fl, live, got, top, base) && l < |live| && Fits(fl, j, live[l])
    ensures Good(Insert(fl, j, live[l]), Remove(live, l), got, top, base)
  {
    var b, fl', live' := live[l], Insert(fl, j, live[l]), Remove(live, l);
    assert LiveOk(fl, live, top, l);
    InsertOrdered(fl, j, b);
    InsertUnits(fl, j, b);
    RemoveUnits(live, l);
    forall i: nat ensures LiveOk(fl', live', top, i) { if i < |live'| { FreeLive(fl, live, got, top, base, l, j, i); } }
    forall i: nat, k: nat ensures LiveApart(live', i, k) { RemoveApart(fl, live, got, top, base, l, i, k); }
    forall k: nat ensures Below(fl', top, k) { FreeBelow(fl, live, got, top, base, l, j, k); }
  }

  lemma RemoveApart(fl: seq<Block>, live: seq<Block>, got: nat, top: nat, base: nat, l: nat, i: nat, k: nat)
    requires Good(fl, live, got, top, base) && l < |live|
    ensures LiveApart(Remove(live, l), i, k)
  {
    assert LiveApart(live, if i < l then i else i + 1, if k < l then k else k + 1);
  }

  lemma FreeBelow(fl: seq<Block>, live: seq<Block>, got: nat, top: nat, base: nat, l: nat, j: nat, k: nat)
    requires Good(fl, live, got, top, base) && l < |live| && Fits(fl, j, live[l])
    ensures Below(Insert(fl, j, live[l]), top, k)
  {
    assert LiveOk(fl, live, top, l);
    forall i | 0 <= i < |fl| ensures fl[i].addr + fl[i].size <= top { assert Below(fl, top, i); }
    InsertBelow(fl, j, live[l], top, k);
  }

  /** Cutting n units from free block i. */
  lemma TakeGood(fl: seq<Block>, live: seq<Block>, got: nat, top: nat, base: nat, i: nat, n: nat)
    requires Good(fl, live, got, top, base) && i < |fl| && 0 < n <= fl[i].size
    ensures i > 0 && Good(Take(fl, i, n), live + [Cut(fl, i, n)], got, top, base)
  {
    var fl', c, live' := Take(fl, i, n), Cut(fl, i, n), live + [Cut(fl, i, n)];
    TakeOrdered(fl, i, n);
    TakeUnits(fl, i, n);
    UnitsCat(live, [c]);
    UnitsOne(c);
    CutClear(fl, i, n);
    assert Below(fl, top, i) && Before(fl[0], fl[i]);
    forall k: nat ensures LiveOk(fl', live', top, k) {
      assert LiveOk(fl, live, top, k);
      if k < |live| { TakeClear(fl, i, n, live[k]); }
    }
    forall k: nat, m: nat ensures LiveApart(live', k, m) {
      assert LiveApart(live, k, m) && LiveOk(fl, live, top, k);
      if k < m == |live| { TakeClear(fl, i, n, live[k]); }
    }
    forall k: nat ensures Below(fl', top, k) {
      assert Below(fl, top, k) && Below(fl, top, k + 1);
    }
  }

  /** New memory at or above top counts as live until it is freed. */
  lemma MoreGood(fl: seq<Block>, live: seq<Block>, got: nat, top: nat, base: nat, b: Block)
    requires Good(fl, live, got, top, base) && top <= b.addr && b.size > 0
    ensures Good(fl, live + [b], got + b.size, b.addr + b.size, base)
  {
    var live', top' := live + [b], b.addr + b.size;
    UnitsCat(live, [b]);
    UnitsOne(b);
    forall k: nat ensures LiveOk(fl, live', top', k) {
      assert LiveOk(fl, live, top, k);
      forall i | 0 <= i < |fl| ensures fl[i].addr + fl[i].size <= top { assert Below(fl, top, i); }
    }
    forall k: nat, m: nat ensures LiveApart(live', k, m) { assert LiveApart(live, k, m) && LiveOk(fl, live, top, k); }
    forall k: nat ensures Below(fl, top', k) { assert Below(fl, top, k); }
  }

  // ----- Finding the place -----

  lemma {:induction false} SlotUpTo(fl: seq<Block>, b: nat, n: nat) returns (j: nat)
    requires Ordered(fl) && fl[0].addr < b && 0 < n <= |fl| && (forall i :: 0 <= i < |fl| ==> fl[i].addr != b)
    requires forall i :: n <= i < |fl| ==> b < fl[i].addr
    ensures j < |fl| && fl[j].addr < b && (j + 1 < |fl| ==> b < fl[j + 1].addr)
  {
    if fl[n - 1].addr < b { return n - 1; }
    j := SlotUpTo(fl, b, n - 1);
  }

  /** free's exit test at block i. */
  predicate Stops(p: nat, next: nat, b: nat) { (b > p && b < next) || (p >= next && (b > p || b < next)) }

  function NextIx(fl: seq<Block>, i: nat): nat { if i + 1 < |fl| then i + 1 else 0 }

  /** The search stops exactly at the block after which b belongs. */
  lemma StopsAt(fl: seq<Block>, b: nat, j: nat, i: nat)
    requires Ordered(fl) && fl[0].addr < b && j < |fl| && fl[j].addr < b && (j + 1 < |fl| ==> b < fl[j + 1].addr)
    requires i < |fl|
    ensures Stops(fl[i].addr, fl[NextIx(fl, i)].addr, b) <==> i == j
  {
    if i < j { assert Before(fl[i], fl[j]); assert i + 1 < j ==> Before(fl[i + 1], fl[j]); }
    if i > j { assert j + 1 < i ==> Before(fl[j + 1], fl[i]); }
    if i + 1 < |fl| { assert Before(fl[i], fl[i + 1]); }
    if i > 0 { assert Before(fl[0], fl[i]); }
  }

  /** How many hops from block i to block j. */
  function Hops(n: nat, i: nat, j: nat): nat
    requires i < n && j < n
  {
    if i <= j then j - i else n - i + j
  }

  lemma LinkedNext(fl: seq<Block>, size: Words, ptr: Words, i: nat)
    requires Linked(fl, size, ptr) && i < |fl|
    ensures fl[i].addr in ptr && ptr[fl[i].addr] == fl[NextIx(fl, i)].addr && fl[i].addr in size
    ensures size[fl[i].addr] == fl[i].size
  {
    assert Hop(fl, size, ptr, fl[0].addr, i);
  }

  ghost predicate HeaderOk(live: seq<Block>, size: Words, i: nat) {
    i < |live| ==> live[i].addr in size && size[live[i].addr] == live[i].size
  }

  ghost predicate Headers(live: seq<Block>, size: Words) {
    forall i {:trigger HeaderOk(live, size, i)} :: HeaderOk(live, size, i)
  }

  /** Some free block covers b. */
  ghost predicate Covers(fl: seq<Block>, b: Block) {
    exists i :: 0 <= i < |fl| && CoversAt(fl[i], b)
  }

  predicate CoversAt(f: Block, b: Block) { f.addr <= b.addr && b.addr + b.size <= f.addr + f.size }

  lemma InsertCovers(fl: seq<Block>, j: nat, b: Block)
    requires j < |fl| && (forall i :: 0 <= i < |fl| ==> fl[i].addr != b.addr)
    ensures Covers(Insert(fl, j, b), b)
  {
    var s, r := Insert(fl, j, b), Right(fl, j, b);
    if TouchesLeft(fl, j, b) { assert CoversAt(s[j], b); } else { assert CoversAt(s[j + 1], b) && s[j + 1] == r[0]; }
  }

  lemma InsertAt(fl: seq<Block>, j: nat, b: Block)
    requires j < |fl|
    ensures j < |Insert(fl, j, b)| && Insert(fl, j, b)[j].addr == fl[j].addr
  {
  }

  /** The two links free makes turn the ring into the ring with b inserted. */
  lemma LinkInsert(fl: seq<Block>, size: Words, ptr: Words, j: nat, b: Block, size1: Words, ptr1: Words, size2: Words,
                   ptr2: Words)
    requires Linked(fl, size, ptr) && Ordered(fl) && Fits(fl, j, b) && Clear(fl, b) && fl[0].addr < b.addr
    requires fl[j].addr in ptr && fl[j].addr in size
    requires if TouchesRight(fl, j, b)
             then size1 == size[b.addr := b.size + fl[j + 1].size]
                  && fl[j + 1].addr in ptr && ptr1 == ptr[b.addr := ptr[fl[j + 1].addr]]
             else size1 == size[b.addr := b.size] && ptr1 == ptr[b.addr := ptr[fl[j].addr]]
    requires if TouchesLeft(fl, j, b)
             then size2 == size1[fl[j].addr := fl[j].size + size1[b.addr]] && ptr2 == ptr1[fl[j].addr := ptr1[b.addr]]
             else size2 == size1 && ptr2 == ptr1[fl[j].addr := b.addr]
    ensures Linked(Insert(fl, j, b), size2, ptr2)
  {
    NotListed(fl, b);
    LinkedParts(fl, size, ptr, j);
    LinkRight(fl, size, ptr, j, b, size1, ptr1);
    RightOrdered(fl, j, b);
    var r := Right(fl, j, b);
    forall i | 0 <= i < |r| ensures r[i].addr != fl[j].addr { }
    forall i | 0 <= i < j ensures fl[i].addr != fl[j].addr { assert Before(fl[i], fl[j]); }
    LinkLeft(fl, j, b, r, size1, ptr1, size2, ptr2);
    InsertOrdered(fl, j, b);
  }

  lemma NotListed(fl: seq<Block>, b: Block)
    requires Ordered(fl) && Clear(fl, b) && fl[0].addr < b.addr
    ensures forall i :: 0 <= i < |fl| ==> fl[i].addr != b.addr
  {
    forall i | 0 <= i < |fl| ensures fl[i].addr != b.addr { assert Apart(fl[i], b); }
  }

  /** Headers of the other live blocks are untouched when only list headers change. */
  lemma HeadersFreed(fl: seq<Block>, live: seq<Block>, got: nat, top: nat, base: nat, size: Words, size': Words, l: nat,
                     j: nat)
    requires Good(fl, live, got, top, base) && Headers(live, size) && l < |live| && j < |fl|
    requires forall a :: a in size && a != live[l].addr && a != fl[j].addr ==> a in size' && size'[a] == size[a]
    ensures Headers(Remove(live, l), size')
  {
    var live' := Remove(live, l);
    forall i: nat ensures HeaderOk(live', size', i) {
      if i < |live'| {
        var k := if i < l then i else i + 1;
        assert HeaderOk(live, size, k) && LiveOk(fl, live, top, k) && LiveOk(fl, live, top, l) && LiveApart(live, l, k);
        assert LiveApart(live, k, l);
        ApartBoth(live, l, k);
        NotListed(fl, live[k]);
      }
    }
  }

  ghost predicate HasAddr(fl: seq<Block>, a: nat) { exists i :: 0 <= i < |fl| && fl[i].addr == a }

  class Heap {
    const base: nat
    var size: Words
    var ptr: Words
    var freep: nat                              // 0 until the first malloc
    ghost var fl: seq<Block>
    ghost var live: seq<Block>
    ghost var got: nat
    var top: nat                                // where the memory sbrk has handed out ends

    ghost predicate Sound()
      reads this
    {
      Good(fl, live, got, top, base) && Headers(live, size)
    }

    ghost predicate Ready()
      reads this
    {
      && base > 0 && Sound()
      && (freep == 0 ==> fl == [Block(base, 0)] && live == [])
      && (freep != 0 ==> Linked(fl, size, ptr) && HasAddr(fl, freep))
    }

    /** The program's data ends, and its heap starts, above the static base header. */
    constructor (b: nat, end: nat)
      requires 0 < b < end
      ensures Ready() && base == b && freep == 0 && live == [] && got == 0 && top == end
    {
      base := b;
      size, ptr, freep, top := map[], map[], 0, end;
      fl, live, got := [Block(b, 0)], [], 0;
      new;
      EmptyGood(b, end, size);
    }

    /** free's search: the block after which bp belongs. */
    method FindPlace(bp: nat, ghost j: nat) returns (p: nat)
      requires Ordered(fl) && Linked(fl, size, ptr) && HasAddr(fl, freep)
      requires fl[0].addr < bp && j < |fl| && fl[j].addr < bp && (j + 1 < |fl| ==> bp < fl[j + 1].addr)
      ensures p == fl[j].addr
    {
      p := freep;
      ghost var i :| 0 <= i < |fl| && fl[i].addr == freep;
      LinkedNext(fl, size, ptr, i);
      while !(bp > p && bp < ptr[p])
        invariant 0 <= i < |fl| && p == fl[i].addr && p in ptr && ptr[p] == fl[NextIx(fl, i)].addr
        invariant bp > p && bp < ptr[p] ==> i == j
        decreases Hops(|fl|, i, j)
      {
        StopsAt(fl, bp, j, i);
        if p >= ptr[p] && (bp > p || bp < ptr[p]) { break; }
        p := ptr[p];
        i := NextIx(fl, i);
        LinkedNext(fl, size, ptr, i);
        StopsAt(fl, bp, j, i);
      }
      StopsAt(fl, bp, j, i);
    }

    /** Return live block l, whose user pointer is ap, to the free list. */
    method Free(ap: nat, ghost l: nat)
      requires Ready() && freep != 0 && l < |live| && ap == live[l].addr + 1
      modifies this
      ensures Ready() && freep != 0 && live == Remove(old(live), l) && got == old(got) && top == old(top)
      ensures Covers(fl, old(live)[l])
    {
      var bp := ap - 1;
      assert LiveOk(fl, live, top, l) && HeaderOk(live, size, l);
      NotListed(fl, live[l]);
      ghost var j := SlotUpTo(fl, bp, |fl|);
      var p := FindPlace(bp, j);
      LinkedNext(fl, size, ptr, j);
      LinkedNext(fl, size, ptr, NextIx(fl, j));
      LinkIn(p, bp, l, j);
    }

    /** The block takes over the successor of p if it touches it, or leads to it. */
    method JoinRight(p: nat, bp: nat)
      requires p in ptr && bp in size && ptr[p] in size && ptr[p] in ptr
      modifies this`size, this`ptr
      ensures if bp + old(size)[bp] == old(ptr)[p]
              then size == old(size)[bp := old(size)[bp] + old(size)[old(ptr)[p]]]
                   && ptr == old(ptr)[bp := old(ptr)[old(ptr)[p]]]
              else size == old(size) && ptr == old(ptr)[bp := old(ptr)[p]]
    {
      if bp + size[bp] == ptr[p] {
        size, ptr := size[bp := size[bp] + size[ptr[p]]], ptr[bp := ptr[ptr[p]]];
      } else {
        ptr := ptr[bp := ptr[p]];
      }
    }

    /** p takes over the block if it touches it, or leads to it. */
    method JoinLeft(p: nat, bp: nat)
      requires p in size && bp in size && bp in ptr
      modifies this`size, this`ptr
      ensures if p + old(size)[p] == bp
              then size == old(size)[p := old(size)[p] + old(size)[bp]] && ptr == old(ptr)[p := old(ptr)[bp]]
              else size == old(size) && ptr == old(ptr)[p := bp]
    {
      if p + size[p] == bp {
        size, ptr := size[p := size[p] + size[bp]], ptr[p := ptr[bp]];
      } else {
        ptr := ptr[p := bp];
      }
    }

    /** free's two links: the ring with the block between p and its successor. */
    method Relink(p: nat, bp: nat, ghost j: nat, ghost b: Block)
      requires Linked(fl, size, ptr) && Ordered(fl) && Fits(fl, j, b) && Clear(fl, b) && Joinable(fl, size, ptr, j, b)
      requires bp == b.addr && p == fl[j].addr
      modifies this`size, this`ptr
      ensures Linked(Insert(fl, j, b), size, ptr)
      ensures forall a :: a in old(size) && a != bp && a != p ==> a in size && size[a] == old(size)[a]
    {
      ghost var size0, ptr0 := size, ptr;
      JoinRight(p, bp);
      ghost var size1, ptr1 := size, ptr;
      JoinLeft(p, bp);
      FreeLinks(fl, size0, ptr0, j, b, size1, ptr1, size, ptr);
    }

    /** free after its search. */
    method LinkIn(p: nat, bp: nat, ghost l: nat, ghost j: nat)
      requires Ready() && freep != 0 && l < |live| && bp == live[l].addr && Fits(fl, j, live[l]) && p == fl[j].addr
      requires Joinable(fl, size, ptr, j, live[l])
      modifies this
      ensures Ready() && freep != 0 && live == Remove(old(live), l) && got == old(got) && top == old(top)
      ensures Covers(fl, old(live)[l])
    {
      ghost var size0, b := size, live[l];
      FreeStep(fl, live, got, top, base, l, j);
      Relink(p, bp, j, b);
      HeadersFreed(fl, live, got, top, base, size0, size, l, j);
      freep := p;
      fl, live := Insert(fl, j, b), Remove(live, l);
    }

    /** malloc's last steps: cut n units from block p, whose predecessor is prevp. */
    method TakeFrom(p: nat, prevp: nat, n: nat, ghost i: nat) returns (r: nat)
      requires Ready() && freep != 0 && 0 < i < |fl| && p == fl[i].addr && prevp == fl[i - 1].addr
      requires 0 < n <= fl[i].size
      requires p in size && p in ptr && size[p] == fl[i].size
      modifies this
      ensures Ready() && freep != 0 && r != 0 && live == old(live) + [Block(r - 1, n)] && got == old(got)
      ensures top == old(top)
    {
      ghost var size0, ptr0, c := size, ptr, Cut(fl, i, n);
      r := p;
      if size[p] == n {
        ptr := ptr[prevp := ptr[p]];
      } else {
        size := size[p := size[p] - n];
        r := p + size[p];
        size := size[r := n];
      }
      freep := prevp;
      TakeStep(fl, live, got, top, base, size0, ptr0, i, n, size, ptr);
      fl, live := Take(fl, i, n), live + [c];
      r := r + 1;
    }

    /** Ask for at least nu units and put them on the free list; 0 when there are none. */
    method Morecore(nu: nat, mem: Option<nat>) returns (p: nat)
      requires Ready() && freep != 0 && 0 < nu < LIMIT && (mem.Some? ==> mem.value >= top)
      modifies this
      ensures Ready() && freep != 0 && live == old(live)
      ensures p == 0 <==> mem.None?
      ensures p == 0 ==> fl == old(fl) && got == old(got) && freep == old(freep)
      ensures p != 0 ==> p == freep && got == old(got) + Ask(nu) && HasRoom(fl, nu)
      ensures top == if mem.Some? then mem.value + Ask(nu) else old(top)
    {
      if mem.None? { return 0; }
      var hp := mem.value;
      ghost var b := Block(hp, Ask(nu));
      ghost var size0, live0 := size, live;
      MoreStep(fl, live, got, top, base, size, ptr, b);
      size := size[hp := Ask(nu)];
      top := hp + Ask(nu);
      live, got := live + [b], got + b.size;
      Free(hp + 1, |live| - 1);
      assert live == live0;
      ghost var k :| 0 <= k < |fl| && CoversAt(fl[k], b);
      p := freep;
    }

    /** malloc(nbytes) for requests whose size survives sbrk's int argument; mem is what sbrk
        returns if it is called.  more tells whether it was: exactly if no free block was large enough. */
    method Malloc(nbytes: nat, mem: Option<nat>) returns (r: nat, ghost more: bool)
      requires Ready() && nbytes <= 0xFFFF_FFFF && Units16(nbytes) < LIMIT && (mem.Some? ==> mem.value >= top)
      modifies this
      ensures Ready() && got == old(got) + (if more && mem.Some? then Ask(Units16(nbytes)) else 0)
      ensures top == if more && mem.Some? then mem.value + Ask(Units16(nbytes)) else old(top)
      ensures more <==> !HasRoom(old(fl), Units16(nbytes))
      ensures r == 0 <==> more && mem.None?
      ensures r == 0 ==> live == old(live)
      ensures r != 0 ==> live == old(live) + [Block(r - 1, Units16(nbytes))]
      ensures r != 0 ==> nbytes <= (live[|live| - 1].size - 1) * 16 < nbytes + 16
    {
      var nunits := Units16(nbytes);
      if freep == 0 { InitRing(); }
      var prevp: nat := freep;
      var p: nat;
      ghost var f: nat;
      p, f := After(prevp, nunits);
      ghost var i: nat := NextIx(fl, f);
      more := false;
      while true
        invariant Ready() && freep != 0 && live == old(live) && got == old(got) + (if more then Ask(nunits) else 0)
        invariant more ==> mem.Some?
        invariant !more && mem.Some? ==> mem.value >= top
        invariant top == if more then mem.value + Ask(nunits) else old(top)
        invariant Walking(fl, f, i, freep, prevp, p, nunits)
        invariant if more then HasRoom(fl, nunits) && !HasRoom(old(fl), nunits) else fl == old(fl)
        decreases if more then 0 else 1, if f < |fl| && i < |fl| then Hops(|fl|, i, f) else 0
      {
        LinkedNext(fl, size, ptr, i);
        if size[p] >= nunits {
          BlockPositive(fl, f, i, freep, prevp, p, nunits);
          r := TakeFrom(p, prevp, nunits, i);
          return;
        }
        SamePlace(fl, f, i);
        if p == freep {
          FullCircle(fl, f, i, freep, prevp, p, nunits, more);
          prevp := Morecore(nunits, mem);
          if prevp == 0 { return 0, true; }
          more := true;
          p, f := After(prevp, nunits);
          i := NextIx(fl, f);
        } else {
          NextStep(fl, f, i, freep, p, nunits);
          prevp := p;
          p := ptr[p];
          i := NextIx(fl, i);
        }
      }
    }

    /** The block after freep, where the walk starts. */
    method After(prevp: nat, ghost n: nat) returns (p: nat, ghost f: nat)
      requires Ready() && freep != 0 && prevp == freep && n > 0
      ensures Walking(fl, f, NextIx(fl, f), freep, prevp, p, n)
    {
      f :| 0 <= f < |fl| && fl[f].addr == freep;
      LinkedNext(fl, size, ptr, f);
      NextStep(fl, f, f, freep, prevp, n);
      p := ptr[prevp];
    }

    /** The first call links the base header to itself. */
    method InitRing()
      requires Ready() && freep == 0
      modifies this
      ensures Ready() && freep != 0 && live == old(live) && got == old(got) && top == old(top) && fl == old(fl)
    {
      ptr, freep := ptr[base := base], base;
      size := size[base := 0];
      PathOne(fl[0], size, ptr, base);
      assert fl == [Block(base, 0)] && fl[0].addr == freep;
      forall i: nat ensures HeaderOk(live, size, i) { }
    }
  }

  // ----- Sequences of requests -----

  /** A call of malloc, for which sbrk fails or returns an address gap units above all memory
      obtained so far, or a call of free on the l-th block in use. */
  datatype Request = Want(nbytes: nat, gap: Option<nat>) | Give(l: nat)

  predicate Askable(q: Request) { q.Want? ==> q.nbytes <= 0x7FFF_FFE0 }

  /** The blocks in use after a request that malloc answered with r. */
  function Answered(live: seq<Block>, q: Request, r: nat): seq<Block> {
    match q
    case Want(nbytes, gap) => if r == 0 then live else live + [Block(r - 1, Units16(nbytes))]
    case Give(l) => if l < |live| then Remove(live, l) else live
  }

  /** The blocks handed out and not given back. */
  function InUse(qs: seq<Request>, rs: seq<nat>): seq<Block>
    requires |qs| == |rs|
  {
    if qs == [] then [] else Answered(InUse(qs[..|qs| - 1], rs[..|rs| - 1]), qs[|qs| - 1], rs[|rs| - 1])
  }

  lemma InUseNext(qs: seq<Request>, rs: seq<nat>, q: Request, r: nat)
    requires |qs| == |rs|
    ensures InUse(qs + [q], rs + [r]) == Answered(InUse(qs, rs), q, r)
  {
    assert (qs + [q])[..|qs|] == qs && (rs + [r])[..|rs|] == rs;
  }

  lemma AskableFits(q: Request)
    requires Askable(q) && q.Want?
    ensures Units16(q.nbytes) < LIMIT
  {
    SbrkArgExactIff(q.nbytes);
  }

  /** One request on a heap whose blocks in use are held. */
  method Answer(h: Heap, q: Request, held: seq<Block>) returns (r: nat)
    requires h.Ready() && Askable(q) && held == h.live
    modifies h
    ensures h.Ready() && h.live == Answered(held, q, r) && h.top >= old(h.top)
    ensures q.Want? && r == 0 ==> q.gap.None?
  {
    r := 0;
    match q
    case Want(nbytes, gap) =>
      AskableFits(q);
      ghost var more;
      r, more := h.Malloc(nbytes, if gap.Some? then Some(h.top + gap.value) else None);
    case Give(l) =>
      if l < |held| { h.Free(held[l].addr + 1, l); }
  }

  /** Any sequence of malloc and free calls on a fresh heap: the blocks in use are exactly those
      handed out and not given back, each at least as large as asked for; they overlap neither each
      other nor a free block nor the end of memory; and every unit obtained is in one of them or free. */
  method Serve(b: nat, end: nat, qs: seq<Request>) returns (h: Heap, rs: seq<nat>, held: seq<Block>)
    requires 0 < b < end && forall i :: 0 <= i < |qs| ==> Askable(qs[i])
    ensures fresh(h) && |rs| == |qs| && held == InUse(qs, rs) && h.Ready() && h.live == held
    ensures forall i, k :: 0 <= i < k < |held| ==> Apart(held[i], held[k])
    ensures forall i :: 0 <= i < |held| ==> Clear(h.fl, held[i]) && held[i].addr + held[i].size <= h.top
    ensures Units(h.fl) + Units(held) == h.got
    ensures forall i :: 0 <= i < |qs| && qs[i].Want? && qs[i].gap.Some? ==> rs[i] != 0
  {
    h := new Heap(b, end);
    rs, held := [], [];
    while |rs| < |qs|
      invariant |rs| <= |qs| && h.Ready() && held == h.live && fresh(h) && held == InUse(qs[..|rs|], rs)
      invariant forall i :: 0 <= i < |rs| && qs[i].Want? && qs[i].gap.Some? ==> rs[i] != 0
    {
      var q := qs[|rs|];
      var r := Answer(h, q, held);
      InUseNext(qs[..|rs|], rs, q, r);
      assert qs[..|rs| + 1] == qs[..|rs|] + [q];
      held := Answered(held, q, r);
      rs := rs + [r];
    }
    assert qs[..|rs|] == qs;
    forall i, k | 0 <= i < k < |held| ensures Apart(held[i], held[k]) { assert LiveApart(h.live, i, k); }
    forall i | 0 <= i < |held| ensures Clear(h.fl, held[i]) && held[i].addr + held[i].size <= h.top {
      assert LiveOk(h.fl, h.live, h.top, i);
    }
  }

  // ----- Requests and sbrk's argument -----

  const LIMIT := 0x800_0000                     // 2^27 units: 2^31 bytes

  /** The units malloc takes for nbytes: one for the header. */
  function Units16(nbytes: nat): (r: nat)
    ensures r >= 1 && nbytes <= (r - 1) * 16 < nbytes + 16
  {
    (nbytes + HEADER - 1) / HEADER + 1
  }

  /** What morecore asks for: what is needed, and at least 4096 units. */
  function Ask(nu: nat): (r: nat)
    ensures r >= nu && r >= 4096 && (r == nu || r == 4096)
  {
    if nu < MINUNITS then MINUNITS else nu
  }

  /** nu * sizeof(Header) as sbrk's int parameter receives it. */
  function SbrkArg(nu: nat): int {
    var w := nu * HEADER % 0x1_0000_0000;
    if w < 0x8000_0000 then w else w - 0x1_0000_0000
  }

  /** sbrk is asked for the units the new block will claim exactly when the request has fewer
      than 2^27 units, that is for at most 2^31 - 32 bytes. */
  lemma SbrkArgExactIff(nbytes: nat)
    requires nbytes <= 0xFFFF_FFFF
    ensures SbrkArg(Ask(Units16(nbytes))) == Ask(Units16(nbytes)) * HEADER <==> Units16(nbytes) < LIMIT
    ensures Units16(nbytes) < LIMIT <==> nbytes <= 0x7FFF_FFE0
  {
    var n := Units16(nbytes);
    assert n <= 0x1000_0001;
    assert (n - 1) * HEADER < nbytes + HEADER <= n * HEADER;
  }

  /** malloc(0xFFFFFFFF): sbrk is asked for 16 bytes, and the block claims 2^28 + 1 units. */
  lemma SbrkArgShort()
    ensures Units16(0xFFFF_FFFF) == 0x1000_0001 && SbrkArg(Ask(Units16(0xFFFF_FFFF))) == 16
  {
  }

  // ----- malloc's walk -----

  predicate Passed(f: nat, i: nat, k: nat) { if f < i then f < k < i else k > f || k < i }

  function PrevIx(fl: seq<Block>, i: nat): nat
    requires fl != []
  {
    if i == 0 then |fl| - 1 else i - 1
  }

  /** p is block i, prevp its predecessor, and the blocks since freep, block f, are too small. */
  ghost predicate Walking(fl: seq<Block>, f: nat, i: nat, freep: nat, prevp: nat, p: nat, n: nat) {
    && Ordered(fl) && f < |fl| && i < |fl| && fl[f].addr == freep && p == fl[i].addr && prevp == fl[PrevIx(fl, i)].addr
    && n > 0
    && forall k :: 0 <= k < |fl| && Passed(f, i, k) ==> fl[k].size < n
  }

  lemma BlockPositive(fl: seq<Block>, f: nat, i: nat, freep: nat, prevp: nat, p: nat, n: nat)
    requires Walking(fl, f, i, freep, prevp, p, n) && fl[i].size >= n
    ensures i > 0 && prevp == fl[i - 1].addr
  {
  }

  lemma SamePlace(fl: seq<Block>, f: nat, i: nat)
    requires Ordered(fl) && f < |fl| && i < |fl|
    ensures fl[i].addr == fl[f].addr <==> i == f
  {
    if i < f { assert Before(fl[i], fl[f]); } else if f < i { assert Before(fl[f], fl[i]); }
  }

  ghost predicate HasRoom(fl: seq<Block>, n: nat) { exists k :: 0 <= k < |fl| && fl[k].size >= n }

  /** After a full circle every block has been found too small, so this cannot be the second one. */
  lemma FullCircle(fl: seq<Block>, f: nat, i: nat, freep: nat, prevp: nat, p: nat, n: nat, more: bool)
    requires Walking(fl, f, i, freep, prevp, p, n) && i == f && fl[i].size < n
    requires more ==> HasRoom(fl, n)
    ensures !more && !HasRoom(fl, n)
  {
    forall k | 0 <= k < |fl| ensures fl[k].size < n { assert k == f || Passed(f, i, k); }
  }

  lemma NextStep(fl: seq<Block>, f: nat, i: nat, freep: nat, p: nat, n: nat)
    requires Ordered(fl) && f < |fl| && i < |fl| && fl[f].addr == freep && p == fl[i].addr && n > 0
    requires i != f ==> fl[i].size < n && forall k :: 0 <= k < |fl| && Passed(f, i, k) ==> fl[k].size < n
    ensures Walking(fl, f, NextIx(fl, i), freep, p, fl[NextIx(fl, i)].addr, n)
    ensures i != f ==> Hops(|fl|, NextIx(fl, i), f) < Hops(|fl|, i, f)
  {
    forall k | 0 <= k < |fl| && Passed(f, NextIx(fl, i), k) ensures fl[k].size < n {
      assert i != f && (k == i || Passed(f, i, k));
    }
  }

  lemma TakeStep(fl: seq<Block>, live: seq<Block>, got: nat, top: nat, base: nat, size: Words, ptr: Words, i: nat,
                 n: nat, size': Words, ptr': Words)
    requires Good(fl, live, got, top, base) && Headers(live, size) && Linked(fl, size, ptr) && base > 0
    requires 0 < i < |fl| && 0 < n <= fl[i].size && fl[i].addr in ptr
    requires if fl[i].size == n then size' == size && ptr' == ptr[fl[i - 1].addr := ptr[fl[i].addr]]
             else ptr' == ptr && size' == size[fl[i].addr := fl[i].size - n][Cut(fl, i, n).addr := n]
    ensures Good(Take(fl, i, n), live + [Cut(fl, i, n)], got, top, base) && Headers(live + [Cut(fl, i, n)], size')
    ensures Linked(Take(fl, i, n), size', ptr')
    ensures HasAddr(Take(fl, i, n), fl[i - 1].addr) && fl[i - 1].addr != 0
  {
    TakeGood(fl, live, got, top, base, i, n);
    assert Hop(fl, size, ptr, fl[0].addr, i);
    if fl[i].size == n { LinkTake(fl, size, ptr, i, n, ptr'); } else { LinkShrink(fl, size, ptr, i, n, size'); }
    var live', c := live + [Cut(fl, i, n)], Cut(fl, i, n);
    forall k: nat ensures HeaderOk(live', size', k) {
      assert HeaderOk(live, size, k) && LiveOk(fl, live, top, k);
      if k < |live| {
        assert Apart(fl[i], live[k]);
        NotListed(fl, live[k]);
      }
    }
    if i > 1 { assert Before(fl[0], fl[i - 1]); }
    assert Take(fl, i, n)[i - 1].addr == fl[i - 1].addr;
  }

  lemma MoreStep(fl: seq<Block>, live: seq<Block>, got: nat, top: nat, base: nat, size: Words, ptr: Words, b: Block)
    requires Good(fl, live, got, top, base) && Headers(live, size) && Linked(fl, size, ptr) && top <= b.addr
    requires b.size > 0
    ensures Good(fl, live + [b], got + b.size, b.addr + b.size, base) && Headers(live + [b], size[b.addr := b.size])
    ensures Linked(fl, size[b.addr := b.size], ptr)
    ensures |live + [b]| - 1 == |live| && Remove(live + [b], |live|) == live
  {
    MoreGood(fl, live, got, top, base, b);
    var live', size' := live + [b], size[b.addr := b.size];
    forall k: nat ensures HeaderOk(live', size', k) { assert HeaderOk(live, size, k) && LiveOk(fl, live, top, k); }
    forall i | 0 <= i < |fl| ensures fl[i].addr != b.addr {
      assert Below(fl, top, i);
      if i == 0 { assert fl[0].addr == base; }
    }
    PathFrame(fl, size, ptr, size', ptr, fl[0].addr, b.addr);
  }

  /** The headers free reads are where the list says. */
  ghost predicate Joinable(fl: seq<Block>, size: Words, ptr: Words, j: nat, b: Block) {
    && j < |fl| && b.addr in size && size[b.addr] == b.size && b.addr != fl[j].addr && fl[0].addr < b.addr
    && fl[j].addr in size && fl[j].addr in ptr && size[fl[j].addr] == fl[j].size
    && ptr[fl[j].addr] == fl[NextIx(fl, j)].addr
    && fl[NextIx(fl, j)].addr in size && fl[NextIx(fl, j)].addr in ptr
    && size[fl[NextIx(fl, j)].addr] == fl[NextIx(fl, j)].size
  }

  lemma FreeLinks(fl: seq<Block>, size: Words, ptr: Words, j: nat, b: Block, size1: Words, ptr1: Words, size2: Words,
                  ptr2: Words)
    requires Linked(fl, size, ptr) && Ordered(fl) && Fits(fl, j, b) && Clear(fl, b) && Joinable(fl, size, ptr, j, b)
    requires var bp, p := b.addr, fl[j].addr;
      if bp + size[bp] == ptr[p] then size1 == size[bp := size[bp] + size[ptr[p]]] && ptr1 == ptr[bp := ptr[ptr[p]]]
      else size1 == size && ptr1 == ptr[bp := ptr[p]]
    requires var bp, p := b.addr, fl[j].addr;
      if p + size1[p] == bp then size2 == size1[p := size1[p] + size1[bp]] && ptr2 == ptr1[p := ptr1[bp]]
      else size2 == size1 && ptr2 == ptr1[p := bp]
    ensures Linked(Insert(fl, j, b), size2, ptr2)
  {
    if j + 1 < |fl| { assert TouchesRight(fl, j, b) <==> b.addr + size[b.addr] == ptr[fl[j].addr]; }
    assert size[b.addr := b.size] == size;
    LinkInsert(fl, size, ptr, j, b, size1, ptr1, size2, ptr2);
  }

  lemma FreeStep(fl: seq<Block>, live: seq<Block>, got: nat, top: nat, base: nat, l: nat, j: nat)
    requires Good(fl, live, got, top, base) && base > 0 && l < |live| && Fits(fl, j, live[l])
    ensures Clear(fl, live[l]) && Good(Insert(fl, j, live[l]), Remove(live, l), got, top, base)
    ensures Covers(Insert(fl, j, live[l]), live[l]) && HasAddr(Insert(fl, j, live[l]), fl[j].addr) && fl[j].addr != 0
  {
    var b := live[l];
    assert LiveOk(fl, live, top, l);
    if j > 0 { assert Before(fl[0], fl[j]); }
    FreeGood(fl, live, got, top, base, l, j);
    NotListed(fl, b);
    InsertCovers(fl, j, b);
    InsertAt(fl, j, b);
  }

  lemma EmptyGood(base: nat, top: nat, size: Words)
    requires 0 < base < top
    ensures Good([Block(base, 0)], [], 0, top, base) && Headers([], size)
  {
    var fl, live := [Block(base, 0)], [];
    UnitsOne(fl[0]);
    forall i: nat ensures LiveOk(fl, live, top, i) { }
    forall i: nat, k: nat ensures LiveApart(live, i, k) { }
    forall i: nat ensures Below(fl, top, i) { }
    forall i: nat ensures HeaderOk(live, size, i) { }
  }
}
