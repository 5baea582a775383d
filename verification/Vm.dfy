/** kernel/vm.c and kernel/kalloc.c: the operations on page tables, step by step.  Addresses are
    given by page number where the source requires alignment; `own` records, for the proof, what
    every frame is used for. */
module Vm {
  import opened Sv39
  import opened PageTree
  import opened Frames

  datatype MapResult = Mapped | NoMemory | Panics

  class Kernel {
    var mem: Mem
    var freelist: nat
    ghost var list: seq<nat>
    ghost var own: Roles

    ghost predicate Ready()
      reads this
    {
      Good(mem, own, freelist, list)
    }

    /** kinit: the frames lo..hi-1 go on the free list one by one. */
    constructor (lo: nat, hi: nat, initial: Mem)
      requires 0 < lo <= hi && forall f :: f in initial <==> lo <= f < hi
      requires forall f :: f in initial ==> |initial[f]| == ENTRIES
      ensures Ready() && (forall f :: f in own <==> lo <= f < hi) && forall f :: f in own ==> own[f] == Free
    {
      mem := initial;
      freelist := 0;
      list := [];
      own := map f: nat | f in initial :: Held;
      new;
      InitialGood(mem, own);
      var p := lo;
      while p < hi
        invariant lo <= p <= hi && Ready() && forall f :: f in own <==> lo <= f < hi
        invariant forall f :: lo <= f < hi ==> own[f] == if f < p then Free else Held
      {
        Kfree(p);
        p := p + 1;
      }
    }

    /** Pop the free list and fill the page with junk; 0 when the list is empty. */
    method Kalloc() returns (f: nat)
      requires Ready()
      modifies this
      ensures Ready()
      ensures old(list) == [] ==> f == 0 && mem == old(mem) && own == old(own) && list == []
      ensures old(list) != [] ==> f == old(list)[0] && f != 0 && f in old(own) && old(own)[f] == Free
      ensures f != 0 ==> list == old(list)[1..] && freelist == At(old(mem), f, 0).frame / 4
      ensures f != 0 ==> own == old(own)[f := Held] && mem == old(mem)[f := Junk(JUNK_ALLOCATED)]
      ensures Wrote(old(mem), old(own), mem, 0, 0, [])
    {
      f := freelist;
      if list != [] { KallocGood(mem, own, list, Junk(JUNK_ALLOCATED)); }
      if f != 0 {
        freelist := mem[f][0].frame / 4;
        mem := mem[f := Junk(JUNK_ALLOCATED)];
        own := own[f := Held];
        list := list[1..];
      }
    }

    /** Fill the page with junk and push it. */
    method Kfree(f: nat)
      requires Ready() && f in own && own[f] != Free && !IsTable(own[f])
      modifies this
      ensures Ready()
      ensures mem == old(mem)[f := FreedPage(old(freelist))] && own == old(own)[f := Free] && list == [f] + old(list)
      ensures Wrote(old(mem), old(own), mem, 0, 0, [])
    {
      KfreeGood(mem, own, freelist, list, f);
      mem := mem[f := FreedPage(freelist)];
      own := own[f := Free];
      list := [f] + list;
      freelist := f;
    }

    /** memset or memmove of a whole page that is no table. */
    method Fill(f: nat, data: seq<Word>)
      requires Ready() && f in own && own[f] != Free && !IsTable(own[f]) && |data| == ENTRIES
      modifies this`mem
      ensures Ready() && mem == old(mem)[f := data] && Wrote(old(mem), own, mem, 0, 0, [])
    {
      FillGood(mem, own, freelist, list, f, data);
      mem := mem[f := data];
    }

    /** A cleared page attached below the empty entry i of f; 0 when there is no memory. */
    method NewTable(f: nat, i: nat, ghost role: Role, ghost r: nat) returns (t: nat)
      requires Ready() && Attaches(own, f, i, role) && role.root == r && !Valid(At(mem, f, i))
      modifies this
      ensures Ready() && Grew(old(mem), old(own), mem, own, r, 0, [])
      ensures t != 0 ==> t in own && own[t] == role && Link(mem, f, i) == t
      ensures t == 0 ==> old(list) == list == [] && mem == old(mem) && own == old(own)
      ensures |old(list)| <= |list| + 1
    {
      ghost var mem0, own0 := mem, own;
      if list == [] {
        GrewNothing(mem, own, r, 0);
      } else {
        GrowTable(mem, own, list, f, i, role, r);
      }
      t := Kalloc();
      if t != 0 {
        mem := mem[t := Zeros()];
        assert mem == mem0[t := Zeros()];
        mem := Store(mem, f, i, TablePte(t));
        own := own[t := role];
        assert own == own0[t := role];
      }
    }

    /** One level of walk: the table below entry i of f, made if alloc says so. */
    method Descend(f: nat, i: nat, alloc: bool, ghost role: Role, ghost r: nat) returns (t: nat)
      requires Ready() && Attaches(own, f, i, role) && role.root == r
      modifies this
      ensures Ready() && Grew(old(mem), old(own), mem, own, r, 0, [])
      ensures t != 0 ==> t in own && own[t] == role && Link(mem, f, i) == t
      ensures t == 0 ==> !Valid(At(mem, f, i)) && (alloc ==> list == [])
      ensures !alloc || t == 0 ==> mem == old(mem) && own == old(own) && list == old(list)
      ensures |old(list)| <= |list| + 1
    {
      var pte := mem[f][i];
      if Valid(pte) {
        ChildRole(mem, own, f, i, role);
        GrewNothing(mem, own, r, 0);
        return pte.frame;
      }
      if !alloc {
        GrewNothing(mem, own, r, 0);
        return 0;
      }
      t := NewTable(f, i, role, r);
    }

    /** The leaf table of a page: 0 when it is missing and alloc is false or memory has run out. */
    method Walk(r: nat, page: nat, alloc: bool) returns (t: nat)
      requires Ready() && LiveRoot(own, r) && page < MAXPAGE
      modifies this
      ensures Ready() && Grew(old(mem), old(own), mem, own, r, 0, [])
      ensures t == LeafTable(mem, r, Px2(page), Px1(page))
      ensures t != 0 ==> t in own && own[t] == Leaf(r, Px2(page), Px1(page), true)
      ensures t == 0 && alloc ==> list == [] && |old(list)| <= 1
      ensures !alloc ==> mem == old(mem) && own == old(own) && list == old(list)
      ensures |old(list)| <= |list| + 2
    {
      ghost var mem0, own0 := mem, own;
      SplitJoin(page);
      var m := Descend(r, Px2(page), alloc, Mid(r, Px2(page), true), r);
      if m == 0 {
        StopsHere(mem, own, r, page);
        return 0;
      }
      ghost var mem1, own1 := mem, own;
      t := Descend(m, Px1(page), alloc, Leaf(r, Px2(page), Px1(page), true), r);
      GrewThen(mem0, own0, mem1, own1, mem, own, r, 0, [], []);
      MidStays(mem, own, m, r, Px2(page));
    }

    /** Write the entry of a page in its leaf table. */
    method StoreLeaf(t: nat, r: nat, page: nat, pte: Word)
      requires Ready() && page < MAXPAGE && t in own && own[t] == Leaf(r, Px2(page), Px1(page), true)
      requires EntryOk(pte) && forall g :: g in own ==> own[g] != Data(r, page)
      modifies this`mem
      ensures Ready() && t in old(mem) && Px0(page) < |old(mem)[t]| && mem == Store(old(mem), t, Px0(page), pte)
      ensures Wrote(old(mem), own, mem, r, page, [pte])
    {
      StoreGood(mem, own, freelist, list, t, r, page, pte);
      mem := Store(mem, t, Px0(page), pte);
    }

    method MapOne(r: nat, page: nat, frame: nat, perm: Flags) returns (res: MapResult)
      requires Ready() && LiveRoot(own, r) && page < MAXPAGE && Leafy(perm)
      modifies this
      ensures Ready()
      ensures Grew(old(mem), old(own), mem, own, r, page, if res == Mapped then [Word(frame, perm.(v := true))] else [])
      ensures res == Panics <==> Valid(Pte(old(mem), r, page))
      ensures res == NoMemory ==> list == [] && |old(list)| <= 1
      ensures |old(list)| <= |list| + 2
    {
      ghost var mem0, own0 := mem, own;
      var t := Walk(r, page, true);
      ghost var mem1 := mem;
      GrewSame(mem0, own0, mem, own, r, page);
      if t == 0 {
        NoLeaf(mem, own, r, page);
        return NoMemory;
      }
      var pte := mem[t][Px0(page)];
      if Valid(pte) { return Panics; }
      NoData(mem, own, r, page);
      StoreLeaf(t, r, page, Word(frame, perm.(v := true)));
      StoreGrew(mem0, own0, mem1, own, mem, r, page, t, Word(frame, perm.(v := true)));
      res := Mapped;
    }

    /** One round of mappages: page first+k after the first k pages have been mapped. */
    method MapNext(r: nat, a: nat, frame: nat, perm: Flags, ghost mem0: Mem, ghost own0: Roles, ghost first: nat,
                   ghost start: nat, ghost k: nat)
      returns (res: MapResult)
      requires Ready() && LiveRoot(own, r) && LiveRoot(own0, r) && a == first + k < MAXPAGE && frame == start + k
      requires Leafy(perm)
      requires Grew(mem0, own0, mem, own, r, first, Consecutive(start, perm.(v := true), k))
      modifies this
      ensures Ready() && LiveRoot(own, r)
      ensures var n := if res == Mapped then k + 1 else k;
        Grew(mem0, own0, mem, own, r, first, Consecutive(start, perm.(v := true), n))
      ensures res == Panics <==> Valid(Pte(mem0, r, a))
      ensures res == NoMemory ==> list == [] && |old(list)| <= 1
      ensures |old(list)| <= |list| + 2
    {
      ghost var mem1, own1 := mem, own;
      BeyondSame(mem0, own0, mem, own, r, first, Consecutive(start, perm.(v := true), k), a);
      res := MapOne(r, a, frame, perm);
      MapRound(mem0, own0, mem1, own1, mem, own, r, first, start, perm.(v := true), k, res == Mapped);
    }

    /** Map the pages first..last to consecutive frames; k is how many were mapped. */
    method MapRange(r: nat, first: nat, last: nat, start: nat, perm: Flags) returns (res: MapResult, ghost k: nat)
      requires Ready() && LiveRoot(own, r) && first <= last && Leafy(perm)
      modifies this
      ensures Ready() && k <= last - first + 1 && (k == last - first + 1 <==> res == Mapped)
      ensures Grew(old(mem), old(own), mem, own, r, first, Consecutive(start, perm.(v := true), k))
      ensures res == NoMemory ==> list == [] && first + k < MAXPAGE && !Valid(Pte(old(mem), r, first + k))
      ensures res == Panics ==> first + k >= MAXPAGE || Valid(Pte(old(mem), r, first + k))
      ensures |old(list)| <= |list| + 2 * k + (if res == Mapped then 0 else 2)
      ensures (res == NoMemory ==> |old(list)| <= 2 * k + 1)
    {
      var a, frame := first, start;
      k := 0;
      ghost var mem0, own0 := mem, own;
      GrewNothing(mem, own, r, a);
      while true
        invariant Ready() && LiveRoot(own, r) && a == first + k && frame == start + k && a <= last
        invariant Grew(mem0, own0, mem, own, r, first, Consecutive(start, perm.(v := true), k))
        invariant |old(list)| <= |list| + 2 * k
        decreases last - a
      {
        if a >= MAXPAGE { return Panics, k; }
        res := MapNext(r, a, frame, perm, mem0, own0, first, start, k);
        if res != Mapped { return; }
        k := k + 1;
        if a == last { return; }
        a, frame := a + 1, frame + 1;
      }
    }

    /** mappages: the pages of va .. va+size-1, which need not be aligned, to consecutive frames. */
    method MapPages(r: nat, va: nat, size: nat, pa: nat, perm: Flags) returns (res: MapResult, ghost k: nat)
      requires Ready() && LiveRoot(own, r) && size > 0 && Leafy(perm)
      modifies this
      ensures Ready() && k <= (va + size - 1) / PGSIZE - va / PGSIZE + 1
      ensures res == Mapped <==> k == (va + size - 1) / PGSIZE - va / PGSIZE + 1
      ensures Grew(old(mem), old(own), mem, own, r, va / PGSIZE, Consecutive(pa / PGSIZE, perm.(v := true), k))
      ensures res == NoMemory ==> list == [] && va / PGSIZE + k < MAXPAGE && !Valid(Pte(old(mem), r, va / PGSIZE + k))
      ensures res == Panics ==> va / PGSIZE + k >= MAXPAGE || Valid(Pte(old(mem), r, va / PGSIZE + k))
      ensures |old(list)| <= |list| + 2 * k + (if res == Mapped then 0 else 2)
      ensures (res == NoMemory ==> |old(list)| <= 2 * k + 1)
    {
      var first, last, start := va / PGSIZE, (va + size - 1) / PGSIZE, pa / PGSIZE;
      res, k := MapRange(r, first, last, start, perm);
    }

    /** mappages for one whole page. */
    method MapPage(r: nat, page: nat, frame: nat, perm: Flags) returns (res: MapResult)
      requires Ready() && LiveRoot(own, r) && page < MAXPAGE && Leafy(perm)
      modifies this
      ensures Ready()
      ensures Grew(old(mem), old(own), mem, own, r, page, if res == Mapped then [Word(frame, perm.(v := true))] else [])
      ensures res == Panics ==> Valid(Pte(old(mem), r, page))
      ensures res == NoMemory ==> list == [] && |old(list)| <= 1
      ensures |old(list)| <= |list| + 2
    {
      ghost var k;
      WholePage(page, frame, perm.(v := true));
      res, k := MapPages(r, page * PGSIZE, PGSIZE, frame * PGSIZE, perm);
    }

    /** Unmap one page; false for the panics of uvmunmap. */
    method UnmapOne(r: nat, page: nat, doFree: bool) returns (ok: bool)
      requires Ready() && LiveRoot(own, r) && page < MAXPAGE && MayUnmap(mem, own, r, page, doFree)
      modifies this
      ensures Ready() && LiveRoot(own, r)
      ensures ok <==> Valid(Pte(old(mem), r, page))
      ensures ok ==> Shrunk(old(mem), old(own), mem, own, r, page, 1, doFree)
      ensures !ok ==> mem == old(mem) && own == old(own)
    {
      ghost var mem0, own0 := mem, own;
      var t := Walk(r, page, false);
      if t == 0 {
        NoLeaf(mem, own, r, page);
        return false;
      }
      var pte := mem[t][Px0(page)];
      if !Valid(pte) { return false; }
      LeafEntry(mem, own, t, Px0(page));
      if pte.flags == TABLE_FLAGS { return false; }
      if doFree { Kfree(pte.frame); }
      UnmapMiddle(mem0, own0, mem, own, t, r, page, doFree);
      ghost var mem1 := mem;
      StoreLeaf(t, r, page, ZERO);
      UnmapDone(mem0, own0, mem1, own, mem, t, r, page, doFree);
      ok := true;
    }

    method UnmapNext(r: nat, a: nat, doFree: bool, ghost mem0: Mem, ghost own0: Roles, ghost lo: nat, ghost k: nat)
      returns (ok: bool)
      requires Ready() && LiveRoot(own, r) && LiveRoot(own0, r) && a == lo + k < MAXPAGE
      requires Shrunk(mem0, own0, mem, own, r, lo, k, doFree) && MayUnmap(mem0, own0, r, a, doFree)
      requires AllMapped(mem0, r, lo, k)
      modifies this
      ensures Ready() && LiveRoot(own, r)
      ensures ok <==> AllMapped(mem0, r, lo, k + 1)
      ensures ok ==> Shrunk(mem0, own0, mem, own, r, lo, k + 1, doFree)
    {
      ghost var mem1, own1 := mem, own;
      StillMay(mem0, own0, mem, own, r, lo, k, doFree, a);
      assert AllMapped(mem0, r, lo, k + 1) <==> IsMapped(mem0, r, lo + k);
      ok := UnmapOne(r, a, doFree);
      if ok { ShrunkThen(mem0, own0, mem1, own1, mem, own, r, lo, k, doFree); }
    }

    method UnmapRange(r: nat, lo: nat, n: nat, doFree: bool) returns (ok: bool)
      requires Ready() && LiveRoot(own, r)
      requires forall p :: lo <= p < lo + n && p < MAXPAGE ==> MayUnmap(mem, own, r, p, doFree)
      modifies this
      ensures Ready() && LiveRoot(own, r)
      ensures ok <==> AllMapped(old(mem), r, lo, n)
      ensures ok ==> Shrunk(old(mem), old(own), mem, own, r, lo, n, doFree)
    {
      var k := 0;
      ghost var mem0, own0 := mem, own;
      ShrunkNothing(mem, own, r, lo, doFree);
      while k < n
        invariant k <= n && Ready() && LiveRoot(own, r)
        invariant Shrunk(mem0, own0, mem, own, r, lo, k, doFree)
        invariant AllMapped(mem0, r, lo, k)
      {
        assert AllMapped(mem0, r, lo, n) ==> IsMapped(mem0, r, lo + k);
        if lo + k >= MAXPAGE { return false; }
        ok := UnmapNext(r, lo + k, doFree, mem0, own0, lo, k);
        if !ok { return; }
        k := k + 1;
      }
      ok := true;
    }

    /** uvmunmap: remove npages entries from va on; false stands for its panics. */
    method Uvmunmap(r: nat, va: nat, npages: nat, doFree: bool) returns (ok: bool)
      requires Ready() && LiveRoot(own, r)
      requires forall p :: va / PGSIZE <= p < va / PGSIZE + npages && p < MAXPAGE ==> MayUnmap(mem, own, r, p, doFree)
      modifies this
      ensures Ready() && LiveRoot(own, r)
      ensures ok <==> va % PGSIZE == 0 && AllMapped(old(mem), r, va / PGSIZE, npages)
      ensures ok ==> Shrunk(old(mem), old(own), mem, own, r, va / PGSIZE, npages, doFree)
    {
      if va % PGSIZE != 0 { return false; }
      var lo := va / PGSIZE;
      ok := UnmapRange(r, lo, npages, doFree);
    }
  }

  lemma ChildRole(mem: Mem, own: Roles, f: nat, i: nat, role: Role)
    requires Ok(mem, own) && Attaches(own, f, i, role) && Valid(At(mem, f, i))
    ensures Link(mem, f, i) in own && own[Link(mem, f, i)] == role && Link(mem, f, i) != 0
  {
    if own[f].Root? { WalkMid(mem, own, f, i); } else { WalkLeaf(mem, own, f, own[f].root, own[f].a, i); }
  }

  lemma StopsHere(mem: Mem, own: Roles, r: nat, page: nat)
    requires Pages(mem, own) && !Valid(At(mem, r, Px2(page)))
    ensures LeafTable(mem, r, Px2(page), Px1(page)) == 0
  {
    assert At(mem, 0, Px1(page)) == ZERO;
  }

  lemma MidStays(mem: Mem, own: Roles, m: nat, r: nat, a: nat)
    requires Ok(mem, own) && m in own && own[m] == Mid(r, a, true)
    ensures Link(mem, r, a) == m
  {
    assert FrameOk(mem, own, m);
  }

  lemma GrewSame(mem: Mem, own: Roles, mem': Mem, own': Roles, r: nat, page: nat)
    requires Grew(mem, own, mem', own', r, 0, []) && LiveRoot(own, r) && page < MAXPAGE
    ensures Grew(mem, own, mem', own', r, page, []) && Pte(mem', r, page) == Pte(mem, r, page)
    ensures LiveRoot(own', r)
  {
    WroteNothing(mem, own, mem', r, r, 0, page);
  }

  lemma NoLeaf(mem: Mem, own: Roles, r: nat, page: nat)
    requires Pages(mem, own) && LeafTable(mem, r, Px2(page), Px1(page)) == 0
    ensures Pte(mem, r, page) == ZERO
  {
  }

  lemma NoData(mem: Mem, own: Roles, r: nat, page: nat)
    requires Ok(mem, own) && !Valid(Pte(mem, r, page))
    ensures forall g :: g in own ==> own[g] != Data(r, page)
  {
    forall g | g in own && own[g] == Data(r, page) ensures false { UnmappedHasNoData(mem, own, r, page, g); }
  }

  lemma StoreGrew(mem: Mem, own: Roles, mid: Mem, own': Roles, mem': Mem, r: nat, page: nat, t: nat, pte: Word)
    requires Grew(mem, own, mid, own', r, page, []) && Wrote(mid, own', mem', r, page, [pte])
    requires t in own' && t in mid && IsTable(own'[t]) && Px0(page) < |mid[t]| && mem' == Store(mid, t, Px0(page), pte)
    ensures Grew(mem, own, mem', own', r, page, [pte])
  {
    WroteThen(mem, own, mid, own', mem', r, page, [], [pte]);
    assert [] + [pte] == [pte];
    forall f | f in own && !IsTable(own[f]) && own[f] != Free ensures Contents(mem', f) == Contents(mem, f) {
      assert Contents(mid, f) == Contents(mem, f) && own'[f] == own[f];
    }
  }

  /** The entries that map n consecutive frames. */
  function Consecutive(frame: nat, flags: Flags, n: nat): (s: seq<Word>)
    ensures |s| == n && forall i :: 0 <= i < n ==> s[i] == Word(frame + i, flags)
  {
    if n == 0 then [] else Consecutive(frame, flags, n - 1) + [Word(frame + n - 1, flags)]
  }

  lemma BeyondSame(mem: Mem, own: Roles, mem': Mem, own': Roles, r: nat, lo: nat, ptes: seq<Word>, page: nat)
    requires Grew(mem, own, mem', own', r, lo, ptes) && LiveRoot(own, r) && lo + |ptes| <= page < MAXPAGE
    ensures Pte(mem', r, page) == Pte(mem, r, page)
  {
  }

  lemma MapRound(mem: Mem, own: Roles, mid: Mem, own2: Roles, mem': Mem, own': Roles, r: nat, lo: nat, frame: nat,
                 flags: Flags, k: nat, mapped: bool)
    requires Grew(mem, own, mid, own2, r, lo, Consecutive(frame, flags, k)) && LiveRoot(own2, r)
    requires Grew(mid, own2, mem', own', r, lo + k, if mapped then [Word(frame + k, flags)] else [])
    ensures Grew(mem, own, mem', own', r, lo, Consecutive(frame, flags, if mapped then k + 1 else k))
    ensures LiveRoot(own', r)
  {
    var xs, ys := Consecutive(frame, flags, k), if mapped then [Word(frame + k, flags)] else [];
    GrewThen(mem, own, mid, own2, mem', own', r, lo, xs, ys);
    assert !mapped ==> xs + ys == xs;
  }

  // ----- Unmapping -----

  /** With doFree a mapped page must hold a data frame of its own; without, none. */
  ghost predicate MayUnmap(mem: Mem, own: Roles, r: nat, page: nat, doFree: bool) {
    if doFree then
      var pte := Pte(mem, r, page);
      Valid(pte) ==> pte.frame in own && own[pte.frame] == Data(r, page)
    else forall g :: g in own ==> own[g] != Data(r, page)
  }

  function NoEntries(n: nat): (s: seq<Word>)
    ensures |s| == n && forall i :: 0 <= i < n ==> s[i] == ZERO
  {
    if n == 0 then [] else NoEntries(n - 1) + [ZERO]
  }

  /** Exactly n pages from lo on lost their entries, and their frames are free again if doFree. */
  ghost predicate Shrunk(mem: Mem, own: Roles, mem': Mem, own': Roles, r: nat, lo: nat, n: nat, doFree: bool) {
    && Wrote(mem, own, mem', r, lo, NoEntries(n)) && KeepsData(mem, own', mem')
    && if doFree then Returned(own, own', r, lo, lo + n) else own' == own
  }

  lemma LeafEntry(mem: Mem, own: Roles, t: nat, c: nat)
    requires Ok(mem, own) && t in own && own[t].Leaf? && own[t].live && c < ENTRIES && Valid(At(mem, t, c))
    ensures Leafy(At(mem, t, c).flags)
  {
    assert FrameOk(mem, own, t);
  }

  ghost predicate FreedOne(mem: Mem, own: Roles, mem': Mem, own': Roles, r: nat, page: nat, doFree: bool) {
    if doFree then
      && Pte(mem, r, page).frame in own && own[Pte(mem, r, page).frame] == Data(r, page)
      && own' == own[Pte(mem, r, page).frame := Free]
      && mem' == mem[Pte(mem, r, page).frame := Contents(mem', Pte(mem, r, page).frame)]
    else mem' == mem && own' == own && forall g :: g in own ==> own[g] != Data(r, page)
  }

  /** The frame of a data page is the only one with its role. */
  lemma OneData(mem: Mem, own: Roles, r: nat, page: nat, g: nat)
    requires Ok(mem, own) && g in own && own[g] == Data(r, page)
    ensures g == Pte(mem, r, page).frame
  {
    UnmappedHasNoData(mem, own, r, page, g);
  }

  lemma UnmapMiddle(mem: Mem, own: Roles, mem': Mem, own': Roles, t: nat, r: nat, page: nat, doFree: bool)
    requires Ok(mem, own) && t in own && own[t] == Leaf(r, Px2(page), Px1(page), true)
    requires FreedOne(mem, own, mem', own', r, page, doFree)
    ensures t in own' && own'[t] == own[t] && forall g :: g in own' ==> own'[g] != Data(r, page)
  {
    forall g | g in own && own[g] == Data(r, page) ensures g == Pte(mem, r, page).frame {
      OneData(mem, own, r, page, g);
    }
  }

  lemma UnmapDone(mem: Mem, own: Roles, mid: Mem, own': Roles, mem': Mem, t: nat, r: nat, page: nat, doFree: bool)
    requires Ok(mem, own) && LiveRoot(own, r) && FreedOne(mem, own, mid, own', r, page, doFree)
    requires t in own && IsTable(own[t]) && t in mid && Px0(page) < |mid[t]| && mem' == Store(mid, t, Px0(page), ZERO)
    requires Wrote(mid, own', mem', r, page, [ZERO])
    ensures Shrunk(mem, own, mem', own', r, page, 1, doFree) && LiveRoot(own', r)
  {
    forall q, p | q in own && own[q] == Root(true) && 0 <= p < MAXPAGE
      ensures Pte(mem', q, p) == if q == r && page <= p < page + 1 then NoEntries(1)[p - page] else Pte(mem, q, p)
    {
      if doFree {
        var f := Pte(mem, r, page).frame;
        PlainTranslates(mem, own, f, Contents(mid, f), q, p);
      }
    }
    forall g | g in own && own[g] == Data(r, page) ensures g == Pte(mem, r, page).frame {
      OneData(mem, own, r, page, g);
    }
  }

  ghost predicate IsMapped(mem: Mem, r: nat, page: nat) { page < MAXPAGE && Valid(Pte(mem, r, page)) }

  /** The n pages from lo on are all mapped. */
  ghost predicate AllMapped(mem: Mem, r: nat, lo: nat, n: nat) {
    forall p :: lo <= p < lo + n ==> IsMapped(mem, r, p)
  }

  lemma ShrunkNothing(mem: Mem, own: Roles, r: nat, lo: nat, doFree: bool)
    ensures Shrunk(mem, own, mem, own, r, lo, 0, doFree)
  {
  }

  lemma StillMay(mem: Mem, own: Roles, mem': Mem, own': Roles, r: nat, lo: nat, k: nat, doFree: bool, page: nat)
    requires Shrunk(mem, own, mem', own', r, lo, k, doFree) && LiveRoot(own, r) && lo + k <= page < MAXPAGE
    requires MayUnmap(mem, own, r, page, doFree)
    ensures MayUnmap(mem', own', r, page, doFree) && Pte(mem', r, page) == Pte(mem, r, page)
  {
  }

  lemma ShrunkThen(mem: Mem, own: Roles, mid: Mem, own2: Roles, mem': Mem, own': Roles, r: nat, lo: nat, k: nat,
                   doFree: bool)
    requires Shrunk(mem, own, mid, own2, r, lo, k, doFree) && Shrunk(mid, own2, mem', own', r, lo + k, 1, doFree)
    ensures Shrunk(mem, own, mem', own', r, lo, k + 1, doFree)
  {
    assert forall q :: q in own && own[q] == Root(true) ==> q in own2 && own2[q] == Root(true);
    WroteThen(mem, own, mid, own2, mem', r, lo, NoEntries(k), NoEntries(1));
    assert NoEntries(k) + NoEntries(1) == NoEntries(k + 1);
    forall f | f in own' && !IsTable(own'[f]) && own'[f] != Free ensures Contents(mem', f) == Contents(mem, f) {
      assert own2[f] == own'[f];
      assert Contents(mid, f) == Contents(mem, f);
    }
  }

  lemma WholePage(page: nat, frame: nat, flags: Flags)
    ensures page * PGSIZE / PGSIZE == page && (page * PGSIZE + PGSIZE - 1) / PGSIZE == page
    ensures frame * PGSIZE / PGSIZE == frame
    ensures Consecutive(frame, flags, 1) == [Word(frame, flags)] && Consecutive(frame, flags, 0) == []
  {
  }

  lemma InitialGood(mem: Mem, own: Roles)
    requires Pages(mem, own) && forall f :: f in own ==> own[f] == Held
    ensures Good(mem, own, 0, [])
  {
    forall f: nat ensures FrameOk(mem, own, f) { }
    var none: seq<nat> := [];
    forall i: nat ensures LinkOk(mem, own, none, i) { }
    forall f: nat ensures Listed(own, none, f) { }
  }
}
