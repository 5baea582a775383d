/** kernel/vm.c: growing, shrinking, copying and freeing a process's user memory.  Whichever
    allocation fails, the page map is as before and every data frame is back on the free list. */
module Uvm {
  import opened Sv39
  import opened PageTree
  import opened Frames
  import opened Vm
  import opened FreeWalk

  /** What a new user page holds. */
  datatype Page = Page(flags: Flags, data: seq<Word>)

  /** Page p of r is a frame of its own with the wanted flags and contents. */
  ghost predicate Holds(mem: Mem, own: Roles, r: nat, p: nat, want: Page) {
    var pte := Pte(mem, r, p);
    && Valid(pte) && pte.flags == want.flags && pte.frame in own && own[pte.frame] == Data(r, p)
    && Contents(mem, pte.frame) == want.data
  }

  ghost predicate Outside(mem: Mem, own: Roles, mem': Mem, r: nat, lo: nat, n: nat) {
    forall q, p {:trigger Pte(mem', q, p)} :: LiveRoot(own, q) && 0 <= p < MAXPAGE && !(q == r && lo <= p < lo + n) ==>
      Pte(mem', q, p) == Pte(mem, q, p)
  }

  ghost predicate HoldsAt(mem: Mem, own: Roles, r: nat, lo: nat, pages: seq<Page>, i: nat) {
    i < |pages| ==> Holds(mem, own, r, lo + i, pages[i])
  }

  /** The pages from lo on hold pages; no other translation, role or content in use changed, except
      that free frames may have become tables of r. */
  ghost predicate Gained(mem: Mem, own: Roles, mem': Mem, own': Roles, r: nat, lo: nat, pages: seq<Page>) {
    && Placed(own, own', r, lo, lo + |pages|) && KeepsData(mem, own, mem') && Outside(mem, own, mem', r, lo, |pages|)
    && forall i {:trigger HoldsAt(mem', own', r, lo, pages, i)} :: HoldsAt(mem', own', r, lo, pages, i)
  }

  lemma GainedNothing(mem: Mem, own: Roles, r: nat, lo: nat)
    ensures Gained(mem, own, mem, own, r, lo, [])
  {
  }

  lemma GiveOutside(mem: Mem, own: Roles, f: nat, data: seq<Word>, mem': Mem, r: nat, page: nat, ptes: seq<Word>)
    requires f in own && own[f] == Free && Wrote(mem, own, mem[f := data], 0, 0, [])
    requires Wrote(mem[f := data], own[f := Held], mem', r, page, ptes)
    ensures Outside(mem, own, mem', r, page, |ptes|)
  {
    forall q, p | LiveRoot(own, q) && 0 <= p < MAXPAGE && !(q == r && page <= p < page + |ptes|)
      ensures Pte(mem', q, p) == Pte(mem, q, p)
    {
      assert Pte(mem[f := data], q, p) == Pte(mem, q, p);
    }
  }

  lemma GiveKeeps(mem: Mem, own: Roles, f: nat, data: seq<Word>, mem': Mem)
    requires f in own && own[f] == Free && KeepsData(mem[f := data], own[f := Held], mem')
    ensures KeepsData(mem, own, mem') && Contents(mem', f) == data
  {
    forall g | g in own && !IsTable(own[g]) && own[g] != Free ensures Contents(mem', g) == Contents(mem, g) {
      assert Contents(mem[f := data], g) == Contents(mem, g);
    }
  }

  /** Frame f, taken and filled, is mapped at page. */
  lemma GiveDone(mem: Mem, own: Roles, f: nat, data: seq<Word>, mem': Mem, own': Roles, r: nat, page: nat, flags: Flags)
    requires f in own && own[f] == Free && Wrote(mem, own, mem[f := data], 0, 0, []) && LiveRoot(own, r)
    requires page < MAXPAGE && flags.v
    requires Grew(mem[f := data], own[f := Held], mem', own', r, page, [Word(f, flags)])
    ensures f in own' && own'[f] == Held && LiveRoot(own', r) && Pte(mem', r, page) == Word(f, flags)
    ensures Gained(mem, own, mem', own'[f := Data(r, page)], r, page, [Page(flags, data)])
  {
    GiveOutside(mem, own, f, data, mem', r, page, [Word(f, flags)]);
    GiveKeeps(mem, own, f, data, mem');
    assert Pte(mem', r, page) == [Word(f, flags)][page - page];
  }

  /** Frame f, taken and filled, is given back. */
  lemma GiveFailed(mem: Mem, own: Roles, f: nat, data: seq<Word>, mid: Mem, own2: Roles, junk: seq<Word>, r: nat,
                   page: nat)
    requires f in own && own[f] == Free && Wrote(mem, own, mem[f := data], 0, 0, []) && LiveRoot(own, r)
    requires Grew(mem[f := data], own[f := Held], mid, own2, r, page, []) && Wrote(mid, own2, mid[f := junk], 0, 0, [])
    ensures Gained(mem, own, mid[f := junk], own2[f := Free], r, page, [])
  {
    GiveOutside(mem, own, f, data, mid, r, page, []);
    GiveKeeps(mem, own, f, data, mid);
    var mem' := mid[f := junk];
    forall q, p | LiveRoot(own, q) && 0 <= p < MAXPAGE ensures Pte(mem', q, p) == Pte(mem, q, p) {
      assert own2[q] == own[q];
      assert Pte(mid, q, p) == Pte(mem, q, p);
    }
    forall g | g in own && !IsTable(own[g]) && own[g] != Free ensures Contents(mem', g) == Contents(mem, g) {
      assert Contents(mid, g) == Contents(mem, g);
    }
  }

  lemma FillTwice(mem: Mem, own: Roles, f: nat, mid: Mem, data: seq<Word>, mem': Mem)
    requires f in own && own[f] == Free && mid == mem[f := Contents(mid, f)] && mem' == mid[f := data]
    requires Wrote(mem, own, mid, 0, 0, []) && Wrote(mid, own[f := Held], mem', 0, 0, [])
    ensures mem' == mem[f := data] && Wrote(mem, own, mem', 0, 0, [])
  {
    WroteThen(mem, own, mid, own[f := Held], mem', 0, 0, [], []);
  }

  /** kalloc, then fill the page; 0 when memory has run out. */
  method TakeFilled(k: Kernel, data: seq<Word>) returns (f: nat)
    requires k.Ready() && |data| == ENTRIES
    modifies k
    ensures k.Ready()
    ensures f == 0 ==> old(k.list) == [] && k.mem == old(k.mem) && k.own == old(k.own)
    ensures f != 0 ==> f in old(k.own) && old(k.own)[f] == Free
    ensures f != 0 ==> k.mem == old(k.mem)[f := data] && k.own == old(k.own)[f := Held] && |old(k.list)| == |k.list| + 1
    ensures Wrote(old(k.mem), old(k.own), k.mem, 0, 0, [])
  {
    ghost var mem0, own0 := k.mem, k.own;
    f := k.Kalloc();
    if f != 0 {
      ghost var mem1 := k.mem;
      k.Fill(f, data);
      FillTwice(mem0, own0, f, mem1, data, k.mem);
    }
  }

  /** A page of r backed by a new frame; false, and nothing gained, when memory runs out. */
  method GivePage(k: Kernel, r: nat, page: nat, flags: Flags, data: seq<Word>) returns (ok: bool)
    requires k.Ready() && LiveRoot(k.own, r) && page < MAXPAGE && !Valid(Pte(k.mem, r, page)) && Leafy(flags)
    requires |data| == ENTRIES
    modifies k
    ensures k.Ready() && LiveRoot(k.own, r)
    ensures Gained(old(k.mem), old(k.own), k.mem, k.own, r, page, if ok then [Page(flags.(v := true), data)] else [])
    ensures |old(k.list)| <= if ok then |k.list| + 3 else 2
  {
    ghost var mem0, own0 := k.mem, k.own;
    var f := TakeFilled(k, data);
    if f == 0 {
      GainedNothing(k.mem, k.own, r, page);
      return false;
    }
    assert Pte(k.mem, r, page) == Pte(mem0, r, page);
    var res := k.MapPage(r, page, f, flags);
    if res == Mapped {
      GiveDone(mem0, own0, f, data, k.mem, k.own, r, page, flags.(v := true));
      PlaceGood(k.mem, k.own, k.freelist, k.list, r, page, f);
      k.own := k.own[f := Data(r, page)];
      return true;
    }
    ghost var mem2, own2, head := k.mem, k.own, k.freelist;
    assert own2[f] == Held;
    k.Kfree(f);
    GiveFailed(mem0, own0, f, data, mem2, own2, FreedPage(head), r, page);
    ok := false;
  }

  // ----- Runs of pages -----

  lemma HoldsStill(mem: Mem, own: Roles, mem': Mem, own': Roles, r: nat, lo: nat, ys: seq<Page>, p: nat, want: Page)
    requires Holds(mem, own, r, p, want) && Gained(mem, own, mem', own', r, lo, ys) && LiveRoot(own, r)
    requires 0 <= p < MAXPAGE && !(lo <= p < lo + |ys|)
    ensures Holds(mem', own', r, p, want)
  {
    var f := Pte(mem, r, p).frame;
    assert Pte(mem', r, p) == Pte(mem, r, p) && own'[f] == own[f] && Contents(mem', f) == Contents(mem, f);
  }

  lemma GainedThen(mem: Mem, own: Roles, mid: Mem, own2: Roles, mem': Mem, own': Roles, r: nat, lo: nat, xs: seq<Page>,
                   ys: seq<Page>)
    requires Gained(mem, own, mid, own2, r, lo, xs) && Gained(mid, own2, mem', own', r, lo + |xs|, ys)
    requires LiveRoot(own, r)
    requires lo + |xs| <= MAXPAGE
    ensures Gained(mem, own, mem', own', r, lo, xs + ys)
  {
    assert own2[r] == own[r];
    GainedFrame(mem, own, mid, own2, mem', own', r, lo, |xs|, |ys|);
    forall i: nat ensures HoldsAt(mem', own', r, lo, xs + ys, i) {
      if i < |xs| {
        assert HoldsAt(mid, own2, r, lo, xs, i);
        HoldsStill(mid, own2, mem', own', r, lo + |xs|, ys, lo + i, xs[i]);
      } else {
        assert HoldsAt(mem', own', r, lo + |xs|, ys, i - |xs|);
      }
    }
  }

  lemma GainedFrame(mem: Mem, own: Roles, mid: Mem, own2: Roles, mem': Mem, own': Roles, r: nat, lo: nat, m: nat,
                    n: nat)
    requires Placed(own, own2, r, lo, lo + m) && KeepsData(mem, own, mid) && Outside(mem, own, mid, r, lo, m)
    requires Placed(own2, own', r, lo + m, lo + m + n) && KeepsData(mid, own2, mem')
    requires Outside(mid, own2, mem', r, lo + m, n)
    ensures Placed(own, own', r, lo, lo + m + n) && KeepsData(mem, own, mem') && Outside(mem, own, mem', r, lo, m + n)
  {
    assert forall f :: f in own && own[f] != Free ==> own2[f] == own[f];
    KeepsDataTrans(mem, own, mid, own2, mem');
    forall q, p | LiveRoot(own, q) && 0 <= p < MAXPAGE && !(q == r && lo <= p < lo + m + n)
      ensures Pte(mem', q, p) == Pte(mem, q, p)
    {
      assert own2[q] == own[q] && Pte(mid, q, p) == Pte(mem, q, p);
    }
    forall f | f in own ensures own'[f] == own[f] || own2[f] == own'[f] || own[f] == Free { }
  }

  ghost predicate AllUnmapped(mem: Mem, r: nat, lo: nat, n: nat) {
    forall p {:trigger Pte(mem, r, p)} :: lo <= p < lo + n ==> !Valid(Pte(mem, r, p))
  }

  lemma UndoneRoles(mem: Mem, own: Roles, own1: Roles, own2: Roles, r: nat, lo: nat, n: nat)
    requires Ok(mem, own) && AllUnmapped(mem, r, lo, n)
    requires Placed(own, own1, r, lo, lo + n) && Returned(own1, own2, r, lo, lo + n)
    ensures Placed(own, own2, r, lo, lo)
  {
    forall f | f in own ensures own2[f] == own[f] || (own[f] == Free && TableOf(own2[f], r)) {
      assert own1[f] == own[f] || own[f] == Free;
      if own[f].Data? && own[f].root == r { UnmappedHasNoData(mem, own, r, own[f].page, f); }
    }
  }

  lemma UndoneOutside(mem: Mem, own: Roles, mid: Mem, own1: Roles, mem': Mem, r: nat, lo: nat, n: nat)
    requires Ok(mem, own) && AllUnmapped(mem, r, lo, n) && Placed(own, own1, r, lo, lo + n)
    requires Outside(mem, own, mid, r, lo, n) && Wrote(mid, own1, mem', r, lo, NoEntries(n))
    ensures Outside(mem, own, mem', r, lo, 0)
  {
    forall q, p | LiveRoot(own, q) && 0 <= p < MAXPAGE ensures Pte(mem', q, p) == Pte(mem, q, p) {
      assert own1[q] == own[q];
      if q == r && lo <= p < lo + n {
        PteOk(mem, own, q, p);
      } else {
        assert Pte(mid, q, p) == Pte(mem, q, p);
      }
    }
  }

  /** Unmapping the pages just gained, with their frames, leaves nothing gained. */
  lemma GainedUndone(mem: Mem, own: Roles, mid: Mem, own1: Roles, mem': Mem, own2: Roles, r: nat, lo: nat,
                     xs: seq<Page>)
    requires Ok(mem, own) && AllUnmapped(mem, r, lo, |xs|)
    requires Gained(mem, own, mid, own1, r, lo, xs) && Shrunk(mid, own1, mem', own2, r, lo, |xs|, true)
    ensures Gained(mem, own, mem', own2, r, lo, [])
  {
    UndoneRoles(mem, own, own1, own2, r, lo, |xs|);
    UndoneOutside(mem, own, mid, own1, mem', r, lo, |xs|);
    forall f | f in own && !IsTable(own[f]) && own[f] != Free ensures Contents(mem', f) == Contents(mem, f) {
      assert own2[f] == own[f] && Contents(mid, f) == Contents(mem, f);
    }
  }

  lemma GainedMore(mem: Mem, own: Roles, mid: Mem, own2: Roles, mem': Mem, own': Roles, r: nat, lo: nat, xs: seq<Page>,
                   page: Page, ok: bool)
    requires Gained(mem, own, mid, own2, r, lo, xs)
    requires Gained(mid, own2, mem', own', r, lo + |xs|, if ok then [page] else [])
    requires LiveRoot(own, r) && lo + |xs| <= MAXPAGE
    ensures Gained(mem, own, mem', own', r, lo, if ok then xs + [page] else xs)
  {
    GainedThen(mem, own, mid, own2, mem', own', r, lo, xs, if ok then [page] else []);
    assert xs + [] == xs;
  }

  /** One more page for r after those already gained. */
  method GrowNext(k: Kernel, r: nat, a: nat, flags: Flags, data: seq<Word>, ghost mem0: Mem, ghost own0: Roles,
                  ghost lo: nat, ghost xs: seq<Page>)
    returns (ok: bool)
    requires k.Ready() && LiveRoot(k.own, r) && LiveRoot(own0, r) && a == lo + |xs| < MAXPAGE && Leafy(flags) && flags.v
    requires |data| == ENTRIES
    requires Gained(mem0, own0, k.mem, k.own, r, lo, xs) && !Valid(Pte(mem0, r, a))
    modifies k
    ensures k.Ready() && LiveRoot(k.own, r)
    ensures Gained(mem0, own0, k.mem, k.own, r, lo, if ok then xs + [Page(flags, data)] else xs)
    ensures |old(k.list)| <= if ok then |k.list| + 3 else 2
  {
    ghost var mem1, own1 := k.mem, k.own;
    assert Pte(k.mem, r, a) == Pte(mem0, r, a);
    assert flags.(v := true) == flags;
    ok := GivePage(k, r, a, flags, data);
    GainedMore(mem0, own0, mem1, own1, k.mem, k.own, r, lo, xs, Page(flags, data), ok);
  }

  lemma MayGiveBack(mem: Mem, own: Roles, mem': Mem, own': Roles, r: nat, lo: nat, xs: seq<Page>)
    requires Gained(mem, own, mem', own', r, lo, xs) && lo + |xs| <= MAXPAGE
    ensures AllMapped(mem', r, lo, |xs|) && forall p :: lo <= p < lo + |xs| ==> MayUnmap(mem', own', r, p, true)
  {
    forall p | lo <= p < lo + |xs| ensures IsMapped(mem', r, p) && MayUnmap(mem', own', r, p, true) {
      assert HoldsAt(mem', own', r, lo, xs, p - lo);
    }
  }

  /** The error path: unmap and free what has been gained. */
  method GiveBack(k: Kernel, r: nat, lo: nat, n: nat, ghost mem0: Mem, ghost own0: Roles, ghost xs: seq<Page>)
    requires k.Ready() && LiveRoot(k.own, r) && |xs| == n && lo + n <= MAXPAGE && Ok(mem0, own0)
    requires Gained(mem0, own0, k.mem, k.own, r, lo, xs) && AllUnmapped(mem0, r, lo, n)
    modifies k
    ensures k.Ready() && Gained(mem0, own0, k.mem, k.own, r, lo, [])
  {
    ghost var mem1, own1 := k.mem, k.own;
    MayGiveBack(mem0, own0, k.mem, k.own, r, lo, xs);
    WholePage(lo, 0, NO_FLAGS);
    var ok := k.Uvmunmap(r, lo * PGSIZE, n, true);
    GainedUndone(mem0, own0, mem1, own1, k.mem, k.own, r, lo, xs);
  }

  // ----- uvmalloc, uvmdealloc -----

  /** PGROUNDUP(sz) / PGSIZE. */
  function Up(sz: nat): nat { (sz + PGSIZE - 1) / PGSIZE }

  lemma UpFacts(a: nat, sz: nat)
    ensures a * PGSIZE < sz <==> a < Up(sz)
    ensures Up(a * PGSIZE) == a && PgRoundUp(sz) == Up(sz) * PGSIZE
    ensures sz <= MAXVA ==> Up(sz) <= MAXPAGE
  {
  }

  function ZeroPages(n: nat): (s: seq<Page>)
    ensures |s| == n && forall i :: 0 <= i < n ==> s[i] == Page(Flags(true, true, true, true, true, 0), Zeros())
  {
    if n == 0 then [] else ZeroPages(n - 1) + [Page(USER_FLAGS.(v := true), Zeros())]
  }

  /** Grow from oldsz to newsz: all pages, zeroed, or none. */
  method Uvmalloc(k: Kernel, r: nat, oldsz: nat, newsz: nat) returns (sz: nat)
    requires k.Ready() && LiveRoot(k.own, r) && newsz <= MAXVA
    requires newsz >= oldsz ==> AllUnmapped(k.mem, r, Up(oldsz), Up(newsz) - Up(oldsz))
    modifies k
    ensures k.Ready()
    ensures newsz < oldsz ==> sz == oldsz && k.mem == old(k.mem) && k.own == old(k.own)
    ensures newsz >= oldsz ==> sz == newsz || sz == 0
    ensures newsz >= oldsz && sz == newsz && newsz > 0 ==>
      Gained(old(k.mem), old(k.own), k.mem, k.own, r, Up(oldsz), ZeroPages(Up(newsz) - Up(oldsz)))
    ensures newsz >= oldsz && sz == 0 ==> Gained(old(k.mem), old(k.own), k.mem, k.own, r, Up(oldsz), [])
    ensures newsz >= oldsz && sz == 0 && newsz > 0 ==> |old(k.list)| < 3 * (Up(newsz) - Up(oldsz))
  {
    if newsz < oldsz { return oldsz; }
    UpFacts(0, newsz);
    UpFacts(0, oldsz);
    var ok := GrowZeroed(k, r, Up(oldsz), newsz);
    return if ok then newsz else 0;
  }

  /** uvmalloc's loop, from page lo while the page starts below newsz. */
  method GrowZeroed(k: Kernel, r: nat, lo: nat, newsz: nat) returns (ok: bool)
    requires k.Ready() && LiveRoot(k.own, r) && lo <= Up(newsz) <= MAXPAGE && AllUnmapped(k.mem, r, lo, Up(newsz) - lo)
    modifies k
    ensures k.Ready()
    ensures Gained(old(k.mem), old(k.own), k.mem, k.own, r, lo, if ok then ZeroPages(Up(newsz) - lo) else [])
    ensures !ok ==> |old(k.list)| < 3 * (Up(newsz) - lo)
  {
    ghost var mem0, own0 := k.mem, k.own;
    GainedNothing(k.mem, k.own, r, lo);
    var a := lo;
    UpFacts(a, newsz);
    while a * PGSIZE < newsz
      invariant lo <= a <= Up(newsz) && k.Ready() && LiveRoot(k.own, r) && (a * PGSIZE < newsz <==> a < Up(newsz))
      invariant Gained(mem0, own0, k.mem, k.own, r, lo, ZeroPages(a - lo))
      invariant |old(k.list)| <= |k.list| + 3 * (a - lo)
      decreases Up(newsz) - a
    {
      ok := GrowNext(k, r, a, USER_FLAGS.(v := true), Zeros(), mem0, own0, lo, ZeroPages(a - lo));
      if !ok {
        GiveBack(k, r, lo, a - lo, mem0, own0, ZeroPages(a - lo));
        return;
      }
      a := a + 1;
      UpFacts(a, newsz);
    }
    ok := true;
  }

  /** Shrink from oldsz to newsz; false stands for uvmunmap's panic on a page that is not mapped. */
  method Uvmdealloc(k: Kernel, r: nat, oldsz: nat, newsz: nat) returns (sz: nat, ok: bool)
    requires k.Ready() && LiveRoot(k.own, r)
    requires forall p :: Up(newsz) <= p < Up(oldsz) && p < MAXPAGE ==> MayUnmap(k.mem, k.own, r, p, true)
    modifies k
    ensures k.Ready() && sz == (if newsz >= oldsz then oldsz else newsz)
    ensures newsz >= oldsz ==> ok && k.mem == old(k.mem) && k.own == old(k.own)
    ensures newsz < oldsz && Up(newsz) <= Up(oldsz) ==>
      (ok <==> AllMapped(old(k.mem), r, Up(newsz), Up(oldsz) - Up(newsz)))
    ensures newsz < oldsz && Up(newsz) <= Up(oldsz) && ok ==>
      Shrunk(old(k.mem), old(k.own), k.mem, k.own, r, Up(newsz), Up(oldsz) - Up(newsz), true)
  {
    if newsz >= oldsz { return oldsz, true; }
    ok := true;
    UpFacts(0, newsz);
    UpFacts(0, oldsz);
    if PgRoundUp(newsz) < PgRoundUp(oldsz) {
      WholePage(Up(newsz), 0, NO_FLAGS);
      var npages := Up(oldsz) - Up(newsz);
      ok := k.Uvmunmap(r, PgRoundUp(newsz), npages, true);
    } else {
      ShrunkNothing(k.mem, k.own, r, Up(newsz), true);
    }
    sz := newsz;
  }

  // ----- uvmcopy -----

  /** The flags and contents of a mapped page. */
  function Image(mem: Mem, r: nat, p: nat): Page { Page(Pte(mem, r, p).flags, Contents(mem, Pte(mem, r, p).frame)) }

  function Images(mem: Mem, r: nat, n: nat): (s: seq<Page>)
    ensures |s| == n
  {
    if n == 0 then [] else Images(mem, r, n - 1) + [Image(mem, r, n - 1)]
  }

  lemma {:induction false} ImagesAt(mem: Mem, r: nat, n: nat, i: nat)
    requires i < n
    ensures Images(mem, r, n)[i] == Image(mem, r, i)
  {
    if i < n - 1 { ImagesAt(mem, r, n - 1, i); }
  }

  /** A page whose frame belongs to it. */
  ghost predicate OwnPage(mem: Mem, own: Roles, s: nat, p: nat) {
    Valid(Pte(mem, s, p)) ==> Pte(mem, s, p).frame in own && own[Pte(mem, s, p).frame] == Data(s, p)
  }

  /** The parent's pages keep their images while the child's are made. */
  lemma ImageStill(mem: Mem, own: Roles, mem': Mem, own': Roles, s: nat, r: nat, xs: seq<Page>, p: nat)
    requires Gained(mem, own, mem', own', r, 0, xs) && LiveRoot(own, s) && s != r && p < MAXPAGE
    requires OwnPage(mem, own, s, p)
    ensures Pte(mem', s, p) == Pte(mem, s, p)
    ensures Valid(Pte(mem, s, p)) ==> Image(mem', s, p) == Image(mem, s, p)
  {
    assert Pte(mem', s, p) == Pte(mem, s, p);
    if Valid(Pte(mem, s, p)) { assert Contents(mem', Pte(mem, s, p).frame) == Contents(mem, Pte(mem, s, p).frame); }
  }

  lemma ImageFits(mem: Mem, own: Roles, s: nat, p: nat)
    requires Ok(mem, own) && LiveRoot(own, s) && Valid(Pte(mem, s, p)) && OwnPage(mem, own, s, p)
    ensures |Image(mem, s, p).data| == ENTRIES && Leafy(Image(mem, s, p).flags) && Image(mem, s, p).flags.v
  {
    PteOk(mem, own, s, p);
  }

  datatype CopyResult = Copied | OutOfMemory | NotPresent

  /** One page of the parent copied to the child. */
  method CopyNext(k: Kernel, s: nat, r: nat, a: nat, ghost mem0: Mem, ghost own0: Roles) returns (res: CopyResult)
    requires k.Ready() && Ok(mem0, own0) && LiveRoot(k.own, r) && LiveRoot(own0, r) && LiveRoot(own0, s) && s != r
    requires a < MAXPAGE
    requires LiveRoot(k.own, s) && Gained(mem0, own0, k.mem, k.own, r, 0, Images(mem0, s, a))
    requires OwnPage(mem0, own0, s, a)
    requires !Valid(Pte(mem0, r, a))
    modifies k
    ensures k.Ready() && LiveRoot(k.own, r)
    ensures res == NotPresent <==> !IsMapped(mem0, s, a)
    ensures res == Copied ==> Gained(mem0, own0, k.mem, k.own, r, 0, Images(mem0, s, a + 1))
    ensures res == OutOfMemory ==> Gained(mem0, own0, k.mem, k.own, r, 0, Images(mem0, s, a)) && |old(k.list)| <= 2
    ensures res == Copied ==> |old(k.list)| <= |k.list| + 3
  {
    ImageStill(mem0, own0, k.mem, k.own, s, r, Images(mem0, s, a), a);
    var t := k.Walk(s, a, false);
    if t == 0 {
      NoLeaf(k.mem, k.own, s, a);
      return NotPresent;
    }
    var pte := k.mem[t][Px0(a)];
    if !Valid(pte) { return NotPresent; }
    ImageFits(mem0, own0, s, a);
    var ok := GrowNext(k, r, a, pte.flags, k.mem[pte.frame], mem0, own0, 0, Images(mem0, s, a));
    res := if ok then Copied else OutOfMemory;
  }

  /** Page p of r maps a frame of its own with the flags and the contents of page p of s in mem. */
  ghost predicate CopyOf(mem: Mem, s: nat, mem': Mem, own': Roles, r: nat, p: nat) {
    var was, now := Pte(mem, s, p), Pte(mem', r, p);
    && now.flags.v && now.flags == was.flags && now.frame in own' && own'[now.frame] == Data(r, p)
    && was.frame in mem && now.frame in mem' && mem'[now.frame] == mem[was.frame]
  }

  /** Every page that starts below sz is copied. */
  ghost predicate AllCopied(mem: Mem, s: nat, mem': Mem, own': Roles, r: nat, sz: nat) {
    forall p {:trigger CopyOf(mem, s, mem', own', r, p)} :: 0 <= p && p * 4096 < sz ==> CopyOf(mem, s, mem', own', r, p)
  }

  lemma ImagesCopied(mem: Mem, own: Roles, s: nat, mem': Mem, own': Roles, r: nat, sz: nat)
    requires Pages(mem, own) && Pages(mem', own') && Gained(mem, own, mem', own', r, 0, Images(mem, s, Up(sz)))
    requires forall p :: 0 <= p < Up(sz) ==> OwnPage(mem, own, s, p)
    ensures AllCopied(mem, s, mem', own', r, sz)
  {
    forall p: nat | p * 4096 < sz ensures CopyOf(mem, s, mem', own', r, p) {
      UpFacts(p, sz);
      ImagesAt(mem, s, Up(sz), p);
      assert HoldsAt(mem', own', r, 0, Images(mem, s, Up(sz)), p);
      assert OwnPage(mem, own, s, p);
    }
  }

  /** Copy the parent's memory below sz into the child's empty one: everything or nothing. */
  method Uvmcopy(k: Kernel, s: nat, r: nat, sz: nat) returns (res: CopyResult)
    requires k.Ready() && LiveRoot(k.own, s) && LiveRoot(k.own, r) && s != r && Up(sz) <= MAXPAGE
    requires AllUnmapped(k.mem, r, 0, Up(sz)) && forall p :: 0 <= p < Up(sz) ==> OwnPage(k.mem, k.own, s, p)
    modifies k
    ensures k.Ready()
    ensures res == Copied ==> Gained(old(k.mem), old(k.own), k.mem, k.own, r, 0, Images(old(k.mem), s, Up(sz)))
    ensures res == Copied ==> AllCopied(old(k.mem), s, k.mem, k.own, r, sz)
    ensures res == OutOfMemory ==> Gained(old(k.mem), old(k.own), k.mem, k.own, r, 0, []) && |old(k.list)| < 3 * Up(sz)
    ensures res == NotPresent ==> !AllMapped(old(k.mem), s, 0, Up(sz))
  {
    ghost var mem0, own0 := k.mem, k.own;
    GainedNothing(k.mem, k.own, r, 0);
    var a := 0;
    UpFacts(a, sz);
    while a * PGSIZE < sz
      invariant a <= Up(sz) && k.Ready() && LiveRoot(k.own, r) && (a * PGSIZE < sz <==> a < Up(sz))
      invariant Gained(mem0, own0, k.mem, k.own, r, 0, Images(mem0, s, a))
      invariant |old(k.list)| <= |k.list| + 3 * a
      decreases Up(sz) - a
    {
      assert OwnPage(mem0, own0, s, a);
      res := CopyStep(k, s, r, a, Up(sz), mem0, own0);
      if res != Copied { return; }
      a := a + 1;
      UpFacts(a, sz);
    }
    ImagesCopied(mem0, own0, s, k.mem, k.own, r, sz);
    res := Copied;
  }

  /** One page of uvmcopy, with its two ways out. */
  method CopyStep(k: Kernel, s: nat, r: nat, a: nat, ghost n: nat, ghost mem0: Mem, ghost own0: Roles)
    returns (res: CopyResult)
    requires k.Ready() && Ok(mem0, own0) && LiveRoot(k.own, r) && LiveRoot(own0, r) && LiveRoot(own0, s) && s != r
    requires a < n <= MAXPAGE
    requires Gained(mem0, own0, k.mem, k.own, r, 0, Images(mem0, s, a)) && OwnPage(mem0, own0, s, a)
    requires AllUnmapped(mem0, r, 0, n)
    modifies k
    ensures k.Ready()
    ensures res == Copied ==> LiveRoot(k.own, r) && Gained(mem0, own0, k.mem, k.own, r, 0, Images(mem0, s, a + 1))
    ensures res == OutOfMemory ==> Gained(mem0, own0, k.mem, k.own, r, 0, []) && |old(k.list)| <= 2
    ensures res == Copied ==> |old(k.list)| <= |k.list| + 3
    ensures res == NotPresent ==> !AllMapped(mem0, s, 0, n)
  {
    RootStill(mem0, own0, k.mem, k.own, r, Images(mem0, s, a), s);
    assert !Valid(Pte(mem0, r, a));
    res := CopyNext(k, s, r, a, mem0, own0);
    if res == NotPresent {
      assert !IsMapped(mem0, s, a);
    } else if res == OutOfMemory {
      GiveBack(k, r, 0, a, mem0, own0, Images(mem0, s, a));
    }
  }

  lemma RootStill(mem: Mem, own: Roles, mem': Mem, own': Roles, r: nat, xs: seq<Page>, s: nat)
    requires Gained(mem, own, mem', own', r, 0, xs) && LiveRoot(own, s)
    ensures LiveRoot(own', s)
  {
    assert own'[s] == own[s];
  }

  /** After a copy, parent and child map each page to different frames with equal contents. */
  lemma CopyDisjoint(mem: Mem, own: Roles, mem': Mem, own': Roles, s: nat, r: nat, n: nat, p: nat)
    requires Gained(mem, own, mem', own', r, 0, Images(mem, s, n)) && LiveRoot(own, s) && s != r && p < n <= MAXPAGE
    requires IsMapped(mem, s, p) && OwnPage(mem, own, s, p)
    ensures var child, parent := Pte(mem', r, p), Pte(mem', s, p);
      && parent == Pte(mem, s, p) && child.flags == parent.flags && child.frame != parent.frame
      && Contents(mem', child.frame) == Contents(mem', parent.frame) == Contents(mem, parent.frame)
  {
    ImageStill(mem, own, mem', own', s, r, Images(mem, s, n), p);
    ImagesAt(mem, s, n, p);
    assert HoldsAt(mem', own', r, 0, Images(mem, s, n), p);
    assert own'[Pte(mem, s, p).frame] == own[Pte(mem, s, p).frame];
  }

  // ----- uvmfree -----

  /** The pages of r are exactly 0..n, each with a frame of its own. */
  ghost predicate UserOnly(mem: Mem, own: Roles, r: nat, n: nat) {
    forall p {:trigger Pte(mem, r, p)} :: 0 <= p < MAXPAGE ==>
      (Valid(Pte(mem, r, p)) <==> p < n) && OwnPage(mem, own, r, p)
  }

  predicate Belongs(role: Role, g: nat, r: nat) {
    (role.Data? && role.root == r) || ((role.Mid? || role.Leaf?) && role.root == r) || (role.Root? && g == r)
  }

  /** Every frame of r, data and tables alike, is free; every other frame keeps its role and contents. */
  ghost predicate Released(mem: Mem, own: Roles, mem': Mem, own': Roles, r: nat) {
    && (forall g :: g in own <==> g in own')
    && forall g {:trigger own'[g]} :: g in own ==>
         && own'[g] == (if Belongs(own[g], g, r) then Free else own[g])
         && (!Belongs(own[g], g, r) && own[g] != Free && !IsTable(own[g]) ==> Contents(mem', g) == Contents(mem, g))
  }

  lemma LeavesGone(mem: Mem, own: Roles, r: nat, t: nat, c: nat)
    requires Ok(mem, own) && t in own && own[t].Leaf? && own[t].root == r && c < ENTRIES
    requires forall p {:trigger Pte(mem, r, p)} :: 0 <= p < MAXPAGE ==> !Valid(Pte(mem, r, p))
    ensures !Valid(At(mem, t, c))
  {
    assert FrameOk(mem, own, t);
    var p := Join(own[t].a, own[t].b, c);
    JoinSplit(own[t].a, own[t].b, c);
    assert Pte(mem, r, p) == At(mem, t, c);
  }

  lemma AllGone(mem: Mem, own: Roles, r: nat)
    requires Ok(mem, own) && forall p {:trigger Pte(mem, r, p)} :: 0 <= p < MAXPAGE ==> !Valid(Pte(mem, r, p))
    ensures NoLeaves(mem, own, r)
  {
    forall t: nat ensures EmptyLeaf(mem, own, r, t) {
      if t in own && own[t].Leaf? && own[t].root == r {
        forall c | 0 <= c < ENTRIES ensures !Valid(At(mem, t, c)) { LeavesGone(mem, own, r, t, c); }
      }
    }
    forall g | g in own && own[g].Data? ensures own[g].root != r {
      if own[g].root == r { UnmappedHasNoData(mem, own, r, own[g].page, g); }
    }
  }

  lemma UnmappedAll(mem: Mem, own: Roles, mem': Mem, own': Roles, r: nat, n: nat)
    requires UserOnly(mem, own, r, n) && Shrunk(mem, own, mem', own', r, 0, n, true) && LiveRoot(own, r)
    ensures forall p {:trigger Pte(mem', r, p)} :: 0 <= p < MAXPAGE ==> !Valid(Pte(mem', r, p))
  {
    forall p | 0 <= p < MAXPAGE ensures !Valid(Pte(mem', r, p)) { assert p >= n ==> !Valid(Pte(mem, r, p)); }
  }

  lemma UserPages(mem: Mem, own: Roles, r: nat, n: nat)
    requires UserOnly(mem, own, r, n) && n <= MAXPAGE
    ensures AllMapped(mem, r, 0, n) && forall p :: 0 <= p < n ==> MayUnmap(mem, own, r, p, true)
  {
    forall p | 0 <= p < n ensures IsMapped(mem, r, p) && MayUnmap(mem, own, r, p, true) {
      assert OwnPage(mem, own, r, p);
    }
  }

  lemma ReleasedAt(mem: Mem, own: Roles, mid: Mem, own1: Roles, mem': Mem, own': Roles, r: nat, n: nat, g: nat)
    requires Ok(mem, own) && UserOnly(mem, own, r, n) && LiveRoot(own, r) && g in own
    requires Shrunk(mem, own, mid, own1, r, 0, n, true) && Cut(mid, own1, mem', own', r) && LiveRoot(own1, r)
    requires Ok(mid, own1)
    ensures g in own' && own'[g] == (if Belongs(own[g], g, r) then Free else own[g])
    ensures !Belongs(own[g], g, r) && own[g] != Free && !IsTable(own[g]) ==> Contents(mem', g) == Contents(mem, g)
  {
    assert CutAt(mid, own1, mem', own', r, g);
    assert Contents(mid, g) == Contents(mem, g) || own1[g] == Free || IsTable(own1[g]);
    assert FrameOk(mid, own1, g);
    if own[g].Data? && own[g].root == r {
      UnmappedHasNoData(mem, own, r, own[g].page, g);
      assert Valid(Pte(mem, r, own[g].page));
    }
  }

  /** Free a process's memory and its page table: every frame goes back exactly once. */
  method Uvmfree(k: Kernel, r: nat, sz: nat) returns (ok: bool)
    requires k.Ready() && LiveRoot(k.own, r) && Up(sz) <= MAXPAGE && UserOnly(k.mem, k.own, r, Up(sz))
    modifies k
    ensures ok && k.Ready() && Released(old(k.mem), old(k.own), k.mem, k.own, r)
    ensures OthersMapped(old(k.mem), old(k.own), k.mem, r)
  {
    ghost var mem0, own0 := k.mem, k.own;
    UpFacts(0, sz);
    ok := true;
    if sz > 0 {
      UserPages(k.mem, k.own, r, Up(sz));
      ok := k.Uvmunmap(r, 0, PgRoundUp(sz) / PGSIZE, true);
    } else {
      ShrunkNothing(k.mem, k.own, r, 0, true);
    }
    ghost var mem1, own1 := k.mem, k.own;
    UnmappedAll(mem0, own0, k.mem, k.own, r, Up(sz));
    AllGone(k.mem, k.own, r);
    FreeWalk.Walk(k, r);
    forall g | g in own0 ensures g in k.own && k.own[g] == (if Belongs(own0[g], g, r) then Free else own0[g])
      && (!Belongs(own0[g], g, r) && own0[g] != Free && !IsTable(own0[g]) ==> Contents(k.mem, g) == Contents(mem0, g))
    {
      ReleasedAt(mem0, own0, mem1, own1, k.mem, k.own, r, Up(sz), g);
    }
    SameFrames(own0, mem1, own1, k.mem, k.own, r);
    OthersStay(mem0, own0, mem1, own1, k.mem, k.own, r, Up(sz));
  }

  /** Every other page table translates as before. */
  ghost predicate OthersMapped(mem: Mem, own: Roles, mem': Mem, r: nat) {
    forall q, p {:trigger Pte(mem', q, p)} :: LiveRoot(own, q) && q != r && 0 <= p < MAXPAGE ==>
      Pte(mem', q, p) == Pte(mem, q, p)
  }

  lemma CutTranslates(mem: Mem, own: Roles, mem': Mem, own': Roles, r: nat, q: nat, p: nat)
    requires Ok(mem, own) && Cut(mem, own, mem', own', r) && LiveRoot(own, r) && LiveRoot(own, q) && q != r
    requires 0 !in mem'
    ensures Pte(mem', q, p) == Pte(mem, q, p)
  {
    var a, b := Px2(p), Px1(p);
    WalkRole(mem, own, q, a, b);
    var m, t := Link(mem, q, a), LeafTable(mem, q, a, b);
    assert CutAt(mem, own, mem', own', r, q) && CutAt(mem, own, mem', own', r, m) && CutAt(mem, own, mem', own', r, t);
    assert At(mem', q, a) == At(mem, q, a);
    assert At(mem', m, b) == At(mem, m, b);
    assert At(mem', t, Px0(p)) == At(mem, t, Px0(p));
  }

  lemma OthersStay(mem: Mem, own: Roles, mid: Mem, own1: Roles, mem': Mem, own': Roles, r: nat, n: nat)
    requires LiveRoot(own, r) && LiveRoot(own1, r) && Shrunk(mem, own, mid, own1, r, 0, n, true)
    requires Cut(mid, own1, mem', own', r) && Ok(mid, own1) && Ok(mem', own')
    ensures OthersMapped(mem, own, mem', r)
  {
    forall q, p | LiveRoot(own, q) && q != r && 0 <= p < MAXPAGE ensures Pte(mem', q, p) == Pte(mem, q, p) {
      assert own1[q] == own[q] && Pte(mid, q, p) == Pte(mem, q, p);
      CutTranslates(mid, own1, mem', own', r, q, p);
    }
  }

  // ----- uvmcreate -----

  lemma NewRootOk(mem: Mem, own: Roles, f: nat, g: nat)
    requires Ok(mem, own) && f in own && own[f] == Held && mem[f] == Zeros()
    ensures FrameOk(mem, own[f := Root(true)], g)
  {
    var own' := own[f := Root(true)];
    assert FrameOk(mem, own, g);
    if g in own && g != f {
      if own[g].Root? && own[g].live {
        forall a | 0 <= a < ENTRIES ensures ChildIs(mem, own', g, a, Mid(g, a, true)) {
          assert ChildIs(mem, own, g, a, Mid(g, a, true));
        }
      } else if own[g].Mid? && own[g].live {
        forall b | 0 <= b < ENTRIES ensures ChildIs(mem, own', g, b, Leaf(own[g].root, own[g].a, b, true)) {
          assert ChildIs(mem, own, g, b, Leaf(own[g].root, own[g].a, b, true));
        }
      }
    }
  }

  lemma NewRootGood(mem: Mem, own: Roles, head: nat, list: seq<nat>, f: nat)
    requires Good(mem, own, head, list) && f in own && own[f] == Held && mem[f] == Zeros()
    ensures Good(mem, own[f := Root(true)], head, list)
    ensures forall p {:trigger Pte(mem, f, p)} :: Pte(mem, f, p) == ZERO
  {
    var own' := own[f := Root(true)];
    forall g: nat ensures FrameOk(mem, own', g) { NewRootOk(mem, own, f, g); }
    ChainSame(mem, own, mem, own', head, list);
    forall p: nat ensures Pte(mem, f, p) == ZERO {
      assert At(mem, f, Px2(p)) == ZERO && At(mem, 0, Px1(p)) == ZERO && At(mem, 0, Px0(p)) == ZERO;
    }
  }

  /** An empty page table; 0 when memory has run out. */
  method Uvmcreate(k: Kernel) returns (r: nat)
    requires k.Ready()
    modifies k
    ensures k.Ready()
    ensures (r == 0 <==> old(k.list) == []) && (r == 0 ==> k.mem == old(k.mem) && k.own == old(k.own))
    ensures r != 0 ==> LiveRoot(k.own, r) && r in old(k.own) && old(k.own)[r] == Free
    ensures r != 0 ==> k.own == old(k.own)[r := Root(true)]
    ensures r != 0 ==> UserOnly(k.mem, k.own, r, 0) && Wrote(old(k.mem), old(k.own), k.mem, 0, 0, [])
  {
    r := TakeFilled(k, Zeros());
    if r != 0 {
      NewRootGood(k.mem, k.own, k.freelist, k.list, r);
      k.own := k.own[r := Root(true)];
      forall p | 0 <= p < MAXPAGE ensures (Valid(Pte(k.mem, r, p)) <==> p < 0) && OwnPage(k.mem, k.own, r, p) {
        assert Pte(k.mem, r, p) == ZERO;
      }
    }
  }

  lemma SameFrames(own: Roles, mid: Mem, own1: Roles, mem': Mem, own': Roles, r: nat)
    requires (forall f :: f in own <==> f in own1) && Cut(mid, own1, mem', own', r)
    ensures forall g :: g in own <==> g in own'
  {
    forall g: nat ensures g in own <==> g in own' { assert CutAt(mid, own1, mem', own', r, g); }
  }
}
