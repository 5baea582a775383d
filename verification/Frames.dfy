/** kernel/kalloc.c: the free list, threaded through the free pages, and the relations between
    memory states that the page-table operations promise. */
module Frames {
  import opened Sv39
  import opened PageTree

  // ----- The free list -----

  function Next(list: seq<nat>, i: nat): nat { if i + 1 < |list| then list[i + 1] else 0 }

  /** The address of a frame as a word: its low twelve bits, two of them above the flags, are 0. */
  function Pointer(f: nat): Word { Word(4 * f, NO_FLAGS) }

  /** Element i of the list is a free frame that points to the next. */
  ghost predicate LinkOk(mem: Mem, own: Roles, list: seq<nat>, i: nat) {
    i < |list| ==> list[i] in own && own[list[i]] == Free && At(mem, list[i], 0) == Pointer(Next(list, i))
  }

  predicate Apart(list: seq<nat>, i: nat, j: nat) { i < j < |list| ==> list[i] != list[j] }

  ghost predicate Listed(own: Roles, list: seq<nat>, f: nat) { f in own && own[f] == Free ==> f in list }

  /** head leads through the first words of free pages to exactly the free frames, once each. */
  ghost predicate Chain(mem: Mem, own: Roles, head: nat, list: seq<nat>) {
    && head == (if list == [] then 0 else list[0])
    && (forall i {:trigger LinkOk(mem, own, list, i)} :: LinkOk(mem, own, list, i))
    && (forall i, j {:trigger Apart(list, i, j)} :: Apart(list, i, j))
    && (forall f {:trigger Listed(own, list, f)} :: Listed(own, list, f))
  }

  function Filled(x: Word): (p: seq<Word>)
    ensures |p| == ENTRIES && forall i :: 0 <= i < ENTRIES ==> p[i] == x
  {
    seq(ENTRIES, _ => x)
  }

  const JUNK_FREED: nat := 0x0101_0101_0101_0101
  const JUNK_ALLOCATED: nat := 0x0505_0505_0505_0505

  function Junk(n: nat): (p: seq<Word>)
    ensures |p| == ENTRIES
  {
    Filled(WordOf(n))
  }

  function FreedPage(next: nat): (p: seq<Word>)
    ensures |p| == ENTRIES && p[0] == Pointer(next)
  {
    Junk(JUNK_FREED)[0 := Pointer(next)]
  }

  lemma PopChain(mem: Mem, own: Roles, list: seq<nat>, page: seq<Word>)
    requires list != [] && Chain(mem, own, list[0], list)
    ensures list[0] in own && own[list[0]] == Free
    ensures Chain(mem[list[0] := page], own[list[0] := Held], At(mem, list[0], 0).frame / 4, list[1..])
  {
    assert LinkOk(mem, own, list, 0);
    var mem', own', rest := mem[list[0] := page], own[list[0] := Held], list[1..];
    forall i: nat ensures LinkOk(mem', own', rest, i) {
      assert LinkOk(mem, own, list, i + 1) && Apart(list, 0, i + 1) && Next(rest, i) == Next(list, i + 1);
    }
    forall i: nat, j: nat ensures Apart(rest, i, j) { assert Apart(list, i + 1, j + 1); }
    forall f: nat ensures Listed(own', rest, f) {
      assert Listed(own, list, f) && list == [list[0]] + rest;
    }
  }

  lemma PushChain(mem: Mem, own: Roles, head: nat, list: seq<nat>, f: nat)
    requires Chain(mem, own, head, list) && f in own && own[f] != Free
    ensures Chain(mem[f := FreedPage(head)], own[f := Free], f, [f] + list)
  {
    var mem', own', all := mem[f := FreedPage(head)], own[f := Free], [f] + list;
    forall i: nat ensures LinkOk(mem', own', all, i) {
      if i > 0 { assert LinkOk(mem, own, list, i - 1) && Next(all, i) == Next(list, i - 1); }
    }
    forall i: nat, j: nat ensures Apart(all, i, j) {
      if 0 < i < j { assert Apart(list, i - 1, j - 1); } else if 0 < j { assert LinkOk(mem, own, list, j - 1); }
    }
    forall g: nat ensures Listed(own', all, g) { assert Listed(own, list, g); }
  }

  /** Changing frames that are neither free before nor after keeps the list. */
  lemma ChainSame(mem: Mem, own: Roles, mem': Mem, own': Roles, head: nat, list: seq<nat>)
    requires Chain(mem, own, head, list) && (forall f :: f in own <==> f in own')
    requires forall f :: f in own ==> (own[f] == Free <==> own'[f] == Free)
    requires forall f :: f in own && own[f] == Free ==> At(mem', f, 0) == At(mem, f, 0)
    ensures Chain(mem', own', head, list)
  {
    forall i: nat ensures LinkOk(mem', own', list, i) { assert LinkOk(mem, own, list, i); }
    forall f: nat ensures Listed(own', list, f) { assert Listed(own, list, f); }
  }

  // ----- What operations promise -----

  predicate TableOf(role: Role, r: nat) { (role.Mid? || role.Leaf?) && role.root == r && role.live }

  /** The pages from lo on have the entries of ptes; every other page of every table is as before. */
  ghost predicate Wrote(mem: Mem, own: Roles, mem': Mem, r: nat, lo: nat, ptes: seq<Word>) {
    forall q, p {:trigger Pte(mem', q, p)} :: q in own && own[q] == Root(true) && 0 <= p < MAXPAGE ==>
      Pte(mem', q, p) == if q == r && lo <= p < lo + |ptes| then ptes[p - lo] else Pte(mem, q, p)
  }

  /** Frames that were free may now be tables of r or its data pages lo..hi; nothing else changed hands. */
  ghost predicate Placed(own: Roles, own': Roles, r: nat, lo: nat, hi: nat) {
    && (forall f :: f in own <==> f in own')
    && forall f {:trigger own'[f]} :: f in own ==>
         || own'[f] == own[f]
         || (own[f] == Free && (TableOf(own'[f], r) || (own'[f].Data? && own'[f].root == r && lo <= own'[f].page < hi)))
  }

  function Contents(mem: Mem, f: nat): seq<Word> { if f in mem then mem[f] else [] }

  /** Pages in use keep their contents. */
  ghost predicate KeepsData(mem: Mem, own: Roles, mem': Mem) {
    forall f {:trigger Contents(mem', f)} :: f in own && !IsTable(own[f]) && own[f] != Free ==>
      Contents(mem', f) == Contents(mem, f)
  }

  /** The data pages lo..hi of r went back to the free list. */
  ghost predicate Returned(own: Roles, own': Roles, r: nat, lo: nat, hi: nat) {
    && (forall f :: f in own <==> f in own')
    && forall f {:trigger own'[f]} :: f in own ==>
         own'[f] == if own[f].Data? && own[f].root == r && lo <= own[f].page < hi then Free else own[f]
  }

  lemma PlacedTrans(own: Roles, mid: Roles, own': Roles, r: nat, lo: nat, hi: nat, a: nat, b: nat)
    requires Placed(own, mid, r, lo, hi) && Placed(mid, own', r, a, b) && lo <= a && hi <= b && (lo == a || lo == hi)
    ensures Placed(own, own', r, if lo == hi then a else lo, b)
  {
  }

  lemma WroteThen(mem: Mem, own: Roles, mid: Mem, own2: Roles, mem': Mem, r: nat, lo: nat, xs: seq<Word>, ys: seq<Word>)
    requires Wrote(mem, own, mid, r, lo, xs) && Wrote(mid, own2, mem', r, lo + |xs|, ys)
    requires forall q :: q in own && own[q] == Root(true) ==> q in own2 && own2[q] == Root(true)
    ensures Wrote(mem, own, mem', r, lo, xs + ys)
  {
    forall q, p | q in own && own[q] == Root(true) && 0 <= p < MAXPAGE
      ensures Pte(mem', q, p) == if q == r && lo <= p < lo + |xs + ys| then (xs + ys)[p - lo] else Pte(mem, q, p)
    {
      assert Pte(mid, q, p) == if q == r && lo <= p < lo + |xs| then xs[p - lo] else Pte(mem, q, p);
    }
  }

  lemma KeepsDataTrans(mem: Mem, own: Roles, mid: Mem, own2: Roles, mem': Mem)
    requires KeepsData(mem, own, mid) && KeepsData(mid, own2, mem')
    requires forall f :: f in own && !IsTable(own[f]) && own[f] != Free ==>
      f in own2 && !IsTable(own2[f]) && own2[f] != Free
    ensures KeepsData(mem, own, mem')
  {
    forall f | f in own && !IsTable(own[f]) && own[f] != Free ensures Contents(mem', f) == Contents(mem, f) {
      assert Contents(mid, f) == Contents(mem, f);
    }
  }

  /** Memory, the roles of its frames and the free list agree. */
  ghost predicate Good(mem: Mem, own: Roles, head: nat, list: seq<nat>) {
    Ok(mem, own) && Chain(mem, own, head, list)
  }

  ghost predicate LiveRoot(own: Roles, r: nat) { r in own && own[r] == Root(true) }

  lemma KallocGood(mem: Mem, own: Roles, list: seq<nat>, page: seq<Word>)
    requires list != [] && Good(mem, own, list[0], list) && |page| == ENTRIES
    ensures list[0] != 0 && list[0] in own && own[list[0]] == Free
    ensures Good(mem[list[0] := page], own[list[0] := Held], At(mem, list[0], 0).frame / 4, list[1..])
    ensures Wrote(mem, own, mem[list[0] := page], 0, 0, [])
  {
    PopChain(mem, own, list, page);
    PlainKeeps(mem, own, list[0], page, Held);
    forall q, p | q in own && own[q] == Root(true) && 0 <= p < MAXPAGE
      ensures Pte(mem[list[0] := page], q, p) == Pte(mem, q, p)
    {
      PlainTranslates(mem, own, list[0], page, q, p);
    }
  }

  /** kfree of a frame that is no table. */
  lemma KfreeGood(mem: Mem, own: Roles, head: nat, list: seq<nat>, f: nat)
    requires Good(mem, own, head, list) && f in own && own[f] != Free && !IsTable(own[f])
    ensures Good(mem[f := FreedPage(head)], own[f := Free], f, [f] + list)
    ensures Wrote(mem, own, mem[f := FreedPage(head)], 0, 0, [])
  {
    PushChain(mem, own, head, list, f);
    PlainKeeps(mem, own, f, FreedPage(head), Free);
    forall q, p | q in own && own[q] == Root(true) && 0 <= p < MAXPAGE
      ensures Pte(mem[f := FreedPage(head)], q, p) == Pte(mem, q, p)
    {
      PlainTranslates(mem, own, f, FreedPage(head), q, p);
    }
  }

  /** Filling a frame that is held or holds data. */
  lemma FillGood(mem: Mem, own: Roles, head: nat, list: seq<nat>, f: nat, page: seq<Word>)
    requires Good(mem, own, head, list) && f in own && own[f] != Free && !IsTable(own[f]) && |page| == ENTRIES
    ensures Good(mem[f := page], own, head, list)
    ensures Wrote(mem, own, mem[f := page], 0, 0, [])
  {
    assert FrameOk(mem, own, f);
    PlainKeeps(mem, own, f, page, own[f]);
    assert own[f := own[f]] == own;
    ChainSame(mem, own, mem[f := page], own, head, list);
    forall q, p | q in own && own[q] == Root(true) && 0 <= p < MAXPAGE
      ensures Pte(mem[f := page], q, p) == Pte(mem, q, p)
    {
      PlainTranslates(mem, own, f, page, q, p);
    }
  }

  lemma PlaceUp(mem: Mem, own: Roles, r: nat, page: nat, f: nat)
    requires Ok(mem, own) && LiveRoot(own, r) && page < MAXPAGE
    requires Valid(Pte(mem, r, page)) && Pte(mem, r, page).frame == f
    ensures UpOk(mem, own, f, Data(r, page))
  {
    var a, b := Px2(page), Px1(page);
    WalkRole(mem, own, r, a, b);
    assert At(mem, 0, b) == ZERO && At(mem, 0, Px0(page)) == ZERO;
  }

  /** A held frame that a table now maps becomes a data page of it. */
  lemma PlaceGood(mem: Mem, own: Roles, head: nat, list: seq<nat>, r: nat, page: nat, f: nat)
    requires Good(mem, own, head, list) && LiveRoot(own, r) && page < MAXPAGE && f in own && own[f] == Held
    requires Maps(mem, r, page, Pte(mem, r, page)) && Pte(mem, r, page).frame == f
    ensures Good(mem, own[f := Data(r, page)], head, list)
  {
    PlaceUp(mem, own, r, page, f);
    PlainKeeps(mem, own, f, mem[f], Data(r, page));
    assert mem[f := mem[f]] == mem;
    ChainSame(mem, own, mem, own[f := Data(r, page)], head, list);
  }

  lemma AttachGood(mem: Mem, own: Roles, head: nat, list: seq<nat>, f: nat, parent: nat, i: nat, role: Role)
    requires Good(mem, own, head, list) && Attachable(mem, own, f, parent, i, role)
    ensures Good(Store(mem, parent, i, TablePte(f)), own[f := role], head, list)
    ensures Wrote(mem, own, Store(mem, parent, i, TablePte(f)), 0, 0, [])
    ensures Link(Store(mem, parent, i, TablePte(f)), parent, i) == f
  {
    var mem' := Store(mem, parent, i, TablePte(f));
    AttachKeeps(mem, own, f, parent, i, role);
    ChainSame(mem, own, mem', own[f := role], head, list);
    forall q, p | q in own && own[q] == Root(true) && 0 <= p < MAXPAGE ensures Pte(mem', q, p) == Pte(mem, q, p) {
      AttachTranslates(mem, own, f, parent, i, role, q, p);
    }
  }

  /** Storing a leaf entry that no data page depends on. */
  lemma StoreGood(mem: Mem, own: Roles, head: nat, list: seq<nat>, t: nat, r: nat, page: nat, pte: Word)
    requires Good(mem, own, head, list) && page < MAXPAGE && t in own && own[t] == Leaf(r, Px2(page), Px1(page), true)
    requires EntryOk(pte) && forall g :: g in own ==> own[g] != Data(r, page)
    ensures Good(Store(mem, t, Px0(page), pte), own, head, list)
    ensures Wrote(mem, own, Store(mem, t, Px0(page), pte), r, page, [pte])
  {
    SplitJoin(page);
    var mem' := Store(mem, t, Px0(page), pte);
    SetKeeps(mem, own, t, Px0(page), pte);
    ChainSame(mem, own, mem', own, head, list);
    forall q, p | q in own && own[q] == Root(true) && 0 <= p < MAXPAGE
      ensures Pte(mem', q, p) == if q == r && page <= p < page + 1 then pte else Pte(mem, q, p)
    {
      SetTranslates(mem, own, t, Px0(page), pte, q, p);
    }
  }

  /** An unmapped page has no data frame. */
  lemma UnmappedHasNoData(mem: Mem, own: Roles, r: nat, page: nat, g: nat)
    requires Ok(mem, own) && g in own && own[g] == Data(r, page)
    ensures Valid(Pte(mem, r, page)) && Pte(mem, r, page).frame == g && page < MAXPAGE
  {
    assert FrameOk(mem, own, g);
  }

  /** One growth step of r: entries ptes from page lo on, and free frames turned into tables of r. */
  ghost predicate Grew(mem: Mem, own: Roles, mem': Mem, own': Roles, r: nat, lo: nat, ptes: seq<Word>) {
    Wrote(mem, own, mem', r, lo, ptes) && Placed(own, own', r, 0, 0) && KeepsData(mem, own, mem')
  }

  lemma GrewNothing(mem: Mem, own: Roles, r: nat, lo: nat)
    ensures Grew(mem, own, mem, own, r, lo, [])
  {
  }

  lemma WroteNothing(mem: Mem, own: Roles, mem': Mem, q: nat, r: nat, k: nat, lo: nat)
    requires Wrote(mem, own, mem', q, k, [])
    ensures Wrote(mem, own, mem', r, lo, [])
  {
    forall x, p | x in own && own[x] == Root(true) && 0 <= p < MAXPAGE ensures Pte(mem', x, p) == Pte(mem, x, p) { }
  }

  lemma GrewThen(mem: Mem, own: Roles, mid: Mem, own2: Roles, mem': Mem, own': Roles, r: nat, lo: nat, xs: seq<Word>,
                 ys: seq<Word>)
    requires Grew(mem, own, mid, own2, r, lo, xs) && Grew(mid, own2, mem', own', r, lo + |xs|, ys)
    ensures Grew(mem, own, mem', own', r, lo, xs + ys)
  {
    WroteThen(mem, own, mid, own2, mem', r, lo, xs, ys);
    KeepsDataTrans(mem, own, mid, own2, mem');
    PlacedTrans(own, own2, own', r, 0, 0, 0, 0);
  }

  /** The role of a table below entry i of f. */
  ghost predicate Attaches(own: Roles, f: nat, i: nat, role: Role) {
    && f in own && i < ENTRIES
    && ((own[f] == Root(true) && i < 256 && role == Mid(f, i, true))
        || (own[f].Mid? && own[f].live && role == Leaf(own[f].root, own[f].a, i, true)))
  }

  /** Taking the first free frame g, clearing it and attaching it below f. */
  lemma GrowTable(mem: Mem, own: Roles, list: seq<nat>, f: nat, i: nat, role: Role, r: nat)
    requires list != [] && Good(mem, own, list[0], list) && Attaches(own, f, i, role) && role.root == r
    requires !Valid(At(mem, f, i))
    ensures var g := list[0]; var mem1 := mem[g := Zeros()];
      && f in mem1 && i < |mem1[f]| && g != 0 && g in own
      && var mem2 := Store(mem1, f, i, TablePte(g));
         && Good(mem2, own[g := role], At(mem, g, 0).frame / 4, list[1..])
         && Grew(mem, own, mem2, own[g := role], r, 0, []) && Link(mem2, f, i) == g
  {
    var g := list[0];
    var mem1, own1 := mem[g := Zeros()], own[g := Held];
    KallocGood(mem, own, list, Zeros());
    AttachGood(mem1, own1, At(mem, g, 0).frame / 4, list[1..], g, f, i, role);
    var mem2 := Store(mem1, f, i, TablePte(g));
    assert own1[g := role] == own[g := role];
    GrowEffect(mem, own, mem1, mem2, g, f, i, role, r);
  }

  lemma GrowEffect(mem: Mem, own: Roles, mem1: Mem, mem2: Mem, g: nat, f: nat, i: nat, role: Role, r: nat)
    requires g in own && own[g] == Free && Attaches(own, f, i, role) && role.root == r
    requires mem1 == mem[g := Zeros()] && f in mem1 && i < |mem1[f]| && mem2 == Store(mem1, f, i, TablePte(g))
    requires Wrote(mem, own, mem1, 0, 0, []) && Wrote(mem1, own[g := Held], mem2, 0, 0, [])
    ensures Grew(mem, own, mem2, own[g := role], r, 0, [])
  {
    WroteThen(mem, own, mem1, own[g := Held], mem2, 0, 0, [], []);
    WroteNothing(mem, own, mem2, 0, r, 0, 0);
  }
}
