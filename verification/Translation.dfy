/** What the hardware makes of the tables: the walk of section 4.3.2 of the RISC-V Privileged
    Architecture, version 1.12, with Sv39's three levels. */
module Translation {
  import opened Sv39
  import opened PageTree
  import opened Options

  /** The bytes one entry of a level covers. */
  function Reach(level: nat): (n: nat)
    ensures n > 0
  {
    if level == 0 then 4096 else if level == 1 then 0x20_0000 else 0x4000_0000
  }

  /** Where the walk ends: the level and the leaf found there. */
  datatype Found = Found(level: nat, pte: Word)

  /** Valid, and not the reserved combination of writable without readable. */
  predicate Usable(f: Flags) { f.v && (f.r || !f.w) }

  /** The walk from frame f on; None is a page fault. */
  function Translate(mem: Mem, f: nat, va: nat, level: nat): Option<Found>
    decreases level
  {
    var pte := At(mem, f, va / Reach(level) % 512);
    if !Usable(pte.flags) then None
    else if pte.flags.r || pte.flags.x then Some(Found(level, pte))
    else if level == 0 then None
    else Translate(mem, pte.frame, va, level - 1)
  }

  /** Below a live root the hardware finds exactly the leaf entries that walk finds, and no larger pages. */
  lemma HardwareAgrees(mem: Mem, own: Roles, r: nat, va: nat)
    requires Ok(mem, own) && r in own && own[r] == Root(true) && va < MAXVA
    ensures var pte := Pte(mem, r, va / PGSIZE);
      Translate(mem, r, va, 2) == if Usable(pte.flags) && Leafy(pte.flags) then Some(Found(0, pte)) else None
  {
    var page := va / PGSIZE;
    IndexBits(va);
    if Valid(At(mem, r, Px2(page))) {
      WalkMid(mem, own, r, Px2(page));
      assert FrameOk(mem, own, r);
      assert ChildIs(mem, own, r, Px2(page), Mid(r, Px2(page), true));
      MidAgrees(mem, own, r, va);
    }
  }

  lemma MidAgrees(mem: Mem, own: Roles, r: nat, va: nat)
    requires Ok(mem, own) && va < MAXVA && Link(mem, r, Px2(va / PGSIZE)) in own
    requires own[Link(mem, r, Px2(va / PGSIZE))] == Mid(r, Px2(va / PGSIZE), true)
    ensures var pte := Pte(mem, r, va / PGSIZE);
      Translate(mem, Link(mem, r, Px2(va / PGSIZE)), va, 1)
      == if Usable(pte.flags) && Leafy(pte.flags) then Some(Found(0, pte)) else None
  {
    var page := va / PGSIZE;
    var m := Link(mem, r, Px2(page));
    IndexBits(va);
    if Valid(At(mem, m, Px1(page))) {
      WalkLeaf(mem, own, m, r, Px2(page), Px1(page));
      assert FrameOk(mem, own, m);
      assert ChildIs(mem, own, m, Px1(page), Leaf(r, Px2(page), Px1(page), true));
      LeafAgrees(mem, LeafTable(mem, r, Px2(page), Px1(page)), va);
    }
  }

  lemma LeafAgrees(mem: Mem, t: nat, va: nat)
    ensures var pte := At(mem, t, Px0(va / PGSIZE));
      Translate(mem, t, va, 0) == if Usable(pte.flags) && Leafy(pte.flags) then Some(Found(0, pte)) else None
  {
  }
}
