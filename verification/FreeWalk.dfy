/** kernel/vm.c freewalk: every page-table page below a table, and the table itself, goes back to
    the free list exactly once. */
module FreeWalk {
  import opened Sv39
  import opened PageTree
  import opened Frames
  import opened Vm

  function RootOf(role: Role, f: nat): nat { if role.Mid? || role.Leaf? then role.root else f }

  /** g is a table below entry i of f. */
  predicate Via(role: Role, child: Role, f: nat, i: nat) {
    match role
    case Root(_) => (child.Mid? || child.Leaf?) && child.root == f && child.a == i
    case Mid(r, a, _) => child.Leaf? && child.root == r && child.a == a && child.b == i
    case _ => false
  }

  predicate BelowEntry(role: Role, child: Role, f: nat, n: nat) {
    match role
    case Root(_) => (child.Mid? || child.Leaf?) && child.root == f && child.a < n
    case Mid(r, a, _) => child.Leaf? && child.root == r && child.a == a && child.b < n
    case _ => false
  }

  predicate Under(own: Roles, f: nat, g: nat)
    requires f in own && g in own
  {
    g == f || BelowEntry(own[f], own[g], f, ENTRIES)
  }

  ghost predicate CutAt(mem: Mem, own: Roles, mem': Mem, own': Roles, f: nat, g: nat)
    requires f in own
  {
    && (g in own <==> g in own')
    && (g in own ==>
          && own'[g] == (if Under(own, f, g) then Free else own[g])
          && (Under(own, f, g) || Contents(mem', g) == Contents(mem, g)))
  }

  /** Exactly f and the tables below it became free; all other pages are as they were. */
  ghost predicate Cut(mem: Mem, own: Roles, mem': Mem, own': Roles, f: nat) {
    f in own && forall g {:trigger CutAt(mem, own, mem', own', f, g)} :: CutAt(mem, own, mem', own', f, g)
  }

  ghost predicate EmptyLeaf(mem: Mem, own: Roles, r: nat, t: nat) {
    t in own && own[t].Leaf? && own[t].root == r ==> forall c :: 0 <= c < ENTRIES ==> !Valid(At(mem, t, c))
  }

  /** r has no mappings left. */
  ghost predicate NoLeaves(mem: Mem, own: Roles, r: nat) {
    && (forall t {:trigger EmptyLeaf(mem, own, r, t)} :: EmptyLeaf(mem, own, r, t))
    && (forall g :: g in own && own[g].Data? ==> own[g].root != r)
  }

  // ----- Part way through a table -----

  ghost predicate PartAt(mem: Mem, own: Roles, mem': Mem, own': Roles, f: nat, i: nat, g: nat)
    requires f in own
  {
    && (g in own <==> g in own')
    && (g in own && g != f ==>
          && own'[g] == (if BelowEntry(own[f], own[g], f, i) then Free else own[g])
          && (BelowEntry(own[f], own[g], f, i) || Contents(mem', g) == Contents(mem, g)))
  }

  /** freewalk has dealt with the first i entries of f. */
  ghost predicate Part(mem: Mem, own: Roles, mem': Mem, own': Roles, f: nat, i: nat) {
    && f in own && f in own' && IsTable(own[f]) && own'[f] == Dead(own[f])
    && (forall g {:trigger PartAt(mem, own, mem', own', f, i, g)} :: PartAt(mem, own, mem', own', f, i, g))
    && (forall j :: 0 <= j < i ==> !Valid(At(mem', f, j)))
    && (forall j :: i <= j < ENTRIES ==> At(mem', f, j) == At(mem, f, j))
  }

  lemma PartStart(mem: Mem, own: Roles, f: nat)
    requires f in own && IsTable(own[f])
    ensures Part(mem, own, mem, own[f := Dead(own[f])], f, 0)
  {
    var own' := own[f := Dead(own[f])];
    forall g: nat ensures PartAt(mem, own, mem, own', f, 0, g) { }
  }

  /** Whoever is below entry i of f is the child there or below it. */
  lemma ViaChild(mem: Mem, own: Roles, f: nat, i: nat, g: nat)
    requires Ok(mem, own) && f in own && g in own && i < ENTRIES && Via(own[f], own[g], f, i)
    ensures Link(mem, f, i) != 0 && Link(mem, f, i) in own
    ensures Under(own, Link(mem, f, i), g)
  {
    assert FrameOk(mem, own, g) && FrameOk(mem, own, f);
  }

  lemma BelowNext(role: Role, child: Role, f: nat, i: nat)
    ensures BelowEntry(role, child, f, i + 1) <==> BelowEntry(role, child, f, i) || Via(role, child, f, i)
  {
  }

  /** An invalid entry has nothing below it. */
  lemma PartSkip(mem: Mem, own: Roles, mem': Mem, own': Roles, f: nat, i: nat)
    requires Ok(mem, own) && Part(mem, own, mem', own', f, i) && i < ENTRIES && !Valid(At(mem, f, i))
    ensures Part(mem, own, mem', own', f, i + 1)
  {
    var n := i + 1;
    forall g: nat ensures PartAt(mem, own, mem', own', f, n, g) {
      assert PartAt(mem, own, mem', own', f, i, g);
      if g in own {
        BelowNext(own[f], own[g], f, i);
        if Via(own[f], own[g], f, i) { ViaChild(mem, own, f, i, g); }
      }
    }
  }

  ghost predicate IsChild(mem: Mem, own: Roles, f: nat, i: nat, c: nat) {
    && f in own && c in own && c != f && c == Link(mem, f, i) && IsTable(own[c]) && own[c].live && !own[c].Root?
    && Via(own[f], own[c], f, i) && RootOf(own[c], c) == RootOf(own[f], f)
  }

  /** The child of a live table. */
  lemma PartChild(mem: Mem, own: Roles, mem': Mem, own': Roles, f: nat, i: nat)
    requires Ok(mem, own) && Ok(mem', own') && Part(mem, own, mem', own', f, i) && i < ENTRIES && own[f].live
    requires Valid(At(mem, f, i))
    requires !own[f].Leaf?
    ensures IsChild(mem, own, f, i, Link(mem, f, i)) && Link(mem', f, i) == Link(mem, f, i)
    ensures Link(mem, f, i) in own' && own'[Link(mem, f, i)] == own[Link(mem, f, i)]
    ensures ParentDead(mem', own', Link(mem, f, i))
    ensures !Leafy(At(mem, f, i).flags)
  {
    if own[f].Root? { WalkMid(mem, own, f, i); } else { WalkLeaf(mem, own, f, own[f].root, own[f].a, i); }
    var c := Link(mem, f, i);
    assert PartAt(mem, own, mem', own', f, i, c);
    assert FrameOk(mem', own', f) && FrameOk(mem, own, f);
    assert own[f].Root? ==> ChildIs(mem, own, f, i, own[c]);
    assert own[f].Mid? ==> ChildIs(mem, own, f, i, own[c]);
  }

  /** After the walk below the child, one more entry of f is done. */
  lemma PartCutAt(mem: Mem, own: Roles, mem1: Mem, own1: Roles, mem2: Mem, own2: Roles, f: nat, i: nat, c: nat, g: nat)
    requires Ok(mem, own) && Part(mem, own, mem1, own1, f, i) && i < ENTRIES && IsChild(mem, own, f, i, c) && c in own1
    requires own1[c] == own[c]
    requires Cut(mem1, own1, mem2, own2, c)
    ensures PartAt(mem, own, mem2, own2, f, i + 1, g)
  {
    assert PartAt(mem, own, mem1, own1, f, i, g) && CutAt(mem1, own1, mem2, own2, c, g);
    if g in own {
      BelowNext(own[f], own[g], f, i);
      if Via(own[f], own[g], f, i) { ViaChild(mem, own, f, i, g); }
    }
  }

  lemma PartCut(mem: Mem, own: Roles, mem1: Mem, own1: Roles, mem2: Mem, own2: Roles, f: nat, i: nat, c: nat)
    requires Ok(mem, own) && Part(mem, own, mem1, own1, f, i) && i < ENTRIES && IsChild(mem, own, f, i, c) && c in own1
    requires own1[c] == own[c]
    requires Cut(mem1, own1, mem2, own2, c) && f in mem2 && |mem2[f]| == ENTRIES
    ensures Part(mem, own, Store(mem2, f, i, ZERO), own2, f, i + 1)
  {
    var mem3, n := Store(mem2, f, i, ZERO), i + 1;
    assert CutAt(mem1, own1, mem2, own2, c, f);
    forall g: nat ensures PartAt(mem, own, mem3, own2, f, n, g) {
      PartCutAt(mem, own, mem1, own1, mem2, own2, f, i, c, g);
    }
    forall j | 0 <= j < ENTRIES ensures At(mem3, f, j) == if j == i then ZERO else At(mem1, f, j) {
      StoreAt(mem2, f, i, ZERO, f, j);
    }
  }

  /** Once the child is gone, nothing is reached through its entry. */
  lemma NothingThrough(mem: Mem, own: Roles, mem2: Mem, own2: Roles, f: nat, i: nat, g: nat)
    requires Ok(mem2, own2) && f in own && f in own2 && IsTable(own[f]) && !own[f].Leaf? && own2[f] == Dead(own[f])
    requires i < ENTRIES
    requires PartAt(mem, own, mem2, own2, f, i + 1, g) && g in own && g in own2
    requires forall x :: x in own && own[x].Data? ==> own[x].root != RootOf(own[f], f)
    ensures !Through(mem2, own2[g], f, i)
  {
    assert FrameOk(mem2, own2, g);
    BelowNext(own[f], own[g], f, i);
  }

  lemma ClearChild(mem: Mem, own: Roles, mem1: Mem, own1: Roles, mem2: Mem, own2: Roles, f: nat, i: nat, c: nat)
    requires Ok(mem, own) && Part(mem, own, mem1, own1, f, i) && i < ENTRIES && IsChild(mem, own, f, i, c) && c in own1
    requires own1[c] == own[c]
    requires Cut(mem1, own1, mem2, own2, c) && Ok(mem2, own2) && !own[f].Leaf?
    requires forall x :: x in own && own[x].Data? ==> own[x].root != RootOf(own[f], f)
    ensures f in mem2 && |mem2[f]| == ENTRIES && Ok(Store(mem2, f, i, ZERO), own2)
  {
    assert CutAt(mem1, own1, mem2, own2, c, f);
    forall g | g in own2 ensures !Through(mem2, own2[g], f, i) {
      PartCutAt(mem, own, mem1, own1, mem2, own2, f, i, c, g);
      NothingThrough(mem, own, mem2, own2, f, i, g);
    }
    ClearKeeps(mem2, own2, f, i);
  }

  lemma NoLeavesStill(mem: Mem, own: Roles, mem': Mem, own': Roles, f: nat, i: nat, r: nat)
    requires NoLeaves(mem, own, r) && Part(mem, own, mem', own', f, i) && !own[f].Leaf?
    ensures NoLeaves(mem', own', r)
  {
    forall t: nat ensures EmptyLeaf(mem', own', r, t) {
      assert EmptyLeaf(mem, own, r, t) && PartAt(mem, own, mem', own', f, i, t);
      if t in own' && own'[t].Leaf? {
        assert t != f;
        forall c | 0 <= c < ENTRIES ensures At(mem', t, c) == At(mem, t, c) {
          assert Contents(mem', t) == Contents(mem, t);
        }
      }
    }
    forall g | g in own' && own'[g].Data? ensures own'[g].root != r { assert PartAt(mem, own, mem', own', f, i, g); }
  }

  /** All entries done: the table itself can go. */
  lemma PartEnd(mem: Mem, own: Roles, mem1: Mem, own1: Roles, f: nat, page: seq<Word>)
    requires Part(mem, own, mem1, own1, f, ENTRIES)
    ensures Cut(mem, own, mem1[f := page], own1[f := Free], f)
  {
    var mem2, own2 := mem1[f := page], own1[f := Free];
    forall g: nat ensures CutAt(mem, own, mem2, own2, f, g) { assert PartAt(mem, own, mem1, own1, f, ENTRIES, g); }
  }

  lemma ParentStill(mem: Mem, own: Roles, mem': Mem, own': Roles, f: nat, i: nat)
    requires Ok(mem, own) && Part(mem, own, mem', own', f, i) && ParentDead(mem, own, f)
    ensures ParentDead(mem', own', f)
  {
    assert FrameOk(mem, own, f);
    if !own[f].Root? {
      var r := own[f].root;
      assert PartAt(mem, own, mem', own', f, i, r) && Contents(mem', r) == Contents(mem, r);
      assert At(mem', r, own[f].a) == At(mem, r, own[f].a);
      assert PartAt(mem, own, mem', own', f, i, Link(mem, r, own[f].a));
    }
  }

  lemma FreeTableGood(mem: Mem, own: Roles, head: nat, list: seq<nat>, f: nat)
    requires Good(mem, own, head, list) && f in own && IsTable(own[f]) && ParentDead(mem, own, f)
    requires forall i :: 0 <= i < ENTRIES ==> !Valid(At(mem, f, i))
    ensures Good(mem[f := FreedPage(head)], own[f := Free], f, [f] + list)
  {
    FreeTableKeeps(mem, own, f, FreedPage(head));
    PushChain(mem, own, head, list, f);
  }

  lemma DoomGood(mem: Mem, own: Roles, head: nat, list: seq<nat>, f: nat)
    requires Good(mem, own, head, list) && f in own && IsTable(own[f]) && ParentDead(mem, own, f)
    ensures Good(mem, own[f := Dead(own[f])], head, list)
  {
    DoomKeeps(mem, own, f);
    ChainSame(mem, own, mem, own[f := Dead(own[f])], head, list);
  }

  lemma ClearChain(mem: Mem, own: Roles, head: nat, list: seq<nat>, f: nat, i: nat)
    requires Chain(mem, own, head, list) && f in own && own[f] != Free && f in mem && i < |mem[f]|
    ensures Chain(Store(mem, f, i, ZERO), own, head, list)
  {
    ChainSame(mem, own, Store(mem, f, i, ZERO), own, head, list);
  }

  function Rank(role: Role): nat { if role.Root? then 2 else if role.Mid? then 1 else 0 }

  /** Free a table and everything below it; its mappings must be gone. */
  method Walk(k: Kernel, f: nat)
    requires k.Ready() && f in k.own && IsTable(k.own[f]) && k.own[f].live && ParentDead(k.mem, k.own, f)
    requires NoLeaves(k.mem, k.own, RootOf(k.own[f], f))
    modifies k
    ensures k.Ready() && Cut(old(k.mem), old(k.own), k.mem, k.own, f)
    decreases Rank(k.own[f]), 1
  {
    ghost var mem0, own0 := k.mem, k.own;
    DoomGood(k.mem, k.own, k.freelist, k.list, f);
    PartStart(mem0, own0, f);
    k.own := k.own[f := Dead(k.own[f])];
    var i := 0;
    while i < ENTRIES
      invariant i <= ENTRIES && k.Ready() && Part(mem0, own0, k.mem, k.own, f, i)
    {
      WalkEntry(k, f, i, mem0, own0);
      i := i + 1;
    }
    ParentStill(mem0, own0, k.mem, k.own, f, i);
    FreeTableGood(k.mem, k.own, k.freelist, k.list, f);
    PartEnd(mem0, own0, k.mem, k.own, f, FreedPage(k.freelist));
    k.mem := k.mem[f := FreedPage(k.freelist)];
    k.own := k.own[f := Free];
    k.list := [f] + k.list;
    k.freelist := f;
  }

  /** One round of freewalk's loop. */
  method WalkEntry(k: Kernel, f: nat, i: nat, ghost mem0: Mem, ghost own0: Roles)
    requires k.Ready() && Ok(mem0, own0) && Part(mem0, own0, k.mem, k.own, f, i) && i < ENTRIES
    requires own0[f].live && NoLeaves(mem0, own0, RootOf(own0[f], f))
    modifies k
    ensures k.Ready() && Part(mem0, own0, k.mem, k.own, f, i + 1)
    decreases Rank(own0[f]), 0
  {
    var pte := k.mem[f][i];
    if !Valid(pte) {
      PartSkip(mem0, own0, k.mem, k.own, f, i);
      return;
    }
    NotLeaf(mem0, own0, f, i);
    PartChild(mem0, own0, k.mem, k.own, f, i);
    if Leafy(pte.flags) { assert false; }
    var c := pte.frame;
    NoLeavesStill(mem0, own0, k.mem, k.own, f, i, RootOf(own0[f], f));
    ghost var mem1, own1 := k.mem, k.own;
    Walk(k, c);
    ClearChild(mem0, own0, mem1, own1, k.mem, k.own, f, i, c);
    PartCut(mem0, own0, mem1, own1, k.mem, k.own, f, i, c);
    FStays(mem1, own1, k.mem, k.own, c, f);
    ClearChain(k.mem, k.own, k.freelist, k.list, f, i);
    k.mem := Store(k.mem, f, i, ZERO);
  }

  lemma NotLeaf(mem: Mem, own: Roles, f: nat, i: nat)
    requires f in own && IsTable(own[f]) && NoLeaves(mem, own, RootOf(own[f], f)) && i < ENTRIES && Valid(At(mem, f, i))
    ensures !own[f].Leaf?
  {
    assert EmptyLeaf(mem, own, RootOf(own[f], f), f);
  }

  lemma FStays(mem: Mem, own: Roles, mem': Mem, own': Roles, c: nat, f: nat)
    requires Cut(mem, own, mem', own', c) && f in own && !Under(own, c, f) && own[f] != Free
    ensures f in own' && own'[f] == own[f] && own'[f] != Free
  {
    assert CutAt(mem, own, mem', own', c, f);
  }
}
