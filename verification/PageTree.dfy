/** Three-level page tables in physical memory, and who owns each page frame.  Frames are page
    numbers; frame 0 is never handed out, since kalloc returns 0 for "none". */
module PageTree {
  import opened Sv39

  type Mem = map<nat, seq<Word>>            // frame -> its 512 words

  /** What a frame is used for.  A table is live until freewalk starts on it. */
  datatype Role =
    | Free
    | Held                                  // allocated, not yet placed
    | Data(root: nat, page: nat)            // a user page
    | Root(live: bool)
    | Mid(root: nat, a: nat, live: bool)
    | Leaf(root: nat, a: nat, b: nat, live: bool)
  type Roles = map<nat, Role>

  predicate IsTable(r: Role) { r.Root? || r.Mid? || r.Leaf? }

  // ----- Following entries -----

  function At(mem: Mem, f: nat, i: nat): Word {
    if f in mem && i < |mem[f]| then mem[f][i] else ZERO
  }

  /** The frame entry i of f leads to; 0 when the entry is not valid. */
  function Link(mem: Mem, f: nat, i: nat): nat {
    if Valid(At(mem, f, i)) then At(mem, f, i).frame else 0
  }

  function LeafTable(mem: Mem, r: nat, a: nat, b: nat): nat { Link(mem, Link(mem, r, a), b) }

  /** The leaf entry of a page: zero when the walk stops early. */
  function Pte(mem: Mem, r: nat, page: nat): Word { At(mem, LeafTable(mem, r, Px2(page), Px1(page)), Px0(page)) }

  /** The page map a table denotes: the valid leaf entry of each page. */
  ghost predicate Maps(mem: Mem, r: nat, page: nat, pte: Word) {
    Valid(pte) && Pte(mem, r, page) == pte
  }

  function Zeros(): (z: seq<Word>)
    ensures |z| == ENTRIES && forall i :: 0 <= i < ENTRIES ==> z[i] == ZERO
  {
    seq(ENTRIES, _ => ZERO)
  }

  // ----- Ownership -----

  ghost predicate Pages(mem: Mem, own: Roles) {
    && 0 !in own
    && (forall f :: f in mem <==> f in own)
    && (forall f :: f in mem ==> |mem[f]| == ENTRIES)
  }

  ghost predicate IsMid(own: Roles, m: nat, r: nat, a: nat) {
    m in own && own[m].Mid? && own[m].root == r && own[m].a == a && r in own && own[r].Root?
  }

  ghost predicate IsLeaf(own: Roles, t: nat, r: nat, a: nat, b: nat) {
    t in own && own[t].Leaf? && own[t].root == r && own[t].a == a && own[t].b == b
  }

  /** The place a role claims is where the tables lead; below MAXVA the first index is below 256. */
  ghost predicate UpOk(mem: Mem, own: Roles, f: nat, role: Role) {
    match role
    case Mid(r, a, _) => a < 256 && r in own && own[r].Root? && Link(mem, r, a) == f
    case Leaf(r, a, b, _) => a < 256 && b < ENTRIES && IsMid(own, Link(mem, r, a), r, a) && LeafTable(mem, r, a, b) == f
    case Data(r, p) =>
      && p < MAXPAGE && IsMid(own, Link(mem, r, Px2(p)), r, Px2(p))
      && IsLeaf(own, LeafTable(mem, r, Px2(p), Px1(p)), r, Px2(p), Px1(p))
      && Link(mem, LeafTable(mem, r, Px2(p), Px1(p)), Px0(p)) == f
    case _ => true
  }

  ghost predicate ChildIs(mem: Mem, own: Roles, f: nat, i: nat, role: Role) {
    Valid(At(mem, f, i)) ==> Link(mem, f, i) in own && own[Link(mem, f, i)] == role && !Leafy(At(mem, f, i).flags)
  }

  /** A leaf entry is zero or a valid leaf. */
  predicate EntryOk(pte: Word) { pte == ZERO || (Valid(pte) && Leafy(pte.flags)) }

  /** Where the entries of a live table lead. */
  ghost predicate DownOk(mem: Mem, own: Roles, f: nat, role: Role) {
    match role
    case Root(true) => forall a :: 0 <= a < ENTRIES ==> ChildIs(mem, own, f, a, Mid(f, a, true))
    case Mid(r, a, true) => forall b :: 0 <= b < ENTRIES ==> ChildIs(mem, own, f, b, Leaf(r, a, b, true))
    case Leaf(r, a, b, true) => forall c :: 0 <= c < ENTRIES ==> EntryOk(At(mem, f, c))
    case _ => true
  }

  ghost predicate FrameOk(mem: Mem, own: Roles, f: nat) {
    f in own ==> UpOk(mem, own, f, own[f]) && DownOk(mem, own, f, own[f])
  }

  ghost predicate TreeOk(mem: Mem, own: Roles) {
    forall f {:trigger FrameOk(mem, own, f)} :: FrameOk(mem, own, f)
  }

  ghost predicate Ok(mem: Mem, own: Roles) { Pages(mem, own) && TreeOk(mem, own) }

  // ----- The walk below a live root -----

  lemma WalkMid(mem: Mem, own: Roles, r: nat, a: nat)
    requires Ok(mem, own) && r in own && own[r] == Root(true) && a < ENTRIES && Valid(At(mem, r, a))
    ensures Link(mem, r, a) in own && own[Link(mem, r, a)] == Mid(r, a, true) && Link(mem, r, a) != 0
  {
    assert FrameOk(mem, own, r);
    assert ChildIs(mem, own, r, a, Mid(r, a, true));
  }

  lemma WalkLeaf(mem: Mem, own: Roles, m: nat, r: nat, a: nat, b: nat)
    requires Ok(mem, own) && m in own && own[m] == Mid(r, a, true) && b < ENTRIES && Valid(At(mem, m, b))
    ensures Link(mem, m, b) in own && own[Link(mem, m, b)] == Leaf(r, a, b, true)
    ensures Link(mem, r, a) == m && LeafTable(mem, r, a, b) == Link(mem, m, b)
  {
    assert FrameOk(mem, own, m);
    assert ChildIs(mem, own, m, b, Leaf(r, a, b, true));
  }

  /** Below a live root the leaf table of (a, b), when there is one, has that role. */
  lemma WalkRole(mem: Mem, own: Roles, r: nat, a: nat, b: nat)
    requires Ok(mem, own) && r in own && own[r] == Root(true) && a < ENTRIES && b < ENTRIES
    ensures var t := LeafTable(mem, r, a, b); t == 0 || (t in own && own[t] == Leaf(r, a, b, true))
    ensures var m := Link(mem, r, a); m == 0 || (m in own && own[m] == Mid(r, a, true))
  {
    if Valid(At(mem, r, a)) {
      WalkMid(mem, own, r, a);
      if Valid(At(mem, Link(mem, r, a), b)) { WalkLeaf(mem, own, Link(mem, r, a), r, a, b); }
    }
  }

  // ----- Changing a frame that is not a table -----

  lemma PlainUp(mem: Mem, own: Roles, f: nat, page: seq<Word>, role: Role, g: nat, gr: Role)
    requires Pages(mem, own) && f in own && !IsTable(own[f]) && !IsTable(role) && UpOk(mem, own, g, gr)
    ensures UpOk(mem[f := page], own[f := role], g, gr)
  {
  }

  lemma PlainDown(mem: Mem, own: Roles, f: nat, page: seq<Word>, role: Role, g: nat)
    requires Pages(mem, own) && f in own && !IsTable(own[f]) && !IsTable(role) && g in own && g != f
    requires DownOk(mem, own, g, own[g])
    ensures DownOk(mem[f := page], own[f := role], g, own[g])
  {
    var mem', own' := mem[f := page], own[f := role];
    assert forall i :: At(mem', g, i) == At(mem, g, i);
    if own[g].Root? && own[g].live {
      forall a | 0 <= a < ENTRIES ensures ChildIs(mem', own', g, a, Mid(g, a, true)) {
        assert ChildIs(mem, own, g, a, Mid(g, a, true));
      }
    } else if own[g].Mid? && own[g].live {
      forall b | 0 <= b < ENTRIES ensures ChildIs(mem', own', g, b, Leaf(own[g].root, own[g].a, b, true)) {
        assert ChildIs(mem, own, g, b, Leaf(own[g].root, own[g].a, b, true));
      }
    }
  }

  lemma PlainKeeps(mem: Mem, own: Roles, f: nat, page: seq<Word>, role: Role)
    requires Ok(mem, own) && f in own && !IsTable(own[f]) && !IsTable(role) && |page| == ENTRIES
    requires UpOk(mem, own, f, role)
    ensures Ok(mem[f := page], own[f := role])
  {
    forall g | g in own ensures FrameOk(mem[f := page], own[f := role], g) {
      assert FrameOk(mem, own, g);
      PlainUp(mem, own, f, page, role, g, own[f := role][g]);
      if g != f { PlainDown(mem, own, f, page, role, g); }
    }
  }

  lemma PlainTranslates(mem: Mem, own: Roles, f: nat, page: seq<Word>, r: nat, p: nat)
    requires Ok(mem, own) && f in own && !IsTable(own[f]) && r in own && own[r] == Root(true)
    ensures Pte(mem[f := page], r, p) == Pte(mem, r, p)
    ensures LeafTable(mem[f := page], r, Px2(p), Px1(p)) == LeafTable(mem, r, Px2(p), Px1(p))
  {
    WalkRole(mem, own, r, Px2(p), Px1(p));
  }

  // ----- Attaching a table -----

  function Store(mem: Mem, f: nat, i: nat, pte: Word): Mem
    requires f in mem && i < |mem[f]|
  {
    var page: seq<Word> := mem[f][i := pte];
    mem[f := page]
  }

  lemma StoreAt(mem: Mem, f: nat, i: nat, pte: Word, g: nat, j: nat)
    requires f in mem && i < |mem[f]|
    ensures At(Store(mem, f, i, pte), g, j) == if g == f && j == i then pte else At(mem, g, j)
  {
  }

  /** A frame f of zeros goes in as the table role says, at the empty slot i of its parent. */
  ghost predicate Attachable(mem: Mem, own: Roles, f: nat, parent: nat, i: nat, role: Role) {
    && f in own && f in mem && own[f] == Held && mem[f] == Zeros() && i < ENTRIES && !Valid(At(mem, parent, i))
    && parent in own
    && ((own[parent] == Root(true) && i < 256 && role == Mid(parent, i, true))
        || (own[parent].Mid? && own[parent].live && role == Leaf(own[parent].root, own[parent].a, i, true)))
  }

  function TablePte(f: nat): Word { Word(f, TABLE_FLAGS) }

  lemma AttachUp(mem: Mem, own: Roles, f: nat, parent: nat, i: nat, role: Role, g: nat)
    requires Pages(mem, own) && Attachable(mem, own, f, parent, i, role) && g in own && g != f
    requires UpOk(mem, own, g, own[g])
    ensures UpOk(Store(mem, parent, i, TablePte(f)), own[f := role], g, own[g])
  {
  }

  lemma AttachDown(mem: Mem, own: Roles, f: nat, parent: nat, i: nat, role: Role, g: nat)
    requires Pages(mem, own) && Attachable(mem, own, f, parent, i, role) && g in own && g != f
    requires DownOk(mem, own, g, own[g])
    ensures DownOk(Store(mem, parent, i, TablePte(f)), own[f := role], g, own[g])
  {
    var mem', own' := Store(mem, parent, i, TablePte(f)), own[f := role];
    if own[g].Leaf? && own[g].live {
      forall c | 0 <= c < ENTRIES ensures At(mem', g, c) == At(mem, g, c) {
        StoreAt(mem, parent, i, TablePte(f), g, c);
      }
    } else if own[g].Root? && own[g].live {
      forall a | 0 <= a < ENTRIES ensures ChildIs(mem', own', g, a, Mid(g, a, true)) {
        StoreAt(mem, parent, i, TablePte(f), g, a);
        assert ChildIs(mem, own, g, a, Mid(g, a, true));
      }
    } else if own[g].Mid? && own[g].live {
      forall b | 0 <= b < ENTRIES ensures ChildIs(mem', own', g, b, Leaf(own[g].root, own[g].a, b, true)) {
        StoreAt(mem, parent, i, TablePte(f), g, b);
        assert ChildIs(mem, own, g, b, Leaf(own[g].root, own[g].a, b, true));
      }
    }
  }

  lemma AttachNew(mem: Mem, own: Roles, f: nat, parent: nat, i: nat, role: Role)
    requires Pages(mem, own) && Attachable(mem, own, f, parent, i, role) && UpOk(mem, own, parent, own[parent])
    ensures var mem', own' := Store(mem, parent, i, TablePte(f)), own[f := role];
      UpOk(mem', own', f, role) && DownOk(mem', own', f, role)
  {
    var mem' := Store(mem, parent, i, TablePte(f));
    forall j | 0 <= j < ENTRIES ensures At(mem', f, j) == ZERO { StoreAt(mem, parent, i, TablePte(f), f, j); }
    if role.Mid? {
      forall b | 0 <= b < ENTRIES ensures ChildIs(mem', own[f := role], f, b, Leaf(role.root, role.a, b, true)) { }
    }
  }

  lemma AttachKeeps(mem: Mem, own: Roles, f: nat, parent: nat, i: nat, role: Role)
    requires Ok(mem, own) && Attachable(mem, own, f, parent, i, role)
    ensures Ok(Store(mem, parent, i, TablePte(f)), own[f := role])
  {
    assert FrameOk(mem, own, parent);
    AttachNew(mem, own, f, parent, i, role);
    forall g | g in own && g != f ensures FrameOk(Store(mem, parent, i, TablePte(f)), own[f := role], g) {
      assert FrameOk(mem, own, g);
      AttachUp(mem, own, f, parent, i, role, g);
      AttachDown(mem, own, f, parent, i, role, g);
    }
  }

  lemma AttachTranslates(mem: Mem, own: Roles, f: nat, parent: nat, i: nat, role: Role, r: nat, p: nat)
    requires Ok(mem, own) && Attachable(mem, own, f, parent, i, role) && r in own && own[r] == Root(true)
    ensures Pte(Store(mem, parent, i, TablePte(f)), r, p) == Pte(mem, r, p)
  {
    WalkRole(mem, own, r, Px2(p), Px1(p));
    assert FrameOk(mem, own, parent);
  }

  // ----- Writing a leaf entry -----

  lemma SetUp(mem: Mem, own: Roles, t: nat, c: nat, pte: Word, g: nat)
    requires Pages(mem, own) && t in own && own[t].Leaf? && own[t].a < ENTRIES && own[t].b < ENTRIES && c < ENTRIES
    requires g in own && UpOk(mem, own, g, own[g]) && own[g] != Data(own[t].root, Join(own[t].a, own[t].b, c))
    ensures UpOk(Store(mem, t, c, pte), own, g, own[g])
  {
    if own[g].Data? { SplitJoin(own[g].page); }
  }

  lemma SetDown(mem: Mem, own: Roles, t: nat, c: nat, pte: Word, g: nat)
    requires Pages(mem, own) && t in own && own[t].Leaf? && c < ENTRIES && EntryOk(pte)
    requires g in own && DownOk(mem, own, g, own[g])
    ensures DownOk(Store(mem, t, c, pte), own, g, own[g])
  {
    var mem' := Store(mem, t, c, pte);
    if own[g].Leaf? && own[g].live {
      forall j | 0 <= j < ENTRIES ensures EntryOk(At(mem', g, j)) { StoreAt(mem, t, c, pte, g, j); }
    } else {
      assert g != t ==> forall j :: At(mem', g, j) == At(mem, g, j);
      if own[g].Root? && own[g].live {
        forall a | 0 <= a < ENTRIES ensures ChildIs(mem', own, g, a, Mid(g, a, true)) {
          assert ChildIs(mem, own, g, a, Mid(g, a, true));
        }
      } else if own[g].Mid? && own[g].live {
        forall b | 0 <= b < ENTRIES ensures ChildIs(mem', own, g, b, Leaf(own[g].root, own[g].a, b, true)) {
          assert ChildIs(mem, own, g, b, Leaf(own[g].root, own[g].a, b, true));
        }
      }
    }
  }

  lemma SetKeeps(mem: Mem, own: Roles, t: nat, c: nat, pte: Word)
    requires Ok(mem, own) && t in own && own[t].Leaf? && c < ENTRIES && EntryOk(pte)
    requires forall g :: g in own ==> own[g] != Data(own[t].root, Join(own[t].a, own[t].b, c))
    ensures Ok(Store(mem, t, c, pte), own)
  {
    assert FrameOk(mem, own, t);
    forall g | g in own ensures FrameOk(Store(mem, t, c, pte), own, g) {
      assert FrameOk(mem, own, g);
      SetUp(mem, own, t, c, pte, g);
      SetDown(mem, own, t, c, pte, g);
    }
  }

  /** A write to a leaf entry changes one page of one table. */
  lemma SetTranslates(mem: Mem, own: Roles, t: nat, c: nat, pte: Word, r: nat, p: nat)
    requires Ok(mem, own) && t in own && own[t].Leaf? && c < ENTRIES && r in own && own[r] == Root(true) && p < MAXPAGE
    ensures Pte(Store(mem, t, c, pte), r, p)
      == if r == own[t].root && p == Join(own[t].a, own[t].b, c) then pte else Pte(mem, r, p)
    ensures LeafTable(Store(mem, t, c, pte), r, Px2(p), Px1(p)) == LeafTable(mem, r, Px2(p), Px1(p))
  {
    WalkRole(mem, own, r, Px2(p), Px1(p));
    SplitJoin(p);
    assert FrameOk(mem, own, t);
    JoinSplit(own[t].a, own[t].b, c);
  }

  // ----- Taking a tree apart -----

  ghost predicate ParentDead(mem: Mem, own: Roles, f: nat)
    requires f in own
  {
    match own[f]
    case Root(_) => true
    case Mid(r, a, _) => r in own && own[r] == Root(false)
    case Leaf(r, a, b, _) => Link(mem, r, a) in own && own[Link(mem, r, a)] == Mid(r, a, false)
    case _ => false
  }

  function Dead(role: Role): Role
    requires IsTable(role)
  {
    match role
    case Root(_) => Root(false)
    case Mid(r, a, _) => Mid(r, a, false)
    case Leaf(r, a, b, _) => Leaf(r, a, b, false)
  }

  lemma DoomDown(mem: Mem, own: Roles, f: nat, g: nat)
    requires Ok(mem, own) && f in own && IsTable(own[f]) && ParentDead(mem, own, f) && g in own && g != f
    ensures DownOk(mem, own[f := Dead(own[f])], g, own[g])
  {
    var own' := own[f := Dead(own[f])];
    assert FrameOk(mem, own, g) && FrameOk(mem, own, f);
    if own[g].Root? && own[g].live {
      forall a | 0 <= a < ENTRIES ensures ChildIs(mem, own', g, a, Mid(g, a, true)) {
        assert ChildIs(mem, own, g, a, Mid(g, a, true));
      }
    } else if own[g].Mid? && own[g].live {
      forall b | 0 <= b < ENTRIES ensures ChildIs(mem, own', g, b, Leaf(own[g].root, own[g].a, b, true)) {
        assert ChildIs(mem, own, g, b, Leaf(own[g].root, own[g].a, b, true));
      }
    }
  }

  /** freewalk starts on a table whose parent it has started on. */
  lemma DoomKeeps(mem: Mem, own: Roles, f: nat)
    requires Ok(mem, own) && f in own && IsTable(own[f]) && ParentDead(mem, own, f)
    ensures Ok(mem, own[f := Dead(own[f])])
  {
    var own' := own[f := Dead(own[f])];
    forall g | g in own' ensures FrameOk(mem, own', g) {
      assert FrameOk(mem, own, g) && FrameOk(mem, own, f);
      if g != f { DoomDown(mem, own, f, g); }
    }
  }

  /** No frame's place is reached through entry i of f. */
  ghost predicate NoneThrough(mem: Mem, own: Roles, f: nat, i: nat) {
    forall g :: g in own ==> !Through(mem, own[g], f, i)
  }

  ghost predicate Through(mem: Mem, role: Role, f: nat, i: nat) {
    match role
    case Mid(r, a, _) => r == f && a == i
    case Leaf(r, a, b, _) => (r == f && a == i) || (Link(mem, r, a) == f && b == i)
    case Data(r, p) =>
      || (r == f && Px2(p) == i) || (Link(mem, r, Px2(p)) == f && Px1(p) == i)
      || (LeafTable(mem, r, Px2(p), Px1(p)) == f && Px0(p) == i)
    case _ => false
  }

  lemma ClearUp(mem: Mem, own: Roles, f: nat, i: nat, g: nat)
    requires Pages(mem, own) && f in own && i < ENTRIES && g in own && UpOk(mem, own, g, own[g])
    requires !Through(mem, own[g], f, i)
    ensures UpOk(Store(mem, f, i, ZERO), own, g, own[g])
  {
  }

  lemma ClearDown(mem: Mem, own: Roles, f: nat, i: nat, g: nat)
    requires Pages(mem, own) && f in own && i < ENTRIES && g in own && DownOk(mem, own, g, own[g])
    ensures DownOk(Store(mem, f, i, ZERO), own, g, own[g])
  {
    var mem' := Store(mem, f, i, ZERO);
    if own[g].Leaf? && own[g].live {
      forall j | 0 <= j < ENTRIES ensures EntryOk(At(mem', g, j)) { StoreAt(mem, f, i, ZERO, g, j); }
    } else if own[g].Root? && own[g].live {
      forall a | 0 <= a < ENTRIES ensures ChildIs(mem', own, g, a, Mid(g, a, true)) {
        StoreAt(mem, f, i, ZERO, g, a);
        assert ChildIs(mem, own, g, a, Mid(g, a, true));
      }
    } else if own[g].Mid? && own[g].live {
      forall b | 0 <= b < ENTRIES ensures ChildIs(mem', own, g, b, Leaf(own[g].root, own[g].a, b, true)) {
        StoreAt(mem, f, i, ZERO, g, b);
        assert ChildIs(mem, own, g, b, Leaf(own[g].root, own[g].a, b, true));
      }
    }
  }

  lemma ClearKeeps(mem: Mem, own: Roles, f: nat, i: nat)
    requires Ok(mem, own) && f in own && i < ENTRIES && NoneThrough(mem, own, f, i)
    ensures Ok(Store(mem, f, i, ZERO), own)
  {
    forall g | g in own ensures FrameOk(Store(mem, f, i, ZERO), own, g) {
      assert FrameOk(mem, own, g);
      ClearUp(mem, own, f, i, g);
      ClearDown(mem, own, f, i, g);
    }
  }

  /** A table without valid entries leads nowhere. */
  lemma EmptyTableUp(mem: Mem, own: Roles, f: nat, page: seq<Word>, role: Role, g: nat)
    requires Pages(mem, own) && f in own && !IsTable(role) && (forall i :: 0 <= i < ENTRIES ==> !Valid(At(mem, f, i)))
    requires g in own && g != f && UpOk(mem, own, g, own[g])
    ensures UpOk(mem[f := page], own[f := role], g, own[g])
  {
    assert forall i :: Link(mem, f, i) == 0;
  }

  lemma EmptyTableDown(mem: Mem, own: Roles, f: nat, page: seq<Word>, g: nat)
    requires Ok(mem, own) && f in own && IsTable(own[f]) && ParentDead(mem, own, f) && g in own && g != f
    ensures DownOk(mem[f := page], own[f := Free], g, own[g])
  {
    var mem', own' := mem[f := page], own[f := Free];
    assert FrameOk(mem, own, g) && FrameOk(mem, own, f);
    assert forall i :: At(mem', g, i) == At(mem, g, i);
    if own[g].Root? && own[g].live {
      forall a | 0 <= a < ENTRIES ensures ChildIs(mem', own', g, a, Mid(g, a, true)) {
        assert ChildIs(mem, own, g, a, Mid(g, a, true));
      }
    } else if own[g].Mid? && own[g].live {
      forall b | 0 <= b < ENTRIES ensures ChildIs(mem', own', g, b, Leaf(own[g].root, own[g].a, b, true)) {
        assert ChildIs(mem, own, g, b, Leaf(own[g].root, own[g].a, b, true));
      }
    }
  }

  lemma FreeTableKeeps(mem: Mem, own: Roles, f: nat, page: seq<Word>)
    requires Ok(mem, own) && f in own && IsTable(own[f]) && ParentDead(mem, own, f) && |page| == ENTRIES
    requires forall i :: 0 <= i < ENTRIES ==> !Valid(At(mem, f, i))
    ensures Ok(mem[f := page], own[f := Free])
  {
    var mem', own' := mem[f := page], own[f := Free];
    forall g | g in own' ensures FrameOk(mem', own', g) {
      if g != f {
        assert FrameOk(mem, own, g);
        EmptyTableUp(mem, own, f, page, Free, g);
        EmptyTableDown(mem, own, f, page, g);
      }
    }
  }

  lemma PteOk(mem: Mem, own: Roles, r: nat, page: nat)
    requires Ok(mem, own) && r in own && own[r] == Root(true)
    ensures EntryOk(Pte(mem, r, page))
  {
    var t := LeafTable(mem, r, Px2(page), Px1(page));
    WalkRole(mem, own, r, Px2(page), Px1(page));
    assert FrameOk(mem, own, t);
  }
}
