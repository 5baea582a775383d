/** Every step of create, link, unlink and iput keeps link counts equal to names and the
    directory tree in order (kernel/sysfile.c, kernel/fs.c). */
module LinkSteps {
  import opened Links
  import opened Options
  import opened Params

  // ----- create -----

  predicate Slot(es: seq<Entry>, k: nat) { 2 <= k <= |es| && (k < |es| ==> es[k].inum == 0) }

  /** What a successful create changes: inode c, free before, and slot k of the directory dp. */
  ghost predicate Grown(s: Nodes, t: Nodes, dp: nat, k: nat, name: string, kind: Kind, c: nat) {
    && |t| == |s| && 0 < c < |s| && dp < |s| && c != dp && kind != Free && s[c].kind == Free
    && Linked(s[dp]) && Linked(t[dp]) && Slot(s[dp].entries, k)
    && t[c] == Node(kind, 1, if kind == Dir then Dots(c, dp) else [], 1)
    && t[dp].entries == Put(s[dp].entries, k, Entry(name, c))
    && t[dp].nlink == s[dp].nlink + (if kind == Dir then 1 else 0) && t[dp].refs == s[dp].refs
    && forall i :: 0 <= i < |s| && i != c && i != dp ==> t[i] == s[i]
  }

  /** A new entry goes past the dots of a linked directory. */
  lemma SlotPastDots(es: seq<Entry>, d: nat)
    requires TableOk(es, d) && d != 0 && es[1].inum != 0
    ensures Slot(es, EmptySlot(es, 0))
  {
    assert es[0].inum != 0;
  }

  lemma CreatedGrows(s: Nodes, dp: nat, name: string, kind: Kind, c: nat)
    requires 0 < c < |s| && dp < |s| && c != dp && kind != Free && Linked(s[dp]) && s[c].kind == Free
    requires Slot(s[dp].entries, EmptySlot(s[dp].entries, 0))
    ensures Grown(s, Created(s, dp, name, kind, c), dp, EmptySlot(s[dp].entries, 0), name, kind, c)
  {
  }

  lemma DotsCount(c: nat, dp: nat, i: nat)
    ensures CountIn(Dots(c, dp), i) == if i == dp then 1 else 0
  {
    CountAppend([], Entry(".", c), i);
    CountAppend([] + [Entry(".", c)], Entry("..", dp), i);
    assert Dots(c, dp) == ([] + [Entry(".", c)]) + [Entry("..", dp)];
  }

  lemma GrownCount(s: Nodes, t: Nodes, dp: nat, k: nat, name: string, kind: Kind, c: nat, i: nat)
    requires Grown(s, t, dp, k, name, kind, c) && i != 0 && name != "."
    ensures Names(t, i) == Names(s, i) + (if kind == Dir && i == dp then 1 else 0) + if i == c then 1 else 0
  {
    var u := s[c := t[c]];
    assert t == u[dp := t[dp]];
    NamesUpdate(s, c, t[c], i);
    NamesUpdate(u, dp, t[dp], i);
    PutCount(s[dp].entries, k, Entry(name, c), i);
    DotsCount(c, dp, i);
  }

  lemma PutTable(es: seq<Entry>, d: nat, k: nat, name: string, c: nat)
    requires TableOk(es, d) && Slot(es, k) && name != "." && name != ".."
    requires forall j :: 0 <= j < |es| && es[j].inum != 0 ==> es[j].name != name
    ensures TableOk(Put(es, k, Entry(name, c)), d)
  {
  }

  lemma GrownTable(s: Nodes, t: Nodes, dp: nat, k: nat, name: string, kind: Kind, c: nat, d: nat)
    requires Grown(s, t, dp, k, name, kind, c) && d < |t| && Linked(t[d]) && 0 < dp
    requires d != c ==> DirOk(s, d)
    requires d == dp ==> TableOk(t[d].entries, d)
    ensures DirOk(t, d)
  {
  }

  lemma GrownNamed(s: Nodes, t: Nodes, dp: nat, k: nat, name: string, kind: Kind, c: nat, p: nat, j: nat, x: nat)
    requires Tables(s) && Grown(s, t, dp, k, name, kind, c) && x != 0
    ensures NamedAt(t, p, j, x) <==> NamedAt(s, p, j, x) || (p == dp && j == k && x == c)
    ensures NamedAt(s, p, j, x) ==> 0 < x < |s| && x != c
  {
    if NamedAt(s, p, j, x) { assert DirOk(s, p); }
  }

  lemma GrownHeld(s: Nodes, t: Nodes, dp: nat, k: nat, name: string, kind: Kind, c: nat)
    requires Rooted(s) && Tables(s) && HeldByParent(s) && Grown(s, t, dp, k, name, kind, c)
    ensures HeldByParent(t)
  {
    forall p, j, x | 0 < x < |t| && NamedAt(t, p, j, x) && t[x].kind == Dir
      ensures Linked(t[x]) && Parent(t[x]) == p && x != ROOTINO
    {
      GrownNamed(s, t, dp, k, name, kind, c, p, j, x);
    }
  }

  lemma GrownOneSlot(s: Nodes, t: Nodes, dp: nat, k: nat, name: string, kind: Kind, c: nat)
    requires Tables(s) && OneSlot(s) && Grown(s, t, dp, k, name, kind, c)
    ensures OneSlot(t)
  {
    forall p, i, j, x | 0 < x < |t| && NamedAt(t, p, i, x) && NamedAt(t, p, j, x) && t[x].kind == Dir
      ensures i == j
    {
      GrownNamed(s, t, dp, k, name, kind, c, p, i, x);
      GrownNamed(s, t, dp, k, name, kind, c, p, j, x);
    }
  }

  lemma GrownIsNamed(s: Nodes, t: Nodes, dp: nat, k: nat, name: string, kind: Kind, c: nat, p: nat, x: nat)
    requires Tables(s) && Grown(s, t, dp, k, name, kind, c) && x != 0
    requires IsNamed(s, p, x) || (p == dp && x == c)
    ensures IsNamed(t, p, x)
  {
    if IsNamed(s, p, x) {
      var j :| NamedAt(s, p, j, x);
      GrownNamed(s, t, dp, k, name, kind, c, p, j, x);
    } else {
      GrownNamed(s, t, dp, k, name, kind, c, dp, k, c);
    }
  }

  lemma GrownAllNamed(s: Nodes, t: Nodes, dp: nat, k: nat, name: string, kind: Kind, c: nat)
    requires Tables(s) && AllNamed(s) && Grown(s, t, dp, k, name, kind, c)
    ensures AllNamed(t)
  {
    forall x | 0 <= x < |t| && Linked(t[x]) && x != ROOTINO ensures IsNamed(t, Parent(t[x]), x) {
      if x != c { assert DirOk(s, x); }
      GrownIsNamed(s, t, dp, k, name, kind, c, Parent(t[x]), x);
    }
  }

  lemma GrownCounts(s: Nodes, t: Nodes, dp: nat, k: nat, name: string, kind: Kind, c: nat)
    requires Counts(s) && Grown(s, t, dp, k, name, kind, c) && s[c].nlink == 0 && name != "."
    ensures Counts(t)
  {
    forall i | 0 < i < |t| ensures t[i].nlink == Names(t, i) { GrownCount(s, t, dp, k, name, kind, c, i); }
  }

  lemma GrownTables(s: Nodes, t: Nodes, dp: nat, k: nat, name: string, kind: Kind, c: nat)
    requires Tables(s) && Grown(s, t, dp, k, name, kind, c) && Lookup(s[dp].entries, name, 0).None?
    ensures Tables(t) && name != "."
  {
    assert DirOk(s, dp);
    var es := s[dp].entries;
    assert es[0].name == "." && es[1].name == "..";
    PutTable(es, dp, k, name, c);
    forall d | 0 <= d < |t| && Linked(t[d]) ensures DirOk(t, d) {
      GrownTable(s, t, dp, k, name, kind, c, d);
    }
  }

  lemma GrownRest(s: Nodes, t: Nodes, dp: nat, k: nat, name: string, kind: Kind, c: nat)
    requires Rooted(s) && FreeOk(s) && Grown(s, t, dp, k, name, kind, c)
    ensures Rooted(t) && FreeOk(t)
  {
  }

  lemma GrownBares(s: Nodes, t: Nodes, dp: nat, k: nat, name: string, kind: Kind, c: nat)
    requires Bares(s) && Grown(s, t, dp, k, name, kind, c)
    ensures Bares(t)
  {
    forall d | 0 <= d < |t| && t[d].kind == Dir && !Linked(t[d]) ensures Bare(t, d) { assert Bare(s, d); }
  }

  lemma GrownKeeps(s: Nodes, t: Nodes, dp: nat, k: nat, name: string, kind: Kind, c: nat)
    requires Inv(s) && Grown(s, t, dp, k, name, kind, c) && Lookup(s[dp].entries, name, 0).None?
    ensures Inv(t)
  {
    GrownTables(s, t, dp, k, name, kind, c);
    GrownHeld(s, t, dp, k, name, kind, c);
    GrownOneSlot(s, t, dp, k, name, kind, c);
    GrownAllNamed(s, t, dp, k, name, kind, c);
    GrownCounts(s, t, dp, k, name, kind, c);
    GrownRest(s, t, dp, k, name, kind, c);
    GrownBares(s, t, dp, k, name, kind, c);
  }

  // ----- link -----

  /** What a successful link changes: slot k of dp names the file ip, which has one more link. */
  ghost predicate Joined(s: Nodes, t: Nodes, dp: nat, k: nat, name: string, ip: nat) {
    && |t| == |s| && 0 < ip < |s| && dp < |s| && s[ip].kind != Free && s[ip].kind != Dir && s[ip].nlink >= 0
    && Linked(s[dp]) && Slot(s[dp].entries, k)
    && t[ip] == s[ip].(nlink := s[ip].nlink + 1)
    && t[dp] == s[dp].(entries := Put(s[dp].entries, k, Entry(name, ip)))
    && forall i :: 0 <= i < |s| && i != ip && i != dp ==> t[i] == s[i]
  }

  lemma LinkJoins(s: Nodes, ip: nat, dp: nat, name: string)
    requires 0 < ip < |s| && dp < |s| && s[ip].kind != Free && s[ip].kind != Dir && s[ip].nlink >= 0 && Linked(s[dp])
    requires Slot(s[dp].entries, EmptySlot(s[dp].entries, 0)) && Lookup(s[dp].entries, name, 0).None?
    ensures Joined(s, Link(s, ip, Some(dp), name).0, dp, EmptySlot(s[dp].entries, 0), name, ip)
  {
  }

  lemma JoinedCount(s: Nodes, t: Nodes, dp: nat, k: nat, name: string, ip: nat, i: nat)
    requires Joined(s, t, dp, k, name, ip) && i != 0 && name != "."
    ensures Names(t, i) == Names(s, i) + if i == ip then 1 else 0
  {
    var u := s[ip := t[ip]];
    assert t == u[dp := t[dp]];
    NamesUpdate(s, ip, t[ip], i);
    NamesUpdate(u, dp, t[dp], i);
    PutCount(s[dp].entries, k, Entry(name, ip), i);
  }

  lemma JoinedNamed(s: Nodes, t: Nodes, dp: nat, k: nat, name: string, ip: nat, p: nat, j: nat, x: nat)
    requires Joined(s, t, dp, k, name, ip) && x != 0
    ensures NamedAt(t, p, j, x) <==> NamedAt(s, p, j, x) || (p == dp && j == k && x == ip)
  {
  }

  lemma JoinedTable(s: Nodes, t: Nodes, dp: nat, k: nat, name: string, ip: nat, d: nat)
    requires Joined(s, t, dp, k, name, ip) && d < |t| && Linked(t[d]) && DirOk(s, d)
    requires d == dp ==> TableOk(t[d].entries, d)
    ensures DirOk(t, d)
  {
  }

  lemma JoinedTables(s: Nodes, t: Nodes, dp: nat, k: nat, name: string, ip: nat)
    requires Tables(s) && Joined(s, t, dp, k, name, ip) && Lookup(s[dp].entries, name, 0).None?
    ensures Tables(t) && name != "."
  {
    assert DirOk(s, dp);
    var es := s[dp].entries;
    assert es[0].name == "." && es[1].name == "..";
    PutTable(es, dp, k, name, ip);
    forall d | 0 <= d < |t| && Linked(t[d]) ensures DirOk(t, d) { JoinedTable(s, t, dp, k, name, ip, d); }
  }

  lemma JoinedHeld(s: Nodes, t: Nodes, dp: nat, k: nat, name: string, ip: nat)
    requires HeldByParent(s) && OneSlot(s) && Joined(s, t, dp, k, name, ip)
    ensures HeldByParent(t) && OneSlot(t)
  {
    forall p, j, x | 0 < x < |t| && NamedAt(t, p, j, x) && t[x].kind == Dir
      ensures NamedAt(s, p, j, x)
    {
      JoinedNamed(s, t, dp, k, name, ip, p, j, x);
    }
    forall p, j, x | 0 < x < |t| && NamedAt(t, p, j, x) && t[x].kind == Dir
      ensures Linked(t[x]) && Parent(t[x]) == p && x != ROOTINO
    {
      assert x != dp ==> t[x] == s[x];
      assert NamedAt(s, p, j, x);
    }
  }

  lemma JoinedAllNamed(s: Nodes, t: Nodes, dp: nat, k: nat, name: string, ip: nat)
    requires Tables(s) && AllNamed(s) && Joined(s, t, dp, k, name, ip)
    ensures AllNamed(t)
  {
    forall x | 0 <= x < |t| && Linked(t[x]) && x != ROOTINO ensures IsNamed(t, Parent(t[x]), x) {
      assert DirOk(s, x);
      var j :| NamedAt(s, Parent(s[x]), j, x);
      JoinedNamed(s, t, dp, k, name, ip, Parent(s[x]), j, x);
    }
  }

  lemma JoinedCounts(s: Nodes, t: Nodes, dp: nat, k: nat, name: string, ip: nat)
    requires Counts(s) && Joined(s, t, dp, k, name, ip) && name != "."
    ensures Counts(t)
  {
    forall i | 0 < i < |t| ensures t[i].nlink == Names(t, i) { JoinedCount(s, t, dp, k, name, ip, i); }
  }

  lemma JoinedRest(s: Nodes, t: Nodes, dp: nat, k: nat, name: string, ip: nat)
    requires Rooted(s) && FreeOk(s) && Joined(s, t, dp, k, name, ip)
    ensures Rooted(t) && FreeOk(t)
  {
  }

  lemma JoinedBares(s: Nodes, t: Nodes, dp: nat, k: nat, name: string, ip: nat)
    requires Bares(s) && Joined(s, t, dp, k, name, ip)
    ensures Bares(t)
  {
    forall d | 0 <= d < |t| && t[d].kind == Dir && !Linked(t[d]) ensures Bare(t, d) { assert Bare(s, d); }
  }

  lemma JoinedKeeps(s: Nodes, t: Nodes, dp: nat, k: nat, name: string, ip: nat)
    requires Inv(s) && Joined(s, t, dp, k, name, ip) && Lookup(s[dp].entries, name, 0).None?
    ensures Inv(t)
  {
    JoinedTables(s, t, dp, k, name, ip);
    JoinedHeld(s, t, dp, k, name, ip);
    JoinedAllNamed(s, t, dp, k, name, ip);
    JoinedCounts(s, t, dp, k, name, ip);
    JoinedRest(s, t, dp, k, name, ip);
    JoinedBares(s, t, dp, k, name, ip);
  }

  // ----- unlink -----

  /** No linked directory has an empty directory x as its "..". */
  lemma NoChild(s: Nodes, x: nat, d: nat)
    requires Rooted(s) && AllNamed(s) && x < |s| && x != ROOTINO && EmptyFrom(s[x].entries, 2)
    requires 0 < d < |s| && Linked(s[d])
    ensures Parent(s[d]) != x
  {
    assert forall k :: !NamedAt(s, x, k, d);
    if d != ROOTINO { assert IsNamed(s, Parent(s[d]), d); }
  }

  lemma HitIsName(s: Nodes, d: nat, j: nat, x: nat)
    requires d < |s| && Linked(s[d]) && DirOk(s, d) && j < |s[d].entries| && Parent(s[d]) != x
    ensures Hits(s[d].entries[j], x) ==> NamedAt(s, d, j, x)
  {
  }

  lemma OnlyFrom(s: Nodes, dp: nat, k: nat, x: nat, d: nat)
    requires Rooted(s) && Tables(s) && HeldByParent(s) && AllNamed(s)
    requires 0 < x < |s| && NamedAt(s, dp, k, x) && s[x].kind == Dir && EmptyFrom(s[x].entries, 2)
    requires d < |s| && d != dp
    ensures From(s[d], x) == 0
  {
    if Linked(s[d]) {
      assert DirOk(s, d);
      NoChild(s, x, d);
      forall j | 0 <= j < |s[d].entries| ensures !Hits(s[d].entries[j], x) { HitIsName(s, d, j, x); }
      CountNone(s[d].entries, x);
    }
  }

  lemma FromHolder(s: Nodes, dp: nat, k: nat, x: nat)
    requires Rooted(s) && Tables(s) && HeldByParent(s) && OneSlot(s) && AllNamed(s)
    requires 0 < x < |s| && NamedAt(s, dp, k, x) && s[x].kind == Dir && EmptyFrom(s[x].entries, 2)
    ensures From(s[dp], x) == 1
  {
    assert DirOk(s, dp);
    NoChild(s, x, dp);
    forall j | 0 <= j < |s[dp].entries| && j != k ensures !Hits(s[dp].entries[j], x) { HitIsName(s, dp, j, x); }
    CountOne(s[dp].entries, x, k);
  }

  /** An empty directory that has a name has exactly one link. */
  lemma EmptyDirLinks(s: Nodes, dp: nat, k: nat, x: nat)
    requires Inv(s) && 0 < x < |s| && NamedAt(s, dp, k, x) && s[x].kind == Dir && EmptyFrom(s[x].entries, 2)
    ensures s[x].nlink == 1 && x != dp
  {
    FromHolder(s, dp, k, x);
    forall d | 0 <= d < |s| && d != dp ensures From(s[d], x) == 0 { OnlyFrom(s, dp, k, x, d); }
    NamesOne(s, x, dp);
    assert s[dp].entries[k].inum != 0;
  }

  lemma CountHit(es: seq<Entry>, k: nat, i: nat)
    requires k < |es| && Hits(es[k], i)
    ensures CountIn(es, i) >= 1
  {
    CountUpdate(es, k, es[k], i);
  }

  lemma NamesTwo(s: Nodes, i: nat, a: nat, b: nat)
    requires a < |s| && b < |s| && a != b
    ensures Names(s, i) >= From(s[a], i) + From(s[b], i)
  {
    var none := Node(Free, 0, [], 0);
    NamesUpdate(s, a, none, i);
    NamesUpdate(s[a := none], b, none, i);
  }

  /** Whoever holds a subdirectory has a link of its own besides the subdirectory's "..". */
  lemma HolderLinks(s: Nodes, dp: nat, k: nat, x: nat)
    requires Rooted(s) && Tables(s) && HeldByParent(s) && AllNamed(s) && Counts(s)
    requires 0 < x < |s| && NamedAt(s, dp, k, x) && s[x].kind == Dir && EmptyFrom(s[x].entries, 2)
    ensures s[dp].nlink >= 2
  {
    assert DirOk(s, dp);
    assert DirOk(s, x);
    assert Hits(s[x].entries[1], dp);
    CountHit(s[x].entries, 1, dp);
    var p := Parent(s[dp]);
    if dp == ROOTINO {
      CountHit(s[dp].entries, 1, dp);
    } else {
      var j :| NamedAt(s, p, j, dp);
      assert DirOk(s, p);
      CountHit(s[p].entries, j, dp);
      NoChild(s, x, dp);
    }
    NamesTwo(s, dp, x, p);
  }

  /** What unlink changes before its last iput: slot k of dp, and inode x, which it references. */
  ghost predicate Pruned(s: Nodes, t: Nodes, dp: nat, k: nat, x: nat) {
    && |t| == |s| && 0 < x < |s| && NamedAt(s, dp, k, x) && x != dp && s[x].nlink >= 1
    && t[x] == s[x].(nlink := s[x].nlink - 1, refs := s[x].refs + 1)
    && t[dp] == s[dp].(entries := s[dp].entries[k := Entry("", 0)], nlink := t[dp].nlink)
    && Linked(t[dp]) && t[dp].nlink == s[dp].nlink - (if s[x].kind == Dir then 1 else 0)
    && (s[x].kind == Dir ==> s[x].nlink == 1 && EmptyFrom(s[x].entries, 2))
    && forall i :: 0 <= i < |s| && i != x && i != dp ==> t[i] == s[i]
  }

  lemma UnlinkPrunes(s: Nodes, dp: nat, k: nat, x: nat)
    requires Inv(s) && 0 < x < |s| && NamedAt(s, dp, k, x) && s[x].nlink >= 1
    requires s[x].kind == Dir ==> EmptyFrom(s[x].entries, 2)
    ensures Pruned(s, Hold(Unnamed(s, dp, k, x), x), dp, k, x)
  {
    if s[x].kind == Dir {
      EmptyDirLinks(s, dp, k, x);
      HolderLinks(s, dp, k, x);
    }
  }

  lemma PrunedFromDir(s: Nodes, x: nat, i: nat)
    requires Tables(s) && 0 < x < |s| && Linked(s[x]) && EmptyFrom(s[x].entries, 2) && i != 0
    ensures From(s[x], i) == if i == Parent(s[x]) then 1 else 0
  {
    assert DirOk(s, x);
    var es := s[x].entries;
    if i == Parent(s[x]) { CountOne(es, i, 1); } else { CountNone(es, i); }
  }

  lemma PrunedCount(s: Nodes, t: Nodes, dp: nat, k: nat, x: nat, i: nat)
    requires Tables(s) && HeldByParent(s) && Pruned(s, t, dp, k, x) && i != 0
    ensures Names(t, i) == Names(s, i) - (if s[x].kind == Dir && i == dp then 1 else 0) - if i == x then 1 else 0
  {
    var u := s[x := t[x]];
    assert t == u[dp := t[dp]];
    NamesUpdate(s, x, t[x], i);
    NamesUpdate(u, dp, t[dp], i);
    CountUpdate(s[dp].entries, k, Entry("", 0), i);
    assert DirOk(s, dp);
    if s[x].kind == Dir { PrunedFromDir(s, x, i); }
  }

  lemma PrunedNamed(s: Nodes, t: Nodes, dp: nat, k: nat, x: nat, p: nat, j: nat, y: nat)
    requires Pruned(s, t, dp, k, x) && y != 0
    ensures NamedAt(t, p, j, y) <==> NamedAt(s, p, j, y) && !(p == dp && j == k)
  {
  }

  lemma PrunedTable(s: Nodes, t: Nodes, dp: nat, k: nat, x: nat, d: nat)
    requires Pruned(s, t, dp, k, x) && d < |t| && Linked(t[d]) && DirOk(s, d)
    requires s[x].kind == Dir ==> Parent(s[d]) != x
    ensures DirOk(t, d)
  {
  }

  lemma PrunedTables(s: Nodes, t: Nodes, dp: nat, k: nat, x: nat)
    requires Rooted(s) && Tables(s) && HeldByParent(s) && AllNamed(s) && Pruned(s, t, dp, k, x)
    ensures Tables(t)
  {
    forall d | 0 <= d < |t| && Linked(t[d]) ensures DirOk(t, d) {
      assert DirOk(s, d);
      if s[x].kind == Dir { NoChild(s, x, d); }
      PrunedTable(s, t, dp, k, x, d);
    }
  }

  lemma PrunedStillNamed(s: Nodes, t: Nodes, dp: nat, k: nat, x: nat, p: nat, j: nat, y: nat)
    requires HeldByParent(s) && OneSlot(s) && Pruned(s, t, dp, k, x)
    requires 0 < y < |t| && NamedAt(t, p, j, y) && t[y].kind == Dir
    ensures NamedAt(s, p, j, y) && y != x
  {
    PrunedNamed(s, t, dp, k, x, p, j, y);
  }

  lemma PrunedHeld(s: Nodes, t: Nodes, dp: nat, k: nat, x: nat)
    requires HeldByParent(s) && OneSlot(s) && Pruned(s, t, dp, k, x)
    ensures HeldByParent(t)
  {
    forall p, j, y | 0 < y < |t| && NamedAt(t, p, j, y) && t[y].kind == Dir
      ensures Linked(t[y]) && Parent(t[y]) == p && y != ROOTINO
    {
      PrunedStillNamed(s, t, dp, k, x, p, j, y);
    }
  }

  lemma PrunedOneSlot(s: Nodes, t: Nodes, dp: nat, k: nat, x: nat)
    requires HeldByParent(s) && OneSlot(s) && Pruned(s, t, dp, k, x)
    ensures OneSlot(t)
  {
    forall p, i, j, y | 0 < y < |t| && NamedAt(t, p, i, y) && NamedAt(t, p, j, y) && t[y].kind == Dir
      ensures i == j
    {
      PrunedStillNamed(s, t, dp, k, x, p, i, y);
      PrunedStillNamed(s, t, dp, k, x, p, j, y);
    }
  }

  lemma PrunedAllNamed(s: Nodes, t: Nodes, dp: nat, k: nat, x: nat)
    requires Tables(s) && AllNamed(s) && Pruned(s, t, dp, k, x)
    ensures AllNamed(t)
  {
    forall y | 0 <= y < |t| && Linked(t[y]) && y != ROOTINO ensures IsNamed(t, Parent(t[y]), y) {
      assert DirOk(s, y);
      var j :| NamedAt(s, Parent(s[y]), j, y);
      PrunedNamed(s, t, dp, k, x, Parent(s[y]), j, y);
    }
  }

  lemma PrunedCounts(s: Nodes, t: Nodes, dp: nat, k: nat, x: nat)
    requires Tables(s) && HeldByParent(s) && Counts(s) && Pruned(s, t, dp, k, x)
    ensures Counts(t)
  {
    forall i | 0 < i < |t| ensures t[i].nlink == Names(t, i) { PrunedCount(s, t, dp, k, x, i); }
  }

  lemma PrunedRest(s: Nodes, t: Nodes, dp: nat, k: nat, x: nat)
    requires Rooted(s) && HeldByParent(s) && FreeOk(s) && Pruned(s, t, dp, k, x)
    ensures Rooted(t) && FreeOk(t)
  {
  }

  /** A directory that loses its name was empty. */
  lemma PrunedBares(s: Nodes, t: Nodes, dp: nat, k: nat, x: nat)
    requires Tables(s) && Bares(s) && Pruned(s, t, dp, k, x)
    ensures Bares(t)
  {
    forall d | 0 <= d < |t| && t[d].kind == Dir && !Linked(t[d]) ensures Bare(t, d) {
      if d == x { assert DirOk(s, x); } else { assert Bare(s, d); }
    }
  }

  lemma PrunedKeeps(s: Nodes, t: Nodes, dp: nat, k: nat, x: nat)
    requires Inv(s) && Pruned(s, t, dp, k, x)
    ensures Inv(t)
  {
    PrunedTables(s, t, dp, k, x);
    PrunedHeld(s, t, dp, k, x);
    PrunedOneSlot(s, t, dp, k, x);
    PrunedAllNamed(s, t, dp, k, x);
    PrunedCounts(s, t, dp, k, x);
    PrunedRest(s, t, dp, k, x);
    PrunedBares(s, t, dp, k, x);
  }

  // ----- References -----

  /** The linked directories and their tables are the same. */
  ghost predicate SameDirs(s: Nodes, t: Nodes) {
    && |t| == |s|
    && forall d :: 0 <= d < |s| ==>
         && Linked(s[d]) == Linked(t[d]) && (Linked(s[d]) ==> s[d].entries == t[d].entries)
         && (t[d].kind == Dir ==> s[d].kind == Dir)
  }

  lemma SameNamed(s: Nodes, t: Nodes)
    requires SameDirs(s, t)
    ensures forall p, k, c :: NamedAt(t, p, k, c) == NamedAt(s, p, k, c)
  {
  }

  lemma SameHeld(s: Nodes, t: Nodes)
    requires SameDirs(s, t) && HeldByParent(s) && OneSlot(s)
    ensures HeldByParent(t) && OneSlot(t)
  {
    SameNamed(s, t);
  }

  lemma SameAllNamed(s: Nodes, t: Nodes)
    requires SameDirs(s, t) && AllNamed(s)
    ensures AllNamed(t)
  {
    forall x | 0 <= x < |t| && Linked(t[x]) && x != ROOTINO ensures IsNamed(t, Parent(t[x]), x) {
      var k :| NamedAt(s, Parent(s[x]), k, x);
      assert NamedAt(t, Parent(s[x]), k, x);
    }
  }

  lemma SameBares(s: Nodes, t: Nodes)
    requires Bares(s) && |t| == |s|
    requires forall d :: 0 <= d < |t| && t[d].kind == Dir && !Linked(t[d]) ==>
               s[d].kind == Dir && !Linked(s[d]) && t[d].entries == s[d].entries
    ensures Bares(t)
  {
    forall d | 0 <= d < |t| && t[d].kind == Dir && !Linked(t[d]) ensures Bare(t, d) { assert Bare(s, d); }
  }

  lemma RereferencedTables(s: Nodes, t: Nodes, i: nat)
    requires Tables(s) && i < |s| == |t| && t == s[i := s[i].(refs := t[i].refs)]
    ensures Tables(t)
  {
    forall d | 0 <= d < |t| && Linked(t[d]) ensures DirOk(t, d) { assert DirOk(s, d); }
  }

  /** Changing the references of i. */
  lemma RereferencedKeeps(s: Nodes, t: Nodes, i: nat)
    requires Inv(s) && i < |s| == |t| && t == s[i := s[i].(refs := t[i].refs)]
    requires s[i].kind != Free && (t[i].refs > 0 || s[i].nlink != 0)
    ensures Inv(t)
  {
    SameHeld(s, t);
    SameAllNamed(s, t);
    RereferencedTables(s, t, i);
    SameBares(s, t);
    forall x | 0 < x < |t| ensures t[x].nlink == Names(t, x) { NamesUpdate(s, i, t[i], x); }
  }

  /** An inode without links is named by no linked directory. */
  lemma Unnameable(s: Nodes, i: nat, d: nat, k: nat)
    requires Tables(s) && Counts(s) && 0 < i < |s| && s[i].nlink == 0
    requires d < |s| && Linked(s[d]) && k < |s[d].entries|
    ensures s[d].entries[k].inum != i
  {
    assert DirOk(s, d);
    NamesUpdate(s, d, s[d], i);
    CountUpdate(s[d].entries, k, s[d].entries[k], i);
  }

  lemma FreedTables(s: Nodes, i: nat)
    requires Tables(s) && Counts(s) && 0 < i < |s| && s[i].nlink == 0
    ensures Tables(s[i := Node(Free, 0, [], 0)])
  {
    var t := s[i := Node(Free, 0, [], 0)];
    forall d | 0 <= d < |t| && Linked(t[d]) ensures DirOk(t, d) {
      assert DirOk(s, d);
      forall k | 0 <= k < |s[d].entries| ensures s[d].entries[k].inum != i { Unnameable(s, i, d, k); }
    }
  }

  lemma FreedKeeps(s: Nodes, i: nat)
    requires Inv(s) && 0 < i < |s| && s[i].nlink == 0
    ensures Inv(s[i := Node(Free, 0, [], 0)])
  {
    var t := s[i := Node(Free, 0, [], 0)];
    SameHeld(s, t);
    SameAllNamed(s, t);
    FreedTables(s, i);
    SameBares(s, t);
    forall x | 0 < x < |t| ensures t[x].nlink == Names(t, x) { NamesUpdate(s, i, t[i], x); }
  }

  lemma DropKeeps(s: Nodes, i: nat)
    requires Inv(s) && 0 < i < |s|
    ensures Inv(Drop(s, i))
  {
    if s[i].refs == 1 && s[i].nlink == 0 {
      FreedKeeps(s, i);
    } else if s[i].refs > 0 {
      RereferencedKeeps(s, Drop(s, i), i);
    }
  }
}
