/** kernel/sysfile.c create, sys_link, sys_unlink and kernel/fs.c dirlookup, dirlink, iput: link
    counts and directory entries.  Directories are tables of entries; path lookup has already
    found the directories an operation works in. */
module Links {
  import opened Options
  import opened Params

  const MAXLINK := 32767        // nlink is a short

  datatype Entry = Entry(name: string, inum: nat)     // inum 0: an empty slot
  datatype Kind = Free | File | Device | Dir
  datatype Node = Node(kind: Kind, nlink: int, entries: seq<Entry>, refs: nat)
  type Nodes = seq<Node>

  // ----- Counting -----

  /** Entries other than "." that name inode i. */
  function CountIn(es: seq<Entry>, i: nat): nat {
    if es == [] then 0
    else CountIn(es[..|es| - 1], i) + if es[|es| - 1].inum == i && es[|es| - 1].name != "." then 1 else 0
  }

  predicate Linked(x: Node) { x.kind == Dir && x.nlink >= 1 }

  /** What one directory contributes to i's link count: nothing once it is unlinked. */
  function From(x: Node, i: nat): nat { if Linked(x) then CountIn(x.entries, i) else 0 }

  /** Entries other than "." naming i in linked directories. */
  function Names(s: Nodes, i: nat): nat {
    if s == [] then 0 else Names(s[..|s| - 1], i) + From(s[|s| - 1], i)
  }

  lemma {:induction false} NamesUpdate(s: Nodes, d: nat, x: Node, i: nat)
    requires d < |s|
    ensures Names(s[d := x], i) == Names(s, i) - From(s[d], i) + From(x, i)
    ensures Names(s, i) >= From(s[d], i)
  {
    var n := |s| - 1;
    if d == n {
      assert s[d := x][..n] == s[..n];
    } else {
      assert s[d := x][..n] == s[..n][d := x];
      NamesUpdate(s[..n], d, x, i);
    }
  }

  predicate Hits(e: Entry, i: nat) { e.inum == i && e.name != "." }

  lemma {:induction false} CountUpdate(es: seq<Entry>, k: nat, e: Entry, i: nat)
    requires k < |es|
    ensures CountIn(es[k := e], i) == CountIn(es, i) - (if Hits(es[k], i) then 1 else 0) + if Hits(e, i) then 1 else 0
    ensures Hits(es[k], i) ==> CountIn(es, i) >= 1
  {
    var n := |es| - 1;
    if k == n {
      assert es[k := e][..n] == es[..n];
    } else {
      assert es[k := e][..n] == es[..n][k := e];
      CountUpdate(es[..n], k, e, i);
    }
  }

  lemma CountAppend(es: seq<Entry>, e: Entry, i: nat)
    ensures CountIn(es + [e], i) == CountIn(es, i) + if Hits(e, i) then 1 else 0
  {
    assert (es + [e])[..|es|] == es;
  }

  lemma {:induction false} CountNone(es: seq<Entry>, i: nat)
    requires forall k :: 0 <= k < |es| ==> !Hits(es[k], i)
    ensures CountIn(es, i) == 0
  {
    if es != [] { CountNone(es[..|es| - 1], i); }
  }

  lemma {:induction false} CountOne(es: seq<Entry>, i: nat, j: nat)
    requires j < |es| && Hits(es[j], i) && forall k :: 0 <= k < |es| && k != j ==> !Hits(es[k], i)
    ensures CountIn(es, i) == 1
  {
    var n := |es| - 1;
    if j == n { CountNone(es[..n], i); } else { CountOne(es[..n], i, j); }
  }

  lemma {:induction false} NamesNone(s: Nodes, i: nat)
    requires forall d :: 0 <= d < |s| ==> From(s[d], i) == 0
    ensures Names(s, i) == 0
  {
    if s != [] { NamesNone(s[..|s| - 1], i); }
  }

  lemma {:induction false} NamesOne(s: Nodes, i: nat, p: nat)
    requires p < |s| && From(s[p], i) == 1 && forall d :: 0 <= d < |s| && d != p ==> From(s[d], i) == 0
    ensures Names(s, i) == 1
  {
    var n := |s| - 1;
    if p == n { NamesNone(s[..n], i); } else { NamesOne(s[..n], i, p); }
  }

  // ----- Directory tables -----

  /** dirlookup: the first live entry with the name. */
  function Lookup(es: seq<Entry>, name: string, from: nat): (r: Option<nat>)
    requires from <= |es|
    ensures r.Some? ==> from <= r.value < |es| && es[r.value].inum != 0 && es[r.value].name == name
    ensures r.None? ==> forall k :: from <= k < |es| && es[k].inum != 0 ==> es[k].name != name
    decreases |es| - from
  {
    if from == |es| then None
    else if es[from].inum != 0 && es[from].name == name then Some(from)
    else Lookup(es, name, from + 1)
  }

  lemma {:induction false} LookupIsFirst(es: seq<Entry>, name: string, from: nat)
    requires from <= |es| && Lookup(es, name, from).Some?
    ensures forall k :: from <= k < Lookup(es, name, from).value && es[k].inum != 0 ==> es[k].name != name
    decreases |es| - from
  {
    if es[from].inum == 0 || es[from].name != name { LookupIsFirst(es, name, from + 1); }
  }

  /** dirlink's search for an empty entry; |es| when it must append. */
  function EmptySlot(es: seq<Entry>, from: nat): (k: nat)
    requires from <= |es|
    ensures from <= k <= |es| && (k < |es| ==> es[k].inum == 0)
    ensures forall j :: from <= j < k ==> es[j].inum != 0
    decreases |es| - from
  {
    if from == |es| || es[from].inum == 0 then from else EmptySlot(es, from + 1)
  }

  function Put(es: seq<Entry>, k: nat, e: Entry): (r: seq<Entry>)
    requires k <= |es|
    ensures |r| == (if k < |es| then |es| else |es| + 1) && r[k] == e
    ensures forall j :: 0 <= j < |es| && j != k ==> r[j] == es[j]
  {
    if k < |es| then es[k := e] else es + [e]
  }

  function Added(es: seq<Entry>, name: string, inum: nat): seq<Entry> {
    Put(es, EmptySlot(es, 0), Entry(name, inum))
  }

  lemma PutCount(es: seq<Entry>, k: nat, e: Entry, i: nat)
    requires k <= |es| && (k < |es| ==> es[k].inum == 0) && i != 0
    ensures CountIn(Put(es, k, e), i) == CountIn(es, i) + if Hits(e, i) then 1 else 0
  {
    if k < |es| { CountUpdate(es, k, e, i); } else { CountAppend(es, e, i); }
  }

  // ----- The operations on values -----

  /** ialloc's scan for a free inode, from inode 1 up; |s| when there is none. */
  function FreeInode(s: Nodes, from: nat): (c: nat)
    requires from <= |s|
    ensures from <= c <= |s| && (c < |s| ==> s[c].kind == Free)
    decreases |s| - from
  {
    if from == |s| || s[from].kind == Free then from else FreeInode(s, from + 1)
  }

  /** Every inode before the one found is in use, and all of them are when the scan fails. */
  lemma {:induction false} FreeInodeIsFirst(s: Nodes, from: nat)
    requires from <= |s|
    ensures forall i :: from <= i < FreeInode(s, from) ==> s[i].kind != Free
    decreases |s| - from
  {
    if from < |s| && s[from].kind != Free { FreeInodeIsFirst(s, from + 1); }
  }

  function AddEntry(s: Nodes, dp: nat, name: string, inum: nat): Nodes
    requires dp < |s|
  {
    s[dp := s[dp].(entries := Added(s[dp].entries, name, inum))]
  }

  function AddLinks(s: Nodes, i: nat, d: int): Nodes
    requires i < |s|
  {
    s[i := s[i].(nlink := s[i].nlink + d)]
  }

  function Hold(s: Nodes, i: nat): Nodes
    requires i < |s|
  {
    s[i := s[i].(refs := s[i].refs + 1)]
  }

  /** iput: drop a reference; the last one frees an inode without links. */
  function Drop(s: Nodes, i: nat): Nodes
    requires i < |s|
  {
    if s[i].refs == 0 then s
    else if s[i].refs == 1 && s[i].nlink == 0 then s[i := Node(Free, 0, [], 0)]
    else s[i := s[i].(refs := s[i].refs - 1)]
  }

  function Dots(c: nat, dp: nat): seq<Entry> { [Entry(".", c), Entry("..", dp)] }

  /** create past its lookup: inode c, linked once and referenced once, named in dp. */
  function Created(s: Nodes, dp: nat, name: string, kind: Kind, c: nat): Nodes
    requires dp < |s| && c < |s|
  {
    var s1 := s[c := Node(kind, 1, if kind == Dir then Dots(c, dp) else [], 1)];
    AddEntry(if kind == Dir then AddLinks(s1, dp, 1) else s1, dp, name, c)
  }

  datatype Outcome = Done(inum: nat) | Fails | Panics

  /** Every entry of dp, live or not, holds an inode number. */
  predicate InRange(s: Nodes, dp: nat) {
    dp < |s| && forall k :: 0 <= k < |s[dp].entries| ==> s[dp].entries[k].inum < |s|
  }

  /** create; ilock panics on an inode without a type, ialloc on a full table. */
  function Create(s: Nodes, dp: nat, name: string, kind: Kind): (Nodes, Outcome)
    requires InRange(s, dp)
  {
    var at := Lookup(s[dp].entries, name, 0);
    if at.Some? then
      var i := s[dp].entries[at.value].inum;
      if s[i].kind == Free then (s, Panics)
      else if kind == File && (s[i].kind == File || s[i].kind == Device) then (Hold(s, i), Done(i))
      else (s, Fails)
    else
      var c := FreeInode(s, 1);
      if c == |s| then (s, Panics) else (Created(s, dp, name, kind, c), Done(c))
  }

  /** sys_link once namei has found ip: dp is None when nameiparent fails. */
  function Link(s: Nodes, ip: nat, dp: Option<nat>, name: string): (Nodes, bool)
    requires ip < |s| && (dp.Some? ==> dp.value < |s|)
  {
    if s[ip].kind == Dir || dp.None? || Lookup(s[dp.value].entries, name, 0).Some? then (s, false)
    else (AddEntry(AddLinks(s, ip, 1), dp.value, name, ip), true)
  }

  predicate EmptyFrom(es: seq<Entry>, from: nat) {
    forall k :: from <= k < |es| ==> es[k].inum == 0
  }

  function Erased(s: Nodes, dp: nat, k: nat): Nodes
    requires dp < |s| && k < |s[dp].entries|
  {
    s[dp := s[dp].(entries := s[dp].entries[k := Entry("", 0)])]
  }

  /** sys_unlink past its checks: slot k of dp names t. */
  function Unnamed(s: Nodes, dp: nat, k: nat, t: nat): Nodes
    requires dp < |s| && k < |s[dp].entries| && t < |s|
  {
    var s1 := Erased(s, dp, k);
    AddLinks(if s1[t].kind == Dir then AddLinks(s1, dp, -1) else s1, t, -1)
  }

  function Unlink(s: Nodes, dp: nat, name: string): (Nodes, Outcome)
    requires InRange(s, dp)
  {
    var at := Lookup(s[dp].entries, name, 0);
    if name == "." || name == ".." || at.None? then (s, Fails)
    else
      var t := s[dp].entries[at.value].inum;
      if s[t].nlink < 1 then (s, Panics)
      else if s[t].kind == Dir && !EmptyFrom(s[t].entries, 2) then (s, Fails)
      else (Drop(Hold(Unnamed(s, dp, at.value, t), t), t), Done(t))
  }

  // ----- What every operation keeps -----

  /** A linked directory's table: "." and ".." first, then live entries with distinct names. */
  ghost predicate TableOk(es: seq<Entry>, d: nat) {
    && |es| >= 2 && es[0] == Entry(".", d) && es[1].name == ".."
    && (forall k :: 2 <= k < |es| && es[k].inum != 0 ==> es[k].name != "." && es[k].name != "..")
    && (forall j, k :: 2 <= j < k < |es| && es[j].inum != 0 && es[k].inum != 0 ==> es[j].name != es[k].name)
  }

  /** Live entries name live inodes. */
  ghost predicate NamesLive(s: Nodes, es: seq<Entry>) {
    forall k :: 0 <= k < |es| ==> es[k].inum < |s| && (es[k].inum != 0 ==> s[es[k].inum].kind != Free)
  }

  predicate ParentLinked(s: Nodes, es: seq<Entry>) {
    |es| >= 2 && 0 < es[1].inum < |s| && Linked(s[es[1].inum])
  }

  ghost predicate DirOk(s: Nodes, d: nat)
    requires d < |s|
  {
    0 < d && TableOk(s[d].entries, d) && NamesLive(s, s[d].entries) && ParentLinked(s, s[d].entries)
  }

  ghost predicate Tables(s: Nodes) {
    forall d {:trigger DirOk(s, d)} :: 0 <= d < |s| && Linked(s[d]) ==> DirOk(s, d)
  }

  /** A directory that has lost its name holds at most its dots. */
  ghost predicate Bare(s: Nodes, d: nat)
    requires d < |s|
  {
    var es := s[d].entries;
    0 < d && |es| >= 2 && es[0].name == "." && es[1].name == ".." && EmptyFrom(es, 2) && InRange(s, d)
  }

  ghost predicate Bares(s: Nodes) {
    forall d {:trigger Bare(s, d)} :: 0 <= d < |s| && s[d].kind == Dir && !Linked(s[d]) ==> Bare(s, d)
  }

  predicate NamedAt(s: Nodes, p: nat, k: nat, c: nat) {
    p < |s| && Linked(s[p]) && 2 <= k < |s[p].entries| && s[p].entries[k].inum == c
  }

  function Parent(x: Node): nat { if |x.entries| >= 2 then x.entries[1].inum else 0 }

  /** Whoever names a directory is its "..". */
  ghost predicate HeldByParent(s: Nodes) {
    forall p, k, c :: 0 < c < |s| && NamedAt(s, p, k, c) && s[c].kind == Dir ==>
      Linked(s[c]) && Parent(s[c]) == p && c != ROOTINO
  }

  /** A directory names another in one slot only. */
  ghost predicate OneSlot(s: Nodes) {
    forall p, j, k, c :: 0 < c < |s| && NamedAt(s, p, j, c) && NamedAt(s, p, k, c) && s[c].kind == Dir ==> j == k
  }

  ghost predicate IsNamed(s: Nodes, p: nat, c: nat) { exists k :: NamedAt(s, p, k, c) }

  /** Every linked directory but the root is named by its "..". */
  ghost predicate AllNamed(s: Nodes) {
    forall c :: 0 <= c < |s| && Linked(s[c]) && c != ROOTINO ==> IsNamed(s, Parent(s[c]), c)
  }

  ghost predicate Counts(s: Nodes) {
    forall i {:trigger Names(s, i)} :: 0 < i < |s| ==> s[i].nlink == Names(s, i)
  }

  ghost predicate Rooted(s: Nodes) {
    |s| > ROOTINO && Linked(s[ROOTINO]) && Parent(s[ROOTINO]) == ROOTINO
  }

  /** A free inode has no links and no references; any other has one or the other. */
  ghost predicate FreeOk(s: Nodes) {
    forall i :: 0 < i < |s| ==> (s[i].kind == Free <==> s[i].nlink == 0 && s[i].refs == 0)
  }

  ghost predicate Inv(s: Nodes) {
    Rooted(s) && Tables(s) && Bares(s) && HeldByParent(s) && OneSlot(s) && AllNamed(s) && Counts(s) && FreeOk(s)
  }
}
