/** Link counts over all sequences of create, link, unlink and iput. */
module LinkRuns {
  import opened Links
  import opened LinkSteps
  import opened Options
  import opened Params

  // ----- Runs -----

  datatype Op =
    | MkOp(dp: nat, name: string, kind: Kind)
    | LnOp(ip: nat, parent: Option<nat>, name: string)
    | RmOp(dp: nat, name: string)
    | OpenOp(i: nat)            // open, chdir and idup: one more reference
    | CloseOp(i: nat)

  /** Operations work on live inodes and in directories, linked or not, and link counts stay
      below 2^15. */
  ghost predicate Allowed(s: Nodes, op: Op) {
    match op
    case MkOp(dp, name, kind) => InRange(s, dp) && s[dp].kind == Dir && kind != Free && s[dp].nlink < MAXLINK
    case LnOp(ip, parent, name) =>
      && 0 < ip < |s| && s[ip].kind != Free && s[ip].nlink < MAXLINK
      && (parent.Some? ==> parent.value < |s| && s[parent.value].kind == Dir)
    case RmOp(dp, name) => InRange(s, dp) && s[dp].kind == Dir
    case OpenOp(i) => 0 < i < |s| && s[i].kind != Free
    case CloseOp(i) => 0 < i < |s| && s[i].refs > 0
  }

  /** No directory in order has an entry out of range. */
  lemma DirInRange(s: Nodes, dp: nat)
    requires Tables(s) && Bares(s) && dp < |s| && s[dp].kind == Dir
    ensures InRange(s, dp)
  {
    if Linked(s[dp]) { assert DirOk(s, dp); } else { assert Bare(s, dp); }
  }

  ghost function Apply(s: Nodes, op: Op): Nodes
    requires Allowed(s, op)
  {
    match op
    case MkOp(dp, name, kind) => Create(s, dp, name, kind).0
    case LnOp(ip, parent, name) => Link(s, ip, parent, name).0
    case RmOp(dp, name) => Unlink(s, dp, name).0
    case OpenOp(i) => Hold(s, i)
    case CloseOp(i) => Drop(s, i)
  }

  /** The directory in which op makes an entry. */
  ghost function AddsTo(s: Nodes, op: Op): (d: Option<nat>)
    requires Allowed(s, op)
    ensures d.Some? ==> d.value < |s| && s[d.value].kind == Dir
  {
    match op
    case MkOp(dp, name, kind) =>
      if Lookup(s[dp].entries, name, 0).None? && FreeInode(s, 1) < |s| then Some(dp) else None
    case LnOp(ip, parent, name) => if Link(s, ip, parent, name).1 then parent else None
    case _ => None
  }

  /** What a caller of create or link can check: entries are made in linked directories only. */
  ghost predicate InLinked(s: Nodes, op: Op) {
    Allowed(s, op) && AddsTo(s, op).Some? ==> Linked(s[AddsTo(s, op).value])
  }

  /** A named inode is live and has a link. */
  lemma NamedHasLink(s: Nodes, p: nat, k: nat, x: nat)
    requires Tables(s) && Counts(s) && x != 0 && NamedAt(s, p, k, x)
    ensures 0 < x < |s| && s[x].kind != Free && s[x].nlink >= 1
  {
    assert DirOk(s, p);
    assert Hits(s[p].entries[k], x);
    CountHit(s[p].entries, k, x);
    NamesUpdate(s, p, s[p], x);
  }

  lemma CreateKeeps(s: Nodes, dp: nat, name: string, kind: Kind)
    requires Inv(s) && Allowed(s, MkOp(dp, name, kind)) && InLinked(s, MkOp(dp, name, kind))
    ensures Inv(Apply(s, MkOp(dp, name, kind)))
  {
    var at := Lookup(s[dp].entries, name, 0);
    if at.Some? {
      var i := s[dp].entries[at.value].inum;
      if s[i].kind != Free { RereferencedKeeps(s, Hold(s, i), i); }
    } else {
      var c := FreeInode(s, 1);
      if c < |s| {
        assert DirOk(s, dp);
        SlotPastDots(s[dp].entries, dp);
        CreatedGrows(s, dp, name, kind, c);
        GrownKeeps(s, Created(s, dp, name, kind, c), dp, EmptySlot(s[dp].entries, 0), name, kind, c);
      }
    }
  }

  lemma LinkKeeps(s: Nodes, ip: nat, parent: Option<nat>, name: string)
    requires Inv(s) && Allowed(s, LnOp(ip, parent, name)) && InLinked(s, LnOp(ip, parent, name))
    ensures Inv(Apply(s, LnOp(ip, parent, name)))
  {
    if Link(s, ip, parent, name).1 {
      var dp := parent.value;
      assert DirOk(s, dp);
      SlotPastDots(s[dp].entries, dp);
      assert s[ip].nlink == Names(s, ip);
      LinkJoins(s, ip, dp, name);
      JoinedKeeps(s, Link(s, ip, parent, name).0, dp, EmptySlot(s[dp].entries, 0), name, ip);
    }
  }

  /** The slot unlink finds is past the dots and names a live inode with a link. */
  lemma UnlinkFinds(s: Nodes, dp: nat, name: string)
    requires Tables(s) && Counts(s) && dp < |s| && Linked(s[dp]) && name != "." && name != ".."
    requires Lookup(s[dp].entries, name, 0).Some?
    ensures var k := Lookup(s[dp].entries, name, 0).value; var x := s[dp].entries[k].inum;
      0 < x < |s| && NamedAt(s, dp, k, x) && s[x].kind != Free && s[x].nlink >= 1
  {
    assert DirOk(s, dp);
    var k := Lookup(s[dp].entries, name, 0).value;
    NamedHasLink(s, dp, k, s[dp].entries[k].inum);
  }

  lemma UnlinkDone(s: Nodes, dp: nat, k: nat, x: nat)
    requires Inv(s) && 0 < x < |s| && NamedAt(s, dp, k, x) && s[x].nlink >= 1
    requires s[x].kind == Dir ==> EmptyFrom(s[x].entries, 2)
    ensures Inv(Drop(Hold(Unnamed(s, dp, k, x), x), x))
  {
    var t := Hold(Unnamed(s, dp, k, x), x);
    UnlinkPrunes(s, dp, k, x);
    PrunedKeeps(s, t, dp, k, x);
    DropKeeps(t, x);
  }

  /** In a directory without a name unlink finds nothing. */
  lemma BareFinds(s: Nodes, dp: nat, name: string)
    requires dp < |s| && Bare(s, dp) && name != "." && name != ".."
    ensures Lookup(s[dp].entries, name, 0).None?
  {
  }

  lemma UnlinkKeeps(s: Nodes, dp: nat, name: string)
    requires Inv(s) && Allowed(s, RmOp(dp, name))
    ensures Inv(Apply(s, RmOp(dp, name))) && Unlink(s, dp, name).1 != Panics
  {
    var at := Lookup(s[dp].entries, name, 0);
    if name != "." && name != ".." && at.Some? {
      if !Linked(s[dp]) { BareFinds(s, dp, name); }
      UnlinkFinds(s, dp, name);
      var x := s[dp].entries[at.value].inum;
      if s[x].kind != Dir || EmptyFrom(s[x].entries, 2) { UnlinkDone(s, dp, at.value, x); }
    }
  }

  lemma StepKeeps(s: Nodes, op: Op)
    requires Inv(s) && Allowed(s, op) && InLinked(s, op)
    ensures Inv(Apply(s, op))
  {
    match op
    case MkOp(dp, name, kind) => CreateKeeps(s, dp, name, kind);
    case LnOp(ip, parent, name) => LinkKeeps(s, ip, parent, name);
    case RmOp(dp, name) => UnlinkKeeps(s, dp, name);
    case OpenOp(i) => RereferencedKeeps(s, Hold(s, i), i);
    case CloseOp(i) => DropKeeps(s, i);
  }

  ghost predicate Step(s: Nodes, op: Op, t: Nodes) { Allowed(s, op) && t == Apply(s, op) }

  /** A run from the image mkfs writes: the root directory, to which it adds files as create does. */
  ghost predicate Run(states: seq<Nodes>, ops: seq<Op>) {
    && |states| == |ops| + 1 && FreshImage(states[0])
    && forall n :: 0 <= n < |ops| ==> Step(states[n], ops[n], states[n + 1])
  }

  /** The first n operations made entries in linked directories only. */
  ghost predicate Disciplined(states: seq<Nodes>, ops: seq<Op>, n: nat)
    requires n <= |ops| < |states|
  {
    forall m :: 0 <= m < n ==> InLinked(states[m], ops[m])
  }

  ghost predicate FreshImage(s: Nodes) {
    && |s| > ROOTINO && s[0].kind == Free && s[ROOTINO] == Node(Dir, 1, Dots(ROOTINO, ROOTINO), 0)
    && forall i :: ROOTINO < i < |s| ==> s[i] == Node(Free, 0, [], 0)
  }

  lemma FreshImageInv(s: Nodes)
    requires FreshImage(s)
    ensures Inv(s)
  {
    assert forall p, k, c :: !NamedAt(s, p, k, c);
    assert DirOk(s, ROOTINO);
    forall i | 0 < i < |s| ensures s[i].nlink == Names(s, i) {
      DotsCount(ROOTINO, ROOTINO, i);
      if i == ROOTINO { NamesOne(s, i, ROOTINO); } else { NamesNone(s, i); }
    }
  }

  /** What the link counts and names say, without the bookkeeping of the proof. */
  ghost predicate Conserved(s: Nodes) {
    && (forall i :: 0 < i < |s| ==> s[i].nlink == Names(s, i))
    && (forall d :: 0 <= d < |s| && Linked(s[d]) && d != ROOTINO ==> NamedOnce(s, d))
    && (forall p, k :: 0 <= p < |s| && Linked(s[p]) && 0 <= k < |s[p].entries| && s[p].entries[k].inum != 0 ==>
          s[p].entries[k].inum < |s| && s[s[p].entries[k].inum].kind != Free)
    && (forall i :: 0 < i < |s| ==> (s[i].kind == Free <==> s[i].nlink == 0 && s[i].refs == 0))
  }

  ghost predicate NamedOnce(s: Nodes, d: nat)
    requires d < |s|
  {
    exists k :: NamedAt(s, Parent(s[d]), k, d) && forall q, j :: NamedAt(s, q, j, d) ==> q == Parent(s[d]) && j == k
  }

  lemma InvConserved(s: Nodes)
    requires Inv(s)
    ensures Conserved(s)
  {
    forall d | 0 <= d < |s| && Linked(s[d]) && d != ROOTINO ensures NamedOnce(s, d) {
      assert DirOk(s, d);
      var k :| NamedAt(s, Parent(s[d]), k, d);
    }
    forall p | 0 <= p < |s| && Linked(s[p]) ensures NamesLive(s, s[p].entries) { assert DirOk(s, p); }
  }

  lemma {:induction false} RunInv(states: seq<Nodes>, ops: seq<Op>, n: nat)
    requires Run(states, ops) && n <= |ops| && Disciplined(states, ops, n)
    ensures Inv(states[n])
  {
    if n == 0 {
      FreshImageInv(states[0]);
    } else {
      RunInv(states, ops, n - 1);
      assert Step(states[n - 1], ops[n - 1], states[n]);
      StepKeeps(states[n - 1], ops[n - 1]);
    }
  }

  // ----- Entries in a directory without a name -----

  /** A file created there has a link that no linked directory accounts for. */
  lemma FileInUnlinked(s: Nodes, dp: nat, name: string, kind: Kind, c: nat)
    requires Counts(s) && 0 < c < |s| && s[c].kind == Free && s[c].nlink == 0
    requires dp < |s| && s[dp].kind == Dir && !Linked(s[dp]) && (kind == File || kind == Device)
    ensures !Conserved(Created(s, dp, name, kind, c))
  {
    var t := Created(s, dp, name, kind, c);
    var u := s[c := t[c]];
    assert t == u[dp := t[dp]];
    NamesUpdate(s, c, t[c], c);
    NamesUpdate(u, dp, t[dp], c);
    assert t[c].nlink != Names(t, c);
  }

  /** A directory created there makes its parent count as linked, while nothing names the parent. */
  lemma DirInUnlinked(s: Nodes, dp: nat, name: string, c: nat)
    requires Inv(s) && 0 < c < |s| && s[c].kind == Free && 0 < dp < |s| && s[dp].kind == Dir && !Linked(s[dp])
    ensures !Conserved(Created(s, dp, name, Dir, c))
  {
    var t := Created(s, dp, name, Dir, c);
    assert Bare(s, dp);
    assert s[dp].nlink == Names(s, dp);
    assert Linked(t[dp]) && dp != ROOTINO;
    forall p, k ensures !NamedAt(t, p, k, dp) { UnnamedStill(s, dp, name, c, p, k); }
    assert !NamedOnce(t, dp);
  }

  lemma UnnamedStill(s: Nodes, dp: nat, name: string, c: nat, p: nat, k: nat)
    requires Tables(s) && Counts(s) && 0 < c < |s| && s[c].kind == Free && c != dp
    requires 0 < dp < |s| && s[dp].nlink == 0 && Bare(s, dp)
    ensures !NamedAt(Created(s, dp, name, Dir, c), p, k, dp)
  {
    if p < |s| && Linked(s[p]) && k < |s[p].entries| { Unnameable(s, dp, p, k); }
  }

  /** A link made there is counted and not accounted for. */
  lemma LinkInUnlinked(s: Nodes, ip: nat, dp: nat, name: string)
    requires Counts(s) && 0 < ip < |s| && dp < |s| && !Linked(s[dp]) && s[dp].kind == Dir
    requires Link(s, ip, Some(dp), name).1
    ensures !Conserved(Link(s, ip, Some(dp), name).0)
  {
    var t := Link(s, ip, Some(dp), name).0;
    var u := s[ip := t[ip]];
    assert t == u[dp := t[dp]];
    NamesUpdate(s, ip, t[ip], ip);
    NamesUpdate(u, dp, t[dp], ip);
    assert t[ip].nlink != Names(t, ip);
  }

  lemma UndisciplinedBreaks(s: Nodes, op: Op)
    requires Inv(s) && Allowed(s, op) && !InLinked(s, op)
    ensures !Conserved(Apply(s, op))
  {
    match op
    case MkOp(dp, name, kind) =>
      var c := FreeInode(s, 1);
      assert Bare(s, dp);
      if kind == Dir { DirInUnlinked(s, dp, name, c); } else { FileInUnlinked(s, dp, name, kind, c); }
    case LnOp(ip, parent, name) => LinkInUnlinked(s, ip, parent.value, name);
  }

  /** The exact condition, operation by operation: an entry made in dp keeps the counts if and only
      if dp is linked. */
  lemma StepConservesIff(states: seq<Nodes>, ops: seq<Op>, n: nat)
    requires Run(states, ops) && n < |ops| && Disciplined(states, ops, n)
    ensures Conserved(states[n + 1]) <==> InLinked(states[n], ops[n])
  {
    assert Step(states[n], ops[n], states[n + 1]);
    RunInv(states, ops, n);
    if InLinked(states[n], ops[n]) {
      StepKeeps(states[n], ops[n]);
      InvConserved(states[n + 1]);
    } else {
      UndisciplinedBreaks(states[n], ops[n]);
    }
  }

  /** The exact condition over runs: at every point of a run counts equal names, every linked
      directory has one name, no linked directory names a free inode and none is leaked, if and
      only if no entry is ever made in a directory that has lost its name. */
  lemma LinksConservedIff(states: seq<Nodes>, ops: seq<Op>)
    requires Run(states, ops)
    ensures (forall n :: 0 <= n <= |ops| ==> Conserved(states[n])) <==> Disciplined(states, ops, |ops|)
  {
    if Disciplined(states, ops, |ops|) {
      forall n | 0 <= n <= |ops| ensures Conserved(states[n]) {
        RunInv(states, ops, n);
        InvConserved(states[n]);
      }
    } else {
      var n := FirstBreak(states, ops, |ops|);
      StepConservesIff(states, ops, n);
    }
  }

  lemma {:induction false} FirstBreak(states: seq<Nodes>, ops: seq<Op>, n: nat) returns (m: nat)
    requires Run(states, ops) && n <= |ops| && !Disciplined(states, ops, n)
    ensures m < n && Disciplined(states, ops, m) && !InLinked(states[m], ops[m])
  {
    if Disciplined(states, ops, n - 1) { return n - 1; }
    m := FirstBreak(states, ops, n - 1);
  }

  lemma Extend(states: seq<Nodes>, ops: seq<Op>, op: Op)
    requires Run(states, ops) && Allowed(states[|ops|], op)
    ensures Run(states + [Apply(states[|ops|], op)], ops + [op])
    ensures Disciplined(states, ops, |ops|) ==>
      Disciplined(states + [Apply(states[|ops|], op)], ops + [op], |ops| + if InLinked(states[|ops|], op) then 1 else 0)
  {
    var ss, os := states + [Apply(states[|ops|], op)], ops + [op];
    forall n | 0 <= n < |os| ensures Step(ss[n], os[n], ss[n + 1]) {
      if n < |ops| { assert Step(states[n], ops[n], states[n + 1]); }
    }
    if Disciplined(states, ops, |ops|) {
      forall m | 0 <= m < |ops| ensures InLinked(ss[m], os[m]) { assert InLinked(states[m], ops[m]); }
    }
  }

  /** Make a directory, enter it and remove it: it lives on without a name. */
  lemma UnlinkedReachable(s: Nodes) returns (states: seq<Nodes>, ops: seq<Op>)
    requires FreshImage(s) && |s| > 3
    ensures Run(states, ops) && states[0] == s && |ops| == 4 && Disciplined(states, ops, 4)
    ensures |states[4]| == |s| && states[4][2] == Node(Dir, 0, Dots(2, ROOTINO), 1)
    ensures states[4][ROOTINO].kind == Dir && states[4][3].kind == Free
  {
    states, ops := [s], [];
    var s1 := MadeDir(s);
    Extend(states, ops, MkOp(ROOTINO, "d", Dir));
    states, ops := states + [s1], ops + [MkOp(ROOTINO, "d", Dir)];
    Extend(states, ops, CloseOp(2));
    states, ops := states + [Drop(s1, 2)], ops + [CloseOp(2)];
    Extend(states, ops, OpenOp(2));
    assert Hold(Drop(s1, 2), 2) == s1;
    states, ops := states + [s1], ops + [OpenOp(2)];
    var s4 := RemovedDir(s1);
    Extend(states, ops, RmOp(ROOTINO, "d"));
    states, ops := states + [s4], ops + [RmOp(ROOTINO, "d")];
  }

  /** Creating a file, a device or a directory in it breaks the counts. */
  lemma CreateInUnlinkedBreaks(s: Nodes, kind: Kind) returns (states: seq<Nodes>, ops: seq<Op>)
    requires FreshImage(s) && |s| > 3 && kind != Free
    ensures Run(states, ops) && states[0] == s && |ops| == 5 && ops[4] == MkOp(2, "f", kind) && !Conserved(states[5])
  {
    states, ops := UnlinkedReachable(s);
    var s4 := states[4];
    assert Lookup(s4[2].entries, "f", 2).None? && Lookup(s4[2].entries, "f", 1).None?;
    assert FreeInode(s4, 3) == 3 == FreeInode(s4, 2);
    Extend(states, ops, MkOp(2, "f", kind));
    states, ops := states + [Apply(s4, MkOp(2, "f", kind))], ops + [MkOp(2, "f", kind)];
    StepConservesIff(states, ops, 4);
  }

  /** mkdir d in the fresh image. */
  lemma MadeDir(s: Nodes) returns (t: Nodes)
    requires FreshImage(s) && |s| > 3
    ensures Allowed(s, MkOp(ROOTINO, "d", Dir)) && t == Apply(s, MkOp(ROOTINO, "d", Dir))
    ensures t == s[2 := Node(Dir, 1, Dots(2, ROOTINO), 1)][ROOTINO :=
                   Node(Dir, 2, Dots(ROOTINO, ROOTINO) + [Entry("d", 2)], 0)]
  {
    var es := Dots(ROOTINO, ROOTINO);
    assert s[ROOTINO].entries == es;
    assert Lookup(es, "d", 2).None? && Lookup(es, "d", 1).None?;
    assert EmptySlot(es, 2) == 2 && EmptySlot(es, 1) == 2;
    assert FreeInode(s, 2) == 2 == FreeInode(s, 1);
    t := Create(s, ROOTINO, "d", Dir).0;
  }

  lemma RemovedDir(s: Nodes) returns (t: Nodes)
    requires |s| > 3 && s[ROOTINO] == Node(Dir, 2, Dots(ROOTINO, ROOTINO) + [Entry("d", 2)], 0)
    requires s[2] == Node(Dir, 1, Dots(2, ROOTINO), 1)
    ensures Allowed(s, RmOp(ROOTINO, "d")) && t == Apply(s, RmOp(ROOTINO, "d"))
    ensures |t| == |s| && t[2] == Node(Dir, 0, Dots(2, ROOTINO), 1) && t[ROOTINO].kind == Dir
    ensures forall i :: 2 < i < |s| ==> t[i] == s[i]
  {
    var es := Dots(ROOTINO, ROOTINO) + [Entry("d", 2)];
    assert Lookup(es, "d", 2) == Some(2) && Lookup(es, "d", 1) == Some(2);
    t := Unlink(s, ROOTINO, "d").0;
  }

  /** The panic "unlink: nlink < 1" is unreachable, in every directory. */
  lemma UnlinkNeverPanics(states: seq<Nodes>, ops: seq<Op>, n: nat, dp: nat, name: string)
    requires Run(states, ops) && n <= |ops| && Disciplined(states, ops, n)
    requires dp < |states[n]| && states[n][dp].kind == Dir
    ensures InRange(states[n], dp) && Unlink(states[n], dp, name).1 != Panics
  {
    RunInv(states, ops, n);
    DirInRange(states[n], dp);
    UnlinkKeeps(states[n], dp, name);
  }

  /** Removing a name just linked restores every inode, link count and lookup. */
  lemma UnlinkUndoesLink(s: Nodes, ip: nat, dp: nat, name: string, other: string)
    requires InRange(s, dp) && 0 < ip < |s| && s[ip].nlink >= 1 && ip != dp && other != name
    requires name != "." && name != ".." && Link(s, ip, Some(dp), name).1
    ensures var t := Link(s, ip, Some(dp), name).0;
      && InRange(t, dp)
      && var u := Unlink(t, dp, name).0;
         && |u| == |s| && (forall i :: 0 <= i < |s| && i != dp ==> u[i] == s[i])
         && u[dp] == s[dp].(entries := u[dp].entries)
         && Lookup(u[dp].entries, name, 0).None?
         && Lookup(u[dp].entries, other, 0) == Lookup(s[dp].entries, other, 0)
  {
    var t := Link(s, ip, Some(dp), name).0;
    var es := s[dp].entries;
    var k := EmptySlot(es, 0);
    FirstMatch(t[dp].entries, name, k, 0);
    SameBound(es, t[dp].entries[k := Entry("", 0)], other, 0);
    SameBound(es, t[dp].entries[k := Entry("", 0)], name, 0);
  }

  lemma {:induction false} FirstMatch(es: seq<Entry>, name: string, k: nat, from: nat)
    requires from <= k < |es| && es[k].inum != 0 && es[k].name == name
    requires forall j :: 0 <= j < |es| && j != k && es[j].inum != 0 ==> es[j].name != name
    ensures Lookup(es, name, from) == Some(k)
    decreases k - from
  {
    if from < k { FirstMatch(es, name, k, from + 1); }
  }

  /** Tables with the same live entries, one perhaps longer, bind every name alike. */
  lemma {:induction false} SameBound(es: seq<Entry>, fs: seq<Entry>, name: string, from: nat)
    requires |es| <= |fs| && from <= |es|
    requires forall j :: 0 <= j < |es| ==> (es[j].inum == 0 && fs[j].inum == 0) || es[j] == fs[j]
    requires forall j :: |es| <= j < |fs| ==> fs[j].inum == 0
    ensures Lookup(es, name, from) == Lookup(fs, name, from)
    decreases |es| - from
  {
    if from < |es| { SameBound(es, fs, name, from + 1); }
  }
}
