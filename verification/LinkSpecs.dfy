/** What create, link and unlink promise their callers, entry by entry and inode by inode
    (kernel/sysfile.c, kernel/fs.c). */
module LinkSpecs {
  import opened Links
  import opened Options

  // ----- Names -----

  predicate Live(e: Entry, name: string) { e.inum != 0 && e.name == name }

  /** Slot k is the first that binds the name. */
  ghost predicate Binds(es: seq<Entry>, name: string, k: nat) {
    k < |es| && Live(es[k], name) && forall j :: 0 <= j < k ==> !Live(es[j], name)
  }

  ghost predicate Unbound(es: seq<Entry>, name: string) { forall j :: 0 <= j < |es| ==> !Live(es[j], name) }

  /** From es to fs one entry was made, in the first empty slot k or at the end. */
  ghost predicate PlacedAt(es: seq<Entry>, fs: seq<Entry>, k: nat, e: Entry) {
    && k <= |es| && (forall j :: 0 <= j < k ==> es[j].inum != 0) && (k < |es| ==> es[k].inum == 0)
    && |fs| == (if k == |es| then |es| + 1 else |es|) && fs[k] == e
    && forall j :: 0 <= j < |es| && j != k ==> fs[j] == es[j]
  }

  /** The name is now bound to inum, and every other name as before. */
  ghost predicate Rebound(es: seq<Entry>, fs: seq<Entry>, name: string, inum: nat) {
    && (exists k: nat :: Binds(fs, name, k) && fs[k].inum == inum)
    && forall other, k: nat :: other != name ==> (Binds(fs, other, k) <==> Binds(es, other, k))
  }

  ghost predicate Entered(es: seq<Entry>, fs: seq<Entry>, name: string, inum: nat) {
    (exists k :: PlacedAt(es, fs, k, Entry(name, inum))) && Rebound(es, fs, name, inum)
  }

  lemma LookupBinds(es: seq<Entry>, name: string)
    ensures Lookup(es, name, 0).None? <==> Unbound(es, name)
    ensures Lookup(es, name, 0).Some? ==> Binds(es, name, Lookup(es, name, 0).value)
  {
    if Lookup(es, name, 0).Some? { LookupIsFirst(es, name, 0); }
  }

  lemma BindsOnce(es: seq<Entry>, name: string, j: nat, k: nat)
    requires Binds(es, name, j) && Binds(es, name, k)
    ensures j == k
  {
  }

  lemma AddedEnters(es: seq<Entry>, name: string, inum: nat)
    requires Unbound(es, name) && inum != 0
    ensures Entered(es, Added(es, name, inum), name, inum)
  {
    var k, fs := EmptySlot(es, 0), Added(es, name, inum);
    assert PlacedAt(es, fs, k, Entry(name, inum));
    assert Binds(fs, name, k);
    forall other, j: nat | other != name ensures Binds(fs, other, j) <==> Binds(es, other, j) {
      SameSlots(es, fs, k, name, inum, other, j);
    }
  }

  lemma SameSlots(es: seq<Entry>, fs: seq<Entry>, k: nat, name: string, inum: nat, other: string, j: nat)
    requires PlacedAt(es, fs, k, Entry(name, inum)) && other != name
    ensures Binds(fs, other, j) <==> Binds(es, other, j)
  {
    forall i | 0 <= i < |es| ensures Live(fs[i], other) <==> Live(es[i], other) { }
  }

  // ----- create -----

  ghost predicate OthersKept(s: Nodes, t: Nodes, a: nat, b: nat) {
    |t| == |s| && forall i :: 0 <= i < |s| && i != a && i != b ==> t[i] == s[i]
  }

  /** The name is bound to inode i: a file or device opened as a file gets one more reference, anything
      else is refused, and an inode without a type is ilock's panic. */
  ghost predicate Reopened(s: Nodes, t: Nodes, i: nat, kind: Kind, o: Outcome) {
    i < |s| &&
    if s[i].kind == Free then o == Panics && t == s
    else if kind == File && (s[i].kind == File || s[i].kind == Device) then
      o == Done(i) && OthersKept(s, t, i, i) && t[i] == s[i].(refs := s[i].refs + 1)
    else o == Fails && t == s
  }

  /** The name is unbound: the first free inode becomes one of that kind, with one link and one
      reference, and is bound to the name; a directory gets its dots and adds a link to its parent. */
  ghost predicate MadeNew(s: Nodes, t: Nodes, dp: nat, name: string, kind: Kind, o: Outcome) {
    if forall i :: 1 <= i < |s| ==> s[i].kind != Free then o == Panics && t == s
    else
      && o.Done? && 1 <= o.inum < |s| && s[o.inum].kind == Free && (forall i :: 1 <= i < o.inum ==> s[i].kind != Free)
      && OthersKept(s, t, dp, o.inum) && dp < |s| && dp != o.inum
      && t[o.inum] == Node(kind, 1, if kind == Dir then [Entry(".", o.inum), Entry("..", dp)] else [], 1)
      && t[dp] == s[dp].(entries := t[dp].entries, nlink := s[dp].nlink + if kind == Dir then 1 else 0)
      && Entered(s[dp].entries, t[dp].entries, name, o.inum)
  }

  ghost predicate CreateSpec(s: Nodes, t: Nodes, dp: nat, name: string, kind: Kind, o: Outcome) {
    && dp < |s|
    && (forall k: nat :: Binds(s[dp].entries, name, k) ==> Reopened(s, t, s[dp].entries[k].inum, kind, o))
    && (Unbound(s[dp].entries, name) ==> MadeNew(s, t, dp, name, kind, o))
  }

  lemma CreateMeets(s: Nodes, dp: nat, name: string, kind: Kind)
    requires InRange(s, dp) && s[dp].kind == Dir && kind != Free
    ensures CreateSpec(s, Create(s, dp, name, kind).0, dp, name, kind, Create(s, dp, name, kind).1)
  {
    var es := s[dp].entries;
    LookupBinds(es, name);
    if Lookup(es, name, 0).Some? {
      forall k: nat | Binds(es, name, k) ensures k == Lookup(es, name, 0).value {
        BindsOnce(es, name, k, Lookup(es, name, 0).value);
      }
    } else {
      assert forall k: nat :: !Binds(es, name, k);
      NewMeets(s, dp, name, kind);
    }
  }

  lemma NewMeets(s: Nodes, dp: nat, name: string, kind: Kind)
    requires dp < |s| && s[dp].kind == Dir && kind != Free && Unbound(s[dp].entries, name)
    ensures var c := FreeInode(s, 1);
      if c == |s| then MadeNew(s, s, dp, name, kind, Panics)
      else MadeNew(s, Created(s, dp, name, kind, c), dp, name, kind, Done(c))
  {
    var c := FreeInode(s, 1);
    FreeInodeIsFirst(s, 1);
    if c < |s| { AddedEnters(s[dp].entries, name, c); }
  }

  // ----- link -----

  /** Exactly a bound name, a directory as target or a missing parent refuse a link, and then nothing
      changes; otherwise the count goes up and the name is bound. */
  ghost predicate LinkSpec(s: Nodes, t: Nodes, ip: nat, dp: Option<nat>, name: string, ok: bool) {
    && ip < |s| && (dp.Some? ==> dp.value < |s|)
    && (ok <==> s[ip].kind != Dir && dp.Some? && Unbound(s[dp.value].entries, name))
    && (!ok ==> t == s)
    && (ok ==>
          && OthersKept(s, t, ip, dp.value)
          && t[ip] == s[ip].(nlink := s[ip].nlink + 1, entries := t[ip].entries)
          && (ip != dp.value ==> t[ip].entries == s[ip].entries && t[dp.value].nlink == s[dp.value].nlink)
          && t[dp.value] == s[dp.value].(nlink := t[dp.value].nlink, entries := t[dp.value].entries)
          && (ip != 0 ==> Entered(s[dp.value].entries, t[dp.value].entries, name, ip)))
  }

  lemma LinkMeets(s: Nodes, ip: nat, dp: Option<nat>, name: string)
    requires ip < |s| && (dp.Some? ==> dp.value < |s|)
    ensures LinkSpec(s, Link(s, ip, dp, name).0, ip, dp, name, Link(s, ip, dp, name).1)
  {
    if dp.Some? {
      LookupBinds(s[dp.value].entries, name);
      if Unbound(s[dp.value].entries, name) && ip != 0 { AddedEnters(s[dp.value].entries, name, ip); }
    }
  }

  // ----- unlink -----

  /** Unlinking slot k of dp took x's name away: the slot is empty, x has one link less, and is free if
      that was its last and nobody references it; a directory takes its ".." link to dp with it. */
  ghost predicate Removed(s: Nodes, t: Nodes, dp: nat, k: nat, x: nat) {
    && dp < |s| && k < |s[dp].entries| && x < |s| && OthersKept(s, t, dp, x)
    && var less := (if s[x].kind == Dir then 1 else 0) + if dp == x then 1 else 0;
    && var d := s[dp].(entries := s[dp].entries[k := Entry("", 0)], nlink := s[dp].nlink - less);
    && var y := if dp == x then d else s[x].(nlink := s[x].nlink - 1);
    && (dp != x ==> t[dp] == d)
    && t[x] == if y.nlink == 0 && y.refs == 0 then Node(Free, 0, [], 0) else y
  }

  ghost predicate Emptied(es: seq<Entry>) { forall j :: 2 <= j < |es| ==> es[j].inum == 0 }

  ghost predicate UnlinkSpec(s: Nodes, t: Nodes, dp: nat, name: string, o: Outcome) {
    && dp < |s|
    && (name == "." || name == ".." || Unbound(s[dp].entries, name) ==> o == Fails && t == s)
    && (name != "." && name != ".." ==>
          forall k: nat :: Binds(s[dp].entries, name, k) ==> UnlinkedAt(s, t, dp, k, s[dp].entries[k].inum, o))
  }

  ghost predicate UnlinkedAt(s: Nodes, t: Nodes, dp: nat, k: nat, x: nat, o: Outcome) {
    x < |s| &&
    if s[x].nlink < 1 then o == Panics && t == s
    else if s[x].kind == Dir && !Emptied(s[x].entries) then o == Fails && t == s
    else o == Done(x) && Removed(s, t, dp, k, x)
  }

  lemma UnlinkMeets(s: Nodes, dp: nat, name: string)
    requires InRange(s, dp)
    ensures UnlinkSpec(s, Unlink(s, dp, name).0, dp, name, Unlink(s, dp, name).1)
  {
    var es := s[dp].entries;
    LookupBinds(es, name);
    if Lookup(es, name, 0).Some? {
      forall k: nat | Binds(es, name, k) ensures k == Lookup(es, name, 0).value {
        BindsOnce(es, name, k, Lookup(es, name, 0).value);
      }
    } else {
      assert forall k: nat :: !Binds(es, name, k);
    }
  }
}
