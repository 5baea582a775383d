/** The system calls of kernel/sysfile.c on the inode table, step by step, in the order in which
    they change link counts, entries and references. */
module SysFile {
  import opened Links
  import opened LinkSpecs
  import opened Options

  lemma FreeInodeFirst(s: Nodes, from: nat, c: nat)
    requires from <= c <= |s| && (c < |s| ==> s[c].kind == Free)
    requires forall j :: from <= j < c ==> s[j].kind != Free
    ensures FreeInode(s, from) == c
    decreases c - from
  {
    if from < c { FreeInodeFirst(s, from + 1, c); }
  }

  lemma DropUndoesHold(s: Nodes, i: nat)
    requires i < |s| && (s[i].nlink != 0 || s[i].refs > 0)
    ensures Drop(Hold(s, i), i) == s
  {
  }

  /** The inode table, as the system calls update it under the inode locks. */
  class Inodes {
    var nodes: Nodes

    method Dirlookup(dp: nat, name: string) returns (at: Option<nat>)
      requires dp < |nodes|
      ensures at.None? <==> Unbound(nodes[dp].entries, name)
      ensures at.Some? ==> Binds(nodes[dp].entries, name, at.value)
      ensures at == Lookup(nodes[dp].entries, name, 0)
    {
      LookupBinds(nodes[dp].entries, name);
      var es := nodes[dp].entries;
      var k := 0;
      while k < |es|
        invariant 0 <= k <= |es|
        invariant Lookup(es, name, 0) == Lookup(es, name, k)
      {
        if es[k].inum != 0 && es[k].name == name { return Some(k); }
        k := k + 1;
      }
      at := None;
    }

    method Dirlink(dp: nat, name: string, inum: nat) returns (ok: bool)
      requires dp < |nodes|
      modifies this
      ensures ok <==> Unbound(old(nodes[dp].entries), name)
      ensures |nodes| == |old(nodes)|
      ensures ok ==>
        && (exists k :: PlacedAt(old(nodes[dp].entries), nodes[dp].entries, k, Entry(name, inum)))
        && nodes == old(nodes)[dp := old(nodes[dp]).(entries := nodes[dp].entries)]
      ensures ok <==> Lookup(old(nodes[dp].entries), name, 0).None?
      ensures nodes == if ok then AddEntry(old(nodes), dp, name, inum) else old(nodes)
    {
      var at := Dirlookup(dp, name);
      if at.Some? { return false; }
      var es := nodes[dp].entries;
      var k := 0;
      while k < |es| && es[k].inum != 0
        invariant 0 <= k <= |es|
        invariant EmptySlot(es, 0) == EmptySlot(es, k)
      {
        k := k + 1;
      }
      nodes := nodes[dp := nodes[dp].(entries := Put(es, k, Entry(name, inum)))];
      assert PlacedAt(es, nodes[dp].entries, k, Entry(name, inum));
      ok := true;
    }

    method IsDirEmpty(dp: nat) returns (b: bool)
      requires dp < |nodes|
      ensures b <==> forall j :: 2 <= j < |nodes[dp].entries| ==> nodes[dp].entries[j].inum == 0
      ensures b == EmptyFrom(nodes[dp].entries, 2)
    {
      var es := nodes[dp].entries;
      var k := 2;
      while k < |es|
        invariant 2 <= k
        invariant forall j :: 2 <= j < k && j < |es| ==> es[j].inum == 0
      {
        if es[k].inum != 0 { return false; }
        k := k + 1;
      }
      b := true;
    }

    /** The first free inode from 1 up becomes kind, without links, referenced once. */
    method Ialloc(kind: Kind) returns (c: Option<nat>)
      requires |nodes| > 0
      modifies this
      ensures c.None? <==> forall i :: 1 <= i < |old(nodes)| ==> old(nodes)[i].kind != Free
      ensures c.Some? ==> 1 <= c.value < |old(nodes)| && old(nodes)[c.value].kind == Free
      ensures c.Some? ==> forall i :: 1 <= i < c.value ==> old(nodes)[i].kind != Free
      ensures c.None? <==> FreeInode(old(nodes), 1) == |old(nodes)|
      ensures c.Some? ==> c.value == FreeInode(old(nodes), 1) && nodes == old(nodes)[c.value := Node(kind, 0, [], 1)]
      ensures c.None? ==> nodes == old(nodes)
    {
      var i := 1;
      while i < |nodes|
        invariant 1 <= i <= |nodes| && nodes == old(nodes)
        invariant forall j :: 1 <= j < i ==> nodes[j].kind != Free
      {
        if nodes[i].kind == Free {
          FreeInodeFirst(nodes, 1, i);
          nodes := nodes[i := Node(kind, 0, [], 1)];
          return Some(i);
        }
        i := i + 1;
      }
      FreeInodeFirst(nodes, 1, |nodes|);
      c := None;
    }

    method Iput(i: nat)
      requires i < |nodes| && nodes[i].refs > 0
      modifies this
      ensures |nodes| == |old(nodes)| && nodes == old(nodes)[i := nodes[i]]
      ensures nodes[i] == if old(nodes[i]).refs == 1 && old(nodes[i]).nlink == 0 then Node(Free, 0, [], 0)
                          else old(nodes[i]).(refs := old(nodes[i]).refs - 1)
      ensures nodes == Drop(old(nodes), i)
    {
      if nodes[i].refs == 1 && nodes[i].nlink == 0 {
        nodes := nodes[i := nodes[i].(entries := [], kind := Free)];
      }
      nodes := nodes[i := nodes[i].(refs := nodes[i].refs - 1)];
    }

    /** create after nameiparent has found dp. */
    method CreateIn(dp: nat, name: string, kind: Kind) returns (o: Outcome)
      requires InRange(nodes, dp) && 0 < dp && nodes[dp].kind == Dir && kind != Free && FreeOk(nodes)
      modifies this
      ensures CreateSpec(old(nodes), nodes, dp, name, kind, o)
      ensures (nodes, o) == Create(old(nodes), dp, name, kind)
    {
      CreateMeets(nodes, dp, name, kind);
      var at := Dirlookup(dp, name);
      if at.Some? {
        var i := nodes[dp].entries[at.value].inum;
        if nodes[i].kind == Free { return Panics; }
        DropUndoesHold(nodes, i);
        nodes := nodes[i := nodes[i].(refs := nodes[i].refs + 1)];
        if kind == File && (nodes[i].kind == File || nodes[i].kind == Device) { return Done(i); }
        Iput(i);
        return Fails;
      }
      o := CreateNew(dp, name, kind);
    }

    method CreateNew(dp: nat, name: string, kind: Kind) returns (o: Outcome)
      requires |nodes| > 0 && 0 < dp < |nodes| && nodes[dp].kind == Dir && kind != Free
      requires Lookup(nodes[dp].entries, name, 0).None?
      modifies this
      ensures var c := FreeInode(old(nodes), 1);
        if c == |old(nodes)| then o == Panics && nodes == old(nodes)
        else o == Done(c) && nodes == Created(old(nodes), dp, name, kind, c)
    {
      var c := Ialloc(kind);
      if c.None? { return Panics; }
      var i := c.value;
      nodes := nodes[i := nodes[i].(nlink := 1)];
      if kind == Dir {
        nodes := nodes[dp := nodes[dp].(nlink := nodes[dp].nlink + 1)];
        MakeDots(i, dp);
      }
      var ok := Dirlink(dp, name, i);
      o := Done(i);
    }

    method MakeDots(i: nat, dp: nat)
      requires 0 < i < |nodes| && nodes[i].entries == []
      modifies this
      ensures nodes == old(nodes)[i := old(nodes)[i].(entries := Dots(i, dp))]
    {
      var ok := Dirlink(i, ".", i);
      assert nodes[i].entries == [Entry(".", i)];
      assert EmptySlot(nodes[i].entries, 1) == 1;
      ok := Dirlink(i, "..", dp);
      assert nodes[i].entries == Dots(i, dp);
    }

    /** sys_link after namei has found ip: the count goes up first and back down if no entry is made. */
    method LinkIn(ip: nat, parent: Option<nat>, name: string) returns (ok: bool)
      requires ip < |nodes| && (parent.Some? ==> parent.value < |nodes|)
      modifies this
      ensures LinkSpec(old(nodes), nodes, ip, parent, name, ok)
      ensures (nodes, ok) == Link(old(nodes), ip, parent, name)
    {
      LinkMeets(nodes, ip, parent, name);
      if nodes[ip].kind == Dir { return false; }
      nodes := nodes[ip := nodes[ip].(nlink := nodes[ip].nlink + 1)];
      ok := false;
      if parent.Some? { ok := Dirlink(parent.value, name, ip); }
      if !ok {
        nodes := nodes[ip := nodes[ip].(nlink := nodes[ip].nlink - 1)];
        assert nodes == old(nodes);
      }
    }

    /** sys_unlink after nameiparent has found dp. */
    method UnlinkIn(dp: nat, name: string) returns (o: Outcome)
      requires InRange(nodes, dp)
      modifies this
      ensures UnlinkSpec(old(nodes), nodes, dp, name, o)
      ensures (nodes, o) == Unlink(old(nodes), dp, name)
    {
      UnlinkMeets(nodes, dp, name);
      if name == "." || name == ".." { return Fails; }
      var at := Dirlookup(dp, name);
      if at.None? { return Fails; }
      o := UnlinkEntry(dp, at.value);
    }

    method UnlinkEntry(dp: nat, k: nat) returns (o: Outcome)
      requires dp < |nodes| && k < |nodes[dp].entries| && nodes[dp].entries[k].inum < |nodes|
      modifies this
      ensures var s := old(nodes); var x := s[dp].entries[k].inum;
        if s[x].nlink < 1 then o == Panics && nodes == s
        else if s[x].kind == Dir && !EmptyFrom(s[x].entries, 2) then o == Fails && nodes == s
        else o == Done(x) && nodes == Drop(Hold(Unnamed(s, dp, k, x), x), x)
    {
      var x := nodes[dp].entries[k].inum;
      if nodes[x].nlink < 1 { return Panics; }
      nodes := nodes[x := nodes[x].(refs := nodes[x].refs + 1)];
      if nodes[x].kind == Dir {
        var empty := IsDirEmpty(x);
        if !empty {
          DropUndoesHold(old(nodes), x);
          Iput(x);
          return Fails;
        }
      }
      RemoveEntry(dp, k, x);
      o := Done(x);
    }

    method RemoveEntry(dp: nat, k: nat, x: nat)
      requires dp < |nodes| && k < |nodes[dp].entries| && x < |nodes| && nodes[x].refs > 0
      modifies this
      ensures nodes == Drop(Unnamed(old(nodes), dp, k, x), x)
    {
      nodes := nodes[dp := nodes[dp].(entries := nodes[dp].entries[k := Entry("", 0)])];
      if nodes[x].kind == Dir { nodes := nodes[dp := nodes[dp].(nlink := nodes[dp].nlink - 1)]; }
      nodes := nodes[x := nodes[x].(nlink := nodes[x].nlink - 1)];
      Iput(x);
    }
  }
}
