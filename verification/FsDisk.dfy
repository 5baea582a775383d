/** Inodes on disk and in memory (kernel/fs.c).  bmap stores a new address in the inode in memory;
    it reaches the inode's block only at the next iupdate. */
module FsDisk {
  import opened FsBytes
  import opened FsBlocks
  import opened FsSlots
  import opened FsAccount

  /** d is ino as its block has it: addresses set since the last iupdate are missing. */
  ghost predicate BehindAt(ino: Inode, d: Inode) {
    && |ino.addrs| == |d.addrs| == NDIRECT + 1 && d == ino.(addrs := d.addrs)
    && forall k :: 0 <= k <= NDIRECT ==> d.addrs[k] == 0 || d.addrs[k] == ino.addrs[k]
  }

  /** Both have the same bytes. */
  ghost predicate Mirrors(blocks: Blocks, ino: Inode, d: Inode)
    requires |ino.addrs| == |d.addrs| == NDIRECT + 1 && ino.addrs[NDIRECT] < |blocks| && d.addrs[NDIRECT] < |blocks|
    requires |blocks[ino.addrs[NDIRECT]]| == |blocks[d.addrs[NDIRECT]]| == BSIZE
  {
    ino.size <= MAXFILE * BSIZE ==> forall x :: 0 <= x < ino.size ==> ByteAt(blocks, d, x) == ByteAt(blocks, ino, x)
  }

  ghost predicate InodeBehind(sb: Super, blocks: Blocks, inodes: Inodes, disk: Inodes, j: nat)
    requires Shape(sb, blocks, inodes) && Shape(sb, blocks, disk)
  {
    j < |inodes| ==> BehindAt(inodes[j], disk[j]) && Mirrors(blocks, inodes[j], disk[j])
  }

  /** The inode table on disk lags behind the one in memory by addresses only, of blocks that read
      as the holes they fill. */
  ghost predicate Behind(sb: Super, blocks: Blocks, inodes: Inodes, disk: Inodes) {
    && Shape(sb, blocks, inodes) && Shape(sb, blocks, disk)
    && forall j {:trigger InodeBehind(sb, blocks, inodes, disk, j)} :: InodeBehind(sb, blocks, inodes, disk, j)
  }

  /** The blocks are properly owned by the inodes as they are on disk. */
  ghost predicate DiskOwns(sb: Super, blocks: Blocks, disk: Inodes) {
    exists o :: Owns(sb, blocks, disk, o, {}, -1, 0)
  }

  lemma BehindRefl(sb: Super, blocks: Blocks, inodes: Inodes)
    requires Shape(sb, blocks, inodes)
    ensures Behind(sb, blocks, inodes, inodes)
  {
    forall j: nat ensures InodeBehind(sb, blocks, inodes, inodes, j) { }
  }

  lemma BehindSlot(blocks: Blocks, ino: Inode, d: Inode, k: nat)
    requires BehindAt(ino, d) && k < NSLOTS && ino.addrs[NDIRECT] < |blocks| && d.addrs[NDIRECT] < |blocks|
    requires |blocks[ino.addrs[NDIRECT]]| == |blocks[d.addrs[NDIRECT]]| == BSIZE
    ensures SlotAddr(blocks, d, k) == 0 || SlotAddr(blocks, d, k) == SlotAddr(blocks, ino, k)
  {
  }

  /** A block that only memory has an address of is marked, and no slot on disk holds it. */
  lemma LostAddr(sb: Super, blocks: Blocks, inodes: Inodes, owner: map<nat, Slot>, disk: Inodes, o: map<nat, Slot>,
                 j: nat, k: nat)
    requires Owns(sb, blocks, inodes, owner, {}, -1, 0) && Behind(sb, blocks, inodes, disk)
    requires Owns(sb, blocks, disk, o, {}, -1, 0) && j < |inodes| && k <= NDIRECT && inodes[j].addrs[k] != 0
    ensures disk[j].addrs[k] == inodes[j].addrs[k]
  {
    var a := inodes[j].addrs[k];
    assert SlotAddr(blocks, inodes[j], k) == a && SlotAddr(blocks, disk[j], k) == disk[j].addrs[k];
    HeldByOneSlot(sb, blocks, inodes, owner, j, k, j, k);
    SlotBacked(sb, blocks, inodes, owner, j, k);
    assert Marked(sb, blocks, a) && a in o;
    var slot := o[a];
    assert SlotAddr(blocks, disk[slot.0], slot.1) == a;
    assert InodeBehind(sb, blocks, inodes, disk, slot.0);
    BehindSlot(blocks, inodes[slot.0], disk[slot.0], slot.1);
    HeldByOneSlot(sb, blocks, inodes, owner, j, k, slot.0, slot.1);
  }

  lemma SlotBacked(sb: Super, blocks: Blocks, inodes: Inodes, owner: map<nat, Slot>, j: nat, k: nat)
    requires Owns(sb, blocks, inodes, owner, {}, -1, 0) && j < |inodes| && k < NSLOTS
    requires SlotAddr(blocks, inodes[j], k) != 0
    ensures sb.nmeta <= SlotAddr(blocks, inodes[j], k) < sb.size
  {
    assert Counts(j, k, -1, 0);
    assert owner[SlotAddr(blocks, inodes[j], k)] == (j, k);
  }

  /** On disk a block is marked and held by no slot as soon as one address is missing there. */
  lemma DiskOwnsIff(sb: Super, blocks: Blocks, inodes: Inodes, owner: map<nat, Slot>, disk: Inodes)
    requires Owns(sb, blocks, inodes, owner, {}, -1, 0) && Behind(sb, blocks, inodes, disk)
    ensures DiskOwns(sb, blocks, disk) <==> disk == inodes
  {
    if DiskOwns(sb, blocks, disk) {
      var o :| Owns(sb, blocks, disk, o, {}, -1, 0);
      forall j | 0 <= j < |inodes| ensures disk[j] == inodes[j] {
        assert InodeBehind(sb, blocks, inodes, disk, j);
        forall k | 0 <= k <= NDIRECT ensures disk[j].addrs[k] == inodes[j].addrs[k] {
          if inodes[j].addrs[k] != 0 { LostAddr(sb, blocks, inodes, owner, disk, o, j, k); }
        }
        assert disk[j].addrs == inodes[j].addrs;
      }
    }
  }

  // ----- What keeps the table on disk behind -----

  /** The bytes of one inode that no iupdate wrote, when it lost no block and its file is as it was. */
  lemma MirrorsKept(b0: Blocks, ino0: Inode, b1: Blocks, ino1: Inode, d: Inode, x: nat)
    requires BehindAt(ino0, d) && BehindAt(ino1, d)
    requires ino0.addrs[NDIRECT] < |b0| && |b0[ino0.addrs[NDIRECT]]| == BSIZE
    requires ino1.addrs[NDIRECT] < |b1| && |b1[ino1.addrs[NDIRECT]]| == BSIZE
    requires d.addrs[NDIRECT] < |b0| && d.addrs[NDIRECT] < |b1|
    requires |b0[d.addrs[NDIRECT]]| == |b1[d.addrs[NDIRECT]]| == BSIZE
    requires x < MAXFILE * BSIZE && ByteAt(b0, d, x) == ByteAt(b0, ino0, x) == ByteAt(b1, ino1, x)
    requires var k := DataSlot(x / BSIZE); SlotAddr(b0, ino0, k) != 0 ==> SlotAddr(b1, ino1, k) == SlotAddr(b0, ino0, k)
    ensures ByteAt(b1, d, x) == ByteAt(b1, ino1, x)
  {
    var k := DataSlot(x / BSIZE);
    BehindSlot(b0, ino0, d, k);
    BehindSlot(b1, ino1, d, k);
    if SlotAddr(b1, d, k) == 0 {
      assert SlotAddr(b0, d, k) == 0;
    }
  }

  lemma BehindKept(sb: Super, b0: Blocks, i0: Inodes, o0: map<nat, Slot>, d0: Inodes, blocks: Blocks, inodes: Inodes,
                   o: map<nat, Slot>, j: nat)
    requires Owns(sb, b0, i0, o0, {}, -1, 0) && Behind(sb, b0, i0, d0) && Owns(sb, blocks, inodes, o, {}, -1, 0)
    requires j < |i0| && inodes[j] == i0[j].(addrs := inodes[j].addrs)
    requires forall a {:trigger OwnerKept(o0, o, a)} :: a in o0 && o0[a].0 == j ==> OwnerKept(o0, o, a)
    requires i0[j].size <= MAXFILE * BSIZE ==>
      forall x :: 0 <= x < i0[j].size ==> ByteAt(blocks, inodes[j], x) == ByteAt(b0, i0[j], x)
    ensures BehindAt(inodes[j], d0[j]) && Mirrors(blocks, inodes[j], d0[j])
  {
    assert InodeBehind(sb, b0, i0, d0, j);
    forall k | 0 <= k <= NDIRECT && d0[j].addrs[k] != 0 ensures d0[j].addrs[k] == inodes[j].addrs[k] {
      assert SlotAddr(b0, i0[j], k) == i0[j].addrs[k] && SlotAddr(blocks, inodes[j], k) == inodes[j].addrs[k];
      SlotStays(sb, b0, i0, o0, blocks, inodes, o, j, k);
    }
    forall x | 0 <= x < inodes[j].size <= MAXFILE * BSIZE
      ensures ByteAt(blocks, d0[j], x) == ByteAt(blocks, inodes[j], x)
    {
      var k := DataSlot(x / BSIZE);
      if SlotAddr(b0, i0[j], k) != 0 { SlotStays(sb, b0, i0, o0, blocks, inodes, o, j, k); }
      MirrorsKept(b0, i0[j], blocks, inodes[j], d0[j], x);
    }
  }
}
