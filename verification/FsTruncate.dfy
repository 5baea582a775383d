/** What itrunc does to the block and inode tables, round by round (kernel/fs.c). */
module FsTruncate {
  import opened FsBytes
  import opened FsBlocks
  import opened FsSlots
  import opened FsDisk
  import opened FsWrite

  /** Exactly the blocks of inode i's slots below dk, and of its entries below xk, are gone. */
  ghost predicate Released(owner0: map<nat, Slot>, owner: map<nat, Slot>, i: nat, dk: nat, xk: nat) {
    && (forall a :: a in owner ==> a in owner0 && owner[a] == owner0[a])
    && (forall a :: a in owner0 ==>
          (a in owner <==> !(owner0[a].0 == i && (owner0[a].1 < dk || NDIRECT < owner0[a].1 < xk))))
  }

  ghost predicate Truncating(sb: Super, b0: Blocks, i0: Inodes, owner0: map<nat, Slot>, blocks: Blocks, inodes: Inodes,
                             owner: map<nat, Slot>,
                             i: nat, dk: nat, xk: nat) {
    && Shape(sb, b0, i0) && Shape(sb, blocks, inodes) && i < |i0| == |inodes|
    && Released(owner0, owner, i, dk, xk)
    && OthersSame(sb, b0, i0, blocks, inodes, i)
    && inodes == i0[i := i0[i].(addrs := inodes[i].addrs)]
    && (forall k :: 0 <= k < dk && k <= NDIRECT ==> inodes[i].addrs[k] == 0)
  }

  /** The whole effect of itrunc. */
  ghost predicate Truncated(sb: Super, b0: Blocks, i0: Inodes, owner0: map<nat, Slot>, blocks: Blocks, inodes: Inodes,
                            owner: map<nat, Slot>, i: nat) {
    && Shape(sb, b0, i0) && Shape(sb, blocks, inodes) && i < |i0| == |inodes|
    && (forall a :: a in owner <==> a in owner0 && owner0[a].0 != i)
    && (forall a :: a in owner ==> owner[a] == owner0[a])
    && OthersSame(sb, b0, i0, blocks, inodes, i)
    && (forall j :: 0 <= j < |inodes| && j != i ==> inodes[j] == i0[j])
    && inodes[i].size == 0 && inodes[i].typ == i0[i].typ && inodes[i].nlink == i0[i].nlink
    && (forall k :: 0 <= k < NSLOTS ==> SlotAddr(blocks, inodes[i], k) == 0)
  }

  lemma DirectRound(sb: Super, b0: Blocks, i0: Inodes, owner0: map<nat, Slot>, blocks: Blocks, inodes: Inodes,
                    owner: map<nat, Slot>, i: nat, k: nat)
    requires Owns(sb, blocks, inodes, owner, {}, -1, 0)
    requires Truncating(sb, b0, i0, owner0, blocks, inodes, owner, i, k, 0) && k < NDIRECT
    ensures inodes[i].addrs[k] == 0 ==> Truncating(sb, b0, i0, owner0, blocks, inodes, owner, i, k + 1, 0)
    ensures var a := inodes[i].addrs[k];
            a != 0 ==>
              && a < sb.size && BBlock(sb, a) < |blocks| && |blocks[BBlock(sb, a)]| == BSIZE && Marked(sb, blocks, a)
              && Owns(sb, Freed(sb, blocks, a), WithAddr(inodes, i, k, 0), owner - {a}, {}, -1, 0)
              && Truncating(sb, b0, i0, owner0, Freed(sb, blocks, a), WithAddr(inodes, i, k, 0), owner - {a},
                            i, k + 1, 0)
  {
    if inodes[i].addrs[k] == 0 {
      TruncatedEmpty(sb, b0, i0, owner0, blocks, inodes, owner, i, k);
    } else {
      DetachDirect(sb, blocks, inodes, owner, i, k);
      TruncatedDirect(sb, b0, i0, owner0, blocks, inodes, owner, i, k);
    }
  }

  lemma EntryRound(sb: Super, b0: Blocks, i0: Inodes, owner0: map<nat, Slot>, blocks: Blocks, inodes: Inodes,
                   owner: map<nat, Slot>, i: nat, e: nat)
    requires Owns(sb, blocks, inodes, owner, {}, i, NDIRECT + 1 + e) && e < NINDIRECT
    requires Truncating(sb, b0, i0, owner0, blocks, inodes, owner, i, NDIRECT, NDIRECT + 1 + e)
    requires inodes[i].addrs[NDIRECT] != 0
    ensures var a := Word(blocks[inodes[i].addrs[NDIRECT]], e);
            a == 0 ==> Owns(sb, blocks, inodes, owner, {}, i, NDIRECT + 1 + e + 1)
                       && Truncating(sb, b0, i0, owner0, blocks, inodes, owner, i, NDIRECT, NDIRECT + 1 + e + 1)
    ensures var a := Word(blocks[inodes[i].addrs[NDIRECT]], e);
            a != 0 ==>
              && 0 <= a < sb.size && BBlock(sb, a) < |blocks| && |blocks[BBlock(sb, a)]| == BSIZE
              && Marked(sb, blocks, a)
              && Owns(sb, Freed(sb, blocks, a), inodes, owner - {a}, {}, i, NDIRECT + 1 + e + 1)
              && Truncating(sb, b0, i0, owner0, Freed(sb, blocks, a), inodes, owner - {a}, i, NDIRECT,
                            NDIRECT + 1 + e + 1)
  {
    var a := Word(blocks[inodes[i].addrs[NDIRECT]], e);
    assert SlotAddr(blocks, inodes[i], NDIRECT + 1 + e) == a;
    if a == 0 {
      SkipEntry(sb, blocks, inodes, owner, i, e);
      TruncatedNoEntry(sb, b0, i0, owner0, blocks, inodes, owner, i, e);
    } else {
      DetachEntry(sb, blocks, inodes, owner, i, e);
      TruncatedEntry(sb, b0, i0, owner0, blocks, inodes, owner, i, e);
    }
  }

  lemma IndirectRound(sb: Super, b0: Blocks, i0: Inodes, owner0: map<nat, Slot>, blocks: Blocks, inodes: Inodes,
                      owner: map<nat, Slot>, i: nat)
    requires Owns(sb, blocks, inodes, owner, {}, i, NSLOTS)
    requires Truncating(sb, b0, i0, owner0, blocks, inodes, owner, i, NDIRECT, NSLOTS)
    requires inodes[i].addrs[NDIRECT] != 0
    ensures var a := inodes[i].addrs[NDIRECT];
            && a < sb.size && BBlock(sb, a) < |blocks| && |blocks[BBlock(sb, a)]| == BSIZE && Marked(sb, blocks, a)
            && Owns(sb, Freed(sb, blocks, a), WithAddr(inodes, i, NDIRECT, 0), owner - {a}, {}, -1, 0)
            && Truncating(sb, b0, i0, owner0, Freed(sb, blocks, a), WithAddr(inodes, i, NDIRECT, 0), owner - {a}, i,
                          NDIRECT + 1, NSLOTS)
  {
    DetachIndirect(sb, blocks, inodes, owner, i);
    TruncatedIndirect(sb, b0, i0, owner0, blocks, inodes, owner, i);
  }

  lemma NoEntriesYet(sb: Super, b0: Blocks, i0: Inodes, owner0: map<nat, Slot>, blocks: Blocks, inodes: Inodes,
                     owner: map<nat, Slot>, i: nat)
    requires Truncating(sb, b0, i0, owner0, blocks, inodes, owner, i, NDIRECT, 0)
    ensures Truncating(sb, b0, i0, owner0, blocks, inodes, owner, i, NDIRECT, NDIRECT + 1)
  {
  }

  lemma StartTruncating(sb: Super, blocks: Blocks, inodes: Inodes, owner: map<nat, Slot>, i: nat)
    requires Shape(sb, blocks, inodes) && i < |inodes|
    ensures Truncating(sb, blocks, inodes, owner, blocks, inodes, owner, i, 0, 0)
  {
    assert inodes[i].(addrs := inodes[i].addrs) == inodes[i];
  }

  lemma OthersTrans(sb: Super, b0: Blocks, i0: Inodes, b1: Blocks, i1: Inodes, b2: Blocks, i2: Inodes, i: nat)
    requires Shape(sb, b0, i0) && Shape(sb, b1, i1) && Shape(sb, b2, i2)
    requires OthersSame(sb, b0, i0, b1, i1, i) && OthersSame(sb, b1, i1, b2, i2, i)
    ensures OthersSame(sb, b0, i0, b2, i2, i)
  {
  }

  lemma TruncatedDirect(sb: Super, b0: Blocks, i0: Inodes, owner0: map<nat, Slot>, blocks: Blocks, inodes: Inodes,
                        owner: map<nat, Slot>, i: nat, k: nat)
    requires Truncating(sb, b0, i0, owner0, blocks, inodes, owner, i, k, 0) && k < NDIRECT && inodes[i].addrs[k] != 0
    requires var a := inodes[i].addrs[k];
             && a in owner && owner[a] == (i, k) && BBlock(sb, a) < |blocks| && |blocks[BBlock(sb, a)]| == BSIZE
             && Shape(sb, Freed(sb, blocks, a), WithAddr(inodes, i, k, 0))
             && OthersSame(sb, blocks, inodes, Freed(sb, blocks, a), WithAddr(inodes, i, k, 0), i)
             && (forall b :: b in owner && b != a ==> owner[b] != (i, k))
    ensures var a := inodes[i].addrs[k];
            Truncating(sb, b0, i0, owner0, Freed(sb, blocks, a), WithAddr(inodes, i, k, 0), owner - {a}, i, k + 1, 0)
  {
    var a := inodes[i].addrs[k];
    OthersTrans(sb, b0, i0, blocks, inodes, Freed(sb, blocks, a), WithAddr(inodes, i, k, 0), i);
  }

  lemma TruncatedEmpty(sb: Super, b0: Blocks, i0: Inodes, owner0: map<nat, Slot>, blocks: Blocks, inodes: Inodes,
                       owner: map<nat, Slot>, i: nat, k: nat)
    requires Owns(sb, blocks, inodes, owner, {}, -1, 0)
    requires Truncating(sb, b0, i0, owner0, blocks, inodes, owner, i, k, 0) && k < NDIRECT && inodes[i].addrs[k] == 0
    ensures Truncating(sb, b0, i0, owner0, blocks, inodes, owner, i, k + 1, 0)
  {
    assert forall b :: b in owner ==> owner[b] != (i, k);
  }

  lemma TruncatedEntry(sb: Super, b0: Blocks, i0: Inodes, owner0: map<nat, Slot>, blocks: Blocks, inodes: Inodes,
                       owner: map<nat, Slot>, i: nat, e: nat)
    requires Truncating(sb, b0, i0, owner0, blocks, inodes, owner, i, NDIRECT, NDIRECT + 1 + e) && e < NINDIRECT
    requires var a := SlotAddr(blocks, inodes[i], NDIRECT + 1 + e);
             && (forall b :: b in owner && owner[b] == (i, NDIRECT + 1 + e) ==> b == a)
             && a in owner && owner[a] == (i, NDIRECT + 1 + e) && BBlock(sb, a) < |blocks|
             && |blocks[BBlock(sb, a)]| == BSIZE
             && Shape(sb, Freed(sb, blocks, a), inodes) && SameBytesExcept(sb, blocks, Freed(sb, blocks, a), inodes, i)
    ensures var a := SlotAddr(blocks, inodes[i], NDIRECT + 1 + e);
            Truncating(sb, b0, i0, owner0, Freed(sb, blocks, a), inodes, owner - {a}, i, NDIRECT, NDIRECT + 1 + e + 1)
  {
    var a := SlotAddr(blocks, inodes[i], NDIRECT + 1 + e);
    OthersTrans(sb, b0, i0, blocks, inodes, Freed(sb, blocks, a), inodes, i);
  }

  lemma TruncatedNoEntry(sb: Super, b0: Blocks, i0: Inodes, owner0: map<nat, Slot>, blocks: Blocks, inodes: Inodes,
                         owner: map<nat, Slot>, i: nat, e: nat)
    requires Truncating(sb, b0, i0, owner0, blocks, inodes, owner, i, NDIRECT, NDIRECT + 1 + e) && e < NINDIRECT
    requires Owns(sb, blocks, inodes, owner, {}, i, NDIRECT + 1 + e + 1)
    ensures Truncating(sb, b0, i0, owner0, blocks, inodes, owner, i, NDIRECT, NDIRECT + 1 + e + 1)
  {
    assert forall b :: b in owner ==> Counts(owner[b].0, owner[b].1, i, NDIRECT + 1 + e + 1);
    assert !Counts(i, NDIRECT + 1 + e, i, NDIRECT + 1 + e + 1);
  }

  lemma TruncatedIndirect(sb: Super, b0: Blocks, i0: Inodes, owner0: map<nat, Slot>, blocks: Blocks, inodes: Inodes,
                          owner: map<nat, Slot>, i: nat)
    requires Truncating(sb, b0, i0, owner0, blocks, inodes, owner, i, NDIRECT, NSLOTS) && inodes[i].addrs[NDIRECT] != 0
    requires Owns(sb, blocks, inodes, owner, {}, i, NSLOTS)
    requires var a := inodes[i].addrs[NDIRECT];
             && a in owner && owner[a] == (i, NDIRECT) && BBlock(sb, a) < |blocks| && |blocks[BBlock(sb, a)]| == BSIZE
             && Shape(sb, Freed(sb, blocks, a), WithAddr(inodes, i, NDIRECT, 0))
             && OthersSame(sb, blocks, inodes, Freed(sb, blocks, a), WithAddr(inodes, i, NDIRECT, 0), i)
    ensures var a := inodes[i].addrs[NDIRECT];
            Truncating(sb, b0, i0, owner0, Freed(sb, blocks, a), WithAddr(inodes, i, NDIRECT, 0), owner - {a}, i,
                       NDIRECT + 1, NSLOTS)
  {
    var a := inodes[i].addrs[NDIRECT];
    assert forall b :: b in owner && owner[b] == (i, NDIRECT) ==> b == a;
    OthersTrans(sb, b0, i0, blocks, inodes, Freed(sb, blocks, a), WithAddr(inodes, i, NDIRECT, 0), i);
  }

  lemma TruncatedNoIndirect(sb: Super, b0: Blocks, i0: Inodes, owner0: map<nat, Slot>, blocks: Blocks, inodes: Inodes,
                            owner: map<nat, Slot>, i: nat)
    requires Truncating(sb, b0, i0, owner0, blocks, inodes, owner, i, NDIRECT, 0) && inodes[i].addrs[NDIRECT] == 0
    requires Owns(sb, blocks, inodes, owner, {}, -1, 0)
    ensures Truncating(sb, b0, i0, owner0, blocks, inodes, owner, i, NDIRECT + 1, NSLOTS)
  {
    assert forall b :: b in owner && owner[b].0 == i ==> owner[b].1 < NDIRECT;
  }

  lemma TruncatedDone(sb: Super, b0: Blocks, i0: Inodes, owner0: map<nat, Slot>, blocks: Blocks, inodes: Inodes,
                      owner: map<nat, Slot>, i: nat)
    requires Truncating(sb, b0, i0, owner0, blocks, inodes, owner, i, NDIRECT + 1, NSLOTS)
    requires forall a :: a in owner0 ==> owner0[a].1 < NSLOTS
    ensures Truncated(sb, b0, i0, owner0, blocks, inodes[i := inodes[i].(size := 0)], owner, i)
  {
    var inodes' := inodes[i := inodes[i].(size := 0)];
    assert forall k :: 0 <= k < NSLOTS ==> SlotAddr(blocks, inodes'[i], k) == 0;
    assert forall a :: a in owner0 ==> (a in owner <==> owner0[a].0 != i);
  }

  /** The table on disk stays behind by addresses only. */
  lemma TruncatedTracks(sb: Super, s: Fs, t: Fs, i: nat)
    requires Sound(sb, s) && Tracks(sb, s) && Sound(sb, t)
    requires Truncated(sb, s.blocks, s.inodes, s.owner, t.blocks, t.inodes, t.owner, i)
    requires t.disk == s.disk[i := t.inodes[i]]
    ensures Tracks(sb, t)
  {
    forall j: nat ensures InodeBehind(sb, t.blocks, t.inodes, t.disk, j) {
      if j < |t.inodes| && j != i {
        BehindKept(sb, s.blocks, s.inodes, s.owner, s.disk, t.blocks, t.inodes, t.owner, j);
      }
    }
  }
}
