/** mkfs/mkfs.c: building the initial image.  Blocks are handed out by a counter, and the bitmap
    is written once at the end. */
module Mkfs {
  import opened FsBytes
  import opened FsBlocks
  import opened FsSlots
  import opened FsWrite
  import opened FsAccount
  import opened Options
  import opened Params

  const LOGICAL_DISK_SIZE := 2048
  const NINODES := 200
  const NBITMAP := LOGICAL_DISK_SIZE / (BSIZE * 8) + 1
  const NINODEBLOCKS := NINODES / IPB + 1
  const NMETA := 2 + LOGSIZE + NINODEBLOCKS + NBITMAP

  /** The super block mkfs writes. */
  const Image := Super(LOGICAL_DISK_SIZE, NINODES, 2 + LOGSIZE, 2 + LOGSIZE + NINODEBLOCKS, NMETA)

  /** The counter has handed out exactly the blocks that some slot holds; the rest are zero. */
  ghost predicate Handed(sb: Super, blocks: Blocks, inodes: Inodes, owner: map<nat, Slot>, freeblock: nat) {
    && Shape(sb, blocks, inodes) && sb.nmeta <= freeblock <= sb.size
    && Claimed(sb, blocks, inodes, owner, -1, 0) && Backed(sb, blocks, inodes, owner, -1, 0)
    && (forall a :: a in owner <==> sb.nmeta <= a < freeblock)
    && (forall b :: freeblock <= b < sb.size ==> blocks[b] == ZeroBlock())
  }

  lemma HandOutDirect(sb: Super, blocks: Blocks, inodes: Inodes, owner: map<nat, Slot>, freeblock: nat, i: nat, k: nat)
    requires Handed(sb, blocks, inodes, owner, freeblock) && freeblock < sb.size && i < |inodes| && k <= NDIRECT
    requires inodes[i].addrs[k] == 0
    ensures Handed(sb, blocks, WithAddr(inodes, i, k, freeblock), owner[freeblock := (i, k)], freeblock + 1)
    ensures Extended(sb, blocks, inodes, blocks, WithAddr(inodes, i, k, freeblock), i)
  {
    var inodes' := WithAddr(inodes, i, k, freeblock);
    forall m | 0 <= m < NSLOTS
      ensures SlotAddr(blocks, inodes'[i], m) == if m == k then freeblock else SlotAddr(blocks, inodes[i], m)
    {
      AttachedSlot(blocks, inodes[i], k, freeblock, m);
    }
    assert Shape(sb, blocks, inodes');
    AttachOwners(sb, blocks, inodes, blocks, inodes', owner, i, k, freeblock);
    AttachBytes(sb, blocks, inodes, blocks, inodes', i, k, freeblock);
  }

  lemma HandOutEntry(sb: Super, blocks: Blocks, inodes: Inodes, owner: map<nat, Slot>, freeblock: nat, i: nat, e: nat)
    requires Handed(sb, blocks, inodes, owner, freeblock) && freeblock < sb.size && i < |inodes| && e < NINDIRECT
    requires inodes[i].addrs[NDIRECT] != 0 && SlotAddr(blocks, inodes[i], NDIRECT + 1 + e) == 0
    ensures Handed(sb, WithEntry(blocks, inodes[i], e, freeblock), inodes, owner[freeblock := (i, NDIRECT + 1 + e)],
                   freeblock + 1)
    ensures SlotAddr(WithEntry(blocks, inodes[i], e, freeblock), inodes[i], NDIRECT + 1 + e) == freeblock
    ensures Extended(sb, blocks, inodes, WithEntry(blocks, inodes[i], e, freeblock), inodes, i)
  {
    var ind, k := inodes[i].addrs[NDIRECT], NDIRECT + 1 + e;
    var blocks' := WithEntry(blocks, inodes[i], e, freeblock);
    WordSet(blocks[ind], e, freeblock, 0);
    IndirectOwned(sb, blocks, inodes, owner, i);
    assert Shape(sb, blocks', inodes);
    forall j, m | 0 <= j < |inodes| && 0 <= m < NSLOTS
      ensures SlotAddr(blocks', inodes[j], m) == if j == i && m == k then freeblock else SlotAddr(blocks, inodes[j], m)
    {
      EntrySlot(sb, blocks, inodes, owner, i, e, freeblock, j, m);
    }
    AttachOwners(sb, blocks, inodes, blocks', inodes, owner, i, k, freeblock);
    forall j, bn | 0 <= j < |inodes| && 0 <= bn < MAXFILE && 0 < SlotAddr(blocks, inodes[j], DataSlot(bn)) < |blocks|
      ensures blocks'[SlotAddr(blocks, inodes[j], DataSlot(bn))] == blocks[SlotAddr(blocks, inodes[j], DataSlot(bn))]
    {
      DataIsNotIndirect(sb, blocks, inodes, owner, i, j, bn);
    }
    AttachBytes(sb, blocks, inodes, blocks', inodes, i, k, freeblock);
    assert inodes[i].(addrs := inodes[i].addrs) == inodes[i];
  }

  /** Writing data of inode i at off, in the block mapped there. */
  lemma HandedChunk(sb: Super, b0: Blocks, i0: Inodes, blocks: Blocks, inodes: Inodes, owner: map<nat, Slot>,
                    freeblock: nat,
                    i: nat, off: nat, bytes: seq<int>)
    requires Extended(sb, b0, i0, blocks, inodes, i) && Handed(sb, blocks, inodes, owner, freeblock)
    requires 0 < |bytes| && off % BSIZE + |bytes| <= BSIZE && off + |bytes| <= MAXFILE * BSIZE
    requires forall k :: 0 <= k < |bytes| ==> 0 <= bytes[k] < 256
    requires SlotAddr(blocks, inodes[i], DataSlot(off / BSIZE)) != 0
    ensures var a := SlotAddr(blocks, inodes[i], DataSlot(off / BSIZE));
            && sb.nmeta <= a < freeblock && |blocks[a]| == BSIZE
            && var b2 := blocks[a := Splice(blocks[a], off % BSIZE, bytes)];
            && Handed(sb, b2, inodes, owner, freeblock)
            && Wrote(sb, b0, i0, b2, inodes, i, off, off + |bytes|, bytes)
            && Grows(b0, i0[i], b2, inodes[i])
            && SlotAddr(b2, inodes[i], DataSlot(off / BSIZE)) == a
  {
    var bn := off / BSIZE;
    var a := SlotAddr(blocks, inodes[i], DataSlot(bn));
    assert Counts(i, DataSlot(bn), -1, 0) && a in owner && owner[a] == (i, DataSlot(bn));
    var v := Splice(blocks[a], off % BSIZE, bytes);
    SpliceIsBlock(blocks[a], off % BSIZE, bytes);
    OwnedNotIndirect(sb, blocks, inodes, owner, -1, 0, a);
    WriteKeepsOwners(sb, blocks, inodes, owner, -1, 0, a, v);
    WriteDataBytes(sb, blocks, inodes, owner, i, bn, v);
    WroteNothing(sb, b0, i0, blocks, inodes, i, off, bytes);
    assert bytes[off - off..off - off + |bytes|] == bytes;
    WriteRound(sb, b0, i0, blocks, blocks[a := v], inodes, i, off, off, |bytes|, bytes);
    WriteKeepsSlots(blocks, inodes[i], a, v);
    GrowsSame(b0, i0[i], blocks, blocks[a := v], inodes[i]);
  }

  /** Bytes went to offset off of inode i, whose block there is mapped; nothing else changed. */
  ghost predicate Appended(sb: Super, b0: Blocks, i0: Inodes, blocks: Blocks, inodes: Inodes, i: nat, off: nat,
                           bytes: seq<int>) {
    && Shape(sb, b0, i0) && Shape(sb, blocks, inodes) && i < |i0| == |inodes| && off < MAXFILE * BSIZE
    && inodes == i0[i := i0[i].(addrs := inodes[i].addrs)]
    && Wrote(sb, b0, i0, blocks, inodes, i, off, off + |bytes|, bytes)
    && Grows(b0, i0[i], blocks, inodes[i]) && SlotAddr(blocks, inodes[i], DataSlot(off / BSIZE)) != 0
  }

  /** The image being built, and, for the proof, who owns which block. */
  datatype Img = Img(blocks: Blocks, inodes: Inodes, owner: map<nat, Slot>, freeblock: nat)

  ghost predicate Handing(sb: Super, s: Img) { Handed(sb, s.blocks, s.inodes, s.owner, s.freeblock) }

  ghost predicate OwnerBelow(s: Img, a: nat) {
    a in s.owner ==>
      s.owner[a].0 < |s.inodes| && (s.owner[a].1 == NDIRECT || FileOffset(s.owner[a].1) < s.inodes[s.owner[a].0].size)
  }

  ghost predicate ZeroAt(sb: Super, s: Img, j: nat, x: nat)
    requires Shape(sb, s.blocks, s.inodes)
  {
    j < |s.inodes| && s.inodes[j].size <= x < MAXFILE * BSIZE ==> ByteAt(s.blocks, s.inodes[j], x) == 0
  }

  /** Past its end a file has no blocks and no bytes other than zeros. */
  ghost predicate Tight(sb: Super, s: Img)
    requires Shape(sb, s.blocks, s.inodes)
  {
    && (forall a {:trigger OwnerBelow(s, a)} :: OwnerBelow(s, a))
    && (forall j, x {:trigger ZeroAt(sb, s, j, x)} :: ZeroAt(sb, s, j, x))
  }

  /** Mapping a block took s to t. */
  ghost predicate Gave(sb: Super, s: Img, t: Img, i: nat, limit: nat) {
    && Handing(sb, t) && Extended(sb, s.blocks, s.inodes, t.blocks, t.inodes, i)
    && OnlyGains(s.owner, t.owner, i, limit) && s.freeblock <= t.freeblock <= s.freeblock + 2
  }

  /** iappend took s to t by copying the first tot bytes of src to offset off. */
  ghost predicate Appending(sb: Super, s: Img, t: Img, i: nat, off: nat, tot: nat, src: seq<int>) {
    && Handing(sb, t) && Writing(sb, s.blocks, s.inodes, t.blocks, t.inodes, i, off, tot, src)
    && OnlyGains(s.owner, t.owner, i, off + tot) && t.freeblock <= s.freeblock + 2 * Rounds(off, tot)
  }

  ghost predicate ChunkAppendedTo(sb: Super, s: Img, t: Img, i: nat, off: nat, bytes: seq<int>) {
    && Handing(sb, t) && Appended(sb, s.blocks, s.inodes, t.blocks, t.inodes, i, off, bytes)
    && OnlyGains(s.owner, t.owner, i, off / BSIZE * BSIZE + 1) && t.freeblock <= s.freeblock + 2
  }

  lemma GaveRefl(sb: Super, s: Img, i: nat, limit: nat)
    requires Handing(sb, s) && i < |s.inodes|
    ensures Gave(sb, s, s, i, limit)
  {
    ExtendedRefl(sb, s.blocks, s.inodes, i);
  }

  /** The indirect block and then an entry of it. */
  lemma GaveBoth(sb: Super, s: Img, t: Img, u: Img, i: nat, limit: nat)
    requires Gave(sb, s, t, i, 1) && Gave(sb, t, u, i, limit) && limit >= 1 && u.freeblock <= s.freeblock + 2
    ensures Gave(sb, s, u, i, limit)
  {
    ExtendedTrans(sb, s.blocks, s.inodes, t.blocks, t.inodes, u.blocks, u.inodes, i);
    GainsTrans(s.owner, t.owner, u.owner, i, 1, limit, limit);
  }

  /** Mapping took s to t and gave the block at a, which iappend then fills. */
  lemma FilledTo(sb: Super, s: Img, t: Img, i: nat, off: nat, bytes: seq<int>, a: nat)
    requires Gave(sb, s, t, i, off / BSIZE * BSIZE + 1)
    requires 0 < |bytes| && off % BSIZE + |bytes| <= BSIZE && off + |bytes| <= MAXFILE * BSIZE
    requires forall k :: 0 <= k < |bytes| ==> 0 <= bytes[k] < 256
    requires SlotAddr(t.blocks, t.inodes[i], DataSlot(off / BSIZE)) == a != 0
    ensures a < |t.blocks| && |t.blocks[a]| == BSIZE
    ensures var u := t.(blocks := t.blocks[a := Splice(t.blocks[a], off % BSIZE, bytes)]);
            ChunkAppendedTo(sb, s, u, i, off, bytes)
  {
    HandedChunk(sb, s.blocks, s.inodes, t.blocks, t.inodes, t.owner, t.freeblock, i, off, bytes);
  }

  lemma AppendingStart(sb: Super, s: Img, i: nat, off: nat, src: seq<int>)
    requires Handing(sb, s) && i < |s.inodes| && off + |src| <= MAXFILE * BSIZE
    ensures Appending(sb, s, s, i, off, 0, src)
  {
    StartWriting(sb, s.blocks, s.inodes, i, off, src);
  }

  lemma AppendingNext(sb: Super, s: Img, t: Img, u: Img, i: nat, off: nat, tot: nat, n1: nat, src: seq<int>)
    requires Appending(sb, s, t, i, off, tot, src) && 0 < n1 && tot + n1 <= |src| && (off + tot) % BSIZE + n1 <= BSIZE
    requires (tot == 0 || (off + tot) % BSIZE == 0) && ChunkAppendedTo(sb, t, u, i, off + tot, src[tot..tot + n1])
    ensures Appending(sb, s, u, i, off, tot + n1, src)
  {
    WritingRound(sb, s.blocks, s.inodes, t.blocks, t.inodes, u.blocks, u.inodes, i, off, tot, n1, src);
    GainsTrans(s.owner, t.owner, u.owner, i, off + tot, (off + tot) / BSIZE * BSIZE + 1, off + tot + n1);
    RoundsStep(off, tot, n1);
  }

  /** The size set after the loop makes the image tight again. */
  lemma AppendedTight(sb: Super, s: Img, t: Img, i: nat, src: seq<int>)
    requires Shape(sb, s.blocks, s.inodes) && i < |s.inodes| && Tight(sb, s)
    requires Appending(sb, s, t, i, s.inodes[i].size, |src|, src)
    ensures var u := Ended(t, i, s.inodes[i].size + |src|); Shape(sb, u.blocks, u.inodes) && Tight(sb, u)
  {
    var off := s.inodes[i].size;
    var u := Ended(t, i, off + |src|);
    forall a: nat ensures OwnerBelow(u, a) {
      assert OwnerBelow(s, a) && OwnerKept(s.owner, t.owner, a) && OwnerNew(s.owner, t.owner, i, off + |src|, a);
    }
    forall j: nat, x: nat ensures ZeroAt(sb, u, j, x) {
      assert ZeroAt(sb, s, j, x);
      if j < |u.inodes| && u.inodes[j].size <= x < MAXFILE * BSIZE {
        assert ByteAt(u.blocks, u.inodes[j], x) == ByteAt(t.blocks, t.inodes[j], x);
      }
    }
  }

  class ImageBuilder {
    const sb: Super
    var blocks: Blocks
    var inodes: Inodes
    var freeblock: nat
    ghost var owner: map<nat, Slot>

    ghost function Now(): Img
      reads this
    {
      Img(blocks, inodes, owner, freeblock)
    }

    ghost predicate Valid()
      reads this
    {
      Handing(sb, Now()) && Tight(sb, Now())
    }

    /** Every block written as zeros, nothing handed out, every inode empty. */
    constructor ()
      ensures Valid() && sb == Image && freeblock == NMETA && owner == map[] && AllMapped(sb, blocks, inodes)
      ensures |inodes| == NINODES && forall j :: 0 <= j < NINODES ==> inodes[j].size == 0
    {
      sb := Image;
      blocks := seq(Image.size, _ => ZeroBlock());
      inodes := seq(NINODES, _ => Inode(0, 0, 0, seq(NDIRECT + 1, _ => 0)));
      freeblock := NMETA;
      owner := map[];
      new;
      ZeroWord(0);
      assert Shape(sb, blocks, inodes);
      ghost var s := Now();
      forall j: nat, x: nat ensures ZeroAt(sb, s, j, x) { EmptyByte(s, j, x); }
    }

    /** `if (addr == 0) addr = freeblock++` for one of an inode's thirteen addresses.  False: the
        counter ran off the disk, which mkfs does not notice. */
    method MapAddr(i: nat, k: nat) returns (ok: bool)
      requires Handing(sb, Now()) && i < |inodes| && k <= NDIRECT
      modifies `inodes, `freeblock, `owner
      ensures !ok ==> freeblock == sb.size && Now() == old(Now())
      ensures ok ==> Gave(sb, old(Now()), Now(), i, FileOffset(k) + 1) && inodes[i].addrs[k] != 0
      ensures ok ==> freeblock <= old(freeblock) + 1
    {
      GaveRefl(sb, Now(), i, FileOffset(k) + 1);
      if inodes[i].addrs[k] == 0 {
        if freeblock >= sb.size { return false; }
        HandOutDirect(sb, blocks, inodes, owner, freeblock, i, k);
        owner := owner[freeblock := (i, k)];
        inodes := WithAddr(inodes, i, k, freeblock);
        freeblock := freeblock + 1;
      }
      return true;
    }

    /** The block of file block fbn in iappend's loop. */
    method MapBlock(i: nat, fbn: nat) returns (r: Option<nat>)
      requires Handing(sb, Now()) && i < |inodes| && fbn < MAXFILE
      modifies `blocks, `inodes, `freeblock, `owner
      ensures r.None? ==> Handing(sb, Now()) && sb.size == freeblock <= old(freeblock) + 2
      ensures r.Some? ==> Gave(sb, old(Now()), Now(), i, fbn * BSIZE + 1)
      ensures r.Some? ==> SlotAddr(blocks, inodes[i], DataSlot(fbn)) == r.value != 0
    {
      if fbn < NDIRECT {
        var ok := MapAddr(i, fbn);
        return if ok then Some(inodes[i].addrs[fbn]) else None;
      }
      r := MapIndirect(i, fbn - NDIRECT);
    }

    method MapIndirect(i: nat, e: nat) returns (r: Option<nat>)
      requires Handing(sb, Now()) && i < |inodes| && e < NINDIRECT
      modifies `blocks, `inodes, `freeblock, `owner
      ensures r.None? ==> Handing(sb, Now()) && sb.size == freeblock <= old(freeblock) + 2
      ensures r.Some? ==> Gave(sb, old(Now()), Now(), i, (NDIRECT + e) * BSIZE + 1)
      ensures r.Some? ==> SlotAddr(blocks, inodes[i], NDIRECT + 1 + e) == r.value != 0
    {
      ghost var s := Now();
      var ok := MapAddr(i, NDIRECT);
      if !ok { return None; }
      ghost var mid := Now();
      assert i < |inodes| && inodes[i].addrs[NDIRECT] != 0;
      r := MapEntry(i, e);
      if r.Some? {
        GaveBoth(sb, s, mid, Now(), i, (NDIRECT + e) * BSIZE + 1);
      } else {
        assert Now() == mid;
      }
    }

    method MapEntry(i: nat, e: nat) returns (r: Option<nat>)
      requires Handing(sb, Now()) && i < |inodes| && e < NINDIRECT && inodes[i].addrs[NDIRECT] != 0
      modifies `blocks, `freeblock, `owner
      ensures r.None? ==> freeblock == sb.size && Now() == old(Now())
      ensures r.Some? ==> Gave(sb, old(Now()), Now(), i, (NDIRECT + e) * BSIZE + 1) && freeblock <= old(freeblock) + 1
      ensures r.Some? ==> SlotAddr(blocks, inodes[i], NDIRECT + 1 + e) == r.value != 0
    {
      GaveRefl(sb, Now(), i, (NDIRECT + e) * BSIZE + 1);
      WordRange(blocks[inodes[i].addrs[NDIRECT]], e);
      var x := Word(blocks[inodes[i].addrs[NDIRECT]], e);
      if x == 0 {
        if freeblock >= sb.size { return None; }
        HandOutEntry(sb, blocks, inodes, owner, freeblock, i, e);
        owner := owner[freeblock := (i, NDIRECT + 1 + e)];
        blocks := WithEntry(blocks, inodes[i], e, freeblock);
        x := freeblock;
        freeblock := freeblock + 1;
      }
      return Some(x);
    }

    /** One round of iappend: map the block at offset off and copy bytes into it. */
    method AppendChunk(i: nat, off: nat, bytes: seq<int>) returns (ok: bool)
      requires Handing(sb, Now()) && i < |inodes| && 0 < |bytes| && off % BSIZE + |bytes| <= BSIZE
      requires off + |bytes| <= MAXFILE * BSIZE
      requires forall k :: 0 <= k < |bytes| ==> 0 <= bytes[k] < 256
      modifies `blocks, `inodes, `freeblock, `owner
      ensures !ok ==> Handing(sb, Now()) && sb.size == freeblock <= old(freeblock) + 2
      ensures ok ==> ChunkAppendedTo(sb, old(Now()), Now(), i, off, bytes)
    {
      BlockOf(off, off + |bytes|);
      var x := MapBlock(i, off / BSIZE);
      if x.None? { return false; }
      FilledTo(sb, old(Now()), Now(), i, off, bytes, x.value);
      blocks := blocks[x.value := Splice(blocks[x.value], off % BSIZE, bytes)];
      return true;
    }

    /** iappend's loop, with the running account of what was written. */
    method AppendAll(i: nat, off: nat, src: seq<int>) returns (ok: bool)
      requires Handing(sb, Now()) && i < |inodes| && off + |src| <= MAXFILE * BSIZE
      requires forall k :: 0 <= k < |src| ==> 0 <= src[k] < 256
      modifies `blocks, `inodes, `freeblock, `owner
      ensures !ok ==> Handing(sb, Now()) && sb.size == freeblock <= old(freeblock) + 2 * Rounds(off, |src|)
      ensures ok ==> Appending(sb, old(Now()), Now(), i, off, |src|, src)
    {
      var tot := 0;
      ghost var s := Now();
      AppendingStart(sb, s, i, off, src);
      while tot < |src|
        invariant tot <= |src| && Appending(sb, s, Now(), i, off, tot, src)
        invariant tot == 0 || tot == |src| || (off + tot) % BSIZE == 0
      {
        var n1 := ChunkLen(off + tot, |src| - tot);
        ok := AppendRound(i, off, tot, n1, src, s);
        if !ok {
          RoundsGrow(off, tot + n1, |src|);
          return;
        }
        tot := tot + n1;
      }
      return true;
    }

    method AppendRound(i: nat, off: nat, tot: nat, n1: nat, src: seq<int>, ghost s: Img) returns (ok: bool)
      requires Appending(sb, s, Now(), i, off, tot, src) && 0 < n1 && tot + n1 <= |src|
      requires (off + tot) % BSIZE + n1 <= BSIZE
      requires (tot == 0 || (off + tot) % BSIZE == 0) && forall k :: 0 <= k < |src| ==> 0 <= src[k] < 256
      modifies `blocks, `inodes, `freeblock, `owner
      ensures !ok ==> Handing(sb, Now()) && sb.size == freeblock <= s.freeblock + 2 * Rounds(off, tot + n1)
      ensures ok ==> Appending(sb, s, Now(), i, off, tot + n1, src)
    {
      ghost var t := Now();
      ok := AppendChunk(i, off + tot, src[tot..tot + n1]);
      RoundsStep(off, tot, n1);
      if ok { AppendingNext(sb, s, t, Now(), i, off, tot, n1, src); }
    }

    /** iappend: src goes at the end of inode i's file, nothing else changes in any file, and the
        account of blocks handed out stays right.  It runs off the disk only when fewer than two
        blocks for each block appended to are left. */
    method Iappend(i: nat, src: seq<int>) returns (ok: bool)
      requires Valid() && i < |inodes| && inodes[i].size + |src| <= MAXFILE * BSIZE
      requires forall k :: 0 <= k < |src| ==> 0 <= src[k] < 256
      modifies `blocks, `inodes, `freeblock, `owner
      ensures !ok ==> Handing(sb, Now())
      ensures !ok ==> sb.size == freeblock <= old(freeblock) + 2 * Rounds(old(inodes[i].size), |src|)
      ensures ok ==> Extends(sb, old(Now()), Now(), i, src)
    {
      var off := inodes[i].size;
      ghost var s := Now();
      ok := AppendAll(i, off, src);
      if ok {
        ghost var t := Now();
        AppendedAll(sb, s, t, i, src);
        inodes := inodes[i := inodes[i].(size := off + |src|)];
        assert Now() == Ended(t, i, off + |src|);
      }
    }

    /** main's last step before balloc: the root directory's size goes up to the next block
        boundary past its entries.  The new bytes are zeros, that is, empty entries.  If the
        directory had no hole, it has none now exactly when its entries did not already end on a
        boundary. */
    method RoundUp(i: nat)
      requires Valid() && i < |inodes| && inodes[i].size < MAXFILE * BSIZE
      modifies `inodes
      ensures Valid() && inodes == old(inodes)[i := old(inodes)[i].(size := (old(inodes[i].size) / BSIZE + 1) * BSIZE)]
      ensures Contents(blocks, inodes[i]) ==
        Contents(blocks, old(inodes)[i]) + Zeros(inodes[i].size - old(inodes[i].size))
      ensures old(MappedBelow(blocks, inodes[i])) ==>
        (MappedBelow(blocks, inodes[i]) <==> old(inodes[i].size) % BSIZE != 0)
    {
      ghost var s := Now();
      var off := inodes[i].size;
      off := (off / BSIZE + 1) * BSIZE;
      RoundedUp(sb, s, i, off);
      inodes := inodes[i := inodes[i].(size := off)];
    }

    /** balloc: write the bitmap.  The image then satisfies the ownership invariant of
        kernel/fs.c: a block is marked iff it is metadata or held by exactly one slot. */
    method Balloc() returns (ok: bool)
      requires Valid() && sb.size <= BPB
      modifies `blocks
      ensures ok == (freeblock < BSIZE * 8)
      ensures ok ==> Owns(sb, blocks, inodes, owner, {}, -1, 0) && SameFiles(sb, old(blocks), inodes, blocks, inodes)
    {
      if freeblock >= BSIZE * 8 { return false; }
      var buf := FirstBits(freeblock);
      BitmapWritten(sb, blocks, inodes, owner, freeblock, buf);
      blocks := blocks[sb.bmapstart := buf];
      return true;
    }
  }

  /** Every file, and every hole in one, is as before. */
  ghost predicate SameFiles(sb: Super, b0: Blocks, i0: Inodes, blocks: Blocks, inodes: Inodes) {
    && Shape(sb, b0, i0) && Shape(sb, blocks, inodes) && SameBytes(sb, b0, i0, blocks, inodes)
    && |i0| == |inodes| && forall j :: 0 <= j < |i0| ==>
          inodes[j].size == i0[j].size && SameSlots(b0, blocks, inodes[j])
  }

  function Zeros(n: nat): seq<int> { seq(n, _ => 0) }

  lemma EmptyByte(s: Img, j: nat, x: nat)
    requires j < |s.inodes| ==>
      |s.inodes[j].addrs| == NDIRECT + 1 && forall k :: 0 <= k <= NDIRECT ==> s.inodes[j].addrs[k] == 0
    requires j < |s.inodes| ==> 0 < |s.blocks| && |s.blocks[0]| == BSIZE
    ensures j < |s.inodes| && x < MAXFILE * BSIZE ==> ByteAt(s.blocks, s.inodes[j], x) == 0
  {
  }

  function Ended(t: Img, i: nat, size: nat): Img
    requires i < |t.inodes|
  {
    t.(inodes := t.inodes[i := t.inodes[i].(size := size)])
  }

  /** iappend took s to u: src is at the end of inode i's file, no other file changed, no file has
      anything past its end, and none got a hole. */
  ghost predicate Extends(sb: Super, s: Img, u: Img, i: nat, src: seq<int>)
    requires i < |s.inodes|
  {
    && Handing(sb, u) && Tight(sb, u)
    && FilesWritten(sb, s.blocks, s.inodes, u.blocks, u.inodes, i, s.inodes[i].size, src)
    && u.freeblock <= s.freeblock + 2 * Rounds(s.inodes[i].size, |src|)
    && (AllMapped(sb, s.blocks, s.inodes) ==> AllMapped(sb, u.blocks, u.inodes))
  }

  lemma AppendedAll(sb: Super, s: Img, t: Img, i: nat, src: seq<int>)
    requires Handing(sb, s) && i < |s.inodes| && s.inodes[i].size + |src| <= MAXFILE * BSIZE && Tight(sb, s)
    requires Appending(sb, s, t, i, s.inodes[i].size, |src|, src)
    ensures i < |t.inodes| && Extends(sb, s, Ended(t, i, s.inodes[i].size + |src|), i, src)
  {
    AppendedTight(sb, s, t, i, src);
    AppendedFiles(sb, s, t, i, src);
    AppendedMapped(sb, s, t, i, src);
  }

  lemma AppendedFiles(sb: Super, s: Img, t: Img, i: nat, src: seq<int>)
    requires Handing(sb, s) && i < |s.inodes| && s.inodes[i].size + |src| <= MAXFILE * BSIZE
    requires Appending(sb, s, t, i, s.inodes[i].size, |src|, src)
    ensures var u := Ended(t, i, s.inodes[i].size + |src|);
            Handing(sb, u) && FilesWritten(sb, s.blocks, s.inodes, u.blocks, u.inodes, i, s.inodes[i].size, src)
  {
    var off := s.inodes[i].size;
    AfterCopyFiles(sb, s.blocks, s.inodes, t.blocks, t.inodes, i, off, src);
    HandedResize(sb, t.blocks, t.inodes, t.owner, t.freeblock, i, off + |src|);
    assert Ended(t, i, off + |src|).inodes[i] == Resized(t.inodes[i], off, |src|);
  }

  lemma AppendedMapped(sb: Super, s: Img, t: Img, i: nat, src: seq<int>)
    requires Handing(sb, s) && i < |s.inodes| && s.inodes[i].size + |src| <= MAXFILE * BSIZE
    requires Appending(sb, s, t, i, s.inodes[i].size, |src|, src)
    ensures var u := Ended(t, i, s.inodes[i].size + |src|);
            AllMapped(sb, s.blocks, s.inodes) ==> AllMapped(sb, u.blocks, u.inodes)
  {
    var off := s.inodes[i].size;
    var u := Ended(t, i, off + |src|);
    if AllMapped(sb, s.blocks, s.inodes) {
      HandedResize(sb, t.blocks, t.inodes, t.owner, t.freeblock, i, off + |src|);
      assert u.inodes[i] == Resized(t.inodes[i], off, |src|);
      assert MappedAt(sb, s.blocks, s.inodes, i);
      CopyMaps(sb, s.blocks, s.inodes, t.blocks, t.inodes, i, off, src);
      AllMappedKept(sb, s.blocks, s.inodes, s.owner, u.blocks, u.inodes, u.owner, i);
    }
  }

  /** A bitmap block with exactly the first `used` bits set. */
  method FirstBits(used: nat) returns (buf: Block)
    requires used < BPB
    ensures IsBlock(buf) && forall c :: 0 <= c < BPB ==> (Bit(buf[c / 8], c % 8) <==> c < used)
  {
    buf := ZeroBlock();
    ZeroBits();
    var i := 0;
    while i < used
      invariant 0 <= i <= used && IsBlock(buf)
      invariant forall c :: 0 <= c < BPB ==> (Bit(buf[c / 8], c % 8) <==> c < i)
    {
      SetNextBit(buf, i);
      buf := buf[i / 8 := buf[i / 8] + Pow2(i % 8)];
      i := i + 1;
    }
  }

  lemma HandedResize(sb: Super, blocks: Blocks, inodes: Inodes, owner: map<nat, Slot>, freeblock: nat, i: nat,
                     size: nat)
    requires Handed(sb, blocks, inodes, owner, freeblock) && i < |inodes|
    ensures Handed(sb, blocks, inodes[i := inodes[i].(size := size)], owner, freeblock)
  {
    var inodes' := inodes[i := inodes[i].(size := size)];
    assert forall j, k :: 0 <= j < |inodes| && 0 <= k < NSLOTS ==>
      SlotAddr(blocks, inodes'[j], k) == SlotAddr(blocks, inodes[j], k);
  }

  lemma {:induction false} ZeroHasNoBits(j: nat)
    ensures !Bit(0, j)
  {
    if j > 0 { ZeroHasNoBits(j - 1); }
  }

  lemma ZeroBits()
    ensures IsBlock(ZeroBlock())
    ensures forall c :: 0 <= c < BPB ==> !Bit(ZeroBlock()[c / 8], c % 8)
  {
    forall c | 0 <= c < BPB ensures !Bit(ZeroBlock()[c / 8], c % 8) {
      ZeroHasNoBits(c % 8);
    }
  }

  lemma SetNextBit(buf: Block, i: nat)
    requires IsBlock(buf) && i < BPB && forall c :: 0 <= c < BPB ==> (Bit(buf[c / 8], c % 8) <==> c < i)
    ensures var buf' := buf[i / 8 := buf[i / 8] + Pow2(i % 8)];
            IsBlock(buf') && forall c :: 0 <= c < BPB ==> (Bit(buf'[c / 8], c % 8) <==> c < i + 1)
  {
    assert Pow2(8) == 256;
    BitSet(buf[i / 8], i % 8, 8);
    var buf' := buf[i / 8 := buf[i / 8] + Pow2(i % 8)];
    forall c | 0 <= c < BPB ensures Bit(buf'[c / 8], c % 8) <==> c < i + 1 {
      assert Bit(buf[c / 8], c % 8) <==> c < i;
    }
  }

  lemma BitmapKeepsFiles(sb: Super, blocks: Blocks, inodes: Inodes, owner: map<nat, Slot>, freeblock: nat, buf: Block)
    requires Handed(sb, blocks, inodes, owner, freeblock) && sb.size <= BPB && IsBlock(buf)
    ensures SameFiles(sb, blocks, inodes, blocks[sb.bmapstart := buf], inodes)
  {
    var blocks' := blocks[sb.bmapstart := buf];
    OwnedNotIndirect(sb, blocks, inodes, owner, -1, 0, sb.bmapstart);
    forall j | 0 <= j < |inodes| ensures SameSlots(blocks, blocks', inodes[j]) {
      WriteKeepsSlots(blocks, inodes[j], sb.bmapstart, buf);
    }
    forall j, x | 0 <= j < |inodes| && 0 <= x < MAXFILE * BSIZE
      ensures ByteAt(blocks', inodes[j], x) == ByteAt(blocks, inodes[j], x)
    {
      assert Counts(j, DataSlot(x / BSIZE), -1, 0);
      if SlotAddr(blocks, inodes[j], DataSlot(x / BSIZE)) != 0 {
        WriteKeepsBytes(blocks, inodes[j], sb.bmapstart, buf, x);
      } else {
        WriteKeepsSlots(blocks, inodes[j], sb.bmapstart, buf);
      }
    }
  }

  lemma BitmapWritten(sb: Super, blocks: Blocks, inodes: Inodes, owner: map<nat, Slot>, freeblock: nat, buf: Block)
    requires Handed(sb, blocks, inodes, owner, freeblock) && sb.size <= BPB && IsBlock(buf)
    requires forall c :: 0 <= c < BPB ==> (Bit(buf[c / 8], c % 8) <==> c < freeblock)
    ensures Owns(sb, blocks[sb.bmapstart := buf], inodes, owner, {}, -1, 0)
    ensures SameFiles(sb, blocks, inodes, blocks[sb.bmapstart := buf], inodes)
  {
    BitmapKeepsFiles(sb, blocks, inodes, owner, freeblock, buf);
    OwnedNotIndirect(sb, blocks, inodes, owner, -1, 0, sb.bmapstart);
    WriteKeepsOwners(sb, blocks, inodes, owner, -1, 0, sb.bmapstart, buf);
    var blocks' := blocks[sb.bmapstart := buf];
    ShapeReadable(sb, blocks', inodes);
    forall b | 0 <= b < sb.size ensures Marked(sb, blocks', b) <==> b < sb.nmeta || b in owner {
      MarkedDefined(sb, blocks', inodes, b);
      if b < BPB {
        assert Bit(buf[b / 8], b % 8) <==> b < freeblock;
        assert b % BPB == b && b / BPB == 0;
      }
    }
  }

  // ----- The root directory's size -----

  /** Rounding the size of a file up to the next block boundary past its end leaves every block
      below the new size mapped exactly when the old size was not already a boundary. */
  lemma RootSizeMappedIff(blocks: Blocks, ino: Inode)
    requires |ino.addrs| == NDIRECT + 1 && ino.addrs[NDIRECT] < |blocks| && |blocks[ino.addrs[NDIRECT]]| == BSIZE
    requires MappedBelow(blocks, ino) && ino.size < MAXFILE * BSIZE
    requires forall bn :: 0 <= bn < MAXFILE && ino.size <= bn * BSIZE ==> SlotAddr(blocks, ino, DataSlot(bn)) == 0
    ensures MappedBelow(blocks, ino.(size := (ino.size / BSIZE + 1) * BSIZE)) <==> ino.size % BSIZE != 0
  {
    var ino', last := ino.(size := (ino.size / BSIZE + 1) * BSIZE), ino.size / BSIZE;
    assert forall bn :: 0 <= bn < MAXFILE ==>
      SlotAddr(blocks, ino', DataSlot(bn)) == SlotAddr(blocks, ino, DataSlot(bn));
    if ino.size % BSIZE == 0 {
      assert last * BSIZE == ino.size < ino'.size && SlotAddr(blocks, ino', DataSlot(last)) == 0;
    } else {
      forall bn | 0 <= bn < MAXFILE && bn * BSIZE < ino'.size ensures SlotAddr(blocks, ino', DataSlot(bn)) != 0 {
        assert bn <= last;
      }
    }
  }

  /** A tight image maps a block only below the end of its file. */
  lemma MappedIsBelow(sb: Super, s: Img, i: nat, bn: nat)
    requires Handing(sb, s) && Tight(sb, s) && i < |s.inodes| && bn < MAXFILE
    requires SlotAddr(s.blocks, s.inodes[i], DataSlot(bn)) != 0
    ensures bn * BSIZE < s.inodes[i].size
  {
    var a := SlotAddr(s.blocks, s.inodes[i], DataSlot(bn));
    assert Counts(i, DataSlot(bn), -1, 0);
    assert a in s.owner && s.owner[a] == (i, DataSlot(bn)) && OwnerBelow(s, a);
  }

  lemma RoundedUp(sb: Super, s: Img, i: nat, off: nat)
    requires Handing(sb, s) && Tight(sb, s) && i < |s.inodes| && s.inodes[i].size < MAXFILE * BSIZE
    requires off == (s.inodes[i].size / BSIZE + 1) * BSIZE
    ensures s.inodes[i].size < off <= MAXFILE * BSIZE
    ensures var u := s.(inodes := s.inodes[i := s.inodes[i].(size := off)]);
            && Handing(sb, u) && Tight(sb, u)
            && Contents(u.blocks, u.inodes[i]) == Contents(s.blocks, s.inodes[i]) + Zeros(off - s.inodes[i].size)
            && (MappedBelow(s.blocks, s.inodes[i]) ==>
                  (MappedBelow(u.blocks, u.inodes[i]) <==> s.inodes[i].size % BSIZE != 0))
  {
    var u := s.(inodes := s.inodes[i := s.inodes[i].(size := off)]);
    HandedResize(sb, s.blocks, s.inodes, s.owner, s.freeblock, i, off);
    forall a: nat ensures OwnerBelow(u, a) { assert OwnerBelow(s, a); }
    forall j: nat, x: nat ensures ZeroAt(sb, u, j, x) {
      assert ZeroAt(sb, s, j, x);
      if j == i && off <= x < MAXFILE * BSIZE {
        assert ByteAt(u.blocks, u.inodes[i], x) == ByteAt(s.blocks, s.inodes[i], x);
      }
    }
    RoundedContents(sb, s, i, off);
    if MappedBelow(s.blocks, s.inodes[i]) {
      forall bn | 0 <= bn < MAXFILE && s.inodes[i].size <= bn * BSIZE
        ensures SlotAddr(s.blocks, s.inodes[i], DataSlot(bn)) == 0
      {
        if SlotAddr(s.blocks, s.inodes[i], DataSlot(bn)) != 0 { MappedIsBelow(sb, s, i, bn); }
      }
      RootSizeMappedIff(s.blocks, s.inodes[i]);
    }
  }

  lemma RoundedContents(sb: Super, s: Img, i: nat, off: nat)
    requires Handing(sb, s) && Tight(sb, s) && i < |s.inodes| && s.inodes[i].size <= off <= MAXFILE * BSIZE
    ensures Contents(s.blocks, s.inodes[i].(size := off)) ==
      Contents(s.blocks, s.inodes[i]) + Zeros(off - s.inodes[i].size)
  {
    var ino := s.inodes[i].(size := off);
    forall x | 0 <= x < off
      ensures Contents(s.blocks, ino)[x] == (Contents(s.blocks, s.inodes[i]) + Zeros(off - s.inodes[i].size))[x]
    {
      assert ZeroAt(sb, s, i, x);
      assert ByteAt(s.blocks, ino, x) == ByteAt(s.blocks, s.inodes[i], x);
    }
  }

  /** A root directory of 64 entries fills one block exactly; rounding it up leaves a hole. */
  method RootWithHole(entries: seq<int>) returns (b: ImageBuilder)
    requires |entries| == 1024 && forall k :: 0 <= k < 1024 ==> 0 <= entries[k] < 256
    ensures fresh(b) && b.Valid() && b.sb == Image && b.freeblock <= NMETA + 2 && ROOTINO < |b.inodes|
    ensures b.inodes[ROOTINO].size == 2048 && b.inodes[ROOTINO].addrs[1] == 0
    ensures forall j :: 0 <= j < |b.inodes| ==> b.inodes[j].size <= 2048
    ensures Contents(b.blocks, b.inodes[ROOTINO]) == entries + Zeros(1024)
  {
    b := new ImageBuilder();
    ghost var s := b.Now();
    var ok := b.Iappend(ROOTINO, entries);
    assert Rounds(0, 1024) == 1;
    forall j | 0 <= j < |b.inodes| && j != ROOTINO ensures b.inodes[j].size == 0 {
      assert OtherFile(b.sb, s.blocks, s.inodes, b.blocks, b.inodes, ROOTINO, j);
    }
    assert SlotAddr(b.blocks, b.inodes[ROOTINO], DataSlot(1)) == b.inodes[ROOTINO].addrs[1];
    if b.inodes[ROOTINO].addrs[1] != 0 { MappedIsBelow(b.sb, b.Now(), ROOTINO, 1); }
    b.RoundUp(ROOTINO);
  }
}
