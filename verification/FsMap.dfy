/** What bmap does to the tables (kernel/fs.c). */
module FsMap {
  import opened FsBytes
  import opened FsBlocks
  import opened FsSlots
  import opened FsAccount
  import opened FsWrite

  /** The address in the inode itself that file block bn is found by. */
  predicate AddrThere(ino: Inode, bn: nat)
    requires |ino.addrs| == NDIRECT + 1
  {
    ino.addrs[if bn < NDIRECT then bn else NDIRECT] != 0
  }

  /** bmap led from s to t and looked for file block bn.  It finds what is mapped and then changes nothing.
      Outside a transaction it finds nothing else, and the inode changes exactly if its own address
      was missing. */
  ghost predicate BmapResult(sb: Super, nlog: nat, open: bool, s: Fs, t: Fs, i: nat, bn: nat, r: Outcome<nat>) {
    && Shape(sb, s.blocks, s.inodes) && i < |s.inodes| && bn < MAXFILE
    && var was := SlotAddr(s.blocks, s.inodes[i], DataSlot(bn));
    match r
    case Done(a) =>
      && Gained(sb, s, t, i, bn * BSIZE + 1) && SlotAddr(t.blocks, t.inodes[i], DataSlot(bn)) == a != 0
      && LogsOnly(sb, s.logged, t.logged, a, if bn < NDIRECT then 0 else t.inodes[i].addrs[NDIRECT])
      && (open || was != 0) && (was != 0 ==> t == s)
      && (t.inodes == s.inodes <==> AddrThere(s.inodes[i], bn))
    case Stop(why) =>
      && was == 0 && StopsAt(sb, nlog, open, s, t, i, why)
      && (why == OutOfBlocks && bn < NDIRECT ==> DiskFull(sb, s.blocks))
  }

  /** Where the disk says file block bn is: one of twelve addresses in the inode, or one of 256 four-byte
      little-endian entries of the block the thirteenth names. */
  ghost predicate FoundAt(blocks: Blocks, ino: Inode, bn: nat, a: nat) {
    |ino.addrs| == 13 &&
    if bn < 12 then a == ino.addrs[bn]
    else
      && ino.addrs[12] != 0 && ino.addrs[12] < |blocks| && |blocks[ino.addrs[12]]| == 1024 && bn < 268
      && var b, k := blocks[ino.addrs[12]], 4 * (bn - 12);
      a == b[k] + 256 * b[k + 1] + 65536 * b[k + 2] + 16777216 * b[k + 3]
  }

  lemma BmapFound(sb: Super, nlog: nat, open: bool, s: Fs, t: Fs, i: nat, bn: nat, a: nat)
    requires BmapResult(sb, nlog, open, s, t, i, bn, Done(a)) && Shape(sb, t.blocks, t.inodes) && i < |t.inodes|
    ensures FoundAt(t.blocks, t.inodes[i], bn, a)
  {
  }

  /** The same for one address of the inode. */
  ghost predicate AddrResult(sb: Super, nlog: nat, open: bool, s: Fs, t: Fs, i: nat, k: nat, r: Outcome<nat>) {
    && Shape(sb, s.blocks, s.inodes) && i < |s.inodes| && k <= NDIRECT
    && var was := s.inodes[i].addrs[k];
    match r
    case Done(a) =>
      && Gained(sb, s, t, i, FileOffset(k) + 1) && t.inodes[i].addrs == s.inodes[i].addrs[k := a] && a != 0
      && t.logged <= s.logged + {BBlock(sb, a), a}
      && (open || was != 0) && (was != 0 ==> t == s)
    case Stop(why) =>
      && was == 0 && t.inodes == s.inodes && StopsAt(sb, nlog, open, s, t, i, why)
      && (why == OutOfBlocks ==> DiskFull(sb, s.blocks))
  }

  /** The same for one entry of its indirect block. */
  ghost predicate EntryResult(sb: Super, nlog: nat, open: bool, s: Fs, t: Fs, i: nat, e: nat, r: Outcome<nat>) {
    && Shape(sb, s.blocks, s.inodes) && i < |s.inodes| && e < NINDIRECT && t.inodes == s.inodes
    && var was, ind := SlotAddr(s.blocks, s.inodes[i], NDIRECT + 1 + e), s.inodes[i].addrs[NDIRECT];
    match r
    case Done(a) =>
      && Gained(sb, s, t, i, (NDIRECT + e) * BSIZE + 1) && SlotAddr(t.blocks, t.inodes[i], NDIRECT + 1 + e) == a != 0
      && t.logged <= s.logged + {BBlock(sb, a), a, ind}
      && (open || was != 0) && (was != 0 ==> t == s)
    case Stop(why) => was == 0 && StopsAt(sb, nlog, open, s, t, i, why)
  }

  lemma BallocStops(sb: Super, nlog: nat, open: bool, s: Fs, t: Fs, i: nat, why: Halt)
    requires Halted(sb, nlog, open, t, why) && t.inodes == s.inodes
    requires sb.size <= BPB ==> t.logged <= s.logged + {sb.bmapstart}
    ensures StopsAt(sb, nlog, open, s, t, i, why)
  {
    if sb.size <= BPB { assert t.logged - s.logged - {sb.bmapstart, IndirectOf(t, i)} == {}; }
  }

  /** log_write of the indirect block stopped bmap. */
  lemma EntryStops(sb: Super, nlog: nat, open: bool, s: Fs, t: Fs, i: nat, e: nat, a: nat, why: Halt)
    requires Shape(sb, s.blocks, s.inodes) && i < |s.inodes| && e < NINDIRECT && a < sb.size
    requires SlotAddr(s.blocks, s.inodes[i], NDIRECT + 1 + e) == 0
    requires Halted(sb, nlog, open, t, why) && t.inodes == s.inodes && t.logged == s.logged + {BBlock(sb, a), a}
    ensures EntryResult(sb, nlog, open, s, t, i, e, Stop(why))
  {
    if sb.size <= BPB {
      OneBitmapBlock(sb, a);
      SubsetSize(t.logged - s.logged - {sb.bmapstart, IndirectOf(t, i)}, {a});
    }
  }

  /** bmap had its indirect block when it stopped. */
  lemma StopsAfter(sb: Super, nlog: nat, open: bool, s: Fs, t: Fs, u: Fs, i: nat, ind: nat, why: Halt)
    requires Gained(sb, s, t, i, 1) && StopsAt(sb, nlog, open, t, u, i, why) && ind == IndirectOf(t, i) != 0
    requires t.logged <= s.logged + {BBlock(sb, ind), ind}
    ensures StopsAt(sb, nlog, open, s, u, i, why)
  {
    IndirectStays(s.blocks, s.inodes[i], t.blocks, t.inodes[i]);
    if sb.size <= BPB {
      OneBitmapBlock(sb, ind);
      var x := {sb.bmapstart, ind};
      SubsetSize(u.logged - s.logged - x, u.logged - t.logged - x);
    }
  }

  /** bmap went through and log_write of the data block stopped writei. */
  lemma FilledStops(sb: Super, nlog: nat, open: bool, s: Fs, t: Fs, u: Fs, i: nat, off: nat, a: nat, why: Halt)
    requires off / BSIZE < MAXFILE && BmapResult(sb, nlog, open, s, t, i, off / BSIZE, Done(a)) && a < sb.size
    requires Halted(sb, nlog, open, u, why) && u.inodes == t.inodes && u.logged == t.logged
    ensures StopsAt(sb, nlog, open, s, u, i, why)
  {
    IndirectStays(s.blocks, s.inodes[i], t.blocks, t.inodes[i]);
    if sb.size <= BPB {
      OneBitmapBlock(sb, a);
      OneBitmapBlock(sb, IndirectOf(u, i));
      SubsetSize(u.logged - s.logged - {sb.bmapstart, IndirectOf(u, i)}, {a});
    }
  }

  // ----- An address -----

  /** Block a fresh from balloc becomes address k of inode i. */
  lemma AddrGiven(sb: Super, nlog: nat, open: bool, s: Fs, i: nat, k: nat, a: nat)
    requires Sound(sb, s) && i < |s.inodes| && k <= NDIRECT && s.inodes[i].addrs[k] == 0
    requires open && a < sb.size && !Marked(sb, s.blocks, a)
    ensures var t := s.(blocks := Alloced(sb, s.blocks, a), inodes := WithAddr(s.inodes, i, k, a),
                        logged := s.logged + {BBlock(sb, a), a}, owner := s.owner[a := (i, k)]);
            AddrResult(sb, nlog, open, s, t, i, k, Done(a))
  {
    var blocks, logged := Alloced(sb, s.blocks, a), s.logged + {BBlock(sb, a), a};
    AllocKeeps(sb, s.blocks, s.inodes, s.owner, {}, a);
    AttachKeeps(sb, blocks, s.inodes, s.owner, {} + {a}, i, k, a);
    assert SameSlots(s.blocks, blocks, s.inodes[i]);
    AllocLogged(sb, s.blocks, s.logged, a);
    AccountedGain(s.blocks, s.logged, s.owner, blocks, logged, a, i, k, FileOffset(k) + 1);
    assert {a} - {a} == {};
  }

  lemma AddrKept(sb: Super, nlog: nat, open: bool, s: Fs, i: nat, k: nat)
    requires Sound(sb, s) && i < |s.inodes| && k <= NDIRECT && s.inodes[i].addrs[k] != 0
    ensures AddrResult(sb, nlog, open, s, s, i, k, Done(s.inodes[i].addrs[k]))
  {
    assert s.inodes[i].addrs[k := s.inodes[i].addrs[k]] == s.inodes[i].addrs;
    GainedRefl(sb, s, i, FileOffset(k) + 1);
  }

  lemma DirectResult(sb: Super, nlog: nat, open: bool, s: Fs, t: Fs, i: nat, bn: nat, r: Outcome<nat>)
    requires AddrResult(sb, nlog, open, s, t, i, bn, r) && bn < NDIRECT
    ensures BmapResult(sb, nlog, open, s, t, i, bn, r)
  {
    assert SlotAddr(s.blocks, s.inodes[i], bn) == s.inodes[i].addrs[bn];
  }

  // ----- An entry -----

  /** Block a fresh from balloc becomes entry e of inode i's indirect block. */
  lemma EntryGiven(sb: Super, nlog: nat, open: bool, s: Fs, i: nat, e: nat, a: nat)
    requires Sound(sb, s) && i < |s.inodes| && e < NINDIRECT && s.inodes[i].addrs[NDIRECT] != 0
    requires SlotAddr(s.blocks, s.inodes[i], NDIRECT + 1 + e) == 0
    requires open && a < sb.size && !Marked(sb, s.blocks, a)
    ensures var ind, blocks := s.inodes[i].addrs[NDIRECT], Alloced(sb, s.blocks, a);
            && ind < |blocks| && |blocks[ind]| == BSIZE
            && var t := s.(blocks := WithEntry(blocks, s.inodes[i], e, a),
                           logged := s.logged + {BBlock(sb, a), a} + {ind},
                           owner := s.owner[a := (i, NDIRECT + 1 + e)]);
            EntryResult(sb, nlog, open, s, t, i, e, Done(a))
  {
    var blocks, logged, ind := Alloced(sb, s.blocks, a), s.logged + {BBlock(sb, a), a}, s.inodes[i].addrs[NDIRECT];
    var limit, slot := (NDIRECT + e) * BSIZE + 1, NDIRECT + 1 + e;
    AllocKeeps(sb, s.blocks, s.inodes, s.owner, {}, a);
    assert SameSlots(s.blocks, blocks, s.inodes[i]);
    assert SlotAddr(blocks, s.inodes[i], slot) == 0;
    AttachEntryKeeps(sb, blocks, s.inodes, s.owner, {} + {a}, i, e, a);
    AllocLogged(sb, s.blocks, s.logged, a);
    AccountedGain(s.blocks, s.logged, s.owner, blocks, logged, a, i, slot, limit);
    AccountedWrite(s.blocks, s.logged, s.owner, blocks, logged, s.owner[a := (i, slot)],
                   ind, WithEntry(blocks, s.inodes[i], e, a)[ind], i, limit);
    assert {a} - {a} == {};
  }

  lemma EntryKept(sb: Super, nlog: nat, open: bool, s: Fs, i: nat, e: nat)
    requires Sound(sb, s) && i < |s.inodes| && e < NINDIRECT && s.inodes[i].addrs[NDIRECT] != 0
    requires SlotAddr(s.blocks, s.inodes[i], NDIRECT + 1 + e) != 0
    ensures SlotAddr(s.blocks, s.inodes[i], NDIRECT + 1 + e) > 0
    ensures EntryResult(sb, nlog, open, s, s, i, e, Done(SlotAddr(s.blocks, s.inodes[i], NDIRECT + 1 + e)))
  {
    SlotInRange(sb, s.blocks, s.inodes, s.owner, i, NDIRECT + 1 + e);
    GainedRefl(sb, s, i, (NDIRECT + e) * BSIZE + 1);
  }

  /** The two halves of bmap past the direct blocks. */
  lemma IndirectMapped(sb: Super, s: Fs, t: Fs, u: Fs, i: nat, e: nat, ind: nat, a: nat)
    requires e < NINDIRECT && Gained(sb, s, t, i, 1) && Gained(sb, t, u, i, (NDIRECT + e) * BSIZE + 1)
    requires t.logged <= s.logged + {BBlock(sb, ind), ind} && u.logged <= t.logged + {BBlock(sb, a), a, ind} && ind != 0
    ensures Gained(sb, s, u, i, (NDIRECT + e) * BSIZE + 1) && LogsOnly(sb, s.logged, u.logged, a, ind)
  {
    GainedTrans(sb, s, t, u, i, 1, (NDIRECT + e) * BSIZE + 1, (NDIRECT + e) * BSIZE + 1);
  }

  /** bmap got no indirect block. */
  lemma IndirectStopped(sb: Super, nlog: nat, open: bool, s: Fs, t: Fs, i: nat, e: nat, r: Outcome<nat>)
    requires AddrResult(sb, nlog, open, s, t, i, NDIRECT, r) && r.Stop? && e < NINDIRECT
    ensures BmapResult(sb, nlog, open, s, t, i, NDIRECT + e, r)
  {
  }

  lemma IndirectResult(sb: Super, nlog: nat, open: bool, s: Fs, t: Fs, u: Fs, i: nat, e: nat, ind: Outcome<nat>,
                       r: Outcome<nat>)
    requires AddrResult(sb, nlog, open, s, t, i, NDIRECT, ind) && ind.Done?
    requires EntryResult(sb, nlog, open, t, u, i, e, r)
    ensures BmapResult(sb, nlog, open, s, u, i, NDIRECT + e, r)
  {
    if r.Done? {
      IndirectMapped(sb, s, t, u, i, e, ind.value, r.value);
    } else {
      StopsAfter(sb, nlog, open, s, t, u, i, ind.value, r.why);
    }
  }
}
