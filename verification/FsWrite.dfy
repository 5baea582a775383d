/** What readi, writei and filewrite do to the files, round by round, on the block and inode
    tables (kernel/fs.c, kernel/file.c). */
module FsWrite {
  import opened FsBytes
  import opened FsBlocks
  import opened FsSlots
  import opened FsAccount
  import opened FsDisk
  import opened Options
  import opened Params

  const IPB := 16               // inodes per block

  /** Bytes [from, to) of inode i now read as src; every other byte of every file is as before. */
  ghost predicate Wrote(sb: Super, blocks0: Blocks, inodes0: Inodes, blocks: Blocks, inodes: Inodes, i: nat, from: nat,
                        to: nat, src: seq<int>)
    requires Shape(sb, blocks0, inodes0) && Shape(sb, blocks, inodes)
  {
    && from <= to <= from + |src|
    && forall j, x :: 0 <= j < |inodes| && 0 <= x < MAXFILE * BSIZE ==>
         ByteAt(blocks, inodes[j], x) ==
           if j == i && from <= x < to then src[x - from] else ByteAt(blocks0, inodes0[j], x)
  }

  /** min(left, BSIZE - off % BSIZE): how far a copy may go inside one block. */
  function ChunkLen(off: nat, left: nat): (m: nat)
    ensures m <= left && off % BSIZE + m <= BSIZE && (left > 0 ==> m > 0)
    ensures m == left || (off + m) % BSIZE == 0
  {
    if left < BSIZE - off % BSIZE then left else BSIZE - off % BSIZE
  }

  lemma SliceJoin(s: seq<int>, a: nat, b: nat, c: nat)
    requires a <= b <= c <= |s|
    ensures s[a..b] + s[b..c] == s[a..c]
  {
  }

  /** The block holding offset `off` with the next m bytes of src copied in. */
  function Splice(blk: Block, o: nat, bytes: seq<int>): Block
    requires |blk| == BSIZE && o + |bytes| <= BSIZE
  {
    blk[..o] + bytes + blk[o + |bytes|..]
  }

  lemma SpliceAt(blk: Block, o: nat, bytes: seq<int>, y: nat)
    requires |blk| == BSIZE && o + |bytes| <= BSIZE && y < BSIZE
    ensures |Splice(blk, o, bytes)| == BSIZE
    ensures Splice(blk, o, bytes)[y] == if o <= y < o + |bytes| then bytes[y - o] else blk[y]
  {
  }

  lemma SpliceIsBlock(blk: Block, o: nat, bytes: seq<int>)
    requires IsBlock(blk) && o + |bytes| <= BSIZE && forall k :: 0 <= k < |bytes| ==> 0 <= bytes[k] < 256
    ensures IsBlock(Splice(blk, o, bytes))
  {
  }

  /** One round of writei's loop, on bytes. */
  lemma WriteRound(sb: Super, blocks0: Blocks, inodes0: Inodes, blocks: Blocks, blocks': Blocks, inodes: Inodes,
                   i: nat, from: nat, off: nat, m: nat, src: seq<int>)
    requires Shape(sb, blocks0, inodes0) && Shape(sb, blocks, inodes) && Shape(sb, blocks', inodes)
    requires i < |inodes| == |inodes0|
    requires Wrote(sb, blocks0, inodes0, blocks, inodes, i, from, off, src)
    requires 0 < m && off % BSIZE + m <= BSIZE && off + m <= from + |src| && off + m <= MAXFILE * BSIZE
    requires 0 < SlotAddr(blocks, inodes[i], DataSlot(off / BSIZE)) < sb.size
    requires var v := Splice(blocks[SlotAddr(blocks, inodes[i], DataSlot(off / BSIZE))], off % BSIZE,
                             src[off - from..off - from + m]);
             |v| == BSIZE && BlockReplaced(sb, blocks, blocks', inodes, i, off / BSIZE, v)
    ensures Wrote(sb, blocks0, inodes0, blocks', inodes, i, from, off + m, src)
  {
    var a := SlotAddr(blocks, inodes[i], DataSlot(off / BSIZE));
    forall j, x | 0 <= j < |inodes| && 0 <= x < MAXFILE * BSIZE
      ensures ByteAt(blocks', inodes[j], x) ==
        if j == i && from <= x < off + m then src[x - from] else ByteAt(blocks0, inodes0[j], x)
    {
      if j == i {
        PatchedByte(blocks, inodes[i], a, from, off, m, src, x);
      }
    }
  }

  lemma PatchedByte(blocks: Blocks, ino: Inode, a: nat, from: nat, off: nat, m: nat, src: seq<int>, x: nat)
    requires |ino.addrs| == NDIRECT + 1 && ino.addrs[NDIRECT] < |blocks| && |blocks[ino.addrs[NDIRECT]]| == BSIZE
    requires from <= off && off % BSIZE + m <= BSIZE && off + m <= from + |src| && off + m <= MAXFILE * BSIZE
    requires x < MAXFILE * BSIZE
    requires off < MAXFILE * BSIZE && 0 < a < |blocks| && a == SlotAddr(blocks, ino, DataSlot(off / BSIZE))
    requires |blocks[a]| == BSIZE
    ensures var v := Splice(blocks[a], off % BSIZE, src[off - from..off - from + m]);
            |v| == BSIZE && Patched(blocks, ino, off / BSIZE, v, x) ==
              if off <= x < off + m then src[x - from] else ByteAt(blocks, ino, x)
  {
    var bytes := src[off - from..off - from + m];
    SpliceAt(blocks[a], off % BSIZE, bytes, x % BSIZE);
    if x / BSIZE == off / BSIZE {
      SameBlockOffsets(off, x);
      if off <= x < off + m {
        assert bytes[x - off] == src[x - from];
      }
    } else {
      OtherBlock(off, m, x);
    }
  }

  lemma SameBlockOffsets(off: nat, x: nat)
    requires x / BSIZE == off / BSIZE
    ensures x % BSIZE - off % BSIZE == x - off
  {
  }

  lemma OtherBlock(off: nat, m: nat, x: nat)
    requires off % BSIZE + m <= BSIZE && x / BSIZE != off / BSIZE
    ensures !(off <= x < off + m)
  {
  }

  /** Inode i may have gained blocks; no file's bytes, and no inode's other fields, changed. */
  ghost predicate Extended(sb: Super, blocks: Blocks, inodes: Inodes, blocks': Blocks, inodes': Inodes, i: nat) {
    && Shape(sb, blocks, inodes) && Shape(sb, blocks', inodes') && i < |inodes| == |inodes'|
    && SameBytes(sb, blocks, inodes, blocks', inodes')
    && Grows(blocks, inodes[i], blocks', inodes'[i])
    && inodes' == inodes[i := inodes[i].(addrs := inodes'[i].addrs)]
  }

  lemma ExtendedTrans(sb: Super, b0: Blocks, i0: Inodes, b1: Blocks, i1: Inodes, b2: Blocks, i2: Inodes, i: nat)
    requires Extended(sb, b0, i0, b1, i1, i) && Extended(sb, b1, i1, b2, i2, i)
    ensures Extended(sb, b0, i0, b2, i2, i)
  {
  }

  lemma ExtendedRefl(sb: Super, blocks: Blocks, inodes: Inodes, i: nat)
    requires Shape(sb, blocks, inodes) && i < |inodes|
    ensures Extended(sb, blocks, inodes, blocks, inodes, i)
  {
    assert inodes[i].(addrs := inodes[i].addrs) == inodes[i];
  }

  /** The block table, the inodes in memory and on disk, what the current transaction has logged, and,
      for the proof, who owns which block. */
  datatype Fs = Fs(blocks: Blocks, inodes: Inodes, disk: Inodes, logged: set<nat>, owner: map<nat, Slot>)

  ghost predicate Sound(sb: Super, s: Fs) { Owns(sb, s.blocks, s.inodes, s.owner, {}, -1, 0) }

  ghost predicate Accounts(s: Fs, t: Fs, i: nat, limit: nat) {
    Accounted(s.blocks, s.logged, s.owner, t.blocks, t.logged, t.owner, i, limit)
  }

  /** From s to t inode i gained blocks below limit, and nothing else happened to any file. */
  ghost predicate Gained(sb: Super, s: Fs, t: Fs, i: nat, limit: nat) {
    && Sound(sb, t) && Extended(sb, s.blocks, s.inodes, t.blocks, t.inodes, i) && Accounts(s, t, i, limit)
    && t.disk == s.disk
  }

  lemma GainedRefl(sb: Super, s: Fs, i: nat, limit: nat)
    requires Sound(sb, s) && i < |s.inodes|
    ensures Gained(sb, s, s, i, limit)
  {
    ExtendedRefl(sb, s.blocks, s.inodes, i);
    AccountedRefl(s.blocks, s.logged, s.owner, i, limit);
  }

  lemma GainedTrans(sb: Super, s: Fs, t: Fs, u: Fs, i: nat, lim1: nat, lim2: nat, limit: nat)
    requires Gained(sb, s, t, i, lim1) && Gained(sb, t, u, i, lim2) && lim1 <= limit && lim2 <= limit
    ensures Gained(sb, s, u, i, limit)
  {
    ExtendedTrans(sb, s.blocks, s.inodes, t.blocks, t.inodes, u.blocks, u.inodes, i);
    AccountedTrans(s.blocks, s.logged, s.owner, t.blocks, t.logged, t.owner, u.blocks, u.logged, u.owner, i, lim1, lim2,
                   limit);
  }

  /** The inodes on disk are behind those in memory by lost addresses only. */
  ghost predicate Tracks(sb: Super, s: Fs) { Behind(sb, s.blocks, s.inodes, s.disk) }

  lemma GainedTracks(sb: Super, s: Fs, t: Fs, i: nat, limit: nat)
    requires Sound(sb, s) && Tracks(sb, s) && Gained(sb, s, t, i, limit)
    ensures Tracks(sb, t)
  {
    forall j: nat ensures InodeBehind(sb, t.blocks, t.inodes, t.disk, j) {
      if j < |t.inodes| {
        BehindKept(sb, s.blocks, s.inodes, s.owner, s.disk, t.blocks, t.inodes, t.owner, j);
      }
    }
  }

  lemma LaidTracks(sb: Super, s: Fs, t: Fs, i: nat, off: nat, src: seq<int>)
    requires Sound(sb, s) && Tracks(sb, s) && Laid(sb, s, t, i, off, src)
    ensures Tracks(sb, t)
  {
    forall j: nat ensures InodeBehind(sb, t.blocks, t.inodes, t.disk, j) {
      if j < |t.inodes| && (j != i || src == []) {
        LaidBytes(sb, s, t, i, off, src, j);
        BehindKept(sb, s.blocks, s.inodes, s.owner, s.disk, t.blocks, t.inodes, t.owner, j);
      }
    }
  }

  lemma LaidBytes(sb: Super, s: Fs, t: Fs, i: nat, off: nat, src: seq<int>, j: nat)
    requires Laid(sb, s, t, i, off, src) && j < |t.inodes| && (j != i || src == [])
    ensures t.inodes[j] == s.inodes[j]
    ensures s.inodes[j].size <= MAXFILE * BSIZE ==>
      forall x :: 0 <= x < s.inodes[j].size ==>
        ByteAt(t.blocks, t.inodes[j], x) == ByteAt(s.blocks, s.inodes[j], x)
  {
    assert OtherFile(sb, s.blocks, s.inodes, t.blocks, t.inodes, i, j);
    if j == i {
      var file := Contents(s.blocks, s.inodes[i]);
      assert Overwrite(file, off, []) == file;
    }
    forall x | 0 <= x < s.inodes[j].size <= MAXFILE * BSIZE
      ensures ByteAt(t.blocks, t.inodes[j], x) == ByteAt(s.blocks, s.inodes[j], x)
    {
      assert Contents(t.blocks, t.inodes[j])[x] == Contents(s.blocks, s.inodes[j])[x];
    }
  }

  lemma DiskContents(sb: Super, blocks: Blocks, inodes: Inodes, disk: Inodes, j: nat)
    requires Behind(sb, blocks, inodes, disk) && j < |inodes|
    ensures disk[j] == inodes[j].(addrs := disk[j].addrs)
    ensures inodes[j].size <= MAXFILE * BSIZE ==> Contents(blocks, disk[j]) == Contents(blocks, inodes[j])
  {
    assert InodeBehind(sb, blocks, inodes, disk, j);
  }

  /** How many file blocks a write of n bytes at off touches. */
  function Rounds(off: nat, n: nat): nat {
    if n == 0 then 0 else (off + n - 1) / BSIZE - off / BSIZE + 1
  }

  /** writei has copied the first tot bytes of src to offset off of inode i. */
  ghost predicate Writing(sb: Super, b0: Blocks, i0: Inodes, blocks: Blocks, inodes: Inodes, i: nat, off: nat, tot: nat,
                          src: seq<int>) {
    && Shape(sb, b0, i0) && Shape(sb, blocks, inodes) && i < |i0| == |inodes| && tot <= |src|
    && off + |src| <= MAXFILE * BSIZE
    && inodes == i0[i := i0[i].(addrs := inodes[i].addrs)]
    && Wrote(sb, b0, i0, blocks, inodes, i, off, off + tot, src)
    && Grows(b0, i0[i], blocks, inodes[i])
    && (tot > 0 ==> forall bn :: off / BSIZE <= bn < MAXFILE && bn * BSIZE < off + tot ==>
          SlotAddr(blocks, inodes[i], DataSlot(bn)) != 0)
  }

  /** Everything logged since log0 is one of `touched`, the bitmap block or the indirect block. */
  ghost predicate Budget(sb: Super, log0: set<nat>, logged: set<nat>, touched: set<nat>, ind: nat, rounds: nat) {
    |touched| <= rounds && logged <= log0 + touched + {sb.bmapstart} + if ind == 0 then {} else {ind}
  }

  /** What one round of writei did: bytes went to offset off, in the block at address a. */
  ghost predicate Chunked(sb: Super, b0: Blocks, i0: Inodes, log0: set<nat>, blocks: Blocks, inodes: Inodes,
                          logged: set<nat>,
                          i: nat, off: nat, bytes: seq<int>, a: nat) {
    && Shape(sb, b0, i0) && Shape(sb, blocks, inodes) && i < |i0| == |inodes| && off < MAXFILE * BSIZE
    && inodes == i0[i := i0[i].(addrs := inodes[i].addrs)]
    && Wrote(sb, b0, i0, blocks, inodes, i, off, off + |bytes|, bytes)
    && Grows(b0, i0[i], blocks, inodes[i])
    && 0 < a < sb.size && SlotAddr(blocks, inodes[i], DataSlot(off / BSIZE)) == a
    && LogsOnly(sb, log0, logged, a, if off / BSIZE < NDIRECT then 0 else inodes[i].addrs[NDIRECT])
  }

  lemma ChunkedRound(sb: Super, b0: Blocks, i0: Inodes, log0: set<nat>, b1: Blocks, i1: Inodes, log1: set<nat>,
                     b2: Blocks, i2: Inodes, log2: set<nat>, touched: set<nat>,
                     i: nat, off: nat, tot: nat, m: nat, src: seq<int>, a: nat)
    requires Writing(sb, b0, i0, b1, i1, i, off, tot, src) && tot + m <= |src| && 0 < m
    requires (off + tot) % BSIZE + m <= BSIZE
    requires Chunked(sb, b1, i1, log1, b2, i2, log2, i, off + tot, src[tot..tot + m], a)
    requires sb.size <= BPB ==> Budget(sb, log0, log1, touched, i1[i].addrs[NDIRECT], Rounds(off, tot))
    ensures Writing(sb, b0, i0, b2, i2, i, off, tot + m, src)
    ensures sb.size <= BPB ==> Budget(sb, log0, log2, touched + {a}, i2[i].addrs[NDIRECT], Rounds(off, tot) + 1)
  {
    WritingRound(sb, b0, i0, b1, i1, b2, i2, i, off, tot, m, src);
    if sb.size <= BPB {
      IndirectStays(b1, i1[i], b2, i2[i]);
      BudgetRound(sb, log0, log1, log2, touched, i1[i], i2[i], a,
                  if (off + tot) / BSIZE < NDIRECT then 0 else i2[i].addrs[NDIRECT], Rounds(off, tot));
    }
  }

  /** One round of writei took s to t. */
  ghost predicate ChunkDone(sb: Super, s: Fs, t: Fs, i: nat, off: nat, bytes: seq<int>, a: nat) {
    && Sound(sb, t) && Chunked(sb, s.blocks, s.inodes, s.logged, t.blocks, t.inodes, t.logged, i, off, bytes, a)
    && Accounts(s, t, i, off / BSIZE * BSIZE + 1) && t.disk == s.disk
  }

  /** Bmap took s to t and gave the block at a, which writei then fills and logs. */
  lemma ChunkFilled(sb: Super, s: Fs, t: Fs, i: nat, off: nat, bytes: seq<int>, a: nat)
    requires Gained(sb, s, t, i, off / BSIZE * BSIZE + 1)
    requires 0 < |bytes| && off % BSIZE + |bytes| <= BSIZE && off + |bytes| <= MAXFILE * BSIZE
    requires forall k :: 0 <= k < |bytes| ==> 0 <= bytes[k] < 256
    requires SlotAddr(t.blocks, t.inodes[i], DataSlot(off / BSIZE)) == a != 0
    requires LogsOnly(sb, s.logged, t.logged, a, if off / BSIZE < NDIRECT then 0 else t.inodes[i].addrs[NDIRECT])
    ensures a < |t.blocks| && |t.blocks[a]| == BSIZE
    ensures var bp := Splice(t.blocks[a], off % BSIZE, bytes);
            ChunkDone(sb, s, t.(blocks := t.blocks[a := bp], logged := t.logged + {a}), i, off, bytes, a)
  {
    ChunkWritten(sb, s.blocks, s.inodes, t.blocks, t.inodes, t.owner, i, off, bytes);
    var bp := Splice(t.blocks[a], off % BSIZE, bytes);
    AccountedWrite(s.blocks, s.logged, s.owner, t.blocks, t.logged, t.owner, a, bp, i, off / BSIZE * BSIZE + 1);
  }

  /** writei took s to t by copying the first tot bytes of src. */
  ghost predicate Copying(sb: Super, s: Fs, t: Fs, touched: set<nat>, i: nat, off: nat, tot: nat, src: seq<int>) {
    && Sound(sb, t) && Writing(sb, s.blocks, s.inodes, t.blocks, t.inodes, i, off, tot, src)
    && (sb.size <= BPB ==> Budget(sb, s.logged, t.logged, touched, t.inodes[i].addrs[NDIRECT], Rounds(off, tot)))
    && Accounts(s, t, i, off + tot) && t.disk == s.disk
  }

  lemma CopyingStart(sb: Super, s: Fs, i: nat, off: nat, src: seq<int>)
    requires Sound(sb, s) && i < |s.inodes| && off + |src| <= MAXFILE * BSIZE
    ensures Copying(sb, s, s, {}, i, off, 0, src)
  {
    StartWriting(sb, s.blocks, s.inodes, i, off, src);
    AccountedRefl(s.blocks, s.logged, s.owner, i, off);
  }

  lemma CopyingNext(sb: Super, s: Fs, t: Fs, u: Fs, touched: set<nat>, i: nat, off: nat, tot: nat, m: nat,
                    src: seq<int>, a: nat)
    requires Copying(sb, s, t, touched, i, off, tot, src) && tot + m <= |src| && 0 < m
    requires (off + tot) % BSIZE + m <= BSIZE
    requires ChunkDone(sb, t, u, i, off + tot, src[tot..tot + m], a) && (tot == 0 || (off + tot) % BSIZE == 0)
    ensures Copying(sb, s, u, touched + {a}, i, off, tot + m, src)
  {
    RoundsStep(off, tot, m);
    ChunkedRound(sb, s.blocks, s.inodes, s.logged, t.blocks, t.inodes, t.logged, u.blocks, u.inodes, u.logged, touched,
                 i, off, tot, m, src, a);
    AccountedTrans(s.blocks, s.logged, s.owner, t.blocks, t.logged, t.owner, u.blocks, u.logged, u.owner,
                   i, off + tot, (off + tot) / BSIZE * BSIZE + 1, off + tot + m);
  }

  /** writei took s to t: src lies over inode i's file from off on, everything that changed is
      logged and fits the log, and a file without holes still has none. */
  ghost predicate Laid(sb: Super, s: Fs, t: Fs, i: nat, off: nat, src: seq<int>) {
    && Sound(sb, t) && FilesWritten(sb, s.blocks, s.inodes, t.blocks, t.inodes, i, off, src)
    && LogFits(sb, s.logged, t.logged, off, |src|)
    && Accounts(s, t, i, off + |src|) && Flushed(sb, s, t, i, |src|)
    && (MappedBelow(s.blocks, s.inodes[i]) ==> MappedBelow(t.blocks, t.inodes[i]))
  }

  lemma CopiedLaid(sb: Super, s: Fs, t: Fs, touched: set<nat>, i: nat, off: nat, src: seq<int>)
    requires Copying(sb, s, t, touched, i, off, |src|, src) && off <= s.inodes[i].size <= MAXFILE * BSIZE
    requires (src == [] ==> t.inodes == s.inodes) && i < |s.disk|
    ensures Laid(sb, s, Iupdated(sb, t, i, Resized(t.inodes[i], off, |src|), |src|), i, off, src)
  {
    var u := Iupdated(sb, t, i, Resized(t.inodes[i], off, |src|), |src|);
    AfterCopy(sb, s.blocks, s.inodes, s.logged, t.blocks, t.inodes, t.logged, t.owner, touched, i, off, src);
    if MappedBelow(s.blocks, s.inodes[i]) { CopyMaps(sb, s.blocks, s.inodes, t.blocks, t.inodes, i, off, src); }
    forall b: nat ensures DiffLogged(s.blocks, u.blocks, u.logged, b) {
      assert DiffLogged(s.blocks, t.blocks, t.logged, b);
    }
  }

  lemma WritingRound(sb: Super, b0: Blocks, i0: Inodes, b1: Blocks, i1: Inodes, b2: Blocks, i2: Inodes, i: nat,
                     off: nat, tot: nat, m: nat, src: seq<int>)
    requires Writing(sb, b0, i0, b1, i1, i, off, tot, src) && tot + m <= |src| && 0 < m
    requires (off + tot) % BSIZE + m <= BSIZE
    requires Shape(sb, b2, i2) && |i2| == |i1| && i2 == i1[i := i1[i].(addrs := i2[i].addrs)]
    requires Wrote(sb, b1, i1, b2, i2, i, off + tot, off + tot + m, src[tot..tot + m])
    requires Grows(b1, i1[i], b2, i2[i]) && SlotAddr(b2, i2[i], DataSlot((off + tot) / BSIZE)) != 0
    ensures Writing(sb, b0, i0, b2, i2, i, off, tot + m, src)
  {
    WroteTrans(sb, b0, i0, b1, i1, b2, i2, i, off, off + tot, m, src);
    GrowsTrans(b0, i0[i], b1, i1[i], b2, i2[i]);
    forall bn | off / BSIZE <= bn < MAXFILE && bn * BSIZE < off + tot + m
      ensures SlotAddr(b2, i2[i], DataSlot(bn)) != 0
    {
      if tot == 0 || bn * BSIZE >= off + tot {
        LastBlock(off + tot, m, bn);
      }
    }
  }

  lemma LastBlock(pos: nat, m: nat, bn: nat)
    requires pos % BSIZE + m <= BSIZE && bn * BSIZE < pos + m && (pos / BSIZE <= bn || pos <= bn * BSIZE)
    ensures bn == pos / BSIZE
  {
  }

  lemma GrowsTrans(b0: Blocks, ino0: Inode, b1: Blocks, ino1: Inode, b2: Blocks, ino2: Inode)
    requires Grows(b0, ino0, b1, ino1) && Grows(b1, ino1, b2, ino2)
    ensures Grows(b0, ino0, b2, ino2)
  {
  }

  lemma BudgetRound(sb: Super, log0: set<nat>, log1: set<nat>, log2: set<nat>, touched: set<nat>, ino1: Inode,
                    ino2: Inode, a: nat, ind: nat, rounds: nat)
    requires sb.Ok() && sb.size <= BPB && a < sb.size && |ino1.addrs| == |ino2.addrs| == NDIRECT + 1
    requires ino2.addrs[NDIRECT] < sb.size
    requires Budget(sb, log0, log1, touched, ino1.addrs[NDIRECT], rounds) && LogsOnly(sb, log1, log2, a, ind)
    requires ino1.addrs[NDIRECT] == 0 || ino2.addrs[NDIRECT] == ino1.addrs[NDIRECT]
    requires ind == 0 || ind == ino2.addrs[NDIRECT]
    ensures Budget(sb, log0, log2, touched + {a}, ino2.addrs[NDIRECT], rounds + 1)
  {
    OneBitmapBlock(sb, a);
    OneBitmapBlock(sb, ind);
  }

  lemma RoundsStep(off: nat, tot: nat, m: nat)
    requires (tot == 0 || (off + tot) % BSIZE == 0) && 0 < m && (off + tot) % BSIZE + m <= BSIZE
    ensures Rounds(off, tot + m) == Rounds(off, tot) + 1
  {
    if tot > 0 {
      assert (off + tot - 1) / BSIZE + 1 == (off + tot) / BSIZE;
    }
    assert (off + tot + m - 1) / BSIZE == (off + tot) / BSIZE;
  }

  lemma RoundsGrow(off: nat, a: nat, b: nat)
    requires a <= b
    ensures Rounds(off, a) <= Rounds(off, b)
  {
  }

  lemma OneBitmapBlock(sb: Super, b: nat)
    requires sb.size <= BPB && b < sb.size
    ensures BBlock(sb, b) == sb.bmapstart
  {
  }

  /** The effect of a writei on the files: its own is the old one with src laid over it, and
      every other inode and its contents are untouched. */
  ghost predicate FilesWritten(sb: Super, b0: Blocks, i0: Inodes, blocks: Blocks, inodes: Inodes, i: nat, off: nat,
                               src: seq<int>) {
    && Shape(sb, b0, i0) && Shape(sb, blocks, inodes) && i < |i0| == |inodes|
    && off <= i0[i].size <= MAXFILE * BSIZE && inodes[i].size <= MAXFILE * BSIZE
    && Contents(blocks, inodes[i]) == Overwrite(Contents(b0, i0[i]), off, src)
    && inodes[i] == i0[i].(size := inodes[i].size, addrs := inodes[i].addrs)
    && (forall j {:trigger OtherFile(sb, b0, i0, blocks, inodes, i, j)} :: OtherFile(sb, b0, i0, blocks, inodes, i, j))
  }

  /** Inode j, unless it is i, and its contents are untouched. */
  ghost predicate OtherFile(sb: Super, b0: Blocks, i0: Inodes, blocks: Blocks, inodes: Inodes, i: nat, j: nat)
    requires Shape(sb, b0, i0) && Shape(sb, blocks, inodes)
  {
    j < |inodes| && j != i ==>
      inodes[j] == i0[j] && (inodes[j].size <= MAXFILE * BSIZE ==> Contents(blocks, inodes[j]) == Contents(b0, i0[j]))
  }

  /** With one bitmap block, a write logs the data blocks it touches and at most three more. */
  ghost predicate LogFits(sb: Super, log0: set<nat>, logged: set<nat>, off: nat, n: nat) {
    sb.size <= BPB ==> |logged - log0| <= Rounds(off, n) + 3
  }

  /** The panics of balloc, bfree, bmap and log_write. */
  datatype Halt = OutOfBlocks | FreeingFree | OutOfRange | TooBig | OutsideTrans

  datatype Outcome<T> = Done(value: T) | Stop(why: Halt)
  datatype WriteResult = Written(n: nat) | Refused | Panicked(why: Halt)

  /** What log_write does on a log of nlog blocks that holds n. */
  function LogHalt(nlog: nat, n: nat, open: bool): Option<Halt> {
    if NoRoom(nlog, n) then Some(TooBig) else if !open then Some(OutsideTrans) else None
  }

  /** The state in which balloc or log_write panics. */
  ghost predicate Halted(sb: Super, nlog: nat, open: bool, t: Fs, why: Halt) {
    match why
    case OutOfBlocks => DiskFull(sb, t.blocks)
    case TooBig | OutsideTrans => LogHalt(nlog, |t.logged|, open) == Some(why)
    case _ => false
  }

  function IndirectOf(s: Fs, i: nat): nat {
    if i < |s.inodes| && |s.inodes[i].addrs| == NDIRECT + 1 then s.inodes[i].addrs[NDIRECT] else 0
  }

  /** bmap, or a round of readi or writei, led from s to a panic in t.  With one bitmap block it had
      logged that, the indirect block, and one more at most. */
  ghost predicate StopsAt(sb: Super, nlog: nat, open: bool, s: Fs, t: Fs, i: nat, why: Halt) {
    && Halted(sb, nlog, open, t, why)
    && (IndirectOf(s, i) == 0 || IndirectOf(t, i) == IndirectOf(s, i))
    && (sb.size <= BPB ==> |t.logged - s.logged - {sb.bmapstart, IndirectOf(t, i)}| <= 1)
  }

  /** writei of n bytes at off led from s to a panic in t. */
  ghost predicate WriteStops(sb: Super, nlog: nat, open: bool, s: Fs, t: Fs, off: nat, n: nat, why: Halt) {
    Halted(sb, nlog, open, t, why) && (sb.size <= BPB ==> |t.logged - s.logged| <= Rounds(off, n) + 2)
  }

  lemma CopyStops(sb: Super, nlog: nat, open: bool, s: Fs, t: Fs, u: Fs, touched: set<nat>, i: nat, off: nat, tot: nat,
                  m: nat, src: seq<int>, why: Halt)
    requires Copying(sb, s, t, touched, i, off, tot, src) && StopsAt(sb, nlog, open, t, u, i, why)
    requires 0 < m && tot + m <= |src| && (off + tot) % BSIZE + m <= BSIZE && (tot == 0 || (off + tot) % BSIZE == 0)
    ensures WriteStops(sb, nlog, open, s, u, off, |src|, why)
  {
    RoundsStep(off, tot, m);
    RoundsGrow(off, tot + m, |src|);
    if sb.size <= BPB {
      var ind, extra := IndirectOf(u, i), u.logged - t.logged - {sb.bmapstart, IndirectOf(u, i)};
      assert u.logged - s.logged <= touched + {sb.bmapstart, ind} + extra;
      SubsetSize(u.logged - s.logged, touched + {sb.bmapstart, ind} + extra);
    }
  }

  /** The copying loop is done and only the inode is left to log. */
  lemma TailStops(sb: Super, nlog: nat, open: bool, s: Fs, t: Fs, u: Fs, touched: set<nat>, i: nat, off: nat,
                  src: seq<int>, why: Halt)
    requires Copying(sb, s, t, touched, i, off, |src|, src) && u.logged == t.logged && Halted(sb, nlog, open, u, why)
    ensures WriteStops(sb, nlog, open, s, u, off, |src|, why)
  {
    if sb.size <= BPB {
      var more := touched + {sb.bmapstart, t.inodes[i].addrs[NDIRECT]};
      assert u.logged - s.logged <= more;
      SubsetSize(u.logged - s.logged, more);
    }
  }

  /** file with src laid over it from off on, off being within the file or at its end. */
  function Overwrite(file: seq<int>, off: nat, src: seq<int>): seq<int>
    requires off <= |file|
  {
    file[..off] + src + if off + |src| < |file| then file[off + |src|..] else []
  }

  /** What readi returns of a file: n bytes from off, cut at the end; nothing when off is past the end
      or the sum wraps. */
  function ReadOut(file: seq<int>, off: nat, n: nat): seq<int> {
    if off > |file| || off + n >= LIMIT32 then []
    else file[off..if off + n > |file| then |file| else off + n]
  }

  /** The log after iupdate, which writei skips for an empty write. */
  function WithInode(sb: Super, logged: set<nat>, i: nat, n: nat): set<nat> {
    if n > 0 then logged + {i / IPB + sb.inodestart} else logged
  }

  /** The state after the tail of a write of n bytes that leaves inode i as ino. */
  function Iupdated(sb: Super, t: Fs, i: nat, ino: Inode, n: nat): Fs
    requires i < |t.inodes| && i < |t.disk|
  {
    t.(inodes := t.inodes[i := ino], disk := if n > 0 then t.disk[i := ino] else t.disk,
       logged := WithInode(sb, t.logged, i, n))
  }

  /** The inode has reached its block, which is logged; a write of nothing leaves inodes alone. */
  ghost predicate Flushed(sb: Super, s: Fs, t: Fs, i: nat, n: nat) {
    && i < |s.disk| && i < |t.inodes|
    && (n == 0 ==> t.disk == s.disk && t.inodes == s.inodes)
    && (n > 0 ==> t.disk == s.disk[i := t.inodes[i]] && i / IPB + sb.inodestart in t.logged)
  }

  function Resized(ino: Inode, off: nat, n: nat): Inode {
    ino.(size := if n > 0 && off + n > ino.size then off + n else ino.size)
  }

  /** Slots and bytes do not depend on an inode's size field. */
  lemma ResizeOwns(sb: Super, blocks: Blocks, inodes: Inodes, owner: map<nat, Slot>, i: nat, size: nat)
    requires Owns(sb, blocks, inodes, owner, {}, -1, 0) && i < |inodes|
    ensures Owns(sb, blocks, inodes[i := inodes[i].(size := size)], owner, {}, -1, 0)
  {
    var inodes' := inodes[i := inodes[i].(size := size)];
    assert forall j, k :: 0 <= j < |inodes| && 0 <= k < NSLOTS ==>
      SlotAddr(blocks, inodes'[j], k) == SlotAddr(blocks, inodes[j], k);
  }

  lemma AfterCopy(sb: Super, b0: Blocks, i0: Inodes, log0: set<nat>, blocks: Blocks, inodes: Inodes, logged: set<nat>,
                  owner: map<nat, Slot>, touched: set<nat>, i: nat, off: nat, src: seq<int>)
    requires Writing(sb, b0, i0, blocks, inodes, i, off, |src|, src) && Owns(sb, blocks, inodes, owner, {}, -1, 0)
    requires off <= i0[i].size <= MAXFILE * BSIZE
    requires sb.size <= BPB ==> Budget(sb, log0, logged, touched, inodes[i].addrs[NDIRECT], Rounds(off, |src|))
    ensures Owns(sb, blocks, inodes[i := Resized(inodes[i], off, |src|)], owner, {}, -1, 0)
    ensures FilesWritten(sb, b0, i0, blocks, inodes[i := Resized(inodes[i], off, |src|)], i, off, src)
    ensures LogFits(sb, log0, WithInode(sb, logged, i, |src|), off, |src|)
  {
    ResizeOwns(sb, blocks, inodes, owner, i, Resized(inodes[i], off, |src|).size);
    AfterCopyFiles(sb, b0, i0, blocks, inodes, i, off, src);
    if sb.size <= BPB {
      BudgetSize(sb, log0, logged, touched, inodes[i].addrs[NDIRECT], Rounds(off, |src|), i / IPB + sb.inodestart);
      BudgetSize(sb, log0, logged + {i / IPB + sb.inodestart}, touched, inodes[i].addrs[NDIRECT], Rounds(off, |src|),
                 i / IPB + sb.inodestart);
    }
  }

  lemma AfterCopyFiles(sb: Super, b0: Blocks, i0: Inodes, blocks: Blocks, inodes: Inodes, i: nat, off: nat,
                       src: seq<int>)
    requires Writing(sb, b0, i0, blocks, inodes, i, off, |src|, src) && off <= i0[i].size <= MAXFILE * BSIZE
    ensures FilesWritten(sb, b0, i0, blocks, inodes[i := Resized(inodes[i], off, |src|)], i, off, src)
  {
    CopyContents(sb, b0, i0, blocks, inodes, i, off, src);
  }

  lemma CopyMaps(sb: Super, b0: Blocks, i0: Inodes, blocks: Blocks, inodes: Inodes, i: nat, off: nat, src: seq<int>)
    requires Writing(sb, b0, i0, blocks, inodes, i, off, |src|, src) && MappedBelow(b0, i0[i]) && off <= i0[i].size
    ensures MappedBelow(blocks, Resized(inodes[i], off, |src|))
  {
    var ino := Resized(inodes[i], off, |src|);
    forall bn | 0 <= bn < MAXFILE && bn * BSIZE < ino.size ensures SlotAddr(blocks, ino, DataSlot(bn)) != 0 {
      assert SlotAddr(blocks, ino, DataSlot(bn)) == SlotAddr(blocks, inodes[i], DataSlot(bn));
      if bn * BSIZE < i0[i].size {
        assert SlotAddr(b0, i0[i], DataSlot(bn)) != 0;
      } else {
        AtLeastBlock(off, bn);
      }
    }
  }

  lemma AtLeastBlock(off: nat, bn: nat)
    requires off <= bn * BSIZE
    ensures off / BSIZE <= bn
  {
  }

  lemma CopyContents(sb: Super, b0: Blocks, i0: Inodes, blocks: Blocks, inodes: Inodes, i: nat, off: nat, src: seq<int>)
    requires Writing(sb, b0, i0, blocks, inodes, i, off, |src|, src) && i0[i].size <= MAXFILE * BSIZE
    requires off <= i0[i].size
    ensures Contents(blocks, Resized(inodes[i], off, |src|)) == Overwrite(Contents(b0, i0[i]), off, src)
    ensures forall j :: 0 <= j < |inodes| && j != i ==>
              && inodes[j] == i0[j]
              && (inodes[j].size <= MAXFILE * BSIZE ==> Contents(blocks, inodes[j]) == Contents(b0, i0[j]))
  {
    var ino := Resized(inodes[i], off, |src|);
    var got, was := Contents(blocks, ino), Contents(b0, i0[i]);
    var want := Overwrite(was, off, src);
    assert |got| == |want|;
    forall x | 0 <= x < |got| ensures got[x] == want[x] {
      assert ByteAt(blocks, ino, x) == ByteAt(blocks, inodes[i], x);
      OverwriteAt(was, off, src, x);
    }
  }

  lemma OverwriteAt(file: seq<int>, off: nat, src: seq<int>, x: nat)
    requires off <= |file| && x < |Overwrite(file, off, src)|
    ensures Overwrite(file, off, src)[x] ==
      if off <= x < off + |src| then src[x - off] else if x < |file| then file[x] else Overwrite(file, off, src)[x]
    ensures x < |file| || off <= x < off + |src|
  {
  }

  lemma StartWriting(sb: Super, blocks: Blocks, inodes: Inodes, i: nat, off: nat, src: seq<int>)
    requires Shape(sb, blocks, inodes) && i < |inodes| && off + |src| <= MAXFILE * BSIZE
    ensures Writing(sb, blocks, inodes, blocks, inodes, i, off, 0, src)
  {
    assert inodes[i].(addrs := inodes[i].addrs) == inodes[i];
  }

  lemma IndirectStays(b1: Blocks, ino1: Inode, b2: Blocks, ino2: Inode)
    requires Grows(b1, ino1, b2, ino2)
    ensures ino1.addrs[NDIRECT] == 0 || ino2.addrs[NDIRECT] == ino1.addrs[NDIRECT]
  {
    assert SlotAddr(b1, ino1, NDIRECT) == ino1.addrs[NDIRECT] && SlotAddr(b2, ino2, NDIRECT) == ino2.addrs[NDIRECT];
  }

  lemma BudgetSize(sb: Super, log0: set<nat>, logged: set<nat>, touched: set<nat>, ind: nat, rounds: nat, iblock: nat)
    requires |touched| <= rounds
    requires logged <= log0 + touched + {sb.bmapstart} + (if ind == 0 then {} else {ind}) + {iblock}
    ensures |logged - log0| <= rounds + 3
  {
    var extra := {sb.bmapstart, ind, iblock};
    assert logged - log0 <= touched + extra;
    SubsetSize(logged - log0, touched + extra);
    SubsetSize(touched + extra, touched + extra);
    assert |touched + extra| <= |touched| + |extra|;
    SubsetSize(extra, {sb.bmapstart} + {ind} + {iblock});
  }

  lemma {:induction false} SubsetSize(a: set<nat>, b: set<nat>)
    requires a <= b
    ensures |a| <= |b|
  {
    if a != {} {
      var x :| x in a;
      SubsetSize(a - {x}, b - {x});
    }
  }

  /** What one round of writei does, given what bmap did before it. */
  lemma ChunkWritten(sb: Super, b0: Blocks, i0: Inodes, blocks: Blocks, inodes: Inodes, owner: map<nat, Slot>, i: nat,
                     off: nat, bytes: seq<int>)
    requires Extended(sb, b0, i0, blocks, inodes, i) && Owns(sb, blocks, inodes, owner, {}, -1, 0)
    requires 0 < |bytes| && off % BSIZE + |bytes| <= BSIZE && off + |bytes| <= MAXFILE * BSIZE
    requires forall k :: 0 <= k < |bytes| ==> 0 <= bytes[k] < 256
    requires SlotAddr(blocks, inodes[i], DataSlot(off / BSIZE)) != 0
    ensures var a := SlotAddr(blocks, inodes[i], DataSlot(off / BSIZE));
            && sb.nmeta <= a < sb.size && |blocks[a]| == BSIZE
            && var b2 := blocks[a := Splice(blocks[a], off % BSIZE, bytes)];
            && Owns(sb, b2, inodes, owner, {}, -1, 0)
            && Wrote(sb, b0, i0, b2, inodes, i, off, off + |bytes|, bytes)
            && Grows(b0, i0[i], b2, inodes[i])
            && SlotAddr(b2, inodes[i], DataSlot(off / BSIZE)) == a
  {
    var a := SlotAddr(blocks, inodes[i], DataSlot(off / BSIZE));
    SlotInRange(sb, blocks, inodes, owner, i, DataSlot(off / BSIZE));
    var bp := Splice(blocks[a], off % BSIZE, bytes);
    SpliceIsBlock(blocks[a], off % BSIZE, bytes);
    assert bytes[off - off..off - off + |bytes|] == bytes;
    WriteData(sb, blocks, inodes, owner, i, off / BSIZE, bp);
    WroteNothing(sb, b0, i0, blocks, inodes, i, off, bytes);
    WriteRound(sb, b0, i0, blocks, blocks[a := bp], inodes, i, off, off, |bytes|, bytes);
    DataSlotsKept(sb, blocks, inodes, owner, i, off / BSIZE, bp);
    GrowsSame(b0, i0[i], blocks, blocks[a := bp], inodes[i]);
  }

  lemma WroteNothing(sb: Super, b0: Blocks, i0: Inodes, blocks: Blocks, inodes: Inodes, i: nat, off: nat,
                     bytes: seq<int>)
    requires Shape(sb, b0, i0) && Shape(sb, blocks, inodes) && SameBytes(sb, b0, i0, blocks, inodes) && |i0| == |inodes|
    ensures Wrote(sb, b0, i0, blocks, inodes, i, off, off, bytes)
  {
  }

  lemma BlockOf(pos: nat, size: nat)
    requires pos < size <= MAXFILE * BSIZE
    ensures pos / BSIZE < MAXFILE && pos / BSIZE * BSIZE < size
  {
  }

  lemma SlotInRange(sb: Super, blocks: Blocks, inodes: Inodes, owner: map<nat, Slot>, i: nat, k: nat)
    requires Owns(sb, blocks, inodes, owner, {}, -1, 0) && i < |inodes| && k < NSLOTS
    requires SlotAddr(blocks, inodes[i], k) != 0
    ensures sb.nmeta <= SlotAddr(blocks, inodes[i], k) < sb.size && IsBlock(blocks[SlotAddr(blocks, inodes[i], k)])
  {
    assert Counts(i, k, -1, 0);
  }

  lemma ChunkIsSlice(blocks: Blocks, ino: Inode, pos: nat, m: nat)
    requires |ino.addrs| == NDIRECT + 1 && ino.addrs[NDIRECT] < |blocks| && |blocks[ino.addrs[NDIRECT]]| == BSIZE
    requires ino.size <= MAXFILE * BSIZE && pos + m <= ino.size && pos < ino.size && pos % BSIZE + m <= BSIZE
    requires 0 < SlotAddr(blocks, ino, DataSlot(pos / BSIZE)) < |blocks|
    requires |blocks[SlotAddr(blocks, ino, DataSlot(pos / BSIZE))]| == BSIZE
    ensures blocks[SlotAddr(blocks, ino, DataSlot(pos / BSIZE))][pos % BSIZE..pos % BSIZE + m] ==
      Contents(blocks, ino)[pos..pos + m]
  {
    var got := blocks[SlotAddr(blocks, ino, DataSlot(pos / BSIZE))][pos % BSIZE..pos % BSIZE + m];
    var want := Contents(blocks, ino)[pos..pos + m];
    forall k | 0 <= k < m ensures got[k] == want[k] {
      WithinBlock(pos, k);
    }
  }

  lemma WithinBlock(pos: nat, k: nat)
    requires pos % BSIZE + k < BSIZE
    ensures (pos + k) / BSIZE == pos / BSIZE && (pos + k) % BSIZE == pos % BSIZE + k
  {
  }

  lemma DataSlotsKept(sb: Super, blocks: Blocks, inodes: Inodes, owner: map<nat, Slot>, i: nat, bn: nat, v: Block)
    requires Owns(sb, blocks, inodes, owner, {}, -1, 0) && i < |inodes| && bn < MAXFILE && |v| == BSIZE
    requires 0 < SlotAddr(blocks, inodes[i], DataSlot(bn)) < sb.size
    ensures SameSlots(blocks, blocks[SlotAddr(blocks, inodes[i], DataSlot(bn)) := v], inodes[i])
  {
    var a := SlotAddr(blocks, inodes[i], DataSlot(bn));
    assert Counts(i, DataSlot(bn), -1, 0);
    OwnedNotIndirect(sb, blocks, inodes, owner, -1, 0, a);
    WriteKeepsSlots(blocks, inodes[i], a, v);
  }

  lemma GrowsSame(b0: Blocks, ino0: Inode, b1: Blocks, b2: Blocks, ino1: Inode)
    requires Grows(b0, ino0, b1, ino1) && SameSlots(b1, b2, ino1)
    ensures Grows(b0, ino0, b2, ino1)
  {
  }

  /** Bmap logs at most a bitmap block for each of the two blocks it may allocate, and those. */
  ghost predicate LogsOnly(sb: Super, was: set<nat>, now: set<nat>, a: nat, ind: nat) {
    now <= was + {BBlock(sb, a), a} + if ind == 0 then {} else {BBlock(sb, ind), ind}
  }

  // ----- Files as byte arrays -----

  ghost predicate MappedBelow(blocks: Blocks, ino: Inode)
    requires |ino.addrs| == NDIRECT + 1 && ino.addrs[NDIRECT] < |blocks| && |blocks[ino.addrs[NDIRECT]]| == BSIZE
  {
    ino.size <= MAXFILE * BSIZE &&
    forall bn :: 0 <= bn < MAXFILE && bn * BSIZE < ino.size ==> SlotAddr(blocks, ino, DataSlot(bn)) != 0
  }

  ghost predicate MappedAt(sb: Super, blocks: Blocks, inodes: Inodes, j: nat)
    requires Shape(sb, blocks, inodes)
  {
    j < |inodes| ==> MappedBelow(blocks, inodes[j])
  }

  /** No file has a hole. */
  ghost predicate AllMapped(sb: Super, blocks: Blocks, inodes: Inodes) {
    Shape(sb, blocks, inodes) && forall j {:trigger MappedAt(sb, blocks, inodes, j)} :: MappedAt(sb, blocks, inodes, j)
  }

  /** An operation on inode i that takes no block from any other leaves no hole in any other. */
  lemma AllMappedKept(sb: Super, b0: Blocks, i0: Inodes, o0: map<nat, Slot>, blocks: Blocks, inodes: Inodes,
                      o: map<nat, Slot>, i: nat)
    requires Shape(sb, b0, i0) && Claimed(sb, b0, i0, o0, -1, 0) && Shape(sb, blocks, inodes)
    requires Backed(sb, blocks, inodes, o, -1, 0)
    requires i < |i0| == |inodes|
    requires forall a {:trigger OwnerKept(o0, o, a)} :: a in o0 && o0[a].0 != i ==> OwnerKept(o0, o, a)
    requires forall j :: 0 <= j < |i0| && j != i ==> inodes[j] == i0[j]
    requires AllMapped(sb, b0, i0) && MappedBelow(blocks, inodes[i])
    ensures AllMapped(sb, blocks, inodes)
  {
    forall j: nat ensures MappedAt(sb, blocks, inodes, j) {
      if j < |inodes| && j != i {
        assert MappedAt(sb, b0, i0, j);
        forall bn | 0 <= bn < MAXFILE && bn * BSIZE < inodes[j].size
          ensures SlotAddr(blocks, inodes[j], DataSlot(bn)) != 0
        {
          SlotStays(sb, b0, i0, o0, blocks, inodes, o, j, DataSlot(bn));
        }
      }
    }
  }

  /** Gaining blocks changes no contents and opens no hole. */
  lemma ExtendedContents(sb: Super, b0: Blocks, i0: Inodes, blocks: Blocks, inodes: Inodes, i: nat, j: nat)
    requires Extended(sb, b0, i0, blocks, inodes, i) && j < |i0| && i0[j].size <= MAXFILE * BSIZE
    ensures inodes[j].size == i0[j].size && Contents(blocks, inodes[j]) == Contents(b0, i0[j])
  {
  }

  lemma ExtendedMapped(sb: Super, b0: Blocks, i0: Inodes, blocks: Blocks, inodes: Inodes, i: nat)
    requires Extended(sb, b0, i0, blocks, inodes, i) && MappedBelow(b0, i0[i])
    ensures MappedBelow(blocks, inodes[i])
  {
  }

  /** The contents of a file. */
  function Contents(blocks: Blocks, ino: Inode): (r: seq<int>)
    requires |ino.addrs| == NDIRECT + 1 && ino.addrs[NDIRECT] < |blocks| && |blocks[ino.addrs[NDIRECT]]| == BSIZE
    requires ino.size <= MAXFILE * BSIZE
    ensures |r| == ino.size && forall x :: 0 <= x < ino.size ==> r[x] == ByteAt(blocks, ino, x)
  {
    seq(ino.size, x requires 0 <= x < ino.size => ByteAt(blocks, ino, x))
  }

  lemma WroteTrans(sb: Super, b0: Blocks, i0: Inodes, b1: Blocks, i1: Inodes, b2: Blocks, i2: Inodes,
                   i: nat, from: nat, off: nat, m: nat, src: seq<int>)
    requires Shape(sb, b0, i0) && Shape(sb, b1, i1) && Shape(sb, b2, i2)
    requires Wrote(sb, b0, i0, b1, i1, i, from, off, src) && off + m <= from + |src|
    requires Wrote(sb, b1, i1, b2, i2, i, off, off + m, src[off - from..off - from + m])
    ensures Wrote(sb, b0, i0, b2, i2, i, from, off + m, src)
  {
  }

  lemma BitPosition(b: nat, bi: nat)
    requires b % BPB == 0 && bi < BPB
    ensures (b + bi) / BPB == b / BPB && (b + bi) % BPB == bi && (b + bi) % 8 == bi % 8
  {
    assert b == b / BPB * BPB;
  }
}
