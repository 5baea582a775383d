/** What readi does where the file has holes (kernel/fs.c). */
module FsRead {
  import opened FsBytes
  import opened FsBlocks
  import opened FsSlots
  import opened FsDisk
  import opened FsWrite
  import opened FsMap

  /** File block bn has a byte of [from, to). */
  predicate Touches(from: nat, to: nat, bn: nat) { from < to && bn * BSIZE < to && from < (bn + 1) * BSIZE }

  /** Where a read of n bytes at off ends: at the end of the file, or at once if it starts past it. */
  function ReadEnd(size: nat, off: nat, n: nat): nat {
    if off > size || off + n >= LIMIT32 then off else if off + n > size then size else off + n
  }

  /** Every file block of [from, to) is mapped. */
  ghost predicate MappedIn(blocks: Blocks, ino: Inode, from: nat, to: nat)
    requires |ino.addrs| == NDIRECT + 1 && ino.addrs[NDIRECT] < |blocks| && |blocks[ino.addrs[NDIRECT]]| == BSIZE
  {
    forall bn {:trigger Touches(from, to, bn)} ::
      0 <= bn < MAXFILE && Touches(from, to, bn) ==> SlotAddr(blocks, ino, DataSlot(bn)) != 0
  }

  /** Every direct address [from, to) uses is there, and the indirect pointer if it uses that. */
  ghost predicate AddrsIn(ino: Inode, from: nat, to: nat)
    requires |ino.addrs| == NDIRECT + 1
  {
    forall bn {:trigger Touches(from, to, bn)} :: 0 <= bn < MAXFILE && Touches(from, to, bn) ==> AddrThere(ino, bn)
  }

  /** One more chunk touches one more block. */
  lemma TouchesNext(off: nat, pos: nat, m: nat, bn: nat)
    requires off <= pos && 0 < m && pos % BSIZE + m <= BSIZE
    ensures Touches(off, pos + m, bn) <==> Touches(off, pos, bn) || bn == pos / BSIZE
  {
  }

  /** readi of inode i has gone n bytes from off and led from s to t.  Nothing has changed if all of it
      was mapped, as it must be outside a transaction, and the inode has changed exactly if an address was missing. */
  ghost predicate Reading(sb: Super, open: bool, s: Fs, t: Fs, i: nat, off: nat, n: nat) {
    && i < |s.inodes| && Gained(sb, s, t, i, s.inodes[i].size)
    && (!open ==> MappedIn(s.blocks, s.inodes[i], off, off + n))
    && (MappedIn(s.blocks, s.inodes[i], off, off + n) ==> t == s)
    && (t.inodes == s.inodes <==> AddrsIn(s.inodes[i], off, off + n))
  }

  /** One round of readi, at file block bn, led from s to t. */
  ghost predicate ChunkRead(sb: Super, open: bool, s: Fs, t: Fs, i: nat, bn: nat) {
    && i < |s.inodes| && bn < MAXFILE && Gained(sb, s, t, i, s.inodes[i].size)
    && (!open ==> SlotAddr(s.blocks, s.inodes[i], DataSlot(bn)) != 0)
    && (SlotAddr(s.blocks, s.inodes[i], DataSlot(bn)) != 0 ==> t == s)
    && (t.inodes == s.inodes <==> AddrThere(s.inodes[i], bn))
  }

  lemma ReadingStart(sb: Super, open: bool, s: Fs, i: nat, off: nat)
    requires Sound(sb, s) && i < |s.inodes|
    ensures Reading(sb, open, s, s, i, off, 0)
  {
    GainedRefl(sb, s, i, s.inodes[i].size);
  }

  /** Inodes that only gain addresses do not come back to what they were. */
  lemma NoWayBack(sb: Super, s: Fs, t: Fs, u: Fs, i: nat)
    requires Extended(sb, s.blocks, s.inodes, t.blocks, t.inodes, i)
    requires Extended(sb, t.blocks, t.inodes, u.blocks, u.inodes, i)
    ensures u.inodes == s.inodes ==> t.inodes == s.inodes
  {
    if u.inodes == s.inodes {
      forall k | 0 <= k <= NDIRECT ensures t.inodes[i].addrs[k] == s.inodes[i].addrs[k] {
        assert SlotAddr(s.blocks, s.inodes[i], k) == s.inodes[i].addrs[k];
        assert SlotAddr(t.blocks, t.inodes[i], k) == t.inodes[i].addrs[k];
        assert SlotAddr(u.blocks, u.inodes[i], k) == u.inodes[i].addrs[k];
      }
      assert t.inodes[i].addrs == s.inodes[i].addrs;
    }
  }

  lemma InMore(blocks: Blocks, ino: Inode, off: nat, pos: nat, m: nat)
    requires |ino.addrs| == NDIRECT + 1 && ino.addrs[NDIRECT] < |blocks| && |blocks[ino.addrs[NDIRECT]]| == BSIZE
    requires off <= pos && 0 < m && pos % BSIZE + m <= BSIZE && pos / BSIZE < MAXFILE
    ensures MappedIn(blocks, ino, off, pos + m) <==>
      MappedIn(blocks, ino, off, pos) && SlotAddr(blocks, ino, DataSlot(pos / BSIZE)) != 0
    ensures AddrsIn(ino, off, pos + m) <==> AddrsIn(ino, off, pos) && AddrThere(ino, pos / BSIZE)
  {
    var here := pos / BSIZE;
    assert Touches(off, pos + m, here);
    forall bn | 0 <= bn < MAXFILE && Touches(off, pos, bn) ensures Touches(off, pos + m, bn) {
      TouchesNext(off, pos, m, bn);
    }
    forall bn | 0 <= bn < MAXFILE && Touches(off, pos + m, bn)
      ensures MappedIn(blocks, ino, off, pos) && SlotAddr(blocks, ino, DataSlot(here)) != 0 ==>
        SlotAddr(blocks, ino, DataSlot(bn)) != 0
      ensures AddrsIn(ino, off, pos) && AddrThere(ino, here) ==> AddrThere(ino, bn)
    {
      TouchesNext(off, pos, m, bn);
    }
  }

  lemma ReadingNext(sb: Super, open: bool, s: Fs, t: Fs, u: Fs, i: nat, off: nat, n: nat, m: nat)
    requires Reading(sb, open, s, t, i, off, n) && ChunkRead(sb, open, t, u, i, (off + n) / BSIZE)
    requires 0 < m && (off + n) % BSIZE + m <= BSIZE && off + n + m <= MAXFILE * BSIZE
    ensures Reading(sb, open, s, u, i, off, n + m)
  {
    var size := s.inodes[i].size;
    GainedTrans(sb, s, t, u, i, size, size, size);
    InMore(s.blocks, s.inodes[i], off, off + n, m);
    NoWayBack(sb, s, t, u, i);
  }

  /** The read has got dst. */
  ghost predicate Got(sb: Super, open: bool, s: Fs, t: Fs, i: nat, off: nat, dst: seq<int>) {
    && i < |s.inodes| && off + |dst| <= s.inodes[i].size <= MAXFILE * BSIZE && Shape(sb, s.blocks, s.inodes)
    && Reading(sb, open, s, t, i, off, |dst|) && dst == Contents(s.blocks, s.inodes[i])[off..off + |dst|]
  }

  /** A read of `want` bytes that has got n, some but not all, goes on past its first block. */
  predicate Paced(off: nat, want: nat, n: nat) { n == 0 || n == want || off % BSIZE + want > BSIZE }

  lemma PacedNext(off: nat, want: nat, n: nat, m: nat)
    requires Paced(off, want, n) && 0 < m && n < n + m <= want && (n + m == want || (off + n + m) % BSIZE == 0)
    ensures Paced(off, want, n + m)
  {
  }

  /** One round of readi at pos led from s to t. */
  ghost predicate ChunkGot(sb: Super, nlog: nat, open: bool, s: Fs, t: Fs, i: nat, pos: nat, m: nat,
                           r: Outcome<seq<int>>) {
    && Shape(sb, s.blocks, s.inodes) && i < |s.inodes| && pos + m <= s.inodes[i].size <= MAXFILE * BSIZE
    && match r
       case Done(bytes) =>
         ChunkRead(sb, open, s, t, i, pos / BSIZE) && bytes == Contents(s.blocks, s.inodes[i])[pos..pos + m]
       case Stop(why) => ChunkStops(sb, nlog, open, s, t, i, pos / BSIZE, why)
  }

  /** A round of the loop led from t, with dst got since s, to u. */
  ghost predicate RoundGot(sb: Super, nlog: nat, open: bool, s: Fs, u: Fs, i: nat, off: nat, want: nat, dst: seq<int>,
                           r: Outcome<seq<int>>) {
    match r
    case Done(more) => |dst| < |more| <= want && Paced(off, want, |more|) && Got(sb, open, s, u, i, off, more)
    case Stop(why) => RangeStops(sb, nlog, open, s, u, i, off, want, why)
  }

  lemma RoundEnds(sb: Super, nlog: nat, open: bool, s: Fs, t: Fs, u: Fs, i: nat, off: nat, want: nat, dst: seq<int>,
                  r: Outcome<seq<int>>)
    requires Got(sb, open, s, t, i, off, dst) && |dst| < want && off + want <= s.inodes[i].size
    requires Paced(off, want, |dst|)
    requires ChunkGot(sb, nlog, open, t, u, i, off + |dst|, ChunkLen(off + |dst|, want - |dst|), r)
    ensures RoundGot(sb, nlog, open, s, u, i, off, want, dst, if r.Done? then Done(dst + r.value) else r)
  {
    var m := ChunkLen(off + |dst|, want - |dst|);
    if r.Stop? {
      RoundStops(sb, nlog, open, s, t, u, i, off, |dst|, want, m, r.why);
    } else {
      PacedNext(off, want, |dst|, m);
      GotMore(sb, open, s, t, u, i, off, dst, r.value);
    }
  }

  lemma GotSize(sb: Super, open: bool, s: Fs, t: Fs, i: nat, off: nat, dst: seq<int>)
    requires Got(sb, open, s, t, i, off, dst)
    ensures Sound(sb, t) && i < |t.inodes| && t.inodes[i].size == s.inodes[i].size
  {
  }

  lemma GotMore(sb: Super, open: bool, s: Fs, t: Fs, u: Fs, i: nat, off: nat, dst: seq<int>, bytes: seq<int>)
    requires Got(sb, open, s, t, i, off, dst) && ChunkRead(sb, open, t, u, i, (off + |dst|) / BSIZE)
    requires 0 < |bytes| && (off + |dst|) % BSIZE + |bytes| <= BSIZE && off + |dst| + |bytes| <= s.inodes[i].size
    requires bytes == Contents(t.blocks, t.inodes[i])[off + |dst|..off + |dst| + |bytes|]
    ensures Got(sb, open, s, u, i, off, dst + bytes)
  {
    ReadingNext(sb, open, s, t, u, i, off, |dst|, |bytes|);
    ReadMore(sb, s, t, u, i, off, dst, bytes);
  }

  /** readi has copied dst and got m more bytes. */
  lemma ReadMore(sb: Super, s: Fs, t: Fs, u: Fs, i: nat, off: nat, dst: seq<int>, bytes: seq<int>)
    requires i < |s.inodes| && s.inodes[i].size <= MAXFILE * BSIZE
    requires Gained(sb, s, t, i, s.inodes[i].size) && Gained(sb, t, u, i, s.inodes[i].size)
    requires off + |dst| + |bytes| <= s.inodes[i].size == t.inodes[i].size
    requires dst == Contents(s.blocks, s.inodes[i])[off..off + |dst|]
    requires bytes == Contents(t.blocks, t.inodes[i])[off + |dst|..off + |dst| + |bytes|]
    ensures Gained(sb, s, u, i, s.inodes[i].size)
    ensures dst + bytes == Contents(s.blocks, s.inodes[i])[off..off + |dst + bytes|]
  {
    GainedTrans(sb, s, t, u, i, s.inodes[i].size, s.inodes[i].size, s.inodes[i].size);
    ExtendedContents(sb, s.blocks, s.inodes, t.blocks, t.inodes, i, i);
    SliceJoin(Contents(s.blocks, s.inodes[i]), off, off + |dst|, off + |dst| + |bytes|);
  }


  // ----- The whole read -----

  /** The blocks a read of n bytes at off uses below the size are mapped. */
  ghost predicate NoHole(blocks: Blocks, ino: Inode, off: nat, n: nat)
    requires |ino.addrs| == NDIRECT + 1 && ino.addrs[NDIRECT] < |blocks| && |blocks[ino.addrs[NDIRECT]]| == BSIZE
  {
    MappedIn(blocks, ino, off, ReadEnd(ino.size, off, n))
  }

  /** The addresses that read needs of the inode itself are there. */
  ghost predicate OwnAddrs(ino: Inode, off: nat, n: nat)
    requires |ino.addrs| == NDIRECT + 1
  {
    AddrsIn(ino, off, ReadEnd(ino.size, off, n))
  }

  predicate OneBlock(off: nat, n: nat) { off % BSIZE + n <= BSIZE }

  ghost predicate ReadTo(sb: Super, open: bool, s: Fs, t: Fs, i: nat, off: nat, n: nat) {
    i < |s.inodes| && Reading(sb, open, s, t, i, off, ReadEnd(s.inodes[i].size, off, n) - off)
  }

  /** A round at file block bn led from s to a panic in t: the block was not mapped. */
  ghost predicate ChunkStops(sb: Super, nlog: nat, open: bool, s: Fs, t: Fs, i: nat, bn: nat, why: Halt) {
    && Shape(sb, s.blocks, s.inodes) && i < |s.inodes| && bn < MAXFILE
    && SlotAddr(s.blocks, s.inodes[i], DataSlot(bn)) == 0 && StopsAt(sb, nlog, open, s, t, i, why)
    && (why == OutOfBlocks && bn < NDIRECT ==> DiskFull(sb, s.blocks))
  }

  /** A read of [off, off + want) led from s to a panic in t: the range has a hole. */
  ghost predicate RangeStops(sb: Super, nlog: nat, open: bool, s: Fs, t: Fs, i: nat, off: nat, want: nat, why: Halt) {
    && Shape(sb, s.blocks, s.inodes) && i < |s.inodes| && !MappedIn(s.blocks, s.inodes[i], off, off + want)
    && Halted(sb, nlog, open, t, why)
    && (off % BSIZE + want <= BSIZE ==> ChunkStops(sb, nlog, open, s, t, i, off / BSIZE, why))
  }

  ghost predicate ReadStops(sb: Super, nlog: nat, open: bool, s: Fs, t: Fs, i: nat, off: nat, n: nat, why: Halt) {
    i < |s.inodes| && RangeStops(sb, nlog, open, s, t, i, off, ReadEnd(s.inodes[i].size, off, n) - off, why)
  }

  ghost predicate ReadResult(sb: Super, nlog: nat, open: bool, s: Fs, t: Fs, i: nat, off: nat, n: nat,
                             r: Outcome<seq<int>>) {
    && Shape(sb, s.blocks, s.inodes) && i < |s.inodes| && s.inodes[i].size <= MAXFILE * BSIZE
    && match r
       case Done(bytes) =>
         bytes == ReadOut(Contents(s.blocks, s.inodes[i]), off, n) && ReadTo(sb, open, s, t, i, off, n)
       case Stop(why) => ReadStops(sb, nlog, open, s, t, i, off, n, why)
  }

  lemma RangeRead(sb: Super, nlog: nat, open: bool, s: Fs, t: Fs, i: nat, off: nat, n: nat, want: nat,
                  r: Outcome<seq<int>>)
    requires Shape(sb, s.blocks, s.inodes) && i < |s.inodes| && off <= s.inodes[i].size <= MAXFILE * BSIZE
    requires off + n < LIMIT32 && want == (if off + n > s.inodes[i].size then s.inodes[i].size - off else n)
    requires r.Done? ==> |r.value| == want && Got(sb, open, s, t, i, off, r.value)
    requires r.Stop? ==> RangeStops(sb, nlog, open, s, t, i, off, want, r.why)
    ensures ReadResult(sb, nlog, open, s, t, i, off, n, r)
  {
  }

  lemma ReadNothing(sb: Super, nlog: nat, open: bool, s: Fs, i: nat, off: nat, n: nat)
    requires Sound(sb, s) && i < |s.inodes| && s.inodes[i].size <= MAXFILE * BSIZE
    requires off > s.inodes[i].size || off + n >= LIMIT32
    ensures ReadResult(sb, nlog, open, s, s, i, off, n, Done([]))
  {
    ReadingStart(sb, open, s, i, off);
  }

  lemma ChunkMapped(sb: Super, nlog: nat, open: bool, s: Fs, t: Fs, i: nat, pos: nat, m: nat, r: Outcome<nat>)
    requires Sound(sb, s) && i < |s.inodes| && s.inodes[i].size <= MAXFILE * BSIZE
    requires pos < s.inodes[i].size && pos + m <= s.inodes[i].size && pos % BSIZE + m <= BSIZE
    requires pos / BSIZE < MAXFILE && BmapResult(sb, nlog, open, s, t, i, pos / BSIZE, r) && r.Done?
    ensures ChunkRead(sb, open, s, t, i, pos / BSIZE) && r.value < |t.blocks| && |t.blocks[r.value]| == BSIZE
    ensures t.blocks[r.value][pos % BSIZE..pos % BSIZE + m] == Contents(s.blocks, s.inodes[i])[pos..pos + m]
  {
    BlockOf(pos, s.inodes[i].size);
    GainedRefl(sb, t, i, 0);
    GainedTrans(sb, s, t, t, i, pos / BSIZE * BSIZE + 1, 0, s.inodes[i].size);
    SlotInRange(sb, t.blocks, t.inodes, t.owner, i, DataSlot(pos / BSIZE));
    ExtendedContents(sb, s.blocks, s.inodes, t.blocks, t.inodes, i, i);
    ChunkIsSlice(t.blocks, t.inodes[i], pos, m);
  }

  lemma RoundStops(sb: Super, nlog: nat, open: bool, s: Fs, t: Fs, u: Fs, i: nat, off: nat, n: nat, want: nat, m: nat,
                   why: Halt)
    requires Reading(sb, open, s, t, i, off, n) && ChunkStops(sb, nlog, open, t, u, i, (off + n) / BSIZE, why)
    requires 0 < m && n + m <= want && (off + n) % BSIZE + m <= BSIZE && (n == 0 || off % BSIZE + want > BSIZE)
    ensures RangeStops(sb, nlog, open, s, u, i, off, want, why)
  {
    var bn := (off + n) / BSIZE;
    assert Touches(off, off + want, bn);
    MappedPart(s.blocks, s.inodes[i], off, off + n, off + want);
    if off % BSIZE + want <= BSIZE { NothingRead(s.blocks, s.inodes[i], off); }
  }

  lemma MappedPart(blocks: Blocks, ino: Inode, off: nat, mid: nat, end: nat)
    requires |ino.addrs| == NDIRECT + 1 && ino.addrs[NDIRECT] < |blocks| && |blocks[ino.addrs[NDIRECT]]| == BSIZE
    requires mid <= end
    ensures MappedIn(blocks, ino, off, end) ==> MappedIn(blocks, ino, off, mid)
  {
    forall bn | 0 <= bn < MAXFILE && Touches(off, mid, bn) ensures Touches(off, end, bn) { }
  }

  lemma NothingRead(blocks: Blocks, ino: Inode, off: nat)
    requires |ino.addrs| == NDIRECT + 1 && ino.addrs[NDIRECT] < |blocks| && |blocks[ino.addrs[NDIRECT]]| == BSIZE
    ensures MappedIn(blocks, ino, off, off)
  {
  }

  /** What a read that went through did to the disk. */
  lemma ReadDone(sb: Super, open: bool, s: Fs, t: Fs, i: nat, off: nat, n: nat)
    requires Sound(sb, s) && Tracks(sb, s) && ReadTo(sb, open, s, t, i, off, n)
    ensures Tracks(sb, t)
    ensures DiskOwns(sb, s.blocks, s.disk) ==> (DiskOwns(sb, t.blocks, t.disk) <==> OwnAddrs(s.inodes[i], off, n))
  {
    GainedTracks(sb, s, t, i, s.inodes[i].size);
    DiskOwnsIff(sb, s.blocks, s.inodes, s.owner, s.disk);
    DiskOwnsIff(sb, t.blocks, t.inodes, t.owner, t.disk);
  }
}
