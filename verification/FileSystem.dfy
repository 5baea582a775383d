/** kernel/fs.c: the block allocator, bmap, itrunc, readi and writei, working in place on the
    block and inode tables.  Blocks passed to log_write are collected in `logged`; bmap changes the
    inode in memory, and iupdate brings it to `disk`. */
module FileSystem {
  import opened FsBytes
  import opened FsBlocks
  import opened FsSlots
  import opened FsTruncate
  import opened FsDisk
  import opened FsWrite
  import opened FsMap
  import opened FsRead
  import opened FsTx
  import opened FsAccount
  import opened Options
  import opened Params

  class FileSys {
    const sb: Super
    const nlog: nat                  // blocks of the log
    var blocks: Blocks
    var inodes: Inodes               // in memory
    var disk: Inodes                 // in their blocks
    var open: bool                   // between begin_op and end_op
    var logged: set<nat>
    ghost var owner: map<nat, Slot>

    ghost function Now(): Fs
      reads this
    {
      Fs(blocks, inodes, disk, logged, owner)
    }

    ghost predicate Valid()
      reads this
    {
      Sound(sb, Now()) && Tracks(sb, Now())
    }

    /** The file system of a disk image whose blocks are properly owned, as mkfs leaves it. */
    constructor (super: Super, image: Blocks, table: Inodes, log: nat, ghost who: map<nat, Slot>)
      requires Owns(super, image, table, who, {}, -1, 0)
      ensures Valid() && sb == super && nlog == log && blocks == image && inodes == disk == table && owner == who
      ensures !open && logged == {}
    {
      sb, nlog, blocks, inodes, disk, owner := super, log, image, table, table, who;
      open, logged := false, {};
      BehindRefl(super, image, table);
    }

    /** begin_op and end_op of an operation that has the log to itself. */
    method BeginOp()
      modifies `open
      ensures open
    {
      open := true;
    }

    method EndOp()
      modifies `open, `logged
      ensures !open && logged == {}
    {
      open, logged := false, {};
    }

    /** log_write; Some is one of its panics. */
    method LogWrite(b: nat) returns (halt: Option<Halt>)
      modifies `logged
      ensures halt == LogHalt(nlog, |old(logged)|, open)
      ensures logged == if halt.None? then old(logged) + {b} else old(logged)
    {
      if NoRoom(nlog, |logged|) { return Some(TooBig); }
      if !open { return Some(OutsideTrans); }
      logged := logged + {b};
      halt := None;
    }

    /** balloc's work on the clear bit it found. */
    method Take(a: nat) returns (r: Outcome<nat>)
      requires Shape(sb, blocks, inodes) && BitmapReadable(sb, blocks) && a < sb.size && !Marked(sb, blocks, a)
      modifies `blocks, `logged
      ensures r.Done? ==> open && r.value == a && blocks == Alloced(sb, old(blocks), a)
      ensures r.Done? ==> logged == old(logged) + {BBlock(sb, a), a}
      ensures r.Stop? ==> r.why != OutOfBlocks && Halted(sb, nlog, open, Now(), r.why)
      ensures r.Stop? ==> logged == old(logged) || logged == old(logged) + {BBlock(sb, a)}
    {
      MarkedDefined(sb, blocks, inodes, a);
      var bp := blocks[BBlock(sb, a)];
      bp := bp[a % BPB / 8 := bp[a % BPB / 8] + Pow2(a % 8)];
      blocks := blocks[BBlock(sb, a) := bp];
      var halt := LogWrite(BBlock(sb, a));
      if halt.Some? { return Stop(halt.value); }
      blocks := blocks[a := ZeroBlock()];
      halt := LogWrite(a);
      r := if halt.Some? then Stop(halt.value) else Done(a);
    }

    /** balloc: the first unmarked block, marked and zeroed.  It runs out of blocks exactly on a full
        disk; otherwise only log_write can stop it, as it does outside a transaction. */
    method Balloc() returns (r: Outcome<nat>)
      requires Shape(sb, blocks, inodes) && BitmapReadable(sb, blocks)
      modifies `blocks, `logged
      ensures r == Stop(OutOfBlocks) <==> old(DiskFull(sb, blocks))
      ensures r == Stop(OutOfBlocks) ==> blocks == old(blocks) && logged == old(logged)
      ensures r.Stop? ==> Halted(sb, nlog, open, Now(), r.why)
      ensures r.Stop? && sb.size <= BPB ==> logged <= old(logged) + {sb.bmapstart}
      ensures r.Done? ==> open && r.value < sb.size && !old(Marked(sb, blocks, r.value))
      ensures r.Done? ==> forall c :: 0 <= c < r.value ==> old(Marked(sb, blocks, c))
      ensures r.Done? ==> blocks == Alloced(sb, old(blocks), r.value)
      ensures r.Done? ==> logged == old(logged) + {BBlock(sb, r.value), r.value}
    {
      var a := FirstFree();
      if a.None? { return Stop(OutOfBlocks); }
      if sb.size <= BPB { OneBitmapBlock(sb, a.value); }
      r := Take(a.value);
    }

    /** balloc's search, bitmap block by bitmap block. */
    method FirstFree() returns (r: Option<nat>)
      requires Shape(sb, blocks, inodes) && BitmapReadable(sb, blocks)
      ensures r.None? <==> DiskFull(sb, blocks)
      ensures r.Some? ==> r.value < sb.size && !Marked(sb, blocks, r.value)
      ensures r.Some? ==> forall c :: 0 <= c < r.value ==> Marked(sb, blocks, c)
    {
      var b := 0;
      while b < sb.size
        invariant 0 <= b && b % BPB == 0
        invariant forall c :: 0 <= c < sb.size && c < b ==> Marked(sb, blocks, c)
      {
        MarkedDefined(sb, blocks, inodes, b);
        var bp := blocks[BBlock(sb, b)];
        var bi := 0;
        while bi < BPB && b + bi < sb.size
          invariant 0 <= bi <= BPB
          invariant forall c :: 0 <= c < sb.size && c < b + bi ==> Marked(sb, blocks, c)
        {
          BitPosition(b, bi);
          if !Bit(bp[bi / 8], bi % 8) {
            assert !Marked(sb, blocks, b + bi);
            return Some(b + bi);
          }
          bi := bi + 1;
        }
        b := b + BPB;
      }
      return None;
    }

    /** bfree: the block's mark is cleared; it panics on a block that has none. */
    method Bfree(b: nat) returns (r: Outcome<()>)
      requires Shape(sb, blocks, inodes) && BitmapReadable(sb, blocks) && b < sb.size
      modifies `blocks, `logged
      ensures r == Stop(FreeingFree) <==> !old(Marked(sb, blocks, b))
      ensures r.Stop? ==> logged == old(logged)
      ensures r.Stop? ==> r.why == FreeingFree || LogHalt(nlog, |logged|, open) == Some(r.why)
      ensures r.Done? ==> open && blocks == Freed(sb, old(blocks), b) && logged == old(logged) + {BBlock(sb, b)}
    {
      MarkedDefined(sb, blocks, inodes, b);
      var bp := blocks[BBlock(sb, b)];
      var bi := b % BPB;
      BitPosition(b - bi, bi);
      if !Bit(bp[bi / 8], bi % 8) {
        return Stop(FreeingFree);
      }
      bp := bp[bi / 8 := bp[bi / 8] - Pow2(bi % 8)];
      blocks := blocks[BBlock(sb, b) := bp];
      var halt := LogWrite(BBlock(sb, b));
      r := if halt.Some? then Stop(halt.value) else Done(());
    }

    /** bmap's `if (addr == 0) addr = balloc()` for one of the thirteen addresses of an inode. */
    method EnsureAddr(i: nat, k: nat) returns (r: Outcome<nat>)
      requires Sound(sb, Now()) && i < |inodes| && k <= NDIRECT
      modifies `blocks, `inodes, `logged, `owner
      ensures AddrResult(sb, nlog, open, old(Now()), Now(), i, k, r)
    {
      ghost var s := Now();
      var addr := inodes[i].addrs[k];
      if addr == 0 {
        r := Balloc();
        if r.Stop? {
          BallocStops(sb, nlog, open, s, Now(), i, r.why);
          return;
        }
        addr := r.value;
        AddrGiven(sb, nlog, open, s, i, k, addr);
        inodes := WithAddr(inodes, i, k, addr);
        owner := owner[addr := (i, k)];
      } else {
        AddrKept(sb, nlog, open, s, i, k);
      }
      return Done(addr);
    }

    /** bmap: the disk block of file block bn, allocated if need be. */
    method Bmap(i: nat, bn: nat) returns (r: Outcome<nat>)
      requires Sound(sb, Now()) && i < |inodes|
      modifies `blocks, `inodes, `logged, `owner
      ensures r == Stop(OutOfRange) <==> bn >= MAXFILE
      ensures bn < MAXFILE ==> BmapResult(sb, nlog, open, old(Now()), Now(), i, bn, r)
      ensures r.Done? ==> i < |inodes| && FoundAt(blocks, inodes[i], bn, r.value)
    {
      if bn < NDIRECT {
        r := EnsureAddr(i, bn);
        DirectResult(sb, nlog, open, old(Now()), Now(), i, bn, r);
        if r.Done? { BmapFound(sb, nlog, open, old(Now()), Now(), i, bn, r.value); }
        return;
      }
      if bn - NDIRECT < NINDIRECT {
        r := BmapIndirect(i, bn - NDIRECT);
        if r.Done? { BmapFound(sb, nlog, open, old(Now()), Now(), i, bn, r.value); }
        return;
      }
      return Stop(OutOfRange);
    }

    method BmapIndirect(i: nat, e: nat) returns (r: Outcome<nat>)
      requires Sound(sb, Now()) && i < |inodes| && e < NINDIRECT
      modifies `blocks, `inodes, `logged, `owner
      ensures BmapResult(sb, nlog, open, old(Now()), Now(), i, NDIRECT + e, r)
    {
      ghost var s := Now();
      var ind := EnsureAddr(i, NDIRECT);
      if ind.Stop? {
        IndirectStopped(sb, nlog, open, s, Now(), i, e, ind);
        return ind;
      }
      ghost var t := Now();
      r := EnsureEntry(i, e);
      IndirectResult(sb, nlog, open, s, t, Now(), i, e, ind, r);
    }

    /** bmap's second half: the entry of an indirect block that is there. */
    method EnsureEntry(i: nat, e: nat) returns (r: Outcome<nat>)
      requires Sound(sb, Now()) && i < |inodes| && e < NINDIRECT && inodes[i].addrs[NDIRECT] != 0
      modifies `blocks, `logged, `owner
      ensures EntryResult(sb, nlog, open, old(Now()), Now(), i, e, r)
    {
      var ind := inodes[i].addrs[NDIRECT];
      WordRange(blocks[ind], e);
      var addr := Word(blocks[ind], e);
      if addr == 0 {
        r := NewEntry(i, e, ind);
      } else {
        EntryKept(sb, nlog, open, Now(), i, e);
        r := Done(addr);
      }
    }

    method NewEntry(i: nat, e: nat, ind: nat) returns (r: Outcome<nat>)
      requires Sound(sb, Now()) && i < |inodes| && e < NINDIRECT && inodes[i].addrs[NDIRECT] == ind != 0
      requires SlotAddr(blocks, inodes[i], NDIRECT + 1 + e) == 0
      modifies `blocks, `logged, `owner
      ensures EntryResult(sb, nlog, open, old(Now()), Now(), i, e, r)
    {
      ghost var s := Now();
      r := Balloc();
      if r.Stop? {
        BallocStops(sb, nlog, open, s, Now(), i, r.why);
        return;
      }
      r := PutEntry(i, e, ind, r.value, s);
    }

    method PutEntry(i: nat, e: nat, ind: nat, a: nat, ghost s: Fs) returns (r: Outcome<nat>)
      requires Sound(sb, s) && i < |s.inodes| && e < NINDIRECT && s.inodes[i].addrs[NDIRECT] == ind != 0
      requires SlotAddr(s.blocks, s.inodes[i], NDIRECT + 1 + e) == 0 && open && a < sb.size && !Marked(sb, s.blocks, a)
      requires Now() == s.(blocks := Alloced(sb, s.blocks, a), logged := s.logged + {BBlock(sb, a), a})
      modifies `blocks, `logged, `owner
      ensures EntryResult(sb, nlog, open, s, Now(), i, e, r)
    {
      EntryGiven(sb, nlog, open, s, i, e, a);
      blocks := WithEntry(blocks, inodes[i], e, a);
      var halt := LogWrite(ind);
      if halt.Some? {
        EntryStops(sb, nlog, open, s, Now(), i, e, a, halt.value);
        return Stop(halt.value);
      }
      owner := owner[a := (i, NDIRECT + 1 + e)];
      r := Done(a);
    }

    /** One round of readi: bmap and copy part of one block. */
    method ReadChunk(i: nat, pos: nat, m: nat) returns (r: Outcome<seq<int>>)
      requires Sound(sb, Now()) && i < |inodes| && inodes[i].size <= MAXFILE * BSIZE
      requires pos < inodes[i].size && pos + m <= inodes[i].size && pos % BSIZE + m <= BSIZE
      modifies `blocks, `inodes, `logged, `owner
      ensures ChunkGot(sb, nlog, open, old(Now()), Now(), i, pos, m, r)
    {
      ghost var s := Now();
      BlockOf(pos, inodes[i].size);
      var a := Bmap(i, pos / BSIZE);
      if a.Stop? { return Stop(a.why); }
      ChunkMapped(sb, nlog, open, s, Now(), i, pos, m, a);
      var bp := blocks[a.value];
      r := Done(bp[pos % BSIZE..pos % BSIZE + m]);
    }

    /** readi, for copies that succeed: the bytes of the file from off on, cut at its end.  bmap fills
        holes in with zeros, which changes no file.  Outside a transaction that is a panic, so the
        read goes through exactly if it meets no hole; inside one it leaves the blocks properly
        owned on disk exactly if every address it needs of the inode itself was there. */
    method Readi(i: nat, off: nat, n: nat) returns (r: Outcome<seq<int>>)
      requires Valid() && i < |inodes| && inodes[i].size <= MAXFILE * BSIZE && off < LIMIT32 && n < LIMIT32
      modifies `blocks, `inodes, `logged, `owner
      ensures r.Done? ==> r.value == ReadOut(Contents(old(blocks), old(inodes)[i]), off, n)
      ensures r.Done? ==> Valid() && Gained(sb, old(Now()), Now(), i, old(inodes[i].size))
      ensures old(NoHole(blocks, inodes[i], off, n)) ==> r.Done? && unchanged(this)
      ensures !open ==> (r.Done? <==> old(NoHole(blocks, inodes[i], off, n)))
      ensures r.Done? ==> (inodes == old(inodes) <==> old(OwnAddrs(inodes[i], off, n)))
      ensures r.Done? && old(DiskOwns(sb, blocks, disk)) ==>
                (DiskOwns(sb, blocks, disk) <==> old(OwnAddrs(inodes[i], off, n)))
      ensures r.Stop? ==> Halted(sb, nlog, open, Now(), r.why)
      ensures r.Stop? && OneBlock(off, n) ==> ChunkStops(sb, nlog, open, old(Now()), Now(), i, off / BSIZE, r.why)
    {
      ghost var s := Now();
      r := ReadAll(i, off, n);
      if r.Done? { ReadDone(sb, open, s, Now(), i, off, n); }
    }

    method ReadAll(i: nat, off: nat, n: nat) returns (r: Outcome<seq<int>>)
      requires Sound(sb, Now()) && i < |inodes| && inodes[i].size <= MAXFILE * BSIZE && off < LIMIT32 && n < LIMIT32
      modifies `blocks, `inodes, `logged, `owner
      ensures ReadResult(sb, nlog, open, old(Now()), Now(), i, off, n, r)
    {
      var size := inodes[i].size;
      if off > size || off + n >= LIMIT32 {
        ReadNothing(sb, nlog, open, Now(), i, off, n);
        return Done([]);
      }
      var want := if off + n > size then size - off else n;
      r := ReadRange(i, off, want);
      RangeRead(sb, nlog, open, old(Now()), Now(), i, off, n, want, r);
    }

    /** The loop of readi. */
    method ReadRange(i: nat, off: nat, want: nat) returns (r: Outcome<seq<int>>)
      requires Sound(sb, Now()) && i < |inodes| && off + want <= inodes[i].size <= MAXFILE * BSIZE
      modifies `blocks, `inodes, `logged, `owner
      ensures r.Done? ==> |r.value| == want && Got(sb, open, old(Now()), Now(), i, off, r.value)
      ensures r.Stop? ==> RangeStops(sb, nlog, open, old(Now()), Now(), i, off, want, r.why)
    {
      ghost var s := Now();
      ReadingStart(sb, open, s, i, off);
      var dst: seq<int> := [];
      while |dst| < want
        invariant |dst| <= want && Got(sb, open, s, Now(), i, off, dst) && Paced(off, want, |dst|)
        decreases want - |dst|
      {
        r := ReadRound(i, off, want, dst, s);
        if r.Stop? { return; }
        dst := r.value;
      }
      return Done(dst);
    }

    /** One round of readi's loop on what has been copied so far. */
    method ReadRound(i: nat, off: nat, want: nat, dst: seq<int>, ghost s: Fs) returns (r: Outcome<seq<int>>)
      requires Got(sb, open, s, Now(), i, off, dst) && |dst| < want && off + want <= s.inodes[i].size
      requires Paced(off, want, |dst|)
      modifies `blocks, `inodes, `logged, `owner
      ensures RoundGot(sb, nlog, open, s, Now(), i, off, want, dst, r)
    {
      ghost var t := Now();
      var m := ChunkLen(off + |dst|, want - |dst|);
      GotSize(sb, open, s, t, i, off, dst);
      r := ReadChunk(i, off + |dst|, m);
      RoundEnds(sb, nlog, open, s, t, Now(), i, off, want, dst, r);
      if r.Done? { r := Done(dst + r.value); }
    }

    /** One round of writei: bmap, read the block, copy bytes into it, log it. */
    method WriteChunk(i: nat, off: nat, bytes: seq<int>) returns (r: Outcome<nat>)
      requires Sound(sb, Now()) && i < |inodes| && 0 < |bytes| && off % BSIZE + |bytes| <= BSIZE
      requires off + |bytes| <= MAXFILE * BSIZE
      requires forall k :: 0 <= k < |bytes| ==> 0 <= bytes[k] < 256
      modifies `blocks, `inodes, `logged, `owner
      ensures r.Done? ==> open && ChunkDone(sb, old(Now()), Now(), i, off, bytes, r.value)
      ensures r.Stop? ==> StopsAt(sb, nlog, open, old(Now()), Now(), i, r.why)
    {
      ghost var s := Now();
      r := Bmap(i, off / BSIZE);
      if r.Stop? {
        return;
      }
      var a := r.value;
      ghost var t := Now();
      ChunkFilled(sb, s, t, i, off, bytes, a);
      var bp := Splice(blocks[a], off % BSIZE, bytes);
      blocks := blocks[a := bp];
      var halt := LogWrite(a);
      if halt.Some? {
        FilledStops(sb, nlog, open, s, t, Now(), i, off, a, halt.value);
        return Stop(halt.value);
      }
    }

    /** One round of the copying loop, with the running account of what was written and logged. */
    method CopyRound(i: nat, off: nat, tot: nat, m: nat, src: seq<int>, ghost s: Fs, ghost touched: set<nat>)
      returns (r: Outcome<nat>)
      requires Copying(sb, s, Now(), touched, i, off, tot, src) && tot + m <= |src| && 0 < m
      requires (off + tot) % BSIZE + m <= BSIZE
      requires (tot == 0 || (off + tot) % BSIZE == 0) && forall k :: 0 <= k < |src| ==> 0 <= src[k] < 256
      modifies `blocks, `inodes, `logged, `owner
      ensures r.Done? ==> open && Copying(sb, s, Now(), touched + {r.value}, i, off, tot + m, src)
      ensures r.Stop? ==> WriteStops(sb, nlog, open, s, Now(), off, |src|, r.why)
    {
      ghost var t := Now();
      r := WriteChunk(i, off + tot, src[tot..tot + m]);
      if r.Done? {
        CopyingNext(sb, s, t, Now(), touched, i, off, tot, m, src, r.value);
      } else {
        CopyStops(sb, nlog, open, s, t, Now(), touched, i, off, tot, m, src, r.why);
      }
    }

    /** The copying loop of writei.  Some is a panic. */
    method CopyIn(i: nat, off: nat, src: seq<int>) returns (halt: Option<Halt>, ghost touched: set<nat>)
      requires Sound(sb, Now()) && i < |inodes| && off + |src| <= MAXFILE * BSIZE
      requires forall k :: 0 <= k < |src| ==> 0 <= src[k] < 256
      modifies `blocks, `inodes, `logged, `owner
      ensures halt.Some? ==> src != [] && WriteStops(sb, nlog, open, old(Now()), Now(), off, |src|, halt.value)
      ensures halt.None? ==> Copying(sb, old(Now()), Now(), touched, i, off, |src|, src)
      ensures src == [] ==> inodes == old(inodes)
    {
      touched := {};
      var tot := 0;
      ghost var s := Now();
      CopyingStart(sb, s, i, off, src);
      while tot < |src|
        invariant tot <= |src| && Copying(sb, s, Now(), touched, i, off, tot, src)
        invariant (tot == 0 || tot == |src| || (off + tot) % BSIZE == 0) && (src == [] ==> inodes == s.inodes)
      {
        var m := ChunkLen(off + tot, |src| - tot);
        var r := CopyRound(i, off, tot, m, src, s, touched);
        if r.Stop? {
          return Some(r.why), touched;
        }
        touched := touched + {r.value};
        tot := tot + m;
      }
      return None, touched;
    }

    /** writei, for copies that succeed: refused outright, or exactly bytes [off, off + n) of the
        file become src, the file grows if need be, nothing else changes in any file, and the inode
        reaches its block.  It stops only on a full disk, a full log, or outside a transaction. */
    method Writei(i: nat, off: nat, src: seq<int>) returns (r: WriteResult)
      requires Valid() && i < |inodes| && inodes[i].size <= MAXFILE * BSIZE && off < LIMIT32 && |src| < LIMIT32
      requires forall k :: 0 <= k < |src| ==> 0 <= src[k] < 256
      modifies `blocks, `inodes, `disk, `logged, `owner
      ensures r == Refused <==> off > old(inodes[i].size) || off + |src| >= LIMIT32 || off + |src| > MAXFILE * BSIZE
      ensures r == Refused ==> unchanged(this)
      ensures r.Panicked? ==> src != [] && WriteStops(sb, nlog, open, old(Now()), Now(), off, |src|, r.why)
      ensures r.Written? ==> Valid() && (src == [] || open) && r.n == |src|
      ensures r.Written? ==> Laid(sb, old(Now()), Now(), i, off, src)
    {
      var n := |src|;
      if off > inodes[i].size || off + n >= LIMIT32 || off + n > MAXFILE * BSIZE {
        return Refused;
      }
      var halt := WriteAll(i, off, src);
      return if halt.None? then Written(n) else Panicked(halt.value);
    }

    /** writei past its range checks. */
    method WriteAll(i: nat, off: nat, src: seq<int>) returns (halt: Option<Halt>)
      requires Valid() && i < |inodes| && off <= inodes[i].size <= MAXFILE * BSIZE && off + |src| <= MAXFILE * BSIZE
      requires forall k :: 0 <= k < |src| ==> 0 <= src[k] < 256
      modifies `blocks, `inodes, `disk, `logged, `owner
      ensures halt.Some? ==> src != [] && WriteStops(sb, nlog, open, old(Now()), Now(), off, |src|, halt.value)
      ensures halt.None? ==> Valid() && (src == [] || open) && Laid(sb, old(Now()), Now(), i, off, src)
    {
      ghost var s := Now();
      ghost var touched;
      halt, touched := CopyIn(i, off, src);
      if halt.Some? { return; }
      ghost var t := Now();
      halt := WriteTail(i, off, |src|);
      if halt.Some? {
        TailStops(sb, nlog, open, s, t, Now(), touched, i, off, src, halt.value);
      } else {
        CopiedLaid(sb, s, t, touched, i, off, src);
        LaidTracks(sb, s, Now(), i, off, src);
      }
    }

    /** writei's tail: grow the size if the write went past it, and bring the inode to its block. */
    method WriteTail(i: nat, off: nat, n: nat) returns (halt: Option<Halt>)
      requires i < |inodes| && i < |disk|
      modifies `inodes, `disk, `logged
      ensures halt.None? ==> (n == 0 || open)
      ensures halt.None? ==> Now() == Iupdated(sb, old(Now()), i, Resized(old(inodes)[i], off, n), n)
      ensures halt.Some? ==> n > 0 && logged == old(logged) && LogHalt(nlog, |logged|, open) == halt
    {
      halt := None;
      if n > 0 {
        Grow(i, off, n);
        halt := Iupdate(i);
      } else {
        assert Resized(inodes[i], off, n) == inodes[i];
      }
    }

    method Grow(i: nat, off: nat, n: nat)
      requires i < |inodes| && n > 0
      modifies `inodes
      ensures inodes == old(inodes)[i := Resized(old(inodes)[i], off, n)]
    {
      if off + n > inodes[i].size {
        inodes := inodes[i := inodes[i].(size := off + n)];
      }
    }

    method Iupdate(i: nat) returns (halt: Option<Halt>)
      requires i < |inodes| && i < |disk|
      modifies `disk, `logged
      ensures halt == LogHalt(nlog, |old(logged)|, open) && disk == old(disk)[i := inodes[i]]
      ensures logged == if halt.None? then old(logged) + {i / IPB + sb.inodestart} else old(logged)
    {
      disk := disk[i := inodes[i]];
      halt := LogWrite(i / IPB + sb.inodestart);
    }

    /** One round of itrunc's first loop. */
    method FreeOneDirect(i: nat, k: nat, ghost b0: Blocks, ghost i0: Inodes, ghost owner0: map<nat, Slot>)
      returns (r: Outcome<()>)
      requires Sound(sb, Now()) && k < NDIRECT && Truncating(sb, b0, i0, owner0, blocks, inodes, owner, i, k, 0)
      modifies `blocks, `inodes, `logged, `owner
      ensures r.Done? ==> Sound(sb, Now()) && Truncating(sb, b0, i0, owner0, blocks, inodes, owner, i, k + 1, 0)
      ensures r.Done? ==> Freeing(sb, old(blocks), old(logged), blocks, logged)
      ensures r.Stop? ==> LogHalt(nlog, |logged|, open) == Some(r.why) && BitmapOnly(sb, old(logged), logged)
    {
      DirectRound(sb, b0, i0, owner0, blocks, inodes, owner, i, k);
      r := Done(());
      var a := inodes[i].addrs[k];
      if a != 0 {
        FreeStep(sb, blocks, logged, a);
        r := Bfree(a);
        if r.Stop? { return; }
        inodes := WithAddr(inodes, i, k, 0);
        owner := owner - {a};
      }
    }

    /** One round of itrunc's second loop. */
    method FreeOneEntry(i: nat, e: nat, ghost b0: Blocks, ghost i0: Inodes, ghost owner0: map<nat, Slot>)
      returns (r: Outcome<()>)
      requires Owns(sb, blocks, inodes, owner, {}, i, NDIRECT + 1 + e) && e < NINDIRECT
      requires Truncating(sb, b0, i0, owner0, blocks, inodes, owner, i, NDIRECT, NDIRECT + 1 + e)
      requires inodes[i].addrs[NDIRECT] != 0
      modifies `blocks, `logged, `owner
      ensures r.Done? ==> Owns(sb, blocks, inodes, owner, {}, i, NDIRECT + 1 + e + 1)
      ensures r.Done? ==> Truncating(sb, b0, i0, owner0, blocks, inodes, owner, i, NDIRECT, NDIRECT + 1 + e + 1)
      ensures r.Done? ==> Freeing(sb, old(blocks), old(logged), blocks, logged)
      ensures r.Stop? ==> LogHalt(nlog, |logged|, open) == Some(r.why) && BitmapOnly(sb, old(logged), logged)
    {
      EntryRound(sb, b0, i0, owner0, blocks, inodes, owner, i, e);
      r := Done(());
      var a := Word(blocks[inodes[i].addrs[NDIRECT]], e);
      if a != 0 {
        FreeStep(sb, blocks, logged, a);
        r := Bfree(a);
        if r.Stop? { return; }
        owner := owner - {a};
      }
    }

    /** itrunc's treatment of the indirect block. */
    method FreeIndirect(i: nat, ghost b0: Blocks, ghost i0: Inodes, ghost owner0: map<nat, Slot>)
      returns (r: Outcome<()>)
      requires Sound(sb, Now()) && i < |inodes| && inodes[i].addrs[NDIRECT] != 0
      requires Truncating(sb, b0, i0, owner0, blocks, inodes, owner, i, NDIRECT, NDIRECT + 1)
      modifies `blocks, `inodes, `logged, `owner
      ensures r.Done? ==> Sound(sb, Now())
      ensures r.Done? ==> Truncating(sb, b0, i0, owner0, blocks, inodes, owner, i, NDIRECT + 1, NSLOTS)
      ensures r.Done? ==> Freeing(sb, old(blocks), old(logged), blocks, logged)
      ensures r.Stop? ==> LogHalt(nlog, |logged|, open) == Some(r.why) && BitmapOnly(sb, old(logged), logged)
    {
      StartEntries(sb, blocks, inodes, owner, i);
      ghost var b1, log1 := blocks, logged;
      var ind := inodes[i].addrs[NDIRECT];
      r := FreeEntries(i, b0, i0, owner0);
      if r.Stop? { return; }
      IndirectRound(sb, b0, i0, owner0, blocks, inodes, owner, i);
      FreeStep(sb, blocks, logged, ind);
      FreeingTrans(sb, b1, log1, blocks, logged, Freed(sb, blocks, ind), logged + {BBlock(sb, ind)});
      r := Bfree(ind);
      if r.Stop? { return; }
      inodes := WithAddr(inodes, i, NDIRECT, 0);
      owner := owner - {ind};
    }

    /** itrunc's second loop. */
    method FreeEntries(i: nat, ghost b0: Blocks, ghost i0: Inodes, ghost owner0: map<nat, Slot>)
      returns (r: Outcome<()>)
      requires Owns(sb, blocks, inodes, owner, {}, i, NDIRECT + 1) && i < |inodes| && inodes[i].addrs[NDIRECT] != 0
      requires Truncating(sb, b0, i0, owner0, blocks, inodes, owner, i, NDIRECT, NDIRECT + 1)
      modifies `blocks, `logged, `owner
      ensures r.Done? ==> Owns(sb, blocks, inodes, owner, {}, i, NSLOTS)
      ensures r.Done? ==> Truncating(sb, b0, i0, owner0, blocks, inodes, owner, i, NDIRECT, NSLOTS)
      ensures r.Done? ==> Freeing(sb, old(blocks), old(logged), blocks, logged)
      ensures r.Stop? ==> LogHalt(nlog, |logged|, open) == Some(r.why) && BitmapOnly(sb, old(logged), logged)
    {
      for j := 0 to NINDIRECT
        invariant Owns(sb, blocks, inodes, owner, {}, i, NDIRECT + 1 + j)
        invariant Truncating(sb, b0, i0, owner0, blocks, inodes, owner, i, NDIRECT, NDIRECT + 1 + j)
        invariant Freeing(sb, old(blocks), old(logged), blocks, logged)
      {
        ghost var b1, log1 := blocks, logged;
        r := FreeOneEntry(i, j, b0, i0, owner0);
        if r.Stop? { return; }
        FreeingTrans(sb, old(blocks), old(logged), b1, log1, blocks, logged);
      }
      r := Done(());
    }

    /** itrunc: the file's blocks, and no others, are freed, and the empty inode reaches its block.  No
        bfree in it ever finds a free block; only log_write can stop it, as it does outside a transaction. */
    method Itrunc(i: nat) returns (r: Outcome<()>)
      requires Valid() && i < |inodes|
      modifies `blocks, `inodes, `disk, `logged, `owner
      ensures r.Done? ==> open && Valid()
      ensures r.Done? ==> Truncated(sb, old(blocks), old(inodes), old(owner), blocks, inodes, owner, i)
      ensures r.Done? ==> disk == old(disk)[i := inodes[i]] && AllLogged(old(blocks), old(logged), blocks, logged)
      ensures r.Done? ==> i / IPB + sb.inodestart in logged
      ensures r.Stop? ==> LogHalt(nlog, |logged|, open) == Some(r.why) && BitmapOnly(sb, old(logged), logged)
    {
      ghost var s := Now();
      r := FreeAll(i);
      if r.Stop? { return; }
      ResizeOwns(sb, blocks, inodes, owner, i, 0);
      TruncatedDone(sb, s.blocks, s.inodes, s.owner, blocks, inodes, owner, i);
      inodes := inodes[i := inodes[i].(size := 0)];
      MoreLogged(s.blocks, s.logged, blocks, logged, i / IPB + sb.inodestart);
      var halt := Iupdate(i);
      if halt.Some? { return Stop(halt.value); }
      TruncatedTracks(sb, s, Now(), i);
    }

    method FreeAll(i: nat) returns (r: Outcome<()>)
      requires Sound(sb, Now()) && i < |inodes|
      modifies `blocks, `inodes, `logged, `owner
      ensures r.Done? ==> Sound(sb, Now())
      ensures r.Done? ==>
        Truncating(sb, old(blocks), old(inodes), old(owner), blocks, inodes, owner, i, NDIRECT + 1, NSLOTS)
      ensures r.Done? ==> Freeing(sb, old(blocks), old(logged), blocks, logged)
      ensures r.Stop? ==> LogHalt(nlog, |logged|, open) == Some(r.why) && BitmapOnly(sb, old(logged), logged)
    {
      StartTruncating(sb, blocks, inodes, owner, i);
      for k := 0 to NDIRECT
        invariant Sound(sb, Now())
        invariant Truncating(sb, old(blocks), old(inodes), old(owner), blocks, inodes, owner, i, k, 0)
        invariant Freeing(sb, old(blocks), old(logged), blocks, logged)
      {
        ghost var b1, log1 := blocks, logged;
        r := FreeOneDirect(i, k, old(blocks), old(inodes), old(owner));
        if r.Stop? { return; }
        FreeingTrans(sb, old(blocks), old(logged), b1, log1, blocks, logged);
      }
      r := Done(());
      if inodes[i].addrs[NDIRECT] != 0 {
        NoEntriesYet(sb, old(blocks), old(inodes), old(owner), blocks, inodes, owner, i);
        ghost var b1, log1 := blocks, logged;
        r := FreeIndirect(i, old(blocks), old(inodes), old(owner));
        if r.Stop? { return; }
        FreeingTrans(sb, old(blocks), old(logged), b1, log1, blocks, logged);
      } else {
        TruncatedNoIndirect(sb, old(blocks), old(inodes), old(owner), blocks, inodes, owner, i);
      }
    }

    /** filewrite on an inode: chunks of at most 3 blocks, each its own transaction.  It returns n
        exactly when the whole range fits the file limits.  After every transaction the file on disk is
        the old one with a whole number of chunks laid over it, everything that transaction changed
        is logged, and it logged at most 7 blocks.  Some in halt is a panic; a log with room for seven
        blocks is never too small. */
    method FileWrite(i: nat, off: nat, src: seq<int>)
      returns (ret: int, done: nat, halt: Option<Halt>, ghost txs: seq<Tx>)
      requires Valid() && !open && logged == {}
      requires i < |inodes| && inodes[i].size <= MAXFILE * BSIZE && off < LIMIT32 && |src| < 0x8000_0000
      requires forall k :: 0 <= k < |src| ==> 0 <= src[k] < 256
      modifies this
      ensures AllCommitted(sb, old(blocks), old(disk), txs, i, off, src) && done == ChunkEnd(|src|, |txs|)
      ensures halt.Some? ==> OpHalted(sb, nlog, Now(), halt.value)
      ensures halt.None? ==> Valid() && !open && logged == {} && LastState(old(blocks), old(disk), txs, blocks, disk)
      ensures halt.None? ==> SoFar(sb, old(blocks), old(inodes), blocks, inodes, i, off, src, done)
      ensures halt.None? ==> ret == if done == |src| then |src| else -1
      ensures halt.None? ==>
                (ret >= 0 <==> |src| == 0 || (off <= old(inodes[i].size) && off + |src| <= MAXFILE * BSIZE))
    {
      var r;
      r, done, txs := WriteOps(i, off, src);
      halt := if r.Panicked? then Some(r.why) else None;
      if r.Written? { WriteEnds(sb, old(blocks), old(inodes), blocks, inodes, i, off, src, done); }
      ret := if r.Written? then |src| else -1;
    }

    /** The loop of filewrite, with the outcome of its last transaction. */
    method WriteOps(i: nat, off: nat, src: seq<int>) returns (r: WriteResult, done: nat, ghost txs: seq<Tx>)
      requires Valid() && !open && logged == {}
      requires i < |inodes| && inodes[i].size <= MAXFILE * BSIZE && off < LIMIT32 && |src| < 0x8000_0000
      requires forall k :: 0 <= k < |src| ==> 0 <= src[k] < 256
      modifies this
      ensures Reached(sb, nlog, old(Now()), Now(), i, off, src, r, done, txs)
      ensures r.Written? ==> done == |src|
      ensures !r.Panicked? ==> !open && logged == {}
    {
      var max := (MAXOPBLOCKS - 1 - 1 - 2) / 2 * BSIZE;
      r, done, txs := Written(0), 0, [];
      ghost var s := Now();
      SoFarStart(sb, blocks, inodes, i, off, src);
      while done < |src| && r.Written?
        invariant Reached(sb, nlog, s, Now(), i, off, src, r, done, txs)
        invariant !r.Panicked? ==> !open && logged == {}
        decreases |src| - done, if r.Written? then 1 else 0
      {
        var n1 := if |src| - done > max then max else |src| - done;
        r, done, txs := WriteNext(i, off, src, done, n1, s, txs);
      }
    }

    /** One round of that loop. */
    method WriteNext(i: nat, off: nat, src: seq<int>, from: nat, n1: nat, ghost s0: Fs, ghost before: seq<Tx>)
      returns (r: WriteResult, done: nat, ghost txs: seq<Tx>)
      requires !open && logged == {} && i < |s0.inodes| && Tracks(sb, s0)
      requires AllCommitted(sb, s0.blocks, s0.disk, before, i, off, src) && from == ChunkEnd(|src|, |before|)
      requires Standing(sb, s0, Now(), i, off, src, from) && LastState(s0.blocks, s0.disk, before, blocks, disk)
      requires from < |src| < 0x8000_0000 && n1 == if |src| - from > CHUNK then CHUNK else |src| - from
      requires off < LIMIT32 && forall k :: 0 <= k < |src| ==> 0 <= src[k] < 256
      modifies this
      ensures Reached(sb, nlog, s0, Now(), i, off, src, r, done, txs)
      ensures done == if r.Written? then from + n1 else from
      ensures !r.Panicked? ==> !open && logged == {}
    {
      ghost var s := Now();
      ghost var t;
      r, t := WriteOp(i, off, src, from, n1, s0);
      ChunkEndNext(|src|, |before|);
      ReachedNext(sb, nlog, s0, s, t, i, off, src, from, n1, before, r);
      done := if r.Written? then from + n1 else from;
      txs := WithTx(before, t, r);
    }

    /** One transaction of filewrite: begin_op, writei of the next chunk, end_op.  t is the state before
        end_op. */
    method WriteOp(i: nat, off: nat, src: seq<int>, done: nat, n1: nat, ghost s0: Fs)
      returns (r: WriteResult, ghost t: Fs)
      requires !open && logged == {} && Standing(sb, s0, Now(), i, off, src, done) && 0 < n1 <= CHUNK
      requires done + n1 <= |src| < 0x8000_0000
      requires off < LIMIT32 && forall k :: 0 <= k < |src| ==> 0 <= src[k] < 256
      modifies this
      ensures OpOutcome(sb, nlog, s0, old(Now()), t, i, off, src, done, n1, r)
      ensures if r.Panicked? then Now() == t else Now() == t.(logged := {}) && !open
    {
      ghost var s := Now();
      BeginOp();
      r := Writei(i, off + done, src[done..done + n1]);
      t := Now();
      if r == Refused {
        ChunkRefused(sb, s0.blocks, s0.inodes, blocks, inodes, i, off, src, done, n1);
      } else if r.Written? {
        LaidOp(sb, s0, s, t, i, off, src, done, n1);
      } else {
        OpStops(sb, nlog, s, t, off + done, n1, r.why);
        return;
      }
      EndOp();
    }
  }
}
