/** The transactions of filewrite (kernel/file.c). */
module FsTx {
  import opened FsBytes
  import opened FsBlocks
  import opened FsAccount
  import opened FsWrite
  import opened Params

  /** filewrite has laid src[..done] over the file and changed nothing else. */
  ghost predicate SoFar(sb: Super, b0: Blocks, i0: Inodes, blocks: Blocks, inodes: Inodes, i: nat, off: nat,
                        src: seq<int>, done: nat) {
    && Shape(sb, blocks, inodes) && i < |inodes| == |i0| && done <= |src| && inodes[i].size <= MAXFILE * BSIZE
    && (done == 0 ==> blocks == b0 && inodes == i0)
    && (done > 0 ==> off + done <= MAXFILE * BSIZE && FilesWritten(sb, b0, i0, blocks, inodes, i, off, src[..done]))
  }

  /** The state at the end_op of a transaction: what it logged, the blocks, and the inodes on disk. */
  datatype Tx = Tx(logged: set<nat>, blocks: Blocks, inodes: Inodes)

  const CHUNK := 3072           // filewrite's max: ((MAXOPBLOCKS - 1 - 1 - 2) / 2) * BSIZE

  /** How much of n bytes the first k chunks cover. */
  function ChunkEnd(n: nat, k: nat): nat { if k * CHUNK < n then k * CHUNK else n }

  /** An inode that changed on disk has its block in the log. */
  ghost predicate InodeLogged(sb: Super, i0: Inodes, inodes: Inodes, i: nat, logged: set<nat>) {
    inodes != i0 ==> i / IPB + sb.inodestart in logged
  }

  /** Transaction k of filewrite: it changed only blocks it logged, at most 7 with one bitmap block
      (4 data, 1 indirect, 1 bitmap, 1 inode), and left k + 1 whole chunks laid over the file. */
  ghost predicate Committed(sb: Super, b0: Blocks, i0: Inodes, txs: seq<Tx>, i: nat, off: nat, src: seq<int>, k: nat) {
    k < |txs| ==>
      && (sb.size <= BPB ==> |txs[k].logged| <= 7)
      && AllLogged(if k == 0 then b0 else txs[k - 1].blocks, {}, txs[k].blocks, txs[k].logged)
      && InodeLogged(sb, if k == 0 then i0 else txs[k - 1].inodes, txs[k].inodes, i, txs[k].logged)
      && SoFar(sb, b0, i0, txs[k].blocks, txs[k].inodes, i, off, src, ChunkEnd(|src|, k + 1))
  }

  ghost predicate AllCommitted(sb: Super, b0: Blocks, i0: Inodes, txs: seq<Tx>, i: nat, off: nat, src: seq<int>) {
    forall k {:trigger Committed(sb, b0, i0, txs, i, off, src, k)} :: Committed(sb, b0, i0, txs, i, off, src, k)
  }

  ghost predicate LastState(b0: Blocks, i0: Inodes, txs: seq<Tx>, blocks: Blocks, inodes: Inodes) {
    if txs == [] then blocks == b0 && inodes == i0
    else blocks == txs[|txs| - 1].blocks && inodes == txs[|txs| - 1].inodes
  }

  lemma CommittedMore(sb: Super, b0: Blocks, i0: Inodes, txs: seq<Tx>, tx: Tx, b1: Blocks, i1: Inodes, i: nat, off: nat,
                      src: seq<int>)
    requires AllCommitted(sb, b0, i0, txs, i, off, src) && LastState(b0, i0, txs, b1, i1)
    requires sb.size <= BPB ==> |tx.logged| <= 7
    requires AllLogged(b1, {}, tx.blocks, tx.logged) && InodeLogged(sb, i1, tx.inodes, i, tx.logged)
    requires SoFar(sb, b0, i0, tx.blocks, tx.inodes, i, off, src, ChunkEnd(|src|, |txs| + 1))
    ensures AllCommitted(sb, b0, i0, txs + [tx], i, off, src)
  {
    var more := txs + [tx];
    forall k: nat ensures Committed(sb, b0, i0, more, i, off, src, k) {
      if k < |txs| { assert Committed(sb, b0, i0, txs, i, off, src, k); }
    }
  }

  /** From s0 filewrite has got to t with done bytes of src laid over the file, in memory and on disk. */
  ghost predicate Standing(sb: Super, s0: Fs, t: Fs, i: nat, off: nat, src: seq<int>, done: nat) {
    && Sound(sb, t) && Tracks(sb, t)
    && SoFar(sb, s0.blocks, s0.inodes, t.blocks, t.inodes, i, off, src, done)
    && i < |s0.disk| && t.disk == if done > 0 then s0.disk[i := t.inodes[i]] else s0.disk
  }

  /** A transaction that led from s to t, with done bytes of src in place after it. */
  ghost predicate OpDone(sb: Super, s0: Fs, s: Fs, t: Fs, i: nat, off: nat, src: seq<int>, done: nat) {
    Standing(sb, s0, t, i, off, src, done) && OpLogged(sb, s, t, i)
  }

  /** The transaction from s to t logged all it changed, in few blocks. */
  ghost predicate OpLogged(sb: Super, s: Fs, t: Fs, i: nat) {
    && (sb.size <= BPB ==> |t.logged| <= 7)
    && AllLogged(s.blocks, {}, t.blocks, t.logged) && InodeLogged(sb, s.disk, t.disk, i, t.logged)
  }

  /** The only panics of a transaction of filewrite; the log can be full only if it has no room for 7. */
  ghost predicate OpHalted(sb: Super, nlog: nat, t: Fs, why: Halt) {
    Halted(sb, nlog, true, t, why) && (why == TooBig && sb.size <= BPB ==> NoRoom(nlog, 6))
  }

  /** Where filewrite's loop stands: r is the outcome of its last transaction. */
  ghost predicate Reached(sb: Super, nlog: nat, s0: Fs, t: Fs, i: nat, off: nat, src: seq<int>, r: WriteResult,
                          done: nat, txs: seq<Tx>) {
    && AllCommitted(sb, s0.blocks, s0.disk, txs, i, off, src) && done == ChunkEnd(|src|, |txs|) && i < |s0.inodes|
    && (r.Panicked? ==> OpHalted(sb, nlog, t, r.why))
    && (!r.Panicked? ==>
          Standing(sb, s0, t, i, off, src, done) && LastState(s0.blocks, s0.disk, txs, t.blocks, t.disk))
    && (r == Refused ==> done < |src| && !(off <= s0.inodes[i].size && off + |src| <= MAXFILE * BSIZE))
  }

  /** The outcome of a transaction that took s to t and was to lay n1 more bytes. */
  ghost predicate OpOutcome(sb: Super, nlog: nat, s0: Fs, s: Fs, t: Fs, i: nat, off: nat, src: seq<int>, done: nat,
                            n1: nat, r: WriteResult) {
    match r
    case Panicked(why) => OpHalted(sb, nlog, t, why)
    case Refused =>
      && Standing(sb, s0, t, i, off, src, done) && t == s.(logged := t.logged)
      && i < |s0.inodes| && !(off <= s0.inodes[i].size && off + |src| <= MAXFILE * BSIZE)
    case Written(_) => OpDone(sb, s0, s, t, i, off, src, done + n1)
  }

  function WithTx(txs: seq<Tx>, t: Fs, r: WriteResult): seq<Tx> {
    if r.Written? then txs + [Tx(t.logged, t.blocks, t.disk)] else txs
  }

  lemma ReachedNext(sb: Super, nlog: nat, s0: Fs, s: Fs, t: Fs, i: nat, off: nat, src: seq<int>,
                    from: nat, n1: nat, txs: seq<Tx>, r: WriteResult)
    requires Tracks(sb, s0) && AllCommitted(sb, s0.blocks, s0.disk, txs, i, off, src)
    requires LastState(s0.blocks, s0.disk, txs, s.blocks, s.disk) && i < |s0.inodes|
    requires from == ChunkEnd(|src|, |txs|) < |src| && from + n1 == ChunkEnd(|src|, |txs| + 1)
    requires OpOutcome(sb, nlog, s0, s, t, i, off, src, from, n1, r)
    ensures Reached(sb, nlog, s0, t, i, off, src, r, if r.Written? then from + n1 else from, WithTx(txs, t, r))
  {
    match r
    case Written(n) => ReachedWritten(sb, nlog, s0, s, t, i, off, src, from, n1, txs, n);
    case Refused =>
    case Panicked(_) =>
  }

  lemma ReachedWritten(sb: Super, nlog: nat, s0: Fs, s: Fs, t: Fs, i: nat, off: nat, src: seq<int>,
                       from: nat, n1: nat, txs: seq<Tx>, n: nat)
    requires Tracks(sb, s0) && AllCommitted(sb, s0.blocks, s0.disk, txs, i, off, src)
    requires LastState(s0.blocks, s0.disk, txs, s.blocks, s.disk) && i < |s0.inodes|
    requires from + n1 == ChunkEnd(|src|, |txs| + 1) && OpDone(sb, s0, s, t, i, off, src, from + n1)
    ensures Reached(sb, nlog, s0, t, i, off, src, Written(n), from + n1, WithTx(txs, t, Written(n)))
  {
    CommittedOp(sb, s0, s, t, i, off, src, txs);
  }

  lemma CommittedOp(sb: Super, s0: Fs, s: Fs, t: Fs, i: nat, off: nat, src: seq<int>, txs: seq<Tx>)
    requires AllCommitted(sb, s0.blocks, s0.disk, txs, i, off, src)
    requires LastState(s0.blocks, s0.disk, txs, s.blocks, s.disk) && OpLogged(sb, s, t, i)
    requires Tracks(sb, s0) && Standing(sb, s0, t, i, off, src, ChunkEnd(|src|, |txs| + 1))
    ensures var more := txs + [Tx(t.logged, t.blocks, t.disk)];
            && AllCommitted(sb, s0.blocks, s0.disk, more, i, off, src)
            && LastState(s0.blocks, s0.disk, more, t.blocks, t.disk)
  {
    SoFarOnDisk(sb, s0, t, i, off, src, ChunkEnd(|src|, |txs| + 1));
    CommittedMore(sb, s0.blocks, s0.disk, txs, Tx(t.logged, t.blocks, t.disk), s.blocks, s.disk, i, off, src);
  }

  lemma OpStops(sb: Super, nlog: nat, s: Fs, t: Fs, off: nat, n: nat, why: Halt)
    requires s.logged == {} && 0 < n <= CHUNK && WriteStops(sb, nlog, true, s, t, off, n, why)
    ensures OpHalted(sb, nlog, t, why)
  {
    assert t.logged - {} == t.logged;
    ChunkFits(off, n);
  }

  lemma SoFarStart(sb: Super, blocks: Blocks, inodes: Inodes, i: nat, off: nat, src: seq<int>)
    requires Shape(sb, blocks, inodes) && i < |inodes| && inodes[i].size <= MAXFILE * BSIZE
    ensures SoFar(sb, blocks, inodes, blocks, inodes, i, off, src, 0)
  {
  }

  lemma WriteEnds(sb: Super, b0: Blocks, i0: Inodes, blocks: Blocks, inodes: Inodes, i: nat, off: nat, src: seq<int>,
                  done: nat)
    requires SoFar(sb, b0, i0, blocks, inodes, i, off, src, done)
    ensures done == |src| ==> |src| == 0 || (off <= i0[i].size && off + |src| <= MAXFILE * BSIZE)
  {
  }

  lemma ChunkEndNext(n: nat, k: nat)
    requires ChunkEnd(n, k) < n
    ensures ChunkEnd(n, k + 1) == ChunkEnd(n, k) + if n - ChunkEnd(n, k) > CHUNK then CHUNK else n - ChunkEnd(n, k)
  {
  }

  lemma ChunkFits(off: nat, n: nat)
    requires n <= 3 * BSIZE
    ensures Rounds(off, n) <= 4
  {
  }

  lemma ChunkRefused(sb: Super, b0: Blocks, i0: Inodes, blocks: Blocks, inodes: Inodes, i: nat, off: nat, src: seq<int>,
                     done: nat, n1: nat)
    requires SoFar(sb, b0, i0, blocks, inodes, i, off, src, done) && done + n1 <= |src| && 0 < n1 && |src| < 0x8000_0000
    requires off < LIMIT32
    requires off + done > inodes[i].size || off + done + n1 >= LIMIT32 || off + done + n1 > MAXFILE * BSIZE
    ensures !(off <= i0[i].size && off + |src| <= MAXFILE * BSIZE)
  {
    if done > 0 {
      assert |Overwrite(Contents(b0, i0[i]), off, src[..done])| >= off + done;
    }
  }

  lemma OverwriteJoin(file: seq<int>, off: nat, s1: seq<int>, s2: seq<int>)
    requires off <= |file|
    ensures off + |s1| <= |Overwrite(file, off, s1)|
    ensures Overwrite(Overwrite(file, off, s1), off + |s1|, s2) == Overwrite(file, off, s1 + s2)
  {
  }

  lemma FilesJoin(sb: Super, b0: Blocks, i0: Inodes, b1: Blocks, i1: Inodes, b2: Blocks, i2: Inodes, i: nat, off: nat,
                  s1: seq<int>, s2: seq<int>)
    requires FilesWritten(sb, b0, i0, b1, i1, i, off, s1) && FilesWritten(sb, b1, i1, b2, i2, i, off + |s1|, s2)
    ensures FilesWritten(sb, b0, i0, b2, i2, i, off, s1 + s2)
  {
    OverwriteJoin(Contents(b0, i0[i]), off, s1, s2);
    forall j: nat ensures OtherFile(sb, b0, i0, b2, i2, i, j) {
      assert OtherFile(sb, b0, i0, b1, i1, i, j) && OtherFile(sb, b1, i1, b2, i2, i, j);
    }
  }

  lemma ChunkAppended(sb: Super, b0: Blocks, i0: Inodes, b1: Blocks, i1: Inodes, blocks: Blocks, inodes: Inodes, i: nat,
                      off: nat, src: seq<int>, done: nat, n1: nat)
    requires done + n1 <= |src|
    requires done == 0 ==> b1 == b0 && i1 == i0
    requires done > 0 ==> FilesWritten(sb, b0, i0, b1, i1, i, off, src[..done])
    requires FilesWritten(sb, b1, i1, blocks, inodes, i, off + done, src[done..done + n1])
    ensures FilesWritten(sb, b0, i0, blocks, inodes, i, off, src[..done + n1])
  {
    if done == 0 {
      assert src[..n1] == src[0..n1];
    } else {
      FilesJoin(sb, b0, i0, b1, i1, blocks, inodes, i, off, src[..done], src[done..done + n1]);
      assert src[..done] + src[done..done + n1] == src[..done + n1];
    }
  }

  lemma LaidOp(sb: Super, s0: Fs, s: Fs, t: Fs, i: nat, off: nat, src: seq<int>, done: nat, n1: nat)
    requires Standing(sb, s0, s, i, off, src, done)
    requires 0 < n1 <= CHUNK && done + n1 <= |src|
    requires s.logged == {} && Laid(sb, s, t, i, off + done, src[done..done + n1])
    ensures OpDone(sb, s0, s, t, i, off, src, done + n1)
  {
    LaidStands(sb, s0, s, t, i, off, src, done, n1);
    LaidLogged(sb, s, t, i, off + done, src[done..done + n1]);
  }

  lemma LaidStands(sb: Super, s0: Fs, s: Fs, t: Fs, i: nat, off: nat, src: seq<int>, done: nat, n1: nat)
    requires Standing(sb, s0, s, i, off, src, done) && 0 < n1 && done + n1 <= |src|
    requires Laid(sb, s, t, i, off + done, src[done..done + n1])
    ensures Standing(sb, s0, t, i, off, src, done + n1)
  {
    assert t.disk == s0.disk[i := t.inodes[i]];
    LaidTracks(sb, s, t, i, off + done, src[done..done + n1]);
    LaidSoFar(sb, s0, s, t, i, off, src, done, n1);
  }

  lemma LaidLogged(sb: Super, s: Fs, t: Fs, i: nat, off: nat, src: seq<int>)
    requires s.logged == {} && LogFits(sb, s.logged, t.logged, off, |src|) && Accounts(s, t, i, off + |src|)
    requires Flushed(sb, s, t, i, |src|) && 0 < |src| <= CHUNK
    ensures OpLogged(sb, s, t, i)
  {
    assert t.logged - {} == t.logged;
    ChunkFits(off, |src|);
  }

  lemma LaidSoFar(sb: Super, s0: Fs, s: Fs, t: Fs, i: nat, off: nat, src: seq<int>, done: nat, n1: nat)
    requires SoFar(sb, s0.blocks, s0.inodes, s.blocks, s.inodes, i, off, src, done)
    requires 0 < n1 && done + n1 <= |src| && Laid(sb, s, t, i, off + done, src[done..done + n1])
    ensures SoFar(sb, s0.blocks, s0.inodes, t.blocks, t.inodes, i, off, src, done + n1)
  {
    ChunkAppended(sb, s0.blocks, s0.inodes, s.blocks, s.inodes, t.blocks, t.inodes, i, off, src, done, n1);
    OverwriteSize(Contents(s0.blocks, s0.inodes[i]), off, src[..done + n1]);
  }

  /** What is laid over the file in memory is laid over the file on disk. */
  lemma SoFarOnDisk(sb: Super, s0: Fs, t: Fs, i: nat, off: nat, src: seq<int>, done: nat)
    requires Tracks(sb, s0) && Standing(sb, s0, t, i, off, src, done)
    ensures SoFar(sb, s0.blocks, s0.disk, t.blocks, t.disk, i, off, src, done)
  {
    DiskContents(sb, s0.blocks, s0.inodes, s0.disk, i);
    forall j | 0 <= j < |t.inodes| && j != i && t.disk[j].size <= MAXFILE * BSIZE
      ensures t.disk[j] == s0.disk[j] && Contents(t.blocks, t.disk[j]) == Contents(s0.blocks, s0.disk[j])
    {
      assert OtherFile(sb, s0.blocks, s0.inodes, t.blocks, t.inodes, i, j);
      DiskContents(sb, t.blocks, t.inodes, t.disk, j);
      DiskContents(sb, s0.blocks, s0.inodes, s0.disk, j);
    }
  }

  lemma OverwriteSize(file: seq<int>, off: nat, src: seq<int>)
    requires off <= |file|
    ensures |Overwrite(file, off, src)| >= off + |src|
  {
  }
}
