/** From the image mkfs builds, through any sequence of readi, writei and itrunc, the file system
    is an array of byte strings (mkfs/mkfs.c, kernel/fs.c). */
module FsRuns {
  import opened FsBytes
  import opened FsBlocks
  import opened FsSlots
  import opened FsTruncate
  import opened FsDisk
  import opened FsWrite
  import opened FsRead
  import opened FileSystem
  import Mkfs
  import opened Options
  import opened Params

  type Files = seq<seq<int>>

  ghost predicate Sized(inodes: Inodes) {
    forall j :: 0 <= j < |inodes| ==> inodes[j].size <= MAXFILE * BSIZE
  }

  /** The files of a disk. */
  ghost function View(sb: Super, blocks: Blocks, inodes: Inodes): (v: Files)
    requires Shape(sb, blocks, inodes) && Sized(inodes)
    ensures |v| == |inodes| && forall j :: 0 <= j < |v| ==> v[j] == Contents(blocks, inodes[j])
  {
    seq(|inodes|, j requires 0 <= j < |inodes| => Contents(blocks, inodes[j]))
  }

  // ----- Arrays of byte strings -----

  /** Writes and truncations come inside a transaction; reads do or, in fileread, do not. */
  datatype FileOp =
    | ReadAt(i: nat, off: nat, n: nat, tx: bool)
    | WriteAt(i: nat, off: nat, src: seq<int>)
    | Truncate(i: nat)
  datatype Reply = Bytes(bytes: seq<int>) | Count(n: nat) | Denied | Cleared

  predicate ByteString(s: seq<int>) { forall k :: 0 <= k < |s| ==> 0 <= s[k] < 256 }

  predicate OpOk(op: FileOp, n: nat) {
    match op
    case ReadAt(i, off, m, _) => i < n && off < LIMIT32 && m < LIMIT32
    case WriteAt(i, off, src) => i < n && off < LIMIT32 && |src| < LIMIT32 && ByteString(src)
    case Truncate(i) => i < n
  }

  predicate InTx(op: FileOp) { op.ReadAt? ==> op.tx }

  predicate Fits(file: seq<int>, off: nat, src: seq<int>) {
    off <= |file| && off + |src| < LIMIT32 && off + |src| <= MAXFILE * BSIZE
  }

  function Respond(files: Files, op: FileOp): Reply
    requires OpOk(op, |files|)
  {
    match op
    case ReadAt(i, off, m, _) => Bytes(ReadOut(files[i], off, m))
    case WriteAt(i, off, src) => if Fits(files[i], off, src) then Count(|src|) else Denied
    case Truncate(i) => Cleared
  }

  function Update(files: Files, op: FileOp): Files
    requires OpOk(op, |files|)
  {
    match op
    case ReadAt(i, off, m, _) => files
    case WriteAt(i, off, src) => if Fits(files[i], off, src) then files[i := Overwrite(files[i], off, src)] else files
    case Truncate(i) => files[i := []]
  }

  /** The files after a sequence of operations. */
  function Replay(files: Files, ops: seq<FileOp>): (after: Files)
    requires forall k :: 0 <= k < |ops| ==> OpOk(ops[k], |files|)
    ensures |after| == |files|
  {
    if ops == [] then files else Update(Replay(files, ops[..|ops| - 1]), ops[|ops| - 1])
  }

  lemma ReplayNext(files: Files, ops: seq<FileOp>, k: nat)
    requires k < |ops| && forall j :: 0 <= j < |ops| ==> OpOk(ops[j], |files|)
    ensures Replay(files, ops[..k + 1]) == Update(Replay(files, ops[..k]), ops[k])
  {
    assert ops[..k + 1][..k] == ops[..k];
  }

  predicate ReplyAt(files: Files, ops: seq<FileOp>, rs: seq<Reply>, k: nat)
    requires forall j :: 0 <= j < |ops| ==> OpOk(ops[j], |files|)
  {
    k < |rs| && k < |ops| ==> rs[k] == Respond(Replay(files, ops[..k]), ops[k])
  }

  /** rs answers the first operations as an array of byte strings would. */
  ghost predicate Answers(files: Files, ops: seq<FileOp>, rs: seq<Reply>)
    requires forall j :: 0 <= j < |ops| ==> OpOk(ops[j], |files|)
  {
    |rs| <= |ops| && forall k {:trigger ReplyAt(files, ops, rs, k)} :: ReplyAt(files, ops, rs, k)
  }

  lemma AnswersMore(files: Files, ops: seq<FileOp>, rs: seq<Reply>, r: Reply)
    requires forall j :: 0 <= j < |ops| ==> OpOk(ops[j], |files|)
    requires |rs| < |ops| && Answers(files, ops, rs) && ReplyAt(files, ops, rs + [r], |rs|)
    ensures Answers(files, ops, rs + [r])
  {
    var more := rs + [r];
    forall k: nat ensures ReplyAt(files, ops, more, k) {
      assert ReplyAt(files, ops, rs, k);
      if k < |rs| { assert more[k] == rs[k]; }
    }
  }

  // ----- The kernel's operations -----

  ghost predicate Ready(fs: FileSys)
    reads fs
  {
    fs.Valid() && Sized(fs.inodes) && !fs.open && fs.logged == {}
  }

  ghost function Now(fs: FileSys): Files
    requires Ready(fs)
    reads fs
  {
    View(fs.sb, fs.blocks, fs.inodes)
  }

  lemma LaidView(sb: Super, s: Fs, t: Fs, i: nat, off: nat, src: seq<int>)
    requires Sound(sb, s) && Sized(s.inodes) && Laid(sb, s, t, i, off, src) && off + |src| <= MAXFILE * BSIZE
    ensures Sized(t.inodes)
    ensures var v := View(sb, s.blocks, s.inodes);
            i < |v| && off <= |v[i]| && View(sb, t.blocks, t.inodes) == v[i := Overwrite(v[i], off, src)]
    ensures s.disk == s.inodes ==> t.disk == t.inodes
    ensures AllMapped(sb, s.blocks, s.inodes) ==> AllMapped(sb, t.blocks, t.inodes)
  {
    WrittenView(sb, s.blocks, s.inodes, t.blocks, t.inodes, i, off, src);
    if AllMapped(sb, s.blocks, s.inodes) {
      assert MappedAt(sb, s.blocks, s.inodes, i);
      AllMappedKept(sb, s.blocks, s.inodes, s.owner, t.blocks, t.inodes, t.owner, i);
    }
  }

  lemma WrittenView(sb: Super, b0: Blocks, i0: Inodes, blocks: Blocks, inodes: Inodes, i: nat, off: nat, src: seq<int>)
    requires FilesWritten(sb, b0, i0, blocks, inodes, i, off, src) && Sized(i0)
    ensures Sized(inodes) && (forall j :: 0 <= j < |inodes| && j != i ==> inodes[j] == i0[j])
    ensures var v := View(sb, b0, i0); off <= |v[i]| && View(sb, blocks, inodes) == v[i := Overwrite(v[i], off, src)]
  {
    forall j | 0 <= j < |inodes| && j != i
      ensures inodes[j] == i0[j] && Contents(blocks, inodes[j]) == Contents(b0, i0[j])
    {
      assert OtherFile(sb, b0, i0, blocks, inodes, i, j);
    }
    forall j | 0 <= j < |inodes| ensures inodes[j].size <= MAXFILE * BSIZE { }
  }

  lemma GainedView(sb: Super, s: Fs, t: Fs, i: nat, limit: nat)
    requires Sound(sb, s) && Sized(s.inodes) && Gained(sb, s, t, i, limit)
    ensures Sized(t.inodes) && View(sb, t.blocks, t.inodes) == View(sb, s.blocks, s.inodes)
    ensures AllMapped(sb, s.blocks, s.inodes) ==> AllMapped(sb, t.blocks, t.inodes)
  {
    forall j | 0 <= j < |t.inodes|
      ensures t.inodes[j].size == s.inodes[j].size && Contents(t.blocks, t.inodes[j]) == Contents(s.blocks, s.inodes[j])
    {
      ExtendedContents(sb, s.blocks, s.inodes, t.blocks, t.inodes, i, j);
    }
    if AllMapped(sb, s.blocks, s.inodes) {
      assert MappedAt(sb, s.blocks, s.inodes, i);
      ExtendedMapped(sb, s.blocks, s.inodes, t.blocks, t.inodes, i);
      AllMappedKept(sb, s.blocks, s.inodes, s.owner, t.blocks, t.inodes, t.owner, i);
    }
  }

  lemma TruncatedView(sb: Super, s: Fs, t: Fs, i: nat)
    requires Sound(sb, s) && Sized(s.inodes) && Sound(sb, t)
    requires Truncated(sb, s.blocks, s.inodes, s.owner, t.blocks, t.inodes, t.owner, i)
    ensures Sized(t.inodes) && View(sb, t.blocks, t.inodes) == View(sb, s.blocks, s.inodes)[i := []]
    ensures AllMapped(sb, s.blocks, s.inodes) ==> AllMapped(sb, t.blocks, t.inodes)
  {
    forall j | 0 <= j < |t.inodes| ensures t.inodes[j].size <= MAXFILE * BSIZE { }
    forall j | 0 <= j < |t.inodes| && j != i
      ensures Contents(t.blocks, t.inodes[j]) == Contents(s.blocks, s.inodes[j])
    {
      OtherContents(sb, s.blocks, s.inodes, t.blocks, t.inodes, i, j);
    }
    if AllMapped(sb, s.blocks, s.inodes) {
      AllMappedKept(sb, s.blocks, s.inodes, s.owner, t.blocks, t.inodes, t.owner, i);
    }
  }

  lemma OtherContents(sb: Super, b0: Blocks, i0: Inodes, blocks: Blocks, inodes: Inodes, i: nat, j: nat)
    requires Shape(sb, b0, i0) && Shape(sb, blocks, inodes) && OthersSame(sb, b0, i0, blocks, inodes, i)
    requires j < |inodes| == |i0| && j != i && inodes[j] == i0[j] && i0[j].size <= MAXFILE * BSIZE
    ensures Contents(blocks, inodes[j]) == Contents(b0, i0[j])
  {
    forall x | 0 <= x < i0[j].size ensures ByteAt(blocks, inodes[j], x) == ByteAt(b0, i0[j], x) { }
  }

  /** One operation.  A read outside a transaction goes through exactly if it meets no hole. */
  method Do(fs: FileSys, op: FileOp) returns (r: Outcome<Reply>)
    requires Ready(fs) && OpOk(op, |fs.inodes|)
    modifies fs
    ensures r.Done? ==> Ready(fs) && Now(fs) == Update(old(Now(fs)), op) && r.value == Respond(old(Now(fs)), op)
    ensures r.Done? && old(Whole(fs)) ==> Whole(fs)
    ensures r.Stop? ==> Halted(fs.sb, fs.nlog, InTx(op), fs.Now(), r.why)
    ensures r.Stop? ==> op.WriteAt? || !old(Whole(fs)) || Cramped(fs)
    ensures !InTx(op) ==> (r.Done? <==> old(NoHole(fs.blocks, fs.inodes[op.i], op.off, op.n)))
  {
    match op
    case ReadAt(i, off, n, tx) => r := DoRead(fs, i, off, n, tx);
    case WriteAt(i, off, src) => r := DoWrite(fs, i, off, src);
    case Truncate(i) => r := DoTruncate(fs, i);
  }

  /** No file has a hole, in memory or on disk. */
  ghost predicate Whole(fs: FileSys)
    reads fs
  {
    AllMapped(fs.sb, fs.blocks, fs.inodes) && fs.disk == fs.inodes
  }

  /** The log is too small even to truncate a file, or the disk has more than one bitmap block. */
  ghost predicate Cramped(fs: FileSys) { NoRoom(fs.nlog, 1) || fs.sb.size > BPB }

  method DoRead(fs: FileSys, i: nat, off: nat, n: nat, tx: bool) returns (r: Outcome<Reply>)
    requires Ready(fs) && OpOk(ReadAt(i, off, n, tx), |fs.inodes|)
    modifies fs
    ensures r.Done? ==> Ready(fs) && Now(fs) == old(Now(fs)) && r.value == Bytes(ReadOut(old(Now(fs))[i], off, n))
    ensures r.Stop? ==> Halted(fs.sb, fs.nlog, tx, fs.Now(), r.why)
    ensures old(Whole(fs)) ==> r.Done? && Whole(fs)
    ensures !tx ==> (r.Done? <==> old(NoHole(fs.blocks, fs.inodes[i], off, n)))
  {
    ghost var s := fs.Now();
    if Whole(fs) { WholeRange(fs.sb, s, i, off, n); }
    if tx { fs.BeginOp(); }
    var bytes := fs.Readi(i, off, n);
    if bytes.Stop? { return Stop(bytes.why); }
    GainedView(fs.sb, s, fs.Now(), i, s.inodes[i].size);
    if tx { fs.EndOp(); }
    r := Done(Bytes(bytes.value));
  }

  lemma WholeRange(sb: Super, s: Fs, i: nat, off: nat, n: nat)
    requires AllMapped(sb, s.blocks, s.inodes) && i < |s.inodes|
    ensures NoHole(s.blocks, s.inodes[i], off, n)
  {
    assert MappedAt(sb, s.blocks, s.inodes, i);
  }

  method DoWrite(fs: FileSys, i: nat, off: nat, src: seq<int>) returns (r: Outcome<Reply>)
    requires Ready(fs) && OpOk(WriteAt(i, off, src), |fs.inodes|)
    modifies fs
    ensures r.Done? ==> Ready(fs) && Now(fs) == Update(old(Now(fs)), WriteAt(i, off, src))
    ensures r.Done? ==> r.value == Respond(old(Now(fs)), WriteAt(i, off, src))
    ensures r.Done? && old(Whole(fs)) ==> Whole(fs)
    ensures r.Stop? ==> Halted(fs.sb, fs.nlog, true, fs.Now(), r.why)
  {
    ghost var s := fs.Now();
    fs.BeginOp();
    var w := fs.Writei(i, off, src);
    if w.Panicked? { return Stop(w.why); }
    if w.Written? { LaidView(fs.sb, s, fs.Now(), i, off, src); }
    fs.EndOp();
    r := Done(if w.Written? then Count(w.n) else Denied);
  }

  method DoTruncate(fs: FileSys, i: nat) returns (r: Outcome<Reply>)
    requires Ready(fs) && OpOk(Truncate(i), |fs.inodes|)
    modifies fs
    ensures r.Done? ==> Ready(fs) && Now(fs) == old(Now(fs))[i := []] && r.value == Cleared
    ensures r.Done? && old(Whole(fs)) ==> Whole(fs)
    ensures r.Stop? ==> Halted(fs.sb, fs.nlog, true, fs.Now(), r.why) && Cramped(fs)
  {
    ghost var s := fs.Now();
    fs.BeginOp();
    var t := fs.Itrunc(i);
    if t.Stop? {
      if fs.sb.size <= BPB { SubsetSize(fs.logged, {fs.sb.bmapstart}); }
      return Stop(t.why);
    }
    TruncatedView(fs.sb, s, fs.Now(), i);
    fs.EndOp();
    r := Done(Cleared);
  }

  /** Any sequence of operations: every reply, and the files at the end, in memory and on disk, are
      those of an array of byte strings.  The blocks are properly owned on disk exactly if no
      address is missing there, so always if no file had a hole to begin with. */
  method RunOps(fs: FileSys, ops: seq<FileOp>) returns (rs: seq<Reply>, halt: Option<Halt>)
    requires Ready(fs) && forall k :: 0 <= k < |ops| ==> OpOk(ops[k], |fs.inodes|)
    modifies fs
    ensures Answers(old(Now(fs)), ops, rs) && (halt.None? <==> |rs| == |ops|)
    ensures halt.None? ==> Ready(fs) && Now(fs) == Replay(old(Now(fs)), ops) && SameOnDisk(fs)
    ensures halt.None? ==> (DiskOwns(fs.sb, fs.blocks, fs.disk) <==> fs.disk == fs.inodes)
    ensures halt.Some? ==> Halted(fs.sb, fs.nlog, InTx(ops[|rs|]), fs.Now(), halt.value)
    ensures old(Whole(fs)) ==> if halt.None? then Whole(fs) else ops[|rs|].WriteAt? || Cramped(fs)
  {
    rs, halt := [], None;
    ghost var files := Now(fs);
    ghost var whole := Whole(fs);
    while |rs| < |ops|
      invariant Answers(files, ops, rs) && Ready(fs) && Now(fs) == Replay(files, ops[..|rs|])
      invariant whole ==> Whole(fs)
    {
      var r := Do(fs, ops[|rs|]);
      if r.Stop? { return rs, Some(r.why); }
      ReplayNext(files, ops, |rs|);
      AnswersMore(files, ops, rs, r.value);
      rs := rs + [r.value];
    }
    assert ops[..|rs|] == ops;
    DiskView(fs.sb, fs.Now());
    DiskOwnsIff(fs.sb, fs.blocks, fs.inodes, fs.owner, fs.disk);
  }

  /** A reboot would find the same files. */
  ghost predicate SameOnDisk(fs: FileSys)
    requires Ready(fs)
    reads fs
  {
    Sized(fs.disk) && View(fs.sb, fs.blocks, fs.disk) == Now(fs)
  }

  lemma DiskView(sb: Super, s: Fs)
    requires Tracks(sb, s) && Sized(s.inodes)
    ensures Sized(s.disk) && View(sb, s.blocks, s.disk) == View(sb, s.blocks, s.inodes)
  {
    forall j | 0 <= j < |s.disk|
      ensures s.disk[j].size == s.inodes[j].size && Contents(s.blocks, s.disk[j]) == Contents(s.blocks, s.inodes[j])
    {
      DiskContents(sb, s.blocks, s.inodes, s.disk, j);
    }
  }

  // ----- The image -----

  /** mkfs appends src to inode i. */
  datatype Add = Add(i: nat, src: seq<int>)

  function Built(files: Files, adds: seq<Add>): (after: Files)
    ensures |after| == |files|
  {
    if adds == [] then files
    else
      var was, a := Built(files, adds[..|adds| - 1]), adds[|adds| - 1];
      if a.i < |was| then was[a.i := was[a.i] + a.src] else was
  }

  function Empty(): Files { seq(Mkfs.NINODES, _ => []) }

  /** Every append fits its file, as mkfs asserts. */
  predicate AddsOk(adds: seq<Add>) {
    forall k :: 0 <= k < |adds| ==>
      && adds[k].i < Mkfs.NINODES && ByteString(adds[k].src)
      && |Built(Empty(), adds[..k])[adds[k].i]| + |adds[k].src| <= MAXFILE * BSIZE
  }

  /** Twice the file blocks that the appends touch. */
  function Need(adds: seq<Add>): nat {
    if adds == [] then 0
    else
      var was, a := adds[..|adds| - 1], adds[|adds| - 1];
      var size := if a.i < Mkfs.NINODES then |Built(Empty(), was)[a.i]| else 0;
      Need(was) + 2 * Rounds(size, |a.src|)
  }

  lemma BuiltNext(adds: seq<Add>, k: nat)
    requires k < |adds| && adds[k].i < Mkfs.NINODES
    ensures Built(Empty(), adds[..k + 1])
         == Built(Empty(), adds[..k])[adds[k].i := Built(Empty(), adds[..k])[adds[k].i] + adds[k].src]
    ensures Need(adds[..k + 1]) == Need(adds[..k]) + 2 * Rounds(|Built(Empty(), adds[..k])[adds[k].i]|, |adds[k].src|)
  {
    assert adds[..k + 1][..k] == adds[..k];
  }

  lemma {:induction false} NeedGrows(adds: seq<Add>, k: nat)
    requires k <= |adds|
    ensures Need(adds[..k]) <= Need(adds)
    decreases |adds|
  {
    if k < |adds| {
      NeedGrows(adds[..|adds| - 1], k);
      assert adds[..|adds| - 1][..k] == adds[..k];
    } else {
      assert adds[..k] == adds;
    }
  }

  /** The root directory is padded with empty entries to the next block boundary past its end. */
  function Padded(files: Files): Files
    requires |files| > ROOTINO
  {
    var root := files[ROOTINO];
    files[ROOTINO := root + Mkfs.Zeros((|root| / BSIZE + 1) * BSIZE - |root|)]
  }

  ghost predicate Building(b: Mkfs.ImageBuilder, files: Files)
    reads b
  {
    b.Valid() && b.sb == Mkfs.Image && Sized(b.inodes) && View(b.sb, b.blocks, b.inodes) == files
    && AllMapped(b.sb, b.blocks, b.inodes)
  }

  method BuildOne(b: Mkfs.ImageBuilder, a: Add, ghost files: Files) returns (ok: bool)
    requires Building(b, files) && a.i < |files| && ByteString(a.src) && |files[a.i]| + |a.src| <= MAXFILE * BSIZE
    modifies b
    ensures ok ==> Building(b, files[a.i := files[a.i] + a.src])
    ensures ok ==> b.freeblock <= old(b.freeblock) + 2 * Rounds(|files[a.i]|, |a.src|)
    ensures !ok ==> Mkfs.Image.size <= old(b.freeblock) + 2 * Rounds(|files[a.i]|, |a.src|)
  {
    ghost var s := b.Now();
    ok := b.Iappend(a.i, a.src);
    if ok { ExtendsView(b.sb, s, b.Now(), a.i, a.src); }
  }

  lemma ExtendsView(sb: Super, s: Mkfs.Img, u: Mkfs.Img, i: nat, src: seq<int>)
    requires Mkfs.Handing(sb, s) && Sized(s.inodes) && i < |s.inodes| && Mkfs.Extends(sb, s, u, i, src)
    ensures Sized(u.inodes)
    ensures var v := View(sb, s.blocks, s.inodes); View(sb, u.blocks, u.inodes) == v[i := v[i] + src]
  {
    var file := Contents(s.blocks, s.inodes[i]);
    WrittenView(sb, s.blocks, s.inodes, u.blocks, u.inodes, i, |file|, src);
    assert Overwrite(file, |file|, src) == file + src;
  }

  /** mkfs: the kernel finds exactly the files that were appended, and the root padded.  None means
      that the disk is too small. */
  method MakeImage(adds: seq<Add>) returns (r: Option<FileSys>)
    requires AddsOk(adds) && |Built(Empty(), adds)[ROOTINO]| < MAXFILE * BSIZE
    ensures r.Some? ==> fresh(r.value) && Ready(r.value) && r.value.sb == Mkfs.Image && r.value.nlog == LOGSIZE
    ensures r.Some? ==> r.value.disk == r.value.inodes
    ensures r.Some? ==> Now(r.value) == Padded(Built(Empty(), adds))
    ensures r.Some? ==>
      (AllMapped(r.value.sb, r.value.blocks, r.value.inodes) <==> |Built(Empty(), adds)[ROOTINO]| % BSIZE != 0)
    ensures r.None? ==> Mkfs.Image.size <= Mkfs.NMETA + Need(adds)
  {
    var b := new Mkfs.ImageBuilder();
    assert View(b.sb, b.blocks, b.inodes) == Empty();
    var k := 0;
    while k < |adds|
      invariant k <= |adds| && fresh(b) && Building(b, Built(Empty(), adds[..k]))
      invariant b.freeblock <= Mkfs.NMETA + Need(adds[..k])
    {
      BuiltNext(adds, k);
      NeedGrows(adds, k + 1);
      var ok := BuildOne(b, adds[k], Built(Empty(), adds[..k]));
      if !ok { return None; }
      k := k + 1;
    }
    assert adds[..k] == adds;
    r := Finish(b, Built(Empty(), adds));
  }

  /** main after its last append. */
  method Finish(b: Mkfs.ImageBuilder, ghost files: Files) returns (r: Option<FileSys>)
    requires Building(b, files) && |files[ROOTINO]| < MAXFILE * BSIZE
    modifies b
    ensures r.Some? && fresh(r.value) && Ready(r.value) && r.value.sb == Mkfs.Image && r.value.nlog == LOGSIZE
    ensures Now(r.value) == Padded(files) && r.value.disk == r.value.inodes
    ensures AllMapped(r.value.sb, r.value.blocks, r.value.inodes) <==> |files[ROOTINO]| % BSIZE != 0
  {
    ghost var s := b.Now();
    assert MappedAt(b.sb, b.blocks, b.inodes, ROOTINO);
    b.RoundUp(ROOTINO);
    ghost var t := b.Now();
    RoundedView(b.sb, s, t);
    var ok := b.Balloc();
    BitmapView(b.sb, t.blocks, b.blocks, b.inodes);
    var fs := new FileSys(b.sb, b.blocks, b.inodes, LOGSIZE, b.owner);
    r := Some(fs);
  }

  lemma RoundedView(sb: Super, s: Mkfs.Img, t: Mkfs.Img)
    requires Shape(sb, s.blocks, s.inodes) && Shape(sb, t.blocks, t.inodes) && Sized(s.inodes)
    requires AllMapped(sb, s.blocks, s.inodes)
    requires |s.inodes| > ROOTINO && s.inodes[ROOTINO].size < MAXFILE * BSIZE && t.blocks == s.blocks
    requires var root := s.inodes[ROOTINO]; var size := (root.size / BSIZE + 1) * BSIZE;
      && t.inodes == s.inodes[ROOTINO := root.(size := size)] && root.size <= size <= MAXFILE * BSIZE
      && Contents(t.blocks, t.inodes[ROOTINO]) == Contents(s.blocks, root) + Mkfs.Zeros(size - root.size)
    ensures Sized(t.inodes) && View(sb, t.blocks, t.inodes) == Padded(View(sb, s.blocks, s.inodes))
    ensures AllMapped(sb, t.blocks, t.inodes) <==> MappedBelow(t.blocks, t.inodes[ROOTINO])
  {
    forall j | 0 <= j < |t.inodes| ensures t.inodes[j].size <= MAXFILE * BSIZE { }
    assert AllMapped(sb, t.blocks, t.inodes) ==> MappedAt(sb, t.blocks, t.inodes, ROOTINO);
    if MappedBelow(t.blocks, t.inodes[ROOTINO]) {
      forall j: nat ensures MappedAt(sb, t.blocks, t.inodes, j) { assert MappedAt(sb, s.blocks, s.inodes, j); }
    }
  }

  lemma BitmapContents(sb: Super, b0: Blocks, blocks: Blocks, inodes: Inodes, j: nat)
    requires Mkfs.SameFiles(sb, b0, inodes, blocks, inodes) && j < |inodes| && inodes[j].size <= MAXFILE * BSIZE
    ensures Contents(blocks, inodes[j]) == Contents(b0, inodes[j])
  {
    forall x | 0 <= x < inodes[j].size ensures ByteAt(blocks, inodes[j], x) == ByteAt(b0, inodes[j], x) { }
  }

  lemma BitmapView(sb: Super, b0: Blocks, blocks: Blocks, inodes: Inodes)
    requires Mkfs.SameFiles(sb, b0, inodes, blocks, inodes) && Sized(inodes)
    ensures View(sb, blocks, inodes) == View(sb, b0, inodes)
    ensures AllMapped(sb, blocks, inodes) <==> AllMapped(sb, b0, inodes)
  {
    forall j | 0 <= j < |inodes| ensures Contents(blocks, inodes[j]) == Contents(b0, inodes[j]) {
      BitmapContents(sb, b0, blocks, inodes, j);
    }
    forall j: nat ensures MappedAt(sb, blocks, inodes, j) <==> MappedAt(sb, b0, inodes, j) {
      if j < |inodes| { assert SameSlots(b0, blocks, inodes[j]); }
    }
  }

  /** From mkfs through any sequence of operations: what was built is what is read.  While the root
      directory's entries do not end on a block boundary, only writes can stop and the blocks stay
      properly owned on disk. */
  method BootAndRun(adds: seq<Add>, ops: seq<FileOp>) returns (r: Option<FileSys>, rs: seq<Reply>, halt: Option<Halt>)
    requires AddsOk(adds) && |Built(Empty(), adds)[ROOTINO]| < MAXFILE * BSIZE
    requires forall k :: 0 <= k < |ops| ==> OpOk(ops[k], Mkfs.NINODES)
    ensures r.None? ==> Mkfs.Image.size <= Mkfs.NMETA + Need(adds)
    ensures r.Some? ==> fresh(r.value) && Answers(Padded(Built(Empty(), adds)), ops, rs)
    ensures r.Some? ==> (halt.None? <==> |rs| == |ops|)
    ensures r.Some? && halt.Some? ==> Halted(r.value.sb, LOGSIZE, InTx(ops[|rs|]), r.value.Now(), halt.value)
    ensures r.Some? && halt.None? ==>
      && Ready(r.value) && Now(r.value) == Replay(Padded(Built(Empty(), adds)), ops) && SameOnDisk(r.value)
      && (DiskOwns(r.value.sb, r.value.blocks, r.value.disk) <==> r.value.disk == r.value.inodes)
    ensures r.Some? && |Built(Empty(), adds)[ROOTINO]| % BSIZE != 0 ==>
      if halt.None? then DiskOwns(r.value.sb, r.value.blocks, r.value.disk) else ops[|rs|].WriteAt?
  {
    rs, halt := [], None;
    r := MakeImage(adds);
    if r.Some? { rs, halt := RunOps(r.value, ops); }
  }

  // ----- Reading a hole -----

  /** The disk of a root directory of 64 entries, as mkfs leaves it: properly owned, not full, and with
      no block for the second half of the root. */
  ghost predicate HoleDisk(fs: FileSys, entries: seq<int>)
    reads fs
  {
    && Ready(fs) && fs.sb == Mkfs.Image && fs.nlog == LOGSIZE && ROOTINO < |fs.inodes| && |entries| == 1024
    && DiskOwns(fs.sb, fs.blocks, fs.disk) && !DiskFull(fs.sb, fs.blocks)
    && fs.inodes[ROOTINO].size == 2048 && fs.inodes[ROOTINO].addrs[1] == 0
    && Now(fs)[ROOTINO] == entries + Mkfs.Zeros(1024)
  }

  /** mkfs leaves such a disk for any 64 entries. */
  method HoleImage(entries: seq<int>) returns (fs: FileSys)
    requires |entries| == 1024 && ByteString(entries)
    ensures fresh(fs) && HoleDisk(fs, entries)
  {
    var b := Mkfs.RootWithHole(entries);
    ghost var s := b.Now();
    var ok := b.Balloc();
    LastFree(b.sb, b.blocks, b.inodes, b.owner);
    BitmapContents(b.sb, s.blocks, b.blocks, b.inodes, ROOTINO);
    fs := new FileSys(b.sb, b.blocks, b.inodes, LOGSIZE, b.owner);
  }

  lemma LastFree(sb: Super, blocks: Blocks, inodes: Inodes, owner: map<nat, Slot>)
    requires Owns(sb, blocks, inodes, owner, {}, -1, 0) && sb.nmeta < sb.size && sb.size - 1 !in owner
    ensures !DiskFull(sb, blocks) && DiskOwns(sb, blocks, inodes)
  {
    assert !Marked(sb, blocks, sb.size - 1);
  }

  /** fileread of the entry after those 64: no transaction is open, so the kernel stops although the
      disk is not full. */
  method HoleReadOutside(fs: FileSys, ghost entries: seq<int>) returns (r: Outcome<seq<int>>)
    requires HoleDisk(fs, entries)
    modifies fs
    ensures r == Stop(OutsideTrans)
  {
    ghost var s := fs.Now();
    HoleThere(s, ROOTINO);
    r := fs.Readi(ROOTINO, 1024, 16);
    ShortLog(fs.sb, s, fs.Now(), ROOTINO, r);
  }

  /** The same read inside a transaction: it returns zeros, every block is owned in memory, and on
      disk one is marked that no slot holds. */
  method HoleReadInside(fs: FileSys, ghost entries: seq<int>) returns (r: Outcome<seq<int>>)
    requires HoleDisk(fs, entries)
    modifies fs
    ensures r == Done(Mkfs.Zeros(16)) && Ready(fs) && !DiskOwns(fs.sb, fs.blocks, fs.disk)
  {
    ghost var s := fs.Now();
    fs.BeginOp();
    HoleThere(s, ROOTINO);
    r := fs.Readi(ROOTINO, 1024, 16);
    ShortLog(fs.sb, s, fs.Now(), ROOTINO, r);
    HoleZeros(entries);
    HoleSized(fs.sb, s, fs.Now());
    fs.EndOp();
  }

  lemma HoleZeros(entries: seq<int>)
    requires |entries| == 1024
    ensures ReadOut(entries + Mkfs.Zeros(1024), 1024, 16) == Mkfs.Zeros(16)
  {
  }

  lemma HoleSized(sb: Super, s: Fs, t: Fs)
    requires Sound(sb, s) && Sized(s.inodes) && Gained(sb, s, t, ROOTINO, 2048)
    ensures Sized(t.inodes)
  {
    GainedView(sb, s, t, ROOTINO, 2048);
  }

  lemma HoleThere(s: Fs, i: nat)
    requires i < |s.inodes| && |s.inodes[i].addrs| == NDIRECT + 1 && s.inodes[i].addrs[NDIRECT] < |s.blocks|
    requires |s.blocks[s.inodes[i].addrs[NDIRECT]]| == BSIZE && s.inodes[i].size == 2048 && s.inodes[i].addrs[1] == 0
    ensures !NoHole(s.blocks, s.inodes[i], 1024, 16) && !OwnAddrs(s.inodes[i], 1024, 16)
  {
    assert Touches(1024, ReadEnd(2048, 1024, 16), 1);
  }

  /** A read within one direct block of a disk that is not full fits the log. */
  lemma ShortLog(sb: Super, s: Fs, t: Fs, i: nat, r: Outcome<seq<int>>)
    requires sb == Mkfs.Image && !DiskFull(sb, s.blocks) && s.logged == {}
    requires r.Stop? ==> exists open :: ChunkStops(sb, LOGSIZE, open, s, t, i, 1, r.why)
    ensures r.Stop? ==> r.why == OutsideTrans
  {
    if r.Stop? {
      var extra := t.logged - s.logged - {sb.bmapstart, IndirectOf(t, i)};
      SubsetSize(t.logged, extra + {sb.bmapstart, IndirectOf(t, i)});
    }
  }
}
