/** Crash safety of filewrite: its transactions on top of the log.  Wherever the machine crashes,
    and however often recovery crashes too, the blocks that only filewrite writes are those of a
    whole number of chunks (kernel/file.c, kernel/log.c). */
module FileCrash {
  import opened FsBytes
  import opened FsBlocks
  import opened FsAccount
  import opened FsWrite
  import opened FsTx
  import opened LogFormat
  import opened LogProtocol
  import opened Params

  /** A filewrite and the disk it runs on: where the log is, how a block of inodes is laid out, the
      tables before it and its transactions. */
  datatype Job = Job(l: Layout, sb: Super, enc: seq<Inode> -> seq<int>, b0: Blocks, i0: Inodes, txs: seq<Tx>,
                     i: nat, off: nat, src: seq<int>)

  ghost predicate JobOk(c: Job) {
    && c.l.size == LOGSIZE && c.l.nblocks == c.sb.size
    && Shape(c.sb, c.b0, c.i0) && c.i < |c.i0| && c.i0[c.i].size <= MAXFILE * BSIZE
    && AllCommitted(c.sb, c.b0, c.i0, c.txs, c.i, c.off, c.src)
  }

  function BlocksAt(c: Job, k: nat): Blocks
    requires k <= |c.txs|
  {
    if k == 0 then c.b0 else c.txs[k - 1].blocks
  }

  function InodesAt(c: Job, k: nat): Inodes
    requires k <= |c.txs|
  {
    if k == 0 then c.i0 else c.txs[k - 1].inodes
  }

  // ----- The disk after k transactions -----

  /** The inodes of block b. */
  function Slice(sb: Super, inodes: Inodes, b: nat): seq<Inode> {
    if b < sb.inodestart then []
    else
      var lo := (b - sb.inodestart) * IPB;
      if lo >= |inodes| then [] else inodes[lo..if lo + IPB < |inodes| then lo + IPB else |inodes|]
  }

  function CellAt(c: Job, blocks: Blocks, inodes: Inodes, b: nat): seq<int>
    requires b < |blocks|
  {
    if Slice(c.sb, inodes, b) != [] then c.enc(Slice(c.sb, inodes, b)) else blocks[b]
  }

  ghost function Home(c: Job, k: nat): map<int, seq<int>>
    requires JobOk(c) && k <= |c.txs|
  {
    CommittedShape(c, k);
    map b | b in c.l.HomeSet() :: CellAt(c, BlocksAt(c, k), InodesAt(c, k), b)
  }

  /** What transaction k leaves in the blocks it logged. */
  ghost function Wrote(c: Job, k: nat): map<int, seq<int>>
    requires JobOk(c) && k < |c.txs|
  {
    CommittedShape(c, k + 1);
    map b: int | b in c.txs[k].logged && b in c.l.HomeSet() :: CellAt(c, BlocksAt(c, k + 1), InodesAt(c, k + 1), b)
  }

  lemma CommittedShape(c: Job, k: nat)
    requires JobOk(c) && k <= |c.txs|
    ensures Shape(c.sb, BlocksAt(c, k), InodesAt(c, k)) && |InodesAt(c, k)| == |c.i0|
    ensures forall j :: 0 <= j < |c.i0| && j != c.i ==> InodesAt(c, k)[j] == c.i0[j]
    ensures SoFar(c.sb, c.b0, c.i0, BlocksAt(c, k), InodesAt(c, k), c.i, c.off, c.src, ChunkEnd(|c.src|, k))
  {
    if k == 0 {
      SoFarStart(c.sb, c.b0, c.i0, c.i, c.off, c.src);
    } else {
      assert Committed(c.sb, c.b0, c.i0, c.txs, c.i, c.off, c.src, k - 1);
      var blocks, inodes := BlocksAt(c, k), InodesAt(c, k);
      if ChunkEnd(|c.src|, k) > 0 {
        forall j | 0 <= j < |c.i0| && j != c.i ensures inodes[j] == c.i0[j] {
          assert OtherFile(c.sb, c.b0, c.i0, blocks, inodes, c.i, j);
        }
      }
    }
  }

  lemma SliceSame(sb: Super, a: Inodes, b: Inodes, i: nat, x: nat)
    requires |a| == |b| && (forall j :: 0 <= j < |a| && j != i ==> a[j] == b[j]) && i < |a|
    requires a == b || x != i / IPB + sb.inodestart
    ensures Slice(sb, a, x) == Slice(sb, b, x)
  {
    if x >= sb.inodestart {
      var lo := (x - sb.inodestart) * IPB;
      assert a == b || !(lo <= i < lo + IPB);
    }
  }

  lemma CellSame(c: Job, k: nat, b: nat)
    requires JobOk(c) && k < |c.txs| && b < c.sb.size && b !in c.txs[k].logged
    ensures b < |BlocksAt(c, k)| && b < |BlocksAt(c, k + 1)|
    ensures CellAt(c, BlocksAt(c, k), InodesAt(c, k), b) == CellAt(c, BlocksAt(c, k + 1), InodesAt(c, k + 1), b)
  {
    CommittedShape(c, k);
    CommittedShape(c, k + 1);
    assert Committed(c.sb, c.b0, c.i0, c.txs, c.i, c.off, c.src, k);
    assert DiffLogged(BlocksAt(c, k), BlocksAt(c, k + 1), c.txs[k].logged, b);
    SliceSame(c.sb, InodesAt(c, k), InodesAt(c, k + 1), c.i, b);
  }

  /** A transaction's logged blocks account for everything it changed. */
  lemma HomeNext(c: Job, k: nat)
    requires JobOk(c) && k < |c.txs|
    ensures Home(c, k + 1) == Home(c, k) + Wrote(c, k)
  {
    CommittedShape(c, k);
    CommittedShape(c, k + 1);
    forall b | b in c.l.HomeSet() ensures Home(c, k + 1)[b] == (Home(c, k) + Wrote(c, k))[b] {
      if b !in c.txs[k].logged { CellSame(c, k, b); }
    }
  }

  // ----- One client of the log among others -----

  type Cells = map<int, seq<int>>

  /** The disks before, between and after a client's transactions, and what each of them writes. */
  datatype History = History(homes: seq<Cells>, writes: seq<Cells>)

  ghost predicate Adds(h: History, k: nat) {
    k < |h.writes| && k + 1 < |h.homes| ==> h.homes[k + 1] == h.homes[k] + h.writes[k]
  }

  ghost predicate HistoryOk(h: History) {
    |h.homes| == |h.writes| + 1 && forall k {:trigger Adds(h, k)} :: Adds(h, k)
  }

  ghost predicate SameAt(x: Cells, y: Cells, b: int) { (b in x <==> b in y) && (b in x ==> x[b] == y[b]) }

  /** x and y have the same in the blocks of own. */
  ghost predicate Agree(own: set<int>, x: Cells, y: Cells) {
    forall b {:trigger SameAt(x, y, b)} :: b in own ==> SameAt(x, y, b)
  }

  /** Where the client is: between transactions, or inside transaction k, which is the op-th open
      operation and found the group `was` when it began, or gone with a crash. */
  datatype Place = Idle(k: nat) | In(k: nat, op: nat, was: Cells) | Down

  /** What an event does to the client.  Other operations come and go, in the same commit group and
      in any order, and write no block of own.  At its end_op the client's own blocks in the group
      have changed since its begin_op by what transaction k wrote. */
  ghost predicate ClientMove(h: History, own: set<int>, p: Place, a: Spec, e: Event, p': Place) {
    match e
    case BeginOp => p' == p || (p.Idle? && p.k < |h.writes| && p' == In(p.k, a.open, a.pending))
    case LogWrite(i, b, _) => p' == p && ((p.In? && i == p.op) || b !in own)
    case EndOp(i) =>
      if p.In? && i == p.op then
        p.k < |h.writes| && p' == Idle(p.k + 1) && Agree(own, a.pending, p.was + h.writes[p.k])
      else p' == if p.In? && i < p.op then p.(op := p.op - 1) else p
    case Crash => p' == Down
    case _ => p' == p
  }

  /** On its own blocks the atomic disk stands after k whole transactions. */
  ghost predicate WholeAt(h: History, own: set<int>, a: Spec, k: nat) {
    k < |h.homes| && Agree(own, a.durable, h.homes[k])
  }

  /** The group holds, for own, all transactions before k that are not durable yet, and no others. */
  ghost predicate DueAt(h: History, own: set<int>, durable: Cells, group: Cells, k: nat) {
    k < |h.homes| && Agree(own, durable + group, h.homes[k])
  }

  ghost predicate SafeSpec(h: History, own: set<int>, a: Spec, p: Place) {
    && (exists d :: WholeAt(h, own, a, d))
    && match p
       case Idle(k) => DueAt(h, own, a.durable, a.pending, k)
       case In(k, op, was) => k < |h.writes| && op < a.open && DueAt(h, own, a.durable, was, k)
       case Down => Agree(own, a.durable + a.pending, a.durable)
  }

  lemma SpecEnd(h: History, own: set<int>, a: Spec, a': Spec, p: Place)
    requires HistoryOk(h) && p.In? && SafeSpec(h, own, a, p) && SpecStep(a, SEnd, a')
    requires Agree(own, a.pending, p.was + h.writes[p.k])
    ensures SafeSpec(h, own, a', Idle(p.k + 1))
  {
    assert Adds(h, p.k);
    var d: nat :| WholeAt(h, own, a, d);
    assert WholeAt(h, own, a', d);
    forall b | b in own ensures SameAt(a'.durable + a'.pending, h.homes[p.k + 1], b) {
      assert SameAt(a.durable + p.was, h.homes[p.k], b) && SameAt(a.pending, p.was + h.writes[p.k], b);
    }
  }

  lemma SpecWrite(h: History, own: set<int>, a: Spec, b: int, data: seq<int>, a': Spec, p: Place)
    requires SafeSpec(h, own, a, p) && SpecStep(a, SWrite(b, data), a') && (p.In? || b !in own)
    ensures SafeSpec(h, own, a', p)
  {
    var d: nat :| WholeAt(h, own, a, d);
    assert WholeAt(h, own, a', d);
    match p
    case Idle(k) =>
      forall x | x in own ensures SameAt(a'.durable + a'.pending, h.homes[k], x) {
        assert SameAt(a.durable + a.pending, h.homes[k], x);
      }
    case In(_, _, _) =>
    case Down =>
      forall x | x in own ensures SameAt(a'.durable + a'.pending, a'.durable, x) {
        assert SameAt(a.durable + a.pending, a.durable, x);
      }
  }

  lemma SpecCommit(h: History, own: set<int>, a: Spec, a': Spec, p: Place)
    requires SafeSpec(h, own, a, p) && SpecStep(a, SCommit, a')
    ensures SafeSpec(h, own, a', p)
  {
    assert a'.durable + a'.pending == a'.durable;
    match p
    case Idle(k) => assert WholeAt(h, own, a', k);
    case In(_, _, _) =>
    case Down =>
      var d: nat :| WholeAt(h, own, a, d);
      forall b | b in own ensures SameAt(a'.durable, h.homes[d], b) {
        assert SameAt(a.durable + a.pending, a.durable, b) && SameAt(a.durable, h.homes[d], b);
      }
      assert WholeAt(h, own, a', d);
  }

  lemma SpecMove(h: History, own: set<int>, a: Spec, a': Spec, p: Place, p': Place, e: Event)
    requires HistoryOk(h) && SafeSpec(h, own, a, p) && SpecStep(a, Meaning(e), a') && ClientMove(h, own, p, a, e, p')
    requires e.EndOp? ==> e.op < a.open
    ensures SafeSpec(h, own, a', p')
  {
    var d: nat :| WholeAt(h, own, a, d);
    match Meaning(e)
    case SEnd => if p.In? && e.op == p.op { SpecEnd(h, own, a, a', p); } else { assert WholeAt(h, own, a', d); }
    case SWrite(b, data) => SpecWrite(h, own, a, b, data, a', p);
    case SCommit => SpecCommit(h, own, a, a', p);
    case SCrash =>
      assert a'.durable + a'.pending == a'.durable;
      assert WholeAt(h, own, a', d);
    case SBegin => assert WholeAt(h, own, a', d);
    case SSkip =>
  }

  ghost predicate Safe(l: Layout, h: History, own: set<int>, budget: nat, s: State, p: Place) {
    LogProtocol.Inv(l, budget, s) && SafeSpec(h, own, Abs(l, s), p)
  }

  lemma SafeStep(l: Layout, h: History, own: set<int>, budget: nat, s: State, e: Event, p: Place, p': Place)
    requires l.size == LOGSIZE && budget < MAXOPBLOCKS && HistoryOk(h)
    requires Safe(l, h, own, budget, s, p) && Enabled(l, budget, s, e) && ClientMove(h, own, p, Abs(l, s), e, p')
    ensures InRange(l, s, e) && Safe(l, h, own, budget, Next(l, s, e), p')
  {
    StepRefines(l, budget, s, e);
    SpecMove(h, own, Abs(l, s), Abs(l, Next(l, s, e)), p, p', e);
  }

  /** From state m of a run on, when the client's blocks on disk are as before its first transaction
      and none is pending, every event is a move of the client or of the others. */
  ghost predicate Serves(l: Layout, h: History, own: set<int>, budget: nat, ss: seq<State>, es: seq<Event>,
                         ps: seq<Place>, m: nat) {
    && l.size == LOGSIZE && budget < MAXOPBLOCKS && h.homes != []
    && Run(l, budget, ss, es) && m <= |es| && |ps| == |ss| && ps[m] == Idle(0)
    && HeaderOk(l, ss[m].disk) && Agree(own, Durable(l, ss[m].disk), h.homes[0])
    && (forall b :: b in own ==> b !in ss[m].cache)
    && forall n :: m <= n < |es| ==>
         HeaderOk(l, ss[n].disk) && ClientMove(h, own, ps[n], Abs(l, ss[n]), es[n], ps[n + 1])
  }

  lemma ServesStart(l: Layout, h: History, own: set<int>, budget: nat, s: State)
    requires LogProtocol.Inv(l, budget, s) && h.homes != [] && Agree(own, Durable(l, s.disk), h.homes[0])
    requires forall b :: b in own ==> b !in s.cache
    ensures Safe(l, h, own, budget, s, Idle(0))
  {
    var a := Abs(l, s);
    assert WholeAt(h, own, a, 0);
    forall b | b in own ensures SameAt(a.durable + a.pending, h.homes[0], b) {
      assert SameAt(a.durable, h.homes[0], b);
    }
  }

  lemma {:induction false} ServesSafe(l: Layout, h: History, own: set<int>, budget: nat, ss: seq<State>, es: seq<Event>,
                                      ps: seq<Place>, m: nat, n: nat)
    requires HistoryOk(h) && Serves(l, h, own, budget, ss, es, ps, m) && m <= n <= |es|
    ensures Safe(l, h, own, budget, ss[n], ps[n])
    decreases n
  {
    if n == m {
      LogProtocol.RunInv(l, budget, ss, es, m);
      ServesStart(l, h, own, budget, ss[m]);
    } else {
      ServesSafe(l, h, own, budget, ss, es, ps, m, n - 1);
      assert Moves(l, budget, ss[n - 1], es[n - 1], ss[n]);
      SafeStep(l, h, own, budget, ss[n - 1], es[n - 1], ps[n - 1], ps[n]);
    }
  }

  // ----- filewrite -----

  ghost function HistoryOf(c: Job): (h: History)
    requires JobOk(c)
    ensures |h.homes| == |c.txs| + 1 && |h.writes| == |c.txs|
    ensures forall k :: 0 <= k <= |c.txs| ==> h.homes[k] == Home(c, k)
    ensures forall k :: 0 <= k < |c.txs| ==> h.writes[k] == Wrote(c, k)
  {
    History(seq(|c.txs| + 1, k requires 0 <= k <= |c.txs| => Home(c, k)),
            seq(|c.txs|, k requires 0 <= k < |c.txs| => Wrote(c, k)))
  }

  lemma HistoryOfOk(c: Job)
    requires JobOk(c)
    ensures HistoryOk(HistoryOf(c))
  {
    var h := HistoryOf(c);
    forall k: nat ensures Adds(h, k) { if k < |c.txs| { HomeNext(c, k); } }
  }

  /** At every point, what recovery would produce has in the blocks of own what a whole number k of
      filewrite's transactions left there, after which the file is the old one with k whole
      chunks of src laid over it and every other file is as it was.  If own is the whole disk, so that the
      others write nothing, the disk itself is that of k transactions. */
  lemma FileCrashSafe(c: Job, own: set<int>, budget: nat, ss: seq<State>, es: seq<Event>, ps: seq<Place>, m: nat,
                      n: nat)
    returns (k: nat)
    requires JobOk(c) && Serves(c.l, HistoryOf(c), own, budget, ss, es, ps, m) && m <= n <= |es|
    ensures k <= |c.txs| && HeaderOk(c.l, ss[n].disk) && Agree(own, Durable(c.l, ss[n].disk), Home(c, k))
    ensures own == c.l.HomeSet() ==> Durable(c.l, ss[n].disk) == Home(c, k)
    ensures SoFar(c.sb, c.b0, c.i0, BlocksAt(c, k), InodesAt(c, k), c.i, c.off, c.src, ChunkEnd(|c.src|, k))
  {
    HistoryOfOk(c);
    var h := HistoryOf(c);
    ServesSafe(c.l, h, own, budget, ss, es, ps, m, n);
    k :| WholeAt(h, own, Abs(c.l, ss[n]), k);
    CommittedShape(c, k);
    if own == c.l.HomeSet() {
      forall b | b in own ensures Durable(c.l, ss[n].disk)[b] == Home(c, k)[b] {
        assert SameAt(Durable(c.l, ss[n].disk), Home(c, k), b);
      }
    }
  }

  /** Once the machine runs again after a crash, the blocks themselves are those of k transactions. */
  lemma RecoveredFile(c: Job, own: set<int>, budget: nat, ss: seq<State>, es: seq<Event>, ps: seq<Place>, m: nat,
                      n: nat)
    returns (k: nat)
    requires JobOk(c) && Serves(c.l, HistoryOf(c), own, budget, ss, es, ps, m) && m <= n <= |es| && ss[n].pc == Running
    ensures k <= |c.txs| && |ss[n].disk| == |BlocksAt(c, k)| == c.l.nblocks
    ensures forall b :: 0 <= b < c.l.nblocks && c.l.Home(b) && b in own ==>
      ss[n].disk[b] == CellAt(c, BlocksAt(c, k), InodesAt(c, k), b)
    ensures SoFar(c.sb, c.b0, c.i0, BlocksAt(c, k), InodesAt(c, k), c.i, c.off, c.src, ChunkEnd(|c.src|, k))
  {
    k := FileCrashSafe(c, own, budget, ss, es, ps, m, n);
    HistoryOfOk(c);
    ServesSafe(c.l, HistoryOf(c), own, budget, ss, es, ps, m, n);
    CommittedShape(c, k);
    forall b | 0 <= b < c.l.nblocks && c.l.Home(b) && b in own
      ensures ss[n].disk[b] == CellAt(c, BlocksAt(c, k), InodesAt(c, k), b)
    {
      EmptyHeadMeansHome(c.l, ss[n].disk, b);
      assert SameAt(Durable(c.l, ss[n].disk), Home(c, k), b);
      assert Home(c, k)[b] == CellAt(c, BlocksAt(c, k), InodesAt(c, k), b);
    }
  }
}
