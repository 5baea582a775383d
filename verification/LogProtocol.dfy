/** kernel/log.c as a transition system.  Operations interleave at log.lock granularity, the
    committing thread and the recovering boot advance one block write at a time, and a crash
    may strike between any two steps. */
module LogProtocol {
  import opened LogFormat
  import opened Params

  /** One open operation: how many new blocks it has put in the log, and whether it has passed
      log_write's unlocked test and is about to append. */
  datatype Op = Op(used: nat, tested: bool)

  datatype Pc =
    | Running
    | WritingLog(tail: nat)       // commit: write_log
    | Installing(tail: nat)       // commit: header written, install_trans
    | Finishing                   // commit: log erased, committing not yet cleared
    | Booting                     // memory lost, recover_from_log not begun
    | Recovering(tail: nat)       // recover_from_log: install_trans

  datatype State = State(disk: Disk, lh: seq<int>, cache: map<int, Block>, ops: seq<Op>,
                         committing: bool, pc: Pc, panicked: bool)

  datatype Event =
    | BeginOp | TestLog(op: nat) | LogWrite(op: nat, blockno: int, data: Block) | EndOp(op: nat)
    | WriteLogBlock | WriteHead | InstallBlock | EraseHead | CommitDone
    | Crash | ReadHead | RecoverBlock | RecoverErase

  predicate Enabled(l: Layout, budget: nat, s: State, e: Event) {
    !s.panicked &&
    match e
    case BeginOp =>
      && s.pc != Booting && !s.pc.Recovering? && !s.committing
      && |s.lh| + (|s.ops| + 1) * MAXOPBLOCKS <= LOGSIZE
    case TestLog(i) => i < |s.ops| && !s.ops[i].tested
    case LogWrite(i, b, _) => i < |s.ops| && s.ops[i].tested && l.Home(b) && (b in s.lh || s.ops[i].used < budget)
    case EndOp(i) => i < |s.ops| && !s.ops[i].tested
    case WriteLogBlock => s.pc.WritingLog? && s.pc.tail < |s.lh|
    case WriteHead => s.pc == WritingLog(|s.lh|)
    case InstallBlock => s.pc.Installing? && s.pc.tail < |s.lh|
    case EraseHead => s.pc == Installing(|s.lh|)
    case CommitDone => s.pc == Finishing
    case Crash => true
    case ReadHead => s.pc == Booting
    case RecoverBlock => s.pc.Recovering? && s.pc.tail < |s.lh|
    case RecoverErase => s.pc == Recovering(|s.lh|)
  }

  predicate InRange(l: Layout, s: State, e: Event) {
    && l.Ok() && |s.disk| == l.nblocks && |s.disk[l.start]| == WORDS
    && match e
       case WriteLogBlock => s.pc.WritingLog? && s.pc.tail < |s.lh| < l.size && s.lh[s.pc.tail] in s.cache
       case WriteHead => |s.lh| < WORDS
       case InstallBlock => s.pc.Installing? && s.pc.tail < |s.lh| < l.size && l.Home(s.lh[s.pc.tail])
       case RecoverBlock => s.pc.Recovering? && s.pc.tail < |s.lh| < l.size && l.Home(s.lh[s.pc.tail])
       case ReadHead => 0 <= s.disk[l.start][0] < l.size
       case _ => true
  }

  /** The step each event takes; every index it needs is covered by InRange. */
  function Next(l: Layout, s: State, e: Event): State
    requires InRange(l, s, e)
    requires match e
             case TestLog(i) => i < |s.ops|
             case EndOp(i) => i < |s.ops|
             case LogWrite(i, _, _) => i < |s.ops|
             case _ => true
  {
    match e
    case BeginOp => s.(ops := s.ops + [Op(0, false)])
    case TestLog(i) =>
      if NoRoom(l.size, |s.lh|) then s.(panicked := true) else s.(ops := s.ops[i := s.ops[i].(tested := true)])
    case LogWrite(i, b, data) =>
      var isNew := b !in s.lh;
      s.(lh := if isNew then s.lh + [b] else s.lh,
         cache := s.cache[b := data],
         ops := s.ops[i := Op(if isNew then s.ops[i].used + 1 else s.ops[i].used, false)])
    case EndOp(i) =>
      var ops' := s.ops[..i] + s.ops[i + 1..];
      if s.committing then s.(ops := ops', panicked := true)
      else if ops' == [] then
        s.(ops := ops', committing := true, pc := if |s.lh| > 0 then WritingLog(0) else Finishing)
      else s.(ops := ops')
    case WriteLogBlock =>
      s.(disk := s.disk[l.start + 1 + s.pc.tail := s.cache[s.lh[s.pc.tail]]], pc := WritingLog(s.pc.tail + 1))
    case WriteHead =>
      s.(disk := s.disk[l.start := EncodeHead(s.disk[l.start], s.lh)], pc := Installing(0))
    case InstallBlock =>
      s.(disk := s.disk[s.lh[s.pc.tail] := s.disk[l.start + 1 + s.pc.tail]], pc := Installing(s.pc.tail + 1))
    case EraseHead =>
      s.(disk := s.disk[l.start := EncodeHead(s.disk[l.start], [])], lh := [], cache := map[], pc := Finishing)
    case CommitDone => s.(committing := false, pc := Running)
    case Crash => State(s.disk, [], map[], [], false, Booting, s.panicked)
    case ReadHead => s.(lh := Head(l, s.disk), pc := Recovering(0))
    case RecoverBlock =>
      s.(disk := s.disk[s.lh[s.pc.tail] := s.disk[l.start + 1 + s.pc.tail]], pc := Recovering(s.pc.tail + 1))
    case RecoverErase =>
      s.(disk := s.disk[l.start := EncodeHead(s.disk[l.start], [])], lh := [], pc := Running)
  }

  // ----- The reservation argument -----

  /** Space reserved but not yet used by the open operations. */
  function Unused(ops: seq<Op>): int {
    if ops == [] then 0 else Unused(ops[..|ops| - 1]) + MAXOPBLOCKS - ops[|ops| - 1].used
  }

  lemma {:induction false} UnusedAppend(a: seq<Op>, b: seq<Op>)
    ensures Unused(a + b) == Unused(a) + Unused(b)
  {
    if b == [] {
      assert a + b == a;
    } else {
      var n := |b| - 1;
      assert (a + b)[..|a + b| - 1] == a + b[..n];
      UnusedAppend(a, b[..n]);
    }
  }

  lemma UnusedSplit(ops: seq<Op>, i: nat)
    requires i < |ops|
    ensures Unused(ops) == Unused(ops[..i]) + MAXOPBLOCKS - ops[i].used + Unused(ops[i + 1..])
    ensures Unused(ops[..i] + ops[i + 1..]) == Unused(ops) - MAXOPBLOCKS + ops[i].used
  {
    var upTo := ops[..i + 1];
    assert upTo[..|upTo| - 1] == ops[..i];
    assert ops == upTo + ops[i + 1..];
    UnusedAppend(upTo, ops[i + 1..]);
    UnusedAppend(ops[..i], ops[i + 1..]);
  }

  lemma UnusedUpdate(ops: seq<Op>, i: nat, op: Op)
    requires i < |ops|
    ensures Unused(ops[i := op]) == Unused(ops) + ops[i].used - op.used
  {
    UnusedSplit(ops, i);
    UnusedSplit(ops[i := op], i);
    assert ops[i := op][..i] == ops[..i] && ops[i := op][i + 1..] == ops[i + 1..];
  }

  lemma {:induction false} UnusedBounds(ops: seq<Op>, budget: nat)
    requires forall i :: 0 <= i < |ops| ==> ops[i].used <= budget
    ensures Unused(ops) >= (MAXOPBLOCKS - budget) * |ops|
  {
    if ops != [] {
      var n := |ops| - 1;
      UnusedBounds(ops[..n], budget);
      assert (MAXOPBLOCKS - budget) * |ops| == (MAXOPBLOCKS - budget) * n + (MAXOPBLOCKS - budget);
    }
  }

  /** Log entries plus unused reservations fit in the log, with one slot to spare when a
      single operation is open. */
  ghost predicate Reserved(budget: nat, s: State) {
    && (forall i :: 0 <= i < |s.ops| ==> s.ops[i].used <= budget)
    && (|s.ops| > 0 ==> |s.lh| + Unused(s.ops) <= LOGSIZE)
    && (|s.ops| == 1 ==> |s.lh| + Unused(s.ops) <= LOGSIZE - 1)
    && (s.ops == [] && !s.committing && s.pc == Running ==> s.lh == [])
    && (s.pc == Running || s.ops == [])
    && (s.committing <==> s.pc.WritingLog? || s.pc.Installing? || s.pc.Finishing?)
    && (s.pc == Finishing ==> s.lh == [])
    && (!s.pc.Recovering? ==> |s.lh| <= LOGSIZE - 2)
  }

  lemma ReservedBegin(l: Layout, budget: nat, s: State)
    requires l.size == LOGSIZE && budget < MAXOPBLOCKS
    requires Reserved(budget, s) && Enabled(l, budget, s, BeginOp) && InRange(l, s, BeginOp)
    ensures Reserved(budget, Next(l, s, BeginOp))
  {
    UnusedAtMost(s.ops);
    UnusedAppend(s.ops, [Op(0, false)]);
    assert Unused([Op(0, false)]) == MAXOPBLOCKS;
  }

  lemma ReservedTest(l: Layout, budget: nat, s: State, i: nat)
    requires l.size == LOGSIZE && budget < MAXOPBLOCKS
    requires Reserved(budget, s) && Enabled(l, budget, s, TestLog(i)) && InRange(l, s, TestLog(i))
    ensures Reserved(budget, Next(l, s, TestLog(i))) && !Next(l, s, TestLog(i)).panicked
  {
    UnusedUpdate(s.ops, i, s.ops[i].(tested := true));
  }

  lemma ReservedWrite(l: Layout, budget: nat, s: State, i: nat, b: int, data: Block)
    requires l.size == LOGSIZE && budget < MAXOPBLOCKS
    requires Reserved(budget, s) && Enabled(l, budget, s, LogWrite(i, b, data)) && InRange(l, s, LogWrite(i, b, data))
    ensures Reserved(budget, Next(l, s, LogWrite(i, b, data)))
  {
    var s' := Next(l, s, LogWrite(i, b, data));
    UnusedUpdate(s.ops, i, s'.ops[i]);
    UnusedBounds(s'.ops, budget);
    SpareSlots(budget, |s'.ops|);
  }

  lemma SpareSlots(budget: nat, n: nat)
    requires budget < MAXOPBLOCKS
    ensures (MAXOPBLOCKS - budget) * n >= n
  {
  }

  lemma ReservedEnd(l: Layout, budget: nat, s: State, i: nat)
    requires l.size == LOGSIZE && budget < MAXOPBLOCKS
    requires Reserved(budget, s) && Enabled(l, budget, s, EndOp(i)) && InRange(l, s, EndOp(i))
    ensures Reserved(budget, Next(l, s, EndOp(i))) && !Next(l, s, EndOp(i)).panicked
  {
    UnusedSplit(s.ops, i);
  }

  lemma ReservedStep(l: Layout, budget: nat, s: State, e: Event)
    requires l.size == LOGSIZE && budget < MAXOPBLOCKS
    requires Reserved(budget, s) && Enabled(l, budget, s, e) && InRange(l, s, e)
    ensures Reserved(budget, Next(l, s, e)) && !Next(l, s, e).panicked
  {
    match e
    case BeginOp => ReservedBegin(l, budget, s);
    case TestLog(i) => ReservedTest(l, budget, s, i);
    case LogWrite(i, b, data) => ReservedWrite(l, budget, s, i, b, data);
    case EndOp(i) => ReservedEnd(l, budget, s, i);
    case _ =>
  }

  lemma {:induction false} UnusedAtMost(ops: seq<Op>)
    ensures Unused(ops) <= MAXOPBLOCKS * |ops|
  {
    if ops != [] {
      UnusedAtMost(ops[..|ops| - 1]);
    }
  }

  // ----- The crash argument -----

  ghost predicate Logged(l: Layout, s: State, n: nat)
    requires l.Ok() && |s.disk| == l.nblocks && n <= |s.lh| < l.size
  {
    forall i :: 0 <= i < n ==> s.lh[i] in s.cache && s.disk[l.start + 1 + i] == s.cache[s.lh[i]]
  }

  ghost predicate Installed(l: Layout, s: State, n: nat)
    requires HeaderOk(l, s.disk) && ListOk(l, s.lh) && n <= |s.lh|
  {
    forall i :: 0 <= i < n ==> s.disk[s.lh[i]] == s.disk[l.start + 1 + i]
  }

  ghost predicate DiskInv(l: Layout, s: State) {
    && HeaderOk(l, s.disk) && ListOk(l, s.lh)
    && match s.pc
       case Running => Head(l, s.disk) == [] && s.cache.Keys == set b | b in s.lh
       case WritingLog(t) =>
         Head(l, s.disk) == [] && (s.cache.Keys == set b | b in s.lh) && t <= |s.lh| && Logged(l, s, t)
       case Installing(t) => Head(l, s.disk) == s.lh && t <= |s.lh| && Installed(l, s, t)
       case Finishing => s.lh == [] && Head(l, s.disk) == [] && s.cache == map[]
       case Booting => s.lh == [] && s.cache == map[]
       case Recovering(t) => Head(l, s.disk) == s.lh && t <= |s.lh| && Installed(l, s, t) && s.cache == map[]
  }

  ghost predicate Inv(l: Layout, budget: nat, s: State) {
    DiskInv(l, s) && Reserved(budget, s) && !s.panicked
  }

  lemma IndicesInRange(l: Layout, budget: nat, s: State, e: Event)
    requires DiskInv(l, s) && Enabled(l, budget, s, e)
    ensures InRange(l, s, e)
  {
    if e == WriteLogBlock {
      assert s.lh[s.pc.tail] in s.cache.Keys;
    }
  }

  /** The atomic disk the file system programs against: durable blocks, a pending group of
      writes, and the number of operations that are part way through. */
  datatype Spec = Spec(durable: map<int, Block>, pending: map<int, Block>, open: nat)

  datatype SpecEvent = SBegin | SWrite(blockno: int, data: Block) | SEnd | SCommit | SCrash | SSkip

  predicate SpecStep(a: Spec, e: SpecEvent, a': Spec) {
    match e
    case SBegin => a' == a.(open := a.open + 1)
    case SWrite(b, data) => a.open > 0 && a' == a.(pending := a.pending[b := data])
    case SEnd => a.open > 0 && a' == a.(open := a.open - 1)
    case SCommit => a.open == 0 && a' == Spec(a.durable + a.pending, map[], 0)
    case SCrash => a' == Spec(a.durable, map[], 0)
    case SSkip => a' == a
  }

  ghost function Abs(l: Layout, s: State): Spec
    requires HeaderOk(l, s.disk)
  {
    Spec(Durable(l, s.disk), if s.pc.Running? || s.pc.WritingLog? then s.cache else map[], |s.ops|)
  }

  function Meaning(e: Event): SpecEvent {
    match e
    case BeginOp => SBegin
    case LogWrite(_, b, data) => SWrite(b, data)
    case EndOp(_) => SEnd
    case WriteHead => SCommit
    case Crash => SCrash
    case _ => SSkip
  }

  lemma WriteLogStep(l: Layout, s: State)
    requires DiskInv(l, s) && s.pc.WritingLog? && InRange(l, s, WriteLogBlock)
    ensures var s' := Next(l, s, WriteLogBlock); DiskInv(l, s') && Abs(l, s') == Abs(l, s)
  {
    LogBlockInvisible(l, s.disk, s.pc.tail, s.cache[s.lh[s.pc.tail]]);
  }

  lemma WriteHeadStep(l: Layout, s: State)
    requires DiskInv(l, s) && s.pc == WritingLog(|s.lh|) && s.ops == [] && InRange(l, s, WriteHead)
    ensures var s' := Next(l, s, WriteHead); DiskInv(l, s') && SpecStep(Abs(l, s), SCommit, Abs(l, s'))
  {
    HeaderCommits(l, s.disk, s.lh, s.cache);
  }

  lemma InstallStep(l: Layout, s: State)
    requires DiskInv(l, s) && s.pc.Installing? && InRange(l, s, InstallBlock)
    ensures var s' := Next(l, s, InstallBlock); DiskInv(l, s') && Abs(l, s') == Abs(l, s)
  {
    InstalledStep(l, s, Next(l, s, InstallBlock), s.pc.tail);
  }

  lemma InstalledStep(l: Layout, s: State, s': State, t: nat)
    requires HeaderOk(l, s.disk) && ListOk(l, s.lh) && t < |s.lh| && Installed(l, s, t) && Head(l, s.disk) == s.lh
    requires s'.lh == s.lh && s'.disk == s.disk[s.lh[t] := s.disk[l.start + 1 + t]]
    ensures HeaderOk(l, s'.disk) && Head(l, s'.disk) == s'.lh && Durable(l, s'.disk) == Durable(l, s.disk)
    ensures Installed(l, s', t + 1)
  {
    InstallInvisible(l, s.disk, t);
    forall i | 0 <= i < t + 1 ensures s'.disk[s'.lh[i]] == s'.disk[l.start + 1 + i] {
      assert l.Home(s.lh[t]) && l.Home(s.lh[i]);
    }
  }

  lemma EraseStep(l: Layout, s: State)
    requires DiskInv(l, s) && s.pc == Installing(|s.lh|) && InRange(l, s, EraseHead)
    ensures var s' := Next(l, s, EraseHead); DiskInv(l, s') && Abs(l, s') == Abs(l, s)
  {
    EraseInvisible(l, s.disk);
  }

  lemma RecoverStep(l: Layout, s: State)
    requires DiskInv(l, s) && s.pc.Recovering? && InRange(l, s, RecoverBlock)
    ensures var s' := Next(l, s, RecoverBlock); DiskInv(l, s') && Abs(l, s') == Abs(l, s)
  {
    InstalledStep(l, s, Next(l, s, RecoverBlock), s.pc.tail);
  }

  lemma RecoverEraseStep(l: Layout, s: State)
    requires DiskInv(l, s) && s.pc == Recovering(|s.lh|) && InRange(l, s, RecoverErase)
    ensures var s' := Next(l, s, RecoverErase); DiskInv(l, s') && Abs(l, s') == Abs(l, s)
  {
    EraseInvisible(l, s.disk);
  }

  lemma LogWriteStep(l: Layout, budget: nat, s: State, i: nat, b: int, data: Block)
    requires Inv(l, budget, s) && l.size == LOGSIZE && budget < MAXOPBLOCKS
    requires Enabled(l, budget, s, LogWrite(i, b, data)) && InRange(l, s, LogWrite(i, b, data))
    ensures var s' := Next(l, s, LogWrite(i, b, data));
            DiskInv(l, s') && SpecStep(Abs(l, s), SWrite(b, data), Abs(l, s'))
  {
    var s' := Next(l, s, LogWrite(i, b, data));
    assert s'.cache.Keys == s.cache.Keys + {b};
    ReservedWrite(l, budget, s, i, b, data);
  }

  /** Every step keeps the invariant and is a step of the atomic disk. */
  lemma StepRefines(l: Layout, budget: nat, s: State, e: Event)
    requires l.size == LOGSIZE && budget < MAXOPBLOCKS
    requires Inv(l, budget, s) && Enabled(l, budget, s, e)
    ensures InRange(l, s, e)
    ensures var s' := Next(l, s, e); Inv(l, budget, s') && SpecStep(Abs(l, s), Meaning(e), Abs(l, s'))
  {
    IndicesInRange(l, budget, s, e);
    ReservedStep(l, budget, s, e);
    match e
    case LogWrite(i, b, data) => LogWriteStep(l, budget, s, i, b, data);
    case WriteLogBlock => WriteLogStep(l, s);
    case WriteHead => WriteHeadStep(l, s);
    case InstallBlock => InstallStep(l, s);
    case EraseHead => EraseStep(l, s);
    case RecoverBlock => RecoverStep(l, s);
    case RecoverErase => RecoverEraseStep(l, s);
    case _ =>
  }

  // ----- Whole runs -----

  ghost predicate Init(l: Layout, s: State) {
    HeaderOk(l, s.disk) && s == State(s.disk, [], map[], [], false, Booting, false)
  }

  predicate Moves(l: Layout, budget: nat, s: State, e: Event, s': State) {
    Enabled(l, budget, s, e) && InRange(l, s, e) && s' == Next(l, s, e)
  }

  ghost predicate Run(l: Layout, budget: nat, ss: seq<State>, es: seq<Event>) {
    && |ss| == |es| + 1
    && Init(l, ss[0])
    && forall i :: 0 <= i < |es| ==> Moves(l, budget, ss[i], es[i], ss[i + 1])
  }

  lemma {:induction false} RunInv(l: Layout, budget: nat, ss: seq<State>, es: seq<Event>, i: nat)
    requires l.size == LOGSIZE && budget < MAXOPBLOCKS && Run(l, budget, ss, es) && i < |ss|
    ensures Inv(l, budget, ss[i])
  {
    if i == 0 {
      assert Head(l, ss[0].disk) == ss[0].lh || ss[0].lh == [];
    } else {
      RunInv(l, budget, ss, es, i - 1);
      assert Moves(l, budget, ss[i - 1], es[i - 1], ss[i]);
      StepRefines(l, budget, ss[i - 1], es[i - 1]);
    }
  }

  /** Every run of the log, whatever the interleaving and wherever the crashes, is a run of the
      atomic disk: writes become durable only in whole groups, only with no operation open, and
      at no event other than the header write. */
  lemma RunRefines(l: Layout, budget: nat, ss: seq<State>, es: seq<Event>)
    requires l.size == LOGSIZE && budget < MAXOPBLOCKS && Run(l, budget, ss, es)
    ensures forall i :: 0 <= i < |ss| ==> HeaderOk(l, ss[i].disk)
    ensures forall i :: 0 <= i < |es| ==> SpecStep(Abs(l, ss[i]), Meaning(es[i]), Abs(l, ss[i + 1]))
  {
    forall i | 0 <= i < |ss| ensures Inv(l, budget, ss[i]) {
      RunInv(l, budget, ss, es, i);
    }
    forall i | 0 <= i < |es| ensures SpecStep(Abs(l, ss[i]), Meaning(es[i]), Abs(l, ss[i + 1])) {
      assert Moves(l, budget, ss[i], es[i], ss[i + 1]);
      StepRefines(l, budget, ss[i], es[i]);
    }
  }

  predicate OpEvent(e: Event) { e.BeginOp? || e.TestLog? || e.LogWrite? || e.EndOp? }

  /** Where a commit that started in state a stands in state s, given whether its header is out. */
  ghost predicate Decided(l: Layout, budget: nat, a: State, out: bool, s: State) {
    && Inv(l, budget, a) && Inv(l, budget, s) && s.ops == []
    && Durable(l, s.disk) == (if out then Durable(l, a.disk) + a.cache else Durable(l, a.disk))
    && (s.pc.WritingLog? ==> !out && s.cache == a.cache)
  }

  lemma DecidedStep(l: Layout, budget: nat, a: State, out: bool, s: State, e: Event, s': State)
    requires l.size == LOGSIZE && budget < MAXOPBLOCKS
    requires Decided(l, budget, a, out, s) && Moves(l, budget, s, e, s') && !OpEvent(e)
    ensures Decided(l, budget, a, out || e == WriteHead, s')
  {
    StepRefines(l, budget, s, e);
  }

  /** Commit, crash and recovery events only: durable changes exactly at the header write. */
  lemma {:induction false} CommitDecides(l: Layout, budget: nat, ss: seq<State>, es: seq<Event>, i: nat, j: nat)
    requires l.size == LOGSIZE && budget < MAXOPBLOCKS && Run(l, budget, ss, es)
    requires i <= j < |ss| && ss[i].pc == WritingLog(0)
    requires forall k :: i <= k < j ==> !OpEvent(es[k])
    ensures Decided(l, budget, ss[i], WriteHead in es[i..j], ss[j])
    decreases j
  {
    if i == j {
      RunInv(l, budget, ss, es, i);
    } else {
      CommitDecides(l, budget, ss, es, i, j - 1);
      assert es[i..j] == es[i..j - 1] + [es[j - 1]];
      assert Moves(l, budget, ss[j - 1], es[j - 1], ss[j]);
      DecidedStep(l, budget, ss[i], WriteHead in es[i..j - 1], ss[j - 1], es[j - 1], ss[j]);
    }
  }

  /** Crash atomicity: let a commit start, and let any commit steps, crashes (also crashes of
      recovery itself) and recovery steps follow.  Once the machine is running again the home
      blocks are all as before the group or all as after it, and which of the two is decided
      exactly by whether the header write happened. */
  lemma CrashAtomicity(l: Layout, budget: nat, ss: seq<State>, es: seq<Event>, i: nat, j: nat, b: int)
    requires l.size == LOGSIZE && budget < MAXOPBLOCKS && Run(l, budget, ss, es)
    requires i <= j < |ss| && ss[i].pc == WritingLog(0) && ss[j].pc == Running && l.Home(b)
    requires forall k :: i <= k < j ==> !OpEvent(es[k])
    ensures |ss[i].disk| == |ss[j].disk| == l.nblocks
    ensures WriteHead in es[i..j] && b in ss[i].lh ==> b in ss[i].cache && ss[j].disk[b] == ss[i].cache[b]
    ensures WriteHead !in es[i..j] || b !in ss[i].lh ==> ss[j].disk[b] == ss[i].disk[b]
  {
    CommitDecides(l, budget, ss, es, i, j);
    EmptyHeadMeansHome(l, ss[i].disk, b);
    EmptyHeadMeansHome(l, ss[j].disk, b);
    assert b in ss[i].cache.Keys <==> b in ss[i].lh;
  }

  lemma EmptyHeadMeansHome(l: Layout, d: Disk, b: int)
    requires HeaderOk(l, d) && Head(l, d) == [] && l.Home(b)
    ensures b in Durable(l, d) && Durable(l, d)[b] == d[b]
  {
  }

  /** A commit never overlaps an open operation, and the in-memory log never outgrows its disk
      area, in any reachable state. */
  lemma CommitExcludesOps(l: Layout, budget: nat, ss: seq<State>, es: seq<Event>, i: nat)
    requires l.size == LOGSIZE && budget < MAXOPBLOCKS && Run(l, budget, ss, es) && i < |ss|
    ensures ss[i].committing ==> ss[i].ops == []
    ensures !ss[i].panicked
    ensures ss[i].ops != [] ==> |ss[i].lh| + Unused(ss[i].ops) <= LOGSIZE && !NoRoom(l.size, |ss[i].lh|)
  {
    RunInv(l, budget, ss, es, i);
  }

  // ----- The budget is exact -----

  ghost predicate Reaches(l: Layout, budget: nat, s: State) {
    exists ss, es :: Run(l, budget, ss, es) && ss[|es|] == s
  }

  lemma ReachesStep(l: Layout, budget: nat, s: State, e: Event)
    requires Reaches(l, budget, s) && Enabled(l, budget, s, e) && InRange(l, s, e)
    ensures Reaches(l, budget, Next(l, s, e))
  {
    var ss, es :| Run(l, budget, ss, es) && ss[|es|] == s;
    var ss', es' := ss + [Next(l, s, e)], es + [e];
    assert Run(l, budget, ss', es') by {
      forall i | 0 <= i < |es'| ensures Moves(l, budget, ss'[i], es'[i], ss'[i + 1]) {
        if i < |es| { assert Moves(l, budget, ss[i], es[i], ss[i + 1]); }
      }
    }
    assert ss'[|es'|] == Next(l, s, e);
  }

  function ZeroWords(): Block { seq(WORDS, _ => 0) }
  function ZeroDisk(): Disk { seq(MkfsLayout.nblocks, _ => ZeroWords()) }

  function Clamp(k: int): (r: nat) { if k < 0 then 0 else if k > MAXOPBLOCKS then MAXOPBLOCKS else k }

  function FilledList(k: nat): (r: seq<int>)
    ensures |r| == k
    ensures forall i :: 0 <= i < k ==> r[i] == 32 + i
  {
    if k == 0 then [] else FilledList(k - 1) + [32 + k - 1]
  }

  function FilledCache(k: nat): map<int, Block> {
    if k == 0 then map[] else FilledCache(k - 1)[32 + k - 1 := ZeroWords()]
  }

  function FilledOps(k: nat): seq<Op> {
    [Op(Clamp(k), false), Op(Clamp(k - 10), false), Op(Clamp(k - 20), false)]
  }

  /** Three open operations that have together logged k new blocks, ten each at most. */
  function Filled(k: nat): State {
    State(ZeroDisk(), FilledList(k), FilledCache(k), FilledOps(k), false, Running, false)
  }

  lemma ReachesBooted(budget: nat)
    ensures Reaches(MkfsLayout, budget, State(ZeroDisk(), [], map[], [], false, Running, false))
  {
    var l := MkfsLayout;
    var s0 := State(ZeroDisk(), [], map[], [], false, Booting, false);
    var es: seq<Event> := [];
    assert Run(l, budget, [s0], es) && [s0][|es|] == s0;
    ReachesStep(l, budget, s0, ReadHead);
    var s1 := Next(l, s0, ReadHead);
    ReachesStep(l, budget, s1, RecoverErase);
    assert EncodeHead(ZeroWords(), []) == ZeroWords();
    assert Next(l, s1, RecoverErase).disk == ZeroDisk();
  }

  lemma ReachesThreeOps(budget: nat)
    ensures Reaches(MkfsLayout, budget, Filled(0))
  {
    var l := MkfsLayout;
    ReachesBooted(budget);
    var s2 := State(ZeroDisk(), [], map[], [], false, Running, false);
    ReachesStep(l, budget, s2, BeginOp);
    var s3 := Next(l, s2, BeginOp);
    ReachesStep(l, budget, s3, BeginOp);
    var s4 := Next(l, s3, BeginOp);
    ReachesStep(l, budget, s4, BeginOp);
    assert Next(l, s4, BeginOp).ops == FilledOps(0);
  }

  lemma FillOne(budget: nat, k: nat)
    requires budget >= MAXOPBLOCKS && k < LOGSIZE - 1
    requires Reaches(MkfsLayout, budget, Filled(k))
    ensures Reaches(MkfsLayout, budget, Filled(k + 1))
  {
    var l, s, i := MkfsLayout, Filled(k), k / 10;
    ReachesStep(l, budget, s, TestLog(i));
    FillWrite(budget, k, Next(l, s, TestLog(i)));
  }

  lemma FillWrite(budget: nat, k: nat, t: State)
    requires budget >= MAXOPBLOCKS && k < LOGSIZE - 1
    requires t == Filled(k).(ops := FilledOps(k)[k / 10 := Op(FilledOps(k)[k / 10].used, true)])
    requires Reaches(MkfsLayout, budget, t)
    ensures Reaches(MkfsLayout, budget, Filled(k + 1))
  {
    var e := LogWrite(k / 10, 32 + k, ZeroWords());
    ReachesStep(MkfsLayout, budget, t, e);
    assert Next(MkfsLayout, t, e).ops == FilledOps(k + 1);
  }

  lemma {:induction false} FillMany(budget: nat, k: nat)
    requires budget >= MAXOPBLOCKS && k < LOGSIZE
    ensures Reaches(MkfsLayout, budget, Filled(k))
  {
    if k == 0 {
      ReachesThreeOps(budget);
    } else {
      FillMany(budget, k - 1);
      FillOne(budget, k - 1);
    }
  }

  /** On the mkfs layout, "too big a transaction" is unreachable exactly when no operation adds
      MAXOPBLOCKS new blocks: nlog = LOGSIZE leaves one log block fewer than begin_op promises. */
  lemma TooBigUnreachableIff(budget: nat)
    ensures (forall s :: Reaches(MkfsLayout, budget, s) ==> !s.panicked) <==> budget < MAXOPBLOCKS
  {
    if budget < MAXOPBLOCKS {
      forall s | Reaches(MkfsLayout, budget, s) ensures !s.panicked {
        var ss, es :| Run(MkfsLayout, budget, ss, es) && ss[|es|] == s;
        RunInv(MkfsLayout, budget, ss, es, |es|);
      }
    } else {
      var s := Filled(LOGSIZE - 1);
      FillMany(budget, LOGSIZE - 1);
      ReachesStep(MkfsLayout, budget, s, TestLog(2));
      assert Next(MkfsLayout, s, TestLog(2)).panicked;
    }
  }
}
