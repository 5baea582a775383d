/** kernel/log.c's commit on top of the concurrent buffer cache: the committing thread copies
    cached blocks to the log, writes the header, installs and unpins, one bwrite at a time, while
    any number of other sessions read.  What the cache relies on is derived here: an installed
    block gets exactly the contents that were logged, and it is unpinned only when they are on
    disk (kernel/log.c, kernel/bio.c). */
module CommitCache {
  import opened BufferCache
  import opened BufferProtocol
  import opened Options

  /** Where the log lies: the header block, then one block per entry. */
  datatype Region = Region(dev: int, start: int, size: nat) {
    predicate InLog(k: Key) { k.dev == dev && start <= k.blockno < start + size }
    function Head(): Key { Key(dev, start) }
    function Slot(i: nat): Key { Key(dev, start + 1 + i) }
    predicate Ok() { dev != 0 && size > 0 }
  }

  datatype Stage =
    | Open                            // operations may log
    | Copying(tail: nat)              // write_log
    | Installing(tail: nat)           // install_trans, before bwrite
    | Unpinning(tail: nat)            // install_trans, between bwrite and bunpin

  datatype Joint = Joint(c: State, lh: seq<Key>, stage: Stage)

  datatype Move =
    | Other(e: Event)                 // bread and brelse by anyone
    | Log(id: int, data: Data)        // log_write of an open operation
    | Start
    | Copy(to: int, from: int)
    | WriteHead(id: int, data: Data)
    | Install(to: int, from: int)
    | Bunpin(to: int)
    | Erase(id: int, data: Data)

  predicate Reading(e: Event) { e.Bget? || e.Acquire? || e.Fill? || e.Release? || e.Drop? }

  predicate HasBlock(c: State, id: int, k: Key) { HoldsValid(c, id) && c.sessions[id].key == k }

  function Bytes(c: State, id: int): Data
    requires HoldsValid(c, id)
  {
    c.cache.bufs[c.sessions[id].buf].data
  }

  /** What the code of commit does next, as far as log.c itself says: which blocks it has read,
      locked and copies between.  Nothing here says what the copies contain. */
  ghost predicate Can(r: Region, j: Joint, m: Move) {
    match m
    case Other(e) => Reading(e) && Enabled(j.c, e)
    case Log(id, data) =>
      j.stage == Open && HoldsValid(j.c, id) && !r.InLog(j.c.sessions[id].key)
      && (j.c.sessions[id].key in j.lh || |j.lh| < r.size - 1)
    case Start => j.stage == Open && j.lh != []
    case Copy(to, from) =>
      j.stage.Copying? && j.stage.tail < |j.lh| && to != from
      && HasBlock(j.c, to, r.Slot(j.stage.tail)) && HasBlock(j.c, from, j.lh[j.stage.tail])
    case WriteHead(id, data) => j.stage == Copying(|j.lh|) && HasBlock(j.c, id, r.Head())
    case Install(to, from) =>
      j.stage.Installing? && j.stage.tail < |j.lh| && to != from
      && HasBlock(j.c, from, r.Slot(j.stage.tail)) && HasBlock(j.c, to, j.lh[j.stage.tail])
    case Bunpin(to) => j.stage.Unpinning? && j.stage.tail < |j.lh| && HasBlock(j.c, to, j.lh[j.stage.tail])
    case Erase(id, data) => j.stage == Installing(|j.lh|) && HasBlock(j.c, id, r.Head())
  }

  /** The step of the cache that a move takes. */
  function Step(j: Joint, m: Move): Option<Event>
    requires m.Copy? ==> HoldsValid(j.c, m.from)
    requires m.Install? ==> HoldsValid(j.c, m.from)
  {
    match m
    case Other(e) => Some(e)
    case Log(id, data) => Some(LogWrite(id, data))
    case Start => None
    case Copy(to, from) => Some(BWrite(to, Bytes(j.c, from)))
    case WriteHead(id, data) => Some(BWrite(id, data))
    case Install(to, from) => Some(BWrite(to, Bytes(j.c, from)))
    case Bunpin(to) => Some(Unpin(to))
    case Erase(id, data) => Some(BWrite(id, data))
  }

  function NextStage(j: Joint, m: Move): Stage {
    match m
    case Other(_) => j.stage
    case Log(_, _) => j.stage
    case Start => Copying(0)
    case Copy(_, _) => if j.stage.Copying? then Copying(j.stage.tail + 1) else j.stage
    case WriteHead(_, _) => Installing(0)
    case Install(_, _) => if j.stage.Installing? then Unpinning(j.stage.tail) else j.stage
    case Bunpin(_) => if j.stage.Unpinning? then Installing(j.stage.tail + 1) else j.stage
    case Erase(_, _) => Open
  }

  /** log_write appends a block the list does not hold yet; commit clears the list at its end. */
  function NextList(j: Joint, m: Move): seq<Key>
    requires m.Log? ==> HoldsValid(j.c, m.id)
  {
    if m.Log? && j.c.sessions[m.id].key !in j.lh then j.lh + [j.c.sessions[m.id].key]
    else if m.Erase? then []
    else j.lh
  }

  // ----- What every move keeps -----

  /** How many entries have been installed and unpinned. */
  function Gone(j: Joint): nat {
    match j.stage case Open => 0 case Copying(_) => 0 case Installing(t) => t case Unpinning(t) => t
  }

  /** The entries whose log block must hold what was logged. */
  predicate Copied(j: Joint, i: nat) {
    match j.stage case Open => false case Copying(t) => i < t case Installing(t) => t <= i case Unpinning(t) => t <= i
  }

  ghost predicate EntryOk(r: Region, j: Joint, i: nat) {
    i < |j.lh| ==>
      && !r.InLog(j.lh[i])
      && (Gone(j) <= i ==> j.lh[i] in j.c.pending)
      && (Copied(j, i) && j.lh[i] in j.c.pending ==> DiskAt(j.c.disk, r.Slot(i)) == j.c.pending[j.lh[i]])
      && (j.stage == Unpinning(i) && j.lh[i] in j.c.pending ==> DiskAt(j.c.disk, j.lh[i]) == j.c.pending[j.lh[i]])
  }

  ghost predicate PairOk(j: Joint, i: nat, k: nat) { i < k < |j.lh| ==> j.lh[i] != j.lh[k] }

  /** A pinned block is on the list and not yet installed. */
  ghost predicate Listed(j: Joint, k: Key) {
    k in j.c.pending ==> exists i: nat :: Gone(j) <= i < |j.lh| && j.lh[i] == k
  }

  ghost predicate JointInv(r: Region, j: Joint) { Inv(j.c) && Account(r, j) }

  /** The list, the log blocks and the pins agree. */
  ghost predicate Account(r: Region, j: Joint) {
    && r.Ok() && |j.lh| < r.size
    && (j.stage.Copying? ==> j.stage.tail <= |j.lh|) && (j.stage.Installing? ==> j.stage.tail <= |j.lh|)
    && (j.stage.Unpinning? ==> j.stage.tail < |j.lh|)
    && (forall i {:trigger EntryOk(r, j, i)} :: EntryOk(r, j, i))
    && (forall i, k {:trigger PairOk(j, i, k)} :: PairOk(j, i, k))
    && (forall k {:trigger Listed(j, k)} :: Listed(j, k))
  }

  lemma PinnedIsHome(r: Region, j: Joint, k: Key)
    requires Account(r, j) && k in j.c.pending
    ensures !r.InLog(k)
  {
    assert Listed(j, k);
    var i: nat :| Gone(j) <= i < |j.lh| && j.lh[i] == k;
    assert EntryOk(r, j, i);
  }

  lemma LogNotPinned(r: Region, j: Joint, k: Key)
    requires Account(r, j) && r.InLog(k)
    ensures k !in j.c.pending
  {
    if k in j.c.pending { PinnedIsHome(r, j, k); }
  }

  lemma HeldBytes(c: State, id: int)
    requires Inv(c) && HoldsValid(c, id)
    ensures Bytes(c, id) == View(c, c.sessions[id].key)
  {
  }

  /** The guards of the cache protocol hold of everything commit does: what it writes home is what
      was logged, and it unpins only what is on disk. */
  lemma GuardsHold(r: Region, j: Joint, m: Move)
    requires JointInv(r, j) && Can(r, j, m)
    ensures Step(j, m).Some? ==> Enabled(j.c, Step(j, m).value)
  {
    match m
    case Copy(to, from) => LogNotPinned(r, j, r.Slot(j.stage.tail));
    case WriteHead(id, data) => LogNotPinned(r, j, r.Head());
    case Erase(id, data) => LogNotPinned(r, j, r.Head());
    case Install(to, from) =>
      LogNotPinned(r, j, r.Slot(j.stage.tail));
      HeldBytes(j.c, from);
      assert EntryOk(r, j, j.stage.tail);
    case Bunpin(to) =>
      assert EntryOk(r, j, j.stage.tail);
      NoUnderflow(j.c, to);
    case _ =>
  }

  ghost function After(r: Region, j: Joint, m: Move): Joint
    requires JointInv(r, j) && Can(r, j, m)
  {
    GuardsHold(r, j, m);
    Joint(if Step(j, m).Some? then Next(j.c, Step(j, m).value) else j.c, NextList(j, m), NextStage(j, m))
  }

  lemma AfterInv(r: Region, j: Joint, m: Move)
    requires JointInv(r, j) && Can(r, j, m)
    ensures Inv(After(r, j, m).c)
  {
    GuardsHold(r, j, m);
    if Step(j, m).Some? { StepKeepsInv(j.c, Step(j, m).value); }
  }

  // ----- Each move -----

  lemma OtherKeeps(r: Region, j: Joint, e: Event)
    requires JointInv(r, j) && Can(r, j, Other(e))
    ensures JointInv(r, After(r, j, Other(e)))
  {
    var t := After(r, j, Other(e));
    AfterInv(r, j, Other(e));
    assert t.c.pending == j.c.pending && t.c.disk == j.c.disk;
    SameAccount(r, j, t);
  }

  lemma SameAccount(r: Region, j: Joint, t: Joint)
    requires Account(r, j) && t.c.pending == j.c.pending && t.c.disk == j.c.disk && t.lh == j.lh && t.stage == j.stage
    ensures Account(r, t)
  {
    forall i: nat ensures EntryOk(r, t, i) { assert EntryOk(r, j, i); }
    forall i: nat, k: nat ensures PairOk(t, i, k) { assert PairOk(j, i, k); }
    forall k: Key ensures Listed(t, k) { SameListed(j, t, k); }
  }

  lemma SameListed(j: Joint, t: Joint, k: Key)
    requires Listed(j, k) && t.lh == j.lh && Gone(t) == Gone(j) && (k in t.c.pending ==> k in j.c.pending)
    ensures Listed(t, k)
  {
    if k in t.c.pending {
      var i: nat :| Gone(j) <= i < |j.lh| && j.lh[i] == k;
      assert Gone(t) <= i < |t.lh| && t.lh[i] == k;
    }
  }

  lemma LogKeeps(r: Region, j: Joint, id: int, data: Data)
    requires JointInv(r, j) && Can(r, j, Log(id, data))
    ensures JointInv(r, After(r, j, Log(id, data)))
  {
    var t, k := After(r, j, Log(id, data)), j.c.sessions[id].key;
    AfterInv(r, j, Log(id, data));
    assert t.c.pending == j.c.pending[k := data];
    forall i: nat ensures EntryOk(r, t, i) { assert EntryOk(r, j, i); }
    forall i: nat, n: nat ensures PairOk(t, i, n) { assert PairOk(j, i, n); }
    forall x: Key ensures Listed(t, x) { LogListed(j, t, k, x); }
  }

  lemma LogListed(j: Joint, t: Joint, k: Key, x: Key)
    requires j.stage == Open == t.stage && Listed(j, x) && t.c.pending.Keys == j.c.pending.Keys + {k}
    requires t.lh == if k in j.lh then j.lh else j.lh + [k]
    ensures Listed(t, x)
  {
    if x in t.c.pending {
      if x == k {
        var i: nat :| i < |t.lh| && t.lh[i] == k;
        assert Gone(t) <= i < |t.lh| && t.lh[i] == x;
      } else {
        var i: nat :| Gone(j) <= i < |j.lh| && j.lh[i] == x;
        assert Gone(t) <= i < |t.lh| && t.lh[i] == x;
      }
    }
  }

  lemma StartKeeps(r: Region, j: Joint)
    requires JointInv(r, j) && Can(r, j, Start)
    ensures JointInv(r, After(r, j, Start))
  {
    var t := After(r, j, Start);
    forall i: nat ensures EntryOk(r, t, i) { assert EntryOk(r, j, i); }
    forall i: nat, k: nat ensures PairOk(t, i, k) { assert PairOk(j, i, k); }
    forall k: Key ensures Listed(t, k) { SameListed(j, t, k); }
  }

  /** A bwrite to a block of the log leaves the blocks at home alone. */
  lemma LogBlockWritten(r: Region, j: Joint, t: Joint, k: Key, data: Data)
    requires Account(r, j) && r.InLog(k) && t.lh == j.lh && t.c.pending == j.c.pending
    requires t.c.disk == j.c.disk[k := data] && Gone(t) == Gone(j) == 0
    requires !t.stage.Unpinning? && (t.stage.Copying? || t.stage.Installing?) && t.stage.tail <= |t.lh|
    requires forall i: nat :: i < |t.lh| && Copied(t, i) && k != r.Slot(i) ==> Copied(j, i)
    requires forall i: nat :: i < |t.lh| && Copied(t, i) && k == r.Slot(i) && j.lh[i] in j.c.pending ==>
      data == j.c.pending[j.lh[i]]
    ensures Account(r, t)
  {
    forall i: nat ensures EntryOk(r, t, i) { assert EntryOk(r, j, i); }
    forall i: nat, n: nat ensures PairOk(t, i, n) { assert PairOk(j, i, n); }
    forall x: Key ensures Listed(t, x) { SameListed(j, t, x); }
  }

  lemma CopyKeeps(r: Region, j: Joint, to: int, from: int)
    requires JointInv(r, j) && Can(r, j, Copy(to, from))
    ensures JointInv(r, After(r, j, Copy(to, from)))
  {
    var t, n := After(r, j, Copy(to, from)), j.stage.tail;
    AfterInv(r, j, Copy(to, from));
    assert EntryOk(r, j, n);
    HeldBytes(j.c, from);
    LogBlockWritten(r, j, t, r.Slot(n), Bytes(j.c, from));
  }

  lemma WriteHeadKeeps(r: Region, j: Joint, id: int, data: Data)
    requires JointInv(r, j) && Can(r, j, WriteHead(id, data))
    ensures JointInv(r, After(r, j, WriteHead(id, data)))
  {
    var t := After(r, j, WriteHead(id, data));
    AfterInv(r, j, WriteHead(id, data));
    LogBlockWritten(r, j, t, r.Head(), data);
  }

  lemma InstallKeeps(r: Region, j: Joint, to: int, from: int)
    requires JointInv(r, j) && Can(r, j, Install(to, from))
    ensures JointInv(r, After(r, j, Install(to, from)))
  {
    var t, n := After(r, j, Install(to, from)), j.stage.tail;
    AfterInv(r, j, Install(to, from));
    LogNotPinned(r, j, r.Slot(n));
    HeldBytes(j.c, from);
    assert EntryOk(r, j, n);
    assert t.c.disk == j.c.disk[j.lh[n] := j.c.pending[j.lh[n]]];
    HomeWritten(r, j, t, n);
  }

  /** A bwrite home of what was logged leaves the log alone. */
  lemma HomeWritten(r: Region, j: Joint, t: Joint, n: nat)
    requires Account(r, j) && j.stage == Installing(n) && n < |j.lh| && t.stage == Unpinning(n) && t.lh == j.lh
    requires t.c.pending == j.c.pending && j.lh[n] in j.c.pending
    requires t.c.disk == j.c.disk[j.lh[n] := j.c.pending[j.lh[n]]]
    ensures Account(r, t)
  {
    assert EntryOk(r, j, n);
    forall i: nat ensures EntryOk(r, t, i) { assert EntryOk(r, j, i); HomeEntry(r, j, t, n, i); }
    forall i: nat, k: nat ensures PairOk(t, i, k) { assert PairOk(j, i, k); }
    forall k: Key ensures Listed(t, k) { SameListed(j, t, k); }
  }

  lemma HomeEntry(r: Region, j: Joint, t: Joint, n: nat, i: nat)
    requires EntryOk(r, j, i) && EntryOk(r, j, n) && j.stage == Installing(n) && n < |j.lh| < r.size
    requires t.stage == Unpinning(n) && t.lh == j.lh
    requires t.c.pending == j.c.pending && j.lh[n] in j.c.pending
    requires t.c.disk == j.c.disk[j.lh[n] := j.c.pending[j.lh[n]]]
    ensures EntryOk(r, t, i)
  {
    if i < |j.lh| { assert r.InLog(r.Slot(i)); }
  }

  lemma BunpinKeeps(r: Region, j: Joint, to: int)
    requires JointInv(r, j) && Can(r, j, Bunpin(to))
    ensures JointInv(r, After(r, j, Bunpin(to)))
  {
    var t, n := After(r, j, Bunpin(to)), j.stage.tail;
    AfterInv(r, j, Bunpin(to));
    assert t.c.pending == j.c.pending - {j.lh[n]} && t.c.disk == j.c.disk;
    forall i: nat ensures EntryOk(r, t, i) { assert EntryOk(r, j, i) && PairOk(j, n, i); }
    forall i: nat, k: nat ensures PairOk(t, i, k) { assert PairOk(j, i, k); }
    forall k: Key ensures Listed(t, k) { UnpinListed(j, t, n, k); }
  }

  lemma UnpinListed(j: Joint, t: Joint, n: nat, k: Key)
    requires j.stage == Unpinning(n) && t.stage == Installing(n + 1) && t.lh == j.lh && n < |j.lh| && Listed(j, k)
    requires t.c.pending == j.c.pending - {j.lh[n]}
    ensures Listed(t, k)
  {
    if k in t.c.pending {
      var i: nat :| Gone(j) <= i < |j.lh| && j.lh[i] == k;
      assert Gone(t) <= i < |t.lh| && t.lh[i] == k;
    }
  }

  lemma EraseKeeps(r: Region, j: Joint, id: int, data: Data)
    requires JointInv(r, j) && Can(r, j, Erase(id, data))
    ensures JointInv(r, After(r, j, Erase(id, data)))
  {
    var t := After(r, j, Erase(id, data));
    AfterInv(r, j, Erase(id, data));
    forall k: Key ensures k !in j.c.pending { assert Listed(j, k); }
    forall k: Key ensures Listed(t, k) { assert k !in t.c.pending; }
    forall i: nat ensures EntryOk(r, t, i) { }
    forall i: nat, k: nat ensures PairOk(t, i, k) { }
  }

  lemma MoveKeeps(r: Region, j: Joint, m: Move)
    requires JointInv(r, j) && Can(r, j, m)
    ensures JointInv(r, After(r, j, m))
  {
    match m
    case Other(e) => OtherKeeps(r, j, e);
    case Log(id, data) => LogKeeps(r, j, id, data);
    case Start => StartKeeps(r, j);
    case Copy(to, from) => CopyKeeps(r, j, to, from);
    case WriteHead(id, data) => WriteHeadKeeps(r, j, id, data);
    case Install(to, from) => InstallKeeps(r, j, to, from);
    case Bunpin(to) => BunpinKeeps(r, j, to);
    case Erase(id, data) => EraseKeeps(r, j, id, data);
  }

  // ----- Whole runs -----

  ghost predicate Moves(r: Region, js: seq<Joint>, ms: seq<Move>) {
    && |js| == |ms| + 1 && r.Ok() && Init(js[0].c) && js[0].lh == [] && js[0].stage == Open
    && forall n :: 0 <= n < |ms| ==> MovesTo(r, js[n], ms[n], js[n + 1])
  }

  ghost predicate MovesTo(r: Region, j: Joint, m: Move, t: Joint) {
    Can(r, j, m) && (JointInv(r, j) ==> t == After(r, j, m))
  }

  lemma InitJoint(r: Region, j: Joint)
    requires r.Ok() && Init(j.c) && j.lh == [] && j.stage == Open
    ensures JointInv(r, j)
  {
    assert forall i :: Users(j.c.sessions, i) == {};
    forall i: nat ensures EntryOk(r, j, i) { }
    forall i: nat, k: nat ensures PairOk(j, i, k) { }
    forall k: Key ensures Listed(j, k) { }
  }

  lemma {:induction false} MovesInv(r: Region, js: seq<Joint>, ms: seq<Move>, n: nat)
    requires Moves(r, js, ms) && n <= |ms|
    ensures JointInv(r, js[n])
  {
    if n == 0 {
      InitJoint(r, js[0]);
    } else {
      MovesInv(r, js, ms, n - 1);
      assert MovesTo(r, js[n - 1], ms[n - 1], js[n]);
      MoveKeeps(r, js[n - 1], ms[n - 1]);
    }
  }

  /** In every run of operations, readers and commits: the cache is in order, commit's writes meet
      the cache's guards, a pinned block is exactly a listed block not yet installed, and no move of
      the committer changes the latest contents of any block outside the log. */
  lemma CommitInvisible(r: Region, js: seq<Joint>, ms: seq<Move>, n: nat, k: Key)
    requires Moves(r, js, ms) && n < |ms| && !r.InLog(k) && !ms[n].Log?
    ensures Inv(js[n].c) && Inv(js[n + 1].c) && View(js[n + 1].c, k) == View(js[n].c, k)
    ensures k in js[n].c.pending <==> exists i: nat :: Gone(js[n]) <= i < |js[n].lh| && js[n].lh[i] == k
  {
    MovesInv(r, js, ms, n);
    MovesInv(r, js, ms, n + 1);
    var j, m := js[n], ms[n];
    assert MovesTo(r, j, m, js[n + 1]);
    GuardsHold(r, j, m);
    if Step(j, m).Some? { ViewChangesOnlyByWriters(j.c, Step(j, m).value, k); }
    if m.Install? {
      LogNotPinned(r, j, r.Slot(j.stage.tail));
      HeldBytes(j.c, m.from);
      assert EntryOk(r, j, j.stage.tail);
    }
    assert Listed(j, k);
    forall i: nat | Gone(j) <= i < |j.lh| && j.lh[i] == k ensures k in j.c.pending { assert EntryOk(r, j, i); }
  }

  /** After a commit nothing is pinned and every block on disk is the latest. */
  lemma CommitLeavesNothing(r: Region, js: seq<Joint>, ms: seq<Move>, n: nat, k: Key)
    requires Moves(r, js, ms) && n < |ms| && ms[n].Erase?
    ensures js[n + 1].c.pending == map[] && js[n + 1].lh == [] && View(js[n + 1].c, k) == DiskAt(js[n + 1].c.disk, k)
  {
    MovesInv(r, js, ms, n + 1);
    MovesInv(r, js, ms, n);
    assert MovesTo(r, js[n], ms[n], js[n + 1]);
    var t := js[n + 1];
    forall x: Key ensures x !in t.c.pending { assert Listed(t, x); }
    assert t.c.pending.Keys == {};
  }
}
