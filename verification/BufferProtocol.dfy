/** Concurrent use of the buffer cache: any number of bread-to-brelse sessions interleave at the
    granularity of bcache.lock and the per-buffer sleep locks, log_write pins blocks, and the
    committing thread writes and unpins them (kernel/bio.c, kernel/log.c, kernel/sleeplock.c). */
module BufferProtocol {
  import opened BufferCache

  /** Where one session stands: past bget's critical section and waiting for the sleep lock,
      owning it, or past releasesleep with its reference still counted. */
  datatype Phase = Waiting | Holding | Releasing
  datatype Session = Session(buf: nat, key: Key, phase: Phase)

  datatype State = State(cache: Cache, sessions: map<int, Session>, locked: map<nat, int>,
                         disk: map<Key, Data>, pending: map<Key, Data>)

  datatype Event =
    | Bget(id: int, key: Key)
    | Acquire(id: int)                 // acquiresleep succeeds
    | Fill(id: int)                    // bread finds the buffer invalid and reads the disk
    | LogWrite(id: int, data: Data)    // the holder changes the data and calls log_write
    | BWrite(id: int, data: Data)      // the committer changes the data and calls bwrite
    | Unpin(id: int)                   // bunpin after an install
    | Release(id: int)                 // releasesleep
    | Drop(id: int)                    // the rest of brelse

  function DiskAt(disk: map<Key, Data>, k: Key): Data { if k in disk then disk[k] else [] }

  /** The latest contents of a block: what was logged last, or what is on disk. */
  function View(s: State, k: Key): Data { if k in s.pending then s.pending[k] else DiskAt(s.disk, k) }

  predicate Holds(s: State, id: int) {
    id in s.sessions && s.sessions[id].phase == Holding && s.sessions[id].buf < |s.cache.bufs|
  }

  predicate HoldsValid(s: State, id: int) { Holds(s, id) && s.cache.bufs[s.sessions[id].buf].valid }

  ghost predicate Enabled(s: State, e: Event) {
    match e
    case Bget(id, key) => Ordered(s.cache) && id !in s.sessions && key.dev != 0 && Get(s.cache, key).Some?
    case Acquire(id) => id in s.sessions && s.sessions[id].phase == Waiting && s.sessions[id].buf !in s.locked
    case Fill(id) => Holds(s, id) && !s.cache.bufs[s.sessions[id].buf].valid
    case LogWrite(id, _) => HoldsValid(s, id)
    case BWrite(id, data) =>
      HoldsValid(s, id) && (s.sessions[id].key in s.pending ==> s.pending[s.sessions[id].key] == data)
    case Unpin(id) =>
      HoldsValid(s, id) && s.sessions[id].key in s.pending
      && DiskAt(s.disk, s.sessions[id].key) == s.pending[s.sessions[id].key]
      && s.cache.bufs[s.sessions[id].buf].refcnt > 0
    case Release(id) => HoldsValid(s, id)
    case Drop(id) =>
      id in s.sessions && s.sessions[id].phase == Releasing && s.sessions[id].buf in s.cache.order
      && s.sessions[id].buf < |s.cache.bufs| && s.cache.bufs[s.sessions[id].buf].refcnt > 0
  }

  function SetBuf(c: Cache, i: nat, b: Buf): Cache
    requires i < |c.bufs|
  {
    c.(bufs := c.bufs[i := b])
  }

  ghost function Next(s: State, e: Event): State
    requires Ordered(s.cache) && Enabled(s, e)
  {
    match e
    case Bget(id, key) =>
      var g := Get(s.cache, key).value;
      s.(cache := g.1, sessions := s.sessions[id := Session(g.0, key, Waiting)])
    case Acquire(id) =>
      var x := s.sessions[id];
      s.(sessions := s.sessions[id := x.(phase := Holding)], locked := s.locked[x.buf := id])
    case Fill(id) =>
      var x := s.sessions[id];
      var b := s.cache.bufs[x.buf];
      s.(cache := SetBuf(s.cache, x.buf, b.(valid := true, data := DiskAt(s.disk, b.key))))
    case LogWrite(id, data) =>
      var x := s.sessions[id];
      var b := s.cache.bufs[x.buf];
      var pin := if b.key in s.pending then 0 else 1;
      s.(cache := SetBuf(s.cache, x.buf, b.(data := data, refcnt := b.refcnt + pin)),
         pending := s.pending[b.key := data])
    case BWrite(id, data) =>
      var x := s.sessions[id];
      var b := s.cache.bufs[x.buf];
      s.(cache := SetBuf(s.cache, x.buf, b.(data := data)), disk := s.disk[b.key := data])
    case Unpin(id) =>
      var x := s.sessions[id];
      var b := s.cache.bufs[x.buf];
      s.(cache := SetBuf(s.cache, x.buf, b.(refcnt := b.refcnt - 1)), pending := s.pending - {b.key})
    case Release(id) =>
      var x := s.sessions[id];
      s.(sessions := s.sessions[id := x.(phase := Releasing)], locked := s.locked - {x.buf})
    case Drop(id) =>
      s.(cache := Put(s.cache, Index(s.cache.order, s.sessions[id].buf)), sessions := s.sessions - {id})
  }

  // ----- What every step keeps -----

  ghost function Users(sessions: map<int, Session>, i: nat): set<int> {
    set id | id in sessions && sessions[id].buf == i
  }

  function Pins(s: State, i: nat): nat
    requires i < |s.cache.bufs|
  {
    if s.cache.bufs[i].key in s.pending then 1 else 0
  }

  /** At most one buffer for any block of a real device. */
  ghost predicate Unique(bufs: seq<Buf>) {
    forall i, j :: 0 <= i < |bufs| && 0 <= j < |bufs| && bufs[i].key.dev != 0 && bufs[i].key == bufs[j].key ==> i == j
  }

  /** Every session's buffer still holds the block it asked for. */
  ghost predicate Bound(s: State) {
    forall id :: id in s.sessions ==>
      && s.sessions[id].buf < |s.cache.bufs|
      && s.sessions[id].key.dev != 0
      && s.cache.bufs[s.sessions[id].buf].key == s.sessions[id].key
  }

  ghost predicate Counted(s: State) {
    forall i :: 0 <= i < |s.cache.bufs| ==> s.cache.bufs[i].refcnt == |Users(s.sessions, i)| + Pins(s, i)
  }

  ghost predicate Exclusive(s: State) {
    && (forall i :: i in s.locked ==>
          s.locked[i] in s.sessions && s.sessions[s.locked[i]].phase == Holding && s.sessions[s.locked[i]].buf == i)
    && (forall id :: id in s.sessions && s.sessions[id].phase == Holding ==>
          s.sessions[id].buf in s.locked && s.locked[s.sessions[id].buf] == id)
  }

  ghost predicate Coherent(s: State) {
    && (forall i :: 0 <= i < |s.cache.bufs| && s.cache.bufs[i].valid ==>
          s.cache.bufs[i].data == View(s, s.cache.bufs[i].key))
    && (forall id :: id in s.sessions && s.sessions[id].phase == Releasing && s.sessions[id].buf < |s.cache.bufs| ==>
          s.cache.bufs[s.sessions[id].buf].valid)
  }

  /** Every logged block is cached, valid and pinned. */
  ghost predicate Pinned(s: State) {
    && (forall k :: k in s.pending ==>
          k.dev != 0 && exists i :: 0 <= i < |s.cache.bufs| && s.cache.bufs[i].key == k && s.cache.bufs[i].valid)
  }

  ghost predicate Inv(s: State) {
    Ordered(s.cache) && Unique(s.cache.bufs) && Bound(s) && Counted(s) && Exclusive(s) && Coherent(s) && Pinned(s)
  }

  lemma UsersSame(m: map<int, Session>, id: int, x: Session, i: nat)
    requires id in m && m[id].buf == x.buf
    ensures Users(m[id := x], i) == Users(m, i)
  {
  }

  lemma UsersAdd(m: map<int, Session>, id: int, x: Session, i: nat)
    requires id !in m
    ensures |Users(m[id := x], i)| == |Users(m, i)| + if x.buf == i then 1 else 0
  {
    if x.buf == i {
      assert Users(m[id := x], i) == Users(m, i) + {id};
    } else {
      assert Users(m[id := x], i) == Users(m, i);
    }
  }

  lemma UsersDrop(m: map<int, Session>, id: int, i: nat)
    requires id in m
    ensures |Users(m - {id}, i)| == |Users(m, i)| - if m[id].buf == i then 1 else 0
  {
    if m[id].buf == i {
      assert Users(m, i) == Users(m - {id}, i) + {id};
    } else {
      assert Users(m - {id}, i) == Users(m, i);
    }
  }

  /** A buffer with no references is neither in use nor pinned, so recycling it is harmless. */
  lemma UnreferencedIsFree(s: State, i: nat)
    requires Inv(s) && i < |s.cache.bufs| && s.cache.bufs[i].refcnt == 0
    ensures s.cache.bufs[i].key !in s.pending
    ensures forall id :: id in s.sessions ==> s.sessions[id].buf != i
  {
    assert |Users(s.sessions, i)| == 0;
    assert forall id :: id in s.sessions && s.sessions[id].buf == i ==> id in Users(s.sessions, i);
  }

  /** What bget does on a hit: one more reference to the buffer of the key. */
  ghost predicate Arrives(s: State, s': State, id: int, x: Session) {
    && x.buf < |s.cache.bufs| && id !in s.sessions && x.key.dev != 0 && x.phase == Waiting
    && s'.sessions == s.sessions[id := x] && s'.pending == s.pending && s'.disk == s.disk && s'.locked == s.locked
    && s.cache.bufs[x.buf].key == x.key
    && s'.cache.bufs == s.cache.bufs[x.buf := s.cache.bufs[x.buf].(refcnt := s.cache.bufs[x.buf].refcnt + 1)]
  }

  lemma GetHitArrives(s: State, id: int, key: Key)
    requires Ordered(s.cache) && Enabled(s, Bget(id, key)) && Hit(s.cache, key, 0).Some?
    ensures var s' := Next(s, Bget(id, key));
            id in s'.sessions && Arrives(s, s', id, s'.sessions[id]) && Ordered(s'.cache)
  {
  }

  lemma ArriveKeepsInv(s: State, s': State, id: int, x: Session)
    requires Inv(s) && Arrives(s, s', id, x) && Ordered(s'.cache)
    ensures Inv(s')
  {
    CountAdd(s, s', id, x, s'.cache.bufs[x.buf]);
    KeptKeys(s, s');
    ArriveRest(s, s', id, x);
  }

  lemma GetHit(s: State, id: int, key: Key)
    requires Inv(s) && Enabled(s, Bget(id, key)) && Hit(s.cache, key, 0).Some?
    ensures Inv(Next(s, Bget(id, key)))
  {
    var s' := Next(s, Bget(id, key));
    GetHitArrives(s, id, key);
    ArriveKeepsInv(s, s', id, s'.sessions[id]);
  }

  lemma ArriveRest(s: State, s': State, id: int, x: Session)
    requires Unique(s.cache.bufs) && Bound(s) && Exclusive(s) && Coherent(s) && Arrives(s, s', id, x)
    ensures Unique(s'.cache.bufs) && Bound(s') && Exclusive(s') && Coherent(s')
  {
  }

  /** Counting when a session arrives at a buffer whose count grows by one. */
  lemma CountAdd(s: State, s': State, id: int, x: Session, b: Buf)
    requires Counted(s) && id !in s.sessions && x.buf < |s.cache.bufs|
    requires s'.sessions == s.sessions[id := x] && s'.pending == s.pending
    requires s'.cache.bufs == s.cache.bufs[x.buf := b]
    requires b.refcnt == |Users(s.sessions, x.buf)| + 1 + if b.key in s.pending then 1 else 0
    ensures Counted(s')
  {
    forall i | 0 <= i < |s.cache.bufs| ensures s'.cache.bufs[i].refcnt == |Users(s'.sessions, i)| + Pins(s', i) {
      UsersAdd(s.sessions, id, x, i);
    }
  }

  /** Pinned survives a step that keeps every valid buffer's key and adds no pending block. */
  lemma KeptKeys(s: State, s': State)
    requires Pinned(s) && |s'.cache.bufs| == |s.cache.bufs| && s'.pending.Keys <= s.pending.Keys
    requires forall i :: 0 <= i < |s.cache.bufs| && s.cache.bufs[i].valid && s.cache.bufs[i].key in s'.pending ==>
               s'.cache.bufs[i].valid && s'.cache.bufs[i].key == s.cache.bufs[i].key
    ensures Pinned(s')
  {
    forall k | k in s'.pending
      ensures k.dev != 0 && exists i :: 0 <= i < |s'.cache.bufs| && s'.cache.bufs[i].key == k && s'.cache.bufs[i].valid
    {
      assert k in s.pending;
      var i :| 0 <= i < |s.cache.bufs| && s.cache.bufs[i].key == k && s.cache.bufs[i].valid;
      assert s'.cache.bufs[i].key == k;
    }
  }

  lemma GetMiss(s: State, id: int, key: Key)
    requires Inv(s) && Enabled(s, Bget(id, key)) && Hit(s.cache, key, 0).None?
    ensures Inv(Next(s, Bget(id, key)))
  {
    var s' := Next(s, Bget(id, key));
    var x := s'.sessions[id];
    UnreferencedIsFree(s, x.buf);
    NotCached(s, key);
    assert |Users(s.sessions, x.buf)| == 0;
    CountAdd(s, s', id, x, s'.cache.bufs[x.buf]);
    RecycleUnique(s.cache.bufs, x.buf, s'.cache.bufs[x.buf]);
    KeptKeys(s, s');
    RecycleRest(s, s', id, x);
  }

  lemma RecycleUnique(bufs: seq<Buf>, i: nat, b: Buf)
    requires Unique(bufs) && i < |bufs| && forall j :: 0 <= j < |bufs| ==> bufs[j].key != b.key
    ensures Unique(bufs[i := b])
  {
  }

  lemma RecycleRest(s: State, s': State, id: int, x: Session)
    requires Bound(s) && Exclusive(s) && Coherent(s)
    requires x.buf < |s.cache.bufs| && id !in s.sessions && x.key.dev != 0 && x.phase == Waiting
    requires forall j :: j in s.sessions ==> s.sessions[j].buf != x.buf
    requires s'.sessions == s.sessions[id := x] && s'.pending == s.pending && s'.disk == s.disk && s'.locked == s.locked
    requires |s'.cache.bufs| == |s.cache.bufs| && s'.cache.bufs == s.cache.bufs[x.buf := s'.cache.bufs[x.buf]]
    requires !s'.cache.bufs[x.buf].valid && s'.cache.bufs[x.buf].key == x.key
    ensures Bound(s') && Exclusive(s') && Coherent(s')
  {
  }

  lemma NotCached(s: State, key: Key)
    requires Inv(s) && Hit(s.cache, key, 0).None?
    ensures forall i :: 0 <= i < |s.cache.bufs| ==> s.cache.bufs[i].key != key
    ensures key !in s.pending
  {
    forall i | 0 <= i < |s.cache.bufs| ensures s.cache.bufs[i].key != key {
      var j := Index(s.cache.order, i);
      assert s.cache.bufs[s.cache.order[j]].key != key;
    }
  }

  lemma AcquireStep(s: State, id: int)
    requires Inv(s) && Enabled(s, Acquire(id))
    ensures Inv(Next(s, Acquire(id)))
  {
    var s' := Next(s, Acquire(id));
    forall i | 0 <= i < |s.cache.bufs| ensures Users(s'.sessions, i) == Users(s.sessions, i) {
      UsersSame(s.sessions, id, s'.sessions[id], i);
    }
  }

  lemma FillStep(s: State, id: int)
    requires Inv(s) && Enabled(s, Fill(id))
    ensures Inv(Next(s, Fill(id)))
  {
    var s' := Next(s, Fill(id));
    FillNotPending(s, id);
    KeyKept(s, s', s.sessions[id].buf, s'.cache.bufs[s.sessions[id].buf]);
    KeptKeys(s, s');
  }

  lemma FillNotPending(s: State, id: int)
    requires Inv(s) && Enabled(s, Fill(id))
    ensures s.cache.bufs[s.sessions[id].buf].key !in s.pending
  {
    var b := s.cache.bufs[s.sessions[id].buf];
    assert b.key.dev != 0;
  }

  /** Unique, Bound and Exclusive survive a change of one buffer that keeps its key. */
  lemma KeyKept(s: State, s': State, i: nat, b: Buf)
    requires Unique(s.cache.bufs) && Bound(s) && Exclusive(s) && i < |s.cache.bufs| && b.key == s.cache.bufs[i].key
    requires s'.cache.bufs == s.cache.bufs[i := b] && s'.sessions == s.sessions && s'.locked == s.locked
    ensures Unique(s'.cache.bufs) && Bound(s') && Exclusive(s')
  {
  }

  lemma LogWriteStep(s: State, id: int, data: Data)
    requires Inv(s) && Enabled(s, LogWrite(id, data))
    ensures Inv(Next(s, LogWrite(id, data)))
  {
    var s' := Next(s, LogWrite(id, data));
    var i := s.sessions[id].buf;
    KeyKept(s, s', i, s'.cache.bufs[i]);
    LogWriteCount(s, s', i);
    LogWritePins(s, s', i);
    LogWriteCoherent(s, s', i);
  }

  lemma LogWriteCount(s: State, s': State, i: nat)
    requires Counted(s) && Unique(s.cache.bufs) && i < |s.cache.bufs| && s.cache.bufs[i].key.dev != 0
    requires |s'.cache.bufs| == |s.cache.bufs| && s'.cache.bufs == s.cache.bufs[i := s'.cache.bufs[i]]
    requires s'.cache.bufs[i].key == s.cache.bufs[i].key && s'.pending.Keys == s.pending.Keys + {s.cache.bufs[i].key}
    requires s'.cache.bufs[i].refcnt == s.cache.bufs[i].refcnt + if s.cache.bufs[i].key in s.pending then 0 else 1
    requires s'.sessions == s.sessions
    ensures Counted(s')
  {
    forall j | 0 <= j < |s.cache.bufs| ensures s'.cache.bufs[j].refcnt == |Users(s'.sessions, j)| + Pins(s', j) {
      assert s'.cache.bufs[j].key in s'.pending <==> s.cache.bufs[j].key in s.pending || j == i;
    }
  }

  lemma LogWritePins(s: State, s': State, i: nat)
    requires Pinned(s) && i < |s.cache.bufs| == |s'.cache.bufs| && s.cache.bufs[i].key.dev != 0
    requires s'.cache.bufs == s.cache.bufs[i := s'.cache.bufs[i]] && s'.cache.bufs[i].valid
    requires s'.cache.bufs[i].key == s.cache.bufs[i].key && s'.pending.Keys == s.pending.Keys + {s.cache.bufs[i].key}
    ensures Pinned(s')
  {
    forall k | k in s'.pending
      ensures k.dev != 0 && exists j :: 0 <= j < |s'.cache.bufs| && s'.cache.bufs[j].key == k && s'.cache.bufs[j].valid
    {
      if k == s.cache.bufs[i].key {
        assert s'.cache.bufs[i].key == k;
      } else {
        assert k in s.pending;
        var j :| 0 <= j < |s.cache.bufs| && s.cache.bufs[j].key == k && s.cache.bufs[j].valid;
        assert s'.cache.bufs[j].key == k;
      }
    }
  }

  lemma LogWriteCoherent(s: State, s': State, i: nat)
    requires Coherent(s) && Unique(s.cache.bufs) && i < |s.cache.bufs| == |s'.cache.bufs|
    requires s.cache.bufs[i].key.dev != 0
    requires s'.cache.bufs == s.cache.bufs[i := s'.cache.bufs[i]] && s'.cache.bufs[i].valid
    requires s'.cache.bufs[i].key == s.cache.bufs[i].key
    requires s'.pending == s.pending[s.cache.bufs[i].key := s'.cache.bufs[i].data]
    requires s'.sessions == s.sessions && s'.disk == s.disk
    ensures Coherent(s')
  {
  }

  lemma BWriteStep(s: State, id: int, data: Data)
    requires Inv(s) && Enabled(s, BWrite(id, data))
    ensures Inv(Next(s, BWrite(id, data)))
  {
    var s', i := Next(s, BWrite(id, data)), s.sessions[id].buf;
    KeyKept(s, s', i, s'.cache.bufs[i]);
    KeptKeys(s, s');
    BWriteCoherent(s, s', i, data);
  }

  lemma BWriteCoherent(s: State, s': State, i: nat, data: Data)
    requires Coherent(s) && Unique(s.cache.bufs) && i < |s.cache.bufs| && s.cache.bufs[i].key.dev != 0
    requires s.cache.bufs[i].key in s.pending ==> s.pending[s.cache.bufs[i].key] == data
    requires s'.cache.bufs == s.cache.bufs[i := s.cache.bufs[i].(data := data)]
    requires s'.disk == s.disk[s.cache.bufs[i].key := data] && s'.pending == s.pending && s'.sessions == s.sessions
    ensures Coherent(s')
  {
  }

  lemma UnpinStep(s: State, id: int)
    requires Inv(s) && Enabled(s, Unpin(id))
    ensures Inv(Next(s, Unpin(id)))
  {
    var s', i := Next(s, Unpin(id)), s.sessions[id].buf;
    KeyKept(s, s', i, s'.cache.bufs[i]);
    KeptKeys(s, s');
    UnpinCount(s, s', i);
    UnpinCoherent(s, s', i);
  }

  lemma UnpinCount(s: State, s': State, i: nat)
    requires Counted(s) && Unique(s.cache.bufs) && i < |s.cache.bufs| && s.cache.bufs[i].key.dev != 0
    requires s.cache.bufs[i].key in s.pending && s.cache.bufs[i].refcnt > 0
    requires s'.cache.bufs == s.cache.bufs[i := s.cache.bufs[i].(refcnt := s.cache.bufs[i].refcnt - 1)]
    requires s'.pending == s.pending - {s.cache.bufs[i].key} && s'.sessions == s.sessions
    ensures Counted(s')
  {
    forall j | 0 <= j < |s.cache.bufs| ensures s'.cache.bufs[j].refcnt == |Users(s'.sessions, j)| + Pins(s', j) {
      assert s'.cache.bufs[j].key in s'.pending <==> s.cache.bufs[j].key in s.pending && j != i;
    }
  }

  lemma UnpinCoherent(s: State, s': State, i: nat)
    requires Coherent(s) && i < |s.cache.bufs| && s.cache.bufs[i].key in s.pending && s.cache.bufs[i].refcnt > 0
    requires DiskAt(s.disk, s.cache.bufs[i].key) == s.pending[s.cache.bufs[i].key]
    requires s'.cache.bufs == s.cache.bufs[i := s.cache.bufs[i].(refcnt := s.cache.bufs[i].refcnt - 1)]
    requires s'.pending == s.pending - {s.cache.bufs[i].key} && s'.sessions == s.sessions && s'.disk == s.disk
    ensures Coherent(s')
  {
  }

  lemma ReleaseStep(s: State, id: int)
    requires Inv(s) && Enabled(s, Release(id))
    ensures Inv(Next(s, Release(id)))
  {
    var s' := Next(s, Release(id));
    forall i | 0 <= i < |s.cache.bufs| ensures Users(s'.sessions, i) == Users(s.sessions, i) {
      UsersSame(s.sessions, id, s'.sessions[id], i);
    }
  }

  lemma DropStep(s: State, id: int)
    requires Inv(s) && Enabled(s, Drop(id))
    ensures Inv(Next(s, Drop(id)))
  {
    var s' := Next(s, Drop(id));
    PutOrdered(s.cache, Index(s.cache.order, s.sessions[id].buf));
    CountDrop(s, s', id);
    KeptKeys(s, s');
    DropRest(s, s', id);
  }

  lemma CountDrop(s: State, s': State, id: int)
    requires Counted(s) && id in s.sessions && s.sessions[id].buf < |s.cache.bufs|
    requires var i := s.sessions[id].buf; var b := s.cache.bufs[i];
             b.refcnt > 0 && s'.cache.bufs == s.cache.bufs[i := b.(refcnt := b.refcnt - 1)]
    requires s'.sessions == s.sessions - {id} && s'.pending == s.pending
    ensures Counted(s')
  {
    forall i | 0 <= i < |s.cache.bufs| ensures s'.cache.bufs[i].refcnt == |Users(s'.sessions, i)| + Pins(s', i) {
      UsersDrop(s.sessions, id, i);
    }
  }

  lemma DropRest(s: State, s': State, id: int)
    requires Unique(s.cache.bufs) && Bound(s) && Exclusive(s) && Coherent(s)
    requires id in s.sessions && s.sessions[id].buf < |s.cache.bufs| && s.sessions[id].phase == Releasing
    requires var i := s.sessions[id].buf; var b := s.cache.bufs[i];
             b.refcnt > 0 && s'.cache.bufs == s.cache.bufs[i := b.(refcnt := b.refcnt - 1)]
    requires s'.sessions == s.sessions - {id} && s'.pending == s.pending && s'.disk == s.disk && s'.locked == s.locked
    ensures Unique(s'.cache.bufs) && Bound(s') && Exclusive(s') && Coherent(s')
  {
  }

  lemma StepKeepsInv(s: State, e: Event)
    requires Inv(s) && Enabled(s, e)
    ensures Inv(Next(s, e))
  {
    match e
    case Bget(id, key) => if Hit(s.cache, key, 0).Some? { GetHit(s, id, key); } else { GetMiss(s, id, key); }
    case Acquire(id) => AcquireStep(s, id);
    case Fill(id) => FillStep(s, id);
    case LogWrite(id, data) => LogWriteStep(s, id, data);
    case BWrite(id, data) => BWriteStep(s, id, data);
    case Unpin(id) => UnpinStep(s, id);
    case Release(id) => ReleaseStep(s, id);
    case Drop(id) => DropStep(s, id);
  }

  /** The decrements of brelse and bunpin never underflow, and brelse finds its buffer linked. */
  lemma NoUnderflow(s: State, id: int)
    requires Inv(s) && id in s.sessions
    ensures var x := s.sessions[id];
            && x.buf in s.cache.order
            && s.cache.bufs[x.buf].refcnt >= if x.key in s.pending then 2 else 1
  {
    assert id in Users(s.sessions, s.sessions[id].buf);
  }

  // ----- Whole runs -----

  ghost predicate Init(s: State) {
    && Ordered(s.cache) && s.sessions == map[] && s.locked == map[] && s.pending == map[]
    && forall i :: 0 <= i < |s.cache.bufs| ==> s.cache.bufs[i] == Buf(Key(0, 0), false, 0, s.cache.bufs[i].data)
  }

  ghost predicate Run(ss: seq<State>, es: seq<Event>) {
    && |ss| == |es| + 1 && Init(ss[0])
    && forall i {:trigger StepAt(ss, es, i)} :: StepAt(ss, es, i)
  }

  ghost predicate StepAt(ss: seq<State>, es: seq<Event>, i: nat) {
    i < |es| && i + 1 < |ss| ==> Ordered(ss[i].cache) && Enabled(ss[i], es[i]) && ss[i + 1] == Next(ss[i], es[i])
  }

  lemma {:induction false} RunInv(ss: seq<State>, es: seq<Event>, i: nat)
    requires Run(ss, es) && i < |ss|
    ensures Inv(ss[i])
  {
    if i == 0 {
      assert forall j :: Users(ss[0].sessions, j) == {};
    } else {
      RunInv(ss, es, i - 1);
      assert StepAt(ss, es, i - 1);
      StepKeepsInv(ss[i - 1], es[i - 1]);
    }
  }

  /** In every reachable state: one buffer per block; a session that bread has served sees the
      block's latest logged contents; holders are exclusive; and no logged block's buffer can be
      recycled, because bget's second loop only picks buffers with a zero count. */
  lemma CacheRefinesDisk(ss: seq<State>, es: seq<Event>, i: nat)
    requires Run(ss, es) && i < |ss|
    ensures Ordered(ss[i].cache) && Unique(ss[i].cache.bufs) && Counted(ss[i])
    ensures forall id :: HoldsValid(ss[i], id) ==>
              ss[i].cache.bufs[ss[i].sessions[id].buf].data == View(ss[i], ss[i].sessions[id].key)
    ensures forall id, id' ::
      Holds(ss[i], id) && Holds(ss[i], id') && ss[i].sessions[id].key == ss[i].sessions[id'].key ==> id == id'
    ensures forall j :: 0 <= j < |ss[i].cache.bufs| && ss[i].cache.bufs[j].key in ss[i].pending ==>
      ss[i].cache.bufs[j].refcnt > 0
    ensures forall k :: k in ss[i].pending ==>
      exists j ::
        && 0 <= j < |ss[i].cache.bufs| && ss[i].cache.bufs[j].key == k && ss[i].cache.bufs[j].valid
        && ss[i].cache.bufs[j].data == ss[i].pending[k]
  {
    RunInv(ss, es, i);
    var s := ss[i];
    forall k | k in s.pending
      ensures exists j ::
        && 0 <= j < |s.cache.bufs| && s.cache.bufs[j].key == k && s.cache.bufs[j].valid
        && s.cache.bufs[j].data == s.pending[k]
    {
      var j :| 0 <= j < |s.cache.bufs| && s.cache.bufs[j].key == k && s.cache.bufs[j].valid;
      assert s.cache.bufs[j].data == View(s, k);
    }
  }

  /** A step changes the latest contents of a block only when a holder of that block logs or
      writes it: filling, recycling, pinning, unpinning and installing are invisible. */
  lemma ViewChangesOnlyByWriters(s: State, e: Event, k: Key)
    requires Inv(s) && Enabled(s, e)
    ensures View(Next(s, e), k) ==
              if (e.LogWrite? || e.BWrite?) && s.sessions[e.id].key == k then e.data else View(s, k)
  {
  }

  // ----- From bget to brelse -----

  /** What the caller of bread gets: the buffer, locked for it alone, with the block's latest contents. */
  ghost predicate Served(s: State, id: int) {
    && HoldsValid(s, id) && s.cache.bufs[s.sessions[id].buf].key == s.sessions[id].key
    && s.cache.bufs[s.sessions[id].buf].data == View(s, s.sessions[id].key)
    && s.sessions[id].buf in s.locked && s.locked[s.sessions[id].buf] == id
  }

  /** A session is never stuck but for another that holds its buffer: waiting, it locks a buffer that is
      free; holding one that is invalid, it reads the block and is served; served, it can release; and
      after that it drops its reference and is gone. */
  lemma SessionGoesOn(s: State, id: int)
    requires Inv(s) && id in s.sessions
    ensures s.sessions[id].phase == Waiting && s.sessions[id].buf !in s.locked ==>
      Enabled(s, Acquire(id)) && Holds(Next(s, Acquire(id)), id)
    ensures s.sessions[id].phase == Holding ==>
      if s.cache.bufs[s.sessions[id].buf].valid then
        Served(s, id) && Enabled(s, Release(id)) && Next(s, Release(id)).sessions[id].phase == Releasing
      else Enabled(s, Fill(id)) && Served(Next(s, Fill(id)), id)
    ensures s.sessions[id].phase == Releasing ==> Enabled(s, Drop(id)) && id !in Next(s, Drop(id)).sessions
  {
    NoUnderflow(s, id);
    if Holds(s, id) && !s.cache.bufs[s.sessions[id].buf].valid { FillServes(s, id); }
  }

  lemma FillServes(s: State, id: int)
    requires Inv(s) && Enabled(s, Fill(id))
    ensures Served(Next(s, Fill(id)), id)
  {
    FillNotPending(s, id);
  }

  function Rank(p: Phase): nat { if p == Waiting then 0 else if p == Holding then 1 else 2 }

  /** A session keeps its buffer and its block and goes one way, by its own steps: from waiting to
      holding to releasing to gone. */
  lemma SessionStep(s: State, e: Event, id: int)
    requires Inv(s) && Enabled(s, e) && id in s.sessions
    ensures var t, x := Next(s, e), s.sessions[id];
      if e.id != id then id in t.sessions && t.sessions[id] == x
      else if id !in t.sessions then x.phase == Releasing && e.Drop?
      else
        && t.sessions[id] == x.(phase := t.sessions[id].phase)
        && Rank(x.phase) <= Rank(t.sessions[id].phase) <= Rank(x.phase) + 1
  {
  }
}
