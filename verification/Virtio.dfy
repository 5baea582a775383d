/** kernel/virtio_disk.c: the split queue (section 2.6 of the OASIS VIRTIO 1.1 specification)
    shared by the driver and the device, as two step relations.  Each driver step is a critical
    section under vdisk_lock. */
module Virtio {
  import opened Options
  import opened RingIndex

  const NUM := 8
  const WRAP := 65536                         // avail->idx and used->idx are 16 bits

  /** What a descriptor points at: the request header, a buffer's data, a request's status byte. */
  datatype Target = Nowhere | Header(write: bool, sector: nat) | Data(buf: nat) | Status(head: nat)

  /** more and write are the flags NEXT and WRITE; write means that the device writes. */
  datatype Desc = Desc(target: Target, len: nat, more: bool, write: bool, next: nat)

  /** The driver's bookkeeping and the memory it shares with the device. */
  datatype Queue = Queue(
    free: seq<bool>, desc: seq<Desc>, avail: seq<nat>, availIdx: nat,
    used: seq<nat>, usedIdx: nat, seen: nat, info: seq<Option<nat>>)

  /** A request, by its head descriptor: its buffer, its other two descriptors and how far it got. */
  datatype Stage = Published(k: nat) | Taken | Completed(k: nat) | Signalled
  datatype Flight = Flight(buf: nat, blockno: nat, write: bool, mid: nat, last: nat, stage: Stage)

  /** busy: the buffers with disk == 1.  next, working: the device's own position and work.
      flights, issued, done, got, saw: the history the proof keeps. */
  datatype State = State(
    q: Queue, busy: set<nat>, next: nat, working: set<nat>,
    flights: map<nat, Flight>, issued: seq<nat>, done: seq<nat>, got: nat, saw: nat)

  // ----- Allocation -----

  /** The first free descriptor from i on; NUM when there is none. */
  function FirstFree(free: seq<bool>, i: nat): (r: nat)
    requires i <= |free|
    ensures i <= r <= |free| && (r < |free| ==> free[r]) && forall j :: i <= j < r ==> !free[j]
    decreases |free| - i
  {
    if i == |free| || free[i] then i else FirstFree(free, i + 1)
  }

  datatype Three = Three(head: nat, mid: nat, last: nat)

  /** The first three free descriptors. */
  function Alloc3(free: seq<bool>): (r: Option<Three>)
    ensures r.Some? ==> r.value.head < r.value.mid < r.value.last < |free|
    ensures r.Some? ==> free[r.value.head] && free[r.value.mid] && free[r.value.last]
  {
    var a := FirstFree(free, 0);
    if a == |free| then None
    else
      var b := FirstFree(free, a + 1);
      if b == |free| then None
      else
        var c := FirstFree(free, b + 1);
        if c == |free| then None else Some(Three(a, b, c))
  }

  /** Allocation fails only when fewer than three descriptors are free. */
  lemma Alloc3Fails(free: seq<bool>, i: nat, j: nat, k: nat)
    requires i < j < k < |free| && free[i] && free[j] && free[k]
    ensures Alloc3(free).Some?
  {
  }

  // ----- Steps -----

  datatype Event =
    | Submit(b: nat, blockno: nat, write: bool)
    | Retry                     // alloc3_desc fails and virtio_disk_rw sleeps
    | DevTake
    | DevComplete(h: nat)
    | Intr
    | Finish(h: nat)

  /** A buffer, the block it is for and the direction. */
  datatype Request = Request(b: nat, blockno: nat, write: bool)

  function HeaderDesc(t: Three, r: Request): Desc { Desc(Header(r.write, r.blockno * 2), 16, true, false, t.mid) }
  function DataDesc(t: Three, r: Request): Desc { Desc(Data(r.b), 1024, true, !r.write, t.last) }
  function StatusDesc(t: Three): Desc { Desc(Status(t.head), 1, false, true, 0) }

  function Formatted(q: Queue, t: Three, r: Request): Queue
    requires t.head < |q.free| && t.mid < |q.free| && t.last < |q.free| && |q.desc| == |q.info| == |q.free|
    requires |q.avail| == NUM
  {
    q.(free := q.free[t.head := false][t.mid := false][t.last := false],
       desc := q.desc[t.head := HeaderDesc(t, r)][t.mid := DataDesc(t, r)][t.last := StatusDesc(t)],
       info := q.info[t.head := Some(r.b)],
       avail := q.avail[q.availIdx % NUM := t.head],
       availIdx := (q.availIdx + 1) % WRAP)
  }

  /** free_desc. */
  function Cleared(q: Queue, i: nat): Queue
    requires i < |q.free| == |q.desc|
  {
    q.(desc := q.desc[i := q.desc[i].(target := Nowhere)], free := q.free[i := true])
  }

  function Returned(q: Queue, h: nat, mid: nat, last: nat): Queue
    requires h < |q.free| && mid < |q.free| && last < |q.free| && |q.free| == |q.desc|
  {
    Cleared(Cleared(Cleared(q, h), mid), last)
  }

  /** Only addresses of free descriptors differ, and those are cleared. */
  ghost predicate OnlyFreeCleared(q: Queue, q': Queue) {
    && |q.desc| == |q'.desc| == |q.free|
    && forall i :: 0 <= i < |q.desc| ==>
          q'.desc[i] == q.desc[i] || (q.free[i] && q'.desc[i] == q.desc[i].(target := Nowhere))
  }

  ghost predicate Shaped(q: Queue) {
    && |q.free| == |q.desc| == |q.avail| == |q.used| == |q.info| == NUM
    && q.availIdx < WRAP && q.usedIdx < WRAP && q.seen < NUM
  }

  function Advance(fl: map<nat, Flight>, h: nat, stage: Stage): map<nat, Flight> {
    if h in fl then fl[h := fl[h].(stage := stage)] else fl
  }

  function Issued(s: State, d: Three, r: Request): State
    requires Shaped(s.q) && d.head < NUM && d.mid < NUM && d.last < NUM
  {
    s.(q := Formatted(s.q, d, r), busy := s.busy + {r.b},
       flights := s.flights[d.head := Flight(r.b, r.blockno, r.write, d.mid, d.last, Published(|s.issued|))],
       issued := s.issued + [d.head])
  }

  /** One step of the driver or the device.  A buffer's owner waits in virtio_disk_rw until its
      request is finished, so a buffer is submitted only when it has none in flight. */
  ghost predicate Next(s: State, e: Event, t: State) {
    Shaped(s.q) && match e
    case Submit(b, blockno, write) =>
      && Alloc3(s.q.free).Some? && (forall h :: h in s.flights ==> s.flights[h].buf != b)
      && t == Issued(s, Alloc3(s.q.free).value, Request(b, blockno, write))
    case Retry => Alloc3(s.q.free).None? && t == s.(q := s.q.(desc := t.q.desc)) && OnlyFreeCleared(s.q, t.q)
    case DevTake =>
      && s.next != s.q.availIdx
      && var h := s.q.avail[s.next % NUM];
         t == s.(next := (s.next + 1) % WRAP, working := s.working + {h}, got := s.got + 1,
                 flights := Advance(s.flights, h, Taken))
    case DevComplete(h) =>
      && h in s.working
      && t == s.(q := s.q.(used := s.q.used[s.q.usedIdx % NUM := h], usedIdx := (s.q.usedIdx + 1) % WRAP),
                 working := s.working - {h}, done := s.done + [h],
                 flights := Advance(s.flights, h, Completed(|s.done|)))
    case Intr =>
      && s.q.seen % NUM != s.q.usedIdx % NUM
      && var h := s.q.used[s.q.seen];
         h < NUM && s.q.info[h].Some?
         && t == s.(q := s.q.(seen := (s.q.seen + 1) % NUM), busy := s.busy - {s.q.info[h].value}, saw := s.saw + 1,
                    flights := Advance(s.flights, h, Signalled))
    case Finish(h) =>
      && h in s.flights && s.flights[h].buf !in s.busy && h < NUM && s.flights[h].mid < NUM && s.flights[h].last < NUM
      && t == s.(q := Returned(s.q.(info := s.q.info[h := None]), h, s.flights[h].mid, s.flights[h].last),
                 flights := s.flights - {h})
  }

  ghost predicate Init(s: State) {
    && Shaped(s.q) && (forall i :: 0 <= i < NUM ==> s.q.free[i])
    && s.q.availIdx == s.q.usedIdx == s.q.seen == s.next == s.got == s.saw == 0
    && s.busy == {} && s.working == {} && s.flights == map[] && s.issued == [] && s.done == []
  }

  // ----- What every step keeps -----

  ghost predicate StageOk(s: State, h: nat)
    requires h in s.flights
  {
    match s.flights[h].stage
    case Published(k) => s.got <= k < |s.issued| && s.issued[k] == h && s.flights[h].buf in s.busy && h !in s.working
    case Taken => h in s.working && s.flights[h].buf in s.busy
    case Completed(k) => s.saw <= k < |s.done| && s.done[k] == h && s.flights[h].buf in s.busy && h !in s.working
    case Signalled => s.flights[h].buf !in s.busy && h !in s.working
  }

  predicate Describes(desc: seq<Desc>, d: Three, r: Request)
    requires d.head < |desc| && d.mid < |desc| && d.last < |desc|
  {
    desc[d.head] == HeaderDesc(d, r) && desc[d.mid] == DataDesc(d, r) && desc[d.last] == StatusDesc(d)
  }

  ghost predicate ChainOk(s: State, h: nat)
    requires h in s.flights && Shaped(s.q)
  {
    var f := s.flights[h];
    && h < NUM && f.mid < NUM && f.last < NUM && h != f.mid && h != f.last && f.mid != f.last
    && !s.q.free[h] && !s.q.free[f.mid] && !s.q.free[f.last]
    && Describes(s.q.desc, Three(h, f.mid, f.last), Request(f.buf, f.blockno, f.write))
    && s.q.info[h] == Some(f.buf)
  }

  ghost predicate FlightOk(s: State, h: nat) {
    Shaped(s.q) && h in s.flights ==> ChainOk(s, h) && StageOk(s, h)
  }

  predicate Uses(f: Flight, h: nat, i: nat) { i == h || i == f.mid || i == f.last }

  /** Two requests share neither a descriptor nor a buffer. */
  ghost predicate PairOk(s: State, h: nat, g: nat) {
    h in s.flights && g in s.flights && h != g ==>
      && s.flights[h].buf != s.flights[g].buf
      && !Uses(s.flights[g], g, h) && !Uses(s.flights[g], g, s.flights[h].mid)
      && !Uses(s.flights[g], g, s.flights[h].last)
  }

  ghost predicate InUse(s: State, i: nat) { exists h :: h in s.flights && Uses(s.flights[h], h, i) }

  ghost predicate CellOk(s: State, i: nat) { Shaped(s.q) && i < NUM && !s.q.free[i] ==> InUse(s, i) }

  ghost predicate IssuedOk(s: State, k: nat) {
    Shaped(s.q) && s.got <= k < |s.issued| ==>
      s.issued[k] in s.flights && s.flights[s.issued[k]].stage == Published(k) && s.q.avail[k % NUM] == s.issued[k]
  }

  ghost predicate DoneOk(s: State, k: nat) {
    Shaped(s.q) && s.saw <= k < |s.done| ==>
      s.done[k] in s.flights && s.flights[s.done[k]].stage == Completed(k) && s.q.used[k % NUM] == s.done[k]
  }

  ghost predicate WorkOk(s: State, h: nat) { h in s.working ==> h in s.flights && s.flights[h].stage == Taken }

  ghost predicate Counters(s: State) {
    && s.got <= |s.issued| && s.saw <= |s.done|
    && s.q.availIdx == |s.issued| % WRAP && s.next == s.got % WRAP
    && s.q.usedIdx == |s.done| % WRAP && s.q.seen == s.saw % NUM
  }

  ghost predicate Inv(s: State) {
    && Shaped(s.q) && Counters(s)
    && (forall h {:trigger FlightOk(s, h)} :: FlightOk(s, h))
    && (forall h, g {:trigger PairOk(s, h, g)} :: PairOk(s, h, g))
    && (forall i {:trigger CellOk(s, i)} :: CellOk(s, i))
    && (forall k {:trigger IssuedOk(s, k)} :: IssuedOk(s, k))
    && (forall k {:trigger DoneOk(s, k)} :: DoneOk(s, k))
    && (forall h {:trigger WorkOk(s, h)} :: WorkOk(s, h))
  }

  lemma InitInv(s: State)
    requires Init(s)
    ensures Inv(s)
  {
    forall i: nat ensures CellOk(s, i) { }
    forall h: nat ensures FlightOk(s, h) { }
    forall h: nat, g: nat ensures PairOk(s, h, g) { }
    forall k: nat ensures IssuedOk(s, k) { }
    forall k: nat ensures DoneOk(s, k) { }
    forall h: nat ensures WorkOk(s, h) { }
  }

  // ----- At most two requests -----

  lemma SubsetCard(a: set<nat>, b: set<nat>)
    requires a <= b
    ensures |a| <= |b|
  {
    assert b == a + (b - a);
  }

  function Parts(f: Flight, h: nat): set<nat> { {h, f.mid, f.last} }

  function All(): set<nat> { {0, 1, 2, 3, 4, 5, 6, 7} }

  lemma PartsCard(s: State, h: nat)
    requires Shaped(s.q) && FlightOk(s, h) && h in s.flights
    ensures |Parts(s.flights[h], h)| == 3 && Parts(s.flights[h], h) <= All()
  {
  }

  lemma NineInEight(x: set<nat>, y: set<nat>, z: set<nat>)
    requires |x| == |y| == |z| == 3 && x <= All() && y <= All() && z <= All() && x !! y
    ensures !((x + y) !! z)
  {
    assert |x + y| == 6;
    if (x + y) !! z {
      assert |(x + y) + z| == 9;
      SubsetCard((x + y) + z, All());
    }
  }

  lemma Disjoint(s: State, h: nat, g: nat)
    requires PairOk(s, h, g) && h in s.flights && g in s.flights && h != g
    ensures Parts(s.flights[h], h) !! Parts(s.flights[g], g)
  {
  }

  lemma NoThree(s: State, a: nat, b: nat, c: nat)
    requires Inv(s) && a in s.flights && b in s.flights && c in s.flights && a != b
    ensures a == c || b == c
  {
    assert FlightOk(s, a) && FlightOk(s, b) && FlightOk(s, c);
    PartsCard(s, a);
    PartsCard(s, b);
    PartsCard(s, c);
    assert PairOk(s, a, b) && PairOk(s, a, c) && PairOk(s, b, c);
    Disjoint(s, a, b);
    NineInEight(Parts(s.flights[a], a), Parts(s.flights[b], b), Parts(s.flights[c], c));
    if a != c && b != c {
      Disjoint(s, a, c);
      Disjoint(s, b, c);
    }
  }

  lemma IssuedWindow(s: State)
    requires Inv(s)
    ensures |s.issued| - s.got <= 2
  {
    if |s.issued| - s.got > 2 {
      assert IssuedOk(s, s.got) && IssuedOk(s, s.got + 1) && IssuedOk(s, s.got + 2);
      NoThree(s, s.issued[s.got], s.issued[s.got + 1], s.issued[s.got + 2]);
    }
  }

  lemma DoneWindow(s: State)
    requires Inv(s)
    ensures |s.done| - s.saw <= 2
  {
    if |s.done| - s.saw > 2 {
      assert DoneOk(s, s.saw) && DoneOk(s, s.saw + 1) && DoneOk(s, s.saw + 2);
      NoThree(s, s.done[s.saw], s.done[s.saw + 1], s.done[s.saw + 2]);
    }
  }

  // ----- Positions in the rings -----

  lemma Unambiguous(a: nat, b: nat)
    requires a <= b <= a + 2
    ensures (a % WRAP != b % WRAP <==> a < b) && (a % NUM != b % NUM <==> a < b)
  {
  }

  // ----- Submit -----

  ghost predicate Submitted(s: State, t: State, d: Three, r: Request) {
    && Shaped(s.q) && d.head < d.mid < d.last < NUM && s.q.free[d.head] && s.q.free[d.mid] && s.q.free[d.last]
    && (forall h :: h in s.flights ==> s.flights[h].buf != r.b) && t == Issued(s, d, r)
  }

  lemma SubmitFlight(s: State, t: State, d: Three, r: Request, h: nat)
    requires Submitted(s, t, d, r) && s.got <= |s.issued| && FlightOk(s, h) && WorkOk(s, h)
    requires d.head !in s.flights
    ensures FlightOk(t, h)
  {
  }

  lemma SubmitHead(s: State, t: State, d: Three, r: Request)
    requires Submitted(s, t, d, r) && FlightOk(s, d.head)
    ensures d.head !in s.flights
  {
  }

  lemma SubmitPair(s: State, t: State, d: Three, r: Request, h: nat, g: nat)
    requires Submitted(s, t, d, r) && PairOk(s, h, g) && FlightOk(s, h) && FlightOk(s, g)
    ensures PairOk(t, h, g)
  {
  }

  lemma SubmitCell(s: State, t: State, d: Three, r: Request, i: nat)
    requires Submitted(s, t, d, r) && CellOk(s, i) && d.head !in s.flights
    ensures CellOk(t, i)
  {
    if i < NUM && !t.q.free[i] {
      if Uses(t.flights[d.head], d.head, i) {
      } else {
        var h :| h in s.flights && Uses(s.flights[h], h, i);
        assert h in t.flights && Uses(t.flights[h], h, i);
      }
    }
  }

  lemma SubmitIssued(s: State, t: State, d: Three, r: Request, k: nat)
    requires Submitted(s, t, d, r) && IssuedOk(s, k) && d.head !in s.flights && Counters(s) && |s.issued| - s.got <= 2
    ensures IssuedOk(t, k)
  {
    SlotOf(|s.issued|, NUM, WRAP, 8192);
    if s.got <= k < |s.issued| { SlotsApart(k, |s.issued|, NUM); }
  }

  lemma SubmitKeeps(s: State, t: State, d: Three, r: Request)
    requires Inv(s) && Submitted(s, t, d, r)
    ensures Inv(t)
  {
    assert FlightOk(s, d.head);
    SubmitHead(s, t, d, r);
    IssuedWindow(s);
    NextIndex(|s.issued|, WRAP);
    forall h: nat ensures FlightOk(t, h) { assert FlightOk(s, h) && WorkOk(s, h); SubmitFlight(s, t, d, r, h); }
    forall h: nat, g: nat ensures PairOk(t, h, g) {
      assert PairOk(s, h, g) && FlightOk(s, h) && FlightOk(s, g);
      SubmitPair(s, t, d, r, h, g);
    }
    forall i: nat ensures CellOk(t, i) { assert CellOk(s, i); SubmitCell(s, t, d, r, i); }
    forall k: nat ensures IssuedOk(t, k) { assert IssuedOk(s, k); SubmitIssued(s, t, d, r, k); }
    forall k: nat ensures DoneOk(t, k) { assert DoneOk(s, k); }
    forall h: nat ensures WorkOk(t, h) { assert WorkOk(s, h); }
  }

  // ----- A request moves on -----

  /** Only the stage of h changed among the requests; the descriptors did not. */
  ghost predicate Moved(s: State, t: State, h: nat, stage: Stage) {
    && h in s.flights && t.flights == s.flights[h := s.flights[h].(stage := stage)] && Shaped(s.q) && Shaped(t.q)
    && t.q.free == s.q.free && t.q.desc == s.q.desc && t.q.info == s.q.info
  }

  lemma MovedPair(s: State, t: State, h: nat, stage: Stage, x: nat, g: nat)
    requires Moved(s, t, h, stage) && PairOk(s, x, g)
    ensures PairOk(t, x, g)
  {
  }

  lemma MovedCell(s: State, t: State, h: nat, stage: Stage, i: nat)
    requires Moved(s, t, h, stage) && CellOk(s, i)
    ensures CellOk(t, i)
  {
    if i < NUM && !t.q.free[i] {
      var x :| x in s.flights && Uses(s.flights[x], x, i);
      assert x in t.flights && Uses(t.flights[x], x, i);
    }
  }

  ghost predicate Tidy(s: State) {
    && Shaped(s.q)
    && (forall h, g {:trigger PairOk(s, h, g)} :: PairOk(s, h, g))
    && (forall i {:trigger CellOk(s, i)} :: CellOk(s, i))
  }

  lemma MovedTidy(s: State, t: State, h: nat, stage: Stage)
    requires Tidy(s) && Moved(s, t, h, stage)
    ensures Tidy(t)
  {
    forall x: nat, g: nat ensures PairOk(t, x, g) { assert PairOk(s, x, g); MovedPair(s, t, h, stage, x, g); }
    forall i: nat ensures CellOk(t, i) { assert CellOk(s, i); MovedCell(s, t, h, stage, i); }
  }

  /** The device finds work exactly when a published head is waiting, and takes that one. */
  lemma TakeFinds(s: State)
    requires Inv(s)
    ensures s.next != s.q.availIdx <==> s.got < |s.issued|
    ensures s.got < |s.issued| ==> s.q.avail[s.next % NUM] == s.issued[s.got]
    ensures s.got < |s.issued| ==> s.issued[s.got] in s.flights && s.flights[s.issued[s.got]].stage == Published(s.got)
  {
    IssuedWindow(s);
    Unambiguous(s.got, |s.issued|);
    SlotOf(s.got, NUM, WRAP, 8192);
    assert IssuedOk(s, s.got);
  }

  lemma TakeKeeps(s: State, t: State)
    requires Inv(s) && Next(s, DevTake, t)
    ensures Inv(t)
  {
    TakeFinds(s);
    var h := s.issued[s.got];
    NextIndex(s.got, WRAP);
    MovedTidy(s, t, h, Taken);
    forall x: nat ensures FlightOk(t, x) { assert FlightOk(s, x) && WorkOk(s, x) && FlightOk(s, h); }
    forall k: nat ensures IssuedOk(t, k) { assert IssuedOk(s, k); }
    forall k: nat ensures DoneOk(t, k) { assert DoneOk(s, k); }
    forall x: nat ensures WorkOk(t, x) { assert WorkOk(s, x); }
  }

  lemma CompleteKeeps(s: State, t: State, h: nat)
    requires Inv(s) && Next(s, DevComplete(h), t)
    ensures Inv(t)
  {
    assert WorkOk(s, h) && FlightOk(s, h);
    NextIndex(|s.done|, WRAP);
    DoneWindow(s);
    MovedTidy(s, t, h, Completed(|s.done|));
    forall x: nat ensures FlightOk(t, x) { assert FlightOk(s, x) && WorkOk(s, x); }
    forall k: nat ensures IssuedOk(t, k) { assert IssuedOk(s, k); }
    forall k: nat ensures DoneOk(t, k) { assert DoneOk(s, k); CompleteDone(s, t, h, k); }
    forall x: nat ensures WorkOk(t, x) { assert WorkOk(s, x); }
  }

  lemma CompleteDone(s: State, t: State, h: nat, k: nat)
    requires Next(s, DevComplete(h), t) && DoneOk(s, k) && h in s.flights && s.flights[h].stage == Taken && Counters(s)
    requires |s.done| - s.saw <= 2
    ensures DoneOk(t, k)
  {
    SlotOf(|s.done|, NUM, WRAP, 8192);
    if s.saw <= k < |s.done| { SlotsApart(k, |s.done|, NUM); }
  }

  /** The modulo comparison of used_idx is never ambiguous: the interrupt handler goes on exactly
      when a completion is unseen, and the id it reads is the next completed request, whose buffer
      is the one that issued it. */
  lemma IntrFinds(s: State)
    requires Inv(s)
    ensures s.q.seen % NUM != s.q.usedIdx % NUM <==> s.saw < |s.done|
    ensures s.saw < |s.done| ==> s.q.used[s.q.seen] == s.done[s.saw] && s.done[s.saw] in s.flights
    ensures s.saw < |s.done| ==> s.done[s.saw] < NUM
    ensures s.saw < |s.done| ==> s.flights[s.done[s.saw]].stage == Completed(s.saw)
    ensures s.saw < |s.done| ==> s.q.info[s.done[s.saw]] == Some(s.flights[s.done[s.saw]].buf)
  {
    DoneWindow(s);
    Unambiguous(s.saw, |s.done|);
    SlotOf(|s.done|, NUM, WRAP, 8192);
    assert DoneOk(s, s.saw);
    if s.saw < |s.done| { assert FlightOk(s, s.done[s.saw]); }
  }

  lemma IntrFlight(s: State, t: State, h: nat, x: nat)
    requires Next(s, Intr, t) && h in s.flights && h == s.q.used[s.q.seen] && s.q.info[h] == Some(s.flights[h].buf)
    requires s.flights[h].stage == Completed(s.saw)
    requires FlightOk(s, x) && FlightOk(s, h) && PairOk(s, x, h) && WorkOk(s, h)
    ensures FlightOk(t, x)
  {
  }

  lemma IntrKeeps(s: State, t: State)
    requires Inv(s) && Next(s, Intr, t)
    ensures Inv(t)
  {
    IntrFinds(s);
    var h := s.done[s.saw];
    NextIndex(s.saw, NUM);
    MovedTidy(s, t, h, Signalled);
    assert FlightOk(s, h) && WorkOk(s, h);
    forall x: nat ensures FlightOk(t, x) { assert FlightOk(s, x) && PairOk(s, x, h); IntrFlight(s, t, h, x); }
    forall k: nat ensures IssuedOk(t, k) { assert IssuedOk(s, k); }
    forall k: nat ensures DoneOk(t, k) { assert DoneOk(s, k); }
    forall x: nat ensures WorkOk(t, x) { assert WorkOk(s, x); }
  }

  // ----- Finish -----

  lemma FinishFlight(s: State, t: State, h: nat, x: nat)
    requires Next(s, Finish(h), t) && FlightOk(s, x) && FlightOk(s, h) && PairOk(s, x, h) && PairOk(s, h, x)
    ensures FlightOk(t, x)
  {
  }

  lemma FinishCell(s: State, t: State, h: nat, i: nat)
    requires Next(s, Finish(h), t) && CellOk(s, i) && FlightOk(s, h)
    ensures CellOk(t, i)
  {
    if i < NUM && !t.q.free[i] {
      var x :| x in s.flights && Uses(s.flights[x], x, i);
      assert x in t.flights && Uses(t.flights[x], x, i);
    }
  }

  lemma FinishKeeps(s: State, t: State, h: nat)
    requires Inv(s) && Next(s, Finish(h), t)
    ensures Inv(t)
  {
    assert FlightOk(s, h);
    forall x: nat ensures FlightOk(t, x) {
      assert FlightOk(s, x) && PairOk(s, x, h) && PairOk(s, h, x);
      FinishFlight(s, t, h, x);
    }
    forall x: nat, g: nat ensures PairOk(t, x, g) { assert PairOk(s, x, g); }
    forall i: nat ensures CellOk(t, i) { assert CellOk(s, i); FinishCell(s, t, h, i); }
    forall k: nat ensures IssuedOk(t, k) { assert IssuedOk(s, k); }
    forall k: nat ensures DoneOk(t, k) { assert DoneOk(s, k); }
    forall x: nat ensures WorkOk(t, x) { assert WorkOk(s, x); }
  }

  // ----- Retry -----

  lemma RetryKeeps(s: State, t: State)
    requires Inv(s) && Next(s, Retry, t)
    ensures Inv(t)
  {
    forall h: nat ensures FlightOk(t, h) { assert FlightOk(s, h); }
    forall h: nat, g: nat ensures PairOk(t, h, g) { assert PairOk(s, h, g); }
    forall i: nat ensures CellOk(t, i) { assert CellOk(s, i); if InUse(s, i) { SameUse(s, t, i); } }
    forall k: nat ensures IssuedOk(t, k) { assert IssuedOk(s, k); }
    forall k: nat ensures DoneOk(t, k) { assert DoneOk(s, k); }
    forall h: nat ensures WorkOk(t, h) { assert WorkOk(s, h); }
  }

  lemma SameUse(s: State, t: State, i: nat)
    requires t.flights == s.flights && InUse(s, i)
    ensures InUse(t, i)
  {
    var h :| h in s.flights && Uses(s.flights[h], h, i);
    assert h in t.flights && Uses(t.flights[h], h, i);
  }

  // ----- Runs -----

  lemma StepKeeps(s: State, e: Event, t: State)
    requires Inv(s) && Next(s, e, t)
    ensures Inv(t)
  {
    match e
    case Submit(b, blockno, write) => SubmitKeeps(s, t, Alloc3(s.q.free).value, Request(b, blockno, write));
    case Retry => RetryKeeps(s, t);
    case DevTake => TakeKeeps(s, t);
    case DevComplete(h) => CompleteKeeps(s, t, h);
    case Intr => IntrKeeps(s, t);
    case Finish(h) => FinishKeeps(s, t, h);
  }

  ghost predicate Run(states: seq<State>, events: seq<Event>) {
    && |states| == |events| + 1 && Init(states[0])
    && forall n :: 0 <= n < |events| ==> Next(states[n], events[n], states[n + 1])
  }

  lemma {:induction false} RunInv(states: seq<State>, events: seq<Event>, n: nat)
    requires Run(states, events) && n <= |events|
    ensures Inv(states[n])
  {
    if n == 0 {
      InitInv(states[0]);
    } else {
      RunInv(states, events, n - 1);
      StepKeeps(states[n - 1], events[n - 1], states[n]);
    }
  }

  /** The free descriptors and the chains of the requests in flight partition the descriptors. */
  ghost predicate Partition(s: State) {
    && Shaped(s.q)
    && (forall h :: h in s.flights ==> Parts(s.flights[h], h) <= All() && |Parts(s.flights[h], h)| == 3)
    && (forall h, g :: h in s.flights && g in s.flights && h != g ==> Parts(s.flights[h], h) !! Parts(s.flights[g], g))
    && (forall i :: 0 <= i < NUM ==> (s.q.free[i] <==> forall h :: h in s.flights ==> i !in Parts(s.flights[h], h)))
  }

  lemma CellPartition(s: State, i: nat)
    requires Inv(s) && i < NUM
    ensures s.q.free[i] <==> forall h :: h in s.flights ==> i !in Parts(s.flights[h], h)
  {
    assert CellOk(s, i);
    forall h | h in s.flights ensures i in Parts(s.flights[h], h) ==> !s.q.free[i] { assert FlightOk(s, h); }
  }

  lemma InvPartition(s: State)
    requires Inv(s)
    ensures Partition(s)
  {
    forall h | h in s.flights ensures Parts(s.flights[h], h) <= All() && |Parts(s.flights[h], h)| == 3 {
      assert FlightOk(s, h);
      PartsCard(s, h);
    }
    forall h, g | h in s.flights && g in s.flights && h != g ensures Parts(s.flights[h], h) !! Parts(s.flights[g], g) {
      assert PairOk(s, h, g);
      Disjoint(s, h, g);
    }
    forall i | 0 <= i < NUM ensures s.q.free[i] <==> forall h :: h in s.flights ==> i !in Parts(s.flights[h], h) {
      CellPartition(s, i);
    }
  }

  lemma AtMostTwo(s: State)
    requires Inv(s)
    ensures |s.flights| <= 2
  {
    if |s.flights| > 2 {
      var keys := s.flights.Keys;
      assert |keys| == |s.flights|;
      var a :| a in keys;
      var rest := keys - {a};
      assert |rest| == |keys| - 1;
      var b :| b in rest;
      assert |rest - {b}| == |rest| - 1;
      var c :| c in rest - {b};
      NoThree(s, a, b, c);
    }
  }

  /** In every reachable state chains and free descriptors partition the NUM descriptors, at most
      two requests are in flight, and the used_idx comparison is exact. */
  lemma RingSafe(states: seq<State>, events: seq<Event>, n: nat)
    requires Run(states, events) && n <= |events|
    ensures Partition(states[n]) && |states[n].flights| <= 2
    ensures states[n].q.seen % NUM != states[n].q.usedIdx % NUM <==> states[n].saw < |states[n].done|
  {
    RunInv(states, events, n);
    InvPartition(states[n]);
    AtMostTwo(states[n]);
    IntrFinds(states[n]);
  }

  /** The handler never reads a stale element: it wakes the buffer whose request completed, and
      that buffer was waiting. */
  lemma IntrReleasesIssuer(states: seq<State>, events: seq<Event>, n: nat)
    requires Run(states, events) && n < |events| && events[n] == Intr
    ensures Releases(states[n], states[n + 1])
  {
    RunInv(states, events, n);
    assert Next(states[n], events[n], states[n + 1]);
    IntrFinds(states[n]);
    assert FlightOk(states[n], states[n].done[states[n].saw]);
  }

  /** From s to t the oldest unseen completion released its own buffer, and no other. */
  ghost predicate Releases(s: State, t: State) {
    && s.saw < |s.done| && s.done[s.saw] in s.flights && s.flights[s.done[s.saw]].stage == Completed(s.saw)
    && s.flights[s.done[s.saw]].buf in s.busy && t.busy == s.busy - {s.flights[s.done[s.saw]].buf}
  }

  /** A chain is freed only after the device has completed it and the driver has seen that: the
      device neither works on it nor will find it in the available ring. */
  lemma FinishAfterCompletion(states: seq<State>, events: seq<Event>, n: nat, h: nat)
    requires Run(states, events) && n < |events| && events[n] == Finish(h)
    ensures h in states[n].flights && states[n].flights[h].stage == Signalled && h !in states[n].working
    ensures forall k :: states[n].got <= k < |states[n].issued| ==> states[n].issued[k] != h
  {
    RunInv(states, events, n);
    assert Next(states[n], events[n], states[n + 1]);
    var s := states[n];
    assert FlightOk(s, h);
    forall k | s.got <= k < |s.issued| ensures s.issued[k] != h { assert IssuedOk(s, k); }
  }

  // ----- Waiting for descriptors -----

  /** With at most one request in flight three descriptors are free. */
  lemma RoomForOne(s: State)
    requires Inv(s) && |s.flights| <= 1
    ensures Alloc3(s.q.free).Some?
  {
    if s.flights == map[] {
      assert CellOk(s, 0) && CellOk(s, 1) && CellOk(s, 2);
      Alloc3Fails(s.q.free, 0, 1, 2);
    } else {
      var h :| h in s.flights;
      OnlyFlight(s, h);
      assert FlightOk(s, h);
      PartsCard(s, h);
      var r := Outside(Parts(s.flights[h], h), NUM);
      assert CellOk(s, r[0]) && CellOk(s, r[1]) && CellOk(s, r[2]);
      Alloc3Fails(s.q.free, r[0], r[1], r[2]);
    }
  }

  lemma OnlyFlight(s: State, h: nat)
    requires |s.flights| <= 1 && h in s.flights
    ensures forall g :: g in s.flights ==> g == h
  {
    forall g | g in s.flights ensures g == h {
      if g != h { SubsetCard({g, h}, s.flights.Keys); }
    }
  }

  /** The descriptors up to n that p does not hold, in order. */
  function Outside(p: set<nat>, n: nat): (r: seq<nat>)
    ensures forall a :: 0 <= a < |r| ==> r[a] < n && r[a] !in p
    ensures forall a, b :: 0 <= a < b < |r| ==> r[a] < r[b]
    ensures |r| + |p| >= n
  {
    if n == 0 then []
    else if n - 1 in p then
      assert p == (p - {n - 1}) + {n - 1};
      Outside(p - {n - 1}, n - 1)
    else Outside(p, n - 1) + [n - 1]
  }

  /** virtio_disk_rw sleeps for want of descriptors only while two requests are in flight. */
  lemma WaitsForTwo(states: seq<State>, events: seq<Event>, n: nat)
    requires Run(states, events) && n < |events| && events[n] == Retry
    ensures |states[n].flights| == 2
  {
    RunInv(states, events, n);
    assert Next(states[n], events[n], states[n + 1]);
    AtMostTwo(states[n]);
    if |states[n].flights| <= 1 { RoomForOne(states[n]); }
  }

  // ----- Completions are counted once -----

  /** What the device has completed and what it works on are, one for one, the requests it took. */
  ghost predicate Balanced(s: State) {
    s.got <= |s.issued| && multiset(s.done) + multiset(s.working) == multiset(s.issued[..s.got])
  }

  lemma TakeBalanced(s: State, t: State)
    requires Inv(s) && Balanced(s) && Next(s, DevTake, t)
    ensures Balanced(t)
  {
    TakeFinds(s);
    var h := s.issued[s.got];
    assert FlightOk(s, h);
    assert s.issued[..s.got + 1] == s.issued[..s.got] + [h];
    assert multiset(t.working) == multiset(s.working) + multiset{h};
  }

  lemma CompleteBalanced(s: State, t: State, h: nat)
    requires Inv(s) && Balanced(s) && Next(s, DevComplete(h), t)
    ensures Balanced(t)
  {
    assert multiset(s.working) == multiset(t.working) + multiset{h};
  }

  lemma StepBalanced(s: State, e: Event, t: State)
    requires Inv(s) && Balanced(s) && Next(s, e, t)
    ensures Balanced(t)
  {
    match e
    case DevTake => TakeBalanced(s, t);
    case DevComplete(h) => CompleteBalanced(s, t, h);
    case Submit(_, _, _) => assert t.issued[..t.got] == s.issued[..s.got];
    case Retry =>
    case Intr =>
    case Finish(h) =>
  }

  /** Nothing is completed twice or invented: in every reachable state the completions and the
      requests the device works on are exactly the requests it has taken, each once. */
  lemma {:induction false} CompletedOnce(states: seq<State>, events: seq<Event>, n: nat)
    requires Run(states, events) && n <= |events|
    ensures Balanced(states[n])
  {
    if n > 0 {
      CompletedOnce(states, events, n - 1);
      RunInv(states, events, n - 1);
      StepBalanced(states[n - 1], events[n - 1], states[n]);
    }
  }
}
