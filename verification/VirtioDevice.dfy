/** What a request tells the device, and what the device then does (section 5.2.6 of the OASIS
    VIRTIO 1.1 specification): descriptors read field by field, as the device reads them. */
module VirtioDevice {
  import opened Virtio
  import opened Options

  const SECTOR := 512

  // ----- The fields of a request in flight -----

  /** The three descriptors of a request of the given buffer, block and direction. */
  ghost predicate Told(desc: seq<Desc>, h: nat, f: Flight) {
    && h < |desc| && f.mid < |desc| && f.last < |desc|
    && desc[h].target.Header? && desc[h].target.write == f.write
    && desc[h].target.sector == f.blockno * (1024 / 512)
    && desc[h].len == 16 && desc[h].more && !desc[h].write && desc[h].next == f.mid
    && desc[f.mid].target == Data(f.buf) && desc[f.mid].len == 1024
    && desc[f.mid].write == !f.write && desc[f.mid].more && desc[f.mid].next == f.last
    && desc[f.last].target == Status(h) && desc[f.last].len == 1 && desc[f.last].write && !desc[f.last].more
  }

  /** In every reachable state the descriptors of each request in flight say what was asked for. */
  lemma RequestsTold(states: seq<State>, events: seq<Event>, n: nat, h: nat)
    requires Run(states, events) && n <= |events| && h in states[n].flights
    ensures Told(states[n].q.desc, h, states[n].flights[h])
  {
    RunInv(states, events, n);
    assert FlightOk(states[n], h);
  }

  /** A request keeps its buffer, block, direction and descriptors while it is in flight. */
  lemma RequestKept(s: State, e: Event, t: State, h: nat)
    requires Inv(s) && Next(s, e, t) && h in s.flights && e != Finish(h)
    ensures h in t.flights && t.flights[h] == s.flights[h].(stage := t.flights[h].stage)
  {
    assert FlightOk(s, h);
  }

  /** Submitting puts exactly the caller's request in flight. */
  lemma SubmitAsks(s: State, b: nat, blockno: nat, write: bool, t: State)
    requires Inv(s) && Next(s, Submit(b, blockno, write), t)
    ensures exists h :: Asked(s, t, h, b, blockno, write)
  {
    var h := Alloc3(s.q.free).value.head;
    assert FlightOk(s, h);
    assert Asked(s, t, h, b, blockno, write);
  }

  lemma SubmitTells(s: State, b: nat, blockno: nat, write: bool, t: State)
    requires Inv(s) && Inv(t) && Next(s, Submit(b, blockno, write), t)
    ensures exists h :: Asked(s, t, h, b, blockno, write) && Told(t.q.desc, h, t.flights[h])
  {
    SubmitAsks(s, b, blockno, write, t);
    var h :| Asked(s, t, h, b, blockno, write);
    assert FlightOk(t, h);
  }

  /** From s to t one request went in flight, with head h. */
  ghost predicate Asked(s: State, t: State, h: nat, b: nat, blockno: nat, write: bool) {
    && h !in s.flights && h in t.flights && t.issued == s.issued + [h] && b in t.busy
    && t.flights[h].buf == b && t.flights[h].blockno == blockno && t.flights[h].write == write
    && t.flights[h].stage.Published? && forall g :: g in t.flights <==> g == h || g in s.flights
  }

  // ----- The device -----

  /** The disk by sectors and the buffers by number, in bytes. */
  datatype Store = Store(disk: map<nat, seq<int>>, mem: map<nat, seq<int>>)

  function SectorAt(disk: map<nat, seq<int>>, k: nat): seq<int> {
    if k in disk then disk[k] else seq(SECTOR, _ => 0)
  }

  /** n sectors from k on. */
  function ReadSectors(disk: map<nat, seq<int>>, k: nat, n: nat): seq<int>
    decreases n
  {
    if n == 0 then [] else SectorAt(disk, k) + ReadSectors(disk, k + 1, n - 1)
  }

  function WriteSectors(disk: map<nat, seq<int>>, k: nat, bytes: seq<int>): map<nat, seq<int>>
    decreases |bytes|
  {
    if |bytes| < SECTOR then disk else WriteSectors(disk[k := bytes[..SECTOR]], k + 1, bytes[SECTOR..])
  }

  /** The device's work on the chain at h: follow the links, take direction and sector from the
      header, move the bytes.  None: the chain is malformed, or would have the device write memory it
      may only read, or the other way round. */
  function Perform(desc: seq<Desc>, h: nat, m: Store): Option<Store> {
    if h >= |desc| || !desc[h].target.Header? || desc[h].write || !desc[h].more || desc[h].next >= |desc| then None
    else
      var head, body := desc[h].target, desc[desc[h].next];
      if !body.target.Data? || !body.more || body.next >= |desc| || body.len % SECTOR != 0 then None
      else
        var tail := desc[body.next];
        if !tail.target.Status? || tail.more || !tail.write || tail.len != 1 || body.write == head.write then None
        else if !head.write then
          Some(m.(mem := m.mem[body.target.buf := ReadSectors(m.disk, head.sector, body.len / SECTOR)]))
        else if body.target.buf in m.mem && |m.mem[body.target.buf]| == body.len then
          Some(m.(disk := WriteSectors(m.disk, head.sector, m.mem[body.target.buf])))
        else None
  }

  /** Block n of a disk of 1024-byte blocks. */
  function BlockOn(disk: map<nat, seq<int>>, n: nat): seq<int> { SectorAt(disk, 2 * n) + SectorAt(disk, 2 * n + 1) }

  /** What virtio_disk_rw is called for: the block moves between disk and buffer in the direction asked
      for, and no other block or buffer changes. */
  ghost predicate Transferred(m: Store, t: Store, f: Flight) {
    if f.write then
      && f.buf in m.mem && t.mem == m.mem && BlockOn(t.disk, f.blockno) == m.mem[f.buf]
      && forall n :: n != f.blockno ==> BlockOn(t.disk, n) == BlockOn(m.disk, n)
    else t == m.(mem := m.mem[f.buf := BlockOn(m.disk, f.blockno)])
  }

  lemma WroteBlock(disk: map<nat, seq<int>>, n: nat, bytes: seq<int>)
    requires |bytes| == 1024
    ensures var t := WriteSectors(disk, 2 * n, bytes);
            BlockOn(t, n) == bytes && forall k :: k != n ==> BlockOn(t, k) == BlockOn(disk, k)
  {
    var d1 := disk[2 * n := bytes[..SECTOR]];
    var rest := bytes[SECTOR..];
    assert rest[..SECTOR] == rest;
    assert WriteSectors(disk, 2 * n, bytes) == WriteSectors(d1, 2 * n + 1, rest);
    assert WriteSectors(d1, 2 * n + 1, rest) == d1[2 * n + 1 := rest];
    assert bytes[..SECTOR] + rest == bytes;
  }

  /** In every reachable state, when the device works on a request it moves exactly that block between
      the disk and that buffer, in the direction asked for. */
  lemma DevicePerforms(states: seq<State>, events: seq<Event>, n: nat, h: nat, m: Store)
    requires Run(states, events) && n <= |events| && h in states[n].working
    requires var f := states[n].flights;
      h in f && f[h].write ==> f[h].buf in m.mem && |m.mem[f[h].buf]| == 1024
    ensures h in states[n].flights && Perform(states[n].q.desc, h, m).Some?
    ensures Transferred(m, Perform(states[n].q.desc, h, m).value, states[n].flights[h])
  {
    RunInv(states, events, n);
    assert WorkOk(states[n], h);
    RequestsTold(states, events, n, h);
    var f := states[n].flights[h];
    if f.write {
      WroteBlock(m.disk, f.blockno, m.mem[f.buf]);
    } else {
      TwoSectors(m.disk, f.blockno);
    }
  }

  lemma TwoSectors(disk: map<nat, seq<int>>, n: nat)
    ensures ReadSectors(disk, n * 2, 2) == BlockOn(disk, n)
  {
    assert ReadSectors(disk, n * 2 + 1, 1) == SectorAt(disk, n * 2 + 1) + ReadSectors(disk, n * 2 + 2, 0);
    assert ReadSectors(disk, n * 2 + 2, 0) == [];
  }

  // ----- From submission to return -----

  predicate InUse(s: State, b: nat) { exists h :: h in s.flights && s.flights[h].buf == b }

  /** What happens to disk and memory while the driver goes from s to t: the device does its work when
      it completes a request; otherwise only buffers that are in no request may change. */
  ghost predicate StoreMove(s: State, e: Event, m: Store, t: Store) {
    match e
    case DevComplete(h) => Perform(s.q.desc, h, m) == Some(t)
    case _ => t.disk == m.disk && forall b :: InUse(s, b) ==> SameBuf(m, t, b)
  }

  ghost predicate SameBuf(m: Store, t: Store, b: nat) {
    (b in m.mem <==> b in t.mem) && (b in m.mem ==> m.mem[b] == t.mem[b])
  }

  ghost predicate StoreRun(states: seq<State>, events: seq<Event>, ms: seq<Store>) {
    && Run(states, events) && |ms| == |states|
    && forall n {:trigger StoreAt(states, events, ms, n)} :: StoreAt(states, events, ms, n)
  }

  ghost predicate StoreAt(states: seq<State>, events: seq<Event>, ms: seq<Store>, n: nat) {
    n < |events| && n < |states| && n + 1 < |ms| ==> StoreMove(states[n], events[n], ms[n], ms[n + 1])
  }

  /** The device carried out f at step k, with the buffer as it was submitted after step i and, for a
      read, as it is found at n. */
  ghost predicate Served(ms: seq<Store>, f: Flight, i: nat, k: nat, n: nat) {
    && i < k < n < |ms| && Transferred(ms[k], ms[k + 1], f)
    && (f.write ==> SameBuf(ms[i + 1], ms[k], f.buf)) && SameBuf(ms[k + 1], ms[n], f.buf)
  }

  /** Where the request submitted at step i stands at n: not carried out and its buffer untouched, or
      carried out once and its buffer untouched since. */
  ghost predicate Progress(ms: seq<Store>, f: Flight, i: nat, n: nat) {
    if f.stage.Completed? || f.stage.Signalled? then exists k :: Served(ms, f, i, k, n)
    else i + 1 < |ms| && n < |ms| && SameBuf(ms[i + 1], ms[n], f.buf)
  }

  /** The buffer of a request in flight is left alone by every step but its own completion. */
  lemma BufferKept(states: seq<State>, events: seq<Event>, ms: seq<Store>, n: nat, h: nat)
    requires StoreRun(states, events, ms) && n < |events| && h in states[n].flights && events[n] != DevComplete(h)
    ensures SameBuf(ms[n], ms[n + 1], states[n].flights[h].buf)
  {
    var s := states[n];
    RunInv(states, events, n);
    assert Next(s, events[n], states[n + 1]) && StoreAt(states, events, ms, n);
    if events[n].DevComplete? {
      var g := events[n].h;
      assert WorkOk(s, g) && PairOk(s, h, g);
      RequestsTold(states, events, n, g);
    } else {
      assert InUse(s, s.flights[h].buf);
    }
  }

  lemma Completes(states: seq<State>, events: seq<Event>, ms: seq<Store>, n: nat, h: nat)
    requires StoreRun(states, events, ms) && n < |events| && events[n] == DevComplete(h)
    ensures h in states[n].flights && states[n].flights[h].stage == Taken
    ensures Transferred(ms[n], ms[n + 1], states[n].flights[h])
  {
    RunInv(states, events, n);
    assert Next(states[n], events[n], states[n + 1]) && StoreAt(states, events, ms, n);
    assert WorkOk(states[n], h);
    RequestsTold(states, events, n, h);
    DevicePerforms(states, events, n, h, ms[n]);
  }

  /** The head of the request that step i submitted. */
  ghost predicate SubmittedAt(states: seq<State>, events: seq<Event>, i: nat, h: nat) {
    && i < |events| && |states| == |events| + 1 && events[i].Submit?
    && Asked(states[i], states[i + 1], h, events[i].b, events[i].blockno, events[i].write)
  }

  lemma StillProgress(ms: seq<Store>, f: Flight, g: Flight, i: nat, n: nat)
    requires Progress(ms, f, i, n) && n + 1 < |ms| && SameBuf(ms[n], ms[n + 1], f.buf) && g == f.(stage := g.stage)
    requires f.stage.Completed? || f.stage.Signalled? <==> g.stage.Completed? || g.stage.Signalled?
    ensures Progress(ms, g, i, n + 1)
  {
    if f.stage.Completed? || f.stage.Signalled? {
      var k: nat :| Served(ms, f, i, k, n);
      assert Served(ms, g, i, k, n + 1);
    }
  }

  /** At n the request that e submitted at step i is in flight and makes progress. */
  ghost predicate Underway(s: State, ms: seq<Store>, e: Event, i: nat, n: nat, h: nat) {
    && e.Submit? && h in s.flights && Progress(ms, s.flights[h], i, n)
    && s.flights[h].buf == e.b && s.flights[h].blockno == e.blockno && s.flights[h].write == e.write
  }

  lemma {:induction false} RequestProgress(states: seq<State>, events: seq<Event>, ms: seq<Store>, i: nat, n: nat,
                                           h: nat)
    requires StoreRun(states, events, ms) && SubmittedAt(states, events, i, h) && i < n <= |events|
    requires forall k :: i < k < n ==> events[k] != Finish(h)
    ensures Underway(states[n], ms, events[i], i, n, h)
    decreases n
  {
    if n == i + 1 {
      JustAsked(states[i], states[n], ms, events[i], i, h);
    } else {
      RequestProgress(states, events, ms, i, n - 1, h);
      ProgressStep(states, events, ms, i, n - 1, h, events[i]);
    }
  }

  lemma JustAsked(s: State, t: State, ms: seq<Store>, e: Event, i: nat, h: nat)
    requires e.Submit? && Asked(s, t, h, e.b, e.blockno, e.write) && i + 1 < |ms|
    ensures Underway(t, ms, e, i, i + 1, h)
  {
  }

  lemma ProgressStep(states: seq<State>, events: seq<Event>, ms: seq<Store>, i: nat, n: nat, h: nat, e: Event)
    requires StoreRun(states, events, ms) && i < n < |events| && events[n] != Finish(h)
    requires Underway(states[n], ms, e, i, n, h)
    ensures Underway(states[n + 1], ms, e, i, n + 1, h)
  {
    var s, t := states[n], states[n + 1];
    RunInv(states, events, n);
    assert Next(s, events[n], t);
    RequestKept(s, events[n], t, h);
    if events[n] == DevComplete(h) {
      Completes(states, events, ms, n, h);
      assert Served(ms, t.flights[h], i, n, n + 1);
    } else {
      BufferKept(states, events, ms, n, h);
      StageKept(s, events[n], t, h);
      StillProgress(ms, s.flights[h], t.flights[h], i, n);
    }
  }

  lemma StageKept(s: State, e: Event, t: State, h: nat)
    requires Inv(s) && Next(s, e, t) && h in s.flights && h in t.flights && e != DevComplete(h)
    ensures s.flights[h].stage.Completed? || s.flights[h].stage.Signalled?
       <==> t.flights[h].stage.Completed? || t.flights[h].stage.Signalled?
  {
    assert FlightOk(s, h);
    if e.DevTake? { TakeFinds(s); }
    if e.Intr? { IntrFinds(s); }
  }

  /** What virtio_disk_rw(b, write), called at step i for the given block, promises when it returns at
      step n: the device did the work at step k between.  A read finds in its buffer what the block held
      then; a write has put on disk what the buffer held when it was called, and nothing else. */
  ghost predicate Promised(ms: seq<Store>, b: nat, blockno: nat, write: bool, i: nat, k: nat, n: nat) {
    && i < k < n < |ms|
    && (!write ==>
          b in ms[n].mem && ms[n].mem[b] == BlockOn(ms[k].disk, blockno) && ms[k + 1].disk == ms[k].disk)
    && (write ==>
          && b in ms[i + 1].mem && BlockOn(ms[k + 1].disk, blockno) == ms[i + 1].mem[b]
          && forall x :: x != blockno ==> BlockOn(ms[k + 1].disk, x) == BlockOn(ms[k].disk, x))
  }

  lemma ServedPromised(ms: seq<Store>, f: Flight, i: nat, k: nat, n: nat)
    requires Served(ms, f, i, k, n)
    ensures Promised(ms, f.buf, f.blockno, f.write, i, k, n)
  {
  }

  /** virtio_disk_rw returns only when its request has been carried out. */
  lemma ReturnsServed(states: seq<State>, events: seq<Event>, ms: seq<Store>, i: nat, n: nat, h: nat) returns (k: nat)
    requires StoreRun(states, events, ms) && SubmittedAt(states, events, i, h) && i < n < |events|
    requires events[n] == Finish(h) && forall j :: i < j < n ==> events[j] != Finish(h)
    ensures Promised(ms, events[i].b, events[i].blockno, events[i].write, i, k, n)
  {
    RequestProgress(states, events, ms, i, n, h);
    FinishAfterCompletion(states, events, n, h);
    var f := states[n].flights[h];
    k :| Served(ms, f, i, k, n);
    ServedPromised(ms, f, i, k, n);
  }
}
