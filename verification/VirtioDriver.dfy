/** kernel/virtio_disk.c: descriptor allocation, submission, the interrupt handler and chain
    release, as the driver runs them on its arrays. */
module VirtioDriver {
  import opened Virtio
  import opened VirtioDevice
  import opened Options

  /** What the device may do at any time. */
  datatype DevMove = Take | Complete(h: nat)

  /** The steps that can happen while the interrupt handler holds vdisk_lock. */
  predicate InHandler(e: Event) { e.Intr? || e.DevTake? || e.DevComplete? }

  ghost predicate StepAt(ss: seq<State>, es: seq<Event>, k: nat) {
    k < |es| && k + 1 < |ss| ==> InHandler(es[k]) && Next(ss[k], es[k], ss[k + 1])
  }

  /** Interrupt and device steps led from s through ss to t. */
  ghost predicate Path(s: State, ss: seq<State>, es: seq<Event>, t: State) {
    && |ss| == |es| + 1 && ss[0] == s && ss[|es|] == t
    && forall k {:trigger StepAt(ss, es, k)} :: StepAt(ss, es, k)
  }

  function Rounds(es: seq<Event>): nat {
    if es == [] then 0 else Rounds(es[..|es| - 1]) + if es[|es| - 1].Intr? then 1 else 0
  }

  /** What the handler has done since s, whatever the device did meanwhile: each round saw one more
      completion, and only the used ring, its indices and the busy flags have moved. */
  ghost predicate Handling(s: State, ss: seq<State>, es: seq<Event>, t: State) {
    && Inv(t) && Balanced(t) && Path(s, ss, es, t)
    && t.saw == s.saw + Rounds(es) && t.issued == s.issued && s.done <= t.done
    && t.q == s.q.(seen := t.q.seen, used := t.q.used, usedIdx := t.q.usedIdx)
  }

  lemma HandlingStart(s: State)
    requires Inv(s) && Balanced(s)
    ensures Handling(s, [s], [], s)
  {
  }

  lemma HandlingMore(s: State, ss: seq<State>, es: seq<Event>, u: State, e: Event, t: State)
    requires Handling(s, ss, es, u) && InHandler(e) && Next(u, e, t)
    ensures Handling(s, ss + [t], es + [e], t)
  {
    Keeps(u, e, t);
    var more, steps := ss + [t], es + [e];
    forall k: nat ensures StepAt(more, steps, k) { assert StepAt(ss, es, k); }
    assert steps[..|es|] == es;
  }

  /** The handler stops when it has seen every completion, and must: it never sees more requests
      than were issued before it began. */
  lemma HandlingEnd(s: State, ss: seq<State>, es: seq<Event>, t: State)
    requires Handling(s, ss, es, t)
    ensures t.q.seen % NUM == t.q.usedIdx % NUM <==> t.saw == |t.done|
    ensures t.saw <= |t.done| <= |s.issued|
  {
    IntrFinds(t);
    assert |multiset(t.done) + multiset(t.working)| == |multiset(t.issued[..t.got])|;
  }

  lemma Keeps(s: State, e: Event, t: State)
    requires Inv(s) && Balanced(s) && Next(s, e, t)
    ensures Inv(t) && Balanced(t)
  {
    StepKeeps(s, e, t);
    StepBalanced(s, e, t);
  }

  /** A completed request whose buffer is still busy is one the handler has not seen. */
  lemma NoneCompleted(t: State)
    requires Inv(t) && t.saw == |t.done|
    ensures forall h :: h in t.flights ==> !t.flights[h].stage.Completed?
  {
    forall h | h in t.flights ensures !t.flights[h].stage.Completed? { assert FlightOk(t, h); }
  }

  class Disk {
    var q: Queue
    var busy: set<nat>          // buffers with disk == 1
    var next: nat               // the device's own position in the available ring
    var working: set<nat>       // and the requests it has taken
    ghost var st: State         // the driver and the device together

    /** The driver's arrays are those of a state in order. */
    ghost predicate Ready()
      reads this
    {
      Inv(st) && Balanced(st) && st.q == q && st.busy == busy && st.next == next && st.working == working
    }

    /** virtio_disk_init: every descriptor is free and nothing is in flight. */
    constructor ()
      ensures Ready() && Init(st)
    {
      q := Queue(seq(NUM, _ => true), seq(NUM, _ => Desc(Nowhere, 0, false, false, 0)), seq(NUM, _ => 0), 0,
                 seq(NUM, _ => 0), 0, 0, seq(NUM, _ => None));
      busy, next, working := {}, 0, {};
      st := State(q, {}, 0, {}, map[], [], [], 0, 0);
      new;
      InitInv(st);
    }

    /** Take the first free descriptor; NUM stands for -1. */
    method AllocDesc() returns (i: nat)
      requires Shaped(q)
      modifies this`q
      ensures i == FirstFree(old(q).free, 0)
      ensures q == if i < NUM then old(q).(free := old(q).free[i := false]) else old(q)
    {
      i := 0;
      while i < NUM
        invariant i <= NUM && q == old(q)
        invariant FirstFree(q.free, 0) == FirstFree(q.free, i)
      {
        if q.free[i] {
          q := q.(free := q.free[i := false]);
          return;
        }
        i := i + 1;
      }
    }

    /** false stands for the panics. */
    method FreeDesc(i: nat) returns (ok: bool)
      requires Shaped(q)
      modifies this`q
      ensures ok <==> i < NUM && !old(q).free[i]
      ensures q == if ok then Cleared(old(q), i) else old(q)
      ensures ok ==> q.free == old(q).free[i := true] && q == old(q).(free := q.free, desc := q.desc)
      ensures ok ==> q.desc == old(q).desc[i := old(q).desc[i].(target := Nowhere)]
    {
      if i >= NUM { return false; }
      if q.free[i] { return false; }
      q := q.(desc := q.desc[i := q.desc[i].(target := Nowhere)]);
      q := q.(free := q.free[i := true]);
      ok := true;
    }

    /** All three descriptors or, with everything put back, none: alloc3_desc fails only when
        fewer than three are free, and then their addresses are cleared as free_desc leaves them. */
    method Alloc3Desc() returns (idx: Option<Three>)
      requires Shaped(q)
      modifies this`q
      ensures idx == Alloc3(old(q).free)
      ensures idx.None? ==> Shaped(q) && q == old(q).(desc := q.desc) && OnlyFreeCleared(old(q), q)
      ensures idx.Some? ==>
        q == old(q).(free := old(q).free[idx.value.head := false][idx.value.mid := false][idx.value.last := false])
    {
      ghost var q0 := q;
      var a := AllocDesc();
      if a == NUM { return None; }
      SkipFree(q0.free, a, a + 1);
      var b := AllocDesc();
      if b == NUM {
        var ok := FreeDesc(a);
        PutBack(q0, a, a);
        return None;
      }
      SkipFree(q0.free[a := false], b, b + 1);
      SkipFree2(q0.free, a, b);
      var c := AllocDesc();
      if c == NUM {
        var ok := FreeDesc(a);
        ok := FreeDesc(b);
        PutBack(q0, a, b);
        return None;
      }
      idx := Some(Three(a, b, c));
    }

    /** Free the chain that starts at i by following the links; false stands for free_desc's panics. */
    method FreeChain(h: nat, ghost mid: nat, ghost last: nat) returns (ok: bool)
      requires Shaped(q) && h < NUM && mid < NUM && last < NUM && h != mid && h != last && mid != last
      requires !q.free[h] && !q.free[mid] && !q.free[last]
      requires q.desc[h].more && q.desc[h].next == mid && q.desc[mid].more && q.desc[mid].next == last
      requires !q.desc[last].more
      modifies this`q
      ensures ok && q == Returned(old(q), h, mid, last)
    {
      var i := h;
      ghost var n, q0 := 0, q;
      while true
        invariant n <= 2 && i == (if n == 0 then h else if n == 1 then mid else last)
        invariant q == if n == 0 then q0 else if n == 1 then Cleared(q0, h) else Cleared(Cleared(q0, h), mid)
        decreases 3 - n
      {
        ok := FreeDesc(i);
        if !q.desc[i].more { return; }
        i := q.desc[i].next;
        n := n + 1;
      }
    }

    /** virtio_disk_rw up to its wait: a step of the protocol, or false when there are not three
        descriptors and the caller sleeps on them instead. */
    method Submit(b: nat, blockno: nat, write: bool) returns (ok: bool)
      requires Ready() && forall h :: h in st.flights ==> st.flights[h].buf != b
      modifies this
      ensures Ready() && (ok <==> Alloc3(old(q).free).Some?)
      ensures ok ==> Next(old(st), Virtio.Submit(b, blockno, write), st)
      ensures ok ==> exists h :: Asked(old(st), st, h, b, blockno, write) && Told(q.desc, h, st.flights[h])
      ensures !ok ==> Next(old(st), Retry, st)
    {
      ghost var s := st;
      var idx := Alloc3Desc();
      if idx.None? {
        st := s.(q := q);
        Keeps(s, Retry, st);
        return false;
      }
      Format(idx.value, b, blockno, write, s);
      SubmitTells(s, b, blockno, write, st);
      ok := true;
    }

    /** What virtio_disk_rw does with the three descriptors it got. */
    method Format(d: Three, b: nat, blockno: nat, write: bool, ghost s: State)
      requires Inv(s) && Balanced(s) && Alloc3(s.q.free) == Some(d)
      requires forall h :: h in s.flights ==> s.flights[h].buf != b
      requires q == s.q.(free := s.q.free[d.head := false][d.mid := false][d.last := false])
      requires busy == s.busy && next == s.next && working == s.working && st == s
      modifies this
      ensures Ready() && Next(s, Virtio.Submit(b, blockno, write), st)
    {
      var r := Request(b, blockno, write);
      q := q.(desc := q.desc[d.head := HeaderDesc(d, r)]);
      q := q.(desc := q.desc[d.mid := DataDesc(d, r)]);
      q := q.(desc := q.desc[d.last := StatusDesc(d)]);
      busy := busy + {b};
      q := q.(info := q.info[d.head := Some(b)]);
      q := q.(avail := q.avail[q.availIdx % NUM := d.head]);
      q := q.(availIdx := (q.availIdx + 1) % WRAP);
      st := Issued(s, d, r);
      Keeps(s, Virtio.Submit(b, blockno, write), st);
    }

    /** virtio_disk_intr, with the device at work between its rounds: device(n) is what the device tries
        to do before the handler's n-th test.  Whatever that is the handler ends, having seen
        every completion there was at its last test. */
    method Intr(device: nat -> seq<DevMove>) returns (ghost ss: seq<State>, ghost es: seq<Event>)
      requires Ready()
      modifies this
      ensures Ready() && Handling(old(st), ss, es, st) && st.saw == |st.done|
      ensures forall h :: h in st.flights ==> !st.flights[h].stage.Completed?
    {
      ghost var s := st;
      HandlingStart(s);
      var n := 0;
      ss, es := Device(device(0), s, [s], []);
      HandlingEnd(s, ss, es, st);
      while q.seen % NUM != q.usedIdx % NUM
        invariant Ready() && Handling(s, ss, es, st) && st.saw <= |s.issued|
        decreases |s.issued| - st.saw
      {
        HandlingEnd(s, ss, es, st);
        n := n + 1;
        ss, es := IntrRound(device(n), s, ss, es);
      }
      HandlingEnd(s, ss, es, st);
      NoneCompleted(st);
    }

    /** One round and what the device does before the next test. */
    method IntrRound(moves: seq<DevMove>, ghost s: State, ghost ss0: seq<State>, ghost es0: seq<Event>)
      returns (ghost ss: seq<State>, ghost es: seq<Event>)
      requires Ready() && Handling(s, ss0, es0, st) && q.seen % NUM != q.usedIdx % NUM
      modifies this
      ensures Ready() && Handling(s, ss, es, st) && st.saw == old(st.saw) + 1
    {
      ghost var u := st;
      IntrOne();
      HandlingMore(s, ss0, es0, u, Virtio.Intr, st);
      ss, es := Device(moves, s, ss0 + [st], es0 + [Virtio.Intr]);
    }

    /** The device's moves, as far as it can make them. */
    method Device(moves: seq<DevMove>, ghost s: State, ghost ss0: seq<State>, ghost es0: seq<Event>)
      returns (ghost ss: seq<State>, ghost es: seq<Event>)
      requires Ready() && Handling(s, ss0, es0, st)
      modifies this
      ensures Ready() && Handling(s, ss, es, st) && st.saw == old(st.saw)
    {
      ss, es := ss0, es0;
      for k := 0 to |moves|
        invariant Ready() && Handling(s, ss, es, st) && st.saw == old(st.saw)
      {
        ghost var u := st;
        var ok;
        match moves[k] {
          case Take => ok := DevTake();
          case Complete(h) => ok := DevComplete(h);
        }
        if ok {
          ghost var e := if moves[k].Take? then Virtio.DevTake else Virtio.DevComplete(moves[k].h);
          HandlingMore(s, ss, es, u, e, st);
          ss, es := ss + [st], es + [e];
        }
      }
    }

    /** The device takes the next available request, if there is one. */
    method DevTake() returns (ok: bool)
      requires Ready()
      modifies this
      ensures Ready() && if ok then Next(old(st), Virtio.DevTake, st) else st == old(st)
    {
      if next == q.availIdx { return false; }
      ghost var s := st;
      var h := q.avail[next % NUM];
      next, working := (next + 1) % WRAP, working + {h};
      st := s.(next := next, working := working, got := s.got + 1, flights := Advance(s.flights, h, Taken));
      Keeps(s, Virtio.DevTake, st);
      ok := true;
    }

    /** The device completes a request it has taken. */
    method DevComplete(h: nat) returns (ok: bool)
      requires Ready()
      modifies this
      ensures Ready() && if ok then Next(old(st), Virtio.DevComplete(h), st) else st == old(st)
    {
      if h !in working { return false; }
      ghost var s := st;
      q := q.(used := q.used[q.usedIdx % NUM := h], usedIdx := (q.usedIdx + 1) % WRAP);
      working := working - {h};
      st := s.(q := q, working := working, done := s.done + [h],
               flights := Advance(s.flights, h, Completed(|s.done|)));
      Keeps(s, Virtio.DevComplete(h), st);
      ok := true;
    }

    method IntrOne()
      requires Ready() && q.seen % NUM != q.usedIdx % NUM
      modifies this
      ensures Ready() && Next(old(st), Virtio.Intr, st)
    {
      ghost var s := st;
      IntrFinds(s);
      var id := q.used[q.seen];
      busy := busy - {q.info[id].value};
      q := q.(seen := (q.seen + 1) % NUM);
      st := s.(q := q, busy := busy, saw := s.saw + 1, flights := Advance(s.flights, id, Signalled));
      Keeps(s, Virtio.Intr, st);
    }

    /** The end of virtio_disk_rw, once the buffer is no longer busy: forget the request and free
        its chain, a step of the protocol. */
    method Finish(h: nat)
      requires Ready() && h in st.flights && st.flights[h].buf !in busy
      modifies this
      ensures Ready() && Next(old(st), Virtio.Finish(h), st)
    {
      ghost var s, f := st, st.flights[h];
      assert FlightOk(s, h);
      q := q.(info := q.info[h := None]);
      var ok := FreeChain(h, f.mid, f.last);
      st := s.(q := q, flights := s.flights - {h});
      Keeps(s, Virtio.Finish(h), st);
    }
  }

  /** Taking free descriptors and freeing them again only clears their addresses. */
  lemma PutBack(q: Queue, a: nat, b: nat)
    requires Shaped(q) && a < NUM && b < NUM && q.free[a] && q.free[b]
    ensures var t := Cleared(q.(free := q.free[a := false]), a);
      a == b ==> Shaped(t) && t == q.(desc := t.desc) && OnlyFreeCleared(q, t)
    ensures var t := Cleared(Cleared(q.(free := q.free[a := false][b := false]), a), b);
      a != b ==> Shaped(t) && t == q.(desc := t.desc) && OnlyFreeCleared(q, t)
  {
    assert q.free[a := false][a := true] == q.free;
    assert a != b ==> q.free[a := false][b := false][a := true][b := true] == q.free;
  }

  lemma SkipFree(free: seq<bool>, a: nat, from: nat)
    requires a < |free| && a == FirstFree(free, 0) && from == a + 1
    ensures FirstFree(free[a := false], 0) == FirstFree(free, from)
  {
    FirstFreeIs(free[a := false], 0, FirstFree(free, from));
  }

  lemma SkipFree2(free: seq<bool>, a: nat, b: nat)
    requires a < |free| && a == FirstFree(free, 0) && b < |free| && b == FirstFree(free, a + 1)
    ensures FirstFree(free[a := false][b := false], 0) == FirstFree(free, b + 1)
  {
    FirstFreeIs(free[a := false][b := false], 0, FirstFree(free, b + 1));
  }

  lemma {:induction false} FirstFreeIs(free: seq<bool>, i: nat, r: nat)
    requires i <= r <= |free| && (r < |free| ==> free[r]) && forall j :: i <= j < r ==> !free[j]
    ensures FirstFree(free, i) == r
    decreases r - i
  {
    if i < r { FirstFreeIs(free, i + 1, r); }
  }
}
