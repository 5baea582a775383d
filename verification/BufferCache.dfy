/** kernel/bio.c: the buffer cache.  The critical sections under bcache.lock are methods of
    BCache, over the linked ring the source keeps, proved against functions on values. */
module BufferCache {
  import opened LruRing
  import opened Options

  type Data = seq<int>
  datatype Key = Key(dev: int, blockno: int)
  datatype Buf = Buf(key: Key, valid: bool, refcnt: nat, data: Data)

  /** The buffers, and the indices of all of them from most to least recently released. */
  datatype Cache = Cache(bufs: seq<Buf>, order: seq<nat>)

  ghost predicate Ordered(c: Cache) {
    && Fits(|c.bufs|, c.order)
    && forall i :: 0 <= i < |c.bufs| ==> i in c.order
  }

  /** bget's first loop: the first buffer in ring order that holds the key. */
  function Hit(c: Cache, key: Key, from: nat): (r: Option<nat>)
    requires forall i :: 0 <= i < |c.order| ==> c.order[i] < |c.bufs|
    requires from <= |c.order|
    ensures r.Some? ==> r.value < |c.bufs| && c.bufs[r.value].key == key
    ensures r.None? ==> forall i :: from <= i < |c.order| ==> c.bufs[c.order[i]].key != key
    decreases |c.order| - from
  {
    if from == |c.order| then None
    else if c.bufs[c.order[from]].key == key then Some(c.order[from])
    else Hit(c, key, from + 1)
  }

  /** bget's second loop: the least recently used buffer that nobody references. */
  function Free(c: Cache, upTo: nat): (r: Option<nat>)
    requires forall i :: 0 <= i < |c.order| ==> c.order[i] < |c.bufs|
    requires upTo <= |c.order|
    ensures r.Some? ==> r.value < |c.bufs| && c.bufs[r.value].refcnt == 0
    ensures r.None? ==> forall i :: 0 <= i < upTo ==> c.bufs[c.order[i]].refcnt > 0
    decreases upTo
  {
    if upTo == 0 then None
    else if c.bufs[c.order[upTo - 1]].refcnt == 0 then Some(c.order[upTo - 1])
    else Free(c, upTo - 1)
  }

  /** No buffer nearer the recent end caches the block. */
  lemma {:induction false} HitIsFirst(c: Cache, key: Key, from: nat) returns (j: nat)
    requires forall i :: 0 <= i < |c.order| ==> c.order[i] < |c.bufs|
    requires from <= |c.order| && Hit(c, key, from).Some?
    ensures from <= j < |c.order| && Hit(c, key, from) == Some(c.order[j])
    ensures forall i :: from <= i < j ==> c.bufs[c.order[i]].key != key
    decreases |c.order| - from
  {
    if c.bufs[c.order[from]].key == key { return from; }
    j := HitIsFirst(c, key, from + 1);
  }

  /** Every less recently used buffer is referenced. */
  lemma {:induction false} FreeIsOldest(c: Cache, upTo: nat) returns (j: nat)
    requires forall i :: 0 <= i < |c.order| ==> c.order[i] < |c.bufs|
    requires upTo <= |c.order| && Free(c, upTo).Some?
    ensures j < upTo && Free(c, upTo) == Some(c.order[j]) && c.bufs[c.order[j]].refcnt == 0
    ensures forall i :: j < i < upTo ==> c.bufs[c.order[i]].refcnt > 0
    decreases upTo
  {
    if c.bufs[c.order[upTo - 1]].refcnt == 0 { return upTo - 1; }
    j := FreeIsOldest(c, upTo - 1);
  }

  /** The effect of bget's critical section: which buffer it hands out and the cache after. */
  function Get(c: Cache, key: Key): (r: Option<(nat, Cache)>)
    requires forall i :: 0 <= i < |c.order| ==> c.order[i] < |c.bufs|
    ensures r.Some? ==> r.value.0 < |c.bufs|
  {
    var hit := Hit(c, key, 0);
    if hit.Some? then
      var i := hit.value;
      Some((i, c.(bufs := c.bufs[i := c.bufs[i].(refcnt := c.bufs[i].refcnt + 1)])))
    else
      var free := Free(c, |c.order|);
      if free.Some? then
        var i := free.value;
        Some((i, c.(bufs := c.bufs[i := Buf(key, false, 1, c.bufs[i].data)])))
      else None
  }

  /** The effect of brelse's critical section on buffer number c.order[j]. */
  function Put(c: Cache, j: nat): Cache
    requires j < |c.order| && c.order[j] < |c.bufs| && c.bufs[c.order[j]].refcnt > 0
  {
    var i := c.order[j];
    var b := c.bufs[i].(refcnt := c.bufs[i].refcnt - 1);
    Cache(c.bufs[i := b], if b.refcnt == 0 then [i] + Without(c.order, j) else c.order)
  }

  function Index(order: seq<nat>, b: nat): (j: nat)
    requires b in order
    ensures j < |order| && order[j] == b
  {
    if order[0] == b then 0 else 1 + Index(order[1..], b)
  }

  lemma PutOrdered(c: Cache, j: nat)
    requires Ordered(c) && j < |c.order| && c.bufs[c.order[j]].refcnt > 0
    ensures Ordered(Put(c, j))
  {
    var c' := Put(c, j);
    forall i | 0 <= i < |c'.bufs| ensures i in c'.order {
      var k := Index(c.order, i);
      if k != j {
        assert Without(c.order, j)[if k < j then k else k - 1] == i;
      }
    }
  }

  // ----- Least recently released -----

  /** x comes before y. */
  ghost predicate Before(order: seq<nat>, x: nat, y: nat) {
    exists j, k :: 0 <= j < k < |order| && order[j] == x && order[k] == y
  }

  /** Any two buffers other than b are in the same order in both. */
  ghost predicate SameButOne(n: nat, o0: seq<nat>, o: seq<nat>, b: nat) {
    forall x, y :: 0 <= x < n && 0 <= y < n && x != b && y != b ==> (Before(o, x, y) <==> Before(o0, x, y))
  }

  /** The order is that of the times in stamp, latest first; clock is later than all of them. */
  ghost predicate Recency(order: seq<nat>, stamp: seq<nat>, clock: nat) {
    && (forall j :: 0 <= j < |order| ==> order[j] < |stamp| && stamp[order[j]] < clock)
    && (forall j, k :: 0 <= j < k < |order| ==> stamp[order[j]] > stamp[order[k]])
  }

  lemma BeforeIsLater(order: seq<nat>, stamp: seq<nat>, clock: nat, x: nat, y: nat)
    requires Recency(order, stamp, clock) && x in order && y in order
    ensures Before(order, x, y) <==> stamp[x] > stamp[y]
  {
    var j, k := Index(order, x), Index(order, y);
    if j < k { assert order[j] == x && order[k] == y; }
  }

  /** The buffer bget recycles is, of those nobody references, the one released longest ago. */
  lemma FreeIsStalest(c: Cache, stamp: seq<nat>, clock: nat)
    requires Ordered(c) && Recency(c.order, stamp, clock)
    ensures var r := Free(c, |c.order|);
      && (r.None? <==> forall i :: 0 <= i < |c.bufs| ==> c.bufs[i].refcnt > 0)
      && (r.Some? ==> r.value < |stamp| && forall i :: 0 <= i < |c.bufs| && c.bufs[i].refcnt == 0 ==>
            i < |stamp| && stamp[r.value] <= stamp[i])
  {
    var r := Free(c, |c.order|);
    if r.Some? {
      var j := FreeIsOldest(c, |c.order|);
      forall i | 0 <= i < |c.bufs| && c.bufs[i].refcnt == 0 ensures i < |stamp| && stamp[r.value] <= stamp[i] {
        var k := Index(c.order, i);
        assert k <= j;
      }
    } else {
      forall i | 0 <= i < |c.bufs| ensures c.bufs[i].refcnt > 0 { assert c.order[Index(c.order, i)] == i; }
    }
  }

  /** A hit is a hit wherever the block is cached. */
  lemma HitIff(c: Cache, key: Key)
    requires Ordered(c)
    ensures Hit(c, key, 0).Some? <==> exists i :: 0 <= i < |c.bufs| && c.bufs[i].key == key
  {
    forall i | 0 <= i < |c.bufs| && c.bufs[i].key == key ensures Hit(c, key, 0).Some? {
      assert c.order[Index(c.order, i)] == i;
    }
  }

  /** Buffer b, released at time clock, goes to the front; the others stay as they were. */
  lemma FrontIsLatest(order: seq<nat>, stamp: seq<nat>, clock: nat, j: nat)
    requires Recency(order, stamp, clock) && j < |order| && Fits(|stamp|, order)
    ensures Recency([order[j]] + Without(order, j), stamp[order[j] := clock], clock + 1)
  {
  }

  lemma OthersKept(head: nat, o0: seq<nat>, stamp0: seq<nat>, c0: nat, o: seq<nat>, stamp: seq<nat>, c: nat, b: nat)
    requires Recency(o0, stamp0, c0) && Recency(o, stamp, c) && |stamp0| == |stamp| == head
    requires forall x :: 0 <= x < head ==> x in o0 && x in o && (x != b ==> stamp[x] == stamp0[x])
    ensures SameButOne(head, o0, o, b)
  {
    forall x, y | 0 <= x < head && 0 <= y < head && x != b && y != b ensures Before(o, x, y) <==> Before(o0, x, y) {
      BeforeIsLater(o, stamp, c, x, y);
      BeforeIsLater(o0, stamp0, c0, x, y);
    }
  }

  class BCache {
    const head: nat                // the list head, and the number of buffers
    const next: array<nat>
    const prev: array<nat>
    var bufs: seq<Buf>
    ghost var order: seq<nat>
    ghost var stamp: seq<nat>      // when each buffer was last released by its last user
    ghost var clock: nat

    ghost predicate Valid()
      reads this, next, prev
    {
      && next != prev && next.Length == prev.Length == head + 1 && |bufs| == head
      && Ring(head, next[..], prev[..], order)
      && Ordered(Value()) && |stamp| == head && Recency(order, stamp, clock)
    }

    ghost function Value(): Cache
      reads this
    {
      Cache(bufs, order)
    }

    /** Write one next or prev link, kept as a value on the side. */
    method SetNext(i: nat, v: nat)
      requires i < next.Length
      modifies next
      ensures next[..] == old(next[..])[i := v]
    {
      next[i] := v;
    }

    method SetPrev(i: nat, v: nat)
      requires i < prev.Length
      modifies prev
      ensures prev[..] == old(prev[..])[i := v]
    {
      prev[i] := v;
    }

    /** binit: an empty ring, then every buffer pushed at the recent end. */
    constructor (nbuf: nat, initial: seq<Buf>)
      requires |initial| == nbuf
      ensures Valid() && head == nbuf && bufs == initial && fresh(next) && fresh(prev)
      ensures order == seq(nbuf, k requires 0 <= k < nbuf => nbuf - 1 - k)
      ensures stamp == seq(nbuf, k => k) && clock == nbuf
    {
      head := nbuf;
      next := new nat[nbuf + 1](_ => nbuf);
      prev := new nat[nbuf + 1](_ => nbuf);
      bufs := initial;
      order := [];
      stamp, clock := seq(nbuf, k => k), nbuf;
      new;
      var b := 0;
      while b < nbuf
        invariant 0 <= b <= nbuf && Ring(head, next[..], prev[..], order)
        invariant |order| == b && forall k :: 0 <= k < b ==> order[k] == b - 1 - k
        invariant bufs == initial && fresh(next) && fresh(prev) && stamp == seq(nbuf, k => k) && clock == nbuf
      {
        PushFront(b);
        b := b + 1;
      }
      forall i | 0 <= i < nbuf ensures i in order { assert order[nbuf - 1 - i] == i; }
    }

    method PushFront(b: nat)
      requires next != prev && next.Length == prev.Length == head + 1
      requires Ring(head, next[..], prev[..], order) && b < head && b !in order
      modifies next, prev, `order
      ensures Ring(head, next[..], prev[..], order) && order == [b] + old(order)
    {
      Pushed(head, next[..], prev[..], order, b);
      SetNext(b, next[head]);
      SetPrev(b, head);
      SetPrev(next[head], b);
      SetNext(head, b);
      order := [b] + order;
    }

    method Unlink(b: nat)
      requires next != prev && next.Length == prev.Length == head + 1
      requires Ring(head, next[..], prev[..], order) && b in order
      modifies next, prev, `order
      ensures Ring(head, next[..], prev[..], order)
      ensures order == Without(old(order), Index(old(order), b))
    {
      Unlinked(head, next[..], prev[..], order, Index(order, b));
      SetPrev(next[b], prev[b]);
      SetNext(prev[b], next[b]);
      order := Without(order, Index(order, b));
    }

    /** The part of bget that runs under bcache.lock: the buffer that caches the block, with one more
        reference, or else, of the buffers nobody references, the one released longest ago; None is its
        panic "no buffers". */
    method Bget(key: Key) returns (r: Option<nat>)
      requires Valid()
      modifies `bufs
      ensures Valid()
      ensures r.None? <==> (forall i :: 0 <= i < head ==> old(bufs)[i].key != key && old(bufs)[i].refcnt > 0)
      ensures r.None? ==> bufs == old(bufs)
      ensures r.Some? && (exists i :: 0 <= i < head && old(bufs)[i].key == key) ==>
        && r.value < head && old(bufs)[r.value].key == key
        && bufs == old(bufs)[r.value := old(bufs)[r.value].(refcnt := old(bufs)[r.value].refcnt + 1)]
      ensures r.Some? && (forall i :: 0 <= i < head ==> old(bufs)[i].key != key) ==>
        && r.value < head && old(bufs)[r.value].refcnt == 0
        && bufs == old(bufs)[r.value := Buf(key, false, 1, old(bufs)[r.value].data)]
        && forall i :: 0 <= i < head && old(bufs)[i].refcnt == 0 ==> stamp[r.value] <= stamp[i]
      ensures var want := Get(old(Value()), key);
              if want.None? then r == None && Value() == old(Value())
              else r == Some(want.value.0) && Value() == want.value.1
    {
      ghost var c := Value();
      HitIff(c, key);
      FreeIsStalest(c, stamp, clock);
      r := Search(key);
    }

    method Search(key: Key) returns (r: Option<nat>)
      requires Valid()
      modifies `bufs
      ensures Valid()
      ensures var want := Get(old(Value()), key);
              if want.None? then r == None && Value() == old(Value())
              else r == Some(want.value.0) && Value() == want.value.1
    {
      ghost var c := Value();
      ghost var k := 0;
      var b := next[head];
      assert next[..][At(head, order, 0 - 1)] == At(head, order, 0);
      while b != head
        invariant 0 <= k <= |order| && b == At(head, order, k) && bufs == c.bufs
        invariant Hit(c, key, 0) == Hit(c, key, k)
        decreases |order| - k
      {
        if bufs[b].key == key {
          bufs := bufs[b := bufs[b].(refcnt := bufs[b].refcnt + 1)];
          return Some(b);
        }
        assert next[..][At(head, order, (k + 1) - 1)] == At(head, order, k + 1);
        b := next[b];
        k := k + 1;
      }
      k := |order|;
      b := prev[head];
      assert prev[..][At(head, order, |order|)] == At(head, order, |order| - 1);
      while b != head
        invariant 0 <= k <= |order| && b == At(head, order, k - 1) && bufs == c.bufs
        invariant Free(c, |order|) == Free(c, k)
        decreases k
      {
        if bufs[b].refcnt == 0 {
          bufs := bufs[b := Buf(key, false, 1, bufs[b].data)];
          return Some(b);
        }
        assert prev[..][At(head, order, k - 1)] == At(head, order, k - 1 - 1);
        b := prev[b];
        k := k - 1;
      }
      return None;
    }

    /** The part of brelse that runs under bcache.lock: the last user's release puts the buffer at the
        recent end and leaves the others in their order; any other release moves nothing. */
    method Brelse(b: nat)
      requires Valid() && b < |bufs| && bufs[b].refcnt > 0
      modifies this, next, prev
      ensures Valid() && bufs == old(bufs)[b := old(bufs)[b].(refcnt := old(bufs)[b].refcnt - 1)]
      ensures bufs[b].refcnt > 0 ==> order == old(order) && stamp == old(stamp) && clock == old(clock)
      ensures bufs[b].refcnt == 0 ==> order != [] && order[0] == b
      ensures bufs[b].refcnt == 0 ==> stamp == old(stamp)[b := old(clock)] && clock == old(clock) + 1
      ensures SameButOne(head, old(order), order, b)
      ensures Value() == Put(old(Value()), Index(old(order), b))
    {
      ghost var order0, stamp0, clock0 := order, stamp, clock;
      Release(b);
      OthersKept(head, order0, stamp0, clock0, order, stamp, clock, b);
    }

    method Release(b: nat)
      requires Valid() && b < |bufs| && bufs[b].refcnt > 0
      modifies this, next, prev
      ensures Valid() && bufs == old(bufs)[b := old(bufs)[b].(refcnt := old(bufs)[b].refcnt - 1)]
      ensures bufs[b].refcnt > 0 ==> order == old(order) && stamp == old(stamp) && clock == old(clock)
      ensures bufs[b].refcnt == 0 ==> order != [] && order[0] == b
      ensures bufs[b].refcnt == 0 ==> stamp == old(stamp)[b := old(clock)] && clock == old(clock) + 1
      ensures Value() == Put(old(Value()), Index(old(order), b))
    {
      ghost var want := Put(Value(), Index(order, b));
      PutOrdered(Value(), Index(order, b));
      bufs := bufs[b := bufs[b].(refcnt := bufs[b].refcnt - 1)];
      if bufs[b].refcnt == 0 {
        MoveToFront(b);
      }
      assert Value() == want;
    }

    method MoveToFront(b: nat)
      requires next != prev && next.Length == prev.Length == head + 1 && |stamp| == head
      requires Ring(head, next[..], prev[..], order) && b in order && Recency(order, stamp, clock)
      modifies next, prev, `order, `stamp, `clock
      ensures Ring(head, next[..], prev[..], order) && Recency(order, stamp, clock)
      ensures order == [b] + Without(old(order), Index(old(order), b))
      ensures stamp == old(stamp)[b := old(clock)] && clock == old(clock) + 1
    {
      ghost var j := Index(order, b);
      assert b !in Without(order, j);
      FrontIsLatest(order, stamp, clock, j);
      Unlink(b);
      PushFront(b);
      stamp, clock := stamp[b := clock], clock + 1;
    }
  }
}
