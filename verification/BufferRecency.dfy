/** Over every run of the buffer cache, whoever interleaves, bget recycles the block that was released
    longest ago (kernel/bio.c). */
module BufferRecency {
  import opened BufferCache
  import opened BufferProtocol
  import opened LruRing
  import opened Options

  /** The buffer that step e leaves without users, if any. */
  ghost function Freed(s: State, e: Event): (r: Option<nat>)
    ensures r.Some? ==> r.value < |s.cache.bufs|
  {
    if e.Drop? && e.id in s.sessions && s.sessions[e.id].buf < |s.cache.bufs|
       && s.cache.bufs[s.sessions[e.id].buf].refcnt == 1
    then Some(s.sessions[e.id].buf) else None
  }

  /** When each buffer was last released, before step n: the steps are numbered from the number of
      buffers on, and before any release a buffer counts as older the nearer it was to the old end. */
  ghost function Stamps(ss: seq<State>, es: seq<Event>, n: nat): (r: seq<nat>)
    requires n < |ss| == |es| + 1 && Ordered(ss[0].cache)
    ensures |r| == |ss[0].cache.bufs|
  {
    if n == 0 then FirstStamps(ss[0].cache)
    else Stamped(Stamps(ss, es, n - 1), Freed(ss[n - 1], es[n - 1]), |ss[0].cache.bufs| + n - 1)
  }

  ghost function FirstStamps(c: Cache): (r: seq<nat>)
    requires Ordered(c)
    ensures |r| == |c.bufs|
  {
    seq(|c.bufs|, i requires 0 <= i < |c.bufs| => |c.order| - 1 - Index(c.order, i))
  }

  ghost function Stamped(was: seq<nat>, b: Option<nat>, now: nat): (r: seq<nat>)
    ensures |r| == |was|
  {
    if b.Some? && b.value < |was| then was[b.value := now] else was
  }

  lemma FirstOrder(s: State)
    requires Ordered(s.cache)
    ensures InOrder(s, |s.cache.bufs|, FirstStamps(s.cache), |s.cache.bufs|)
  {
    var c := s.cache;
    OrderLength(c.order, |c.bufs|);
    forall j | 0 <= j < |c.order| ensures Index(c.order, c.order[j]) == j { }
  }

  lemma {:induction false} OrderLength(order: seq<nat>, n: nat)
    requires forall i :: 0 <= i < |order| ==> order[i] < n
    requires forall i, j :: 0 <= i < j < |order| ==> order[i] != order[j]
    ensures |order| <= n
    decreases n
  {
    if n > 0 {
      if n - 1 in order {
        var j := Index(order, n - 1);
        OrderLength(order[..j] + order[j + 1..], n - 1);
      } else {
        OrderLength(order, n - 1);
      }
    }
  }

  /** A step moves the buffer it leaves without users to the front and no other. */
  lemma StepOrder(s: State, e: Event)
    requires Inv(s) && Enabled(s, e)
    ensures |Next(s, e).cache.bufs| == |s.cache.bufs|
    ensures Freed(s, e).None? ==> Next(s, e).cache.order == s.cache.order
    ensures Freed(s, e).Some? ==> Freed(s, e).value in s.cache.order
    ensures Freed(s, e).Some? ==>
      Next(s, e).cache.order == [Freed(s, e).value] + Without(s.cache.order, Index(s.cache.order, Freed(s, e).value))
  {
  }

  lemma Later(order: seq<nat>, stamp: seq<nat>, clock: nat)
    requires Recency(order, stamp, clock)
    ensures Recency(order, stamp, clock + 1)
  {
  }

  /** The ring of s is in the order of the times in stamp. */
  ghost predicate InOrder(s: State, n: nat, stamp: seq<nat>, clock: nat) {
    |s.cache.bufs| == |stamp| == n && Recency(s.cache.order, stamp, clock)
  }

  lemma InOrderNext(s: State, e: Event, n: nat, stamp: seq<nat>, clock: nat)
    requires Inv(s) && Enabled(s, e) && InOrder(s, n, stamp, clock)
    ensures InOrder(Next(s, e), n, Stamped(stamp, Freed(s, e), clock), clock + 1)
  {
    StepOrder(s, e);
    if Freed(s, e).Some? {
      FrontIsLatest(s.cache.order, stamp, clock, Index(s.cache.order, Freed(s, e).value));
    } else {
      Later(s.cache.order, stamp, clock);
    }
  }

  /** The ring is in the order of the last releases, in every reachable state. */
  lemma {:induction false} OrderIsRecency(ss: seq<State>, es: seq<Event>, n: nat)
    requires Run(ss, es) && n < |ss|
    ensures InOrder(ss[n], |ss[0].cache.bufs|, Stamps(ss, es, n), |ss[0].cache.bufs| + n)
  {
    if n == 0 {
      FirstOrder(ss[0]);
    } else {
      OrderIsRecency(ss, es, n - 1);
      RunInv(ss, es, n - 1);
      assert StepAt(ss, es, n - 1);
      InOrderNext(ss[n - 1], es[n - 1], |ss[0].cache.bufs|, Stamps(ss, es, n - 1), |ss[0].cache.bufs| + n - 1);
    }
  }

  /** A miss recycles, of the buffers nobody references, the one released longest ago, and gives the
      caller an invalid buffer for the block. */
  lemma MissTakesStalest(ss: seq<State>, es: seq<Event>, n: nat)
    requires Run(ss, es) && n < |es| && es[n].Bget?
    requires forall i :: 0 <= i < |ss[n].cache.bufs| ==> ss[n].cache.bufs[i].key != es[n].key
    ensures es[n].id in ss[n + 1].sessions
    ensures var b := ss[n + 1].sessions[es[n].id].buf; var s := ss[n]; var stamp := Stamps(ss, es, n);
      && b < |s.cache.bufs| && b < |stamp| && s.cache.bufs[b].refcnt == 0
      && ss[n + 1].cache.bufs == s.cache.bufs[b := Buf(es[n].key, false, 1, s.cache.bufs[b].data)]
      && forall i :: 0 <= i < |s.cache.bufs| && s.cache.bufs[i].refcnt == 0 ==> i < |stamp| && stamp[b] <= stamp[i]
  {
    OrderIsRecency(ss, es, n);
    RunInv(ss, es, n);
    assert StepAt(ss, es, n);
    HitIff(ss[n].cache, es[n].key);
    FreeIsStalest(ss[n].cache, Stamps(ss, es, n), |ss[0].cache.bufs| + n);
  }

  /** A block that is cached is never read from disk again: bget hands out its buffer. */
  lemma HitKeepsBuffer(ss: seq<State>, es: seq<Event>, n: nat, i: nat)
    requires Run(ss, es) && n < |es| && es[n].Bget? && i < |ss[n].cache.bufs| && ss[n].cache.bufs[i].key == es[n].key
    ensures es[n].id in ss[n + 1].sessions && ss[n + 1].sessions[es[n].id].buf == i
    ensures ss[n + 1].cache == ss[n].cache.(bufs :=
      ss[n].cache.bufs[i := ss[n].cache.bufs[i].(refcnt := ss[n].cache.bufs[i].refcnt + 1)])
  {
    RunInv(ss, es, n);
    assert StepAt(ss, es, n);
    HitIff(ss[n].cache, es[n].key);
  }
}
