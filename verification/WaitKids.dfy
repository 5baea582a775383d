/** How wait returns, when it returns -1 and when it sleeps, and that exit does not return (kernel/proc.c). */
module WaitKids {
  import opened ExitWait
  import opened Options
  import opened ProcStatus

  predicate ChildOf(s: State, q: nat, p: nat) { q < |s| && s[q].parent == Some(p) }

  ghost predicate HasKid(s: State, p: nat) { exists q :: ChildOf(s, q, p) }

  /** havekids says what the scan has seen; asleep in wait there is a child to wait for.  Behind init's
      scan reparent may add children, behind nobody else's. */
  ghost predicate KidsOk(s: State, init: nat, p: nat) {
    p < |s| ==>
      && (s[p].pc == InWait || (s[p].pc.Waiting? && s[p].pc.kids) ==> HasKid(s, p))
      && (s[p].pc.Waiting? && !s[p].pc.kids && p != init ==> forall q: nat :: q < s[p].pc.next ==> !ChildOf(s, q, p))
  }

  /** A process in wait keeps its children, and but for init it gets no new ones. */
  lemma KidsStay(s: State, init: nat, e: Event, p: nat, q: nat)
    requires Inv(s, init) && Enabled(s, init, e) && p < |s| && q < |s|
    requires s[p].pc.Waiting? || s[p].pc == InWait
    ensures |Next(s, init, e)| == |s|
    ensures ChildOf(s, q, p) ==> ChildOf(Next(s, init, e), q, p) || Next(s, init, e)[p].pc == User
    ensures p != init && !ChildOf(s, q, p) ==> !ChildOf(Next(s, init, e), q, p)
  {
    assert Local(s, init, p) && Local(s, init, q) && Local(s, init, e.p);
  }

  predicate InWaitCall(x: Proc) { x.pc.Waiting? || x.pc == InWait }

  lemma KidsStep(s: State, init: nat, e: Event, p: nat)
    requires Inv(s, init) && Enabled(s, init, e) && KidsOk(s, init, p)
    ensures KidsOk(Next(s, init, e), init, p)
  {
    if p < |s| {
      if InWaitCall(s[p]) {
        if InWaitCall(Next(s, init, e)[p]) {
          StillSeen(s, init, e, p);
          StillNone(s, init, e, p);
        }
      } else {
        NewWait(s, init, e, p);
      }
    }
  }

  lemma StillSeen(s: State, init: nat, e: Event, p: nat)
    requires Inv(s, init) && Enabled(s, init, e) && KidsOk(s, init, p) && p < |s| && InWaitCall(s[p])
    ensures var t := Next(s, init, e);
      InWaitCall(t[p]) && (t[p].pc == InWait || t[p].pc.kids) ==> HasKid(t, p)
  {
    var t := Next(s, init, e);
    if e == WaitSkip(p) && ChildOf(s, s[p].pc.next, p) {
      KidsStay(s, init, e, p, s[p].pc.next);
    } else if HasKid(s, p) {
      var q: nat :| ChildOf(s, q, p);
      KidsStay(s, init, e, p, q);
      assert InWaitCall(t[p]) ==> ChildOf(t, q, p);
    }
  }

  lemma StillNone(s: State, init: nat, e: Event, p: nat)
    requires Inv(s, init) && Enabled(s, init, e) && KidsOk(s, init, p) && p < |s| && InWaitCall(s[p])
    ensures var t := Next(s, init, e);
      t[p].pc.Waiting? && !t[p].pc.kids && p != init ==> forall q: nat :: q < t[p].pc.next ==> !ChildOf(t, q, p)
  {
    var t := Next(s, init, e);
    if t[p].pc.Waiting? && !t[p].pc.kids && p != init {
      forall q: nat | q < t[p].pc.next ensures !ChildOf(t, q, p) {
        if q < |s| { KidsStay(s, init, e, p, q); }
      }
    }
  }

  /** wait begins with its scan at the start. */
  lemma NewWait(s: State, init: nat, e: Event, p: nat)
    requires Enabled(s, init, e) && p < |s| && !s[p].pc.Waiting? && s[p].pc != InWait
    ensures |Next(s, init, e)| == |s| && Next(s, init, e)[p].pc != InWait
    ensures Next(s, init, e)[p].pc.Waiting? ==> Next(s, init, e)[p].pc == Waiting(0, false)
  {
  }

  lemma {:induction false} RunKids(init: nat, ss: seq<State>, es: seq<Event>, i: nat, p: nat)
    requires Run(init, ss, es) && i < |ss|
    ensures KidsOk(ss[i], init, p)
  {
    if i > 0 {
      RunKids(init, ss, es, i - 1, p);
      RunInv(init, ss, es, i - 1);
      assert ss[i] == Next(ss[i - 1], init, es[i - 1]);
      KidsStep(ss[i - 1], init, es[i - 1], p);
    } else {
      BootKids(ss[0], init, p);
    }
  }

  lemma BootKids(s: State, init: nat, p: nat)
    requires Boot(s, init)
    ensures KidsOk(s, init, p)
  {
  }

  /** In every reachable state a process asleep in wait has a child. */
  lemma SleepsForAChild(init: nat, ss: seq<State>, es: seq<Event>, i: nat, p: nat)
    requires Run(init, ss, es) && i < |ss| && p < |ss[i]| && ss[i][p].inWait
    ensures HasKid(ss[i], p)
  {
    RunInv(init, ss, es, i);
    assert Local(ss[i], init, p);
    RunKids(init, ss, es, i, p);
  }

  /** When a scan has ended without a zombie, a process other than init returns -1 exactly if it has no
      child and can sleep exactly if it has one; init too sleeps only if it has one, and nobody is stuck. */
  lemma ScanDecides(init: nat, ss: seq<State>, es: seq<Event>, i: nat, p: nat)
    requires Run(init, ss, es) && i < |ss| && p < |ss[i]| && ss[i][p].pc.Waiting? && ss[i][p].pc.next == |ss[i]|
    ensures Enabled(ss[i], init, WaitSleep(p)) ==> HasKid(ss[i], p)
    ensures Enabled(ss[i], init, WaitSleep(p)) <==> !Enabled(ss[i], init, WaitNone(p))
    ensures p != init ==> (Enabled(ss[i], init, WaitNone(p)) <==> !HasKid(ss[i], p))
  {
    RunInv(init, ss, es, i);
    RunKids(init, ss, es, i, p);
  }

  // ----- How wait returns -----

  predicate LeavesWait(e: Event, p: nat) {
    e == WaitReap(p) || e == WaitFault(p) || e == WaitNone(p) || e == WaitKilled(p)
  }

  /** A process in wait stays there, whoever wakes it, until it reaps a child, fails to copy its status
      out, or ends a scan without a child or killed. */
  lemma WaitStep(s: State, init: nat, e: Event, p: nat)
    requires Inv(s, init) && Enabled(s, init, e) && p < |s| && InWaitCall(s[p])
    ensures |Next(s, init, e)| == |s|
    ensures !LeavesWait(e, p) ==> InWaitCall(Next(s, init, e)[p])
    ensures LeavesWait(e, p) ==> Next(s, init, e)[p].pc == User && Next(s, init, e)[p].lock == Nobody
  {
    assert Local(s, init, p) && Local(s, init, e.p);
  }

  predicate ZombieOf(s: State, c: nat, p: nat) { ChildOf(s, c, p) && s[c].st == ZOMBIE }

  ghost predicate OnlySelf(s: State, t: State, p: nat) {
    |t| == |s| && forall q :: 0 <= q < |s| && q != p ==> t[q] == s[q]
  }

  /** What the caller of wait finds when it returns: its dead child reaped and nothing else changed; or a
      zombie child it could not report; or, after a look at every process, no child (for init: none when
      looked at), or, if it was killed, children of which none has exited. */
  ghost predicate WaitResult(s: State, t: State, init: nat, p: nat, e: Event) {
    match e
    case WaitReap(_) => exists c: nat :: ReapedBy(s, t, p, c)
    case WaitFault(_) => OnlySelf(s, t, p) && exists c: nat :: ZombieOf(s, c, p)
    case WaitNone(_) => OnlySelf(s, t, p) && (p != init ==> !HasKid(s, p))
    case WaitKilled(_) => OnlySelf(s, t, p) && (p != init ==> forall c: nat :: !ZombieOf(s, c, p))
    case _ => false
  }

  lemma WaitReturns(init: nat, ss: seq<State>, es: seq<Event>, i: nat, p: nat)
    requires Run(init, ss, es) && i < |es| && p < |ss[i]| && LeavesWait(es[i], p)
    ensures ss[i][p].pc.Waiting? && WaitResult(ss[i], ss[i + 1], init, p, es[i])
  {
    RunInv(init, ss, es, i);
    assert Enabled(ss[i], init, es[i]) && ss[i + 1] == Next(ss[i], init, es[i]);
    var c := ss[i][p].pc.next;
    if es[i].WaitReap? {
      ReapsOnlyTheDead(init, ss, es, i);
      assert ReapedBy(ss[i], ss[i + 1], p, c);
    } else if es[i].WaitFault? {
      assert ZombieOf(ss[i], c, p);
    } else if es[i].WaitNone? {
      ScanDecides(init, ss, es, i, p);
    } else {
      forall c: nat ensures p != init ==> !ZombieOf(ss[i], c, p) {
        assert Local(ss[i], init, c) && Pair(ss[i], init, p, c);
      }
    }
  }

  /** From s to t process p reaped its child c and did nothing else. */
  ghost predicate ReapedBy(s: State, t: State, p: nat, c: nat) {
    && |t| == |s| && ChildOf(s, c, p) && s[c].st == ZOMBIE && s[c].pc == Dead
    && t[c].st == UNUSED && t[c].parent == None && t[c].reaps == s[c].reaps + 1
    && forall q :: 0 <= q < |s| && q != p && q != c ==> t[q] == s[q]
  }

  // ----- exit does not return -----

  /** Once a process has begun to exit it never runs user code again: the next that becomes of it is
      that its parent reaps it. */
  lemma ExitStep(s: State, init: nat, e: Event, p: nat)
    requires Inv(s, init) && Enabled(s, init, e) && p < |s| && Exiting(s[p].pc)
    ensures |Next(s, init, e)| == |s|
    ensures Exiting(Next(s, init, e)[p].pc) || (Next(s, init, e)[p].st == UNUSED && e.WaitReap? && s[p].pc == Dead)
    ensures e.WaitReap? && Next(s, init, e)[p].st == UNUSED ==> s[p].parent == Some(e.p)
  {
    assert Local(s, init, p) && Local(s, init, e.p);
    if e.WaitReap? { assert Pair(s, init, e.p, p); }
  }

  // ----- Nobody is stuck but for a lock -----

  /** Everyone but init has a parent, and reparent's loop stays in the table. */
  ghost predicate Parented(s: State, init: nat, p: nat) {
    p < |s| ==>
      && (p != init && s[p].st != UNUSED ==> s[p].parent.Some?)
      && (s[p].pc.Giving? ==> s[p].pc.next <= |s|)
  }

  lemma ParentedStep(s: State, init: nat, e: Event, p: nat)
    requires Inv(s, init) && Enabled(s, init, e) && Parented(s, init, p)
    ensures Parented(Next(s, init, e), init, p)
  {
    assert Local(s, init, p) && Local(s, init, e.p);
  }

  lemma {:induction false} RunParented(init: nat, ss: seq<State>, es: seq<Event>, i: nat, p: nat)
    requires Run(init, ss, es) && i < |ss|
    ensures Parented(ss[i], init, p)
  {
    if i > 0 {
      RunParented(init, ss, es, i - 1, p);
      RunInv(init, ss, es, i - 1);
      ParentedStep(ss[i - 1], init, es[i - 1], p);
    } else {
      BootParented(ss[0], init, p);
    }
  }

  lemma BootParented(s: State, init: nat, p: nat)
    requires Boot(s, init)
    ensures Parented(s, init, p)
  {
  }

  /** The next step of a process on its way out. */
  function ExitNext(s: State, p: nat): Event
    requires p < |s|
  {
    match s[p].pc
    case WokeInit => ExitReadParent(p)
    case KnowsParent(_) => ExitLockParent(p)
    case HasParent(_) => ExitLockSelf(p)
    case Giving(_, n) => if n < |s| then GiveOne(p) else ExitZombie(p)
    case Zombie(_) => ExitUnlockParent(p)
    case _ => ExitSwitch(p)
  }

  /** The lock that step waits for, if any. */
  function Needs(s: State, p: nat): Option<nat>
    requires p < |s|
  {
    match s[p].pc
    case WokeInit => Some(p)
    case KnowsParent(o) => Some(o)
    case HasParent(_) => Some(p)
    case Giving(_, n) => if n < |s| && s[n].parent == Some(p) then Some(n) else None
    case _ => None
  }

  /** A process that exits goes on to the end unless somebody holds the lock it needs next. */
  lemma ExitGoesOn(init: nat, ss: seq<State>, es: seq<Event>, i: nat, p: nat)
    requires Run(init, ss, es) && i < |ss| && p < |ss[i]| && Exiting(ss[i][p].pc) && ss[i][p].pc != Dead
    requires Needs(ss[i], p).Some? ==> Free(ss[i], Needs(ss[i], p).value)
    ensures Enabled(ss[i], init, ExitNext(ss[i], p))
    ensures ss[i][p].pc.Giving? && ss[i][p].pc.next == |ss[i]| ==>
      var t := Next(ss[i], init, ExitZombie(p));
      && t[p].st == ZOMBIE && (forall q :: 0 <= q < |t| ==> t[q].parent != Some(p))
      && !(t[ss[i][p].pc.o].inWait && t[ss[i][p].pc.o].st == SLEEPING)
  {
    RunInv(init, ss, es, i);
    RunParented(init, ss, es, i, p);
    var s := ss[i];
    assert Local(s, init, p);
    if s[p].pc.Giving? {
      forall q | 0 <= q < |s| && s[p].pc.next == |s| ensures s[q].parent != Some(p) { assert Pair(s, init, p, q); }
    }
  }

  /** wait's scan goes on past every process, and reaps the one it looks at exactly if that is a zombie
      child, as soon as that child's lock is free. */
  lemma ScanGoesOn(s: State, init: nat, p: nat)
    requires Inv(s, init) && p < |s| && s[p].pc.Waiting? && s[p].pc.next < |s|
    requires ChildOf(s, s[p].pc.next, p) ==> Free(s, s[p].pc.next)
    ensures Enabled(s, init, WaitReap(p)) <==> ZombieOf(s, s[p].pc.next, p)
    ensures Enabled(s, init, WaitSkip(p)) <==> !ZombieOf(s, s[p].pc.next, p)
  {
  }
}
