/** kernel/proc.c: fork, exit, reparent and wait as a transition system at the granularity of
    the per-process locks.  p->lock is owned by a process or, between swtch and the scheduler's
    release, by the scheduler. */
module ExitWait {
  import opened Options
  import opened ProcStatus

  datatype Owner = Nobody | By(p: nat) | Sched

  datatype Pc =
    | Unused
    | Parked                            // not running, will resume outside wait
    | InWait                            // not running, will resume in wait's loop
    | Resumed                           // switched to, own lock still held
    | User
    | Waiting(next: nat, kids: bool)    // wait(): own lock held, about to look at proc[next]
    | WokeInit                          // exit(): has woken init
    | KnowsParent(o: nat)               // exit(): original_parent read
    | HasParent(o: nat)                 // exit(): holds original_parent->lock
    | Giving(o: nat, next: nat)         // exit(): both locks held, in reparent's loop
    | Zombie(o: nat)                    // exit(): ZOMBIE, both locks still held
    | Leaving                           // exit(): parent's lock released, in sched() on its own stack
    | Dead                              // switched off its kernel stack for good

  /** woke: the process that exit() woke as this one's parent. */
  datatype Proc = Proc(st: Status, parent: Option<nat>, lock: Owner, inWait: bool, pc: Pc, exits: nat, reaps: nat,
                       woke: Option<nat>)

  type State = seq<Proc>

  datatype Event =
    | Fork(p: nat, child: nat)
    | Preempt(p: nat) | SleepElsewhere(p: nat) | Wake(p: nat)
    | SchedRelease(p: nat) | Resume(p: nat) | ReleaseOwn(p: nat)
    | WaitBegin(p: nat) | WaitSkip(p: nat) | WaitReap(p: nat) | WaitFault(p: nat)
    | WaitNone(p: nat) | WaitKilled(p: nat) | WaitSleep(p: nat)
    | ExitWakeInit(p: nat) | ExitReadParent(p: nat) | ExitLockParent(p: nat) | ExitLockSelf(p: nat)
    | GiveOne(p: nat) | ExitZombie(p: nat) | ExitUnlockParent(p: nat) | ExitSwitch(p: nat)

  predicate In(s: State, p: nat) { p < |s| }
  predicate Free(s: State, p: nat) { p < |s| && s[p].lock == Nobody }

  predicate Enabled(s: State, init: nat, e: Event) {
    In(s, e.p) && init < |s| &&
    var x := s[e.p];
    match e
    case Fork(_, q) => x.pc == User && Free(s, q) && s[q].st == UNUSED && q != e.p
    case Preempt(_) => x.pc == User && x.lock == Nobody
    case SleepElsewhere(_) => x.pc == User && x.lock == Nobody
    case Wake(_) => x.st == SLEEPING && x.lock == Nobody
    case SchedRelease(_) => x.lock == Sched
    case Resume(_) => x.st == RUNNABLE && x.lock == Nobody
    case ReleaseOwn(_) => x.pc == Resumed
    case WaitBegin(_) => x.pc == User && x.lock == Nobody
    case WaitSkip(_) =>
      x.pc.Waiting? && x.pc.next < |s| &&
      (s[x.pc.next].parent == Some(e.p) ==> s[x.pc.next].lock == Nobody && s[x.pc.next].st != ZOMBIE)
    case WaitReap(_) =>
      && x.pc.Waiting? && x.pc.next < |s| && s[x.pc.next].parent == Some(e.p) && s[x.pc.next].lock == Nobody
      && s[x.pc.next].st == ZOMBIE
    case WaitFault(_) =>
      && x.pc.Waiting? && x.pc.next < |s| && s[x.pc.next].parent == Some(e.p) && s[x.pc.next].lock == Nobody
      && s[x.pc.next].st == ZOMBIE
    case WaitNone(_) => x.pc.Waiting? && x.pc.next == |s| && !x.pc.kids
    case WaitKilled(_) => x.pc.Waiting? && x.pc.next == |s|
    case WaitSleep(_) => x.pc.Waiting? && x.pc.next == |s| && x.pc.kids
    case ExitWakeInit(_) => x.pc == User && e.p != init && s[init].lock == Nobody
    case ExitReadParent(_) => x.pc == WokeInit && x.lock == Nobody && x.parent.Some?
    case ExitLockParent(_) => x.pc.KnowsParent? && Free(s, x.pc.o)
    case ExitLockSelf(_) => x.pc.HasParent? && x.lock == Nobody
    case GiveOne(_) =>
      x.pc.Giving? && x.pc.next < |s| && (s[x.pc.next].parent == Some(e.p) ==> s[x.pc.next].lock == Nobody)
    case ExitZombie(_) => x.pc.Giving? && x.pc.next == |s| && x.pc.o < |s|
    case ExitUnlockParent(_) => x.pc.Zombie? && x.pc.o < |s|
    case ExitSwitch(_) => x.pc == Leaving
  }

  /** wakeup1: wake x if it sleeps in wait. */
  function Wakeup1(x: Proc): Proc { if x.inWait && x.st == SLEEPING then x.(st := RUNNABLE) else x }

  function Next(s: State, init: nat, e: Event): State
    requires Enabled(s, init, e)
  {
    var p, x := e.p, s[e.p];
    match e
    case Fork(_, q) => s[q := s[q].(st := RUNNABLE, parent := Some(p), pc := Parked, inWait := false)]
    case Preempt(_) => s[p := x.(st := RUNNABLE, pc := Parked, lock := Sched)]
    case SleepElsewhere(_) => s[p := x.(st := SLEEPING, pc := Parked, lock := Sched)]
    case Wake(_) => s[p := x.(st := RUNNABLE)]
    case SchedRelease(_) => s[p := x.(lock := Nobody)]
    case Resume(_) =>
      s[p := x.(st := RUNNING, lock := By(p), inWait := false,
                pc := if x.pc == InWait then Waiting(0, false) else Resumed)]
    case ReleaseOwn(_) => s[p := x.(lock := Nobody, pc := User)]
    case WaitBegin(_) => s[p := x.(lock := By(p), pc := Waiting(0, false))]
    case WaitSkip(_) =>
      s[p := x.(pc := Waiting(x.pc.next + 1, x.pc.kids || s[x.pc.next].parent == Some(p)))]
    case WaitReap(_) =>
      var q := x.pc.next;
      var s1 := s[q := s[q].(st := UNUSED, parent := None, inWait := false, pc := Unused, reaps := s[q].reaps + 1)];
      s1[p := s1[p].(lock := Nobody, pc := User)]
    case WaitFault(_) => s[p := x.(lock := Nobody, pc := User)]
    case WaitNone(_) => s[p := x.(lock := Nobody, pc := User)]
    case WaitKilled(_) => s[p := x.(lock := Nobody, pc := User)]
    case WaitSleep(_) => s[p := x.(st := SLEEPING, inWait := true, pc := InWait, lock := Sched)]
    case ExitWakeInit(_) =>
      var s1 := s[init := Wakeup1(s[init])];
      s1[p := s1[p].(pc := WokeInit)]
    case ExitReadParent(_) => s[p := x.(pc := KnowsParent(x.parent.value))]
    case ExitLockParent(_) =>
      var s1 := s[x.pc.o := s[x.pc.o].(lock := By(p))];
      s1[p := s1[p].(pc := HasParent(x.pc.o))]
    case ExitLockSelf(_) => s[p := x.(lock := By(p), pc := Giving(x.pc.o, 0))]
    case GiveOne(_) =>
      var q := x.pc.next;
      var s1 := if s[q].parent == Some(p) then s[q := s[q].(parent := Some(init))] else s;
      s1[p := s1[p].(pc := Giving(x.pc.o, q + 1))]
    case ExitZombie(_) =>
      var s1 := s[x.pc.o := Wakeup1(s[x.pc.o])];
      s1[p := s1[p].(st := ZOMBIE, exits := s1[p].exits + 1, pc := Zombie(x.pc.o), woke := Some(x.pc.o))]
    case ExitUnlockParent(_) =>
      var s1 := s[x.pc.o := s[x.pc.o].(lock := Nobody)];
      s1[p := s1[p].(pc := Leaving)]
    case ExitSwitch(_) => s[p := x.(pc := Dead, lock := Sched)]
  }

  // ----- What every step keeps -----

  predicate HoldsOwn(pc: Pc) { pc.Resumed? || pc.Waiting? || pc.Giving? || pc.Zombie? || pc.Leaving? }
  predicate HoldsOther(pc: Pc, o: nat) { (pc.HasParent? || pc.Giving? || pc.Zombie?) && pc.o == o }

  /** Facts about one process by itself. */
  ghost predicate Local(s: State, init: nat, p: nat) {
    p < |s| ==>
      var x := s[p];
      && (x.st == ZOMBIE <==> x.pc.Zombie? || x.pc.Leaving? || x.pc.Dead?)
      && (x.st == UNUSED <==> x.pc == Unused)
      && (x.st == RUNNABLE || x.st == SLEEPING <==> x.pc == Parked || x.pc == InWait)
      && (x.inWait ==> x.pc == InWait)
      && (x.pc == InWait && x.st == SLEEPING ==> x.inWait)
      && (x.lock == By(p) <==> HoldsOwn(x.pc))
      && x.parent != Some(p)
      && (x.parent.Some? ==> x.parent.value < |s|)
      && (x.st == UNUSED ==> x.parent == None)
      && (p == init ==> x.parent == None && x.st != UNUSED && x.st != ZOMBIE && !Exiting(x.pc))
      && (x.pc.KnowsParent? || x.pc.HasParent? || x.pc.Giving? ==>
            x.pc.o < |s| && x.pc.o != p && (x.parent == Some(x.pc.o) || x.parent == Some(init)))
      && (x.pc.Zombie? ==> x.pc.o < |s| && x.pc.o != p)
      && (x.st == ZOMBIE ==> x.woke.Some? && (x.parent == x.woke || x.parent == Some(init)))
      && x.exits == x.reaps + if x.st == ZOMBIE then 1 else 0
  }

  predicate Exiting(pc: Pc) {
    pc.WokeInit? || pc.KnowsParent? || pc.HasParent? || pc.Giving? || pc.Zombie? || pc.Leaving? || pc.Dead?
  }

  /** q's lock is held by another process p exactly while p is in exit and aims at it. */
  ghost predicate LockOk(s: State, p: nat, q: nat) {
    p < |s| && q < |s| && p != q ==> (s[q].lock == By(p) <==> HoldsOther(s[p].pc, q))
  }

  /** Processes that have given their children away, or never had a life, have none. */
  ghost predicate FamilyOk(s: State, p: nat, q: nat) {
    p < |s| && q < |s| && s[q].parent == Some(p) ==>
      && s[p].st != UNUSED && s[p].st != ZOMBIE
      && (s[p].pc.Giving? ==> s[p].pc.next <= q)
  }

  /** A parent that sleeps in wait has no zombie child that woke it; one that is scanning has none
      behind the scan. */
  ghost predicate AttentiveOk(s: State, p: nat, q: nat) {
    p < |s| && q < |s| && s[q].parent == Some(p) && s[q].st == ZOMBIE && s[q].woke == Some(p) ==>
      && !(s[p].pc == InWait && s[p].st == SLEEPING)
      && (s[p].pc.Waiting? ==> s[p].pc.next <= q)
  }

  ghost predicate Pair(s: State, init: nat, p: nat, q: nat) {
    LockOk(s, p, q) && FamilyOk(s, p, q) && AttentiveOk(s, p, q)
  }

  ghost predicate Inv(s: State, init: nat) {
    && init < |s|
    && (forall p {:trigger Local(s, init, p)} :: Local(s, init, p))
    && (forall p, q {:trigger Pair(s, init, p, q)} :: Pair(s, init, p, q))
  }

  // ----- A change to one process -----

  predicate OwnSide(o: Owner, p: nat) { o == Nobody || o == Sched || o == By(p) }

  /** A change to process p alone that keeps its place in the family, takes no other lock and
      does not go to sleep in wait. */
  ghost predicate Mild(s: State, init: nat, p: nat, y: Proc)
    requires p < |s|
  {
    var x := s[p];
    && y.parent == x.parent && y.woke == x.woke && (y.st == ZOMBIE <==> x.st == ZOMBIE)
    && (y.st == UNUSED <==> x.st == UNUSED)
    && (y.lock == x.lock || (OwnSide(x.lock, p) && OwnSide(y.lock, p)))
    && (forall o :: HoldsOther(y.pc, o) <==> HoldsOther(x.pc, o))
    && (y.pc.Giving? ==> y.pc.next == 0 || y.pc == x.pc)
    && (y.pc.Waiting? ==> y.pc.next == 0 || y.pc == x.pc)
    && (y.pc == InWait && y.st == SLEEPING ==> x.pc == InWait && x.st == SLEEPING)
    && Local(s[p := y], init, p)
  }

  lemma LocalKept(s: State, s': State, init: nat, q: nat)
    requires |s'| == |s| && (q < |s| ==> s'[q] == s[q]) && Local(s, init, q)
    ensures Local(s', init, q)
  {
  }

  lemma LocalsKept(s: State, s': State, init: nat, p: nat)
    requires Inv(s, init) && p < |s| && |s'| == |s| && s' == s[p := s'[p]] && Local(s', init, p)
    ensures forall q {:trigger Local(s', init, q)} :: Local(s', init, q)
  {
    forall q: nat ensures Local(s', init, q) {
      if q != p {
        assert Local(s, init, q);
        LocalKept(s, s', init, q);
      }
    }
  }

  lemma MildPair(s: State, init: nat, p: nat, y: Proc, a: nat, b: nat)
    requires Pair(s, init, a, b) && p < |s| && Mild(s, init, p, y)
    ensures Pair(s[p := y], init, a, b)
  {
  }

  lemma MildKeepsInv(s: State, init: nat, p: nat, y: Proc)
    requires Inv(s, init) && p < |s| && Mild(s, init, p, y)
    ensures Inv(s[p := y], init)
  {
    var s' := s[p := y];
    LocalsKept(s, s', init, p);
    forall a: nat, b: nat ensures Pair(s', init, a, b) {
      assert Pair(s, init, a, b);
      MildPair(s, init, p, y, a, b);
    }
  }

  lemma MildStep(s: State, init: nat, e: Event)
    requires Inv(s, init) && Enabled(s, init, e)
    requires e.Preempt? || e.SleepElsewhere? || e.Wake? || e.SchedRelease? || e.Resume? || e.ReleaseOwn? || e.WaitBegin?
             || e.WaitFault? || e.WaitNone? || e.WaitKilled? || e.ExitReadParent? || e.ExitLockSelf? || e.ExitSwitch?
    ensures Inv(Next(s, init, e), init)
  {
    assert Local(s, init, e.p);
    MildKeepsInv(s, init, e.p, Next(s, init, e)[e.p]);
  }

  // ----- wait -----

  lemma WaitSkipStep(s: State, init: nat, p: nat)
    requires Inv(s, init) && Enabled(s, init, WaitSkip(p))
    ensures Inv(Next(s, init, WaitSkip(p)), init)
  {
    var s' := Next(s, init, WaitSkip(p));
    assert Local(s, init, p);
    LocalsKept(s, s', init, p);
    forall a: nat, b: nat ensures Pair(s', init, a, b) { assert Pair(s, init, a, b); }
  }

  lemma WaitSleepStep(s: State, init: nat, p: nat)
    requires Inv(s, init) && Enabled(s, init, WaitSleep(p))
    ensures Inv(Next(s, init, WaitSleep(p)), init)
  {
    var s' := Next(s, init, WaitSleep(p));
    assert Local(s, init, p);
    LocalsKept(s, s', init, p);
    forall a: nat, b: nat ensures Pair(s', init, a, b) { assert Pair(s, init, a, b); }
  }

  lemma ForkPair(s: State, init: nat, p: nat, c: nat, a: nat, b: nat)
    requires Enabled(s, init, Fork(p, c)) && Pair(s, init, a, b) && Local(s, init, p) && Local(s, init, c)
    ensures Pair(Next(s, init, Fork(p, c)), init, a, b)
  {
  }

  lemma ForkStep(s: State, init: nat, p: nat, c: nat)
    requires Inv(s, init) && Enabled(s, init, Fork(p, c))
    ensures Inv(Next(s, init, Fork(p, c)), init)
  {
    var s' := Next(s, init, Fork(p, c));
    assert Local(s, init, p) && Local(s, init, c);
    LocalsKept(s, s', init, c);
    forall a: nat, b: nat ensures Pair(s', init, a, b) {
      assert Pair(s, init, a, b);
      ForkPair(s, init, p, c, a, b);
    }
  }

  function Reaped(x: Proc): Proc {
    x.(st := UNUSED, parent := None, inWait := false, pc := Unused, reaps := x.reaps + 1)
  }

  /** freeproc on a zombie child whose lock is free. */
  lemma FreeKeepsInv(s: State, init: nat, c: nat)
    requires Inv(s, init) && c < |s| && s[c].st == ZOMBIE && s[c].lock == Nobody
    ensures Inv(s[c := Reaped(s[c])], init)
  {
    var s' := s[c := Reaped(s[c])];
    assert Local(s, init, c);
    LocalsKept(s, s', init, c);
    forall a: nat, b: nat ensures Pair(s', init, a, b) { assert Pair(s, init, a, b); }
  }

  lemma WaitReapStep(s: State, init: nat, p: nat)
    requires Inv(s, init) && Enabled(s, init, WaitReap(p))
    ensures Inv(Next(s, init, WaitReap(p)), init)
  {
    var c := s[p].pc.next;
    assert Local(s, init, p) && Local(s, init, c);
    FreeKeepsInv(s, init, c);
    var s1 := s[c := Reaped(s[c])];
    assert Local(s1, init, p);
    MildKeepsInv(s1, init, p, s1[p].(lock := Nobody, pc := User));
  }

  // ----- exit -----

  /** wakeup1 keeps the invariant, whoever holds the lock. */
  lemma Wakeup1KeepsInv(s: State, init: nat, o: nat)
    requires Inv(s, init) && o < |s|
    ensures Inv(s[o := Wakeup1(s[o])], init)
  {
    assert Local(s, init, o);
    MildKeepsInv(s, init, o, Wakeup1(s[o]));
  }

  lemma ExitWakeInitStep(s: State, init: nat, p: nat)
    requires Inv(s, init) && Enabled(s, init, ExitWakeInit(p))
    ensures Inv(Next(s, init, ExitWakeInit(p)), init)
  {
    Wakeup1KeepsInv(s, init, init);
    var s1 := s[init := Wakeup1(s[init])];
    assert Local(s1, init, p);
    MildKeepsInv(s1, init, p, s1[p].(pc := WokeInit));
  }

  lemma ExitLockParentPair(s: State, init: nat, p: nat, a: nat, b: nat)
    requires Enabled(s, init, ExitLockParent(p)) && Pair(s, init, a, b) && Local(s, init, p)
    ensures Pair(Next(s, init, ExitLockParent(p)), init, a, b)
  {
  }

  lemma ExitLockParentStep(s: State, init: nat, p: nat)
    requires Inv(s, init) && Enabled(s, init, ExitLockParent(p))
    ensures Inv(Next(s, init, ExitLockParent(p)), init)
  {
    var s', o := Next(s, init, ExitLockParent(p)), s[p].pc.o;
    assert Local(s, init, p) && Local(s, init, o);
    forall q: nat ensures Local(s', init, q) { assert Local(s, init, q); }
    forall a: nat, b: nat ensures Pair(s', init, a, b) {
      assert Pair(s, init, a, b);
      ExitLockParentPair(s, init, p, a, b);
    }
  }

  lemma ExitUnlockParentPair(s: State, init: nat, p: nat, a: nat, b: nat)
    requires Enabled(s, init, ExitUnlockParent(p)) && Pair(s, init, a, b) && Local(s, init, p)
    requires Pair(s, init, p, s[p].pc.o)
    ensures Pair(Next(s, init, ExitUnlockParent(p)), init, a, b)
  {
  }

  lemma ExitUnlockParentStep(s: State, init: nat, p: nat)
    requires Inv(s, init) && Enabled(s, init, ExitUnlockParent(p))
    ensures Inv(Next(s, init, ExitUnlockParent(p)), init)
  {
    var s', o := Next(s, init, ExitUnlockParent(p)), s[p].pc.o;
    assert Local(s, init, p) && Local(s, init, o) && Pair(s, init, p, o);
    forall q: nat ensures Local(s', init, q) { assert Local(s, init, q); }
    forall a: nat, b: nat ensures Pair(s', init, a, b) {
      assert Pair(s, init, a, b);
      ExitUnlockParentPair(s, init, p, a, b);
    }
  }

  function Adopted(s: State, init: nat, p: nat, c: nat): State
    requires c < |s|
  {
    if s[c].parent == Some(p) then s[c := s[c].(parent := Some(init))] else s
  }

  lemma AdoptKeepsInv(s: State, init: nat, p: nat, c: nat)
    requires Inv(s, init) && p < |s| && c < |s| && p != init
    ensures Inv(Adopted(s, init, p, c), init)
  {
    if s[c].parent == Some(p) {
      var s' := Adopted(s, init, p, c);
      assert Local(s, init, c) && Local(s, init, init);
      LocalsKept(s, s', init, c);
      forall a: nat, b: nat ensures Pair(s', init, a, b) { assert Pair(s, init, a, b); }
    }
  }

  lemma GiveOneStep(s: State, init: nat, p: nat)
    requires Inv(s, init) && Enabled(s, init, GiveOne(p))
    ensures Inv(Next(s, init, GiveOne(p)), init)
  {
    var c := s[p].pc.next;
    assert Local(s, init, p) && Local(s, init, c);
    AdoptKeepsInv(s, init, p, c);
    GivePast(Adopted(s, init, p, c), init, p);
  }

  lemma GivePast(s: State, init: nat, p: nat)
    requires Inv(s, init) && p < |s| && s[p].pc.Giving? && s[p].pc.next < |s| && s[s[p].pc.next].parent != Some(p)
    ensures Inv(s[p := s[p].(pc := Giving(s[p].pc.o, s[p].pc.next + 1))], init)
  {
    var s' := s[p := s[p].(pc := Giving(s[p].pc.o, s[p].pc.next + 1))];
    assert Local(s, init, p);
    LocalsKept(s, s', init, p);
    forall a: nat, b: nat ensures Pair(s', init, a, b) { assert Pair(s, init, a, b); }
  }

  lemma ExitZombieStep(s: State, init: nat, p: nat)
    requires Inv(s, init) && Enabled(s, init, ExitZombie(p))
    ensures Inv(Next(s, init, ExitZombie(p)), init)
  {
    var o := s[p].pc.o;
    assert Local(s, init, p) && Local(s, init, o);
    Wakeup1KeepsInv(s, init, o);
    BecomeZombie(s[o := Wakeup1(s[o])], init, p);
  }

  lemma ZombiePair(s: State, init: nat, p: nat, a: nat, b: nat)
    requires p < |s| && p != init && s[p].pc.Giving? && s[p].pc.next == |s| && s[p].pc.o < |s|
    requires Local(s, init, p) && Local(s, init, s[p].pc.o) && Pair(s, init, p, s[p].pc.o) && Pair(s, init, a, b)
    requires !(s[s[p].pc.o].inWait && s[s[p].pc.o].st == SLEEPING)
    ensures Pair(s[p := s[p].(st := ZOMBIE, exits := s[p].exits + 1, pc := Zombie(s[p].pc.o), woke := Some(s[p].pc.o))],
                 init, a, b)
  {
  }

  lemma BecomeZombie(s: State, init: nat, p: nat)
    requires Inv(s, init) && p < |s| && p != init && s[p].pc.Giving? && s[p].pc.next == |s|
    requires s[p].pc.o < |s| && !(s[s[p].pc.o].inWait && s[s[p].pc.o].st == SLEEPING)
    ensures Inv(s[p := s[p].(st := ZOMBIE, exits := s[p].exits + 1, pc := Zombie(s[p].pc.o), woke := Some(s[p].pc.o))],
                init)
  {
    var o := s[p].pc.o;
    var s' := s[p := s[p].(st := ZOMBIE, exits := s[p].exits + 1, pc := Zombie(o), woke := Some(o))];
    assert Local(s, init, p) && Local(s, init, o) && Pair(s, init, p, o);
    LocalsKept(s, s', init, p);
    forall a: nat, b: nat ensures Pair(s', init, a, b) {
      assert Pair(s, init, a, b);
      ZombiePair(s, init, p, a, b);
    }
  }

  lemma WaitSteps(s: State, init: nat, e: Event)
    requires Inv(s, init) && Enabled(s, init, e) && (e.Fork? || e.WaitSkip? || e.WaitReap? || e.WaitSleep?)
    ensures Inv(Next(s, init, e), init)
  {
    match e
    case Fork(p, c) => ForkStep(s, init, p, c);
    case WaitSkip(p) => WaitSkipStep(s, init, p);
    case WaitReap(p) => WaitReapStep(s, init, p);
    case WaitSleep(p) => WaitSleepStep(s, init, p);
  }

  lemma ExitSteps(s: State, init: nat, e: Event)
    requires Inv(s, init) && Enabled(s, init, e)
    requires e.ExitWakeInit? || e.ExitLockParent? || e.GiveOne? || e.ExitZombie? || e.ExitUnlockParent?
    ensures Inv(Next(s, init, e), init)
  {
    match e
    case ExitWakeInit(p) => ExitWakeInitStep(s, init, p);
    case ExitLockParent(p) => ExitLockParentStep(s, init, p);
    case GiveOne(p) => GiveOneStep(s, init, p);
    case ExitZombie(p) => ExitZombieStep(s, init, p);
    case ExitUnlockParent(p) => ExitUnlockParentStep(s, init, p);
  }

  lemma StepKeepsInv(s: State, init: nat, e: Event)
    requires Inv(s, init) && Enabled(s, init, e)
    ensures Inv(Next(s, init, e), init)
  {
    if e.Fork? || e.WaitSkip? || e.WaitReap? || e.WaitSleep? {
      WaitSteps(s, init, e);
    } else if e.ExitWakeInit? || e.ExitLockParent? || e.GiveOne? || e.ExitZombie? || e.ExitUnlockParent? {
      ExitSteps(s, init, e);
    } else {
      MildStep(s, init, e);
    }
  }

  // ----- Whole runs -----

  /** After boot only init exists. */
  predicate Boot(s: State, init: nat) {
    && init < |s|
    && s[init] == Proc(RUNNABLE, None, Nobody, false, Parked, 0, 0, None)
    && forall p :: 0 <= p < |s| && p != init ==> s[p] == Proc(UNUSED, None, Nobody, false, Unused, 0, 0, None)
  }

  ghost predicate Run(init: nat, ss: seq<State>, es: seq<Event>) {
    && |ss| == |es| + 1 && Boot(ss[0], init)
    && forall i :: 0 <= i < |es| ==> Enabled(ss[i], init, es[i]) && ss[i + 1] == Next(ss[i], init, es[i])
  }

  lemma {:induction false} RunInv(init: nat, ss: seq<State>, es: seq<Event>, i: nat)
    requires Run(init, ss, es) && i < |ss|
    ensures Inv(ss[i], init)
  {
    if i > 0 {
      RunInv(init, ss, es, i - 1);
      StepKeepsInv(ss[i - 1], init, es[i - 1]);
    } else {
      forall p: nat ensures Local(ss[0], init, p) { }
      forall p: nat, q: nat ensures Pair(ss[0], init, p, q) { }
    }
  }

  /** No parent, init included, is ever left sleeping in wait with a zombie child that woke it.
      Every zombie child of a parent other than init did; a zombie child of init that woke another
      process was adopted after that process's exit had begun. */
  lemma NoForgottenZombie(init: nat, ss: seq<State>, es: seq<Event>, i: nat, p: nat, c: nat)
    requires Run(init, ss, es) && i < |ss| && p < |ss[i]| && c < |ss[i]|
    requires ss[i][c].parent == Some(p) && ss[i][c].st == ZOMBIE
    ensures ss[i][p].st == SLEEPING && ss[i][p].inWait ==> p == init && ss[i][c].woke.Some?
    ensures ss[i][p].st == SLEEPING && ss[i][p].inWait ==> ss[i][c].woke.value != init
  {
    RunInv(init, ss, es, i);
    assert Local(ss[i], init, p) && Local(ss[i], init, c) && Pair(ss[i], init, p, c);
  }

  /** When wait frees a slot, its process has switched off its kernel stack, has no children
      left, and is the caller's own child. */
  lemma ReapsOnlyTheDead(init: nat, ss: seq<State>, es: seq<Event>, i: nat)
    requires Run(init, ss, es) && i < |es| && es[i].WaitReap?
    ensures var c := ss[i][es[i].p].pc.next;
            && ss[i][c].pc == Dead && ss[i][c].parent == Some(es[i].p) && ss[i + 1][c].st == UNUSED
            && forall q :: 0 <= q < |ss[i]| ==> ss[i][q].parent != Some(c)
  {
    RunInv(init, ss, es, i);
    var c := ss[i][es[i].p].pc.next;
    assert Local(ss[i], init, c) && Local(ss[i], init, es[i].p);
    forall q | 0 <= q < |ss[i]| ensures ss[i][q].parent != Some(c) { assert Pair(ss[i], init, c, q); }
  }

  /** Every exit is reaped at most once: a slot's exits exceed its reaps by one exactly while it
      is a zombie. */
  lemma ReapedAtMostOnce(init: nat, ss: seq<State>, es: seq<Event>, i: nat, p: nat)
    requires Run(init, ss, es) && i < |ss| && p < |ss[i]|
    ensures ss[i][p].exits == ss[i][p].reaps + if ss[i][p].st == ZOMBIE then 1 else 0
  {
    RunInv(init, ss, es, i);
    assert Local(ss[i], init, p);
  }
}
