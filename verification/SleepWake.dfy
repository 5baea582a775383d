/** What sleep, yield and wakeup promise their callers, over every run (kernel/proc.c). */
module SleepWake {
  import opened Options
  import opened ProcStatus
  import opened Scheduler

  // ----- sleep returns with lk -----

  /** The process that takes the step, if it is one of a running process. */
  function Actor(s: State, e: Event): Option<nat> {
    match e
    case SchedAcquire(_, _) => None
    case SchedSkip(_) => None
    case SchedSwitch(_) => None
    case SchedBack(_) => None
    case Reap(_) => None
    case Kill(_) => None
    case _ => if Runs(s, e.c) then Some(s.cpus[e.c].mode.p) else None
  }

  /** Inside sleep(), from its first acquire to its last. */
  predicate Sleeping(pc: Pc) { pc.SleepBoth? || pc.SleepOwn? || pc.InSleep? || pc.Awake? || pc.WantLk? }

  /** sleep()'s own steps; everything else a process does happens outside it. */
  predicate OfSleep(e: Event) { e.SleepUnlock? || e.SleepSwitch? || e.ReleaseOwn? || e.AcquireLk? }

  lemma SleepStep(s: State, e: Event, p: nat)
    requires Inv(s) && Enabled(s, e) && p < |s.procs| && Sleeping(s.procs[p].pc)
    ensures Actor(s, e) == Some(p) ==> OfSleep(e)
    ensures !(e.AcquireLk? && Actor(s, e) == Some(p)) ==> Sleeping(Next(s, e).procs[p].pc)
    ensures e.AcquireLk? && Actor(s, e) == Some(p) ==> Next(s, e).lk == Some(p) && Next(s, e).procs[p].pc == HasLk
  {
    assert ProcOk(s, p);
    if Runs(s, if e.Reap? || e.Kill? then 0 else e.c) && !e.Reap? && !e.Kill? { assert CpuOk(s, e.c); }
  }

  /** At step k process p acquires lk. */
  ghost predicate AcquiresAt(ss: seq<State>, es: seq<Event>, k: nat, p: nat) {
    && k < |es| && k + 1 < |ss| && es[k].AcquireLk? && Actor(ss[k], es[k]) == Some(p) && ss[k + 1].lk == Some(p)
  }

  /** The steps of p after the i-th and before the j-th include its reacquiring lk. */
  ghost predicate Reacquires(ss: seq<State>, es: seq<Event>, i: nat, j: nat, p: nat) {
    exists k :: i < k < j && AcquiresAt(ss, es, k, p)
  }

  lemma EntersSleep(s: State, e: Event, p: nat)
    requires Inv(s) && Enabled(s, e) && e.SleepLock? && Actor(s, e) == Some(p)
    ensures p < |Next(s, e).procs| && Sleeping(Next(s, e).procs[p].pc)
  {
  }

  lemma {:induction false} StillSleeping(ss: seq<State>, es: seq<Event>, i: nat, j: nat, p: nat)
    requires Run(ss, es) && i < j < |ss| && es[i].SleepLock? && Actor(ss[i], es[i]) == Some(p)
    ensures p < |ss[j].procs| && (Sleeping(ss[j].procs[p].pc) || Reacquires(ss, es, i, j, p))
    decreases j
  {
    RunInv(ss, es, j - 1);
    if j == i + 1 {
      EntersSleep(ss[i], es[i], p);
    } else {
      StillSleeping(ss, es, i, j - 1, p);
      if Sleeping(ss[j - 1].procs[p].pc) {
        SleepStep(ss[j - 1], es[j - 1], p);
        if !Sleeping(ss[j].procs[p].pc) { assert AcquiresAt(ss, es, j - 1, p); }
      } else {
        SameProcs(ss[j - 1], es[j - 1]);
        var k :| i < k < j - 1 && AcquiresAt(ss, es, k, p);
      }
    }
  }

  lemma SameProcs(s: State, e: Event)
    requires Enabled(s, e)
    ensures |Next(s, e).procs| == |s.procs|
  {
  }

  /** A process that calls sleep does nothing of its own but sleep's steps until it holds lk again: it
      neither gives lk up, uses the condition, yields, exits, forks nor sleeps again before that. */
  lemma SleepReturnsLocked(ss: seq<State>, es: seq<Event>, i: nat, j: nat, p: nat)
    requires Run(ss, es) && i < j < |es| && es[i].SleepLock? && Actor(ss[i], es[i]) == Some(p)
    requires Actor(ss[j], es[j]) == Some(p) && !OfSleep(es[j])
    ensures Reacquires(ss, es, i, j, p)
  {
    StillSleeping(ss, es, i, j, p);
    RunInv(ss, es, j);
    if Sleeping(ss[j].procs[p].pc) { SleepStep(ss[j], es[j], p); }
  }

  // ----- yield returns where it was called -----

  /** Off the CPU in yield, or not yet started, or just back with its own lock held. */
  predicate Yielding(pc: Pc) { pc.InYield? || pc.AtForkret? || pc.Resumed? }

  /** Until a process that yielded, or was forked, has released its own lock it does nothing; then it
      holds no lock. */
  lemma YieldStep(s: State, e: Event, p: nat)
    requires Inv(s) && Enabled(s, e) && p < |s.procs| && Yielding(s.procs[p].pc)
    ensures Actor(s, e) == Some(p) ==> e.ReleaseOwn?
    ensures Actor(s, e) == Some(p) ==>
      Next(s, e).procs[p].pc == Outside && Next(s, e).procs[p].lock == None && Next(s, e).lk != Some(p)
    ensures Actor(s, e) != Some(p) ==> Yielding(Next(s, e).procs[p].pc)
  {
    assert ProcOk(s, p);
    if !e.Reap? && !e.Kill? && Runs(s, e.c) { assert CpuOk(s, e.c); }
  }

  // ----- Who is on the channel -----

  /** Exactly the processes inside sleep's switch are on the channel, until they tidy up. */
  ghost predicate ChanOk(s: State, p: nat) {
    p < |s.procs| ==>
      (s.procs[p].pc == InSleep ==> s.procs[p].onChan)
      && (s.procs[p].onChan ==> s.procs[p].pc == InSleep || s.procs[p].pc == Awake)
  }

  lemma ChanStep(s: State, e: Event, p: nat)
    requires Inv(s) && Enabled(s, e) && ChanOk(s, p)
    ensures ChanOk(Next(s, e), p)
  {
    SameProcs(s, e);
    if p < |s.procs| {
      assert ProcOk(s, p);
      if !e.Reap? && !e.Kill? && Runs(s, e.c) { assert CpuOk(s, e.c); }
    }
  }

  lemma {:induction false} RunChan(ss: seq<State>, es: seq<Event>, i: nat, p: nat)
    requires Run(ss, es) && i < |ss|
    ensures ChanOk(ss[i], p)
  {
    if i > 0 {
      RunChan(ss, es, i - 1, p);
      RunInv(ss, es, i - 1);
      assert ss[i] == Next(ss[i - 1], es[i - 1]);
      ChanStep(ss[i - 1], es[i - 1], p);
    } else {
      BootChan(ss[0], p);
    }
  }

  lemma BootChan(s: State, p: nat)
    requires Init(s)
    ensures ChanOk(s, p)
  {
    assert p < |s.procs| ==> Fresh(s.procs[p]);
  }

  /** Every sleeper is on the channel, so that NoLostWakeup speaks of all of them, and nobody else is. */
  lemma SleepersOnChannel(ss: seq<State>, es: seq<Event>, i: nat, p: nat)
    requires Run(ss, es) && i < |ss| && p < |ss[i].procs|
    ensures ss[i].procs[p].st == SLEEPING ==> ss[i].procs[p].onChan
    ensures ss[i].procs[p].onChan ==> Sleeping(ss[i].procs[p].pc)
  {
    RunChan(ss, es, i, p);
    RunInv(ss, es, i);
    assert ProcOk(ss[i], p);
  }

  // ----- The condition -----

  /** What the last signal or consumption before step i left of the condition. */
  function CondAfter(first: bool, es: seq<Event>): bool {
    if es == [] then first
    else if es[|es| - 1].Signal? then true
    else if es[|es| - 1].Consume? then false
    else CondAfter(first, es[..|es| - 1])
  }

  lemma {:induction false} CondIs(ss: seq<State>, es: seq<Event>, i: nat)
    requires Run(ss, es) && i < |ss|
    ensures ss[i].cond == CondAfter(ss[0].cond, es[..i])
  {
    if i > 0 {
      CondIs(ss, es, i - 1);
      assert es[..i][..i - 1] == es[..i - 1];
      assert ss[i] == Next(ss[i - 1], es[i - 1]);
    }
  }

  // ----- The scheduler's choice -----

  /** A CPU that looks at a process runs it exactly if it is RUNNABLE. */
  lemma VisitDecides(ss: seq<State>, es: seq<Event>, i: nat)
    requires Run(ss, es) && i < |es| && (es[i].SchedSkip? || es[i].SchedSwitch?)
    ensures Sees(ss[i], es[i].c)
    ensures var p := ss[i].cpus[es[i].c].mode.p;
      && (es[i].SchedSwitch? <==> ss[i].procs[p].st == RUNNABLE)
      && ss[i + 1].procs[p].st == if es[i].SchedSwitch? then RUNNING else ss[i].procs[p].st
  {
    assert Enabled(ss[i], es[i]) && ss[i + 1] == Next(ss[i], es[i]);
  }

  // ----- wakeup wakes everybody -----

  /** Process w was not asleep at some point after state i and up to state j. */
  ghost predicate Roused(ss: seq<State>, i: nat, j: nat, w: nat) {
    exists k :: i < k <= j && Up(ss, k, w)
  }

  predicate Up(ss: seq<State>, k: nat, w: nat) { k < |ss| && w < |ss[k].procs| && ss[k].procs[w].st != SLEEPING }

  /** Process p is inside the wakeup it began at step i, and everyone it has looked at has been up. */
  ghost predicate Rousing(ss: seq<State>, i: nat, j: nat, p: nat) {
    && j < |ss| && p < |ss[j].procs| && ss[j].procs[p].pc.Scan? && ss[j].procs[p].pc.next <= |ss[j].procs|
    && forall w: nat {:trigger Roused(ss, i, j, w)} :: w < ss[j].procs[p].pc.next ==> Roused(ss, i, j, w)
  }

  /** While p scans, its only steps are those of the scan, and each leaves one more process up. */
  lemma ScanStep(s: State, e: Event, p: nat)
    requires Inv(s) && Enabled(s, e) && p < |s.procs| && s.procs[p].pc.Scan?
    requires forall w: nat {:trigger ChanOk(s, w)} :: ChanOk(s, w)
    ensures var t, n := Next(s, e), s.procs[p].pc.next;
      && |t.procs| == |s.procs|
      && (Actor(s, e) != Some(p) ==> t.procs[p].pc == Scan(n))
      && (Actor(s, e) == Some(p) ==>
            || (e.WakeOne? && n < |s.procs| && t.procs[p].pc == Scan(n + 1) && t.procs[n].st != SLEEPING)
            || (e.WakeDone? && n == |s.procs| && t.procs[p].pc == HasLk && t.lk == Some(p)))
  {
    assert ProcOk(s, p);
    if !e.Reap? && !e.Kill? && Runs(s, e.c) { assert CpuOk(s, e.c); }
    if e.WakeOne? && Actor(s, e) == Some(p) {
      var n := s.procs[p].pc.next;
      assert ProcOk(s, n) && ChanOk(s, n);
    }
  }

  lemma StillRoused(ss: seq<State>, i: nat, j: nat, w: nat)
    requires Roused(ss, i, j, w)
    ensures Roused(ss, i, j + 1, w)
  {
    var k :| i < k <= j && Up(ss, k, w);
    assert Up(ss, k, w);
  }

  lemma {:induction false} RousingUntil(ss: seq<State>, es: seq<Event>, i: nat, j: nat, p: nat)
    requires Run(ss, es) && i < j < |ss| && es[i].Signal? && Actor(ss[i], es[i]) == Some(p)
    requires forall k :: i < k < j ==> !(es[k].WakeDone? && Actor(ss[k], es[k]) == Some(p))
    ensures Rousing(ss, i, j, p)
    decreases j
  {
    RunInv(ss, es, j - 1);
    assert ss[j] == Next(ss[j - 1], es[j - 1]);
    if j > i + 1 {
      RousingUntil(ss, es, i, j - 1, p);
      RousingStep(ss, es, i, j - 1, p);
    }
  }

  lemma RousingStep(ss: seq<State>, es: seq<Event>, i: nat, j: nat, p: nat)
    requires Run(ss, es) && i < j < |es| && Inv(ss[j]) && Rousing(ss, i, j, p)
    requires !(es[j].WakeDone? && Actor(ss[j], es[j]) == Some(p))
    ensures Rousing(ss, i, j + 1, p)
  {
    assert Enabled(ss[j], es[j]) && ss[j + 1] == Next(ss[j], es[j]);
    forall w: nat ensures ChanOk(ss[j], w) { RunChan(ss, es, j, w); }
    ScanStep(ss[j], es[j], p);
    var u, n := j + 1, ss[j + 1].procs[p].pc.next;
    forall w: nat | w < n ensures Roused(ss, i, u, w) {
      if w < ss[j].procs[p].pc.next {
        StillRoused(ss, i, j, w);
      } else {
        assert Up(ss, j + 1, w);
      }
    }
  }

  /** From the signal to the end of its wakeup every process has been up: nobody sleeps through it.  The
      waker then still holds lk. */
  lemma WakeupRousesAll(ss: seq<State>, es: seq<Event>, i: nat, j: nat, p: nat, w: nat)
    requires Run(ss, es) && i < j < |es| && es[i].Signal? && Actor(ss[i], es[i]) == Some(p)
    requires es[j].WakeDone? && Actor(ss[j], es[j]) == Some(p) && w < |ss[j].procs|
    requires forall k :: i < k < j ==> !(es[k].WakeDone? && Actor(ss[k], es[k]) == Some(p))
    ensures Roused(ss, i, j, w) && p < |ss[j + 1].procs| && ss[j + 1].procs[p].pc == HasLk && ss[j + 1].lk == Some(p)
  {
    RousingUntil(ss, es, i, j, p);
    RunInv(ss, es, j);
    assert Enabled(ss[j], es[j]) && ss[j + 1] == Next(ss[j], es[j]);
    forall x: nat ensures ChanOk(ss[j], x) { RunChan(ss, es, j, x); }
    ScanStep(ss[j], es[j], p);
  }
}
