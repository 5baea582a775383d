/** kernel/proc.c: the per-CPU scheduler loop, swtch, yield, sleep and wakeup, as a transition
    system over several CPUs.  p->lock is held by a CPU and handed across swtch; one external
    lock lk guards a condition whose waiters sleep on one channel. */
module Scheduler {
  import opened Options
  import opened ProcStatus

  /** Where a process's kernel thread is. */
  datatype Pc =
    | AtForkret                 // never switched to; will start in forkret
    | InYield                   // inside yield's sched()
    | InSleep                   // inside sleep's sched()
    | Resumed                   // back from swtch in yield or forkret, own lock still held
    | Awake                     // back from swtch in sleep, own lock still held
    | Outside                   // holds neither its own lock nor lk
    | WantLk                    // sleep() is about to reacquire lk
    | HasLk                     // holds lk
    | SleepBoth                 // sleep() holds lk and its own lock
    | SleepOwn                  // sleep() has released lk, not yet SLEEPING
    | Scan(next: nat)           // wakeup() under lk, about to look at proc[next]
    | Gone                      // exited

  /** `on` remembers the CPU that last switched to the process; the kernel keeps no such field. */
  datatype Proc = Proc(st: Status, onChan: bool, pc: Pc, lock: Option<nat>, on: nat)

  datatype Mode = Idle | Looking(p: nat) | Running(p: nat) | Back(p: nat)
  datatype Cpu = Cpu(mode: Mode, proc: Option<nat>)

  datatype State = State(procs: seq<Proc>, cpus: seq<Cpu>, lk: Option<nat>, cond: bool)

  datatype Event =
    | SchedAcquire(c: nat, target: nat)
    | SchedSkip(c: nat)
    | SchedSwitch(c: nat)
    | SchedBack(c: nat)
    | ReleaseOwn(c: nat)
    | Yield(c: nat)
    | AcquireLk(c: nat)
    | ReleaseLk(c: nat)
    | Consume(c: nat)             // the condition becomes false
    | SleepLock(c: nat)           // sleep(): acquire p->lock
    | SleepUnlock(c: nat)         // sleep(): release lk
    | SleepSwitch(c: nat)         // sleep(): SLEEPING, sched()
    | Signal(c: nat)              // the condition becomes true, wakeup() begins
    | WakeOne(c: nat)             // wakeup(): one round of its loop
    | WakeDone(c: nat)
    | Exit(c: nat)
    | Fork(c: nat, target: nat)
    | Reap(target: nat)           // wait() frees a zombie
    | Kill(target: nat)           // any other wakeup

  predicate HoldsOwn(pc: Pc) { pc.Resumed? || pc.Awake? || pc.SleepBoth? || pc.SleepOwn? }
  predicate HoldsLk(pc: Pc) { pc.HasLk? || pc.SleepBoth? || pc.Scan? }
  predicate Parked(pc: Pc) { pc.AtForkret? || pc.InYield? || pc.InSleep? }

  /** The process CPU c is executing, if it is executing one with the given program counter. */
  predicate Runs(s: State, c: nat) {
    c < |s.cpus| && s.cpus[c].mode.Running? && s.cpus[c].mode.p < |s.procs|
  }

  function Cur(s: State, c: nat): Proc
    requires Runs(s, c)
  {
    s.procs[s.cpus[c].mode.p]
  }

  predicate Sees(s: State, c: nat) {
    c < |s.cpus| && s.cpus[c].mode.Looking? && s.cpus[c].mode.p < |s.procs|
  }

  predicate Enabled(s: State, e: Event) {
    match e
    case SchedAcquire(c, p) => c < |s.cpus| && s.cpus[c].mode == Idle && p < |s.procs| && s.procs[p].lock == None
    case SchedSkip(c) => Sees(s, c) && s.procs[s.cpus[c].mode.p].st != RUNNABLE
    case SchedSwitch(c) => Sees(s, c) && s.procs[s.cpus[c].mode.p].st == RUNNABLE
    case SchedBack(c) => c < |s.cpus| && s.cpus[c].mode.Back? && s.cpus[c].mode.p < |s.procs|
    case ReleaseOwn(c) => Runs(s, c) && (Cur(s, c).pc == Resumed || Cur(s, c).pc == Awake)
    case Yield(c) => Runs(s, c) && Cur(s, c).pc == Outside && Cur(s, c).lock == None
    case AcquireLk(c) => Runs(s, c) && (Cur(s, c).pc == Outside || Cur(s, c).pc == WantLk) && s.lk == None
    case ReleaseLk(c) => Runs(s, c) && Cur(s, c).pc == HasLk
    case Consume(c) => Runs(s, c) && Cur(s, c).pc == HasLk
    case SleepLock(c) => Runs(s, c) && Cur(s, c).pc == HasLk && !s.cond && Cur(s, c).lock == None
    case SleepUnlock(c) => Runs(s, c) && Cur(s, c).pc == SleepBoth
    case SleepSwitch(c) => Runs(s, c) && Cur(s, c).pc == SleepOwn
    case Signal(c) => Runs(s, c) && Cur(s, c).pc == HasLk
    case WakeOne(c) =>
      Runs(s, c) && Cur(s, c).pc.Scan? && Cur(s, c).pc.next < |s.procs| && s.procs[Cur(s, c).pc.next].lock == None
    case WakeDone(c) => Runs(s, c) && Cur(s, c).pc == Scan(|s.procs|)
    case Exit(c) => Runs(s, c) && Cur(s, c).pc == Outside && Cur(s, c).lock == None
    case Fork(c, q) =>
      Runs(s, c) && Cur(s, c).pc == Outside && q < |s.procs| && s.procs[q].lock == None && s.procs[q].st == UNUSED
    case Reap(q) => q < |s.procs| && s.procs[q].lock == None && s.procs[q].st == ZOMBIE
    case Kill(q) => q < |s.procs| && s.procs[q].lock == None && s.procs[q].st == SLEEPING
  }

  function SetProc(s: State, p: nat, x: Proc): State
    requires p < |s.procs|
  {
    s.(procs := s.procs[p := x])
  }

  function SetCpu(s: State, c: nat, x: Cpu): State
    requires c < |s.cpus|
  {
    s.(cpus := s.cpus[c := x])
  }

  function Resume(pc: Pc): Pc { if pc == InSleep then Awake else Resumed }

  function Next(s: State, e: Event): State
    requires Enabled(s, e)
  {
    match e
    case SchedAcquire(c, p) => SetCpu(SetProc(s, p, s.procs[p].(lock := Some(c))), c, Cpu(Looking(p), s.cpus[c].proc))
    case SchedSkip(c) =>
      var p := s.cpus[c].mode.p;
      SetCpu(SetProc(s, p, s.procs[p].(lock := None)), c, Cpu(Idle, s.cpus[c].proc))
    case SchedSwitch(c) =>
      var p := s.cpus[c].mode.p;
      SetCpu(SetProc(s, p, s.procs[p].(st := RUNNING, pc := Resume(s.procs[p].pc), on := c)), c,
             Cpu(Running(p), Some(p)))
    case SchedBack(c) =>
      var p := s.cpus[c].mode.p;
      SetCpu(SetProc(s, p, s.procs[p].(lock := None)), c, Cpu(Idle, None))
    case ReleaseOwn(c) =>
      var x := Cur(s, c);
      SetProc(s, s.cpus[c].mode.p,
              if x.pc == Awake then x.(onChan := false, lock := None, pc := WantLk)
              else x.(lock := None, pc := Outside))
    case Yield(c) =>
      var p := s.cpus[c].mode.p;
      SetCpu(SetProc(s, p, s.procs[p].(st := RUNNABLE, pc := InYield, lock := Some(c))), c,
             Cpu(Back(p), s.cpus[c].proc))
    case AcquireLk(c) => SetProc(s, s.cpus[c].mode.p, Cur(s, c).(pc := HasLk)).(lk := Some(s.cpus[c].mode.p))
    case ReleaseLk(c) => SetProc(s, s.cpus[c].mode.p, Cur(s, c).(pc := Outside)).(lk := None)
    case Consume(c) => s.(cond := false)
    case SleepLock(c) => SetProc(s, s.cpus[c].mode.p, Cur(s, c).(pc := SleepBoth, lock := Some(c)))
    case SleepUnlock(c) => SetProc(s, s.cpus[c].mode.p, Cur(s, c).(pc := SleepOwn)).(lk := None)
    case SleepSwitch(c) =>
      var p := s.cpus[c].mode.p;
      SetCpu(SetProc(s, p, s.procs[p].(st := SLEEPING, onChan := true, pc := InSleep)), c, Cpu(Back(p), s.cpus[c].proc))
    case Signal(c) => SetProc(s, s.cpus[c].mode.p, Cur(s, c).(pc := Scan(0))).(cond := true)
    case WakeOne(c) =>
      var p, q := s.cpus[c].mode.p, Cur(s, c).pc.next;
      var woken := if s.procs[q].st == SLEEPING && s.procs[q].onChan then s.procs[q].(st := RUNNABLE) else s.procs[q];
      var s1 := SetProc(s, q, woken);
      SetProc(s1, p, s1.procs[p].(pc := Scan(q + 1)))
    case WakeDone(c) => SetProc(s, s.cpus[c].mode.p, Cur(s, c).(pc := HasLk))
    case Exit(c) =>
      var p := s.cpus[c].mode.p;
      SetCpu(SetProc(s, p, s.procs[p].(st := ZOMBIE, pc := Gone, lock := Some(c))), c, Cpu(Back(p), s.cpus[c].proc))
    case Fork(c, q) => SetProc(s, q, s.procs[q].(st := RUNNABLE, pc := AtForkret, onChan := false))
    case Reap(q) => SetProc(s, q, s.procs[q].(st := UNUSED, onChan := false))
    case Kill(q) => SetProc(s, q, s.procs[q].(st := RUNNABLE))
  }

  // ----- Lock handoff -----

  ghost predicate CpuOk(s: State, c: nat)
    requires c < |s.cpus|
  {
    match s.cpus[c].mode
    case Idle => s.cpus[c].proc == None
    case Looking(p) => s.cpus[c].proc == None && p < |s.procs| && s.procs[p].lock == Some(c)
    case Running(p) =>
      && s.cpus[c].proc == Some(p) && p < |s.procs| && s.procs[p].on == c && s.procs[p].st == RUNNING
      && !Parked(s.procs[p].pc) && (s.procs[p].lock == Some(c) <==> HoldsOwn(s.procs[p].pc))
    case Back(p) =>
      s.cpus[c].proc == Some(p) && p < |s.procs| && s.procs[p].lock == Some(c) && s.procs[p].st != RUNNING
  }

  ghost predicate ProcOk(s: State, p: nat)
    requires p < |s.procs|
  {
    var x := s.procs[p];
    && (x.lock.Some? ==>
          && x.lock.value < |s.cpus|
          && var m := s.cpus[x.lock.value].mode; m == Looking(p) || m == Back(p) || (m == Running(p) && HoldsOwn(x.pc)))
    && (x.st == RUNNING ==> x.on < |s.cpus| && s.cpus[x.on].mode == Running(p))
    && (x.st == RUNNABLE || x.st == SLEEPING ==> Parked(x.pc))
    && (x.st == SLEEPING ==> x.pc == InSleep)
    && (x.st == ZOMBIE || x.st == UNUSED ==> x.pc == Gone)
  }

  ghost predicate Handoff(s: State) {
    && (forall c {:trigger CpuOk(s, c)} :: 0 <= c < |s.cpus| ==> CpuOk(s, c))
    && (forall p {:trigger ProcOk(s, p)} :: 0 <= p < |s.procs| ==> ProcOk(s, p))
  }

  predicate About(m: Mode, p: nat) { !m.Idle? && m.p == p }

  /** A step that touches one CPU and one process keeps the others consistent. */
  lemma HandoffFrame(s: State, s': State, c: nat, p: nat)
    requires Handoff(s) && c < |s.cpus| && p < |s.procs|
    requires |s'.cpus| == |s.cpus| && |s'.procs| == |s.procs|
    requires s'.cpus == s.cpus[c := s'.cpus[c]] && s'.procs == s.procs[p := s'.procs[p]]
    requires s.cpus[c].mode == Idle || s.cpus[c].mode.p == p
    requires CpuOk(s', c) && ProcOk(s', p)
    requires forall d :: 0 <= d < |s.cpus| && d != c && About(s.cpus[d].mode, p) ==> CpuOk(s', d)
    ensures Handoff(s')
  {
    forall d | 0 <= d < |s.cpus| ensures CpuOk(s', d) { assert CpuOk(s, d); }
    forall q | 0 <= q < |s.procs| ensures ProcOk(s', q) { assert ProcOk(s, q); }
  }

  /** A step on CPU c by the process or scheduler that CPU is running. */
  lemma HandoffOnCpu(s: State, e: Event)
    requires Handoff(s) && Enabled(s, e)
    requires !e.WakeOne? && !e.Fork? && !e.Reap? && !e.Kill? && !e.SchedAcquire?
    ensures Handoff(Next(s, e))
  {
    var s' := Next(s, e);
    var c := e.c;
    var p := s.cpus[c].mode.p;
    assert CpuOk(s, c) && ProcOk(s, p);
    forall d | 0 <= d < |s.cpus| && d != c && About(s.cpus[d].mode, p) ensures CpuOk(s', d) {
      assert CpuOk(s, d);
    }
    HandoffFrame(s, s', c, p);
  }

  lemma HandoffAcquire(s: State, c: nat, p: nat)
    requires Handoff(s) && Enabled(s, SchedAcquire(c, p))
    ensures Handoff(Next(s, SchedAcquire(c, p)))
  {
    var s' := Next(s, SchedAcquire(c, p));
    assert CpuOk(s, c) && ProcOk(s, p);
    forall d | 0 <= d < |s.cpus| && d != c && About(s.cpus[d].mode, p) ensures CpuOk(s', d) {
      assert CpuOk(s, d);
    }
    HandoffFrame(s, s', c, p);
  }

  /** Changing a process whose lock is free and that is not running. */
  lemma HandoffParked(s: State, q: nat, x: Proc)
    requires Handoff(s) && q < |s.procs| && s.procs[q].lock == None && s.procs[q].st != RUNNING
    requires x.lock == None && x.st != RUNNING
    requires x.st == RUNNABLE || x.st == SLEEPING ==> Parked(x.pc)
    requires x.st == SLEEPING ==> x.pc == InSleep
    requires x.st == ZOMBIE || x.st == UNUSED ==> x.pc == Gone
    ensures Handoff(SetProc(s, q, x))
  {
    var s' := SetProc(s, q, x);
    forall d | 0 <= d < |s.cpus| ensures CpuOk(s', d) { assert CpuOk(s, d); }
    forall r | 0 <= r < |s.procs| ensures ProcOk(s', r) { assert ProcOk(s, r); }
  }

  /** Moving the running process between points where it does not hold its own lock. */
  lemma HandoffPc(s: State, c: nat, pc: Pc)
    requires Handoff(s) && Runs(s, c) && !HoldsOwn(Cur(s, c).pc) && !HoldsOwn(pc) && !Parked(pc)
    ensures Handoff(SetProc(s, s.cpus[c].mode.p, Cur(s, c).(pc := pc)))
  {
    var p := s.cpus[c].mode.p;
    var s' := SetProc(s, p, Cur(s, c).(pc := pc));
    assert CpuOk(s, c) && ProcOk(s, p);
    forall d | 0 <= d < |s.cpus| && d != c && About(s.cpus[d].mode, p) ensures CpuOk(s', d) {
      assert CpuOk(s, d);
    }
    HandoffFrame(s, s', c, p);
  }

  lemma HandoffWakeOne(s: State, c: nat)
    requires Handoff(s) && Enabled(s, WakeOne(c))
    ensures Handoff(Next(s, WakeOne(c)))
  {
    var q := Cur(s, c).pc.next;
    assert CpuOk(s, c) && ProcOk(s, q);
    if s.procs[q].st == SLEEPING && s.procs[q].onChan {
      HandoffParked(s, q, s.procs[q].(st := RUNNABLE));
      HandoffPc(SetProc(s, q, s.procs[q].(st := RUNNABLE)), c, Scan(q + 1));
    } else {
      assert SetProc(s, q, s.procs[q]) == s;
      HandoffPc(s, c, Scan(q + 1));
    }
  }

  lemma HandoffStep(s: State, e: Event)
    requires Handoff(s) && Enabled(s, e)
    ensures Handoff(Next(s, e))
  {
    match e
    case WakeOne(c) => HandoffWakeOne(s, c);
    case SchedAcquire(c, p) => HandoffAcquire(s, c, p);
    case Fork(c, q) => HandoffParked(s, q, s.procs[q].(st := RUNNABLE, pc := AtForkret, onChan := false));
    case Reap(q) =>
      assert ProcOk(s, q);
      HandoffParked(s, q, s.procs[q].(st := UNUSED, onChan := false));
    case Kill(q) =>
      assert ProcOk(s, q);
      HandoffParked(s, q, s.procs[q].(st := RUNNABLE));
    case _ => HandoffOnCpu(s, e);
  }

  // ----- No lost wakeups -----

  /** lk is held by exactly the process whose program counter says so, and a process that still
      holds lk on its way to sleep has just seen the condition false. */
  ghost predicate LkOk(s: State) {
    && (s.lk.Some? ==> s.lk.value < |s.procs| && HoldsLk(s.procs[s.lk.value].pc))
    && (forall p :: 0 <= p < |s.procs| && HoldsLk(s.procs[p].pc) ==> s.lk == Some(p))
    && (forall p :: 0 <= p < |s.procs| && s.procs[p].pc == SleepBoth ==> !s.cond)
  }

  /** A wakeup scan under lk has yet to look at process w. */
  predicate Due(s: State, w: nat) {
    s.lk.Some? && s.lk.value < |s.procs| && s.procs[s.lk.value].pc.Scan? && s.procs[s.lk.value].pc.next <= w
  }

  predicate GoneToSleep(x: Proc) { x.pc == SleepOwn || (x.st == SLEEPING && x.onChan) }

  ghost predicate NoneLost(s: State) {
    s.cond ==> forall w :: 0 <= w < |s.procs| && GoneToSleep(s.procs[w]) ==> Due(s, w)
  }

  ghost predicate Inv(s: State) { Handoff(s) && LkOk(s) && NoneLost(s) }

  lemma WakeOneStep(s: State, c: nat)
    requires Inv(s) && Enabled(s, WakeOne(c))
    ensures LkOk(Next(s, WakeOne(c))) && NoneLost(Next(s, WakeOne(c)))
  {
    var s', q := Next(s, WakeOne(c)), Cur(s, c).pc.next;
    assert CpuOk(s, c) && ProcOk(s, q) && s.lk == Some(s.cpus[c].mode.p);
    assert !GoneToSleep(s'.procs[q]) by {
      if s.procs[q].st == RUNNING {
        assert CpuOk(s, s.procs[q].on);
      }
    }
    forall w | 0 <= w < |s.procs| && GoneToSleep(s'.procs[w]) && s'.cond ensures Due(s', w) {
      assert GoneToSleep(s.procs[w]);
    }
  }

  /** A step on one process that neither takes nor gives lk, nor goes to sleep. */
  lemma LkFrame(s: State, s': State, p: nat)
    requires LkOk(s) && NoneLost(s) && p < |s.procs| == |s'.procs|
    requires s'.procs == s.procs[p := s'.procs[p]] && s'.lk == s.lk && s'.cond == s.cond
    requires !HoldsLk(s.procs[p].pc) && !HoldsLk(s'.procs[p].pc)
    requires GoneToSleep(s'.procs[p]) ==> GoneToSleep(s.procs[p])
    ensures LkOk(s') && NoneLost(s')
  {
  }

  lemma QuietStep(s: State, e: Event)
    requires Inv(s) && Enabled(s, e)
    requires e.SchedAcquire? || e.SchedSkip? || e.SchedSwitch? || e.SchedBack? || e.ReleaseOwn? || e.Yield? || e.Exit?
             || e.Fork? || e.Reap? || e.Kill?
    ensures LkOk(Next(s, e)) && NoneLost(Next(s, e))
  {
    var s' := Next(s, e);
    if e.Fork? || e.Reap? || e.Kill? {
      assert ProcOk(s, e.target);
      LkFrame(s, s', e.target);
    } else if e.SchedAcquire? || e.SchedSkip? || e.SchedBack? {
      var p := if e.SchedAcquire? then e.target else s.cpus[e.c].mode.p;
      LockOnly(s, s', p);
    } else {
      var p := s.cpus[e.c].mode.p;
      assert CpuOk(s, e.c) && ProcOk(s, p);
      LkFrame(s, s', p);
    }
  }

  lemma LockOnly(s: State, s': State, p: nat)
    requires LkOk(s) && NoneLost(s) && p < |s.procs| == |s'.procs|
    requires s'.procs == s.procs[p := s.procs[p].(lock := s'.procs[p].lock)] && s'.lk == s.lk && s'.cond == s.cond
    ensures LkOk(s') && NoneLost(s')
  {
  }

  predicate LkEvent(e: Event) {
    || e.AcquireLk? || e.ReleaseLk? || e.Consume? || e.SleepLock?
    || e.SleepUnlock? || e.SleepSwitch? || e.Signal? || e.WakeDone?
  }

  lemma LkStep(s: State, e: Event)
    requires Inv(s) && Enabled(s, e)
    requires LkEvent(e)
    ensures LkOk(Next(s, e)) && NoneLost(Next(s, e))
  {
    assert CpuOk(s, e.c);
    if e.WakeDone? {
      assert forall w :: 0 <= w < |s.procs| ==> !Due(s, w);
    }
  }

  lemma StepKeepsInv(s: State, e: Event)
    requires Inv(s) && Enabled(s, e)
    ensures Inv(Next(s, e))
  {
    HandoffStep(s, e);
    match e
    case WakeOne(c) => WakeOneStep(s, c);
    case _ =>
      if LkEvent(e) {
        LkStep(s, e);
      } else {
        QuietStep(s, e);
      }
  }

  // ----- Whole runs -----

  predicate Fresh(x: Proc) {
    && x.lock == None && !x.onChan
    && (x.st == RUNNABLE ==> x.pc == AtForkret)
    && (x.st != RUNNABLE ==> x.st == UNUSED && x.pc == Gone)
  }

  /** Boot: every CPU idle in scheduler(), some processes runnable, no locks held. */
  predicate Init(s: State) {
    && s.lk == None
    && (forall c :: 0 <= c < |s.cpus| ==> s.cpus[c] == Cpu(Idle, None))
    && (forall p :: 0 <= p < |s.procs| ==> Fresh(s.procs[p]))
  }

  ghost predicate Run(ss: seq<State>, es: seq<Event>) {
    && |ss| == |es| + 1 && Init(ss[0])
    && forall i :: 0 <= i < |es| ==> Enabled(ss[i], es[i]) && ss[i + 1] == Next(ss[i], es[i])
  }

  lemma {:induction false} RunInv(ss: seq<State>, es: seq<Event>, i: nat)
    requires Run(ss, es) && i < |ss|
    ensures Inv(ss[i])
  {
    if i > 0 {
      RunInv(ss, es, i - 1);
      StepKeepsInv(ss[i - 1], es[i - 1]);
    }
  }

  predicate Current(s: State, c: int, p: nat) { 0 <= c < |s.cpus| && s.cpus[c].proc == Some(p) }

  /** In every reachable state, a process whose lock is free is RUNNING exactly when one CPU
      has it as its current process; two CPUs never do. */
  lemma RunningMeansOneCpu(ss: seq<State>, es: seq<Event>, i: nat, p: nat)
    requires Run(ss, es) && i < |ss| && p < |ss[i].procs|
    ensures forall c, d :: Current(ss[i], c, p) && Current(ss[i], d, p) ==> c == d
    ensures ss[i].procs[p].lock == None ==>
              (ss[i].procs[p].st == RUNNING <==> exists c :: Current(ss[i], c, p))
  {
    RunInv(ss, es, i);
    var s := ss[i];
    assert ProcOk(s, p);
    forall c, d | Current(s, c, p) && Current(s, d, p) ensures c == d { assert CpuOk(s, c) && CpuOk(s, d); }
    forall c | Current(s, c, p) && s.procs[p].lock == None ensures s.procs[p].st == RUNNING { assert CpuOk(s, c); }
    if s.procs[p].st == RUNNING {
      assert CpuOk(s, s.procs[p].on);
      assert Current(s, s.procs[p].on, p);
    }
  }

  /** In every reachable state, a process asleep on the channel while the condition is true has
      a wakeup scan still due to reach it; once no scan is under way, nobody sleeps through it. */
  lemma NoLostWakeup(ss: seq<State>, es: seq<Event>, i: nat, w: nat)
    requires Run(ss, es) && i < |ss| && w < |ss[i].procs|
    requires ss[i].cond && ss[i].procs[w].st == SLEEPING && ss[i].procs[w].onChan
    ensures exists q :: 0 <= q < |ss[i].procs| && ss[i].procs[q].pc.Scan? && ss[i].procs[q].pc.next <= w
  {
    RunInv(ss, es, i);
    assert Due(ss[i], w);
    assert ss[i].procs[ss[i].lk.value].pc.Scan?;
  }
}
