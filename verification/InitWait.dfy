/** kernel/proc.c: why init is excepted.  A run in which init goes on sleeping in wait beside a
    zombie it has adopted: the exiting process woke init before it handed its zombie child over,
    and init had gone back to sleep by then. */
module InitWait {
  import opened ExitWait
  import opened Options
  import opened ProcStatus

  ghost predicate StepAt(ss: seq<State>, es: seq<Event>, i: nat) {
    i < |es| && i + 1 < |ss| ==> Enabled(ss[i], 0, es[i]) && ss[i + 1] == Next(ss[i], 0, es[i])
  }

  /** The events lead through the states ss, process 0 being init. */
  ghost predicate Path(ss: seq<State>, es: seq<Event>) {
    |ss| == |es| + 1 && forall i {:trigger StepAt(ss, es, i)} :: StepAt(ss, es, i)
  }

  ghost predicate Joins(ss: seq<State>, es: seq<Event>, s: State, t: State) {
    Path(ss, es) && ss[0] == s && ss[|es|] == t
  }

  /** From s the events lead to t. */
  ghost predicate Leads(s: State, es: seq<Event>, t: State) { exists ss :: Joins(ss, es, s, t) }

  lemma One(s: State, e: Event, t: State)
    requires Enabled(s, 0, e) && Next(s, 0, e) == t
    ensures Leads(s, [e], t)
  {
    var ss := [s, t];
    forall i: nat ensures StepAt(ss, [e], i) { }
    assert Joins(ss, [e], s, t);
  }

  lemma Stay(s: State)
    ensures Leads(s, [], s)
  {
    var ss := [s];
    forall i: nat ensures StepAt(ss, [], i) { }
    assert Joins(ss, [], s, s);
  }

  lemma Then(s: State, es: seq<Event>, t: State, fs: seq<Event>, u: State)
    requires Leads(s, es, t) && Leads(t, fs, u)
    ensures Leads(s, es + fs, u)
  {
    var ss :| Joins(ss, es, s, t);
    var ts :| Joins(ts, fs, t, u);
    var us, gs := ss + ts[1..], es + fs;
    forall i: nat ensures StepAt(us, gs, i) { StepThen(ss, es, ts, fs, i); }
    assert Joins(us, gs, s, u);
  }

  lemma StepThen(ss: seq<State>, es: seq<Event>, ts: seq<State>, fs: seq<Event>, i: nat)
    requires Path(ss, es) && Path(ts, fs) && ss[|es|] == ts[0]
    ensures StepAt(ss + ts[1..], es + fs, i)
  {
    if i < |es| { assert StepAt(ss, es, i); } else { assert StepAt(ts, fs, i - |es|); }
  }

  // ----- The four processes -----

  function Nothing(): Proc { Proc(UNUSED, None, Nobody, false, Unused, 0, 0, None) }
  function New(parent: Option<nat>): Proc { Proc(RUNNABLE, parent, Nobody, false, Parked, 0, 0, None) }
  function Live(parent: Option<nat>, pc: Pc): Proc { Proc(RUNNING, parent, Nobody, false, pc, 0, 0, None) }
  function Sleeper(lock: Owner): Proc { Proc(SLEEPING, None, lock, true, InWait, 0, 0, None) }
  function Gone(parent: nat, woke: nat, lock: Owner, pc: Pc): Proc {
    Proc(ZOMBIE, Some(parent), lock, false, pc, 1, 0, Some(woke))
  }

  /** Process 0 is init, 1 its child, 2 the child of 1, and 3 the child of 2. */
  function Alive(): State { [Live(None, User), Live(Some(0), User), Live(Some(1), User), Live(Some(2), User)] }

  /** The scheduler picks a new process and it reaches user code. */
  lemma Runs(s: State, p: nat, parent: Option<nat>) returns (es: seq<Event>)
    requires 0 < |s| && p < |s| && s[p] == New(parent)
    ensures Leads(s, es, s[p := Live(parent, User)])
  {
    var x := s[p].(st := RUNNING, lock := By(p), pc := Resumed);
    One(s, Resume(p), s[p := x]);
    One(s[p := x], ReleaseOwn(p), s[p := Live(parent, User)]);
    assert s[p := x][p := Live(parent, User)] == s[p := Live(parent, User)];
    es := [Resume(p)] + [ReleaseOwn(p)];
    Then(s, [Resume(p)], s[p := x], [ReleaseOwn(p)], s[p := Live(parent, User)]);
  }

  /** fork, and the child runs. */
  lemma Forks(s: State, p: nat, c: nat) returns (es: seq<Event>)
    requires 0 < |s| && p < |s| && c < |s| && p != c && s[p].pc == User && s[c] == Nothing()
    ensures Leads(s, es, s[c := Live(Some(p), User)])
  {
    var t := s[c := New(Some(p))];
    One(s, Fork(p, c), t);
    var fs := Runs(t, c, Some(p));
    assert t[c := Live(Some(p), User)] == s[c := Live(Some(p), User)];
    es := [Fork(p, c)] + fs;
    Then(s, [Fork(p, c)], t, fs, s[c := Live(Some(p), User)]);
  }

  lemma Grows(s: State) returns (es: seq<Event>)
    requires |s| == 4 && Boot(s, 0)
    ensures Leads(s, es, Alive())
  {
    var e1 := Runs(s, 0, None);
    var s1 := [Live(None, User), Nothing(), Nothing(), Nothing()];
    assert s[0 := Live(None, User)] == s1;
    var e2 := Descend(s1);
    Then(s, e1, s1, e2, Alive());
    es := e1 + e2;
  }

  lemma Descend(s1: State) returns (es: seq<Event>)
    requires s1 == [Live(None, User), Nothing(), Nothing(), Nothing()]
    ensures Leads(s1, es, Alive())
  {
    var s2, s3 := s1[1 := Live(Some(0), User)], s1[1 := Live(Some(0), User)][2 := Live(Some(1), User)];
    var e2 := Forks(s1, 0, 1);
    var e3 := Forks(s2, 1, 2);
    Then(s1, e2, s2, e3, s3);
    var e4 := Forks(s3, 2, 3);
    assert s3[3 := Live(Some(2), User)] == Alive();
    Then(s1, e2 + e3, s3, e4, Alive());
    es := e2 + e3 + e4;
  }

  // ----- exit -----

  /** The exit of p, which has read its parent o, up to the end of reparent's loop. */
  function Held(s: State, p: nat, o: nat, next: nat): State
    requires p < |s| && o < |s|
  {
    s[o := s[o].(lock := By(p))][p := s[p].(lock := By(p), pc := Giving(o, next))]
  }

  function Orphan(s: State, p: nat, q: nat): State
    requires q < |s|
  {
    if s[q].parent == Some(p) then s[q := s[q].(parent := Some(0))] else s
  }

  function Orphans(s: State, p: nat, n: nat): (t: State)
    requires n <= |s|
    ensures |t| == |s|
    ensures forall q :: 0 <= q < |s| ==>
      t[q] == if q < n && s[q].parent == Some(p) then s[q].(parent := Some(0)) else s[q]
  {
    if n == 0 then s else Orphan(Orphans(s, p, n - 1), p, n - 1)
  }

  /** reparent's loop at its n-th round. */
  function Round(s: State, p: nat, o: nat, n: nat): State
    requires p < |s| && o < |s| && n <= |s|
  {
    Held(Orphans(s, p, n), p, o, n)
  }

  predicate Ready(s: State, p: nat, o: nat) {
    && p < |s| && o < |s| && p != o && s[p].parent != Some(p) && s[o].parent != Some(p)
    && forall q :: 0 <= q < |s| ==> s[q].lock == Nobody
  }

  lemma GivesOne(s: State, p: nat, o: nat, n: nat)
    requires Ready(s, p, o) && n < |s|
    ensures Leads(Round(s, p, o, n), [GiveOne(p)], Round(s, p, o, n + 1))
  {
    var a, b := Round(s, p, o, n), Round(s, p, o, n + 1);
    assert forall q :: 0 <= q < |s| ==> Next(a, 0, GiveOne(p))[q] == b[q];
    assert Next(a, 0, GiveOne(p)) == b;
    One(a, GiveOne(p), b);
  }

  lemma {:induction false} Gives(s: State, p: nat, o: nat, n: nat) returns (es: seq<Event>)
    requires Ready(s, p, o) && n <= |s|
    ensures Leads(Round(s, p, o, 0), es, Round(s, p, o, n))
  {
    if n == 0 {
      es := [];
      Stay(Round(s, p, o, 0));
    } else {
      var fs := Gives(s, p, o, n - 1);
      GivesOne(s, p, o, n - 1);
      Then(Round(s, p, o, 0), fs, Round(s, p, o, n - 1), [GiveOne(p)], Round(s, p, o, n));
      es := fs + [GiveOne(p)];
    }
  }

  /** exit from where original_parent is read to where both locks are held. */
  lemma Locks(s: State, p: nat, o: nat) returns (es: seq<Event>)
    requires 0 < |s| && p < |s| && o < |s| && p != o && s[p] == Live(Some(o), WokeInit)
    requires forall q :: 0 <= q < |s| ==> s[q].lock == Nobody
    ensures Leads(s, es, Held(s, p, o, 0))
  {
    var s1 := s[p := s[p].(pc := KnowsParent(o))];
    var s2 := s1[o := s1[o].(lock := By(p))][p := s1[p].(pc := HasParent(o))];
    One(s, ExitReadParent(p), s1);
    One(s1, ExitLockParent(p), s2);
    assert s2[p := s2[p].(lock := By(p), pc := Giving(o, 0))] == Held(s, p, o, 0);
    One(s2, ExitLockSelf(p), Held(s, p, o, 0));
    Then(s, [ExitReadParent(p)], s1, [ExitLockParent(p)], s2);
    Then(s, [ExitReadParent(p)] + [ExitLockParent(p)], s2, [ExitLockSelf(p)], Held(s, p, o, 0));
    es := [ExitReadParent(p)] + [ExitLockParent(p)] + [ExitLockSelf(p)];
  }

  /** The parent, which does not sleep in wait, is not changed by wakeup1. */
  lemma BecomesZombie(s: State, p: nat, o: nat)
    requires 0 < |s| && p < |s| && o < |s| && p != o && s[p] == Live(Some(o), WokeInit) && s[o].lock == Nobody
    requires !s[o].inWait
    ensures Leads(Held(s, p, o, |s|), [ExitZombie(p)] + [ExitUnlockParent(p)], s[p := Gone(o, o, By(p), Leaving)])
  {
    var t := Held(s, p, o, |s|);
    var s1, s2 := t[p := Gone(o, o, By(p), Zombie(o))], s[p := Gone(o, o, By(p), Leaving)];
    assert Next(t, 0, ExitZombie(p)) == s1;
    One(t, ExitZombie(p), s1);
    assert Next(s1, 0, ExitUnlockParent(p)) == s2;
    One(s1, ExitUnlockParent(p), s2);
    Then(t, [ExitZombie(p)], s1, [ExitUnlockParent(p)], s2);
  }

  lemma LeavesStack(s: State, p: nat, o: nat)
    requires 0 < |s| && p < |s|
    ensures Leads(s[p := Gone(o, o, By(p), Leaving)], [ExitSwitch(p)] + [SchedRelease(p)],
                  s[p := Gone(o, o, Nobody, Dead)])
  {
    var s2, s3 := s[p := Gone(o, o, By(p), Leaving)], s[p := Gone(o, o, Sched, Dead)];
    var s4 := s[p := Gone(o, o, Nobody, Dead)];
    One(s2, ExitSwitch(p), s3);
    One(s3, SchedRelease(p), s4);
    Then(s2, [ExitSwitch(p)], s3, [SchedRelease(p)], s4);
  }

  lemma Dies(s: State, p: nat, o: nat) returns (es: seq<Event>)
    requires 0 < |s| && p < |s| && o < |s| && p != o && s[p] == Live(Some(o), WokeInit) && s[o].lock == Nobody
    requires !s[o].inWait
    ensures Leads(Held(s, p, o, |s|), es, s[p := Gone(o, o, Nobody, Dead)])
  {
    var e1, e2 := [ExitZombie(p)] + [ExitUnlockParent(p)], [ExitSwitch(p)] + [SchedRelease(p)];
    BecomesZombie(s, p, o);
    LeavesStack(s, p, o);
    Then(Held(s, p, o, |s|), e1, s[p := Gone(o, o, By(p), Leaving)], e2, s[p := Gone(o, o, Nobody, Dead)]);
    es := e1 + e2;
  }

  /** A whole exit past the wakeup of init: the children go to init, the parent is in user code. */
  lemma Exits(s: State, p: nat, o: nat) returns (es: seq<Event>)
    requires 0 < |s| && p < |s| && o < |s| && p != o && s[p] == Live(Some(o), WokeInit) && !s[o].inWait
    requires forall q :: 0 <= q < |s| ==> s[q].lock == Nobody
    requires s[o].parent != Some(p)
    ensures Leads(s, es, Orphans(s, p, |s|)[p := Gone(o, o, Nobody, Dead)])
  {
    var e1 := Locks(s, p, o);
    var e2 := Gives(s, p, o, |s|);
    var t := Orphans(s, p, |s|);
    Then(s, e1, Held(s, p, o, 0), e2, Held(t, p, o, |s|));
    var e3 := Dies(t, p, o);
    Then(s, e1 + e2, Held(t, p, o, |s|), e3, t[p := Gone(o, o, Nobody, Dead)]);
    es := e1 + e2 + e3;
  }

  // ----- init's wait -----

  /** init scans the table, finds a living child and no zombie, and goes to sleep. */
  lemma Sleeps(s: State) returns (es: seq<Event>)
    requires |s| == 4 && s[0] == Live(None, User) && s[1].parent == Some(0) && s[1].st == RUNNING && s[1].lock == Nobody
    requires s[2].parent != Some(0) && s[3].parent != Some(0)
    ensures Leads(s, es, s[0 := Sleeper(Nobody)])
  {
    var es1 := Scans(s);
    var t := s[0 := s[0].(lock := By(0), pc := Waiting(4, true))];
    One(t, WaitSleep(0), s[0 := Sleeper(Sched)]);
    One(s[0 := Sleeper(Sched)], SchedRelease(0), s[0 := Sleeper(Nobody)]);
    Then(s, es1, t, [WaitSleep(0)], s[0 := Sleeper(Sched)]);
    Then(s, es1 + [WaitSleep(0)], s[0 := Sleeper(Sched)], [SchedRelease(0)], s[0 := Sleeper(Nobody)]);
    es := es1 + [WaitSleep(0)] + [SchedRelease(0)];
  }

  function Scanning(s: State, next: nat, kids: bool): State
    requires 0 < |s|
  {
    s[0 := s[0].(lock := By(0), pc := Waiting(next, kids))]
  }

  lemma Scans(s: State) returns (es: seq<Event>)
    requires |s| == 4 && s[0] == Live(None, User) && s[1].parent == Some(0) && s[1].st == RUNNING && s[1].lock == Nobody
    requires s[2].parent != Some(0) && s[3].parent != Some(0)
    ensures Leads(s, es, Scanning(s, 4, true))
  {
    var w := WaitSkip(0);
    One(s, WaitBegin(0), Scanning(s, 0, false));
    One(Scanning(s, 0, false), w, Scanning(s, 1, false));
    One(Scanning(s, 1, false), w, Scanning(s, 2, true));
    One(Scanning(s, 2, true), w, Scanning(s, 3, true));
    One(Scanning(s, 3, true), w, Scanning(s, 4, true));
    Then(s, [WaitBegin(0)], Scanning(s, 0, false), [w], Scanning(s, 1, false));
    Then(s, [WaitBegin(0)] + [w], Scanning(s, 1, false), [w], Scanning(s, 2, true));
    Then(s, [WaitBegin(0)] + [w] + [w], Scanning(s, 2, true), [w], Scanning(s, 3, true));
    Then(s, [WaitBegin(0)] + [w] + [w] + [w], Scanning(s, 3, true), [w], Scanning(s, 4, true));
    es := [WaitBegin(0)] + [w] + [w] + [w] + [w];
  }

  // ----- The run -----

  /** 3 exits and is a zombie of 2; 2 begins to exit and wakes init, which scans, finds no zombie of
      its own and sleeps; 2 hands 3 to init and dies, waking 1. */
  function Stuck(): State {
    [Sleeper(Nobody), Live(Some(0), User), Gone(1, 1, Nobody, Dead), Gone(0, 2, Nobody, Dead)]
  }

  lemma ReachesStuck(s: State) returns (es: seq<Event>)
    requires |s| == 4 && Boot(s, 0)
    ensures Leads(s, es, Stuck())
  {
    var e1 := Grows(s);
    var e2 := LastExit();
    Then(s, e1, Alive(), e2, Stuck());
    es := e1 + e2;
  }

  function Childless(): State { [Live(None, User), Live(Some(0), User), Live(Some(1), User), Gone(2, 2, Nobody, Dead)] }
  function Asleep(): State { [Sleeper(Nobody), Live(Some(0), User), Live(Some(1), WokeInit), Gone(2, 2, Nobody, Dead)] }

  lemma ChildExits() returns (es: seq<Event>)
    ensures Leads(Alive(), es, Childless())
  {
    var t := Alive()[3 := Live(Some(2), WokeInit)];
    One(Alive(), ExitWakeInit(3), t);
    var fs := Exits(t, 3, 2);
    assert Orphans(t, 3, 4)[3 := Gone(2, 2, Nobody, Dead)] == Childless();
    es := [ExitWakeInit(3)] + fs;
    Then(Alive(), [ExitWakeInit(3)], t, fs, Childless());
  }

  lemma InitSleeps() returns (es: seq<Event>)
    ensures Leads(Childless(), es, Asleep())
  {
    var t := Childless()[2 := Live(Some(1), WokeInit)];
    One(Childless(), ExitWakeInit(2), t);
    var fs := Sleeps(t);
    assert t[0 := Sleeper(Nobody)] == Asleep();
    es := [ExitWakeInit(2)] + fs;
    Then(Childless(), [ExitWakeInit(2)], t, fs, Asleep());
  }

  lemma LastExit() returns (es: seq<Event>)
    ensures Leads(Alive(), es, Stuck())
  {
    var e1 := ChildExits();
    var e2 := InitSleeps();
    var e3 := Exits(Asleep(), 2, 1);
    assert Orphans(Asleep(), 2, 4)[2 := Gone(1, 1, Nobody, Dead)] == Stuck();
    Then(Alive(), e1, Childless(), e2, Asleep());
    Then(Alive(), e1 + e2, Asleep(), e3, Stuck());
    es := e1 + e2 + e3;
  }

  /** The exception is real: a run ends with init asleep in wait, a zombie child of init, every lock
      free and nobody in exit who might still wake init. */
  lemma InitSleepsBesideZombie(s: State) returns (ss: seq<State>, es: seq<Event>)
    requires |s| == 4 && Boot(s, 0)
    ensures Run(0, ss, es) && ss[0] == s
    ensures var t := ss[|es|];
      && |t| == 4 && t[0].st == SLEEPING && t[0].inWait && t[3].st == ZOMBIE && t[3].parent == Some(0)
      && t[3].woke == Some(2)
      && forall p :: 0 <= p < 4 ==> t[p].lock == Nobody && (t[p].pc == Dead || t[p].pc == User || t[p].pc == InWait)
  {
    es := ReachesStuck(s);
    ss :| Joins(ss, es, s, Stuck());
    forall i | 0 <= i < |es| ensures Enabled(ss[i], 0, es[i]) && ss[i + 1] == Next(ss[i], 0, es[i]) {
      assert StepAt(ss, es, i);
    }
  }
}
