/** That commit and recovery finish what they begin (kernel/log.c): left to itself, the log ends up
    running and empty, with the whole group on disk. */
module LogProgress {
  import opened LogFormat
  import opened LogProtocol
  import opened Params

  /** The next step of the committing thread, or of the boot that recovers. */
  function Own(s: State): Event {
    match s.pc
    case WritingLog(t) => if t < |s.lh| then WriteLogBlock else WriteHead
    case Installing(t) => if t < |s.lh| then InstallBlock else EraseHead
    case Booting => ReadHead
    case Recovering(t) => if t < |s.lh| then RecoverBlock else RecoverErase
    case _ => CommitDone
  }

  /** How many such steps are left. */
  ghost function Work(l: Layout, s: State): int
    requires HeaderOk(l, s.disk)
  {
    match s.pc
    case Running => 0
    case WritingLog(t) => 2 * |s.lh| - t + 3
    case Installing(t) => |s.lh| - t + 2
    case Finishing => 1
    case Booting => |Head(l, s.disk)| + 2
    case Recovering(t) => |s.lh| - t + 1
  }

  /** The blocks once everything under way is done: a commit that has begun brings its group. */
  ghost function Settled(l: Layout, s: State): map<int, Block>
    requires HeaderOk(l, s.disk)
  {
    if s.pc.WritingLog? then Durable(l, s.disk) + s.cache else Durable(l, s.disk)
  }

  /** That step can be taken, brings the end nearer and loses nothing. */
  lemma OwnStep(l: Layout, budget: nat, s: State)
    requires l.size == LOGSIZE && budget < MAXOPBLOCKS && Inv(l, budget, s) && s.pc != Running
    ensures Moves(l, budget, s, Own(s), Next(l, s, Own(s))) && Inv(l, budget, Next(l, s, Own(s)))
    ensures 0 <= Work(l, Next(l, s, Own(s))) < Work(l, s)
    ensures Settled(l, Next(l, s, Own(s))) == Settled(l, s)
    ensures Next(l, s, Own(s)).ops == s.ops == []
  {
    StepRefines(l, budget, s, Own(s));
  }

  /** From s on, undisturbed, the machine gets to t. */
  ghost predicate Leads(l: Layout, budget: nat, ss: seq<State>, es: seq<Event>, s: State, t: State) {
    && |ss| == |es| + 1 && ss[0] == s && ss[|es|] == t
    && forall k {:trigger OwnAt(l, budget, ss, es, k)} :: OwnAt(l, budget, ss, es, k)
  }

  ghost predicate OwnAt(l: Layout, budget: nat, ss: seq<State>, es: seq<Event>, k: nat) {
    k < |es| && k + 1 < |ss| ==> es[k] == Own(ss[k]) && Moves(l, budget, ss[k], es[k], ss[k + 1])
  }

  /** Running, with an empty log and nothing left of a commit. */
  predicate AtRest(s: State) { s.pc == Running && s.lh == [] && s.cache == map[] && s.ops == [] && !s.committing }

  lemma {:induction false} Finishes(l: Layout, budget: nat, s: State)
    returns (ss: seq<State>, es: seq<Event>, t: State)
    requires l.size == LOGSIZE && budget < MAXOPBLOCKS && Inv(l, budget, s) && s.pc != Running
    ensures Leads(l, budget, ss, es, s, t) && Inv(l, budget, t) && AtRest(t) && Durable(l, t.disk) == Settled(l, s)
    decreases Work(l, s)
  {
    OwnStep(l, budget, s);
    var u := Next(l, s, Own(s));
    if u.pc == Running {
      ss, es, t := [s, u], [Own(s)], u;
      Rests(l, budget, s);
    } else {
      var us, fs;
      us, fs, t := Finishes(l, budget, u);
      ss, es := [s] + us, [Own(s)] + fs;
      forall k: nat ensures OwnAt(l, budget, ss, es, k) {
        if 0 < k < |es| { assert OwnAt(l, budget, us, fs, k - 1); }
      }
    }
  }

  lemma Rests(l: Layout, budget: nat, s: State)
    requires l.size == LOGSIZE && budget < MAXOPBLOCKS && Inv(l, budget, s) && s.pc != Running
    requires InRange(l, s, Own(s)) && Next(l, s, Own(s)).pc == Running
    ensures AtRest(Next(l, s, Own(s)))
  {
  }

  /** The last end_op starts the commit, and undisturbed that commit makes the whole group durable and
      leaves the log empty. */
  lemma LastEndCommits(l: Layout, budget: nat, s: State)
    returns (ss: seq<State>, es: seq<Event>, t: State)
    requires l.size == LOGSIZE && budget < MAXOPBLOCKS && Inv(l, budget, s)
    requires |s.ops| == 1 && Enabled(l, budget, s, EndOp(0))
    ensures InRange(l, s, EndOp(0)) && Leads(l, budget, ss, es, Next(l, s, EndOp(0)), t) && AtRest(t)
    ensures HeaderOk(l, t.disk) && Durable(l, t.disk) == Durable(l, s.disk) + s.cache
    ensures s.lh == [] ==> es == [CommitDone] && t.disk == s.disk
  {
    StepRefines(l, budget, s, EndOp(0));
    var u := Next(l, s, EndOp(0));
    if s.lh == [] {
      assert s.cache.Keys == {};
      assert Durable(l, s.disk) + s.cache == Durable(l, s.disk);
      t := Next(l, u, CommitDone);
      ss, es := [u, t], [CommitDone];
      OwnStep(l, budget, u);
    } else {
      ss, es, t := Finishes(l, budget, u);
    }
  }

  /** After any crash the next boot, undisturbed, gets the machine running with the same blocks. */
  lemma BootRecovers(l: Layout, budget: nat, s: State) returns (ss: seq<State>, es: seq<Event>, t: State)
    requires l.size == LOGSIZE && budget < MAXOPBLOCKS && Inv(l, budget, s)
    ensures InRange(l, s, Crash) && Leads(l, budget, ss, es, Next(l, s, Crash), t) && AtRest(t)
    ensures HeaderOk(l, t.disk) && Durable(l, t.disk) == Durable(l, s.disk)
  {
    StepRefines(l, budget, s, Crash);
    ss, es, t := Finishes(l, budget, Next(l, s, Crash));
  }

  /** begin_op admits an operation exactly if ten blocks for each open one still fit: three at once into
      an empty log.  With nobody inside the log is at rest, so it never waits for a commit that nobody
      will start. */
  lemma Admits(l: Layout, budget: nat, s: State)
    requires l.size == LOGSIZE && budget < MAXOPBLOCKS && Inv(l, budget, s) && s.pc == Running && !s.committing
    ensures Enabled(l, budget, s, BeginOp) <==> |s.lh| + 10 * (|s.ops| + 1) <= 30
    ensures s.lh == [] ==> (Enabled(l, budget, s, BeginOp) <==> |s.ops| < 3)
    ensures s.ops == [] ==> AtRest(s) && Enabled(l, budget, s, BeginOp)
  {
    if s.ops == [] { assert s.cache.Keys == {}; }
  }
}
