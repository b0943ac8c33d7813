/** When the setup protocol makes progress, when it is deadlocked, and why it cannot run
    forever on its own. */
module SetupProgress {
  import opened Graphs
  import opened Loader
  import opened Setup
  import opened SetupRuns

  /** A step of a task, as opposed to a new call or announcement from outside. */
  predicate Internal(step: Step) {
    !step.AnnounceLoad? && !step.Call? && !step.PlatformProcessed?
  }

  /** No task can move on. */
  ghost predicate Quiescent(repo: Repository, s: State) {
    forall step :: Internal(step) ==> !Enabled(repo, s, step)
  }

  // ------------------------------------------------------------------ stuck states

  predicate Waits(s: State, d: Domain, x: Domain) {
    WaitsForDep(s, d, x) || WaitsForAfter(s, d, x)
  }

  lemma TaskIsAlive(repo: Repository, s: State, d: Domain)
    requires Inv(repo, s) && d in s.tasks
    ensures Alive(s, d) && (s.tasks[d].phase.Collecting? ==> d in repo)
  {
    assert TaskInv(repo, s, d);
    assert d in s.loadFutures ==> LoadInv(s, d);
  }

  lemma WaitsAreFutures(repo: Repository, s: State, d: Domain)
    requires Inv(repo, s) && d in s.tasks && s.tasks[d].phase.Waiting?
    ensures forall x :: x in s.tasks[d].phase.waits ==> s.tasks[d].phase.waits[x] < |s.futures|
    ensures forall x :: x in s.tasks[d].phase.afters ==> s.tasks[d].phase.afters[x] < |s.futures|
  {
    assert TaskInv(repo, s, d);
  }

  lemma QuiescentTaskWaits(repo: Repository, s: State, d: Domain) returns (x: Domain)
    requires Inv(repo, s) && Quiescent(repo, s) && d in s.tasks
    ensures Waits(s, d, x)
  {
    hide Inv;
    TaskIsAlive(repo, s, d);
    assert !Enabled(repo, s, Fetched(d, false)) && !Enabled(repo, s, CollectNext(d));
    assert !Enabled(repo, s, CollectAfters(d)) && !Enabled(repo, s, Wake(d));
    assert !Enabled(repo, s, AwaitRaises(d, true)) && !Enabled(repo, s, Installed(d, true))
      && !Enabled(repo, s, Imported(d, true));
    assert !Enabled(repo, s, BodyReturned(d, true)) && !Enabled(repo, s, EntriesDone(d));
    var p := s.tasks[d].phase;
    assert p.Waiting?;
    WaitsAreFutures(repo, s, d);
    if !AllDone(s, p.waits) {
      x :| x in p.waits && !IsDone(s, p.waits[x]);
    } else {
      x :| x in p.afters && !IsDone(s, p.afters[x]);
    }
  }

  function WaitGraph(s: State): Graph {
    map d | d in s.tasks :: set x | x in s.tasks && Waits(s, d, x)
  }

  ghost predicate WaitCycleIn(s: State, p: seq<Domain>) {
    |p| > 1 && WaitPath(s, p) && p[0] == p[|p| - 1]
  }

  ghost predicate AfterAt(s: State, p: seq<Domain>, i: nat) {
    i < |p| - 1 && WaitsForAfter(s, p[i], p[i + 1])
  }

  /** The walk uses two different waits for an after-dependency. */
  ghost predicate TwoAfterWaits(s: State, p: seq<Domain>) {
    exists i: nat, j: nat :: AfterAt(s, p, i) && AfterAt(s, p, j) && (p[i] != p[j] || p[i + 1] != p[j + 1])
  }

  lemma {:induction false} AfterPosition(s: State, p: seq<Domain>) returns (i: nat)
    requires WaitPath(s, p) && AfterEdges(s, p) > 0
    ensures i < |p| - 1 && WaitsForAfter(s, p[i], p[i + 1])
    ensures AfterEdges(s, p[i + 1..]) == AfterEdges(s, p) - 1
    decreases |p|
  {
    if WaitsForDep(s, p[0], p[1]) {
      i := AfterPosition(s, p[1..]);
      i := i + 1;
      assert p[1..][i..] == p[i + 1..];
    } else {
      i := 0;
    }
  }

  lemma SubwalkAfterWaits(s: State, p: seq<Domain>, i: nat, j: nat)
    requires i <= j <= |p| && TwoAfterWaits(s, p[i..j])
    ensures TwoAfterWaits(s, p)
  {
    hide WaitsForAfter;
    var q := p[i..j];
    var a: nat, b: nat :| AfterAt(s, q, a) && AfterAt(s, q, b) && (q[a] != q[b] || q[a + 1] != q[b + 1]);
    assert q[a] == p[i + a] && q[a + 1] == p[i + a + 1] && q[b] == p[i + b] && q[b + 1] == p[i + b + 1];
    assert AfterAt(s, p, i + a) && AfterAt(s, p, i + b);
  }

  lemma TwoPositions(s: State, p: seq<Domain>) returns (i: nat, j: nat)
    requires WaitPath(s, p) && AfterEdges(s, p) >= 2
    ensures i < j < |p| && AfterAt(s, p, i) && AfterAt(s, p, j)
  {
    i := AfterPosition(s, p);
    var k := AfterPosition(s, p[i + 1..]);
    j := i + 1 + k;
    assert p[j] == p[i + 1..][k] && p[j + 1] == p[i + 1..][k + 1];
  }

  /** A closed walk of waits contains two different after-waits or a domain that waits for
      itself. */
  lemma {:induction false} CycleDefect(repo: Repository, s: State, p: seq<Domain>)
    requires Inv(repo, s) && WaitCycleIn(s, p)
    ensures TwoAfterWaits(s, p) || exists d :: WaitsForAfter(s, d, d)
    decreases |p|
  {
    hide Inv, AfterEdges, WaitPath;
    WaitCycle(repo, s, p);
    if AfterEdges(s, p) >= 2 {
      var i, j := TwoPositions(s, p);
      if p[i] == p[j] && p[i + 1] == p[j + 1] {
        SubwalkIsCycle(s, p, i, j);
        CycleDefect(repo, s, p[i..j + 1]);
        if TwoAfterWaits(s, p[i..j + 1]) {
          SubwalkAfterWaits(s, p, i, j + 1);
        }
      } else {
        assert TwoAfterWaits(s, p);
      }
    }
  }

  lemma SubwalkIsCycle(s: State, p: seq<Domain>, i: nat, j: nat)
    requires WaitPath(s, p) && i < j < |p| && p[i] == p[j]
    ensures WaitCycleIn(s, p[i..j + 1])
  {
    var q := p[i..j + 1];
    assert forall m :: 0 <= m < |q| ==> q[m] == p[i + m];
  }

  lemma {:induction false} GraphPathWaits(s: State, a: Domain, b: Domain, q: seq<Domain>)
    requires IsPath(WaitGraph(s), a, b, q)
    ensures WaitPath(s, q)
  {
    forall i | 0 <= i < |q| - 1
      ensures Waits(s, q[i], q[i + 1])
    {
      assert q[i + 1] in Succ(WaitGraph(s), q[i]);
    }
  }

  ghost predicate AftersHaveTasks(s: State) {
    forall d, x :: WaitsForAfter(s, d, x) ==> x in s.tasks
  }

  lemma QuiescentHasSucc(repo: Repository, s: State, d: Domain)
    requires Inv(repo, s) && Quiescent(repo, s) && d in s.tasks && AftersHaveTasks(s)
    ensures HasSuccIn(WaitGraph(s), s.tasks.Keys, d)
  {
    var x := QuiescentTaskWaits(repo, s, d);
    if WaitsForDep(s, d, x) { DepWaitIsEdge(repo, s, d, x); }
    assert x in Succ(WaitGraph(s), d);
  }

  lemma GraphCycleIsWaitCycle(s: State, d: Domain) returns (p: seq<Domain>)
    requires ReachesPlus(WaitGraph(s), d, d)
    ensures WaitCycleIn(s, p)
  {
    var g := WaitGraph(s);
    var c :| c in Succ(g, d) && Reaches(g, c, d);
    var q :| IsPath(g, c, d, q);
    p := [d] + q;
    assert IsPath(g, d, d, p);
    GraphPathWaits(s, d, d, p);
  }

  ghost predicate AllWait(s: State) {
    forall d :: d in s.tasks.Keys ==> HasSuccIn(WaitGraph(s), s.tasks.Keys, d)
  }

  lemma QuiescentAllWait(repo: Repository, s: State)
    requires Inv(repo, s) && Quiescent(repo, s) && AftersHaveTasks(s)
    ensures AllWait(s)
  {
    forall d | d in s.tasks.Keys
      ensures HasSuccIn(WaitGraph(s), s.tasks.Keys, d)
    {
      QuiescentHasSucc(repo, s, d);
    }
  }

  lemma AllWaitHasCycle(s: State) returns (p: seq<Domain>)
    requires AllWait(s) && s.tasks != map[]
    ensures WaitCycleIn(s, p)
  {
    hide WaitCycleIn, HasSuccIn, ReachesPlus, WaitGraph;
    var start :| start in s.tasks;
    EndlessWalkCloses(WaitGraph(s), s.tasks.Keys, start);
    var d :| d in s.tasks.Keys && ReachesPlus(WaitGraph(s), d, d);
    p := GraphCycleIsWaitCycle(s, d);
  }

  /** Deadlock theorem. If tasks are left and none can move, then a domain waits for an
      after-dependency nobody is setting up, or for itself, or there is a cycle of waits
      with two different after-dependency waits on it. */
  lemma StuckMeansAfterDependencies(repo: Repository, s: State)
    requires Reachable(repo, s) && Quiescent(repo, s) && s.tasks != map[]
    ensures || (exists d, x :: WaitsForAfter(s, d, x) && x !in s.tasks)
            || (exists d :: WaitsForAfter(s, d, d))
            || (exists p :: WaitCycleIn(s, p) && TwoAfterWaits(s, p))
  {
    ReachableInv(repo, s);
    if AftersHaveTasks(s) {
      QuiescentAllWait(repo, s);
      var p := AllWaitHasCycle(s);
      CycleDefect(repo, s, p);
    }
  }

  /** Hence tasks with at most one live after-wait, on another domain that is being set up,
      always include one that can move. */
  lemma FewAfterWaitsProgress(repo: Repository, s: State)
    requires Reachable(repo, s) && s.tasks != map[]
    requires forall d, x :: WaitsForAfter(s, d, x) ==> x in s.tasks && x != d
    requires forall d, x, e, y :: WaitsForAfter(s, d, x) && WaitsForAfter(s, e, y) ==> d == e && x == y
    ensures exists step :: Internal(step) && Enabled(repo, s, step)
  {
    assert forall p :: !TwoAfterWaits(s, p);
    if Quiescent(repo, s) {
      StuckMeansAfterDependencies(repo, s);
    }
  }

  // -------------------------------------------------------------------- deadlocks

  /** The domain's setup is over; no task will ever be started for it again. */
  predicate Settled(s: State, x: Domain) {
    x !in s.tasks && (x in s.components || FailedFor(s, x))
  }

  /** A pending future that only a task of `c` could complete, or none at all: one that was
      replaced in `DATA_SETUP_DONE`, or announced for a domain whose setup is over. */
  predicate DeadFuture(s: State, c: set<Domain>, i: FutureId) {
    && i < |s.futures| && s.futures[i].status.Pending?
    && var owner := s.futures[i].owner;
       owner.domain in c
       || (owner.LoadOf? && !(owner.domain in s.loadFutures && s.loadFutures[owner.domain] == i))
       || (owner.LoadOf? && Settled(s, owner.domain))
  }

  /** A future that will never raise into a task that awaits it. */
  predicate Harmless(s: State, c: set<Domain>, i: FutureId) {
    DeadFuture(s, c, i) || (IsDone(s, i) && !HasRaised(s, i))
  }

  /** The task waits for at least one dead future, and no exception will release it. */
  predicate WaitsForDead(s: State, c: set<Domain>, d: Domain) {
    && d in s.tasks && s.tasks[d].phase.Waiting?
    && var p := s.tasks[d].phase;
       && ((exists x :: x in p.waits && DeadFuture(s, c, p.waits[x]))
           || (exists x :: x in p.afters && DeadFuture(s, c, p.afters[x])))
       && (forall x :: x in p.waits ==> Harmless(s, c, p.waits[x]))
       && (forall x :: x in p.afters ==> Harmless(s, c, p.afters[x]))
  }

  /** Every task of `c` waits for a task of `c`, or for an abandoned future. */
  predicate Deadlocked(s: State, c: set<Domain>) {
    forall d :: d in c ==> WaitsForDead(s, c, d)
  }

  /** What a step on domain `d` leaves alone: only its own task, and only the two futures
      that task is responsible for. */
  ghost predicate Frame(s: State, t: State, d: Domain, internal: bool) {
    && |s.futures| <= |t.futures|
    && (forall i :: 0 <= i < |s.futures| && t.futures[i] != s.futures[i] ==>
         s.futures[i].status.Pending? && internal && d in s.tasks && s.futures[i].owner.domain == d
         && (s.futures[i].owner.LoadOf? ==> d in s.loadFutures && s.loadFutures[d] == i))
    && (forall x :: x in t.loadFutures ==>
         (x in s.loadFutures && t.loadFutures[x] == s.loadFutures[x]) || t.loadFutures[x] == |s.futures|)
    && (forall e :: e in s.tasks && (e != d || !internal) ==> e in t.tasks && t.tasks[e] == s.tasks[e])
  }

  ghost predicate KeepsSettled(s: State, t: State) {
    forall x :: Settled(s, x) ==> Settled(t, x)
  }

  lemma StepKeepsSettled(repo: Repository, s: State, step: Step, x: Domain)
    requires Inv(repo, s) && Enabled(repo, s, step) && Settled(s, x)
    ensures Settled(Apply(repo, s, step), x)
  {
    hide Inv, AfterWaits;
    if FailedFor(s, x) { FailureKept(repo, s, step, x); }
  }

  lemma ReturnIsFramed(repo: Repository, s: State, d: Domain, result: SetupResult)
    requires Inv(repo, s) && Alive(s, d)
    ensures Frame(s, Return(s, d, result), d, true)
  {
    assert TaskInv(repo, s, d);
    assert d in s.loadFutures ==> LoadInv(s, d);
  }

  lemma PhaseIsFramed(s: State, t: State, d: Domain)
    requires d in s.tasks && d in t.tasks && t.tasks == s.tasks[d := t.tasks[d]]
    requires t.futures == s.futures && t.loadFutures == s.loadFutures
    ensures Frame(s, t, d, true)
  {
  }

  lemma CollectIsFramed(repo: Repository, s: State, d: Domain)
    requires Inv(repo, s) && Enabled(repo, s, CollectNext(d))
    ensures Frame(s, Apply(repo, s, CollectNext(d)), d, true)
  {
    hide Inv, StartTask;
    StartIsFramed(repo, s, s.tasks[d].phase.pending[0]);
  }

  lemma OutsideIsFramed(repo: Repository, s: State, step: Step)
    requires Inv(repo, s) && Enabled(repo, s, step) && !Internal(step)
    ensures Frame(s, Apply(repo, s, step), step.domain, false)
  {
    hide Inv, StartTask;
    if step.Call? { StartIsFramed(repo, s, step.domain); }
  }

  /** How the step ends the task, if it does. */
  function ResultOf(step: Step): SetupResult {
    if step.EntriesDone? then Succeeded
    else if step.Raises? || (step.AwaitRaises? && !step.handled) then Raised
    else Failed
  }

  lemma StepIsFramed(repo: Repository, s: State, step: Step)
    requires Inv(repo, s) && Enabled(repo, s, step)
    ensures Frame(s, Apply(repo, s, step), step.domain, Internal(step))
  {
    hide Inv, Resolves, AfterWaits, StartTask, Frame;
    var d, t := step.domain, Apply(repo, s, step);
    if !Internal(step) {
      OutsideIsFramed(repo, s, step);
    } else if step.CollectNext? {
      CollectIsFramed(repo, s, d);
    } else if d in t.tasks {
      PhaseIsFramed(s, t, d);
    } else {
      ReturnIsFramed(repo, s, d, ResultOf(step));
    }
  }

  lemma StartIsFramed(repo: Repository, s: State, d: Domain)
    requires Inv(repo, s)
    ensures d !in s.setupFutures ==> Frame(s, StartTask(s, d), d, false)
  {
    TaskIsPending(repo, s, d);
  }

  lemma FrameKeepsDead(s: State, t: State, d: Domain, internal: bool, c: set<Domain>, i: FutureId)
    requires Frame(s, t, d, internal) && KeepsSettled(s, t) && (internal ==> d !in c)
    requires DeadFuture(s, c, i)
    ensures DeadFuture(t, c, i)
  {
  }

  lemma FrameKeepsHarmless(s: State, t: State, d: Domain, internal: bool, c: set<Domain>, i: FutureId)
    requires Frame(s, t, d, internal) && KeepsSettled(s, t) && (internal ==> d !in c)
    requires Harmless(s, c, i)
    ensures Harmless(t, c, i)
  {
    if DeadFuture(s, c, i) { FrameKeepsDead(s, t, d, internal, c, i); }
  }

  lemma FrameKeepsDeadlock(s: State, t: State, d: Domain, internal: bool, c: set<Domain>)
    requires Frame(s, t, d, internal) && KeepsSettled(s, t) && (internal ==> d !in c)
    requires Deadlocked(s, c)
    ensures Deadlocked(t, c)
  {
    forall e | e in c
      ensures WaitsForDead(t, c, e)
    {
      assert WaitsForDead(s, c, e);
      var p := s.tasks[e].phase;
      forall x | x in p.waits ensures Harmless(t, c, p.waits[x]) {
        FrameKeepsHarmless(s, t, d, internal, c, p.waits[x]);
      }
      forall x | x in p.afters ensures Harmless(t, c, p.afters[x]) {
        FrameKeepsHarmless(s, t, d, internal, c, p.afters[x]);
      }
      if x :| x in p.waits && DeadFuture(s, c, p.waits[x]) {
        FrameKeepsDead(s, t, d, internal, c, p.waits[x]);
      } else {
        var y :| y in p.afters && DeadFuture(s, c, p.afters[y]);
        FrameKeepsDead(s, t, d, internal, c, p.afters[y]);
      }
    }
  }

  /** A deadlock is permanent: no step of anybody, from inside or outside, releases it. */
  lemma DeadlockIsPermanent(repo: Repository, s: State, step: Step, c: set<Domain>)
    requires Inv(repo, s) && Enabled(repo, s, step) && Deadlocked(s, c)
    ensures Deadlocked(Apply(repo, s, step), c)
  {
    StepIsFramed(repo, s, step);
    forall x | Settled(s, x) ensures Settled(Apply(repo, s, step), x) { StepKeepsSettled(repo, s, step, x); }
    if step.domain in c { assert WaitsForDead(s, c, step.domain); }
    FrameKeepsDeadlock(s, Apply(repo, s, step), step.domain, Internal(step), c);
  }

  lemma {:induction false} DeadlockLastsForever(repo: Repository, s: State, steps: seq<Step>, t: State, c: set<Domain>)
    requires Inv(repo, s) && Deadlocked(s, c) && Run(repo, s, steps, t)
    ensures Deadlocked(t, c)
    decreases |steps|
  {
    if steps != [] {
      DeadlockIsPermanent(repo, s, steps[0], c);
      StepInv(repo, s, steps[0]);
      DeadlockLastsForever(repo, Apply(repo, s, steps[0]), steps[1..], t, c);
    }
  }
}
