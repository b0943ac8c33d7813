/** For which repositories the setup protocol can deadlock: exactly, with announcements at any
    time, and with announcements of fresh domains only. */
module SetupDeadlocks {
  import opened Graphs
  import opened Loader
  import opened Setup
  import opened SetupRuns
  import opened SetupProgress

  ghost predicate HasDeadlock(s: State) {
    exists c :: c != {} && c <= s.tasks.Keys && Deadlocked(s, c)
  }

  ghost predicate CanDeadlock(repo: Repository) {
    exists s :: Reachable(repo, s) && HasDeadlock(s)
  }

  /** Only domains are announced that are not announced, registered or loaded. */
  predicate FreshStep(s: State, step: Step) {
    step.AnnounceLoad? ==>
      step.domain !in s.loadFutures && step.domain !in s.setupFutures && step.domain !in s.components
  }

  ghost predicate FreshRun(repo: Repository, s: State, steps: seq<Step>, t: State)
    decreases |steps|
  {
    if steps == [] then s == t
    else
      && Enabled(repo, s, steps[0]) && FreshStep(s, steps[0])
      && FreshRun(repo, Apply(repo, s, steps[0]), steps[1..], t)
  }

  ghost predicate FreshReachable(repo: Repository, s: State) {
    exists steps :: FreshRun(repo, INIT, steps, s)
  }

  ghost predicate CanDeadlockFresh(repo: Repository) {
    exists s :: FreshReachable(repo, s) && HasDeadlock(s)
  }

  /** The dependencies and after-dependencies of the domains that resolve. */
  function SetupGraph(repo: Repository): Graph {
    map d | d in repo && Resolves(repo, d) :: Deps(repo, d) + After(repo, d)
  }

  // ------------------------------------------------------------------- runs

  lemma {:induction false} FreshIsRun(repo: Repository, s: State, steps: seq<Step>, t: State)
    requires FreshRun(repo, s, steps, t)
    ensures Run(repo, s, steps, t)
    decreases |steps|
  {
    if steps != [] { FreshIsRun(repo, Apply(repo, s, steps[0]), steps[1..], t); }
  }

  lemma FreshIsReachable(repo: Repository, s: State)
    requires FreshReachable(repo, s)
    ensures Reachable(repo, s) && Inv(repo, s)
  {
    var steps :| FreshRun(repo, INIT, steps, s);
    FreshIsRun(repo, INIT, steps, s);
    ReachableInv(repo, s);
  }

  lemma {:induction false} FreshRunThen(repo: Repository, s: State, steps: seq<Step>, t: State, step: Step)
    requires FreshRun(repo, s, steps, t) && Enabled(repo, t, step) && FreshStep(t, step)
    ensures FreshRun(repo, s, steps + [step], Apply(repo, t, step))
    decreases |steps|
  {
    hide Enabled, FreshStep, Apply;
    var more := steps + [step];
    if steps == [] {
      assert more[1..] == [];
    } else {
      assert more[0] == steps[0] && more[1..] == steps[1..] + [step];
      FreshRunThen(repo, Apply(repo, s, steps[0]), steps[1..], t, step);
    }
  }

  lemma FreshThen(repo: Repository, s: State, step: Step)
    requires FreshReachable(repo, s) && Enabled(repo, s, step) && FreshStep(s, step)
    ensures FreshReachable(repo, Apply(repo, s, step))
  {
    hide FreshRun, Enabled, Apply, FreshStep;
    var steps :| FreshRun(repo, INIT, steps, s);
    FreshRunThen(repo, INIT, steps, s, step);
  }

  // --------------------------------------------- no deadlock without after-waits

  ghost predicate AftersAreDeps(repo: Repository) {
    forall d :: Resolves(repo, d) ==> After(repo, d) <= Deps(repo, d)
  }

  predicate NoAfters(s: State) {
    forall d :: d in s.tasks && s.tasks[d].phase.Waiting? ==> s.tasks[d].phase.afters == map[]
  }

  lemma NothingToWaitAfter(repo: Repository, s: State, d: Domain)
    requires AftersAreDeps(repo) && Inv(repo, s) && Enabled(repo, s, CollectAfters(d))
    ensures AfterWaits(repo, s, d, s.tasks[d].phase.waits) == map[]
  {
    assert TaskInv(repo, s, d);
    var afters := AfterWaits(repo, s, d, s.tasks[d].phase.waits);
    assert afters.Keys == {};
  }

  lemma StepKeepsNoAfters(repo: Repository, s: State, step: Step)
    requires AftersAreDeps(repo) && Inv(repo, s) && NoAfters(s) && Enabled(repo, s, step)
    ensures NoAfters(Apply(repo, s, step))
  {
    hide Inv, Resolves, AfterWaits;
    if step.CollectAfters? { NothingToWaitAfter(repo, s, step.domain); }
  }

  lemma {:induction false} RunKeepsNoAfters(repo: Repository, s: State, steps: seq<Step>, t: State)
    requires AftersAreDeps(repo) && Inv(repo, s) && NoAfters(s) && Run(repo, s, steps, t)
    ensures Inv(repo, t) && NoAfters(t)
    decreases |steps|
  {
    hide Inv, NoAfters, AftersAreDeps, Enabled, Apply;
    if steps != [] {
      StepKeepsNoAfters(repo, s, steps[0]);
      StepInv(repo, s, steps[0]);
      RunKeepsNoAfters(repo, Apply(repo, s, steps[0]), steps[1..], t);
    }
  }

  lemma DeadWaitStaysInside(repo: Repository, s: State, c: set<Domain>, d: Domain)
    requires Inv(repo, s) && NoAfters(s) && WaitsForDead(s, c, d)
    ensures Resolves(repo, d) && HasSuccIn(DepGraph(repo), c, d)
  {
    assert TaskInv(repo, s, d);
    var waits := s.tasks[d].phase.waits;
    var x :| x in waits && DeadFuture(s, c, waits[x]);
    assert OwnedBy(s, waits[x], SetupOf(x));
    assert x in c && x in Succ(DepGraph(repo), d);
  }

  lemma NoAftersNoDeadlock(repo: Repository, s: State, c: set<Domain>)
    requires Inv(repo, s) && NoAfters(s) && c != {}
    ensures !Deadlocked(s, c)
  {
    hide Inv, NoAfters, WaitsForDead, Resolves;
    if Deadlocked(s, c) {
      forall d | d in c ensures Resolves(repo, d) && HasSuccIn(DepGraph(repo), c, d) {
        DeadWaitStaysInside(repo, s, c, d);
      }
      var start :| start in c;
      EndlessWalkCloses(DepGraph(repo), c, start);
      var x :| x in c && ReachesPlus(DepGraph(repo), x, x);
      SearchSound(repo, x);
      ReachesRefl(DepGraph(repo), x);
    }
  }

  // ------------------------------------------- deadlocks among fresh domains

  /** A future of `DATA_SETUP_DONE` that is still going to be completed by a task of its
      domain. */
  predicate Current(s: State, i: FutureId)
    requires i < |s.futures|
  {
    s.futures[i].owner.LoadOf? && s.futures[i].status.Pending? ==>
      var x := s.futures[i].owner.domain;
      x in s.loadFutures && s.loadFutures[x] == i && !Settled(s, x)
  }

  predicate AllCurrent(s: State) {
    forall i :: 0 <= i < |s.futures| ==> Current(s, i)
  }

  lemma ReturnKeepsCurrent(repo: Repository, s: State, d: Domain, result: SetupResult)
    requires Inv(repo, s) && AllCurrent(s) && Alive(s, d)
    ensures AllCurrent(Return(s, d, result))
  {
    var t := Return(s, d, result);
    ReturnFrame(repo, s, d, result);
    TaskIsPending(repo, s, d);
    forall i | 0 <= i < |t.futures| ensures Current(t, i) {
      assert Current(s, i);
      if s.futures[i].owner.LoadOf? && s.futures[i].owner.domain != d {
        NotSettledAfterReturn(repo, s, d, result, s.futures[i].owner.domain);
      }
    }
  }

  lemma NotSettledAfterReturn(repo: Repository, s: State, d: Domain, result: SetupResult, x: Domain)
    requires Inv(repo, s) && Alive(s, d) && x != d
    ensures Settled(Return(s, d, result), x) ==> Settled(s, x)
  {
    ReturnFrame(repo, s, d, result);
    TaskIsPending(repo, s, x);
  }

  /** Nothing but an announcement makes a future of this kind, and nothing but its own task
      settles a domain. */
  lemma QuietStepKeepsCurrent(s: State, t: State)
    requires AllCurrent(s) && |s.futures| <= |t.futures| && t.loadFutures == s.loadFutures
    requires forall i :: 0 <= i < |s.futures| ==> t.futures[i] == s.futures[i]
    requires forall i :: |s.futures| <= i < |t.futures| ==> t.futures[i].owner.SetupOf?
    requires forall x :: Settled(t, x) ==> Settled(s, x)
    ensures AllCurrent(t)
  {
    hide Settled;
    forall i | 0 <= i < |t.futures| ensures Current(t, i) {
      if i < |s.futures| { assert Current(s, i); }
    }
  }

  lemma StartUnsettles(repo: Repository, s: State, d: Domain, x: Domain)
    requires Inv(repo, s) && d !in s.components && d !in s.setupFutures && Settled(StartTask(s, d), x)
    ensures Settled(s, x)
  {
    TaskIsPending(repo, s, x);
  }

  lemma StartKeepsCurrent(repo: Repository, s: State, d: Domain)
    requires Inv(repo, s) && AllCurrent(s) && d !in s.components && d !in s.setupFutures
    ensures AllCurrent(StartTask(s, d))
  {
    hide Settled, Current;
    forall x | Settled(StartTask(s, d), x) ensures Settled(s, x) { StartUnsettles(repo, s, d, x); }
    QuietStepKeepsCurrent(s, StartTask(s, d));
  }

  lemma PhaseKeepsCurrent(s: State, t: State)
    requires AllCurrent(s) && t.futures == s.futures && t.loadFutures == s.loadFutures
    requires t.setupFutures == s.setupFutures && t.tasks.Keys == s.tasks.Keys
    requires s.components <= t.components && t.components - s.components <= s.tasks.Keys
    ensures AllCurrent(t)
  {
    forall x | Settled(t, x) ensures Settled(s, x) {}
    hide Settled, Current;
    QuietStepKeepsCurrent(s, t);
  }

  lemma AnnounceKeepsCurrent(repo: Repository, s: State, d: Domain)
    requires Inv(repo, s) && AllCurrent(s) && FreshStep(s, AnnounceLoad(d))
    ensures AllCurrent(Apply(repo, s, AnnounceLoad(d)))
  {
    var t := Apply(repo, s, AnnounceLoad(d));
    forall i | 0 <= i < |t.futures| ensures Current(t, i) {
      if i < |s.futures| {
        assert Current(s, i);
        if s.futures[i].owner.LoadOf? { NotSettledAfterAnnounce(repo, s, d, s.futures[i].owner.domain); }
      }
    }
  }

  lemma NotSettledAfterAnnounce(repo: Repository, s: State, d: Domain, x: Domain)
    requires Inv(repo, s)
    ensures Settled(Apply(repo, s, AnnounceLoad(d)), x) ==> Settled(s, x)
  {
    TaskIsPending(repo, s, x);
  }

  lemma FreshStepKeepsCurrent(repo: Repository, s: State, step: Step)
    requires Inv(repo, s) && AllCurrent(s) && Enabled(repo, s, step) && FreshStep(s, step)
    ensures AllCurrent(Apply(repo, s, step))
  {
    hide Inv, Resolves, AfterWaits, AllCurrent, Return, SomeRaised, AllDone;
    var d, t := step.domain, Apply(repo, s, step);
    if step.AnnounceLoad? {
      AnnounceKeepsCurrent(repo, s, d);
    } else if step.Call? {
      if d !in s.components && d !in s.setupFutures { StartKeepsCurrent(repo, s, d); }
    } else if step.CollectNext? {
      var x := s.tasks[d].phase.pending[0];
      var u := if x in s.components || x in s.setupFutures then s else StartTask(s, x);
      if u != s { StartKeepsCurrent(repo, s, x); }
      PhaseKeepsCurrent(u, t);
    } else if step.PlatformProcessed? || Moves(repo, s, step) {
      PhaseKeepsCurrent(s, t);
    } else {
      ReturnKeepsCurrent(repo, s, d, ResultOf(step));
    }
  }

  /** The step moves the task on to another phase. */
  predicate Moves(repo: Repository, s: State, step: Step)
    requires Enabled(repo, s, step)
  {
    match step
    case Fetched(d, disabled) => !disabled && Resolves(repo, d)
    case CollectAfters(_) => true
    case Wake(d) => forall x :: x in s.tasks[d].phase.waits ==>
      !s.futures[s.tasks[d].phase.waits[x]].status.result.Failed?
    case Installed(_, ok) => ok
    case Imported(_, ok) => ok
    case BodyReturned(_, ok) => ok
    case _ => false
  }

  lemma {:induction false} FreshRunKeepsCurrent(repo: Repository, s: State, steps: seq<Step>, t: State)
    requires Inv(repo, s) && AllCurrent(s) && FreshRun(repo, s, steps, t)
    ensures Inv(repo, t) && AllCurrent(t)
    decreases |steps|
  {
    hide Inv, AllCurrent, Enabled, FreshStep, Apply;
    if steps != [] {
      FreshStepKeepsCurrent(repo, s, steps[0]);
      StepInv(repo, s, steps[0]);
      FreshRunKeepsCurrent(repo, Apply(repo, s, steps[0]), steps[1..], t);
    }
  }

  lemma FreshWaitStaysInside(repo: Repository, s: State, c: set<Domain>, d: Domain)
    requires Inv(repo, s) && AllCurrent(s) && WaitsForDead(s, c, d)
    ensures HasSuccIn(SetupGraph(repo), c, d)
  {
    assert TaskInv(repo, s, d);
    var p := s.tasks[d].phase;
    if x :| x in p.waits && DeadFuture(s, c, p.waits[x]) {
      assert OwnedBy(s, p.waits[x], SetupOf(x));
      assert x in c && x in Succ(SetupGraph(repo), d);
    } else {
      var x :| x in p.afters && DeadFuture(s, c, p.afters[x]);
      assert OwnedBy(s, p.afters[x], LoadOf(x)) && Current(s, p.afters[x]);
      assert x in c && x in Succ(SetupGraph(repo), d);
    }
  }

  lemma FreshDeadlockIsCycle(repo: Repository, s: State, c: set<Domain>)
    requires Inv(repo, s) && AllCurrent(s) && c != {} && Deadlocked(s, c)
    ensures exists x :: ReachesPlus(SetupGraph(repo), x, x)
  {
    hide Inv, AllCurrent, WaitsForDead;
    forall d | d in c ensures HasSuccIn(SetupGraph(repo), c, d) { FreshWaitStaysInside(repo, s, c, d); }
    var start :| start in c;
    EndlessWalkCloses(SetupGraph(repo), c, start);
  }

  // ------------------------------------------------- driving domains into their waits

  /** `d` is suspended on all its dependencies and on the announced after-dependencies among
      the rest. */
  predicate Suspended(repo: Repository, s: State, d: Domain) {
    && d in s.tasks && s.tasks[d].phase.Waiting? && d in repo
    && var p := s.tasks[d].phase;
       && p.waits.Keys == Deps(repo, d) && p.afters.Keys == After(repo, d) * s.loadFutures.Keys - Deps(repo, d)
       && (forall x :: x in p.waits ==> x in s.setupFutures && p.waits[x] == s.setupFutures[x])
       && (forall x :: x in p.afters ==> p.afters[x] == s.loadFutures[x])
  }

  /** Some domain of `c` depends on `e`, or is it. */
  ghost predicate NeededBy(repo: Repository, c: set<Domain>, e: Domain) {
    e in c || exists d :: d in c && d in repo && e in Deps(repo, d)
  }

  /** Nothing is loaded, exactly `announced` is announced, the tasks of `done` are suspended,
      and apart from `busy` the others have only just been started. */
  ghost predicate Driven(repo: Repository, s: State, announced: set<Domain>, c: set<Domain>, done: set<Domain>,
    busy: set<Domain>) {
    && s.components == {} && s.processed == {} && s.loadFutures.Keys == announced
    && s.setupFutures.Keys == s.tasks.Keys && done + busy <= s.tasks.Keys && done <= c && busy <= c
    && (forall d :: d in done ==> Suspended(repo, s, d))
    && (forall d :: d in s.tasks.Keys - done - busy ==> s.tasks[d].phase.Fetching?)
    && (forall d :: d in s.tasks ==> NeededBy(repo, c, d))
  }

  lemma {:induction false} AnnounceThem(repo: Repository, c: set<Domain>, announced: set<Domain>) returns (s: State)
    ensures FreshReachable(repo, s) && Driven(repo, s, announced, c, {}, {}) && s.tasks == map[]
    decreases announced
  {
    if announced == {} {
      s := INIT;
      assert FreshRun(repo, INIT, [], INIT);
    } else {
      var x :| x in announced;
      var before := AnnounceThem(repo, c, announced - {x});
      FreshThen(repo, before, AnnounceLoad(x));
      s := Apply(repo, before, AnnounceLoad(x));
    }
  }

  lemma CollectOne(repo: Repository, s: State, announced: set<Domain>, c: set<Domain>, done: set<Domain>, d: Domain)
    requires Driven(repo, s, announced, c, done, {d}) && Enabled(repo, s, CollectNext(d)) && d in repo && d !in done
    requires s.tasks[d].phase.pending[0] in Deps(repo, d)
    ensures Driven(repo, Apply(repo, s, CollectNext(d)), announced, c, done, {d})
  {
    var x, t := s.tasks[d].phase.pending[0], Apply(repo, s, CollectNext(d));
    assert NeededBy(repo, c, x);
    forall e | e in done ensures Suspended(repo, t, e) { assert Suspended(repo, s, e); }
  }

  /** What the task of `d` has collected so far. */
  predicate Collected(repo: Repository, s: State, d: Domain) {
    && d in repo && Alive(s, d) && s.tasks[d].phase.Collecting?
    && var p := s.tasks[d].phase;
       && p.waits.Keys + ToSet(p.pending) == Deps(repo, d)
       && forall x :: x in p.waits ==> x in s.setupFutures && p.waits[x] == s.setupFutures[x]
  }

  lemma CollectOneMore(repo: Repository, s: State, d: Domain)
    requires Inv(repo, s) && Collected(repo, s, d) && s.tasks[d].phase.pending != [] && s.components == {}
    ensures var t := Apply(repo, s, CollectNext(d));
      Collected(repo, t, d) && t.tasks[d].phase.pending == s.tasks[d].phase.pending[1..]
  {
    hide Inv, Resolves;
    var p, t := s.tasks[d].phase, Apply(repo, s, CollectNext(d));
    assert ToSet(p.pending) == {p.pending[0]} + ToSet(p.pending[1..]);
    StepInv(repo, s, CollectNext(d));
    TaskIsAlive(repo, t, d);
  }

  lemma {:induction false} CollectThem(repo: Repository, s: State, announced: set<Domain>, c: set<Domain>,
    done: set<Domain>, d: Domain)
    returns (t: State)
    requires FreshReachable(repo, s) && Driven(repo, s, announced, c, done, {d}) && d !in done && Collected(repo, s, d)
    ensures FreshReachable(repo, t) && Driven(repo, t, announced, c, done, {d}) && Collected(repo, t, d)
    ensures t.tasks[d].phase.pending == []
    decreases |s.tasks[d].phase.pending|
  {
    hide FreshReachable, Inv;
    var p := s.tasks[d].phase;
    if p.pending == [] {
      t := s;
    } else {
      assert p.pending[0] in ToSet(p.pending);
      FreshIsReachable(repo, s);
      FreshThen(repo, s, CollectNext(d));
      CollectOne(repo, s, announced, c, done, d);
      CollectOneMore(repo, s, d);
      t := CollectThem(repo, Apply(repo, s, CollectNext(d)), announced, c, done, d);
    }
  }

  lemma CallOne(repo: Repository, s: State, announced: set<Domain>, c: set<Domain>, done: set<Domain>, d: Domain)
    requires Driven(repo, s, announced, c, done, {}) && d in c && d !in done
    ensures var t := Apply(repo, s, Call(d));
      Driven(repo, t, announced, c, done, {}) && d in t.tasks && t.tasks[d].phase.Fetching?
  {
    var t := Apply(repo, s, Call(d));
    assert NeededBy(repo, c, d);
    forall e | e in done ensures Suspended(repo, t, e) { assert Suspended(repo, s, e); }
  }

  lemma FetchOne(repo: Repository, s: State, announced: set<Domain>, c: set<Domain>, done: set<Domain>, d: Domain)
    requires Inv(repo, s) && Driven(repo, s, announced, c, done, {}) && d in c && d !in done && Resolves(repo, d)
    requires d in s.tasks
    ensures Enabled(repo, s, Fetched(d, false))
    ensures var t := Apply(repo, s, Fetched(d, false));
      Driven(repo, t, announced, c, done, {d}) && Collected(repo, t, d)
  {
    TaskIsAlive(repo, s, d);
    var t := Apply(repo, s, Fetched(d, false));
    forall e | e in done ensures Suspended(repo, t, e) { assert Suspended(repo, s, e); }
  }

  lemma SuspendOne(repo: Repository, s: State, announced: set<Domain>, c: set<Domain>, done: set<Domain>, d: Domain)
    requires Driven(repo, s, announced, c, done, {d}) && d !in done && Collected(repo, s, d)
    requires s.tasks[d].phase.pending == [] && (Deps(repo, d) != {} || After(repo, d) * announced - Deps(repo, d) != {})
    ensures Enabled(repo, s, CollectAfters(d))
    ensures Driven(repo, Apply(repo, s, CollectAfters(d)), announced, c, done + {d}, {})
  {
    var waits, t := s.tasks[d].phase.waits, Apply(repo, s, CollectAfters(d));
    assert waits.Keys == Deps(repo, d);
    assert AfterWaits(repo, s, d, waits).Keys == After(repo, d) * announced - Deps(repo, d);
    assert Suspended(repo, t, d);
    forall e | e in done ensures Suspended(repo, t, e) { assert Suspended(repo, s, e); }
  }

  /** From being called to being suspended. */
  lemma DriveOne(repo: Repository, s: State, announced: set<Domain>, c: set<Domain>, done: set<Domain>, d: Domain)
    returns (t: State)
    requires FreshReachable(repo, s) && Driven(repo, s, announced, c, done, {}) && d in c && d !in done
    requires Resolves(repo, d) && (Deps(repo, d) != {} || After(repo, d) * announced - Deps(repo, d) != {})
    ensures FreshReachable(repo, t) && Driven(repo, t, announced, c, done + {d}, {})
  {
    hide FreshReachable, Inv, Driven, Collected, Resolves;
    FreshThen(repo, s, Call(d));
    CallOne(repo, s, announced, c, done, d);
    t := Apply(repo, s, Call(d));
    FreshIsReachable(repo, t);
    FetchOne(repo, t, announced, c, done, d);
    FreshThen(repo, t, Fetched(d, false));
    t := CollectThem(repo, Apply(repo, t, Fetched(d, false)), announced, c, done, d);
    SuspendOne(repo, t, announced, c, done, d);
    FreshThen(repo, t, CollectAfters(d));
    t := Apply(repo, t, CollectAfters(d));
  }

  /** Every domain of `c` has something to wait for. */
  ghost predicate Waitable(repo: Repository, c: set<Domain>, announced: set<Domain>) {
    forall d :: d in c ==>
      Resolves(repo, d) && (Deps(repo, d) != {} || After(repo, d) * announced - Deps(repo, d) != {})
  }

  lemma {:induction false} DriveThem(repo: Repository, s: State, announced: set<Domain>, c: set<Domain>,
    done: set<Domain>)
    returns (t: State)
    requires FreshReachable(repo, s) && Driven(repo, s, announced, c, done, {}) && Waitable(repo, c, announced)
    ensures FreshReachable(repo, t) && Driven(repo, t, announced, c, c, {})
    decreases c - done
  {
    hide FreshReachable, Suspended, NeededBy, Resolves;
    if done == c {
      t := s;
    } else {
      assert !(c <= done);
      var d :| d in c && d !in done;
      t := DriveOne(repo, s, announced, c, done, d);
      t := DriveThem(repo, t, announced, c, done + {d});
    }
  }

  // ------------------------------------------------------ failing everybody else

  /** The domains of `c` are suspended, other tasks have only just been started, and every
      other set-up has failed. */
  ghost predicate Stalled(repo: Repository, s: State, announced: set<Domain>, c: set<Domain>) {
    && s.loadFutures.Keys == announced && c <= s.tasks.Keys && s.tasks.Keys * announced <= c
    && (forall d :: d in c ==> Suspended(repo, s, d))
    && (forall d :: d in s.tasks.Keys - c ==> s.tasks[d].phase.Fetching?)
    && (forall x :: x in s.setupFutures.Keys - s.tasks.Keys ==> FailedFully(s, x))
  }

  predicate FailedFully(s: State, x: Domain)
    requires x in s.setupFutures
  {
    s.setupFutures[x] < |s.futures| && s.futures[s.setupFutures[x]].status == Done(Failed)
  }

  lemma FailOne(repo: Repository, s: State, announced: set<Domain>, c: set<Domain>, d: Domain)
    requires Inv(repo, s) && Stalled(repo, s, announced, c) && d in s.tasks.Keys - c
    ensures Enabled(repo, s, Fetched(d, true))
    ensures var t := Apply(repo, s, Fetched(d, true));
      Stalled(repo, t, announced, c) && t.tasks.Keys == s.tasks.Keys - {d}
  {
    TaskIsAlive(repo, s, d);
    TaskIsPending(repo, s, d);
    assert TaskInv(repo, s, d);
    var t := Apply(repo, s, Fetched(d, true));
    forall e | e in c ensures Suspended(repo, t, e) { assert Suspended(repo, s, e); }
    forall x | x in t.setupFutures.Keys - t.tasks.Keys ensures FailedFully(t, x) {
      if x != d { assert FailedFully(s, x); }
    }
  }

  lemma {:induction false} FailOthers(repo: Repository, s: State, announced: set<Domain>, c: set<Domain>)
    returns (t: State)
    requires FreshReachable(repo, s) && Stalled(repo, s, announced, c)
    ensures FreshReachable(repo, t) && Stalled(repo, t, announced, c) && t.tasks.Keys == c
    decreases s.tasks.Keys - c
  {
    hide FreshReachable, Inv, Suspended;
    if s.tasks.Keys <= c {
      t := s;
    } else {
      var d :| d in s.tasks.Keys - c;
      FreshIsReachable(repo, s);
      FailOne(repo, s, announced, c, d);
      FreshThen(repo, s, Fetched(d, true));
      t := FailOthers(repo, Apply(repo, s, Fetched(d, true)), announced, c);
    }
  }

  /** Exactly the domains of `c` are left, each suspended on all its dependencies and its
      announced after-dependencies. */
  lemma Stall(repo: Repository, announced: set<Domain>, c: set<Domain>) returns (s: State)
    requires Waitable(repo, c, announced)
    requires forall e :: NeededBy(repo, c, e) && e in announced ==> e in c
    ensures FreshReachable(repo, s) && Inv(repo, s) && Stalled(repo, s, announced, c) && s.tasks.Keys == c
  {
    hide FreshReachable, Inv, Suspended, Waitable, NeededBy;
    s := AnnounceThem(repo, c, announced);
    s := DriveThem(repo, s, announced, c, {});
    s := FailOthers(repo, s, announced, c);
    FreshIsReachable(repo, s);
  }

  lemma SuspendedWaits(repo: Repository, s: State, announced: set<Domain>, c: set<Domain>, d: Domain, x: Domain)
    requires Inv(repo, s) && Stalled(repo, s, announced, c) && s.tasks.Keys == c
    requires d in c && x in s.tasks[d].phase.waits
    ensures Harmless(s, c, s.tasks[d].phase.waits[x])
    ensures x in c ==> DeadFuture(s, c, s.tasks[d].phase.waits[x])
  {
    assert Suspended(repo, s, d);
    if x in c { assert TaskInv(repo, s, x); } else { assert FailedFully(s, x); }
  }

  lemma SuspendedAfters(repo: Repository, s: State, announced: set<Domain>, c: set<Domain>, d: Domain, x: Domain)
    requires Inv(repo, s) && Stalled(repo, s, announced, c) && d in c && x in s.tasks[d].phase.afters
    ensures x in s.loadFutures && s.tasks[d].phase.afters[x] == s.loadFutures[x] && LoadInv(s, x)
  {
    assert Suspended(repo, s, d);
  }

  // ------------------------------------------------------------------ the theorems

  lemma StalledWaitsForDead(repo: Repository, s: State, c: set<Domain>, d: Domain, y: Domain)
    requires Inv(repo, s) && Stalled(repo, s, c, c) && s.tasks.Keys == c && d in c
    requires y in c && d in repo && y in Deps(repo, d) + After(repo, d)
    ensures WaitsForDead(s, c, d)
  {
    hide Inv, Harmless;
    assert Suspended(repo, s, d);
    var p := s.tasks[d].phase;
    forall x | x in p.waits ensures Harmless(s, c, p.waits[x]) { SuspendedWaits(repo, s, c, c, d, x); }
    forall x | x in p.afters ensures DeadFuture(s, c, p.afters[x]) && Harmless(s, c, p.afters[x]) {
      SuspendedAfters(repo, s, c, c, d, x);
      DeadIsHarmless(s, c, p.afters[x]);
    }
    if y in Deps(repo, d) {
      SuspendedWaits(repo, s, c, c, d, y);
      assert y in p.waits;
    } else {
      assert y in p.afters;
    }
  }

  lemma DeadIsHarmless(s: State, c: set<Domain>, i: FutureId)
    ensures DeadFuture(s, c, i) ==> Harmless(s, c, i)
  {
  }

  lemma StalledIsDeadlocked(repo: Repository, s: State, c: set<Domain>)
    requires Inv(repo, s) && Stalled(repo, s, c, c) && s.tasks.Keys == c
    requires forall d :: d in c ==> HasSuccIn(SetupGraph(repo), c, d)
    ensures Deadlocked(s, c)
  {
    hide Inv, Stalled, WaitsForDead, Resolves;
    forall d | d in c ensures WaitsForDead(s, c, d) {
      assert HasSuccIn(SetupGraph(repo), c, d);
      var y :| y in c && y in Succ(SetupGraph(repo), d);
      StalledWaitsForDead(repo, s, c, d, y);
    }
  }

  lemma CycleIsWaitable(repo: Repository, c: set<Domain>)
    requires forall d :: d in c ==> HasSuccIn(SetupGraph(repo), c, d)
    ensures Waitable(repo, c, c)
  {
    hide Resolves;
    forall d | d in c
      ensures Resolves(repo, d) && d in repo && (Deps(repo, d) != {} || After(repo, d) * c - Deps(repo, d) != {})
    {
      assert HasSuccIn(SetupGraph(repo), c, d);
      var y :| y in c && y in Succ(SetupGraph(repo), d);
      assert y in Deps(repo, d) || y in After(repo, d) * c - Deps(repo, d);
    }
  }

  lemma CycleDeadlocks(repo: Repository, x: Domain)
    requires ReachesPlus(SetupGraph(repo), x, x)
    ensures CanDeadlockFresh(repo)
  {
    hide FreshReachable, Inv, Deadlocked, Stalled, Waitable, NeededBy, SetupGraph, ReachesPlus, HasSuccIn;
    var c := CycleSet(SetupGraph(repo), x);
    CycleIsWaitable(repo, c);
    var s := Stall(repo, c, c);
    StalledIsDeadlocked(repo, s, c);
    assert HasDeadlock(s);
  }

  /** When only fresh domains are announced, a deadlock can be reached if and only if the
      dependencies and after-dependencies of the domains that resolve form a cycle. */
  lemma FreshDeadlockIffCycle(repo: Repository)
    ensures CanDeadlockFresh(repo) <==> exists x :: ReachesPlus(SetupGraph(repo), x, x)
  {
    hide FreshRun, Inv, AllCurrent, Deadlocked, ReachesPlus, SetupGraph;
    if CanDeadlockFresh(repo) {
      var s :| FreshReachable(repo, s) && HasDeadlock(s);
      var c :| c != {} && c <= s.tasks.Keys && Deadlocked(s, c);
      var steps :| FreshRun(repo, INIT, steps, s);
      InitInv(repo);
      InitIsCurrent();
      FreshRunKeepsCurrent(repo, INIT, steps, s);
      FreshDeadlockIsCycle(repo, s, c);
    }
    if x :| ReachesPlus(SetupGraph(repo), x, x) { CycleDeadlocks(repo, x); }
  }

  lemma InitIsCurrent()
    ensures AllCurrent(INIT) && NoAfters(INIT)
  {
  }

  lemma ReannouncedIsDead(repo: Repository, s: State, d: Domain, x: Domain)
    requires Inv(repo, s) && Stalled(repo, s, {x}, {d}) && s.tasks.Keys == {d}
    requires x in After(repo, d) - Deps(repo, d)
    ensures Deadlocked(Apply(repo, s, AnnounceLoad(x)), {d})
  {
    hide Inv;
    var t, p := Apply(repo, s, AnnounceLoad(x)), s.tasks[d].phase;
    assert Suspended(repo, s, d);
    SuspendedAfters(repo, s, {x}, {d}, d, x);
    assert DeadFuture(t, {d}, p.afters[x]);
    forall y | y in p.waits ensures Harmless(t, {d}, p.waits[y]) { SuspendedWaits(repo, s, {x}, {d}, d, y); }
    assert WaitsForDead(t, {d}, d);
  }

  lemma OutsideAfterDeadlocks(repo: Repository, d: Domain)
    requires Resolves(repo, d) && !(After(repo, d) <= Deps(repo, d))
    ensures CanDeadlock(repo)
  {
    hide FreshReachable, Reachable, Inv, Deadlocked, Stalled, Resolves;
    ResolvesIsListed(repo, d);
    var x :| x in After(repo, d) && x !in Deps(repo, d);
    assert x in After(repo, d) * {x} - Deps(repo, d);
    var s := Stall(repo, {x}, {d});
    ReannouncedIsDead(repo, s, d, x);
    FreshIsReachable(repo, s);
    ReachableThen(repo, s, AnnounceLoad(x));
    assert {d} <= Apply(repo, s, AnnounceLoad(x)).tasks.Keys;
    assert HasDeadlock(Apply(repo, s, AnnounceLoad(x)));
  }

  lemma ReachableThen(repo: Repository, s: State, step: Step)
    requires Reachable(repo, s) && Enabled(repo, s, step)
    ensures Reachable(repo, Apply(repo, s, step))
  {
    hide Run, Enabled, Apply;
    var steps :| Run(repo, INIT, steps, s);
    RunThen(repo, INIT, steps, s, step);
  }

  /** When domains may be announced at any time, a deadlock can be reached if and only if
      some domain that resolves names an after-dependency that is not a dependency. */
  lemma DeadlockIffAfterDependency(repo: Repository)
    ensures CanDeadlock(repo) <==> exists d :: Resolves(repo, d) && !(After(repo, d) <= Deps(repo, d))
  {
    hide Run, Inv, NoAfters, Deadlocked, Search;
    if AftersAreDeps(repo) {
      if CanDeadlock(repo) {
        var s :| Reachable(repo, s) && HasDeadlock(s);
        var steps :| Run(repo, INIT, steps, s);
        InitInv(repo);
        InitIsCurrent();
        RunKeepsNoAfters(repo, INIT, steps, s);
        forall c | c != {} ensures !Deadlocked(s, c) { NoAftersNoDeadlock(repo, s, c); }
      }
    } else {
      var d :| Resolves(repo, d) && !(After(repo, d) <= Deps(repo, d));
      OutsideAfterDeadlocks(repo, d);
    }
  }

  // ------------------------------------------------------ repeated announcements

  lemma {:induction false} DeadFutureLasts(repo: Repository, s: State, steps: seq<Step>, t: State, i: FutureId)
    requires Inv(repo, s) && DeadFuture(s, {}, i) && Run(repo, s, steps, t)
    ensures DeadFuture(t, {}, i)
    decreases |steps|
  {
    hide Inv, DeadFuture, Frame, Settled;
    if steps != [] {
      var next := Apply(repo, s, steps[0]);
      StepIsFramed(repo, s, steps[0]);
      forall x | Settled(s, x) ensures Settled(next, x) { StepKeepsSettled(repo, s, steps[0], x); }
      FrameKeepsDead(s, next, steps[0].domain, Internal(steps[0]), {}, i);
      StepInv(repo, s, steps[0]);
      DeadFutureLasts(repo, next, steps[1..], t, i);
    }
  }

  /** The future that an announcement makes for a domain that is not being set up can be
      completed if and only if the domain is neither loaded nor has failed before: its set-up
      is not tried twice. Between two stages of the bootstrap no domain is being set up, so a
      stage that announces a domain which failed in an earlier one makes a future nobody
      completes, for every domain of the stage that names it as an after-dependency. */
  lemma AnnouncedCompletesIffNotTried(repo: Repository, s: State, x: Domain)
    requires Inv(repo, s) && x !in s.tasks
    ensures (exists steps, t :: Run(repo, Apply(repo, s, AnnounceLoad(x)), steps, t) && IsDone(t, |s.futures|))
       <==> x !in s.components && x !in s.setupFutures
  {
    hide Inv, Run;
    var t, i := Apply(repo, s, AnnounceLoad(x)), |s.futures|;
    StepInv(repo, s, AnnounceLoad(x));
    if x in s.components || x in s.setupFutures {
      TriedIsSettled(repo, t, x);
      assert DeadFuture(t, {}, i);
      forall steps, u | Run(repo, t, steps, u) ensures !IsDone(u, i) { DeadFutureLasts(repo, t, steps, u, i); }
    } else {
      var steps, u := CallAndFail(repo, t, x, i);
    }
  }

  lemma CallAndFail(repo: Repository, s: State, x: Domain, i: FutureId) returns (steps: seq<Step>, t: State)
    requires Inv(repo, s) && x !in s.setupFutures && x !in s.components
    requires x in s.loadFutures && s.loadFutures[x] == i
    ensures Run(repo, s, steps, t) && IsDone(t, i)
  {
    hide Run;
    assert LoadInv(s, x);
    var called := Apply(repo, s, Call(x));
    t, steps := Apply(repo, called, Fetched(x, true)), [];
    NoRun(repo, s);
    RunThen(repo, s, steps, s, Call(x));
    steps := steps + [Call(x)];
    RunThen(repo, s, steps, called, Fetched(x, true));
    steps := steps + [Fetched(x, true)];
  }

  lemma NoRun(repo: Repository, s: State)
    ensures Run(repo, s, [], s)
  {
  }

  lemma TriedIsSettled(repo: Repository, s: State, x: Domain)
    requires Inv(repo, s) && x !in s.tasks && (x in s.components || x in s.setupFutures)
    ensures Settled(s, x)
  {
  }

  // ------------------------------------------------------------------- instances

  lemma LeafResolves(repo: Repository, d: Domain)
    requires d in repo && repo[d].dependencies == []
    ensures Resolves(repo, d)
  {
  }

  /** Two integrations that name each other as after-dependencies pass the dependency check
      and, once both are announced, can wait for each other forever. */
  lemma MutualAfterDependenciesDeadlock()
    ensures exists repo: Repository ::
      CanDeadlock(repo) && CanDeadlockFresh(repo) && forall d :: d in repo ==> Resolves(repo, d)
  {
    hide CanDeadlock, CanDeadlockFresh, Resolves;
    var a, b := Domain("a"), Domain("b");
    var repo := map[a := Integration([], {b}, [], {}, true), b := Integration([], {a}, [], {}, true)];
    LeafResolves(repo, a);
    LeafResolves(repo, b);
    assert b in After(repo, a) && b !in Deps(repo, a);
    DeadlockIffAfterDependency(repo);
    assert b in Succ(SetupGraph(repo), a) && a in Succ(SetupGraph(repo), b);
    assert IsPath(SetupGraph(repo), b, a, [b, a]);
    assert ReachesPlus(SetupGraph(repo), a, a);
    FreshDeadlockIffCycle(repo);
  }

  /** `repo` consists of `d`, which names `x` as its only after-dependency, and of `x`. */
  ghost predicate OneAfterDependency(repo: Repository, d: Domain, x: Domain) {
    repo.Keys == {d, x} && d != x && After(repo, d) == {x} && After(repo, x) == {}
  }

  /** A single after-dependency is enough when a domain may be announced although it is
      announced already or its set-up is over: that makes a future nobody completes. With
      fresh announcements it is not. */
  lemma AnnouncingFailedDomainDeadlocks()
    ensures exists repo, d, x :: OneAfterDependency(repo, d, x) && CanDeadlock(repo) && !CanDeadlockFresh(repo)
                              && Resolves(repo, d) && Resolves(repo, x)
  {
    hide CanDeadlock, CanDeadlockFresh, Resolves;
    var d, x := Domain("d"), Domain("x");
    var repo := map[d := Integration([], {x}, [], {}, true), x := Integration([], {}, [], {}, true)];
    LeafResolves(repo, d);
    LeafResolves(repo, x);
    assert x in After(repo, d) && x !in Deps(repo, d);
    DeadlockIffAfterDependency(repo);
    FreshDeadlockIffCycle(repo);
    var g := SetupGraph(repo);
    assert Succ(g, x) == {} && Succ(g, d) == {x} && Closed(g, {x});
    forall y ensures !ReachesPlus(g, y, y) {
      if z :| z in Succ(g, y) && Reaches(g, z, y) { ClosedStays(g, {x}, z, y); }
    }
    assert OneAfterDependency(repo, d, x);
  }
}
