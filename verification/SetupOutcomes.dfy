/** How the set-up of a domain ends and why, step by step and over whole runs. */
module SetupOutcomes {
  import opened Graphs
  import opened Loader
  import opened Setup
  import opened SetupRuns
  import opened SetupProgress

  // --------------------------------------------------------- dependencies decide

  /** A domain that wakes up fails if and only if a dependency of it is not loaded, whatever
      became of its after-dependencies; otherwise it goes on to its requirements. */
  lemma WakeFailsIffDependencyMissing(repo: Repository, s: State, d: Domain)
    requires Inv(repo, s) && Enabled(repo, s, Wake(d))
    ensures d in repo
    ensures var t := Apply(repo, s, Wake(d));
      && (FailedFor(t, d) <==> !(Deps(repo, d) <= s.components))
      && (Deps(repo, d) <= s.components ==> d in t.tasks && t.tasks[d].phase.Installing?)
  {
    WakingResolves(repo, s, d);
    hide Resolves;
    var waits := s.tasks[d].phase.waits;
    assert TaskInv(repo, s, d);
    if x :| x in waits && s.futures[waits[x]].status.result.Failed? {
      assert FutureInv(s, waits[x]);
      assert x in Deps(repo, d) && x !in s.components;
      EndsTask(repo, s, d, Failed);
    } else {
      forall x | x in Deps(repo, d) ensures x in s.components { if x in waits { assert FutureInv(s, waits[x]); } }
    }
  }

  /** A task that ends hands its result to everybody who waits for the domain. */
  lemma EndsTask(repo: Repository, s: State, d: Domain, result: SetupResult)
    requires Inv(repo, s) && Alive(s, d) && (result.Failed? ==> d !in s.components)
    ensures var t := Return(s, d, result);
      && d !in t.tasks && d !in t.loadFutures
      && s.tasks[d].future < |t.futures| && t.futures[s.tasks[d].future].status == Done(result)
      && (d in s.loadFutures ==>
            s.loadFutures[d] < |t.futures| && t.futures[s.loadFutures[d]].status == Done(result))
      && (!result.Succeeded? ==> FailedFor(t, d))
      && t.components == s.components
  {
    assert TaskInv(repo, s, d);
    assert d in s.loadFutures ==> LoadInv(s, d);
  }

  /** The step ends a set-up without success by itself, not because of a dependency. */
  predicate OwnFailure(repo: Repository, step: Step) {
    match step
    case Fetched(d, disabled) => disabled || !Resolves(repo, d)
    case Installed(_, ok) => !ok
    case Imported(_, ok) => !ok
    case BodyReturned(_, ok) => !ok
    case Raises(_) => true
    case AwaitRaises(_, _) => true
    case _ => false
  }

  /** A task ends with this step if and only if the entries of the domain are set up, or the
      step fails or raises, or a dependency turns out to be missing. The result is success in
      the first case, the exception if one leaves, and failure otherwise. */
  lemma TaskEndsIff(repo: Repository, s: State, step: Step)
    requires Inv(repo, s) && Enabled(repo, s, step) && Internal(step)
    ensures var t, d := Apply(repo, s, step), step.domain;
      && (d !in t.tasks <==>
            || step.EntriesDone? || OwnFailure(repo, step)
            || (step.Wake? && d in repo && !(Deps(repo, d) <= s.components)))
      && (d !in t.tasks ==>
            && t == Return(s, d, ResultOf(step))
            && (FailedFor(t, d) <==> !step.EntriesDone?))
  {
    hide Inv, Resolves, AfterWaits, FailedFor, Return;
    var d := step.domain;
    if step.Wake? {
      WakeFailsIffDependencyMissing(repo, s, d);
      WakeEnds(repo, s, d);
    } else if step.CollectNext? || step.CollectAfters? {
    } else if OwnFailure(repo, step) {
      PhaseBefore(repo, s, step);
      EndsTask(repo, s, d, ResultOf(step));
    } else if step.EntriesDone? {
      EndsTask(repo, s, d, Succeeded);
      SucceededHasNotFailed(repo, s, d);
    }
  }

  lemma WakingResolves(repo: Repository, s: State, d: Domain)
    requires Inv(repo, s) && Enabled(repo, s, Wake(d))
    ensures d in repo
  {
    assert TaskInv(repo, s, d);
  }

  lemma WakeEnds(repo: Repository, s: State, d: Domain)
    requires Inv(repo, s) && Enabled(repo, s, Wake(d))
    ensures var t := Apply(repo, s, Wake(d)); d in t.tasks || t == Return(s, d, Failed)
    ensures FailedFor(Apply(repo, s, Wake(d)), d) ==> d !in Apply(repo, s, Wake(d)).tasks
    ensures var t := Apply(repo, s, Wake(d)); d in t.tasks ==> t.tasks[d].phase.Installing?
  {
  }

  /** A step that fails is one of a domain that does not count as loaded. */
  lemma PhaseBefore(repo: Repository, s: State, step: Step)
    requires Inv(repo, s) && Enabled(repo, s, step) && OwnFailure(repo, step)
    ensures Alive(s, step.domain) && (ResultOf(step).Failed? ==> step.domain !in s.components)
  {
    assert TaskInv(repo, s, step.domain);
  }

  lemma SucceededHasNotFailed(repo: Repository, s: State, d: Domain)
    requires Inv(repo, s) && Alive(s, d)
    ensures !FailedFor(Return(s, d, Succeeded), d)
  {
  }

  // ----------------------------------------------------------------- over runs

  /** A domain whose set-up has failed had a step of its own fail or raise, or has a
      dependency whose set-up has failed. */
  lemma {:induction false} FailureHasCause(repo: Repository, s: State, steps: seq<Step>, t: State, d: Domain)
    requires Inv(repo, s) && Run(repo, s, steps, t) && !FailedFor(s, d) && FailedFor(t, d)
    ensures Failing(repo, steps, d) || DependencyFailed(repo, t, d)
    decreases |steps|
  {
    hide Inv, FailedFor, Enabled, Apply, OwnFailure, DependencyFailed;
    var step, rest := steps[0], steps[1..];
    var next := Apply(repo, s, step);
    StepInv(repo, s, step);
    if FailedFor(next, d) {
      CauseOfStep(repo, s, step, d);
      if DependencyFailed(repo, next, d) { DependencyStaysFailed(repo, next, rest, t, d); }
    } else {
      FailureHasCause(repo, next, rest, t, d);
      if Failing(repo, rest, d) {
        var i :| 0 <= i < |rest| && rest[i].domain == d && OwnFailure(repo, rest[i]);
        assert steps[i + 1] == rest[i];
      }
    }
  }

  ghost predicate Failing(repo: Repository, steps: seq<Step>, d: Domain) {
    exists i :: 0 <= i < |steps| && steps[i].domain == d && OwnFailure(repo, steps[i])
  }

  ghost predicate DependencyFailed(repo: Repository, s: State, d: Domain) {
    d in repo && exists x :: x in Deps(repo, d) && FailedFor(s, x)
  }

  lemma CauseOfStep(repo: Repository, s: State, step: Step, d: Domain)
    requires Inv(repo, s) && Enabled(repo, s, step) && !FailedFor(s, d) && FailedFor(Apply(repo, s, step), d)
    ensures step.domain == d && (OwnFailure(repo, step) || DependencyFailed(repo, Apply(repo, s, step), d))
  {
    OthersDoNotFail(repo, s, step, d);
    hide Inv, FailedFor, Enabled, Apply, OwnFailure;
    TaskEndsIff(repo, s, step);
    FailedIsOver(repo, Apply(repo, s, step), d);
    if step.Wake? { FailedDependency(repo, s, d); }
  }

  lemma FailedIsOver(repo: Repository, s: State, d: Domain)
    ensures FailedFor(s, d) ==> d !in s.tasks
  {
  }

  /** Only a step of the domain's own task ends it. */
  lemma OthersDoNotFail(repo: Repository, s: State, step: Step, d: Domain)
    requires Inv(repo, s) && Enabled(repo, s, step) && !FailedFor(s, d) && FailedFor(Apply(repo, s, step), d)
    ensures step.domain == d && Internal(step)
  {
    StepIsFramed(repo, s, step);
    StepKeepsDone(repo, s, step);
    hide Resolves, AfterWaits, PhaseInv;
    TaskIsPending(repo, s, d);
  }

  lemma FailedDependency(repo: Repository, s: State, d: Domain)
    requires Inv(repo, s) && Enabled(repo, s, Wake(d)) && FailedFor(Apply(repo, s, Wake(d)), d)
    ensures DependencyFailed(repo, Apply(repo, s, Wake(d)), d)
  {
    WakingResolves(repo, s, d);
    hide Resolves;
    var waits := s.tasks[d].phase.waits;
    assert TaskInv(repo, s, d);
    var x :| x in waits && s.futures[waits[x]].status.result.Failed?;
    assert FutureInv(s, waits[x]);
    assert FailedFor(s, x) && x in Deps(repo, d);
    FailureKept(repo, s, Wake(d), x);
  }

  lemma {:induction false} DependencyStaysFailed(repo: Repository, s: State, steps: seq<Step>, t: State, d: Domain)
    requires Inv(repo, s) && Run(repo, s, steps, t) && DependencyFailed(repo, s, d)
    ensures DependencyFailed(repo, t, d)
    decreases |steps|
  {
    hide Inv, FailedFor, Enabled, Apply;
    if steps != [] {
      var x :| x in Deps(repo, d) && FailedFor(s, x);
      FailureKept(repo, s, steps[0], x);
      StepInv(repo, s, steps[0]);
      DependencyStaysFailed(repo, Apply(repo, s, steps[0]), steps[1..], t, d);
    }
  }

  // -------------------------------------------------------- the stages of a set-up

  /** What has happened to a domain that is this far. A domain is processed when the
      requirements of it and its dependencies are installed. */
  ghost predicate Traced(repo: Repository, past: seq<Step>, s: State, d: Domain) {
    && (d in s.processed ==> Installed(d, true) in past || PlatformProcessed(d) in past)
    && TracedTask(repo, past, s, d)
    && TracedBody(repo, past, s, d)
    && (d in s.components <==> BodyReturned(d, true) in past)
  }

  ghost predicate TracedTask(repo: Repository, past: seq<Step>, s: State, d: Domain) {
    d in s.tasks ==>
      var p := s.tasks[d].phase;
      && (!p.Fetching? ==> Fetched(d, false) in past && Resolves(repo, d))
      && (p.Importing? ==> d in s.processed)
      && (p.Running? ==> d in s.bodies)
  }

  ghost predicate TracedBody(repo: Repository, past: seq<Step>, s: State, d: Domain) {
    && (d in s.bodies <==> Imported(d, true) in past)
    && (d in s.bodies ==> d in s.processed && Fetched(d, false) in past && Resolves(repo, d))
    && (d in s.components ==> d in s.bodies)
  }

  lemma SnocContains(past: seq<Step>, step: Step)
    ensures forall x :: x in past + [step] <==> x in past || x == step
  {
  }

  lemma OwnStepTraces(repo: Repository, past: seq<Step>, s: State, step: Step, d: Domain)
    requires Enabled(repo, s, step) && TracedTask(repo, past, s, d) && step.domain == d && Internal(step)
    ensures TracedTask(repo, past + [step], Apply(repo, s, step), d)
  {
    SnocContains(past, step);
    hide Resolves, AfterWaits, Complete;
  }

  lemma OthersLeaveTask(repo: Repository, s: State, step: Step, d: Domain)
    requires Enabled(repo, s, step) && (step.domain != d || !Internal(step))
    ensures var t := Apply(repo, s, step);
      && (d in t.tasks ==> t.tasks[d].phase.Fetching? || (d in s.tasks && t.tasks[d] == s.tasks[d]))
      && (d in s.processed ==> d in t.processed) && (d in s.bodies ==> d in t.bodies)
  {
    hide Resolves, AfterWaits, Complete;
  }

  lemma StepTracesTask(repo: Repository, past: seq<Step>, s: State, step: Step, d: Domain)
    requires Enabled(repo, s, step) && TracedTask(repo, past, s, d)
    ensures TracedTask(repo, past + [step], Apply(repo, s, step), d)
  {
    SnocContains(past, step);
    if step.domain == d && Internal(step) {
      OwnStepTraces(repo, past, s, step, d);
    } else {
      OthersLeaveTask(repo, s, step, d);
      hide Resolves, Apply, Enabled;
    }
  }

  lemma StepTracesBody(repo: Repository, past: seq<Step>, s: State, step: Step, d: Domain)
    requires Inv(repo, s) && Enabled(repo, s, step)
    requires TracedTask(repo, past, s, d) && TracedBody(repo, past, s, d)
    ensures TracedBody(repo, past + [step], Apply(repo, s, step), d)
  {
    SnocContains(past, step);
    hide Inv, Resolves, AfterWaits, Complete;
  }

  lemma StepKeepsTraced(repo: Repository, past: seq<Step>, s: State, step: Step, d: Domain)
    requires Inv(repo, s) && Enabled(repo, s, step) && Traced(repo, past, s, d)
    ensures Traced(repo, past + [step], Apply(repo, s, step), d)
  {
    SnocContains(past, step);
    StepTracesTask(repo, past, s, step, d);
    StepTracesBody(repo, past, s, step, d);
    hide Inv, Resolves, AfterWaits, Complete, TracedTask, TracedBody;
  }

  lemma {:induction false} RunIsTraced(
      repo: Repository, past: seq<Step>, s: State, steps: seq<Step>, t: State, d: Domain)
    requires Inv(repo, s) && Traced(repo, past, s, d) && Run(repo, s, steps, t)
    ensures Traced(repo, past + steps, t, d)
    decreases |steps|
  {
    hide Inv, Traced, Enabled, Apply;
    if steps == [] {
      assert past + steps == past;
    } else {
      StepKeepsTraced(repo, past, s, steps[0], d);
      StepInv(repo, s, steps[0]);
      assert past + [steps[0]] + steps[1..] == past + steps;
      RunIsTraced(repo, past + [steps[0]], Apply(repo, s, steps[0]), steps[1..], t, d);
    }
  }

  /** A domain is loaded in the end if and only if its setup function has returned true. By
      then its dependencies had resolved, its requirements were installed, by itself or for a
      platform of it, and it was imported; the setup function starts exactly then. */
  lemma LoadedWentThroughAll(repo: Repository, steps: seq<Step>, t: State, d: Domain)
    requires Run(repo, INIT, steps, t)
    ensures d in t.components <==> BodyReturned(d, true) in steps
    ensures d in t.bodies <==> Imported(d, true) in steps
    ensures d in t.components ==> d in t.bodies
    ensures d in t.bodies ==>
      Resolves(repo, d) && Fetched(d, false) in steps && (Installed(d, true) in steps || PlatformProcessed(d) in steps)
  {
    hide Resolves;
    InitInv(repo);
    assert Traced(repo, [], INIT, d);
    assert [] + steps == steps;
    RunIsTraced(repo, [], INIT, steps, t, d);
  }

  /** A domain whose requirements are installed already is imported next; any other that
      resolves collects its dependencies, all of them. */
  lemma FetchedGoesOn(repo: Repository, s: State, d: Domain)
    requires Enabled(repo, s, Fetched(d, false)) && Resolves(repo, d)
    ensures var t := Apply(repo, s, Fetched(d, false));
      && d in t.tasks
      && (d in s.processed <==> t.tasks[d].phase.Importing?)
      && (d !in s.processed ==>
            t.tasks[d].phase.Collecting? && ToSet(t.tasks[d].phase.pending) == Deps(repo, d))
  {
    hide Resolves;
  }

  // -------------------------------------------------------------- after-dependencies

  /** The task waits for the after-dependency on this future. */
  predicate AwaitsAfter(s: State, d: Domain, x: Domain, i: FutureId) {
    d in s.tasks && s.tasks[d].phase.Waiting? && x in s.tasks[d].phase.afters && s.tasks[d].phase.afters[x] == i
  }

  /** Collecting awaits exactly the after-dependencies that are announced, not loaded, and not
      awaited as dependencies; with nothing to await the task goes on to the requirements. */
  lemma CollectAwaits(repo: Repository, s: State, d: Domain)
    requires Enabled(repo, s, CollectAfters(d))
    ensures var t, waits := Apply(repo, s, CollectAfters(d)), s.tasks[d].phase.waits;
      && d in t.tasks
      && (forall x :: AwaitsOne(repo, s, d, x) ==> AwaitsAfter(t, d, x, s.loadFutures[x]))
      && (t.tasks[d].phase.Waiting? ==>
            t.tasks[d].phase.waits == waits && forall x :: x in t.tasks[d].phase.afters ==> AwaitsOne(repo, s, d, x))
      && (t.tasks[d].phase.Installing? <==> waits == map[] && forall x :: !AwaitsOne(repo, s, d, x))
  {
    var waits := s.tasks[d].phase.waits;
    var afters := AfterWaits(repo, s, d, waits);
    forall x ensures AwaitsOne(repo, s, d, x) <==> x in afters {}
    assert afters == map[] <==> forall x :: x !in afters;
  }

  predicate AwaitsOne(repo: Repository, s: State, d: Domain, x: Domain) {
    && d in repo && x in After(repo, d) && x in s.loadFutures && x !in s.components
    && d in s.tasks && s.tasks[d].phase.Collecting? && x !in s.tasks[d].phase.waits
  }

  lemma StepKeepsAwaiting(repo: Repository, s: State, step: Step, d: Domain, x: Domain, i: FutureId)
    requires Inv(repo, s) && Enabled(repo, s, step) && AwaitsAfter(s, d, x, i) && i < |s.futures|
    ensures var t := Apply(repo, s, step);
      i < |t.futures| && (AwaitsAfter(t, d, x, i) || IsDone(t, i) || FailedFor(t, d))
  {
    StepExtends(repo, s, step);
    if step.domain == d && Internal(step) {
      TaskEndsIff(repo, s, step);
    } else {
      StepIsFramed(repo, s, step);
    }
    hide Inv, Resolves, FailedFor;
  }

  /** An awaited after-dependency comes first: as long as its future is pending the task waits,
      unless an exception of something else that it awaits ends it. */
  lemma {:induction false} AfterDependencyComesFirst(
      repo: Repository, s: State, steps: seq<Step>, t: State, d: Domain, x: Domain, i: FutureId)
    requires Inv(repo, s) && Run(repo, s, steps, t) && AwaitsAfter(s, d, x, i) && i < |s.futures|
    ensures AwaitsAfter(t, d, x, i) || IsDone(t, i) || FailedFor(t, d)
    decreases |steps|
  {
    hide Inv, Enabled, Apply, FailedFor, AwaitsAfter;
    if steps != [] {
      var next := Apply(repo, s, steps[0]);
      StepKeepsAwaiting(repo, s, steps[0], d, x, i);
      StepInv(repo, s, steps[0]);
      if AwaitsAfter(next, d, x, i) {
        AfterDependencyComesFirst(repo, next, steps[1..], t, d, x, i);
      } else {
        StaysOver(repo, next, steps[1..], t, d, i);
      }
    }
  }

  lemma {:induction false} StaysOver(
      repo: Repository, s: State, steps: seq<Step>, t: State, d: Domain, i: FutureId)
    requires Inv(repo, s) && Run(repo, s, steps, t) && (IsDone(s, i) || FailedFor(s, d))
    ensures IsDone(t, i) || FailedFor(t, d)
    decreases |steps|
  {
    hide Inv, Enabled, Apply, FailedFor;
    if steps != [] {
      StepKeepsDone(repo, s, steps[0]);
      StepInv(repo, s, steps[0]);
      StaysOver(repo, Apply(repo, s, steps[0]), steps[1..], t, d, i);
    }
  }
}
