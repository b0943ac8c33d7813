/** What every run of the setup protocol keeps, and when it can get stuck. */
module SetupRuns {
  import opened Graphs
  import opened Loader
  import opened Options
  import opened Setup

  ghost predicate Run(repo: Repository, s: State, steps: seq<Step>, t: State)
    decreases |steps|
  {
    if steps == [] then s == t
    else Enabled(repo, s, steps[0]) && Run(repo, Apply(repo, s, steps[0]), steps[1..], t)
  }

  ghost predicate Reachable(repo: Repository, s: State) {
    exists steps :: Run(repo, INIT, steps, s)
  }

  lemma {:induction false} RunInv(repo: Repository, s: State, steps: seq<Step>, t: State)
    requires Inv(repo, s) && Run(repo, s, steps, t)
    ensures Inv(repo, t)
    decreases |steps|
  {
    if steps != [] {
      StepInv(repo, s, steps[0]);
      RunInv(repo, Apply(repo, s, steps[0]), steps[1..], t);
    }
  }

  lemma {:induction false} RunThen(repo: Repository, s: State, steps: seq<Step>, t: State, step: Step)
    requires Run(repo, s, steps, t) && Enabled(repo, t, step)
    ensures Run(repo, s, steps + [step], Apply(repo, t, step))
    decreases |steps|
  {
    var more := steps + [step];
    if steps == [] {
      assert more[1..] == [];
    } else {
      assert more[0] == steps[0] && more[1..] == steps[1..] + [step];
      RunThen(repo, Apply(repo, s, steps[0]), steps[1..], t, step);
    }
  }

  lemma ReachableInv(repo: Repository, s: State)
    requires Reachable(repo, s)
    ensures Inv(repo, s)
  {
    var steps :| Run(repo, INIT, steps, s);
    InitInv(repo);
    RunInv(repo, INIT, steps, s);
  }

  // ------------------------------------------------------------------- safety

  /** In every run each setup body starts at most once, and the loaded components are
      closed under dependencies and were added in a topological order. */
  lemma LoadedIsClosedAndOrdered(repo: Repository, s: State)
    requires Reachable(repo, s)
    ensures NoDuplicates(s.bodies)
    ensures s.components == ToSet(s.loadOrder) && Topological(repo, s.loadOrder)
    ensures forall d, x :: d in s.components && Reaches(DepGraph(repo), d, x) ==> x in s.components
  {
    ReachableInv(repo, s);
    LoadedClosed(repo, s);
    forall d, x | d in s.components && Reaches(DepGraph(repo), d, x)
      ensures x in s.components
    {
      ClosedStays(DepGraph(repo), s.components, d, x);
    }
  }

  lemma LoadedClosed(repo: Repository, s: State)
    requires Inv(repo, s)
    ensures Closed(DepGraph(repo), s.components)
  {
    forall d | d in s.components
      ensures Succ(DepGraph(repo), d) <= s.components
    {
      var i :| 0 <= i < |s.loadOrder| && s.loadOrder[i] == d;
      assert ToSet(s.loadOrder[..i]) <= ToSet(s.loadOrder);
    }
  }

  /** What a call of `async_setup_component` would return without waiting. */
  function Answer(s: State, d: Domain): Option<SetupResult> {
    if d in s.components then Some(Succeeded)
    else if d in s.setupFutures && s.setupFutures[d] < |s.futures| && s.futures[s.setupFutures[d]].status.Done?
    then Some(s.futures[s.setupFutures[d]].status.result)
    else None
  }

  /** Futures are never forgotten, their owner never changes, and a completed one keeps
      its result. */
  predicate Extends(s: seq<Future>, t: seq<Future>) {
    && |s| <= |t| <= |s| + 1
    && forall i :: 0 <= i < |s| ==>
         t[i].owner == s[i].owner && (s[i].status.Done? ==> t[i] == s[i])
  }

  lemma ReturnExtends(repo: Repository, s: State, d: Domain, result: SetupResult)
    requires Inv(repo, s) && Alive(s, d)
    ensures Extends(s.futures, Return(s, d, result).futures)
  {
    assert TaskInv(repo, s, d);
    assert d in s.loadFutures ==> LoadInv(s, d);
  }

  lemma StepExtends(repo: Repository, s: State, step: Step)
    requires Inv(repo, s) && Enabled(repo, s, step)
    ensures Extends(s.futures, Apply(repo, s, step).futures)
  {
    hide Inv, Resolves, AfterWaits, Return, Complete;
    var d := step.domain;
    match step
    case AnnounceLoad(_) =>
    case Call(_) =>
    case PlatformProcessed(_) =>
    case Fetched(_, _) => ReturnExtends(repo, s, d, Failed);
    case CollectNext(_) =>
    case CollectAfters(_) =>
    case Wake(_) => ReturnExtends(repo, s, d, Failed);
    case Installed(_, _) => ReturnExtends(repo, s, d, Failed);
    case Imported(_, _) => ReturnExtends(repo, s, d, Failed);
    case BodyReturned(_, _) => ReturnExtends(repo, s, d, Failed);
    case EntriesDone(_) => ReturnExtends(repo, s, d, Succeeded);
    case Raises(_) => ReturnExtends(repo, s, d, Raised);
    case AwaitRaises(_, handled) => ReturnExtends(repo, s, d, if handled then Failed else Raised);
  }

  /** A step completes only pending futures, so `set_result` never meets a finished one;
      what is loaded stays loaded and what failed stays failed. */
  lemma StepKeepsDone(repo: Repository, s: State, step: Step)
    requires Inv(repo, s) && Enabled(repo, s, step)
    ensures Extends(s.futures, Apply(repo, s, step).futures)
    ensures s.components <= Apply(repo, s, step).components
    ensures forall d :: FailedFor(s, d) ==> FailedFor(Apply(repo, s, step), d)
  {
    hide Inv, FailedFor, Extends;
    StepExtends(repo, s, step);
    var t := Apply(repo, s, step);
    forall d | FailedFor(s, d)
      ensures FailedFor(t, d)
    {
      FailureKept(repo, s, step, d);
    }
  }

  lemma FailureKept(repo: Repository, s: State, step: Step, d: Domain)
    requires Inv(repo, s) && Enabled(repo, s, step) && FailedFor(s, d)
    ensures FailedFor(Apply(repo, s, step), d)
    ensures Apply(repo, s, step).setupFutures[d] == s.setupFutures[d]
    ensures d in Apply(repo, s, step).components <==> d in s.components
  {
    hide Inv, Resolves;
    StepExtends(repo, s, step);
  }

  lemma TaskIsPending(repo: Repository, s: State, d: Domain)
    requires Inv(repo, s)
    ensures d in s.tasks ==>
      d in s.setupFutures && s.setupFutures[d] < |s.futures| && s.futures[s.setupFutures[d]].status.Pending?
    ensures d in s.setupFutures ==> d in s.tasks || FailedFor(s, d)
  {
    if d in s.tasks { assert TaskInv(repo, s, d); }
  }

  /** Once a call would be answered without waiting, every later call in every continuation
      gets that same answer: success, failure, or the exception. */
  lemma {:induction false} AnswerIsFinal(repo: Repository, s: State, steps: seq<Step>, t: State, d: Domain)
    requires Reachable(repo, s) && Run(repo, s, steps, t)
    requires Answer(s, d).Some?
    ensures Answer(t, d) == Answer(s, d)
  {
    ReachableInv(repo, s);
    AnswerKept(repo, s, steps, t, d);
  }

  lemma StepKeepsAnswer(repo: Repository, s: State, step: Step, d: Domain)
    requires Inv(repo, s) && Enabled(repo, s, step) && Answer(s, d).Some?
    ensures Answer(Apply(repo, s, step), d) == Answer(s, d)
  {
    hide Inv, Apply;
    StepKeepsDone(repo, s, step);
    if d !in s.components {
      TaskIsPending(repo, s, d);
      FailureKept(repo, s, step, d);
    }
  }

  lemma {:induction false} AnswerKept(repo: Repository, s: State, steps: seq<Step>, t: State, d: Domain)
    requires Inv(repo, s) && Run(repo, s, steps, t)
    requires Answer(s, d).Some?
    ensures Answer(t, d) == Answer(s, d)
    decreases |steps|
  {
    if steps != [] {
      StepKeepsAnswer(repo, s, steps[0], d);
      StepInv(repo, s, steps[0]);
      AnswerKept(repo, Apply(repo, s, steps[0]), steps[1..], t, d);
    }
  }

  /** No two setup futures were ever made for the same domain. */
  predicate UniqueOwners(futures: seq<Future>) {
    forall i, j :: 0 <= i < j < |futures| && futures[i].owner.SetupOf? ==> futures[i].owner != futures[j].owner
  }

  /** Only starting a task makes a setup future, and only for a domain that has none. */
  lemma StepKeepsUnique(repo: Repository, s: State, step: Step)
    requires Inv(repo, s) && UniqueOwners(s.futures) && Enabled(repo, s, step)
    ensures UniqueOwners(Apply(repo, s, step).futures)
  {
    hide Resolves, Topological, BodyInv, NoDuplicates, AfterWaits, TaskInv;
    StepKeepsDone(repo, s, step);
    var t := Apply(repo, s, step);
    if |t.futures| > |s.futures| && t.futures[|s.futures|].owner.SetupOf? {
      var x := t.futures[|s.futures|].owner.domain;
      TaskIsPending(repo, s, x);
      forall i | 0 <= i < |s.futures|
        ensures s.futures[i].owner != SetupOf(x)
      {
        assert FutureInv(s, i);
      }
    }
  }

  lemma {:induction false} RunUnique(repo: Repository, s: State, steps: seq<Step>, t: State)
    requires Inv(repo, s) && UniqueOwners(s.futures) && Run(repo, s, steps, t)
    ensures UniqueOwners(t.futures)
    decreases |steps|
  {
    if steps != [] {
      StepInv(repo, s, steps[0]);
      StepKeepsUnique(repo, s, steps[0]);
      RunUnique(repo, Apply(repo, s, steps[0]), steps[1..], t);
    }
  }

  /** At most one setup future is ever made for a domain. */
  lemma OneSetupFuturePerDomain(repo: Repository, s: State, i: FutureId, j: FutureId, d: Domain)
    requires Reachable(repo, s)
    requires OwnedBy(s, i, SetupOf(d)) && OwnedBy(s, j, SetupOf(d))
    ensures i == j
  {
    var steps :| Run(repo, INIT, steps, s);
    InitInv(repo);
    RunUnique(repo, INIT, steps, s);
  }

  // -------------------------------------------------------------------- waiting

  predicate PendingIn(s: State, waits: map<Domain, FutureId>, x: Domain) {
    x in waits && waits[x] < |s.futures| && s.futures[waits[x]].status.Pending?
  }

  /** `d` is suspended until the setup of its dependency `x` is over. */
  predicate WaitsForDep(s: State, d: Domain, x: Domain) {
    d in s.tasks && s.tasks[d].phase.Waiting? && PendingIn(s, s.tasks[d].phase.waits, x)
  }

  /** `d` is suspended until its after-dependency `x` is over. */
  predicate WaitsForAfter(s: State, d: Domain, x: Domain) {
    d in s.tasks && s.tasks[d].phase.Waiting? && PendingIn(s, s.tasks[d].phase.afters, x)
  }

  predicate WaitPath(s: State, p: seq<Domain>) {
    forall i :: 0 <= i < |p| - 1 ==> WaitsForDep(s, p[i], p[i + 1]) || WaitsForAfter(s, p[i], p[i + 1])
  }

  /** How many edges of the path are waits for an after-dependency only. */
  function AfterEdges(s: State, p: seq<Domain>): nat {
    if |p| < 2 then 0
    else (if WaitsForDep(s, p[0], p[1]) then 0 else 1) + AfterEdges(s, p[1..])
  }

  lemma DepWaitIsEdge(repo: Repository, s: State, d: Domain, x: Domain)
    requires Inv(repo, s) && WaitsForDep(s, d, x)
    ensures x in Succ(DepGraph(repo), d) && Resolves(repo, d) && x in s.tasks
  {
    assert TaskInv(repo, s, d);
    assert FutureInv(s, s.tasks[d].phase.waits[x]);
  }

  lemma {:induction false} DepOnlyPath(repo: Repository, s: State, p: seq<Domain>)
    requires Inv(repo, s) && p != [] && WaitPath(s, p) && AfterEdges(s, p) == 0
    ensures Reaches(DepGraph(repo), p[0], p[|p| - 1])
    ensures |p| > 1 ==> ReachesPlus(DepGraph(repo), p[0], p[|p| - 1])
    decreases |p|
  {
    if |p| == 1 {
      ReachesRefl(DepGraph(repo), p[0]);
    } else {
      DepWaitIsEdge(repo, s, p[0], p[1]);
      DepOnlyPath(repo, s, p[1..]);
      EdgeReaches(DepGraph(repo), p[0], p[1]);
      ReachesTrans(DepGraph(repo), p[0], p[1], p[|p| - 1]);
    }
  }

  /** A path with one after-edge is a dependency path, the after-edge, a dependency path. */
  lemma {:induction false} OneAfterEdge(repo: Repository, s: State, p: seq<Domain>) returns (i: nat)
    requires Inv(repo, s) && WaitPath(s, p) && AfterEdges(s, p) == 1
    ensures i < |p| - 1 && WaitsForAfter(s, p[i], p[i + 1])
    ensures Reaches(DepGraph(repo), p[0], p[i]) && Reaches(DepGraph(repo), p[i + 1], p[|p| - 1])
    ensures |p| > 2 ==> ReachesPlus(DepGraph(repo), p[0], p[i]) || ReachesPlus(DepGraph(repo), p[i + 1], p[|p| - 1])
    decreases |p|
  {
    var g := DepGraph(repo);
    if WaitsForDep(s, p[0], p[1]) {
      var j := OneAfterEdge(repo, s, p[1..]);
      i := j + 1;
      DepWaitIsEdge(repo, s, p[0], p[1]);
      EdgeReaches(g, p[0], p[1]);
      PlusThenReaches(g, p[0], p[1], p[i]);
      PlusIsReaches(g, p[0], p[i]);
    } else {
      i := 0;
      ReachesRefl(g, p[0]);
      DepOnlyPath(repo, s, p[1..]);
    }
  }

  /** Every cycle of waits in a reachable state uses at least two after-dependency edges,
      except that of a domain which lists itself as an after-dependency. */
  lemma WaitCycleNeedsTwoAfterEdges(repo: Repository, s: State, p: seq<Domain>)
    requires Reachable(repo, s)
    requires |p| > 1 && WaitPath(s, p) && p[0] == p[|p| - 1]
    ensures AfterEdges(s, p) >= 2 || (|p| == 2 && p[0] in s.tasks && WaitsForAfter(s, p[0], p[0]))
  {
    ReachableInv(repo, s);
    WaitCycle(repo, s, p);
  }

  lemma WaitCycle(repo: Repository, s: State, p: seq<Domain>)
    requires Inv(repo, s)
    requires |p| > 1 && WaitPath(s, p) && p[0] == p[|p| - 1]
    ensures AfterEdges(s, p) >= 2 || (|p| == 2 && p[0] in s.tasks && WaitsForAfter(s, p[0], p[0]))
  {
    var g, last := DepGraph(repo), p[|p| - 1];
    if AfterEdges(s, p) == 0 {
      ReachesRefl(g, p[0]);
      DepWaitIsEdge(repo, s, p[0], p[1]);
      DepOnlyPath(repo, s, p);
      SearchSound(repo, p[0]);
    } else if AfterEdges(s, p) == 1 && |p| > 2 {
      var i := OneAfterEdge(repo, s, p);
      var d, x := p[i], p[i + 1];
      if ReachesPlus(g, x, last) {
        PlusThenReaches(g, x, last, d);
      } else {
        ReachesThenPlus(g, x, last, d);
      }
      assert TaskInv(repo, s, d);
      assert WaitsForDep(s, p[i + 1], p[if i + 2 < |p| then i + 2 else 1])
          || WaitsForAfter(s, p[i + 1], p[if i + 2 < |p| then i + 2 else 1]);
      assert TaskInv(repo, s, x);
      SearchSound(repo, x);
    }
  }
}
