/** The tasks of the setup protocol cannot run forever. */
module SetupTermination {
  import opened Graphs
  import opened Loader
  import opened Setup
  import opened SetupRuns
  import opened SetupProgress

  // ------------------------------------------------------------------ termination

  function DepCount(repo: Repository, d: Domain): nat {
    if d in repo then |repo[d].dependencies| else 0
  }

  /** How many steps the task of a domain can still take, including the ones of a task that
      has not been started yet. */
  function Weight(repo: Repository, s: State, d: Domain): nat {
    if d in s.tasks then
      match s.tasks[d].phase
      case Fetching => 7 + DepCount(repo, d)
      case Collecting(pending, _) => 6 + |pending|
      case Waiting(_, _) => 5
      case Installing => 4
      case Importing => 3
      case Running => 2
      case Finishing => 1
    else if d in s.components || d in s.setupFutures then 0
    else 8 + DepCount(repo, d)
  }

  function Total(repo: Repository, s: State, domains: seq<Domain>): nat {
    if domains == [] then 0
    else Weight(repo, s, domains[0]) + Total(repo, s, domains[1..])
  }

  /** `domains` lists every domain a task exists for or may be started for. */
  predicate Covers(repo: Repository, s: State, domains: seq<Domain>) {
    && s.tasks.Keys <= ToSet(domains)
    && forall d :: d in repo ==> Deps(repo, d) <= ToSet(domains)
  }

  lemma ReturnWeight(repo: Repository, s: State, d: Domain, result: SetupResult, e: Domain)
    requires Inv(repo, s) && Alive(s, d) && (result.Succeeded? ==> d in s.components)
    ensures Weight(repo, Return(s, d, result), e) <= Weight(repo, s, e)
    ensures Weight(repo, Return(s, d, result), d) < Weight(repo, s, d)
  {
    assert TaskInv(repo, s, d);
  }

  lemma CollectNextWeight(repo: Repository, s: State, d: Domain, e: Domain)
    requires Inv(repo, s) && Enabled(repo, s, CollectNext(d))
    ensures Weight(repo, Apply(repo, s, CollectNext(d)), e) <= Weight(repo, s, e)
    ensures Weight(repo, Apply(repo, s, CollectNext(d)), d) < Weight(repo, s, d)
  {
    hide Inv;
    TaskIsPending(repo, s, d);
    TaskIsPending(repo, s, s.tasks[d].phase.pending[0]);
  }

  /** Moving a task on to a later phase. */
  lemma AdvanceWeight(repo: Repository, s: State, d: Domain, p: Phase, t: State, e: Domain)
    requires d in s.tasks && t.tasks == SetPhase(s, d, p).tasks
    requires t.setupFutures == s.setupFutures && s.components <= t.components
    ensures e != d ==> Weight(repo, t, e) <= Weight(repo, s, e)
  {
  }

  lemma FinishingIsLoaded(repo: Repository, s: State, d: Domain)
    requires Inv(repo, s) && d in s.tasks && s.tasks[d].phase.Finishing?
    ensures d in s.components
  {
    assert TaskInv(repo, s, d);
  }

  lemma StepWeight(repo: Repository, s: State, step: Step, e: Domain)
    requires Inv(repo, s) && Enabled(repo, s, step) && Internal(step)
    ensures e != step.domain ==> Weight(repo, Apply(repo, s, step), e) <= Weight(repo, s, e)
    ensures Weight(repo, Apply(repo, s, step), step.domain) < Weight(repo, s, step.domain)
  {
    hide Resolves, Inv, AfterWaits, Complete;
    var d, t := step.domain, Apply(repo, s, step);
    match step
    case Fetched(_, _) =>
      ResolvesIsListed(repo, d);
      ReturnWeight(repo, s, d, Failed, e);
      if d in t.tasks { AdvanceWeight(repo, s, d, t.tasks[d].phase, t, e); }
    case CollectNext(_) => CollectNextWeight(repo, s, d, e);
    case CollectAfters(_) => AdvanceWeight(repo, s, d, t.tasks[d].phase, t, e);
    case Wake(_) =>
      ReturnWeight(repo, s, d, Failed, e);
      if d in t.tasks { AdvanceWeight(repo, s, d, t.tasks[d].phase, t, e); }
    case Installed(_, ok) =>
      if ok { AdvanceWeight(repo, s, d, Importing, t, e); } else { ReturnWeight(repo, s, d, Failed, e); }
    case Imported(_, ok) =>
      if ok { AdvanceWeight(repo, s, d, Running, t, e); } else { ReturnWeight(repo, s, d, Failed, e); }
    case BodyReturned(_, ok) =>
      if ok { AdvanceWeight(repo, s, d, Finishing, t, e); } else { ReturnWeight(repo, s, d, Failed, e); }
    case EntriesDone(_) =>
      FinishingIsLoaded(repo, s, d);
      ReturnWeight(repo, s, d, Succeeded, e);
    case Raises(_) => ReturnWeight(repo, s, d, Raised, e);
    case AwaitRaises(_, handled) => ReturnWeight(repo, s, d, if handled then Failed else Raised, e);
  }

  lemma {:induction false} TotalDrops(repo: Repository, s: State, step: Step, domains: seq<Domain>)
    requires Inv(repo, s) && Enabled(repo, s, step) && Internal(step)
    ensures Total(repo, Apply(repo, s, step), domains) <= Total(repo, s, domains)
    ensures step.domain in domains ==> Total(repo, Apply(repo, s, step), domains) < Total(repo, s, domains)
    decreases |domains|
  {
    if domains != [] {
      StepWeight(repo, s, step, domains[0]);
      TotalDrops(repo, s, step, domains[1..]);
    }
  }

  lemma StepCovers(repo: Repository, s: State, step: Step, domains: seq<Domain>)
    requires Inv(repo, s) && Enabled(repo, s, step) && Internal(step) && Covers(repo, s, domains)
    ensures Covers(repo, Apply(repo, s, step), domains)
  {
    var d := step.domain;
    assert TaskInv(repo, s, d);
    if step.CollectNext? {
      var p := s.tasks[d].phase;
      assert p.pending[0] in ToSet(p.pending);
    }
  }

  /** Without new calls from outside, every run of the protocol is finite: its length is
      bounded by the work left in its first state. */
  lemma {:induction false} InternalRunsAreFinite(repo: Repository, s: State, steps: seq<Step>, t: State,
                                                 domains: seq<Domain>)
    requires Inv(repo, s) && Covers(repo, s, domains)
    requires Run(repo, s, steps, t) && forall i :: 0 <= i < |steps| ==> Internal(steps[i])
    ensures |steps| + Total(repo, t, domains) <= Total(repo, s, domains)
    decreases |steps|
  {
    if steps != [] {
      var u := Apply(repo, s, steps[0]);
      TotalDrops(repo, s, steps[0], domains);
      StepInv(repo, s, steps[0]);
      StepCovers(repo, s, steps[0], domains);
      InternalRunsAreFinite(repo, u, steps[1..], t, domains);
    }
  }
}
