/** The setup protocol of homeassistant/setup.py as a state machine: every `await` that can
    suspend ends a step, so a run is any interleaving of the steps of the domains' tasks. */
module Setup {
  import opened Graphs
  import opened Loader

  /** How the set-up of a domain ends: it returns true, returns false, or raises. */
  datatype SetupResult = Succeeded | Failed | Raised

  datatype Status = Pending | Done(result: SetupResult)

  /** A future of `DATA_SETUP` or of `DATA_SETUP_DONE`, with the domain it was made for. */
  datatype Owner = SetupOf(domain: Domain) | LoadOf(domain: Domain)
  datatype Future = Future(owner: Owner, status: Status)
  type FutureId = nat

  /** Where the `_async_setup_component` task of a domain is suspended. */
  datatype Phase =
    | Fetching
    | Collecting(pending: seq<Domain>, waits: map<Domain, FutureId>)
    | Waiting(waits: map<Domain, FutureId>, afters: map<Domain, FutureId>)
    | Installing
    | Importing
    | Running
    | Finishing

  datatype Task = Task(future: FutureId, phase: Phase)

  /** `bodies` and `loadOrder` record in which order setup functions were entered and
      domains were added to `hass.config.components`. */
  datatype State = State(
    components: set<Domain>,
    setupFutures: map<Domain, FutureId>,
    loadFutures: map<Domain, FutureId>,
    futures: seq<Future>,
    processed: set<Domain>,
    tasks: map<Domain, Task>,
    bodies: seq<Domain>,
    loadOrder: seq<Domain>)

  const INIT: State := State({}, map[], map[], [], {}, map[], [], [])

  /** A step names the branch taken where the outcome is not decided by the state. */
  datatype Step =
    | AnnounceLoad(domain: Domain)
    | Call(domain: Domain)
    | PlatformProcessed(domain: Domain)
    | Fetched(domain: Domain, disabled: bool)
    | CollectNext(domain: Domain)
    | CollectAfters(domain: Domain)
    | Wake(domain: Domain)
    | Installed(domain: Domain, ok: bool)
    | Imported(domain: Domain, ok: bool)
    | BodyReturned(domain: Domain, ok: bool)
    | EntriesDone(domain: Domain)
    /** An exception leaves `_async_setup_component` where it is suspended. */
    | Raises(domain: Domain)
    /** An awaited future carries an exception, which fails the domain if it is `handled`,
        and else leaves `_async_setup_component` as well. */
    | AwaitRaises(domain: Domain, handled: bool)

  // -------------------------------------------------------------------- the steps

  /** `async_setup_component` for a domain that is neither loaded nor registered. */
  function StartTask(s: State, d: Domain): State {
    s.(setupFutures := s.setupFutures[d := |s.futures|],
       futures := s.futures + [Future(SetupOf(d), Pending)],
       tasks := s.tasks[d := Task(|s.futures|, Fetching)])
  }

  function SetPhase(s: State, d: Domain, phase: Phase): State
    requires d in s.tasks
  {
    s.(tasks := s.tasks[d := s.tasks[d].(phase := phase)])
  }

  function Complete(futures: seq<Future>, i: FutureId, result: SetupResult): seq<Future>
    requires i < |futures|
  {
    futures[i := futures[i].(status := Done(result))]
  }

  /** The task returns or raises: both futures of the domain are completed, the one of
      `DATA_SETUP_DONE` is dropped, and so is the one of `DATA_SETUP` after a success. */
  function Return(s: State, d: Domain, result: SetupResult): State
    requires d in s.tasks && s.tasks[d].future < |s.futures|
    requires d in s.loadFutures ==> s.loadFutures[d] < |s.futures|
  {
    var done := Complete(s.futures, s.tasks[d].future, result);
    s.(setupFutures := if result.Succeeded? then s.setupFutures - {d} else s.setupFutures,
       futures := if d in s.loadFutures then Complete(done, s.loadFutures[d], result) else done,
       loadFutures := s.loadFutures - {d},
       tasks := s.tasks - {d})
  }

  /** `d` counts as loaded from now on. */
  function Load(s: State, d: Domain): State
    requires d in s.tasks
  {
    SetPhase(s, d, Finishing).(components := s.components + {d}, loadOrder := s.loadOrder + [d])
  }

  predicate Alive(s: State, d: Domain) {
    && d in s.tasks
    && s.tasks[d].future < |s.futures|
    && (d in s.loadFutures ==> s.loadFutures[d] < |s.futures|)
  }

  predicate IsDone(s: State, i: FutureId) {
    i < |s.futures| && s.futures[i].status.Done?
  }

  predicate HasRaised(s: State, i: FutureId) {
    IsDone(s, i) && s.futures[i].status.result.Raised?
  }

  predicate SomeRaised(s: State, waits: map<Domain, FutureId>) {
    exists x :: x in waits && HasRaised(s, waits[x])
  }

  predicate AllDone(s: State, waits: map<Domain, FutureId>) {
    forall x :: x in waits ==> IsDone(s, waits[x])
  }

  predicate Enabled(repo: Repository, s: State, step: Step) {
    match step
    case AnnounceLoad(_) => true
    case Call(_) => true
    case PlatformProcessed(d) => d in repo && Deps(repo, d) <= s.components
    case Fetched(d, _) => Alive(s, d) && s.tasks[d].phase.Fetching?
    case CollectNext(d) => Alive(s, d) && s.tasks[d].phase.Collecting? && s.tasks[d].phase.pending != []
    case CollectAfters(d) => Alive(s, d) && s.tasks[d].phase.Collecting? && s.tasks[d].phase.pending == [] && d in repo
    case Wake(d) =>
      && Alive(s, d) && s.tasks[d].phase.Waiting?
      && AllDone(s, s.tasks[d].phase.waits) && AllDone(s, s.tasks[d].phase.afters)
      && !SomeRaised(s, s.tasks[d].phase.waits) && !SomeRaised(s, s.tasks[d].phase.afters)
    case Installed(d, _) => Alive(s, d) && s.tasks[d].phase.Installing?
    case Imported(d, _) => Alive(s, d) && s.tasks[d].phase.Importing?
    case BodyReturned(d, _) => Alive(s, d) && s.tasks[d].phase.Running?
    case EntriesDone(d) => Alive(s, d) && s.tasks[d].phase.Finishing?
    case Raises(d) => Alive(s, d) && !s.tasks[d].phase.Collecting? && !s.tasks[d].phase.Waiting?
    case AwaitRaises(d, _) =>
      && Alive(s, d) && s.tasks[d].phase.Waiting?
      && (SomeRaised(s, s.tasks[d].phase.waits) || SomeRaised(s, s.tasks[d].phase.afters))
  }

  /** The after-dependencies that are still going to be loaded and are not waited for as
      dependencies already. */
  function AfterWaits(repo: Repository, s: State, d: Domain, waits: map<Domain, FutureId>): map<Domain, FutureId>
    requires d in repo
  {
    map x | x in After(repo, d) && x !in waits && x in s.loadFutures && x !in s.components :: s.loadFutures[x]
  }

  function Apply(repo: Repository, s: State, step: Step): State
    requires Enabled(repo, s, step)
  {
    match step
    case AnnounceLoad(d) =>
      s.(loadFutures := s.loadFutures[d := |s.futures|], futures := s.futures + [Future(LoadOf(d), Pending)])
    case Call(d) =>
      if d in s.components || d in s.setupFutures then s else StartTask(s, d)
    case PlatformProcessed(d) =>
      s.(processed := s.processed + {d})
    case Fetched(d, disabled) =>
      if disabled || !Resolves(repo, d) then Return(s, d, Failed)
      else if d in s.processed then SetPhase(s, d, Importing)
      else SetPhase(s, d, Collecting(repo[d].dependencies, map[]))
    case CollectNext(d) =>
      var p := s.tasks[d].phase;
      var x := p.pending[0];
      if x in s.components then SetPhase(s, d, Collecting(p.pending[1..], p.waits))
      else
        var t := if x in s.setupFutures then s else StartTask(s, x);
        SetPhase(t, d, Collecting(p.pending[1..], p.waits[x := t.setupFutures[x]]))
    case CollectAfters(d) =>
      var waits := s.tasks[d].phase.waits;
      var afters := AfterWaits(repo, s, d, waits);
      SetPhase(s, d, if waits == map[] && afters == map[] then Installing else Waiting(waits, afters))
    case Wake(d) =>
      var waits := s.tasks[d].phase.waits;
      if exists x :: x in waits && s.futures[waits[x]].status.result.Failed? then Return(s, d, Failed)
      else SetPhase(s, d, Installing)
    case Installed(d, ok) =>
      if ok then SetPhase(s, d, Importing).(processed := s.processed + {d}) else Return(s, d, Failed)
    case Imported(d, ok) =>
      if ok then SetPhase(s, d, Running).(bodies := s.bodies + [d]) else Return(s, d, Failed)
    case BodyReturned(d, ok) =>
      if ok then Load(s, d) else Return(s, d, Failed)
    case EntriesDone(d) => Return(s, d, Succeeded)
    case Raises(d) => Return(s, d, Raised)
    case AwaitRaises(d, handled) => Return(s, d, if handled then Failed else Raised)
  }

  // ---------------------------------------------------------------- the invariant

  predicate OwnedBy(s: State, i: FutureId, owner: Owner) {
    i < |s.futures| && s.futures[i].owner == owner
  }

  predicate WaitsOwned(s: State, waits: map<Domain, FutureId>) {
    forall x :: x in waits ==> OwnedBy(s, waits[x], SetupOf(x))
  }

  predicate AftersOwned(s: State, afters: map<Domain, FutureId>) {
    forall x :: x in afters ==> OwnedBy(s, afters[x], LoadOf(x))
  }

  predicate PhaseInv(repo: Repository, s: State, d: Domain, p: Phase) {
    match p
    case Fetching => d !in s.components && d !in s.bodies
    case Collecting(pending, waits) =>
      && d !in s.components && d !in s.bodies && Resolves(repo, d)
      && ToSet(pending) <= Deps(repo, d) && waits.Keys <= Deps(repo, d)
      && Deps(repo, d) <= ToSet(pending) + waits.Keys + s.components
      && WaitsOwned(s, waits)
    case Waiting(waits, afters) =>
      && d !in s.components && d !in s.bodies && Resolves(repo, d)
      && waits.Keys <= Deps(repo, d) && Deps(repo, d) <= waits.Keys + s.components
      && afters.Keys <= After(repo, d)
      && WaitsOwned(s, waits) && AftersOwned(s, afters)
    case Installing => d !in s.components && d !in s.bodies && d in repo && Deps(repo, d) <= s.components
    case Importing => d !in s.components && d !in s.bodies && d in repo && Deps(repo, d) <= s.components
    case Running => d !in s.components && d in repo && Deps(repo, d) <= s.components
    case Finishing => d in s.components
  }

  predicate TaskInv(repo: Repository, s: State, d: Domain)
    requires d in s.tasks
  {
    && d in s.setupFutures && s.setupFutures[d] == s.tasks[d].future
    && s.tasks[d].future < |s.futures|
    && s.futures[s.tasks[d].future] == Future(SetupOf(d), Pending)
    && PhaseInv(repo, s, d, s.tasks[d].phase)
  }

  /** The set-up of the domain is over without success; it may have raised after the domain
      was added to the components. */
  predicate FailedFor(s: State, d: Domain) {
    && d in s.setupFutures && OwnedBy(s, s.setupFutures[d], SetupOf(d)) && d !in s.tasks
    && IsDone(s, s.setupFutures[d]) && !s.futures[s.setupFutures[d]].status.result.Succeeded?
    && (s.futures[s.setupFutures[d]].status.result.Failed? ==> d !in s.components)
  }

  /** What the status of a setup future says about its domain. */
  predicate FutureInv(s: State, i: FutureId)
    requires i < |s.futures|
  {
    s.futures[i].owner.SetupOf? ==>
      var d := s.futures[i].owner.domain;
      match s.futures[i].status
      case Pending => d in s.tasks && s.tasks[d].future == i
      case Done(Succeeded) => d in s.components
      case Done(_) => FailedFor(s, d) && s.setupFutures[d] == i
  }

  predicate LoadInv(s: State, d: Domain)
    requires d in s.loadFutures
  {
    s.loadFutures[d] < |s.futures| && s.futures[s.loadFutures[d]] == Future(LoadOf(d), Pending)
  }

  /** Every domain appears after all its dependencies, and only once. */
  predicate Topological(repo: Repository, order: seq<Domain>) {
    forall i :: 0 <= i < |order| ==>
      order[i] in repo && order[i] !in order[..i] && Deps(repo, order[i]) <= ToSet(order[..i])
  }

  predicate NoDuplicates(xs: seq<Domain>) {
    forall i, j :: 0 <= i < j < |xs| ==> xs[i] != xs[j]
  }

  predicate BodyInv(s: State, d: Domain) {
    d in s.components || FailedFor(s, d) || (d in s.tasks && s.tasks[d].phase.Running?)
  }

  ghost predicate Inv(repo: Repository, s: State) {
    && (forall d :: d in s.tasks ==> TaskInv(repo, s, d))
    && (forall i :: 0 <= i < |s.futures| ==> FutureInv(s, i))
    && (forall d :: d in s.setupFutures ==> d in s.tasks || FailedFor(s, d))
    && (forall d :: d in s.loadFutures ==> LoadInv(s, d))
    && (forall d :: d in s.processed ==> d in repo && Deps(repo, d) <= s.components)
    && s.components == ToSet(s.loadOrder) && Topological(repo, s.loadOrder)
    && NoDuplicates(s.bodies) && (forall d :: d in s.bodies ==> BodyInv(s, d))
  }

  lemma InitInv(repo: Repository)
    ensures Inv(repo, INIT)
  {
  }

  lemma NotStarted(repo: Repository, s: State, d: Domain)
    requires Inv(repo, s) && d !in s.components && d !in s.setupFutures
    ensures d !in s.tasks && d !in s.bodies
  {
    assert d in s.tasks ==> TaskInv(repo, s, d);
    assert d in s.bodies ==> BodyInv(s, d);
  }

  lemma StartKeepsTasks(repo: Repository, s: State, d: Domain)
    requires (forall e :: e in s.tasks ==> TaskInv(repo, s, e)) && d !in s.components && d !in s.setupFutures
      && d !in s.bodies
    ensures forall e :: e in StartTask(s, d).tasks ==> TaskInv(repo, StartTask(s, d), e)
  {
    hide Resolves;
    forall e | e in StartTask(s, d).tasks ensures TaskInv(repo, StartTask(s, d), e) {
      if e != d { assert TaskInv(repo, s, e); }
    }
  }

  lemma StartTaskInv(repo: Repository, s: State, d: Domain)
    requires Inv(repo, s) && d !in s.components && d !in s.setupFutures
    ensures Inv(repo, StartTask(s, d))
  {
    hide Resolves, Topological, NoDuplicates, TaskInv;
    var t := StartTask(s, d);
    NotStarted(repo, s, d);
    StartKeepsTasks(repo, s, d);
    forall i | 0 <= i < |t.futures| ensures FutureInv(t, i) {
      if i < |s.futures| { assert FutureInv(s, i); }
    }
    forall e | e in t.bodies ensures BodyInv(t, e) { assert BodyInv(s, e); }
  }

  /** What returning from the task of `d` leaves alone. */
  lemma ReturnFrame(repo: Repository, s: State, d: Domain, result: SetupResult)
    requires Inv(repo, s) && Alive(s, d)
    ensures var t := Return(s, d, result);
            && |t.futures| == |s.futures|
            && (forall i :: 0 <= i < |s.futures| ==> t.futures[i].owner == s.futures[i].owner)
            && (forall i ::
                 0 <= i < |s.futures| && s.futures[i].owner != SetupOf(d) && s.futures[i].owner != LoadOf(d) ==>
                 t.futures[i] == s.futures[i])
            && t.futures[s.tasks[d].future] == Future(SetupOf(d), Done(result))
            && (forall i :: 0 <= i < |s.futures| && i != s.tasks[d].future && s.futures[i].owner == SetupOf(d) ==>
                 t.futures[i] == s.futures[i])
  {
    assert TaskInv(repo, s, d);
    assert d in s.loadFutures ==> LoadInv(s, d);
  }

  lemma ReturnFutureInv(repo: Repository, s: State, d: Domain, result: SetupResult, i: FutureId)
    requires Inv(repo, s) && Alive(s, d) && i < |s.futures|
    requires (result.Succeeded? ==> d in s.components) && (result.Failed? ==> d !in s.components)
    ensures var t := Return(s, d, result); i < |t.futures| && FutureInv(t, i)
  {
    ReturnFrame(repo, s, d, result);
    assert FutureInv(s, i) && TaskInv(repo, s, d);
  }

  lemma ReturnInv(repo: Repository, s: State, d: Domain, result: SetupResult)
    requires Inv(repo, s) && Alive(s, d)
    requires (result.Succeeded? ==> d in s.components) && (result.Failed? ==> d !in s.components)
    ensures Inv(repo, Return(s, d, result))
  {
    var t := Return(s, d, result);
    ReturnFrame(repo, s, d, result);
    assert TaskInv(repo, s, d);
    forall e | e in t.tasks ensures TaskInv(repo, t, e) { assert TaskInv(repo, s, e); }
    forall i | 0 <= i < |t.futures| ensures FutureInv(t, i) { ReturnFutureInv(repo, s, d, result, i); }
    ReturnRegistries(repo, s, d, result);
  }

  lemma ReturnRegistries(repo: Repository, s: State, d: Domain, result: SetupResult)
    requires Inv(repo, s) && Alive(s, d)
    requires (result.Succeeded? ==> d in s.components) && (result.Failed? ==> d !in s.components)
    ensures var t := Return(s, d, result);
            && (forall e :: e in t.setupFutures ==> e in t.tasks || FailedFor(t, e))
            && (forall e :: e in t.loadFutures ==> LoadInv(t, e))
            && (forall e :: e in t.bodies ==> BodyInv(t, e))
  {
    var t := Return(s, d, result);
    ReturnFrame(repo, s, d, result);
    assert TaskInv(repo, s, d);
    forall e | e in t.setupFutures ensures e in t.tasks || FailedFor(t, e) {
      assert e in s.tasks || FailedFor(s, e);
    }
    forall e | e in t.loadFutures ensures LoadInv(t, e) { assert LoadInv(s, e); }
    forall e | e in t.bodies ensures BodyInv(t, e) { assert BodyInv(s, e); }
  }

  /** Moving a task on keeps the invariant when its new phase fits and nothing else moves. */
  lemma SetPhaseInv(repo: Repository, s: State, d: Domain, p: Phase)
    requires Inv(repo, s) && d in s.tasks
    requires PhaseInv(repo, s, d, p)
    requires s.tasks[d].phase.Running? ==> p.Running?
    ensures Inv(repo, SetPhase(s, d, p))
  {
    var t := SetPhase(s, d, p);
    assert TaskInv(repo, s, d);
    forall e | e in t.tasks ensures TaskInv(repo, t, e) { assert TaskInv(repo, s, e); }
    forall i | 0 <= i < |t.futures| ensures FutureInv(t, i) { assert FutureInv(s, i); }
    forall e | e in t.bodies ensures BodyInv(t, e) { assert BodyInv(s, e); }
  }

  lemma CollectNextInv(repo: Repository, s: State, d: Domain)
    requires Inv(repo, s) && Enabled(repo, s, CollectNext(d))
    ensures Inv(repo, Apply(repo, s, CollectNext(d)))
  {
    var p := s.tasks[d].phase;
    var x := p.pending[0];
    assert TaskInv(repo, s, d);
    assert ToSet(p.pending) == {x} + ToSet(p.pending[1..]);
    if x in s.components {
      SetPhaseInv(repo, s, d, Collecting(p.pending[1..], p.waits));
    } else {
      var t := if x in s.setupFutures then s else StartTask(s, x);
      if x !in s.setupFutures { StartTaskInv(repo, s, x); }
      var waits := p.waits[x := t.setupFutures[x]];
      assert x in t.tasks || FailedFor(t, x);
      if x in t.tasks { assert TaskInv(repo, t, x); }
      assert TaskInv(repo, t, d);
      assert WaitsOwned(t, waits);
      SetPhaseInv(repo, t, d, Collecting(p.pending[1..], waits));
    }
  }

  /** All dependencies of a domain that wakes up without a failed one are loaded. */
  lemma WakeInv(repo: Repository, s: State, d: Domain)
    requires Inv(repo, s) && Enabled(repo, s, Wake(d))
    ensures Inv(repo, Apply(repo, s, Wake(d)))
  {
    var waits := s.tasks[d].phase.waits;
    assert TaskInv(repo, s, d);
    if exists x :: x in waits && s.futures[waits[x]].status.result.Failed? {
      ReturnInv(repo, s, d, Failed);
    } else {
      forall x | x in Deps(repo, d)
        ensures x in s.components
      {
        if x in waits {
          assert FutureInv(s, waits[x]);
        }
      }
      SetPhaseInv(repo, s, d, Installing);
    }
  }

  lemma LoadedInOrder(repo: Repository, order: seq<Domain>, d: Domain)
    requires Topological(repo, order) && d in repo && d !in order && Deps(repo, d) <= ToSet(order)
    ensures Topological(repo, order + [d]) && ToSet(order + [d]) == ToSet(order) + {d}
  {
    var r := order + [d];
    assert forall i :: 0 <= i < |order| ==> r[..i] == order[..i];
    assert r[..|order|] == order;
  }

  lemma LoadKeepsTasks(repo: Repository, s: State, d: Domain)
    requires (forall e :: e in s.tasks ==> TaskInv(repo, s, e)) && d in s.tasks && s.tasks[d].phase.Running?
    ensures forall e :: e in s.tasks ==> TaskInv(repo, Load(s, d), e)
  {
    hide Resolves;
    forall e | e in s.tasks ensures TaskInv(repo, Load(s, d), e) { assert TaskInv(repo, s, e); }
  }

  lemma LoadKeepsFutures(repo: Repository, s: State, d: Domain)
    requires (forall i :: 0 <= i < |s.futures| ==> FutureInv(s, i)) && d in s.tasks
    ensures forall i :: 0 <= i < |s.futures| ==> FutureInv(Load(s, d), i)
  {
    forall i | 0 <= i < |s.futures| ensures FutureInv(Load(s, d), i) { assert FutureInv(s, i); }
  }

  lemma BodyReturnedInv(repo: Repository, s: State, d: Domain)
    requires Inv(repo, s) && Enabled(repo, s, BodyReturned(d, true))
    ensures Inv(repo, Apply(repo, s, BodyReturned(d, true)))
  {
    hide Resolves, Topological, TaskInv, FutureInv;
    var t := Load(s, d);
    RunningReady(repo, s, d);
    LoadedInOrder(repo, s.loadOrder, d);
    LoadKeepsTasks(repo, s, d);
    LoadKeepsFutures(repo, s, d);
    forall e | e in t.bodies ensures BodyInv(t, e) { assert BodyInv(s, e); }
    forall e | e in t.setupFutures ensures e in t.tasks || FailedFor(t, e) {
      assert e in s.tasks || FailedFor(s, e);
    }
  }

  lemma RunningReady(repo: Repository, s: State, d: Domain)
    requires Inv(repo, s) && d in s.tasks && s.tasks[d].phase.Running?
    ensures d !in s.components && d in repo && Deps(repo, d) <= s.components && d !in s.loadOrder
  {
    assert TaskInv(repo, s, d);
  }

  lemma ImportedInv(repo: Repository, s: State, d: Domain)
    requires Inv(repo, s) && Enabled(repo, s, Imported(d, true))
    ensures Inv(repo, Apply(repo, s, Imported(d, true)))
  {
    var t := Apply(repo, s, Imported(d, true));
    assert TaskInv(repo, s, d);
    forall e | e in t.tasks ensures TaskInv(repo, t, e) { assert TaskInv(repo, s, e); }
    forall i | 0 <= i < |t.futures| ensures FutureInv(t, i) { assert FutureInv(s, i); }
    forall e | e in t.bodies ensures BodyInv(t, e) {
      if e != d { assert e in s.bodies; assert BodyInv(s, e); }
    }
  }

  lemma AnnounceLoadInv(repo: Repository, s: State, d: Domain)
    requires Inv(repo, s)
    ensures Inv(repo, Apply(repo, s, AnnounceLoad(d)))
  {
    var t := Apply(repo, s, AnnounceLoad(d));
    forall e | e in t.tasks ensures TaskInv(repo, t, e) { assert TaskInv(repo, s, e); }
    forall i | 0 <= i < |t.futures| ensures FutureInv(t, i) {
      if i < |s.futures| { assert FutureInv(s, i); }
    }
    forall e | e in t.setupFutures ensures e in t.tasks || FailedFor(t, e) {
      assert e in s.tasks || FailedFor(s, e);
    }
    forall e | e in t.loadFutures ensures LoadInv(t, e) { if e != d { assert LoadInv(s, e); } }
    forall e | e in t.bodies ensures BodyInv(t, e) { assert BodyInv(s, e); }
  }

  lemma ProcessedInv(repo: Repository, s: State, d: Domain)
    requires Inv(repo, s) && d in repo && Deps(repo, d) <= s.components
    ensures Inv(repo, s.(processed := s.processed + {d}))
  {
    var t := s.(processed := s.processed + {d});
    forall e | e in t.tasks ensures TaskInv(repo, t, e) { assert TaskInv(repo, s, e); }
    forall i | 0 <= i < |t.futures| ensures FutureInv(t, i) { assert FutureInv(s, i); }
    forall e | e in t.bodies ensures BodyInv(t, e) { assert BodyInv(s, e); }
  }

  /** Every step keeps the invariant. */
  lemma StepInv(repo: Repository, s: State, step: Step)
    requires Inv(repo, s) && Enabled(repo, s, step)
    ensures Inv(repo, Apply(repo, s, step))
  {
    var d := step.domain;
    if d in s.tasks { assert TaskInv(repo, s, d); }
    match step
    case AnnounceLoad(_) => AnnounceLoadInv(repo, s, d);
    case Call(_) =>
      if d !in s.components && d !in s.setupFutures { StartTaskInv(repo, s, d); }
    case PlatformProcessed(_) => ProcessedInv(repo, s, d);
    case Fetched(_, disabled) =>
      if disabled || !Resolves(repo, d) { ReturnInv(repo, s, d, Failed); }
      else if d in s.processed { SetPhaseInv(repo, s, d, Importing); }
      else { SetPhaseInv(repo, s, d, Collecting(repo[d].dependencies, map[])); }
    case CollectNext(_) => CollectNextInv(repo, s, d);
    case CollectAfters(_) =>
      var waits := s.tasks[d].phase.waits;
      var afters := AfterWaits(repo, s, d, waits);
      assert forall x :: x in afters ==> LoadInv(s, x);
      SetPhaseInv(repo, s, d, if waits == map[] && afters == map[] then Installing else Waiting(waits, afters));
    case Wake(_) => WakeInv(repo, s, d);
    case Installed(_, ok) =>
      if ok {
        SetPhaseInv(repo, s, d, Importing);
        ProcessedInv(repo, SetPhase(s, d, Importing), d);
      } else { ReturnInv(repo, s, d, Failed); }
    case Imported(_, ok) =>
      if ok { ImportedInv(repo, s, d); } else { ReturnInv(repo, s, d, Failed); }
    case BodyReturned(_, ok) =>
      if ok { BodyReturnedInv(repo, s, d); } else { ReturnInv(repo, s, d, Failed); }
    case EntriesDone(_) => ReturnInv(repo, s, d, Succeeded);
    case Raises(_) => ReturnInv(repo, s, d, Raised);
    case AwaitRaises(_, handled) => ReturnInv(repo, s, d, if handled then Failed else Raised);
  }
}
