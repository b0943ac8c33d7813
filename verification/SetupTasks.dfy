/** The setup data of a Home Assistant instance as an object: every method is a stretch of
    code of homeassistant/setup.py that runs without suspending, and is one step of the
    protocol. */
module SetupTasks {
  import opened Graphs
  import opened Loader
  import opened Setup
  import opened SetupRuns

  datatype CallAnswer = Ready(result: SetupResult) | WaitFor(future: FutureId)

  function AnnounceAll(domains: seq<Domain>): seq<Step> {
    seq(|domains|, i requires 0 <= i < |domains| => AnnounceLoad(domains[i]))
  }

  class SetupData {
    const repo: Repository
    var components: set<Domain>
    /** `DATA_SETUP` and `DATA_SETUP_DONE`. */
    var setupFutures: map<Domain, FutureId>
    var loadFutures: map<Domain, FutureId>
    var futures: seq<Future>
    /** `DATA_DEPS_REQS`. */
    var processed: set<Domain>
    var tasks: map<Domain, Task>
    ghost var bodies: seq<Domain>
    ghost var loadOrder: seq<Domain>

    ghost function Model(): State
      reads this
    {
      State(components, setupFutures, loadFutures, futures, processed, tasks, bodies, loadOrder)
    }

    ghost predicate Valid()
      reads this
    {
      Inv(repo, Model())
    }

    constructor (repo: Repository)
      ensures Valid() && Model() == INIT && this.repo == repo
    {
      this.repo := repo;
      components, setupFutures, loadFutures, futures := {}, map[], map[], [];
      processed, tasks, bodies, loadOrder := {}, map[], [], [];
      new;
      InitInv(repo);
    }

    /** `async_set_domains_to_be_loaded`: also a domain that is loaded or has failed gets a
        new future. */
    method AsyncSetDomainsToBeLoaded(domains: seq<Domain>)
      requires Valid()
      modifies this
      ensures Valid() && Run(repo, old(Model()), AnnounceAll(domains), Model())
    {
      hide Apply, Inv, Run;
      NoSteps(repo, Model());
      assert AnnounceAll(domains[..0]) == [];
      for n := 0 to |domains|
        invariant Valid() && Run(repo, old(Model()), AnnounceAll(domains[..n]), Model())
      {
        var d := domains[n];
        ghost var before := Model();
        AnnounceStep(repo, before, d);
        RunThen(repo, old(Model()), AnnounceAll(domains[..n]), before, AnnounceLoad(d));
        assert AnnounceAll(domains[..n + 1]) == AnnounceAll(domains[..n]) + [AnnounceLoad(d)];
        loadFutures := loadFutures[d := |futures|];
        futures := futures + [Future(LoadOf(d), Pending)];
      }
      assert domains[..|domains|] == domains;
    }

    /** `async_setup_component` up to its first suspension. */
    method AsyncSetupComponent(d: Domain) returns (answer: CallAnswer)
      requires Valid()
      modifies this
      ensures Valid() && Model() == Apply(repo, old(Model()), Call(d))
      ensures match old(Answer(Model(), d))
              case Some(result) => answer == Ready(result)
              case None => answer.WaitFor? && OwnedBy(Model(), answer.future, SetupOf(d))
    {
      hide Inv;
      StepInv(repo, Model(), Call(d));
      FutureOfDomain(repo, Model(), d);
      if d in components { return Ready(Succeeded); }
      if d in setupFutures {
        var future := setupFutures[d];
        return match futures[future].status case Done(result) => Ready(result) case Pending => WaitFor(future);
      }
      BeginTask(d);
      return WaitFor(setupFutures[d]);
    }

    /** Registers the future of a domain and starts its task. */
    method BeginTask(d: Domain)
      modifies this`setupFutures, this`futures, this`tasks
      ensures Model() == StartTask(old(Model()), d)
    {
      setupFutures := setupFutures[d := |futures|];
      tasks := tasks[d := Task(|futures|, Fetching)];
      futures := futures + [Future(SetupOf(d), Pending)];
    }

    method MoveOn(d: Domain, phase: Phase)
      requires d in tasks
      modifies this`tasks
      ensures Model() == SetPhase(old(Model()), d, phase)
    {
      tasks := tasks[d := tasks[d].(phase := phase)];
    }

    /** The end of `async_setup_component`, once `_async_setup_component` has returned. */
    method Finish(d: Domain, result: SetupResult)
      requires Alive(Model(), d)
      modifies this`setupFutures, this`loadFutures, this`futures, this`tasks
      ensures Model() == Return(old(Model()), d, result)
    {
      var future := tasks[d].future;
      futures := futures[future := futures[future].(status := Done(result))];
      if result.Succeeded? { setupFutures := setupFutures - {d}; }
      if d in loadFutures {
        var load := loadFutures[d];
        futures := futures[load := futures[load].(status := Done(result))];
        loadFutures := loadFutures - {d};
      }
      tasks := tasks - {d};
      assert loadFutures == old(loadFutures) - {d};
    }

    /** The integration has been fetched, and its dependencies are resolved or not. */
    method IntegrationFetched(d: Domain, disabled: bool)
      requires Valid() && Enabled(repo, Model(), Fetched(d, disabled))
      modifies this
      ensures Valid() && Model() == Apply(repo, old(Model()), Fetched(d, disabled))
    {
      StepInv(repo, Model(), Fetched(d, disabled));
      hide Inv;
      if disabled || !Resolves(repo, d) {
        Finish(d, Failed);
      } else if d in processed {
        MoveOn(d, Importing);
      } else {
        MoveOn(d, Collecting(repo[d].dependencies, map[]));
      }
    }

    /** One dependency in `_async_process_dependencies`: its task is started if it has none. */
    method CollectDependency(d: Domain)
      requires Valid() && Enabled(repo, Model(), CollectNext(d))
      modifies this
      ensures Valid() && Model() == Apply(repo, old(Model()), CollectNext(d))
    {
      StepInv(repo, Model(), CollectNext(d));
      hide Inv;
      var p := tasks[d].phase;
      var x := p.pending[0];
      if x in components {
        MoveOn(d, Collecting(p.pending[1..], p.waits));
        return;
      }
      if x !in setupFutures { BeginTask(x); }
      MoveOn(d, Collecting(p.pending[1..], p.waits[x := setupFutures[x]]));
    }

    /** The after-dependencies in `_async_process_dependencies`. */
    method CollectAfterDependencies(d: Domain)
      requires Valid() && Enabled(repo, Model(), CollectAfters(d))
      modifies this
      ensures Valid() && Model() == Apply(repo, old(Model()), CollectAfters(d))
    {
      StepInv(repo, Model(), CollectAfters(d));
      hide Inv;
      var waits := tasks[d].phase.waits;
      var afters :=
        map x | x in After(repo, d) && x !in waits && x in loadFutures && x !in components :: loadFutures[x];
      assert afters == AfterWaits(repo, Model(), d, waits);
      if waits == map[] && afters == map[] {
        MoveOn(d, Installing);
      } else {
        MoveOn(d, Waiting(waits, afters));
      }
    }

    /** All awaited futures are done and none has raised; a failed dependency fails the domain,
        a failed after-dependency does not. */
    method DependenciesDone(d: Domain)
      requires Valid() && Enabled(repo, Model(), Wake(d))
      modifies this
      ensures Valid() && Model() == Apply(repo, old(Model()), Wake(d))
    {
      StepInv(repo, Model(), Wake(d));
      hide Inv;
      var waits := tasks[d].phase.waits;
      if exists x :: x in waits && futures[waits[x]].status.result.Failed? {
        Finish(d, Failed);
      } else {
        MoveOn(d, Installing);
      }
    }

    /** `async_get_integration_with_requirements` has returned or raised. */
    method RequirementsInstalled(d: Domain, ok: bool)
      requires Valid() && Enabled(repo, Model(), Installed(d, ok))
      modifies this
      ensures Valid() && Model() == Apply(repo, old(Model()), Installed(d, ok))
    {
      StepInv(repo, Model(), Installed(d, ok));
      hide Inv;
      if !ok { Finish(d, Failed); return; }
      processed := processed + {d};
      MoveOn(d, Importing);
    }

    method ComponentImported(d: Domain, ok: bool)
      requires Valid() && Enabled(repo, Model(), Imported(d, ok))
      modifies this
      ensures Valid() && Model() == Apply(repo, old(Model()), Imported(d, ok))
    {
      StepInv(repo, Model(), Imported(d, ok));
      hide Inv;
      if !ok { Finish(d, Failed); return; }
      MoveOn(d, Running);
      bodies := bodies + [d];
    }

    /** The component's setup function has returned. */
    method SetupReturned(d: Domain, ok: bool)
      requires Valid() && Enabled(repo, Model(), BodyReturned(d, ok))
      modifies this
      ensures Valid() && Model() == Apply(repo, old(Model()), BodyReturned(d, ok))
    {
      StepInv(repo, Model(), BodyReturned(d, ok));
      hide Inv;
      if !ok { Finish(d, Failed); return; }
      components := components + {d};
      loadOrder := loadOrder + [d];
      MoveOn(d, Finishing);
    }

    method ConfigEntriesSetUp(d: Domain)
      requires Valid() && Enabled(repo, Model(), EntriesDone(d))
      modifies this
      ensures Valid() && Model() == Apply(repo, old(Model()), EntriesDone(d))
    {
      StepInv(repo, Model(), EntriesDone(d));
      hide Inv;
      Finish(d, Succeeded);
    }

    /** An exception leaves `_async_setup_component`. */
    method ExceptionLeaves(d: Domain)
      requires Valid() && Enabled(repo, Model(), Raises(d))
      modifies this
      ensures Valid() && Model() == Apply(repo, old(Model()), Raises(d))
    {
      StepInv(repo, Model(), Raises(d));
      hide Inv;
      Finish(d, Raised);
    }

    /** `asyncio.gather` raises the exception of an awaited future, without waiting for the
        others; as a `HomeAssistantError` it fails the domain. */
    method AwaitedFutureRaises(d: Domain, isHomeAssistantError: bool)
      requires Valid() && Enabled(repo, Model(), AwaitRaises(d, isHomeAssistantError))
      modifies this
      ensures Valid() && Model() == Apply(repo, old(Model()), AwaitRaises(d, isHomeAssistantError))
    {
      StepInv(repo, Model(), AwaitRaises(d, isHomeAssistantError));
      hide Inv;
      Finish(d, if isHomeAssistantError then Failed else Raised);
    }

    /** `async_process_deps_reqs` for a platform whose integration has no dependencies left
        to set up. */
    method PlatformDependenciesProcessed(d: Domain)
      requires Valid() && Enabled(repo, Model(), PlatformProcessed(d))
      modifies this
      ensures Valid() && Model() == Apply(repo, old(Model()), PlatformProcessed(d))
    {
      StepInv(repo, Model(), PlatformProcessed(d));
      hide Inv;
      processed := processed + {d};
    }
  }

  lemma NoSteps(repo: Repository, s: State)
    ensures Run(repo, s, [], s)
  {
  }

  lemma AnnounceStep(repo: Repository, s: State, d: Domain)
    requires Inv(repo, s)
    ensures Enabled(repo, s, AnnounceLoad(d)) && Inv(repo, Apply(repo, s, AnnounceLoad(d)))
    ensures Apply(repo, s, AnnounceLoad(d))
         == s.(loadFutures := s.loadFutures[d := |s.futures|], futures := s.futures + [Future(LoadOf(d), Pending)])
  {
    StepInv(repo, s, AnnounceLoad(d));
  }

  lemma FutureOfDomain(repo: Repository, s: State, d: Domain)
    requires Inv(repo, s)
    ensures d in s.setupFutures ==> OwnedBy(s, s.setupFutures[d], SetupOf(d))
  {
    if d in s.setupFutures && d in s.tasks { assert TaskInv(repo, s, d); }
  }
}
