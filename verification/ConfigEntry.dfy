/** The config entry object: every method is a stretch of code that runs without suspending. */
module ConfigEntries {
  import opened EntryLifecycle

  class ConfigEntry {
    var state: EntryState
    var tries: nat
    var retry: Retry
    var disabled: bool
    ghost var setups: nat
    ghost var opening: nat
    ghost var unloads: nat

    ghost function Model(): Entry
      reads this
    {
      Entry(state, tries, retry, disabled, setups, opening, unloads)
    }

    constructor ()
      ensures Model() == NEW
    {
      state, tries, retry, disabled := NotLoaded, 0, NoRetry, false;
      setups, opening, unloads := 0, 0, 0;
    }

    method AsyncSetState(s: EntryState)
      modifies this`state, this`tries
      ensures Model() == SetState(old(Model()), s)
    {
      if !s.SetupRetry? && !s.SetupInProgress? { tries := 0; }
      state := s;
    }

    method AsyncCancelRetrySetup()
      modifies this`retry
      ensures Model() == Next(old(Model()), CancelRetry)
    {
      if !retry.NoRetry? { retry := NoRetry; }
    }

    /** `async_setup` up to where it may suspend. */
    method AsyncSetup()
      modifies this
      ensures Model() == StartSetup(old(Model()))
    {
      if disabled { return; }
      AsyncSetState(SetupInProgress);
      setups := setups + 1;
    }

    /** The manager's `async_setup`: false when it raises. */
    method ManagerSetup() returns (allowed: bool)
      modifies this
      ensures allowed == Enabled(old(Model()), Setup) && (allowed <==> old(state) == NotLoaded)
      ensures state == (if allowed && !disabled then SetupInProgress else old(state)) && retry == old(retry)
      ensures Model() == if allowed then Next(old(Model()), Setup) else old(Model())
    {
      if !state.NotLoaded? { return false; }
      AsyncSetup();
      return true;
    }

    /** `_async_setup_again`. */
    method AsyncSetupAgain(stopping: bool)
      requires !retry.NoRetry?
      modifies this
      ensures Model() == Next(old(Model()), RetryFires(stopping))
      ensures retry == NoRetry && state == if stopping || disabled then old(state) else SetupInProgress
    {
      retry := NoRetry;
      if !stopping { AsyncSetup(); }
    }

    /** `async_setup` from the last suspension before the result is known. */
    method SetupReturned(r: SetupResult)
      requires Enabled(Model(), SetupEnds(r))
      modifies this
      ensures Model() == Next(old(Model()), SetupEnds(r))
      ensures match r
        case Succeeded => state == Loaded && retry == NoRetry
        case Failed => state == SetupError && retry == NoRetry
        case ImportFailed => state == SetupError && retry == old(retry)
        case MigrationFailed => state == MigrationError && retry == old(retry)
        case NotReady(running, _) => state == SetupRetry && (retry.WhenStarted? <==> !running) && retry != NoRetry
        case Crashed => state == old(state) && retry == old(retry)
    {
      setups := setups - 1;
      match r {
        case ImportFailed => AsyncSetState(SetupError);
        case MigrationFailed => AsyncSetState(MigrationError);
        case Crashed =>
        case NotReady(running, jitter) =>
          AsyncSetState(SetupRetry);
          var waitTime := Pow2(Min(tries, 4)) * 5000000 + jitter;
          tries := tries + 1;
          if running {
            retry := AfterDelay(waitTime);
          } else {
            retry := WhenStarted;
          }
        case Succeeded =>
          AsyncCancelRetrySetup();
          AsyncSetState(Loaded);
        case Failed =>
          AsyncCancelRetrySetup();
          AsyncSetState(SetupError);
      }
    }

    /** The manager's `async_unload` up to where the entry's fetches the component. */
    method ManagerUnload() returns (allowed: bool)
      modifies this
      ensures allowed == Enabled(old(Model()), UnloadRequested)
      ensures !allowed <==> state == SetupInProgress || state == FailedUnload || state == MigrationError
      ensures state == old(state) && retry == old(retry)
      ensures Model() == if allowed then Next(old(Model()), UnloadRequested) else old(Model())
    {
      if !Recoverable(state) { return false; }
      if state.NotLoaded? { return true; }
      opening := opening + 1;
      return true;
    }

    /** `async_unload` with the component at hand; `None` means that it waits for the
        integration, any other result is what it returns. */
    method ComponentFetched(supportsUnload: bool) returns (unloaded: bool, waiting: bool)
      requires opening > 0
      modifies this
      ensures Model() == Next(old(Model()), UnloadOpened(supportsUnload))
      ensures waiting <==> old(state).Loaded? && supportsUnload
      ensures match old(state)
        case Loaded => state == (if supportsUnload then Loaded else FailedUnload) && retry == old(retry)
        case SetupError => state == NotLoaded && retry == NoRetry
        case SetupRetry => state == NotLoaded && retry == NoRetry
        case NotLoaded => state == NotLoaded && retry == NoRetry
        case _ => state == old(state) && retry == old(retry)
      ensures unloaded <==> state.NotLoaded?
    {
      opening := opening - 1;
      if !Recoverable(state) { return false, false; }
      if !state.Loaded? {
        AsyncCancelRetrySetup();
        AsyncSetState(NotLoaded);
        return true, false;
      }
      if !supportsUnload {
        AsyncSetState(FailedUnload);
        return false, false;
      }
      unloads := unloads + 1;
      return false, true;
    }

    /** The integration's `async_unload_entry` has returned or raised, and the unload
        callbacks have run. */
    method UnloadEntryReturned(r: UnloadResult) returns (unloaded: bool)
      requires unloads > 0
      modifies this
      ensures Model() == Next(old(Model()), UnloadReturned(r))
      ensures unloaded <==> r.Unloaded?
      ensures state == match r case Unloaded => NotLoaded case Declined => old(state) case Raised => FailedUnload
    {
      unloads := unloads - 1;
      match r {
        case Unloaded =>
          AsyncSetState(NotLoaded);
          return true;
        case Declined => return false;
        case Raised =>
          AsyncSetState(FailedUnload);
          return false;
      }
    }
  }
}
