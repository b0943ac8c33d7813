/** The life of a config entry, homeassistant/config_entries.py: set-up by its own domain,
    retries, unloading and reloading, as steps between which other tasks may run. */
module EntryLifecycle {
  import opened Options

  datatype EntryState =
    | Loaded | SetupError | MigrationError | SetupRetry | NotLoaded | FailedUnload | SetupInProgress

  predicate Recoverable(s: EntryState) {
    s.Loaded? || s.SetupError? || s.SetupRetry? || s.NotLoaded?
  }

  predicate KeepsTries(s: EntryState) {
    s.SetupRetry? || s.SetupInProgress?
  }

  predicate Final(s: EntryState) {
    s.MigrationError? || s.FailedUnload?
  }

  datatype Retry = NoRetry | AfterDelay(microseconds: int) | WhenStarted

  /** `setups`, `opening` and `unloads` count the tasks that are suspended between setting
      the state to in progress and deciding the result, while an unload fetches the component,
      and in the integration's `async_unload_entry`. */
  datatype Entry = Entry(
    state: EntryState, tries: nat, retry: Retry, disabled: bool, setups: nat, opening: nat, unloads: nat)

  const NEW := Entry(NotLoaded, 0, NoRetry, false, 0, 0, 0)

  const MIN_JITTER := 50000
  const MAX_JITTER := 500000

  datatype SetupResult =
    | ImportFailed | MigrationFailed | Succeeded | Failed | NotReady(running: bool, jitter: int)
    /** An unload callback raised while the failure was being handled. */
    | Crashed

  datatype UnloadResult = Unloaded | Declined | Raised

  datatype Step =
    | Setup
    | RetryFires(stopping: bool)
    | SetupEnds(result: SetupResult)
    | UnloadRequested
    | UnloadOpened(supported: bool)
    | UnloadImportFailed
    | UnloadReturned(outcome: UnloadResult)
    | CancelRetry
    | SetDisabled(disabled: bool)

  function Pow2(n: nat): nat {
    if n == 0 then 1 else 2 * Pow2(n - 1)
  }

  function Min(a: nat, b: nat): nat {
    if a < b then a else b
  }

  function Wait(tries: nat, jitter: int): int {
    Pow2(Min(tries, 4)) * 5000000 + jitter
  }

  function SetState(e: Entry, s: EntryState): Entry {
    e.(state := s, tries := if KeepsTries(s) then e.tries else 0)
  }

  function StartSetup(e: Entry): Entry {
    if e.disabled then e else SetState(e, SetupInProgress).(setups := e.setups + 1)
  }

  /** Steps that the manager refuses by raising change nothing and are not steps here. */
  predicate Enabled(e: Entry, step: Step) {
    match step
    case Setup => e.state.NotLoaded?
    case RetryFires(_) => !e.retry.NoRetry?
    case SetupEnds(r) => e.setups > 0 && (r.NotReady? ==> MIN_JITTER <= r.jitter <= MAX_JITTER)
    case UnloadRequested => Recoverable(e.state)
    case UnloadOpened(_) => e.opening > 0
    case UnloadImportFailed => e.opening > 0
    case UnloadReturned(_) => e.unloads > 0
    case CancelRetry => true
    case SetDisabled(_) => true
  }

  function Next(e: Entry, step: Step): Entry
    requires Enabled(e, step)
  {
    match step
    case Setup => StartSetup(e)
    case RetryFires(stopping) => if stopping then e.(retry := NoRetry) else StartSetup(e.(retry := NoRetry))
    case SetupEnds(r) => EndSetup(e.(setups := e.setups - 1), r)
    case UnloadRequested => if e.state.NotLoaded? then e else e.(opening := e.opening + 1)
    case UnloadOpened(supported) => OpenUnload(e.(opening := e.opening - 1), supported)
    case UnloadImportFailed => e.(opening := e.opening - 1)
    case UnloadReturned(r) => EndUnload(e.(unloads := e.unloads - 1), r)
    case CancelRetry => e.(retry := NoRetry)
    case SetDisabled(d) => e.(disabled := d)
  }

  function EndSetup(e: Entry, r: SetupResult): Entry {
    match r
    case ImportFailed => SetState(e, SetupError)
    case MigrationFailed => SetState(e, MigrationError)
    case Succeeded => SetState(e.(retry := NoRetry), Loaded)
    case Failed => SetState(e.(retry := NoRetry), SetupError)
    case NotReady(running, jitter) =>
      var waiting := SetState(e, SetupRetry);
      waiting.(tries := e.tries + 1, retry := if running then AfterDelay(Wait(e.tries, jitter)) else WhenStarted)
    case Crashed => e
  }

  /** The state is looked at again, since it may have changed while the component was fetched. */
  function OpenUnload(e: Entry, supported: bool): Entry {
    if !Recoverable(e.state) then e
    else if !e.state.Loaded? then SetState(e.(retry := NoRetry), NotLoaded)
    else if !supported then SetState(e, FailedUnload)
    else e.(unloads := e.unloads + 1)
  }

  function EndUnload(e: Entry, r: UnloadResult): Entry {
    match r
    case Unloaded => SetState(e, NotLoaded)
    case Declined => e
    case Raised => SetState(e, FailedUnload)
  }

  // --------------------------------------------------------------------- runs

  predicate IsRun(e: Entry, steps: seq<Step>)
    decreases |steps|
  {
    steps == [] || (Enabled(e, steps[0]) && IsRun(Next(e, steps[0]), steps[1..]))
  }

  function After(e: Entry, steps: seq<Step>): Entry
    requires IsRun(e, steps)
    decreases |steps|
  {
    if steps == [] then e else After(Next(e, steps[0]), steps[1..])
  }

  predicate UnloadUnderWay(e: Entry) {
    e.opening + e.unloads > 0
  }

  /** An unload is requested only when none is under way. */
  predicate Serialised(e: Entry, steps: seq<Step>)
    requires IsRun(e, steps)
    decreases |steps|
  {
    steps == [] ||
    ((steps[0].UnloadRequested? ==> !UnloadUnderWay(e)) && Serialised(Next(e, steps[0]), steps[1..]))
  }

  /** At most one set-up is in flight; a retry is armed only in the retry state; a non-zero
      try count means waiting or setting up. */
  predicate Safe(e: Entry) {
    && e.setups <= 1
    && (e.setups == 1 ==> e.state.SetupInProgress?)
    && (!e.retry.NoRetry? ==> e.state.SetupRetry?)
    && (e.tries != 0 ==> KeepsTries(e.state))
  }

  predicate Inv(e: Entry) {
    && Safe(e)
    && e.opening + e.unloads <= 1
    && (e.unloads == 1 ==> e.state.Loaded?)
  }

  lemma StepInv(e: Entry, step: Step)
    requires Inv(e) && Enabled(e, step) && (step.UnloadRequested? ==> !UnloadUnderWay(e))
    ensures Inv(Next(e, step))
    ensures Final(e.state) ==> Next(e, step).state == e.state
    ensures e.state.SetupInProgress? && e.setups == 0 ==>
      Next(e, step).state.SetupInProgress? && Next(e, step).setups == 0
  {
  }

  lemma {:induction false} RunInv(e: Entry, steps: seq<Step>)
    requires Inv(e) && IsRun(e, steps) && Serialised(e, steps)
    ensures Inv(After(e, steps))
    decreases |steps|
  {
    hide Inv, Next, Enabled;
    if steps != [] {
      StepInv(e, steps[0]);
      RunInv(Next(e, steps[0]), steps[1..]);
    }
  }

  /** Every state of every serialised run of a new entry is safe. */
  lemma SerialisedRunsAreSafe(steps: seq<Step>)
    requires IsRun(NEW, steps) && Serialised(NEW, steps)
    ensures Safe(After(NEW, steps))
  {
    RunInv(NEW, steps);
  }

  /** A failed migration and a failed unload are never left. */
  lemma {:induction false} FinalStays(e: Entry, steps: seq<Step>)
    requires Inv(e) && Final(e.state) && IsRun(e, steps) && Serialised(e, steps)
    ensures After(e, steps).state == e.state
    decreases |steps|
  {
    if steps != [] {
      StepInv(e, steps[0]);
      FinalStays(Next(e, steps[0]), steps[1..]);
    }
  }

  lemma {:induction false} CrashedStaysInProgress(e: Entry, steps: seq<Step>)
    requires Inv(e) && e.state.SetupInProgress? && e.setups == 0 && IsRun(e, steps) && Serialised(e, steps)
    ensures After(e, steps).state.SetupInProgress? && After(e, steps).setups == 0
    decreases |steps|
  {
    if steps != [] {
      StepInv(e, steps[0]);
      CrashedStaysInProgress(Next(e, steps[0]), steps[1..]);
    }
  }

  /** No serialised run leaves the state in progress. */
  ghost predicate InProgressForGood(e: Entry) {
    forall steps :: IsRun(e, steps) && Serialised(e, steps) ==> After(e, steps).state.SetupInProgress?
  }

  /** An entry in progress stays so for good, and can be neither unloaded nor set up again,
      if and only if no set-up is in flight any more. */
  lemma InProgressForGoodIffNoneInFlight(e: Entry)
    requires Inv(e) && e.state.SetupInProgress?
    ensures InProgressForGood(e) <==> e.setups == 0
  {
    if e.setups == 0 {
      forall steps | IsRun(e, steps) && Serialised(e, steps) ensures After(e, steps).state.SetupInProgress? {
        CrashedStaysInProgress(e, steps);
      }
    } else {
      var end := Next(e, SetupEnds(Succeeded));
      NoSteps(end);
      Prepend(e, SetupEnds(Succeeded), [], end);
      assert !After(e, [SetupEnds(Succeeded)] + []).state.SetupInProgress?;
    }
  }

  /** A new entry whose first set-up crashes gets there. */
  lemma CrashIsReachable() returns (steps: seq<Step>)
    ensures IsRun(NEW, steps) && Serialised(NEW, steps) && InProgressForGood(After(NEW, steps))
  {
    var e1 := Next(NEW, Setup);
    var end := Next(e1, SetupEnds(Crashed));
    NoSteps(end);
    Prepend(e1, SetupEnds(Crashed), [], end);
    Prepend(NEW, Setup, [SetupEnds(Crashed)] + [], end);
    steps := [Setup] + ([SetupEnds(Crashed)] + []);
    InProgressForGoodIffNoneInFlight(end);
  }

  // ------------------------------------------------------- what the state says

  /** The result of the last set-up that has ended. */
  function LastResult(past: seq<Step>): Option<SetupResult> {
    if past == [] then None
    else if past[|past| - 1].SetupEnds? then Some(past[|past| - 1].result)
    else LastResult(past[..|past| - 1])
  }

  /** The entry is loaded, in error or waiting after a set-up that ended like that, and a failed
      unload has raised or was not supported. */
  predicate Told(past: seq<Step>, s: EntryState) {
    match s
    case Loaded => LastResult(past) == Some(Succeeded)
    case SetupError => LastResult(past) == Some(ImportFailed) || LastResult(past) == Some(Failed)
    case MigrationError => LastResult(past) == Some(MigrationFailed)
    case SetupRetry => LastResult(past).Some? && LastResult(past).value.NotReady?
    case FailedUnload => UnloadReturned(Raised) in past || UnloadOpened(false) in past
    case NotLoaded => true
    case SetupInProgress => Setup in past || RetryFires(false) in past
  }

  lemma StepTells(past: seq<Step>, e: Entry, step: Step)
    requires Inv(e) && Enabled(e, step) && Told(past, e.state)
    ensures Told(past + [step], Next(e, step).state)
  {
    var more := past + [step];
    assert more[..|past|] == past;
    assert forall x :: x in more <==> x in past || x == step;
    assert LastResult(more) == if step.SetupEnds? then Some(step.result) else LastResult(past);
  }

  lemma {:induction false} RunTells(past: seq<Step>, e: Entry, steps: seq<Step>)
    requires Inv(e) && IsRun(e, steps) && Serialised(e, steps) && Told(past, e.state)
    ensures Told(past + steps, After(e, steps).state)
    decreases |steps|
  {
    hide Inv, Next, Enabled, Told;
    if steps == [] {
      assert past + steps == past;
    } else {
      StepInv(e, steps[0]);
      StepTells(past, e, steps[0]);
      assert past + [steps[0]] + steps[1..] == past + steps;
      RunTells(past + [steps[0]], Next(e, steps[0]), steps[1..]);
    }
  }

  /** In every run in which unloads do not overlap, the state of an entry tells how its last
      set-up has ended. */
  lemma StateTellsLastResult(steps: seq<Step>)
    requires IsRun(NEW, steps) && Serialised(NEW, steps)
    ensures Told(steps, After(NEW, steps).state)
  {
    assert [] + steps == steps;
    RunTells([], NEW, steps);
  }

  // ------------------------------------------------------------------ the reload lock

  /** `async_reload` requests its unload under the entry's lock, and gives the lock back only
      after that unload has returned; any other step may come in between. */
  datatype LockedStep = Acquire | Release | Other(step: Step)

  predicate IsLockedRun(e: Entry, held: bool, steps: seq<LockedStep>)
    decreases |steps|
  {
    steps == [] ||
    match steps[0]
    case Acquire => !held && Recoverable(e.state) && IsLockedRun(Next(e, UnloadRequested), true, steps[1..])
    case Release => held && !UnloadUnderWay(e) && IsLockedRun(e, false, steps[1..])
    case Other(step) => !step.UnloadRequested? && Enabled(e, step) && IsLockedRun(Next(e, step), held, steps[1..])
  }

  /** What the entry sees of a run of reloads. */
  function Unlocked(steps: seq<LockedStep>): seq<Step> {
    if steps == [] then []
    else
      (match steps[0] case Acquire => [UnloadRequested] case Release => [] case Other(step) => [step])
      + Unlocked(steps[1..])
  }

  lemma {:induction false} LockSerialises(e: Entry, held: bool, steps: seq<LockedStep>)
    requires IsLockedRun(e, held, steps) && (UnloadUnderWay(e) ==> held)
    ensures IsRun(e, Unlocked(steps)) && Serialised(e, Unlocked(steps))
    decreases |steps|
  {
    if steps != [] {
      var rest := Unlocked(steps[1..]);
      match steps[0]
      case Acquire =>
        LockSerialises(Next(e, UnloadRequested), true, steps[1..]);
        assert ([UnloadRequested] + rest)[1..] == rest;
      case Release =>
        LockSerialises(e, false, steps[1..]);
        assert [] + rest == rest;
      case Other(step) =>
        LockSerialises(Next(e, step), held, steps[1..]);
        assert ([step] + rest)[1..] == rest;
    }
  }

  /** So as long as all unloads are part of reloads, every state of every run is safe. */
  lemma ReloadsAreSafe(steps: seq<LockedStep>)
    requires IsLockedRun(NEW, false, steps)
    ensures IsRun(NEW, Unlocked(steps)) && Safe(After(NEW, Unlocked(steps)))
  {
    LockSerialises(NEW, false, steps);
    SerialisedRunsAreSafe(Unlocked(steps));
  }

  // ------------------------------------------------------------ overlapping unloads

  /** A serialised run to a given end. */
  predicate Leads(e: Entry, steps: seq<Step>, end: Entry) {
    IsRun(e, steps) && Serialised(e, steps) && After(e, steps) == end
  }

  /** Whatever happens after another unload is requested now, the entry is safe. */
  ghost predicate RequestIsSafe(e: Entry)
    requires Recoverable(e.state)
  {
    forall steps, end :: Leads(Next(e, UnloadRequested), steps, end) ==> Safe(end)
  }

  /** Whatever happens after another unload is requested now, an entry that gets into the
      state stays there. */
  ghost predicate RequestKeeps(e: Entry, final: EntryState)
    requires Recoverable(e.state)
  {
    forall steps, mid, more, end ::
      Leads(Next(e, UnloadRequested), steps, mid) && mid.state == final && Leads(mid, more, end) ==> end.state == final
  }

  /** No other unload is under way, or the entry can no more be loaded before that one ends:
      it is not loaded and waits for no retry. */
  predicate RequestIsHarmless(e: Entry) {
    !UnloadUnderWay(e) || (!e.state.Loaded? && e.retry.NoRetry?)
  }

  /** Requesting an unload keeps the entry safe if and only if it is harmless: otherwise the
      second of two unloads can mark the entry as not loaded while it is being set up again,
      and a second set-up starts. */
  lemma UnloadRequestSafeIffHarmless(e: Entry)
    requires Inv(e) && Recoverable(e.state)
    ensures RequestIsSafe(e) <==> RequestIsHarmless(e)
  {
    hide Leads;
    var e1 := Next(e, UnloadRequested);
    if RequestIsHarmless(e) {
      forall steps, end | Leads(e1, steps, end) ensures Safe(end) {
        HarmlessRunInv(e1, steps, end);
      }
    } else {
      var opening, both := BothOpen(e);
      var steps, end := TwoUnloadsTwoSetups(both);
      Append(e1, opening, both, steps, end);
      assert !Safe(end);
    }
  }

  /** A final state that is reached after such a request is kept under the same condition:
      otherwise the second of two unloads can end in it, or a failed migration come before it,
      and the first one marks the entry as not loaded. */
  lemma FinalKeptIffHarmless(e: Entry, final: EntryState)
    requires Inv(e) && Recoverable(e.state) && Final(final)
    ensures RequestKeeps(e, final) <==> RequestIsHarmless(e)
  {
    hide Leads;
    var e1 := Next(e, UnloadRequested);
    if RequestIsHarmless(e) {
      forall steps, mid, more, end | Leads(e1, steps, mid) && mid.state == final && Leads(mid, more, end)
        ensures end.state == final
      {
        HarmlessRunInv(e1, steps, mid);
        LeadsFinal(mid, more, end);
      }
    } else {
      var opening, both := BothOpen(e);
      var steps, mid := OneUnloadToFinal(both, final);
      Append(e1, opening, both, steps, mid);
      var end := Next(mid, UnloadReturned(Unloaded));
      NoSteps(end);
      Prepend(mid, UnloadReturned(Unloaded), [], end);
      assert end.state != final;
    }
  }

  lemma LeadsFinal(e: Entry, steps: seq<Step>, end: Entry)
    requires Inv(e) && Final(e.state) && Leads(e, steps, end)
    ensures end.state == e.state
  {
    FinalStays(e, steps);
  }

  /** Two unloads fetch the component of an entry that cannot be loaded before one of them
      has ended. */
  predicate TwoHarmless(e: Entry) {
    && Safe(e) && e.opening == 2 && e.unloads == 0 && e.setups == 0 && e.retry.NoRetry?
    && (e.state.SetupError? || e.state.SetupRetry?)
  }

  lemma {:induction false} HarmlessRunInv(e: Entry, steps: seq<Step>, end: Entry)
    requires (Inv(e) || TwoHarmless(e)) && Leads(e, steps, end)
    ensures Safe(end) && (Final(end.state) ==> Inv(end))
    decreases |steps|
  {
    if Inv(e) {
      RunInv(e, steps);
    } else if steps != [] {
      HarmlessRunInv(Next(e, steps[0]), steps[1..], end);
    }
  }

  lemma NoSteps(e: Entry)
    ensures Leads(e, [], e)
  {
  }

  lemma Prepend(e: Entry, step: Step, rest: seq<Step>, end: Entry)
    requires Enabled(e, step) && !step.UnloadRequested? && Leads(Next(e, step), rest, end)
    ensures Leads(e, [step] + rest, end)
  {
    hide Next, Enabled;
    assert ([step] + rest)[1..] == rest;
  }

  lemma {:induction false} Append(e: Entry, steps: seq<Step>, mid: Entry, more: seq<Step>, end: Entry)
    requires Leads(e, steps, mid) && Leads(mid, more, end)
    ensures Leads(e, steps + more, end)
    decreases |steps|
  {
    hide Next, Enabled;
    if steps == [] {
      assert steps + more == more;
    } else {
      Append(Next(e, steps[0]), steps[1..], mid, more, end);
      assert (steps + more)[1..] == steps[1..] + more;
    }
  }

  /** Two unloads are in the integration's hands. */
  predicate BothInHand(e: Entry) {
    e.state.Loaded? && e.opening == 0 && e.unloads == 2 && e.setups == 0 && !e.disabled
  }

  lemma {:induction false} OpenAll(e: Entry) returns (steps: seq<Step>, both: Entry)
    requires e.state.Loaded? && e.opening + e.unloads == 2 && e.setups == 0 && !e.disabled
    ensures Leads(e, steps, both) && BothInHand(both)
    decreases e.opening
  {
    hide Leads;
    if e.opening == 0 {
      steps, both := [], e;
      NoSteps(e);
    } else {
      steps, both := OpenAll(Next(e, UnloadOpened(true)));
      Prepend(e, UnloadOpened(true), steps, both);
      steps := [UnloadOpened(true)] + steps;
    }
  }

  /** Both unloads get into the integration's hands, if need be after the retry has succeeded. */
  lemma BothOpen(e: Entry) returns (steps: seq<Step>, both: Entry)
    requires Inv(e) && Recoverable(e.state) && !RequestIsHarmless(e)
    ensures Leads(Next(e, UnloadRequested), steps, both) && BothInHand(both)
  {
    hide Leads;
    var e1 := Next(e, UnloadRequested);
    var e2 := Next(e1, SetDisabled(false));
    if e.state.Loaded? {
      steps, both := OpenAll(e2);
    } else {
      var e3 := Next(e2, RetryFires(false));
      steps, both := OpenAll(Next(e3, SetupEnds(Succeeded)));
      Prepend(e3, SetupEnds(Succeeded), steps, both);
      steps := [SetupEnds(Succeeded)] + steps;
      Prepend(e2, RetryFires(false), steps, both);
      steps := [RetryFires(false)] + steps;
    }
    Prepend(e1, SetDisabled(false), steps, both);
    steps := [SetDisabled(false)] + steps;
  }

  /** From two unloads in the integration's hands to two set-ups in flight. */
  lemma TwoUnloadsTwoSetups(e: Entry) returns (steps: seq<Step>, end: Entry)
    requires BothInHand(e)
    ensures Leads(e, steps, end) && end.setups == 2
  {
    hide Leads;
    var e3 := Next(e, UnloadReturned(Unloaded));
    var e4 := Next(e3, Setup);
    var e5 := Next(e4, UnloadReturned(Unloaded));
    end, steps := Next(e5, Setup), [];
    NoSteps(end);
    Prepend(e5, Setup, steps, end);
    steps := [Setup] + steps;
    Prepend(e4, UnloadReturned(Unloaded), steps, end);
    steps := [UnloadReturned(Unloaded)] + steps;
    Prepend(e3, Setup, steps, end);
    steps := [Setup] + steps;
    Prepend(e, UnloadReturned(Unloaded), steps, end);
    steps := [UnloadReturned(Unloaded)] + steps;
  }

  /** From there to a final state while one of the two has not returned: that of a failed
      unload, or, by way of another set-up, that of a failed migration. */
  lemma OneUnloadToFinal(e: Entry, final: EntryState) returns (steps: seq<Step>, end: Entry)
    requires BothInHand(e) && Final(final)
    ensures Leads(e, steps, end) && end.state == final && end.unloads == 1
  {
    hide Leads;
    steps := [];
    if final.FailedUnload? {
      end := Next(e, UnloadReturned(Raised));
      NoSteps(end);
      Prepend(e, UnloadReturned(Raised), steps, end);
      steps := [UnloadReturned(Raised)] + steps;
    } else {
      var e3 := Next(e, UnloadReturned(Unloaded));
      var e4 := Next(e3, Setup);
      end := Next(e4, SetupEnds(MigrationFailed));
      NoSteps(end);
      Prepend(e4, SetupEnds(MigrationFailed), steps, end);
      steps := [SetupEnds(MigrationFailed)] + steps;
      Prepend(e3, Setup, steps, end);
      steps := [Setup] + steps;
      Prepend(e, UnloadReturned(Unloaded), steps, end);
      steps := [UnloadReturned(Unloaded)] + steps;
    }
  }

  // -------------------------------------------------------------------- retries

  /** The not-ready results since the entry was last neither waiting nor being set up. */
  function NotReadyInARow(e: Entry, steps: seq<Step>): nat
    requires IsRun(e, steps)
    decreases |steps|
  {
    if steps == [] then 0
    else
      LastStep(e, steps);
      if !KeepsTries(After(e, steps).state) then 0
      else
        NotReadyInARow(e, steps[..|steps| - 1])
        + if steps[|steps| - 1].SetupEnds? && steps[|steps| - 1].result.NotReady? then 1 else 0
  }

  lemma {:induction false} LastStep(e: Entry, steps: seq<Step>)
    requires IsRun(e, steps) && steps != []
    ensures var init, last := steps[..|steps| - 1], steps[|steps| - 1];
      IsRun(e, init) && Enabled(After(e, init), last) && After(e, steps) == Next(After(e, init), last)
    decreases |steps|
  {
    hide Next, Enabled;
    var rest := steps[1..];
    if rest == [] {
      assert steps[..0] == [] && After(Next(e, steps[0]), rest) == Next(e, steps[0]);
    } else {
      LastStep(Next(e, steps[0]), rest);
      assert steps[..|steps| - 1][1..] == rest[..|rest| - 1];
    }
  }

  lemma {:induction false} TriesCountNotReady(e: Entry, steps: seq<Step>)
    requires IsRun(e, steps) && e.tries == 0
    ensures var end := After(e, steps);
      end.tries == NotReadyInARow(e, steps) && (end.tries != 0 ==> KeepsTries(end.state))
    decreases |steps|
  {
    if steps != [] {
      LastStep(e, steps);
      TriesCountNotReady(e, steps[..|steps| - 1]);
    }
  }

  /** The k-th not-ready result in a row waits five seconds, doubled k - 1 times but at most
      four times, plus jitter. This holds in every run, serialised or not. */
  lemma RetryWait(e: Entry, steps: seq<Step>, jitter: int)
    requires e.tries == 0 && IsRun(e, steps)
    requires Enabled(After(e, steps), SetupEnds(NotReady(true, jitter)))
    ensures var end := Next(After(e, steps), SetupEnds(NotReady(true, jitter)));
      end.retry == AfterDelay(5000000 * Pow2(Min(NotReadyInARow(e, steps), 4)) + jitter)
      && end.tries == NotReadyInARow(e, steps) + 1
    ensures Next(After(e, steps), SetupEnds(NotReady(true, jitter))).retry.microseconds <= 80500000
  {
    TriesCountNotReady(e, steps);
    assert Pow2(4) == 16 && Pow2(3) == 8 && Pow2(2) == 4 && Pow2(1) == 2;
  }
}
