/** What every interleaving of calls of `async_get_integrations` keeps. */
module FetchRuns {
  import opened Graphs
  import opened Loader
  import opened Fetch

  ghost predicate Run(s: State, steps: seq<Step>, t: State)
    decreases |steps|
  {
    if steps == [] then s == t
    else Enabled(s, steps[0]) && Run(Apply(s, steps[0]), steps[1..], t)
  }

  ghost predicate Reachable(s: State) {
    exists steps :: Run(INIT, steps, s)
  }

  lemma {:induction false} RunInv(s: State, steps: seq<Step>, t: State)
    requires Inv(s) && Run(s, steps, t)
    ensures Inv(t)
    decreases |steps|
  {
    if steps != [] {
      StepInv(s, steps[0]);
      RunInv(Apply(s, steps[0]), steps[1..], t);
    }
  }

  lemma ReachableInv(s: State)
    requires Reachable(s)
    ensures Inv(s)
  {
    var steps :| Run(INIT, steps, s);
    RunInv(INIT, steps, s);
  }

  // ---------------------------------------------------------------- the results

  /** A call that has returned has an answer for exactly the domains it was asked for, and
      every integration among the answers is the cached one. */
  lemma ReturnedCallIsComplete(s: State, c: CallId)
    requires Reachable(s) && c < |s.calls| && s.calls[c].stage.Returned?
    ensures s.calls[c].results.Keys == ToSet(s.calls[c].domains)
    ensures forall d :: d in s.calls[c].results && s.calls[c].results[d].Found? ==>
      d in s.cache && s.cache[d] == Cached(s.calls[c].results[d].integration)
  {
    ReachableInv(s);
    assert CallInv(s.cache, s.futures, c, s.calls[c]);
  }

  /** Futures are never forgotten or reopened, and only their owner's steps complete them. */
  ghost predicate FuturesKept(s: seq<Future>, t: seq<Future>, step: Step) {
    && |s| <= |t|
    && forall i :: 0 <= i < |s| ==>
         t[i] == s[i] || (t[i] == s[i].(done := true) && !step.Enter? && step.call == s[i].owner)
  }

  lemma EnterKeepsFutures(s: State, domains: seq<Domain>)
    ensures FuturesKept(s.futures, Apply(s, Enter(domains)).futures, Enter(domains))
  {
    EnteredInv(s, domains);
  }

  lemma StepKeepsFutures(s: State, step: Step)
    requires Inv(s) && Enabled(s, step)
    ensures FuturesKept(s.futures, Apply(s, step).futures, step)
  {
    match step
    case Enter(domains) => EnterKeepsFutures(s, domains);
    case Wake(_) =>
    case CustomLoaded(_, _) => StoringKeepsFutures(s, step);
    case RootLoaded(_, _) => StoringKeepsFutures(s, step);
  }

  lemma StoringKeepsFutures(s: State, step: Step)
    requires Inv(s) && Enabled(s, step) && (step.CustomLoaded? || step.RootLoaded?)
    ensures FuturesKept(s.futures, Apply(s, step).futures, step)
  {
    StoringStep(s, step);
    var hits, misses, stage :|
      Settles(s, step.call, hits, misses, stage) && Apply(s, step) == Store(s, step.call, hits, misses, stage);
    StoreKeepsFutures(s, step.call, hits, misses, stage);
  }

  lemma StoreKeepsFutures(s: State, c: CallId, hits: map<Domain, Integration>, misses: set<Domain>, stage: Stage)
    requires c < |s.calls|
    ensures var t := Store(s, c, hits, misses, stage).futures;
      |t| == |s.futures| && forall i :: 0 <= i < |t| ==>
        t[i] == s.futures[i] || (s.futures[i].owner == c && t[i] == s.futures[i].(done := true))
  {
  }

  /** An integration, once cached, is never replaced or dropped. */
  lemma StepKeepsIntegration(s: State, step: Step, d: Domain)
    requires Inv(s) && Enabled(s, step) && d in s.cache && s.cache[d].Cached?
    ensures d in Apply(s, step).cache && Apply(s, step).cache[d] == s.cache[d]
  {
    match step
    case Enter(domains) => EnteredInv(s, domains);
    case Wake(_) =>
    case _ =>
      StoringStep(s, step);
      var hits, misses, stage :|
        Settles(s, step.call, hits, misses, stage) && Apply(s, step) == Store(s, step.call, hits, misses, stage);
      assert CallInv(s.cache, s.futures, step.call, s.calls[step.call]);
      StoreKeepsEntry(s, step.call, hits, misses, stage, d);
  }

  lemma {:induction false} CachedIntegrationNeverChanges(s: State, steps: seq<Step>, t: State, d: Domain)
    requires Inv(s) && Run(s, steps, t) && d in s.cache && s.cache[d].Cached?
    ensures d in t.cache && t.cache[d] == s.cache[d]
    decreases |steps|
  {
    if steps != [] {
      StepKeepsIntegration(s, steps[0], d);
      StepInv(s, steps[0]);
      CachedIntegrationNeverChanges(Apply(s, steps[0]), steps[1..], t, d);
    }
  }

  /** A waiter finds an unfinished future if and only if somebody is loading the domain again;
      that future was then made after the awaited one. */
  lemma UnfinishedIffRequestedAgain(s: State, c: CallId, d: Domain)
    requires Inv(s) && Enabled(s, Wake(c)) && d in s.calls[c].inProgress
    ensures var found := Apply(s, Wake(c)).calls[c].results[d];
      && (found.Unfinished? <==> exists f :: 0 <= f < |s.futures| && s.futures[f].domain == d && !s.futures[f].done)
      && (found.Unfinished? ==>
           && s.calls[c].inProgress[d] < found.future < |s.futures|
           && s.futures[found.future].domain == d && !s.futures[found.future].done)
  {
    assert CallInv(s.cache, s.futures, c, s.calls[c]);
    hide CallInv, Inv;
    assert IsDone(s, s.calls[c].inProgress[d]);
    CachedFutureIsPending(s, d);
    if f :| 0 <= f < |s.futures| && s.futures[f].domain == d && !s.futures[f].done { PendingIsCached(s, f); }
  }

  lemma CachedFutureIsPending(s: State, d: Domain)
    requires Inv(s)
    ensures d in s.cache ==> EntryInv(s, d)
  {
  }

  lemma PendingIsCached(s: State, f: FutureId)
    requires Inv(s) && f < |s.futures| && !s.futures[f].done
    ensures s.futures[f].domain in s.cache && s.cache[s.futures[f].domain] == Loading(f)
  {
    assert FutureInv(s, f);
    var owner := s.futures[f].owner;
    assert CallInv(s.cache, s.futures, owner, s.calls[owner]);
  }

  lemma {:induction false} RunThen(s: State, steps: seq<Step>, t: State, step: Step)
    requires Run(s, steps, t) && Enabled(t, step)
    ensures Run(s, steps + [step], Apply(t, step))
    decreases |steps|
  {
    hide Enabled, Apply;
    var more := steps + [step];
    if steps == [] {
      assert more[1..] == [];
    } else {
      assert more[0] == steps[0] && more[1..] == steps[1..] + [step];
      RunThen(Apply(s, steps[0]), steps[1..], t, step);
    }
  }

  lemma ReachableThen(s: State, step: Step)
    requires Reachable(s) && Enabled(s, step)
    ensures Reachable(Apply(s, step))
  {
    hide Run, Enabled, Apply;
    var steps :| Run(INIT, steps, s);
    RunThen(INIT, steps, s, step);
  }

  lemma EnterOne(s: State, d: Domain)
    ensures Apply(s, Enter([d])) ==
      var k := ClassifyOne(Fresh(s, [d]), |s.calls|, d);
      State(k.cache, k.futures, s.calls + [k.call.(stage := FirstStage(k.call))])
  {
    var k := ClassifyOne(Fresh(s, [d]), |s.calls|, d);
    assert [d][1..] == [] && Classify(k, |s.calls|, []) == k;
    assert Classify(Fresh(s, [d]), |s.calls|, [d]) == k;
  }

  lemma InitIsReachable()
    ensures Reachable(INIT)
  {
    assert Run(INIT, [], INIT);
  }

  lemma TwoCallsWait(d: Domain) returns (s: State)
    requires '.' !in d.name
    ensures Reachable(s)
    ensures s == State(map[d := Loading(0)], [Future(0, d, false)],
                       [Call([d], map[], map[d := 0], map[], Custom), Call([d], map[], map[], map[d := 0], Waiting)])
  {
    hide Reachable, Classify;
    InitIsReachable();
    ReachableThen(INIT, Enter([d]));
    EnterOne(INIT, d);
    s := Apply(INIT, Enter([d]));
    ReachableThen(s, Enter([d]));
    EnterOne(s, d);
    s := Apply(s, Enter([d]));
  }

  /** It happens: two calls ask for a domain that does not exist, a third one asks again after
      the first has found out, and then the second wakes up. */
  lemma UnfinishedOccurs(d: Domain) returns (s: State, c: CallId)
    requires '.' !in d.name
    ensures Reachable(s) && Enabled(s, Wake(c)) && d in s.calls[c].inProgress
    ensures Apply(s, Wake(c)).calls[c].results[d].Unfinished?
  {
    hide Reachable, Classify;
    s := TwoCallsWait(d);
    c := 1;
    assert d in s.calls[0].needed;
    ReachableThen(s, CustomLoaded(0, map[]));
    s := Apply(s, CustomLoaded(0, map[]));
    assert d in s.calls[0].needed && s.calls[0].stage.Root?;
    ReachableThen(s, RootLoaded(0, map[]));
    s := Apply(s, RootLoaded(0, map[]));
    assert d !in s.cache && s.futures == [Future(0, d, true)];
    ReachableThen(s, Enter([d]));
    EnterOne(s, d);
    s := Apply(s, Enter([d]));
  }

  // ------------------------------------------------------------------- waiting

  /** The call awaits a future that it has made itself. */
  ghost predicate WaitsForItself(s: State, c: CallId) {
    c < |s.calls| && exists d :: d in s.calls[c].inProgress && OwnFuture(s, c, s.calls[c].inProgress[d])
  }

  predicate OwnFuture(s: State, c: CallId, f: FutureId) {
    f < |s.futures| && s.futures[f].owner == c && !s.futures[f].done
  }

  /** The list names a plain domain that is not in the cache twice. */
  ghost predicate RepeatsUncached(s: State, domains: seq<Domain>) {
    exists d :: Twice(domains, d) && Requestable(s, d)
  }

  /** A future of the new call is one it needs itself, for a domain listed twice. */
  lemma OwnFutureIsRepeated(s: State, k: Classified, domains: seq<Domain>, d: Domain)
    requires Inv(s) && ClassifiedInv(s, k, |s.calls|, domains)
    requires d in k.call.inProgress && k.call.inProgress[d] < |k.futures|
    requires k.futures[k.call.inProgress[d]].owner == |s.calls| && !k.futures[k.call.inProgress[d]].done
    ensures Twice(domains, d) && Requestable(s, d)
  {
    var f := k.call.inProgress[d];
    if d in s.cache && s.cache[d] == Loading(f) { LoadingIsOlder(s, d); }
    assert d in k.call.needed;
  }

  lemma LoadingIsOlder(s: State, d: Domain)
    requires Inv(s) && d in s.cache && s.cache[d].Loading?
    ensures s.cache[d].future < |s.futures| && s.futures[s.cache[d].future].owner < |s.calls|
  {
    assert EntryInv(s, d);
    assert FutureInv(s, s.cache[d].future);
  }

  lemma RepeatedIsOwnFuture(s: State, k: Classified, domains: seq<Domain>, d: Domain)
    requires ClassifiedInv(s, k, |s.calls|, domains)
    requires Twice(domains, d) && Requestable(s, d)
    ensures d in k.call.inProgress && k.call.inProgress[d] < |k.futures|
    ensures k.futures[k.call.inProgress[d]].owner == |s.calls| && !k.futures[k.call.inProgress[d]].done
  {
    assert d in domains;
    assert d in k.call.needed;
  }

  /** A new call waits for itself if and only if its list repeats an uncached domain. */
  lemma SelfWaitIffRepeated(s: State, domains: seq<Domain>)
    requires Inv(s)
    ensures WaitsForItself(Apply(s, Enter(domains)), |s.calls|) <==> RepeatsUncached(s, domains)
  {
    var t, k := Apply(s, Enter(domains)), Entered(s, domains);
    EnteredInv(s, domains);
    if RepeatsUncached(s, domains) {
      var d :| Twice(domains, d) && Requestable(s, d);
      RepeatedIsOwnFuture(s, k, domains, d);
      assert OwnFuture(t, |s.calls|, t.calls[|s.calls|].inProgress[d]);
    }
    if WaitsForItself(t, |s.calls|) {
      var d :| d in t.calls[|s.calls|].inProgress && OwnFuture(t, |s.calls|, t.calls[|s.calls|].inProgress[d]);
      OwnFutureIsRepeated(s, k, domains, d);
    }
  }

  lemma WaitingIfInProgress(s: State, c: CallId, d: Domain)
    requires Inv(s) && c < |s.calls| && d in s.calls[c].inProgress
    ensures s.calls[c].stage.Waiting?
  {
    assert CallInv(s.cache, s.futures, c, s.calls[c]);
  }

  lemma StepKeepsCall(s: State, step: Step, c: CallId)
    requires Enabled(s, step) && c < |s.calls| && (step.Enter? || step.call != c)
    ensures c < |Apply(s, step).calls| && Apply(s, step).calls[c] == s.calls[c]
  {
  }

  lemma BlockedCannotWake(s: State, c: CallId, d: Domain)
    requires c < |s.calls| && d in s.calls[c].inProgress && !IsDone(s, s.calls[c].inProgress[d])
    ensures !Enabled(s, Wake(c))
  {
  }

  lemma StepKeepsSelfWait(s: State, step: Step, c: CallId)
    requires Inv(s) && Enabled(s, step) && WaitsForItself(s, c)
    ensures WaitsForItself(Apply(s, step), c)
  {
    hide Inv, Classify, Store;
    var t := Apply(s, step);
    var d :| d in s.calls[c].inProgress && OwnFuture(s, c, s.calls[c].inProgress[d]);
    var f := s.calls[c].inProgress[d];
    WaitingIfInProgress(s, c, d);
    BlockedCannotWake(s, c, d);
    StepKeepsFutures(s, step);
    StepKeepsCall(s, step, c);
    assert OwnFuture(t, c, f);
    assert t.calls[c] == s.calls[c];
  }

  /** A call that waits for itself never returns. */
  lemma {:induction false} SelfWaitIsForever(s: State, steps: seq<Step>, t: State, c: CallId)
    requires Inv(s) && WaitsForItself(s, c) && Run(s, steps, t)
    ensures WaitsForItself(t, c) && !t.calls[c].stage.Returned?
    decreases |steps|
  {
    hide Apply, Enabled, Inv;
    if steps == [] {
      var d :| d in s.calls[c].inProgress && OwnFuture(s, c, s.calls[c].inProgress[d]);
      WaitingIfInProgress(s, c, d);
    } else {
      StepKeepsSelfWait(s, steps[0], c);
      StepInv(s, steps[0]);
      SelfWaitIsForever(Apply(s, steps[0]), steps[1..], t, c);
    }
  }

  /** Every call waits only for calls that classified their domains before it. */
  ghost predicate WaitsEarlier(s: State) {
    forall c, d :: 0 <= c < |s.calls| && d in s.calls[c].inProgress ==>
      AwaitedBefore(s, c, s.calls[c].inProgress[d])
  }

  predicate AwaitedBefore(s: State, c: CallId, f: FutureId) {
    f < |s.futures| && (s.futures[f].done || s.futures[f].owner < c)
  }

  lemma NewWaitIsEarlier(s: State, domains: seq<Domain>, d: Domain)
    requires Inv(s) && !RepeatsUncached(s, domains) && d in Entered(s, domains).call.inProgress
    ensures AwaitedBefore(Apply(s, Enter(domains)), |s.calls|, Entered(s, domains).call.inProgress[d])
  {
    var k := Entered(s, domains);
    EnteredInv(s, domains);
    EnteredCallInv(s, domains);
    var f := k.call.inProgress[d];
    if k.futures[f].owner == |s.calls| && !k.futures[f].done {
      OwnFutureIsRepeated(s, k, domains, d);
    }
  }

  lemma EnterWaitsEarlier(s: State, domains: seq<Domain>)
    requires Inv(s) && WaitsEarlier(s) && !RepeatsUncached(s, domains)
    ensures WaitsEarlier(Apply(s, Enter(domains)))
  {
    var t := Apply(s, Enter(domains));
    StepKeepsFutures(s, Enter(domains));
    forall c, d | 0 <= c < |t.calls| && d in t.calls[c].inProgress
      ensures AwaitedBefore(t, c, t.calls[c].inProgress[d])
    {
      if c < |s.calls| {
        assert AwaitedBefore(s, c, s.calls[c].inProgress[d]);
      } else {
        NewWaitIsEarlier(s, domains, d);
      }
    }
  }

  lemma StepWaitsEarlier(s: State, step: Step)
    requires Inv(s) && WaitsEarlier(s) && Enabled(s, step)
    requires step.Enter? ==> !RepeatsUncached(s, step.domains)
    ensures WaitsEarlier(Apply(s, step))
  {
    if step.Enter? {
      EnterWaitsEarlier(s, step.domains);
    } else {
      StepKeepsFutures(s, step);
      var t := Apply(s, step);
      forall c, d | 0 <= c < |t.calls| && d in t.calls[c].inProgress
        ensures AwaitedBefore(t, c, t.calls[c].inProgress[d])
      {
        assert AwaitedBefore(s, c, s.calls[c].inProgress[d]);
      }
    }
  }

  /** A run in which no call repeats an uncached domain. */
  ghost predicate CleanRun(s: State, steps: seq<Step>, t: State)
    decreases |steps|
  {
    if steps == [] then s == t
    else
      && Enabled(s, steps[0]) && (steps[0].Enter? ==> !RepeatsUncached(s, steps[0].domains))
      && CleanRun(Apply(s, steps[0]), steps[1..], t)
  }

  lemma {:induction false} CleanRunWaitsEarlier(s: State, steps: seq<Step>, t: State)
    requires Inv(s) && WaitsEarlier(s) && CleanRun(s, steps, t)
    ensures Inv(t) && WaitsEarlier(t)
    decreases |steps|
  {
    if steps != [] {
      StepInv(s, steps[0]);
      StepWaitsEarlier(s, steps[0]);
      CleanRunWaitsEarlier(Apply(s, steps[0]), steps[1..], t);
    }
  }

  predicate Active(s: State, c: CallId) {
    c < |s.calls| && !s.calls[c].stage.Returned?
  }

  /** There is no wait cycle: after any clean run the oldest call that has not returned can
      take a step, so the calls cannot block each other. */
  lemma {:induction false} CleanRunsNeverBlock(steps: seq<Step>, s: State, c: CallId)
    requires CleanRun(INIT, steps, s) && Active(s, c)
    ensures exists step: Step :: !step.Enter? && Enabled(s, step)
  {
    CleanRunWaitsEarlier(INIT, steps, s);
    OldestCanStep(s, c);
  }

  lemma {:induction false} OldestCanStep(s: State, c: CallId)
    requires Inv(s) && WaitsEarlier(s) && Active(s, c)
    ensures exists step: Step :: !step.Enter? && Enabled(s, step)
    decreases c
  {
    assert CallInv(s.cache, s.futures, c, s.calls[c]);
    if s.calls[c].stage.Custom? {
      assert Enabled(s, CustomLoaded(c, map[]));
    } else if s.calls[c].stage.Root? {
      assert Enabled(s, RootLoaded(c, map[]));
    } else if d :| d in s.calls[c].inProgress && !IsDone(s, s.calls[c].inProgress[d]) {
      var f := s.calls[c].inProgress[d];
      assert AwaitedBefore(s, c, f) && FutureInv(s, f);
      assert CallInv(s.cache, s.futures, s.futures[f].owner, s.calls[s.futures[f].owner]);
      OldestCanStep(s, s.futures[f].owner);
    } else {
      assert Enabled(s, Wake(c));
    }
  }
}
