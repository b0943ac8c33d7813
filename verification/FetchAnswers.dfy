/** Which answer a call of `async_get_integrations` gets for each domain, and where it comes
    from, over all interleavings. */
module FetchAnswers {
  import opened Graphs
  import opened Loader
  import opened Fetch
  import opened FetchRuns

  // ------------------------------------------------------------ answers at hand

  predicate IsCached(s: State, d: Domain) {
    d in s.cache && s.cache[d].Cached?
  }

  predicate IsLoading(s: State, d: Domain) {
    d in s.cache && s.cache[d].Loading?
  }

  /** A domain is answered at once if it is cached, or if it is neither in the cache nor a plain
      domain. */
  predicate AtHand(s: State, d: Domain) {
    IsCached(s, d) || (d !in s.cache && '.' in d.name)
  }

  function AnswerAtHand(s: State, d: Domain): Answer {
    if IsCached(s, d) then Found(s.cache[d].integration) else Invalid
  }

  ghost predicate AnsweredAtHand(s: State, call: Call, ds: seq<Domain>) {
    AtHandExactly(s, call, ds) && LoadingAwaited(s, call, ds)
  }

  ghost predicate AtHandExactly(s: State, call: Call, ds: seq<Domain>) {
    && (forall d :: d in call.results <==> d in ds && AtHand(s, d))
    && (forall d :: d in call.results ==> call.results[d] == AnswerAtHand(s, d))
  }

  ghost predicate LoadingAwaited(s: State, call: Call, ds: seq<Domain>) {
    forall d :: d in ds && IsLoading(s, d) ==> d in call.inProgress && call.inProgress[d] == s.cache[d].future
  }

  lemma ClassifyOneAtHand(s: State, k: Classified, c: CallId, ds: seq<Domain>, d: Domain)
    requires NewEntries(s, k) && SortedNeeded(s, k, ds) && AtHandExactly(s, k.call, ds)
    ensures AtHandExactly(s, ClassifyOne(k, c, d).call, ds + [d])
  {
    ListedNext(ds, d);
    assert d in k.cache <==> d in s.cache || d in k.call.needed;
  }

  lemma ClassifyOneLoading(s: State, k: Classified, c: CallId, ds: seq<Domain>, d: Domain)
    requires NewEntries(s, k) && LoadingAwaited(s, k.call, ds)
    ensures LoadingAwaited(s, ClassifyOne(k, c, d).call, ds + [d])
  {
    ListedNext(ds, d);
  }

  lemma ClassifyOneAnswers(s: State, k: Classified, c: CallId, ds: seq<Domain>, d: Domain)
    requires NewEntries(s, k) && SortedNeeded(s, k, ds) && AnsweredAtHand(s, k.call, ds)
    ensures AnsweredAtHand(s, ClassifyOne(k, c, d).call, ds + [d])
  {
    hide ClassifyOne, AtHandExactly, LoadingAwaited;
    ClassifyOneAtHand(s, k, c, ds, d);
    ClassifyOneLoading(s, k, c, ds, d);
  }

  lemma {:induction false} ClassifyAnswers(s: State, k: Classified, c: CallId, seen: seq<Domain>, rest: seq<Domain>)
    requires ClassifiedInv(s, k, c, seen) && AnsweredAtHand(s, k.call, seen)
    ensures AnsweredAtHand(s, Classify(k, c, rest).call, seen + rest)
    decreases |rest|
  {
    hide AnsweredAtHand, ClassifyOne, NewFutures, WaitsExplained, SortedKeys, SortedFound;
    if rest == [] {
      assert seen + rest == seen;
    } else {
      ClassifyOneAnswers(s, k, c, seen, rest[0]);
      ClassifyOneInv(s, k, c, seen, rest[0]);
      ShiftOne(seen, rest);
      ClassifyAnswers(s, ClassifyOne(k, c, rest[0]), c, seen + [rest[0]], rest[1..]);
    }
  }

  /** What a call knows when it has looked at its domains: exactly the cached ones and the
      invalid ones are answered, with the cached integration or with the error; exactly those
      that can be requested are needed; it returns at once if all are answered. */
  lemma EnterAnswers(s: State, domains: seq<Domain>)
    ensures var call := Apply(s, Enter(domains)).calls[|s.calls|];
      && AnsweredAtHand(s, call, domains)
      && (forall d :: d in call.needed <==> d in domains && Requestable(s, d))
      && (call.stage.Returned? <==> forall d :: d in domains ==> AtHand(s, d))
      && (call.stage.Waiting? <==> call.inProgress.Keys != {})
  {
    hide Classify, AnsweredAtHand, ClassifiedInv;
    EnteredAnswers(s, domains);
    EnteredInv(s, domains);
    NeededAreRequestable(s, Entered(s, domains), domains);
    StageOfEntered(s, domains);
    var call := Entered(s, domains).call;
    SameAnswers(s, call, FirstStage(call), domains);
  }

  lemma SameAnswers(s: State, call: Call, stage: Stage, domains: seq<Domain>)
    ensures AnsweredAtHand(s, call, domains) ==> AnsweredAtHand(s, call.(stage := stage), domains)
  {
  }

  lemma EnteredAnswers(s: State, domains: seq<Domain>)
    ensures AnsweredAtHand(s, Entered(s, domains).call, domains)
  {
    hide Classify, AnsweredAtHand, ClassifiedInv;
    NothingClassified(s, |s.calls|, domains);
    NothingAnswered(s, Fresh(s, domains));
    ClassifyAnswers(s, Fresh(s, domains), |s.calls|, [], domains);
    assert [] + domains == domains;
  }

  lemma NeededAreRequestable(s: State, k: Classified, domains: seq<Domain>)
    requires ClassifiedInv(s, k, |s.calls|, domains)
    ensures forall d :: d in k.call.needed <==> d in domains && Requestable(s, d)
    ensures ToSet(domains) == k.call.results.Keys + k.call.needed.Keys + k.call.inProgress.Keys
    ensures forall d :: d in k.call.inProgress ==> d in k.call.needed || IsLoading(s, d)
  {
  }

  lemma StageOfEntered(s: State, domains: seq<Domain>)
    ensures var call := Entered(s, domains).call;
      call.needed.Keys + call.inProgress.Keys == {} <==> forall d :: d in domains ==> AtHand(s, d)
  {
    hide Classify, Entered;
    var k := Entered(s, domains);
    EnteredAnswers(s, domains);
    EnteredInv(s, domains);
    NeededAreRequestable(s, k, domains);
    hide ClassifiedInv, NewFutures, NewEntries, Sorted, WaitsExplained;
    forall d | d in domains ensures AtHand(s, d) <==> d !in k.call.needed && d !in k.call.inProgress {
      assert d in ToSet(domains);
    }
    forall d | d in k.call.needed.Keys + k.call.inProgress.Keys ensures d in domains { assert d in ToSet(domains); }
  }

  lemma NothingAnswered(s: State, k: Classified)
    requires k.call.results == map[]
    ensures AnsweredAtHand(s, k.call, [])
  {
  }

  // ------------------------------------------------------------- the other answers

  /** The answer says what is in the cache for the domain: an integration, a future, or
      nothing. */
  predicate ReadsAs(cache: map<Domain, Entry>, d: Domain, answer: Answer) {
    && (answer.Missing? <==> d !in cache)
    && (answer.Found? <==> d in cache && cache[d].Cached?)
    && (answer.Found? ==> d in cache && cache[d] == Cached(answer.integration))
    && (answer.Unfinished? ==> d in cache && cache[d] == Loading(answer.future))
  }

  /** A waiter that wakes up gets for every domain waited for what the cache then holds. */
  lemma WakeAnswers(s: State, c: CallId)
    requires Enabled(s, Wake(c))
    ensures var t, call := Apply(s, Wake(c)), s.calls[c];
      && t.cache == s.cache && t.calls[c].inProgress == map[] && t.calls[c].needed == call.needed
      && (forall d :: d in call.inProgress ==>
            d in t.calls[c].results && ReadsAs(s.cache, d, t.calls[c].results[d]))
      && (t.calls[c].stage == if call.needed.Keys == {} then Returned else Custom)
  {
  }

  /** A needed domain among the custom integrations is answered with that integration, cached
      and completed. */
  lemma CustomFound(s: State, c: CallId, custom: map<Domain, Integration>, d: Domain)
    requires Inv(s) && Enabled(s, CustomLoaded(c, custom)) && d in s.calls[c].needed && d in custom
    ensures var t := Apply(s, CustomLoaded(c, custom));
      && d !in t.calls[c].needed && d in t.calls[c].results && t.calls[c].results[d] == Found(custom[d])
      && d in t.cache && t.cache[d] == Cached(custom[d]) && IsDone(t, s.calls[c].needed[d])
  {
    assert CallInv(s.cache, s.futures, c, s.calls[c]);
  }

  /** Any other stays needed and pending, and sends the call on to the root. */
  lemma CustomMissed(s: State, c: CallId, custom: map<Domain, Integration>, d: Domain)
    requires Inv(s) && Enabled(s, CustomLoaded(c, custom)) && d in s.calls[c].needed && d !in custom
    ensures var t, f := Apply(s, CustomLoaded(c, custom)), s.calls[c].needed[d];
      && t.calls[c].stage.Root? && d in t.calls[c].needed && t.calls[c].needed[d] == f && !IsDone(t, f)
      && d in t.cache && t.cache[d] == Loading(f)
  {
    assert CallInv(s.cache, s.futures, c, s.calls[c]);
  }

  /** A needed domain whose manifest was read is answered with it, cached and completed; any
      other is answered as missing, dropped from the cache and completed. */
  lemma RootAnswers(s: State, c: CallId, found: map<Domain, Integration>, d: Domain)
    requires Inv(s) && Enabled(s, RootLoaded(c, found)) && d in s.calls[c].needed
    ensures var t := Apply(s, RootLoaded(c, found));
      && t.calls[c].stage.Returned? && d in t.calls[c].results && IsDone(t, s.calls[c].needed[d])
      && t.calls[c].results[d] == (if d in found then Found(found[d]) else Missing)
      && (d in found ==> d in t.cache && t.cache[d] == Cached(found[d]))
      && (d !in found ==> d !in t.cache)
  {
    assert CallInv(s.cache, s.futures, c, s.calls[c]);
  }

  // ----------------------------------------------------------- answers over runs

  /** The call has its answer for the domain. */
  predicate Answered(s: State, c: CallId, d: Domain) {
    c < |s.calls| && d in s.calls[c].results && d !in s.calls[c].needed && d !in s.calls[c].inProgress
  }

  lemma AnswerIsKept(s: State, step: Step, c: CallId, d: Domain)
    requires Inv(s) && Enabled(s, step) && Answered(s, c, d)
    ensures Answered(Apply(s, step), c, d)
    ensures Apply(s, step).calls[c].results[d] == s.calls[c].results[d]
  {
    if step.Enter? || step.call != c { OtherStepKeepsCall(s, step, c); } else { hide Inv, Complete, SettledCache; }
  }

  lemma {:induction false} AnswerIsFinal(s: State, steps: seq<Step>, t: State, c: CallId, d: Domain)
    requires Inv(s) && Run(s, steps, t) && Answered(s, c, d)
    ensures Answered(t, c, d) && t.calls[c].results[d] == s.calls[c].results[d]
    decreases |steps|
  {
    hide Inv, Enabled, Apply;
    if steps != [] {
      AnswerIsKept(s, steps[0], c, d);
      StepInv(s, steps[0]);
      AnswerIsFinal(Apply(s, steps[0]), steps[1..], t, c, d);
    }
  }

  /** A domain that is cached when a call asks for it is answered with the cached integration,
      at once and for good; an invalid one with the error. */
  lemma AtHandIsAnswered(s: State, domains: seq<Domain>, steps: seq<Step>, t: State, d: Domain)
    requires Inv(s) && Run(Apply(s, Enter(domains)), steps, t) && d in domains && AtHand(s, d)
    ensures var c := |s.calls|;
      && Answered(t, c, d)
      && (IsCached(s, d) ==>
            && t.calls[c].results[d] == Found(s.cache[d].integration)
            && d in t.cache && t.cache[d] == s.cache[d])
      && (d !in s.cache ==> t.calls[c].results[d] == Invalid)
  {
    hide Inv, Run, Classify, Requestable;
    EnterAnswers(s, domains);
    var next := Apply(s, Enter(domains));
    assert !Requestable(s, d) by { CachedNotRequestable(s, d); }
    NotWaitedFor(s, domains, d);
    StepInv(s, Enter(domains));
    AnswerIsFinal(next, steps, t, |s.calls|, d);
    if IsCached(s, d) {
      StepKeepsIntegration(s, Enter(domains), d);
      CachedIntegrationNeverChanges(next, steps, t, d);
    }
  }

  lemma CachedNotRequestable(s: State, d: Domain)
    requires AtHand(s, d)
    ensures !Requestable(s, d)
  {
  }

  lemma NotWaitedFor(s: State, domains: seq<Domain>, d: Domain)
    requires AtHand(s, d)
    ensures d !in Entered(s, domains).call.inProgress
  {
    EnteredInv(s, domains);
  }

  lemma OtherStepKeepsCall(s: State, step: Step, c: CallId)
    requires Enabled(s, step) && c < |s.calls| && (step.Enter? || step.call != c)
    ensures c < |Apply(s, step).calls| && Apply(s, step).calls[c] == s.calls[c]
  {
  }

  lemma {:induction false} NeededInRoot(s: State, steps: seq<Step>, t: State, c: CallId, d: Domain)
    requires Inv(s) && Run(s, steps, t) && c < |s.calls| && d in s.calls[c].needed && s.calls[c].stage.Root?
    requires c < |t.calls| && t.calls[c].stage.Returned?
    ensures exists found ::
      && RootLoaded(c, found) in steps
      && Answered(t, c, d) && t.calls[c].results[d] == (if d in found then Found(found[d]) else Missing)
    decreases |steps|
  {
    hide Inv;
    var step, rest := steps[0], steps[1..];
    var next := Apply(s, step);
    StepInv(s, step);
    if step.RootLoaded? && step.call == c {
      RootAnswers(s, c, step.found, d);
      ReturnedNeedsNothing(next, c, d);
      AnswerIsFinal(next, rest, t, c, d);
      assert RootLoaded(c, step.found) in steps;
    } else {
      OtherStepKeepsCall(s, step, c);
      hide Apply;
      NeededInRoot(next, rest, t, c, d);
      var found :| RootLoaded(c, found) in rest
        && Answered(t, c, d) && t.calls[c].results[d] == (if d in found then Found(found[d]) else Missing);
      assert RootLoaded(c, found) in steps;
    }
  }

  lemma ReturnedNeedsNothing(s: State, c: CallId, d: Domain)
    requires Inv(s) && c < |s.calls| && !s.calls[c].stage.Waiting?
    ensures d !in s.calls[c].inProgress && (s.calls[c].stage.Returned? ==> d !in s.calls[c].needed)
  {
    assert CallInv(s.cache, s.futures, c, s.calls[c]);
  }

  lemma {:induction false} NeededInCustom(s: State, steps: seq<Step>, t: State, c: CallId, d: Domain)
    requires Inv(s) && Run(s, steps, t) && c < |s.calls| && d in s.calls[c].needed
    requires s.calls[c].stage.Waiting? || s.calls[c].stage.Custom?
    requires c < |t.calls| && t.calls[c].stage.Returned?
    ensures exists custom :: CustomLoaded(c, custom) in steps && AnswerOf(t, steps, c, d, custom)
    decreases |steps|
  {
    hide Inv, AnswerOf;
    var step, rest := steps[0], steps[1..];
    var next := Apply(s, step);
    StepInv(s, step);
    if step.CustomLoaded? && step.call == c {
      assert step in steps;
      CustomSettles(s, steps, t, c, d);
    } else {
      if step.Wake? && step.call == c { WakeAnswers(s, c); } else { OtherStepKeepsCall(s, step, c); }
      hide Apply;
      NeededInCustom(next, rest, t, c, d);
      var custom :| CustomLoaded(c, custom) in rest && AnswerOf(t, rest, c, d, custom);
      assert CustomLoaded(c, custom) in steps;
      MoreSteps(t, steps, c, d, custom);
    }
  }

  /** The answer for a domain that the call made a future for: the custom integration if there
      is one, else what was read from the root, else that it is missing. */
  ghost predicate AnswerOf(t: State, steps: seq<Step>, c: CallId, d: Domain, custom: map<Domain, Integration>) {
    && Answered(t, c, d)
    && if d in custom then t.calls[c].results[d] == Found(custom[d])
       else exists found ::
         && RootLoaded(c, found) in steps
         && t.calls[c].results[d] == (if d in found then Found(found[d]) else Missing)
  }

  lemma MoreSteps(t: State, steps: seq<Step>, c: CallId, d: Domain, custom: map<Domain, Integration>)
    requires steps != [] && AnswerOf(t, steps[1..], c, d, custom)
    ensures AnswerOf(t, steps, c, d, custom)
  {
    if d !in custom {
      var found :| RootLoaded(c, found) in steps[1..]
        && t.calls[c].results[d] == (if d in found then Found(found[d]) else Missing);
      assert RootLoaded(c, found) in steps;
    }
  }

  lemma CustomStage(s: State, c: CallId, custom: map<Domain, Integration>)
    requires Enabled(s, CustomLoaded(c, custom))
    ensures !Apply(s, CustomLoaded(c, custom)).calls[c].stage.Waiting?
  {
  }

  lemma CustomSettles(s: State, steps: seq<Step>, t: State, c: CallId, d: Domain)
    requires Inv(s) && Run(s, steps, t) && c < |s.calls| && d in s.calls[c].needed
    requires c < |t.calls| && t.calls[c].stage.Returned?
    requires steps != [] && steps[0].CustomLoaded? && steps[0].call == c
    ensures AnswerOf(t, steps, c, d, steps[0].custom)
  {
    hide Inv;
    var custom, rest := steps[0].custom, steps[1..];
    var next := Apply(s, steps[0]);
    StepInv(s, steps[0]);
    CustomStage(s, c, custom);
    if d in custom { CustomFound(s, c, custom, d); } else { CustomMissed(s, c, custom, d); }
    hide Apply;
    ReturnedNeedsNothing(next, c, d);
    if d in custom {
      AnswerIsFinal(next, rest, t, c, d);
    } else {
      NeededInRoot(next, rest, t, c, d);
      MoreSteps(t, steps, c, d, custom);
    }
  }

  /** A domain that a call has to load, when the call has returned: the answer is the custom
      integration if the custom integrations offered one, else the one that was read, and
      missing if and only if neither was there. */
  lemma NeededIsAnswered(s: State, domains: seq<Domain>, steps: seq<Step>, t: State, d: Domain)
    requires Inv(s) && Run(Apply(s, Enter(domains)), steps, t) && d in domains && Requestable(s, d)
    requires |s.calls| < |t.calls| && t.calls[|s.calls|].stage.Returned?
    ensures exists custom ::
      CustomLoaded(|s.calls|, custom) in steps && AnswerOf(t, steps, |s.calls|, d, custom)
  {
    hide Inv, Run, Classify, AnswerOf;
    EnterAnswers(s, domains);
    StepInv(s, Enter(domains));
    var next := Apply(s, Enter(domains));
    hide Apply;
    EnteredStage(next, |s.calls|, d);
    NeededInCustom(next, steps, t, |s.calls|, d);
  }

  lemma EnteredStage(s: State, c: CallId, d: Domain)
    requires Inv(s) && c < |s.calls| && d in s.calls[c].needed
    ensures !s.calls[c].stage.Returned?
  {
    assert CallInv(s.cache, s.futures, c, s.calls[c]);
  }

  /** The `n`-th step of the run is that of call `c` waking up, in state `u`. */
  ghost predicate WokenAt(s: State, steps: seq<Step>, n: nat, u: State, c: CallId) {
    n < |steps| && steps[n] == Wake(c) && Run(s, steps[..n], u)
  }

  /** The answer is what was in the cache when the call woke up. */
  ghost predicate AnsweredWaking(s: State, steps: seq<Step>, t: State, c: CallId, d: Domain) {
    && Answered(t, c, d)
    && exists n: nat, u :: WokenAt(s, steps, n, u, c) && ReadsAs(u.cache, d, t.calls[c].results[d])
  }

  /** A domain that somebody else is loading, when the call has returned. */
  lemma {:induction false} WaitedIsAnswered(s: State, steps: seq<Step>, t: State, c: CallId, d: Domain)
    requires Inv(s) && Run(s, steps, t) && c < |s.calls| && s.calls[c].stage.Waiting?
    requires d in s.calls[c].inProgress && d !in s.calls[c].needed
    requires c < |t.calls| && t.calls[c].stage.Returned?
    ensures AnsweredWaking(s, steps, t, c, d)
    decreases |steps|
  {
    hide Inv, ReadsAs, AnsweredWaking;
    var step, rest := steps[0], steps[1..];
    var next := Apply(s, step);
    StepInv(s, step);
    if step.Wake? && step.call == c {
      WokenNow(s, steps, t, c, d);
    } else {
      OtherStepKeepsCall(s, step, c);
      hide Apply;
      WaitedIsAnswered(next, rest, t, c, d);
      WokenLater(s, steps, t, c, d);
    }
  }

  lemma WokenNow(s: State, steps: seq<Step>, t: State, c: CallId, d: Domain)
    requires Inv(s) && Run(s, steps, t) && steps != [] && steps[0] == Wake(c)
    requires c < |s.calls| && d in s.calls[c].inProgress && d !in s.calls[c].needed
    ensures AnsweredWaking(s, steps, t, c, d)
  {
    hide Inv, ReadsAs;
    WakeAnswers(s, c);
    StepInv(s, steps[0]);
    AnswerIsFinal(Apply(s, steps[0]), steps[1..], t, c, d);
    assert steps[..0] == [];
    assert WokenAt(s, steps, 0, s, c);
  }

  lemma WokenLater(s: State, steps: seq<Step>, t: State, c: CallId, d: Domain)
    requires steps != [] && Enabled(s, steps[0]) && AnsweredWaking(Apply(s, steps[0]), steps[1..], t, c, d)
    ensures AnsweredWaking(s, steps, t, c, d)
  {
    hide Apply, Enabled, ReadsAs;
    var next, rest := Apply(s, steps[0]), steps[1..];
    var n: nat, u :| WokenAt(next, rest, n, u, c) && ReadsAs(u.cache, d, t.calls[c].results[d]);
    assert steps[..n + 1][0] == steps[0] && steps[..n + 1][1..] == rest[..n];
    assert WokenAt(s, steps, n + 1, u, c);
  }
}
