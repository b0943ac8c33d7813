/** What the calls of the requirements manager return when many tasks run at once. */
module RequirementsResults {
  import opened Graphs
  import opened Loader
  import opened Options
  import opened Requirements
  import opened RequirementsTasks

  /** Everything the domain transitively requires has a manifest, and its requirements are
      skipped or can be installed. */
  ghost predicate Servable(e: Setting, d: Domain) {
    forall x :: Reaches(NeedGraph(e.repo, {}), d, x) ==> Usable(e, x)
  }

  lemma ServableNeeds(e: Setting, d: Domain)
    requires Servable(e, d)
    ensures Usable(e, d)
    ensures forall x :: x in Needs(e.repo, d) ==> Servable(e, x) || Excused(e.repo, d, x)
  {
    var g := NeedGraph(e.repo, {});
    ReachesRefl(g, d);
    forall x | x in Required(e.repo, d) ensures Servable(e, x) {
      assert x in Succ(g, d);
      EdgeReaches(g, d, x);
      forall y | Reaches(g, x, y) ensures Usable(e, y) { ReachesTrans(g, d, x, y); }
    }
  }

  predicate IsCached(s: State, d: Domain) {
    d in s.cache && s.cache[d].Cached?
  }

  // ---------------------------------------------------------------- the invariant

  /** A call for a servable domain has met no exception. */
  ghost predicate CleanFrame(e: Setting, f: Frame) {
    Servable(e, f.domain) ==> !f.failed && f.notFound.None?
  }

  /** What a call has returned: a servable domain is served; a missing one is reported, and
      one without a plain name is refused. */
  ghost predicate RightResult(e: Setting, s: State, d: Domain, r: Result) {
    && (Servable(e, d) ==> r == Done && IsCached(s, d))
    && (d !in e.repo ==> r == if '.' in d.name then Failed else Missing(d))
  }

  ghost predicate TaskRight(e: Setting, s: State, task: Task) {
    && (forall i :: 0 <= i < |task.frames| ==> CleanFrame(e, task.frames[i]))
    && (task.phase.Returning? ==> RightResult(e, s, task.phase.domain, task.phase.result))
    && (task.phase.Waiting? ==> task.phase.domain in e.repo)
  }

  /** The cache holds only integrations whose own requirements are installed, and holds a
      servable one from when its future is done. */
  ghost predicate CacheRight(e: Setting, s: State) {
    && (forall d :: IsCached(s, d) ==> Usable(e, d))
    && (forall f :: 0 <= f < |s.futures| && s.futures[f].done && Servable(e, s.futures[f].domain) ==>
          IsCached(s, s.futures[f].domain))
  }

  ghost predicate ResultInv(e: Setting, s: State) {
    CacheRight(e, s) && forall t :: 0 <= t < |s.tasks| ==> TaskRight(e, s, s.tasks[t])
  }

  /** Cached integrations stay, except for those that are not servable. */
  ghost predicate KeepsServed(e: Setting, s: State, r: State) {
    forall d :: Servable(e, d) && IsCached(s, d) ==> IsCached(r, d)
  }

  lemma OthersRight(e: Setting, s: State, r: State, t: TaskId)
    requires ResultInv(e, s) && KeepsServed(e, s, r) && |s.tasks| == |r.tasks|
    requires forall u :: 0 <= u < |s.tasks| && u != t ==> r.tasks[u] == s.tasks[u]
    ensures forall u :: 0 <= u < |r.tasks| && u != t ==> TaskRight(e, r, r.tasks[u])
  {
    hide Servable, Usable;
    forall u | 0 <= u < |r.tasks| && u != t ensures TaskRight(e, r, r.tasks[u]) { assert TaskRight(e, s, s.tasks[u]); }
  }

  /** A task changes nothing but itself. */
  lemma SetTaskRight(e: Setting, s: State, t: TaskId, task: Task)
    requires ResultInv(e, s) && t < |s.tasks| && TaskRight(e, s, task)
    ensures ResultInv(e, SetTask(s, t, task))
  {
    hide Servable, Usable;
    var r := SetTask(s, t, task);
    assert TaskRight(e, r, task);
    OthersRight(e, s, r, t);
  }

  lemma CheckRight(e: Setting, s: State, t: TaskId, x: Domain)
    requires ResultInv(e, s) && Enabled(s, Check(t, x))
    ensures ResultInv(e, Apply(e, s, Check(t, x)))
  {
    hide Servable, Usable;
    assert TaskRight(e, s, s.tasks[t]);
    var task := s.tasks[t];
    var r := WithTop(task, Top(task).(toCheck := Top(task).toCheck - {x})).(phase := Calling(x));
    assert forall i :: 0 <= i < |r.frames| ==> CleanFrame(e, task.frames[i]);
    SetTaskRight(e, s, t, r);
  }

  lemma CallRight(e: Setting, s: State, t: TaskId)
    requires Inv(e, s) && ResultInv(e, s) && Enabled(s, Go(t)) && s.tasks[t].phase.Calling?
    ensures ResultInv(e, Apply(e, s, Go(t)))
  {
    hide Inv;
    assert TaskRight(e, s, s.tasks[t]);
    var d, r := s.tasks[t].phase.domain, Apply(e, s, Go(t));
    MissingIsNotServable(e, d);
    hide Servable, Usable;
    if d in e.repo && d !in s.cache {
      assert TaskRight(e, r, r.tasks[t]);
      OthersRight(e, s, r, t);
    } else {
      assert TaskRight(e, s, r.tasks[t]);
      SetTaskRight(e, s, t, r.tasks[t]);
    }
  }

  lemma MissingIsNotServable(e: Setting, d: Domain)
    ensures Servable(e, d) ==> Usable(e, d)
  {
    if Servable(e, d) { ServableNeeds(e, d); }
  }

  lemma WokenRight(e: Setting, s: State, t: TaskId)
    requires Inv(e, s) && ResultInv(e, s) && Enabled(s, Go(t)) && s.tasks[t].phase.Waiting?
    ensures ResultInv(e, Apply(e, s, Go(t)))
  {
    assert TaskRight(e, s, s.tasks[t]) && TaskOk(e, s, t);
    hide Inv, Servable, Usable, FrameOk, MayCall;
    var r := Apply(e, s, Go(t));
    assert TaskRight(e, s, r.tasks[t]);
    SetTaskRight(e, s, t, r.tasks[t]);
  }

  lemma InstalledRight(e: Setting, s: State, t: TaskId)
    requires ResultInv(e, s) && Enabled(s, Go(t)) && s.tasks[t].phase.Installing?
    requires Usable(e, Top(s.tasks[t]).domain)
    ensures ResultInv(e, Apply(e, s, Go(t)))
  {
    hide Servable;
    assert TaskRight(e, s, s.tasks[t]);
    var task, r := s.tasks[t], Apply(e, s, Go(t));
    assert forall i :: 0 <= i < |task.frames| ==> CleanFrame(e, task.frames[i]);
    hide Usable;
    assert TaskRight(e, s, r.tasks[t]);
    SetTaskRight(e, s, t, r.tasks[t]);
  }

  /** A call that returned to one for a servable domain brings no exception that counts. */
  lemma DeliverRight(e: Setting, s: State, t: TaskId)
    requires Inv(e, s) && ResultInv(e, s) && Enabled(s, Go(t)) && s.tasks[t].phase.Returning?
    ensures ResultInv(e, Apply(e, s, Go(t)))
  {
    assert TaskRight(e, s, s.tasks[t]) && TaskOk(e, s, t);
    var task, r := s.tasks[t], Apply(e, s, Go(t));
    var top, x := Top(task), task.phase.domain;
    if Servable(e, top.domain) { ServableNeeds(e, top.domain); }
    hide Inv, Servable, Usable, FrameOk, Needs;
    assert CleanFrame(e, top);
    assert CleanFrame(e, Deliver(e, top, task.phase.result));
    assert forall i :: 0 <= i < |task.frames| ==> CleanFrame(e, task.frames[i]);
    assert TaskRight(e, s, r.tasks[t]);
    SetTaskRight(e, s, t, r.tasks[t]);
  }

  /** The innermost call ends: not with an exception if its domain is servable, and with
      success only if its own requirements are installed. */
  lemma PopRight(e: Setting, s: State, t: TaskId, result: Result)
    requires Inv(e, s) && ResultInv(e, s) && t < |s.tasks| && s.tasks[t].frames != []
    requires Top(s.tasks[t]).future < |s.futures|
    requires Servable(e, Top(s.tasks[t]).domain) ==> result == Done
    requires result == Done ==> Usable(e, Top(s.tasks[t]).domain)
    ensures ResultInv(e, Pop(s, t, result))
  {
    TopOk(e, s, t);
    assert TaskRight(e, s, s.tasks[t]);
    var task, r := s.tasks[t], Pop(s, t, result);
    hide Inv, Servable, Usable, PhaseOk;
    assert Top(task).domain in e.repo by { TopFacts(e, task); }
    hide FrameOk;
    assert KeepsServed(e, s, r);
    assert forall i :: 0 <= i < |task.frames| ==> CleanFrame(e, task.frames[i]);
    assert TaskRight(e, r, r.tasks[t]);
    OthersRight(e, s, r, t);
  }

  lemma StepRight(e: Setting, s: State, step: Step)
    requires Inv(e, s) && ResultInv(e, s) && Enabled(s, step)
    ensures ResultInv(e, Apply(e, s, step))
  {
    hide Inv, Servable;
    match step
    case Start(d) =>
      var r := Apply(e, s, step);
      forall u | 0 <= u < |r.tasks| ensures TaskRight(e, r, r.tasks[u]) {
        if u < |s.tasks| { assert TaskRight(e, s, s.tasks[u]); }
      }
    case Check(t, x) => CheckRight(e, s, t, x);
    case Go(t) =>
      match s.tasks[t].phase
      case Calling(_) => CallRight(e, s, t);
      case Waiting(_, _) => WokenRight(e, s, t);
      case Installing =>
        MissingIsNotServable(e, Top(s.tasks[t]).domain);
        if Usable(e, Top(s.tasks[t]).domain) { InstalledRight(e, s, t); } else { PopRight(e, s, t, Failed); }
      case Checking =>
        TopOk(e, s, t);
        assert TaskRight(e, s, s.tasks[t]) && CleanFrame(e, Top(s.tasks[t]));
        PopRight(e, s, t, ResultOf(Top(s.tasks[t])));
      case Returning(_, _) => DeliverRight(e, s, t);
  }

  lemma {:induction false} RunRight(e: Setting, s: State, steps: seq<Step>, t: State)
    requires Inv(e, s) && ResultInv(e, s) && Run(e, s, steps, t)
    ensures ResultInv(e, t)
    decreases |steps|
  {
    hide Inv, ResultInv, Enabled, Apply;
    if steps != [] {
      StepInv(e, s, steps[0]);
      StepRight(e, s, steps[0]);
      RunRight(e, Apply(e, s, steps[0]), steps[1..], t);
    }
  }

  lemma ReachableRight(e: Setting, s: State)
    requires Reachable(e, s)
    ensures ResultInv(e, s)
  {
    hide Run, Inv;
    var steps :| Run(e, INIT, steps, s);
    InitInv(e);
    RunRight(e, INIT, steps, s);
  }

  // ----------------------------------------------------------------- the results

  /** In every interleaving a call for a servable domain succeeds, and its integration is then
      cached; one for a domain without a manifest does not. Only integrations whose own
      requirements are installed are ever cached. */
  lemma ServableIsServed(e: Setting, s: State, t: TaskId)
    requires Reachable(e, s) && t < |s.tasks| && s.tasks[t].phase.Returning?
    ensures var d, r := s.tasks[t].phase.domain, s.tasks[t].phase.result;
      && (Servable(e, d) ==> r == Done && IsCached(s, d))
      && (d !in e.repo ==> r == if '.' in d.name then Failed else Missing(d))
    ensures forall d :: IsCached(s, d) ==> d in e.repo && ToSet(e.repo[d].requirements) <= e.available
  {
    ReachableRight(e, s);
    assert TaskRight(e, s, s.tasks[t]);
  }

  /** The after-dependency of a custom integration, of which it does not matter whether it was
      found. */
  predicate MayBeMissing(e: Setting, d: Domain, x: Domain) {
    d in e.repo && !e.repo[d].builtIn && x in After(e.repo, d)
  }

  /** A call collects what the calls nested in it raise, but for missing domains that may be
      missing, and goes on to the others. */
  lemma ExceptionsAreCollected(e: Setting, s: State, t: TaskId)
    requires Inv(e, s) && Enabled(s, Go(t)) && s.tasks[t].frames != [] && s.tasks[t].phase.Returning?
    ensures var before, after, r := s.tasks[t], Apply(e, s, Go(t)).tasks[t], s.tasks[t].phase.result;
      && after.phase.Checking? && after.frames != []
      && (Top(after).failed <==> Top(before).failed || r.Failed?)
      && (Top(before).notFound.Some? ==> Top(after).notFound == Top(before).notFound)
      && (Top(before).notFound.None? ==>
            Top(after).notFound ==
              if r.Missing? && !MayBeMissing(e, Top(before).domain, r.domain) then Some(r.domain) else None)
  {
    TopOk(e, s, t);
    TopFacts(e, s.tasks[t]);
  }

  /** An integration whose own requirements cannot be installed ends its call with an error and
      is taken out of the cache; any other checks what it needs, but for what the task has
      visited and what is cached. */
  lemma InstalledGoesOn(e: Setting, s: State, t: TaskId)
    requires Inv(e, s) && Enabled(s, Go(t)) && s.tasks[t].phase.Installing?
    ensures var d, r := Top(s.tasks[t]).domain, Apply(e, s, Go(t));
      && d in e.repo
      && (if ToSet(e.repo[d].requirements) <= e.available then
            && r.tasks[t].phase.Checking? && r.tasks[t].frames != []
            && (forall x :: x in Top(r.tasks[t]).toCheck <==>
                  x in Needs(e.repo, d) && x !in s.tasks[t].done && !IsCached(s, x))
          else r.tasks[t].phase == Returning(d, Failed) && d !in r.cache)
  {
    TopOk(e, s, t);
    TopFacts(e, s.tasks[t]);
  }

  /** A call that has waited finds the domain in the cache, or reports it as missing. */
  lemma WokenResult(e: Setting, s: State, t: TaskId)
    requires Enabled(s, Go(t)) && s.tasks[t].phase.Waiting?
    ensures var d, r := s.tasks[t].phase.domain, Apply(e, s, Go(t)).tasks[t];
      && r.phase.Returning? && r.phase.domain == d
      && (r.phase.result == Done <==> d in s.cache) && (d !in s.cache ==> r.phase.result == Missing(d))
  {
  }

  /** When all is checked, the call ends with an error if any was raised, else with the first
      missing domain if there is one, and else well; its future is done, and its integration
      cached if it ends well and taken out if not. */
  lemma CallEnds(e: Setting, s: State, t: TaskId)
    requires Inv(e, s) && Enabled(s, Go(t)) && s.tasks[t].frames != [] && s.tasks[t].phase.Checking?
    ensures var top, r, after := Top(s.tasks[t]), Apply(e, s, Go(t)), Apply(e, s, Go(t)).tasks[t];
      && after.phase.Returning? && after.phase.domain == top.domain
      && (after.phase.result == Failed <==> top.failed)
      && (after.phase.result == Done <==> !top.failed && top.notFound.None?)
      && (after.phase.result.Missing? ==> top.notFound == Some(after.phase.result.domain))
      && top.future < |r.futures| && r.futures[top.future].done
      && (IsCached(r, top.domain) <==> after.phase.result == Done)
      && (top.domain in r.cache <==> after.phase.result == Done)
  {
    TopOk(e, s, t);
  }
}
