/** The requirements manager of homeassistant/requirements.py, called by many tasks at once:
    when calls can wait for each other forever. */
module RequirementsTasks {
  import opened Graphs
  import opened Loader
  import opened Options
  import opened Requirements

  type TaskId = nat
  type FutureId = nat

  datatype CacheEntry = Pending(future: FutureId) | Cached

  /** The future of a domain, made by a task. */
  datatype Future = Future(domain: Domain, task: TaskId, done: bool)

  /** A call in the middle of processing its integration, with the domains that it still has to
      check and the exceptions so far. */
  datatype Frame = Frame(
    domain: Domain, future: FutureId, toCheck: set<Domain>, failed: bool, notFound: Option<Domain>)

  /** What a task is about to do: look up a domain in the cache, go on when a future is done,
      go on when the requirements of its innermost call are installed, go on with the domains
      to check there, or hand a result to the call below. */
  datatype Phase =
    | Calling(domain: Domain)
    | Waiting(domain: Domain, future: FutureId)
    | Installing
    | Checking
    | Returning(domain: Domain, result: Result)

  /** The calls of a task, the innermost one last, which share one `done`. */
  datatype Task = Task(done: set<Domain>, frames: seq<Frame>, phase: Phase)

  datatype State = State(cache: map<Domain, CacheEntry>, futures: seq<Future>, tasks: seq<Task>)

  const INIT: State := State(map[], [], [])

  datatype Step =
    | Start(domain: Domain)
    | Go(task: TaskId)
    | Check(task: TaskId, dependency: Domain)

  /** The integrations, and the requirements that are skipped or that pip manages to install. */
  datatype Setting = Setting(repo: Repository, available: set<Requirement>)

  predicate Usable(e: Setting, d: Domain) {
    d in e.repo && ToSet(e.repo[d].requirements) <= e.available
  }

  // -------------------------------------------------------------------- the steps

  function Top(task: Task): Frame
    requires task.frames != []
  {
    task.frames[|task.frames| - 1]
  }

  function Below(task: Task): seq<Frame>
    requires task.frames != []
  {
    task.frames[..|task.frames| - 1]
  }

  function WithTop(task: Task, f: Frame): Task
    requires task.frames != []
  {
    task.(frames := Below(task) + [f])
  }

  predicate Enabled(s: State, step: Step) {
    match step
    case Start(_) => true
    case Go(t) =>
      && t < |s.tasks|
      && var task := s.tasks[t];
         (match task.phase
          case Calling(_) => true
          case Waiting(_, f) => f < |s.futures| && s.futures[f].done
          case Installing => task.frames != [] && Top(task).future < |s.futures|
          case Checking => task.frames != [] && Top(task).future < |s.futures| && Top(task).toCheck == {}
          case Returning(_, _) => task.frames != [])
    case Check(t, x) =>
      && t < |s.tasks| && s.tasks[t].phase.Checking? && s.tasks[t].frames != []
      && x in Top(s.tasks[t]).toCheck
  }

  function SetTask(s: State, t: TaskId, task: Task): State
    requires t < |s.tasks|
  {
    s.(tasks := s.tasks[t := task])
  }

  /** The lookup in the cache, by a call that finds the domain's manifest or does not. */
  function Call(e: Setting, s: State, t: TaskId, d: Domain): State
    requires t < |s.tasks|
  {
    var task := s.tasks[t].(done := s.tasks[t].done + {d});
    if d !in e.repo then SetTask(s, t, task.(phase := Returning(d, if '.' in d.name then Failed else Missing(d))))
    else if d !in s.cache then Push(s, t, task, d)
    else
      match s.cache[d]
      case Cached => SetTask(s, t, task.(phase := Returning(d, Done)))
      case Pending(f) => SetTask(s, t, task.(phase := Waiting(d, f)))
  }

  /** A new future for the domain. */
  function Push(s: State, t: TaskId, task: Task, d: Domain): State
    requires t < |s.tasks|
  {
    var f := |s.futures|;
    State(s.cache[d := Pending(f)], s.futures + [Future(d, t, false)],
          s.tasks[t := task.(frames := task.frames + [Frame(d, f, {}, false, None)], phase := Installing)])
  }

  /** The innermost call returns or raises: its future is done, and the integration cached
      after a success only. */
  function Pop(s: State, t: TaskId, r: Result): State
    requires t < |s.tasks| && s.tasks[t].frames != [] && Top(s.tasks[t]).future < |s.futures|
  {
    var task := s.tasks[t];
    var d, f := Top(task).domain, Top(task).future;
    State(if r.Done? then s.cache[d := Cached] else s.cache - {d}, s.futures[f := s.futures[f].(done := true)],
          s.tasks[t := task.(frames := Below(task), phase := Returning(d, r))])
  }

  function CachedIn(cache: map<Domain, CacheEntry>): set<Domain> {
    set d | d in cache && cache[d].Cached?
  }

  /** What the innermost call still has to check. */
  function ToCheck(e: Setting, s: State, task: Task): set<Domain>
    requires task.frames != [] && Top(task).domain in e.repo
  {
    Needs(e.repo, Top(task).domain) - task.done - CachedIn(s.cache)
  }

  /** The result of a nested call, as the call below takes it. */
  function Deliver(e: Setting, f: Frame, r: Result): Frame {
    match r
    case Missing(x) =>
      if f.domain in e.repo && (e.repo[f.domain].builtIn || x !in After(e.repo, f.domain)) && f.notFound.None?
      then f.(notFound := Some(x)) else f
    case Failed => f.(failed := true)
    case _ => f
  }

  function ResultOf(f: Frame): Result {
    if f.failed then Failed else if f.notFound.Some? then Missing(f.notFound.value) else Done
  }

  function Apply(e: Setting, s: State, step: Step): State
    requires Enabled(s, step)
  {
    match step
    case Start(d) => s.(tasks := s.tasks + [Task({d}, [], Calling(d))])
    case Check(t, x) =>
      var top := Top(s.tasks[t]);
      SetTask(s, t, WithTop(s.tasks[t], top.(toCheck := top.toCheck - {x})).(phase := Calling(x)))
    case Go(t) =>
      var task := s.tasks[t];
      match task.phase
      case Calling(d) => Call(e, s, t, d)
      /** The source returns whatever the cache holds for the domain by now. */
      case Waiting(d, _) => SetTask(s, t, task.(phase := Returning(d, if d in s.cache then Done else Missing(d))))
      case Installing =>
        if !Usable(e, Top(task).domain) then Pop(s, t, Failed)
        else SetTask(s, t, WithTop(task, Top(task).(toCheck := ToCheck(e, s, task))).(phase := Checking))
      case Checking => Pop(s, t, ResultOf(Top(task)))
      case Returning(_, r) => SetTask(s, t, WithTop(task, Deliver(e, Top(task), r)).(phase := Checking))
  }

  ghost predicate Run(e: Setting, s: State, steps: seq<Step>, t: State)
    decreases |steps|
  {
    if steps == [] then s == t
    else Enabled(s, steps[0]) && Run(e, Apply(e, s, steps[0]), steps[1..], t)
  }

  ghost predicate Reachable(e: Setting, s: State) {
    exists steps :: Run(e, INIT, steps, s)
  }

  // ---------------------------------------------------------------- the invariant

  predicate Stacked(frames: seq<Frame>, d: Domain) {
    exists i :: 0 <= i < |frames| && frames[i].domain == d
  }

  /** What a call knows about itself and the calls below it. */
  predicate FrameOk(e: Setting, task: Task, i: nat)
    requires i < |task.frames|
  {
    var f := task.frames[i];
    && f.domain in e.repo && f.domain in task.done && f.toCheck <= Needs(e.repo, f.domain)
    && !Stacked(task.frames[..i], f.domain)
    && (forall j :: 0 <= j <= i ==> task.frames[j].domain !in f.toCheck)
    && (i < |task.frames| - 1 ==>
          Usable(e, f.domain) && task.frames[i + 1].domain in Needs(e.repo, f.domain))
  }

  /** The innermost call, if any, is past its own requirements and may call `d` next. */
  predicate MayCall(e: Setting, task: Task, d: Domain) {
    task.frames != [] ==>
      Usable(e, Top(task).domain) && d in Needs(e.repo, Top(task).domain) && !Stacked(task.frames, d)
  }

  predicate PhaseOk(e: Setting, s: State, task: Task) {
    match task.phase
    case Calling(d) => MayCall(e, task, d)
    case Waiting(d, f) => MayCall(e, task, d) && f < |s.futures| && s.futures[f].domain == d
    case Installing => task.frames != []
    case Checking => task.frames != [] && Usable(e, Top(task).domain)
    case Returning(d, _) => task.frames != [] ==> Usable(e, Top(task).domain) && d in Needs(e.repo, Top(task).domain)
  }

  /** A call holds the pending future of its domain. */
  predicate Holds(s: State, t: TaskId, i: nat)
    requires t < |s.tasks| && i < |s.tasks[t].frames|
  {
    var f := s.tasks[t].frames[i];
    && f.future < |s.futures| && s.futures[f.future] == Future(f.domain, t, false)
    && f.domain in s.cache && s.cache[f.domain] == Pending(f.future)
  }

  predicate TaskOk(e: Setting, s: State, t: TaskId)
    requires t < |s.tasks|
  {
    && PhaseOk(e, s, s.tasks[t])
    && forall i :: 0 <= i < |s.tasks[t].frames| ==> FrameOk(e, s.tasks[t], i) && Holds(s, t, i)
  }

  /** A pending future is in the cache, and held by a call of its task. */
  predicate FutureOk(s: State, f: FutureId)
    requires f < |s.futures|
  {
    !s.futures[f].done ==>
      && s.futures[f].task < |s.tasks| && Stacked(s.tasks[s.futures[f].task].frames, s.futures[f].domain)
      && s.futures[f].domain in s.cache && s.cache[s.futures[f].domain] == Pending(f)
  }

  ghost predicate Inv(e: Setting, s: State) {
    && (forall t :: 0 <= t < |s.tasks| ==> TaskOk(e, s, t))
    && (forall f :: 0 <= f < |s.futures| ==> FutureOk(s, f))
    && (forall d :: d in s.cache && s.cache[d].Pending? ==>
          s.cache[d].future < |s.futures| && s.futures[s.cache[d].future].domain == d
          && !s.futures[s.cache[d].future].done)
  }

  /** The same calls, which may know something else. */
  predicate SameCalls(task: Task, other: Task) {
    && |task.frames| == |other.frames|
    && forall i :: 0 <= i < |task.frames| ==>
         task.frames[i].domain == other.frames[i].domain && task.frames[i].future == other.frames[i].future
  }

  lemma SameStacked(task: Task, other: Task, n: nat, d: Domain)
    requires SameCalls(task, other) && n <= |task.frames|
    ensures Stacked(task.frames[..n], d) <==> Stacked(other.frames[..n], d)
  {
    if i :| 0 <= i < n && task.frames[..n][i].domain == d { assert other.frames[..n][i].domain == d; }
    if i :| 0 <= i < n && other.frames[..n][i].domain == d { assert task.frames[..n][i].domain == d; }
  }

  lemma SetTaskInv(e: Setting, s: State, t: TaskId, task: Task)
    requires Inv(e, s) && t < |s.tasks| && SameCalls(task, s.tasks[t]) && PhaseOk(e, s, task)
    requires forall i :: 0 <= i < |task.frames| ==> FrameOk(e, task, i)
    ensures Inv(e, SetTask(s, t, task))
  {
    hide FrameOk, PhaseOk;
    var r := SetTask(s, t, task);
    forall u | 0 <= u < |r.tasks| ensures TaskOk(e, r, u) {
      assert TaskOk(e, s, u);
      SamePhaseOk(e, s, r, r.tasks[u]);
      forall i | 0 <= i < |r.tasks[u].frames| ensures FrameOk(e, r.tasks[u], i) && Holds(r, u, i) {
        assert Holds(s, u, i);
      }
    }
    forall f | 0 <= f < |r.futures| ensures FutureOk(r, f) {
      assert FutureOk(s, f);
      if !s.futures[f].done && s.futures[f].task == t {
        SameStacked(s.tasks[t], task, |task.frames|, s.futures[f].domain);
        assert task.frames[..|task.frames|] == task.frames;
        assert s.tasks[t].frames[..|task.frames|] == s.tasks[t].frames;
      }
    }
  }

  lemma SamePhaseOk(e: Setting, s: State, r: State, task: Task)
    requires PhaseOk(e, s, task) && |s.futures| <= |r.futures|
    requires forall f :: 0 <= f < |s.futures| ==> r.futures[f].domain == s.futures[f].domain
    ensures PhaseOk(e, r, task)
  {
  }

  lemma WithTopOk(e: Setting, task: Task, f: Frame)
    requires task.frames != [] && forall i :: 0 <= i < |task.frames| ==> FrameOk(e, task, i)
    requires f.domain == Top(task).domain && f.future == Top(task).future
    requires f.domain in e.repo && f.toCheck <= Needs(e.repo, f.domain)
    requires forall j :: 0 <= j < |task.frames| ==> task.frames[j].domain !in f.toCheck
    ensures SameCalls(WithTop(task, f), task)
    ensures forall i :: 0 <= i < |task.frames| ==> FrameOk(e, WithTop(task, f), i)
  {
    hide Needs, Usable, Stacked;
    var r := WithTop(task, f);
    forall i | 0 <= i < |task.frames| ensures FrameOk(e, r, i) {
      assert FrameOk(e, task, i);
      assert r.frames[..i] == task.frames[..i];
    }
  }

  lemma VisitedOk(e: Setting, task: Task, done: set<Domain>)
    requires task.done <= done && forall i :: 0 <= i < |task.frames| ==> FrameOk(e, task, i)
    ensures forall i :: 0 <= i < |task.frames| ==> FrameOk(e, task.(done := done), i)
  {
    hide Needs, Usable, Stacked;
    forall i | 0 <= i < |task.frames| ensures FrameOk(e, task.(done := done), i) {
      assert FrameOk(e, task, i);
    }
  }

  lemma TopOk(e: Setting, s: State, t: TaskId)
    requires Inv(e, s) && t < |s.tasks| && s.tasks[t].frames != []
    ensures var task := s.tasks[t];
      && FrameOk(e, task, |task.frames| - 1) && Holds(s, t, |task.frames| - 1)
      && PhaseOk(e, s, task) && forall i :: 0 <= i < |task.frames| ==> FrameOk(e, task, i)
  {
    assert TaskOk(e, s, t);
  }

  lemma CheckInv(e: Setting, s: State, t: TaskId, x: Domain)
    requires Inv(e, s) && Enabled(s, Check(t, x))
    ensures Inv(e, Apply(e, s, Check(t, x)))
  {
    hide Inv, FrameOk, Usable;
    var task, top := s.tasks[t], Top(s.tasks[t]);
    TopOk(e, s, t);
    TopFacts(e, task);
    var f := top.(toCheck := top.toCheck - {x});
    WithTopOk(e, task, f);
    var r := WithTop(task, f).(phase := Calling(x));
    PhaseChanged(e, WithTop(task, f), Calling(x));
    NotStacked(task, r, x);
    SetTaskInv(e, s, t, r);
  }

  /** What is still to be checked is needed and not on the stack. */
  lemma TopFacts(e: Setting, task: Task)
    requires task.frames != [] && FrameOk(e, task, |task.frames| - 1)
    ensures var top := Top(task);
      && top.domain in e.repo && top.toCheck <= Needs(e.repo, top.domain) && top.domain in task.done
      && forall j :: 0 <= j < |task.frames| ==> task.frames[j].domain !in top.toCheck
  {
  }

  lemma PhaseChanged(e: Setting, task: Task, phase: Phase)
    requires forall i :: 0 <= i < |task.frames| ==> FrameOk(e, task, i)
    ensures forall i :: 0 <= i < |task.frames| ==> FrameOk(e, task.(phase := phase), i)
  {
    hide Needs, Usable, Stacked;
    forall i | 0 <= i < |task.frames| ensures FrameOk(e, task.(phase := phase), i) { assert FrameOk(e, task, i); }
  }

  lemma NotStacked(task: Task, other: Task, x: Domain)
    requires SameCalls(other, task) && forall j :: 0 <= j < |task.frames| ==> task.frames[j].domain != x
    ensures !Stacked(other.frames, x)
  {
  }

  /** Going on with the domains to check, with a new list or after a nested call. */
  lemma CheckingInv(e: Setting, s: State, t: TaskId, f: Frame)
    requires Inv(e, s) && t < |s.tasks| && s.tasks[t].frames != [] && Usable(e, f.domain)
    requires f.domain == Top(s.tasks[t]).domain && f.future == Top(s.tasks[t]).future
    requires f.toCheck <= Needs(e.repo, f.domain)
    requires forall j :: 0 <= j < |s.tasks[t].frames| ==> s.tasks[t].frames[j].domain !in f.toCheck
    ensures Inv(e, SetTask(s, t, WithTop(s.tasks[t], f).(phase := Checking)))
  {
    hide Inv, FrameOk;
    var task := s.tasks[t];
    TopOk(e, s, t);
    WithTopOk(e, task, f);
    PhaseChanged(e, WithTop(task, f), Checking);
    assert Top(WithTop(task, f)) == f;
    SetTaskInv(e, s, t, WithTop(task, f).(phase := Checking));
  }

  lemma StackVisited(e: Setting, task: Task)
    requires forall i :: 0 <= i < |task.frames| ==> FrameOk(e, task, i)
    ensures forall j :: 0 <= j < |task.frames| ==> task.frames[j].domain in task.done
  {
    forall j | 0 <= j < |task.frames| ensures task.frames[j].domain in task.done { assert FrameOk(e, task, j); }
  }

  lemma InstalledInv(e: Setting, s: State, t: TaskId)
    requires Inv(e, s) && Enabled(s, Go(t)) && s.tasks[t].phase.Installing? && Usable(e, Top(s.tasks[t]).domain)
    ensures Inv(e, Apply(e, s, Go(t)))
  {
    hide Inv, FrameOk, Needs;
    TopOk(e, s, t);
    StackVisited(e, s.tasks[t]);
    CheckingInv(e, s, t, Top(s.tasks[t]).(toCheck := ToCheck(e, s, s.tasks[t])));
  }

  lemma DeliverInv(e: Setting, s: State, t: TaskId)
    requires Inv(e, s) && Enabled(s, Go(t)) && s.tasks[t].phase.Returning?
    ensures Inv(e, Apply(e, s, Go(t)))
  {
    hide Inv, FrameOk, Needs;
    TopOk(e, s, t);
    TopFacts(e, s.tasks[t]);
    CheckingInv(e, s, t, Deliver(e, Top(s.tasks[t]), s.tasks[t].phase.result));
  }

  lemma WokenInv(e: Setting, s: State, t: TaskId)
    requires Inv(e, s) && Enabled(s, Go(t)) && s.tasks[t].phase.Waiting?
    ensures Inv(e, Apply(e, s, Go(t)))
  {
    hide FrameOk, Holds, FutureOk, Needs;
    assert TaskOk(e, s, t);
    var d := s.tasks[t].phase.domain;
    var r := s.tasks[t].(phase := Returning(d, if d in s.cache then Done else Missing(d)));
    PhaseChanged(e, s.tasks[t], r.phase);
    SetTaskInv(e, s, t, r);
  }

  lemma StartInv(e: Setting, s: State, d: Domain)
    requires Inv(e, s)
    ensures Inv(e, Apply(e, s, Start(d)))
  {
    hide FrameOk, Needs, MayCall;
    var r := Apply(e, s, Start(d));
    forall u | 0 <= u < |r.tasks| ensures TaskOk(e, r, u) {
      if u < |s.tasks| {
        assert TaskOk(e, s, u);
        forall i | 0 <= i < |r.tasks[u].frames| ensures Holds(r, u, i) { assert Holds(s, u, i); }
      } else {
        NoCalls(e, r.tasks[u], d);
      }
    }
    forall f | 0 <= f < |r.futures| ensures FutureOk(r, f) { assert FutureOk(s, f); }
  }

  lemma NoCalls(e: Setting, task: Task, d: Domain)
    requires task.frames == []
    ensures MayCall(e, task, d)
  {
  }

  lemma PushedOk(e: Setting, task: Task, d: Domain, f: FutureId)
    requires MayCall(e, task, d) && d in e.repo
    requires forall i :: 0 <= i < |task.frames| ==> FrameOk(e, task, i)
    ensures var r := Task(task.done + {d}, task.frames + [Frame(d, f, {}, false, None)], Installing);
      forall i :: 0 <= i < |r.frames| ==> FrameOk(e, r, i)
  {
    hide Needs, Usable, Stacked;
    var r := Task(task.done + {d}, task.frames + [Frame(d, f, {}, false, None)], Installing);
    forall i | 0 <= i < |r.frames| ensures FrameOk(e, r, i) {
      if i < |task.frames| {
        assert FrameOk(e, task, i);
        assert r.frames[..i] == task.frames[..i];
      } else {
        assert r.frames[..i] == task.frames;
        if i == 0 { NothingStacked(d); }
      }
    }
  }

  lemma NothingStacked(d: Domain)
    ensures !Stacked([], d)
  {
  }

  lemma StackedMore(frames: seq<Frame>, f: Frame, d: Domain)
    ensures Stacked(frames + [f], d) <==> Stacked(frames, d) || f.domain == d
  {
    if i :| 0 <= i < |frames| && frames[i].domain == d { assert (frames + [f])[i].domain == d; }
    if f.domain == d { assert (frames + [f])[|frames|].domain == d; }
    if i :| 0 <= i < |frames| + 1 && (frames + [f])[i].domain == d && i < |frames| { assert frames[i].domain == d; }
  }

  lemma PushInv(e: Setting, s: State, t: TaskId, d: Domain)
    requires Inv(e, s) && t < |s.tasks| && MayCall(e, s.tasks[t], d) && d in e.repo && d !in s.cache
    ensures Inv(e, Push(s, t, s.tasks[t].(done := s.tasks[t].done + {d}), d))
  {
    hide FrameOk, MayCall, Usable;
    var r := Push(s, t, s.tasks[t].(done := s.tasks[t].done + {d}), d);
    var n := |s.tasks[t].frames|;
    forall u | 0 <= u < |r.tasks| ensures TaskOk(e, r, u) {
      assert TaskOk(e, s, u);
      SamePhaseOk(e, s, r, s.tasks[u]);
      if u == t { PushedOk(e, s.tasks[t], d, |s.futures|); }
      forall i | 0 <= i < |r.tasks[u].frames| ensures Holds(r, u, i) {
        assert u != t || i < n ==> Holds(s, u, i);
      }
    }
    forall f | 0 <= f < |r.futures| ensures FutureOk(r, f) {
      assert f < |s.futures| ==> FutureOk(s, f);
      StackedMore(s.tasks[t].frames, r.tasks[t].frames[n], r.futures[f].domain);
    }
  }

  lemma PopInv(e: Setting, s: State, t: TaskId, r: Result)
    requires Inv(e, s) && t < |s.tasks| && s.tasks[t].frames != [] && Top(s.tasks[t]).future < |s.futures|
    ensures Inv(e, Pop(s, t, r))
  {
    hide FrameOk, Usable, MayCall, Stacked;
    var task, after := s.tasks[t], Pop(s, t, r);
    var n, d, f := |task.frames| - 1, Top(task).domain, Top(task).future;
    assert TaskOk(e, s, t) && Holds(s, t, n);
    assert task.frames == Below(task) + [Top(task)];
    forall u | 0 <= u < |after.tasks| ensures TaskOk(e, after, u) {
      assert TaskOk(e, s, u);
      if u == t { PoppedOk(e, task, after.tasks[t]); } else { SamePhaseOk(e, s, after, s.tasks[u]); }
      forall i | 0 <= i < |after.tasks[u].frames| ensures Holds(after, u, i) {
        assert Holds(s, u, i);
        if u == t { DistinctCalls(e, task, i, n); }
      }
    }
    forall g | 0 <= g < |after.futures| ensures FutureOk(after, g) {
      assert FutureOk(s, g);
      StackedMore(Below(task), Top(task), s.futures[g].domain);
    }
  }

  lemma PoppedOk(e: Setting, task: Task, after: Task)
    requires task.frames != [] && after.frames == Below(task) && after.done == task.done && after.phase.Returning?
    requires forall i :: 0 <= i < |task.frames| ==> FrameOk(e, task, i)
    ensures forall i :: 0 <= i < |after.frames| ==> FrameOk(e, after, i)
    ensures after.frames != [] ==>
      Usable(e, Top(after).domain) && Top(task).domain in Needs(e.repo, Top(after).domain)
  {
    hide Needs, Stacked;
    forall i | 0 <= i < |after.frames| ensures FrameOk(e, after, i) && Usable(e, after.frames[i].domain) {
      assert FrameOk(e, task, i);
      assert after.frames[..i] == task.frames[..i];
    }
    if after.frames != [] { assert FrameOk(e, task, |task.frames| - 2); }
  }

  lemma DistinctCalls(e: Setting, task: Task, i: nat, j: nat)
    requires i < j < |task.frames| && FrameOk(e, task, j)
    ensures task.frames[i].domain != task.frames[j].domain
  {
    assert task.frames[..j][i].domain == task.frames[i].domain;
  }

  lemma CallInv(e: Setting, s: State, t: TaskId)
    requires Inv(e, s) && Enabled(s, Go(t)) && s.tasks[t].phase.Calling?
    ensures Inv(e, Apply(e, s, Go(t)))
  {
    hide FrameOk, MayCall, Holds, FutureOk, Push;
    var d := s.tasks[t].phase.domain;
    assert TaskOk(e, s, t);
    if d in e.repo && d !in s.cache {
      PushInv(e, s, t, d);
    } else {
      var task := s.tasks[t].(done := s.tasks[t].done + {d});
      var r := Call(e, s, t, d).tasks[t];
      VisitedOk(e, s.tasks[t], task.done);
      PhaseChanged(e, task, r.phase);
      MayCallSame(e, s.tasks[t], r, d);
      SetTaskInv(e, s, t, r);
    }
  }

  lemma MayCallSame(e: Setting, task: Task, other: Task, d: Domain)
    requires MayCall(e, task, d) && other.frames == task.frames
    ensures MayCall(e, other, d) && (other.frames != [] ==> Usable(e, Top(other).domain))
  {
  }

  lemma StepInv(e: Setting, s: State, step: Step)
    requires Inv(e, s) && Enabled(s, step)
    ensures Inv(e, Apply(e, s, step))
  {
    hide Inv, Push, Pop, Call;
    match step
    case Start(d) => StartInv(e, s, d);
    case Check(t, x) => CheckInv(e, s, t, x);
    case Go(t) =>
      match s.tasks[t].phase
      case Calling(_) => CallInv(e, s, t);
      case Waiting(_, _) => WokenInv(e, s, t);
      case Installing =>
        if Usable(e, Top(s.tasks[t]).domain) { InstalledInv(e, s, t); } else { PopInv(e, s, t, Failed); }
      case Checking => PopInv(e, s, t, ResultOf(Top(s.tasks[t])));
      case Returning(_, _) => DeliverInv(e, s, t);
  }

  lemma {:induction false} RunInv(e: Setting, s: State, steps: seq<Step>, t: State)
    requires Inv(e, s) && Run(e, s, steps, t)
    ensures Inv(e, t)
    decreases |steps|
  {
    hide Inv, Enabled, Apply;
    if steps != [] {
      StepInv(e, s, steps[0]);
      RunInv(e, Apply(e, s, steps[0]), steps[1..], t);
    }
  }

  lemma InitInv(e: Setting)
    ensures Inv(e, INIT)
  {
  }

  lemma ReachableInv(e: Setting, s: State)
    requires Reachable(e, s)
    ensures Inv(e, s)
  {
    var steps :| Run(e, INIT, steps, s);
    InitInv(e);
    RunInv(e, INIT, steps, s);
  }

  // ------------------------------------------------------------------- deadlocks

  /** The task waits for a pending future of a task in `c`. */
  predicate WaitsIn(s: State, c: set<TaskId>, t: TaskId) {
    && t < |s.tasks| && s.tasks[t].phase.Waiting?
    && var f := s.tasks[t].phase.future;
       f < |s.futures| && !s.futures[f].done && s.futures[f].task in c
  }

  predicate Deadlocked(s: State, c: set<TaskId>) {
    c != {} && forall t :: t in c ==> WaitsIn(s, c, t)
  }

  ghost predicate CanDeadlock(e: Setting) {
    exists s, c :: Reachable(e, s) && Deadlocked(s, c)
  }

  /** A task leaves the others alone, and completes only futures of its own. */
  ghost predicate Framed(s: State, r: State, t: TaskId) {
    && |s.tasks| <= |r.tasks| && |s.futures| <= |r.futures|
    && (forall u :: 0 <= u < |s.tasks| && u != t ==> r.tasks[u] == s.tasks[u])
    && (forall f :: 0 <= f < |s.futures| && s.futures[f].task != t ==> r.futures[f] == s.futures[f])
  }

  lemma StepIsFramed(e: Setting, s: State, step: Step)
    requires Inv(e, s) && Enabled(s, step) && !step.Start?
    ensures Framed(s, Apply(e, s, step), step.task)
  {
    assert TaskOk(e, s, step.task);
    hide PhaseOk, FrameOk;
    var task := s.tasks[step.task];
    if task.frames != [] { assert Holds(s, step.task, |task.frames| - 1); }
  }

  /** No step releases a deadlock. */
  lemma DeadlockIsPermanent(e: Setting, s: State, step: Step, c: set<TaskId>)
    requires Inv(e, s) && Enabled(s, step) && Deadlocked(s, c)
    ensures Deadlocked(Apply(e, s, step), c)
  {
    hide Inv, Framed;
    var r := Apply(e, s, step);
    if !step.Start? {
      hide Apply;
      StepIsFramed(e, s, step);
      forall t | t in c ensures t != step.task { assert WaitsIn(s, c, t); }
      FrameKeepsDeadlock(s, r, step.task, c);
    } else {
      forall t | t in c ensures WaitsIn(r, c, t) { assert WaitsIn(s, c, t); }
    }
  }

  lemma FrameKeepsDeadlock(s: State, r: State, t: TaskId, c: set<TaskId>)
    requires Framed(s, r, t) && Deadlocked(s, c) && t !in c
    ensures Deadlocked(r, c)
  {
    forall u | u in c ensures WaitsIn(r, c, u) { assert WaitsIn(s, c, u); }
  }

  lemma {:induction false} DeadlockLastsForever(e: Setting, s: State, steps: seq<Step>, t: State, c: set<TaskId>)
    requires Inv(e, s) && Deadlocked(s, c) && Run(e, s, steps, t)
    ensures Deadlocked(t, c)
    decreases |steps|
  {
    hide Inv, Enabled, Apply, Deadlocked;
    if steps != [] {
      DeadlockIsPermanent(e, s, steps[0], c);
      StepInv(e, s, steps[0]);
      DeadlockLastsForever(e, Apply(e, s, steps[0]), steps[1..], t, c);
    }
  }

  /** What usable integrations need besides themselves. */
  function TaskGraph(e: Setting): Graph {
    map d | d in e.repo && Usable(e, d) :: Needs(e.repo, d) - {d}
  }

  lemma EdgeIff(e: Setting, d: Domain, y: Domain)
    ensures y in Succ(TaskGraph(e), d) <==> Usable(e, d) && y in Needs(e.repo, d) && y != d
  {
  }

  ghost predicate HeldIn(s: State, c: set<TaskId>, d: Domain) {
    exists t :: t in c && t < |s.tasks| && Stacked(s.tasks[t].frames, d)
  }

  /** The domain that a task in `c` waits for is held in `c`. */
  lemma WaitedIsHeld(e: Setting, s: State, c: set<TaskId>, t: TaskId)
    requires Inv(e, s) && WaitsIn(s, c, t)
    ensures s.tasks[t].phase.domain in e.repo && HeldIn(s, c, s.tasks[t].phase.domain)
    ensures MayCall(e, s.tasks[t], s.tasks[t].phase.domain)
  {
    hide MayCall, Needs;
    var f := s.tasks[t].phase.future;
    assert TaskOk(e, s, t) && FutureOk(s, f);
    var u, d := s.futures[f].task, s.futures[f].domain;
    var i :| 0 <= i < |s.tasks[u].frames| && s.tasks[u].frames[i].domain == d;
    assert TaskOk(e, s, u) && FrameOk(e, s.tasks[u], i);
  }

  lemma HeldHasSucc(e: Setting, s: State, c: set<TaskId>, d: Domain) returns (y: Domain)
    requires Inv(e, s) && Deadlocked(s, c) && HeldIn(s, c, d)
    ensures y in e.repo && HeldIn(s, c, y) && y in Succ(TaskGraph(e), d)
  {
    hide Inv, Needs, FrameOk, Holds, TaskGraph, MayCall, PhaseOk;
    var t :| t in c && t < |s.tasks| && Stacked(s.tasks[t].frames, d);
    var task := s.tasks[t];
    var i :| 0 <= i < |task.frames| && task.frames[i].domain == d;
    TopOk(e, s, t);
    if i < |task.frames| - 1 {
      y := task.frames[i + 1].domain;
      NextCall(e, task, i);
    } else {
      y := task.phase.domain;
      assert WaitsIn(s, c, t);
      WaitedIsHeld(e, s, c, t);
      NextWait(e, task, y);
    }
  }

  lemma NextWait(e: Setting, task: Task, y: Domain)
    requires task.frames != [] && MayCall(e, task, y)
    ensures y in Succ(TaskGraph(e), Top(task).domain)
  {
  }

  lemma NextCall(e: Setting, task: Task, i: nat)
    requires i + 1 < |task.frames| && FrameOk(e, task, i) && FrameOk(e, task, i + 1)
    ensures Stacked(task.frames, task.frames[i + 1].domain) && task.frames[i + 1].domain in e.repo
    ensures task.frames[i + 1].domain in Succ(TaskGraph(e), task.frames[i].domain)
  {
    DistinctCalls(e, task, i, i + 1);
  }

  lemma DeadlockIsCycle(e: Setting, s: State, c: set<TaskId>)
    requires Inv(e, s) && Deadlocked(s, c)
    ensures exists x :: ReachesPlus(TaskGraph(e), x, x)
  {
    hide Inv, HeldIn, MayCall;
    var held := set d | d in e.repo && HeldIn(s, c, d);
    var t :| t in c;
    assert WaitsIn(s, c, t);
    WaitedIsHeld(e, s, c, t);
    forall d | d in held ensures HasSuccIn(TaskGraph(e), held, d) {
      var y := HeldHasSucc(e, s, c, d);
      assert y in held;
    }
    EndlessWalkCloses(TaskGraph(e), held, s.tasks[t].phase.domain);
  }

  predicate Finished(task: Task) {
    task.frames == [] && task.phase.Returning?
  }

  function Unfinished(s: State): set<TaskId> {
    set t: TaskId | t < |s.tasks| && !Finished(s.tasks[t])
  }

  /** When a task is not finished and no step is possible for any, there is a deadlock. */
  lemma StuckIsDeadlock(e: Setting, s: State, t: TaskId)
    requires Inv(e, s) && t < |s.tasks| && !Finished(s.tasks[t])
    requires forall step :: Enabled(s, step) ==> step.Start?
    ensures exists c :: Deadlocked(s, c)
  {
    hide Inv;
    var c := Unfinished(s);
    forall u | u in c ensures WaitsIn(s, c, u) { UnfinishedWaits(e, s, c, u); }
    assert t in c;
    assert Deadlocked(s, c);
  }

  lemma UnfinishedWaits(e: Setting, s: State, c: set<TaskId>, u: TaskId)
    requires Inv(e, s) && u < |s.tasks| && !Finished(s.tasks[u])
    requires c == Unfinished(s)
    requires forall step :: Enabled(s, step) ==> step.Start?
    ensures WaitsIn(s, c, u)
  {
    hide FrameOk, Needs, MayCall;
    var task := s.tasks[u];
    assert TaskOk(e, s, u) && !Enabled(s, Go(u));
    if task.frames != [] {
      assert Holds(s, u, |task.frames| - 1);
      forall x ensures !(task.phase.Checking? && x in Top(task).toCheck) { assert !Enabled(s, Check(u, x)); }
    }
    if task.phase.Waiting? { assert FutureOk(s, task.phase.future); }
  }

  // ------------------------------------------------------------ cycles deadlock

  lemma {:induction false} RunThen(e: Setting, s: State, steps: seq<Step>, t: State, step: Step)
    requires Run(e, s, steps, t) && Enabled(t, step)
    ensures Run(e, s, steps + [step], Apply(e, t, step))
    decreases |steps|
  {
    hide Enabled, Apply;
    var more := steps + [step];
    if steps == [] {
      assert more[1..] == [];
    } else {
      assert more[0] == steps[0] && more[1..] == steps[1..] + [step];
      RunThen(e, Apply(e, s, steps[0]), steps[1..], t, step);
    }
  }

  lemma ReachableThen(e: Setting, s: State, step: Step)
    requires Reachable(e, s) && Enabled(s, step)
    ensures Reachable(e, Apply(e, s, step))
  {
    hide Run, Enabled, Apply;
    var steps :| Run(e, INIT, steps, s);
    RunThen(e, INIT, steps, s, step);
  }

  /** The domains `c` are pending, each held by a task that has nothing else to do than to
      check what it needs; the first `n` tasks wait for one of `c` already. */
  ghost predicate Entered(e: Setting, s: State, c: set<Domain>, n: nat) {
    && s.cache.Keys == c && (forall d :: d in c ==> PendingNow(s, d))
    && forall t :: 0 <= t < |s.tasks| ==>
         if t < n then WaitsNow(s, s.tasks[t]) else ChecksAll(e, s.tasks[t], c)
  }

  predicate PendingNow(s: State, d: Domain) {
    && d in s.cache && s.cache[d].Pending? && PendingAt(s, s.cache[d].future)
  }

  predicate PendingAt(s: State, f: FutureId) {
    f < |s.futures| && !s.futures[f].done && s.futures[f].task < |s.tasks|
  }

  predicate WaitsNow(s: State, task: Task) {
    task.phase.Waiting? && PendingAt(s, task.phase.future)
  }

  predicate ChecksAll(e: Setting, task: Task, c: set<Domain>) {
    && task.phase.Checking? && |task.frames| == 1 && task.frames[0].domain in c && Usable(e, task.frames[0].domain)
    && task.frames[0].toCheck == Needs(e.repo, task.frames[0].domain) - {task.frames[0].domain}
  }

  /** A new call for a usable domain that is not cached, up to where it checks what it needs. */
  lemma EnterSteps(e: Setting, s: State, d: Domain)
    requires Usable(e, d) && d !in s.cache && forall x :: x in s.cache ==> s.cache[x].Pending?
    ensures var t, f, started := |s.tasks|, |s.futures|, Apply(e, s, Start(d));
      && Enabled(started, Go(t)) && Enabled(Apply(e, started, Go(t)), Go(t))
      && Apply(e, Apply(e, started, Go(t)), Go(t))
         == State(s.cache[d := Pending(f)], s.futures + [Future(d, t, false)],
                  s.tasks + [Task({d}, [Frame(d, f, Needs(e.repo, d) - {d}, false, None)], Checking)])
  {
    hide Needs;
    var t, f, started := |s.tasks|, |s.futures|, Apply(e, s, Start(d));
    var called := Apply(e, started, Go(t));
    var entered := Task({d}, [Frame(d, f, {}, false, None)], Installing);
    assert {d} + {d} == {d} && [] + [Frame(d, f, {}, false, None)] == [Frame(d, f, {}, false, None)];
    assert called.tasks[t] == entered && called.tasks == s.tasks + [entered];
    assert CachedIn(called.cache) == {};
    assert ToCheck(e, called, entered) == Needs(e.repo, d) - {d};
    var r := Apply(e, called, Go(t));
    assert Below(entered) == [];
    assert r.tasks[t] == Task({d}, [Frame(d, f, Needs(e.repo, d) - {d}, false, None)], Checking);
    assert r.tasks == s.tasks + [Task({d}, [Frame(d, f, Needs(e.repo, d) - {d}, false, None)], Checking)];
  }

  lemma EnterOne(e: Setting, s: State, c: set<Domain>, d: Domain) returns (r: State)
    requires Reachable(e, s) && Entered(e, s, c, 0) && Usable(e, d) && d !in c
    ensures Reachable(e, r) && Entered(e, r, c + {d}, 0) && |r.tasks| == |s.tasks| + 1
  {
    hide Reachable, Needs, Enabled, Apply, Usable;
    forall x | x in s.cache ensures s.cache[x].Pending? { assert PendingNow(s, x); }
    EnterSteps(e, s, d);
    assert Enabled(s, Start(d)) by { StartIsEnabled(s, d); }
    var t, started := |s.tasks|, Apply(e, s, Start(d));
    ReachableThen(e, s, Start(d));
    ReachableThen(e, started, Go(t));
    r := Apply(e, Apply(e, started, Go(t)), Go(t));
    ReachableThen(e, Apply(e, started, Go(t)), Go(t));
    forall x | x in c + {d} ensures PendingNow(r, x) { assert x != d ==> PendingNow(s, x); }
    forall u | 0 <= u < |r.tasks| ensures ChecksAll(e, r.tasks[u], c + {d}) {
      assert u < t ==> ChecksAll(e, s.tasks[u], c);
    }
  }

  lemma StartIsEnabled(s: State, d: Domain)
    ensures Enabled(s, Start(d))
  {
  }

  lemma {:induction false} EnterAll(e: Setting, c: set<Domain>) returns (s: State)
    requires forall d :: d in c ==> Usable(e, d)
    ensures Reachable(e, s) && Entered(e, s, c, 0) && |s.tasks| == |c|
    decreases c
  {
    hide Usable, Entered;
    if c == {} {
      s := INIT;
      assert Run(e, INIT, [], INIT);
      NobodyEntered(e);
    } else {
      var d :| d in c;
      var before := EnterAll(e, c - {d});
      s := EnterOne(e, before, c - {d}, d);
      assert c - {d} + {d} == c;
    }
  }

  lemma NobodyEntered(e: Setting)
    ensures Entered(e, INIT, {}, 0)
  {
  }

  /** A task goes on to check a domain that is pending, and waits for it. */
  lemma WaitSteps(e: Setting, s: State, n: TaskId, y: Domain)
    requires Enabled(s, Check(n, y)) && y in e.repo && y in s.cache && s.cache[y].Pending?
    ensures var mid := Apply(e, s, Check(n, y));
      && Enabled(mid, Go(n))
      && var r := Apply(e, mid, Go(n));
         && r.cache == s.cache && r.futures == s.futures && |r.tasks| == |s.tasks|
         && (forall u :: 0 <= u < |s.tasks| && u != n ==> r.tasks[u] == s.tasks[u])
         && r.tasks[n].phase == Waiting(y, s.cache[y].future)
  {
  }

  /** Task `n` checks a domain of `c` that its own one needs. */
  lemma WaitOne(e: Setting, s: State, c: set<Domain>, n: nat) returns (r: State)
    requires Reachable(e, s) && Entered(e, s, c, n) && n < |s.tasks| && c <= e.repo.Keys
    requires forall d :: d in c ==> HasSuccIn(TaskGraph(e), c, d)
    ensures Reachable(e, r) && Entered(e, r, c, n + 1) && |r.tasks| == |s.tasks|
  {
    hide Reachable, Entered, Apply, Enabled, TaskGraph, HasSuccIn;
    var y := NextToCheck(e, s, c, n);
    WaitSteps(e, s, n, y);
    var mid := Apply(e, s, Check(n, y));
    ReachableThen(e, s, Check(n, y));
    ReachableThen(e, mid, Go(n));
    r := Apply(e, mid, Go(n));
    WaitsOneMore(e, s, c, n, r, y);
  }

  lemma NextToCheck(e: Setting, s: State, c: set<Domain>, n: nat) returns (y: Domain)
    requires Entered(e, s, c, n) && n < |s.tasks|
    requires forall d :: d in c ==> HasSuccIn(TaskGraph(e), c, d)
    ensures y in c && y in s.cache && s.cache[y].Pending? && Enabled(s, Check(n, y))
  {
    hide Needs, Usable, TaskGraph, HasSuccIn;
    assert ChecksAll(e, s.tasks[n], c);
    var d := s.tasks[n].frames[0].domain;
    y := SomeSucc(TaskGraph(e), c, d);
    EdgeIff(e, d, y);
    assert PendingNow(s, y);
  }

  lemma SomeSucc(g: Graph, c: set<Domain>, d: Domain) returns (y: Domain)
    requires HasSuccIn(g, c, d)
    ensures y in c && y in Succ(g, d)
  {
    y :| y in c && y in Succ(g, d);
  }

  lemma WaitsOneMore(e: Setting, s: State, c: set<Domain>, n: nat, r: State, y: Domain)
    requires Entered(e, s, c, n) && n < |s.tasks| && y in c
    requires r.cache == s.cache && r.futures == s.futures && |r.tasks| == |s.tasks|
    requires forall u :: 0 <= u < |s.tasks| && u != n ==> r.tasks[u] == s.tasks[u]
    requires y in s.cache && s.cache[y].Pending? && r.tasks[n].phase == Waiting(y, s.cache[y].future)
    ensures Entered(e, r, c, n + 1)
  {
    hide Needs, Usable;
    forall x | x in c ensures PendingNow(r, x) { assert PendingNow(s, x); }
    assert PendingNow(s, y);
    forall u | 0 <= u < |r.tasks|
      ensures if u < n + 1 then WaitsNow(r, r.tasks[u]) else ChecksAll(e, r.tasks[u], c)
    {
      if u < n { assert WaitsNow(s, s.tasks[u]); }
      if u > n { assert ChecksAll(e, s.tasks[u], c); }
    }
  }

  lemma {:induction false} WaitAll(e: Setting, c: set<Domain>, n: nat) returns (s: State)
    requires n <= |c| && forall d :: d in c ==> Usable(e, d) && HasSuccIn(TaskGraph(e), c, d)
    ensures Reachable(e, s) && Entered(e, s, c, n) && |s.tasks| == |c|
    decreases n
  {
    hide Reachable, Entered, HasSuccIn;
    if n == 0 {
      s := EnterAll(e, c);
    } else {
      s := WaitAll(e, c, n - 1);
      assert c <= e.repo.Keys;
      s := WaitOne(e, s, c, n - 1);
    }
  }

  lemma CycleDeadlocks(e: Setting, x: Domain)
    requires ReachesPlus(TaskGraph(e), x, x)
    ensures CanDeadlock(e)
  {
    hide Reachable, ReachesPlus, Deadlocked, Entered;
    var c := CycleSet(TaskGraph(e), x);
    forall d | d in c ensures Usable(e, d) { assert HasSuccIn(TaskGraph(e), c, d); }
    var s := WaitAll(e, c, |c|);
    AllWaiting(e, s, c);
  }

  lemma AllWaiting(e: Setting, s: State, c: set<Domain>)
    requires Entered(e, s, c, |s.tasks|) && |s.tasks| > 0
    ensures Deadlocked(s, Unfinished(s))
  {
    hide ChecksAll;
    forall t | 0 <= t < |s.tasks| ensures t in Unfinished(s) { assert WaitsNow(s, s.tasks[t]); }
    assert 0 in Unfinished(s);
    forall t | t in Unfinished(s) ensures WaitsIn(s, Unfinished(s), t) { assert WaitsNow(s, s.tasks[t]); }
  }

  /** Calls of many tasks can wait for each other forever if and only if what integrations
      need, other than themselves, forms a cycle of integrations whose own requirements are
      installed or can be. */
  lemma DeadlockIffCycle(e: Setting)
    ensures CanDeadlock(e) <==> exists x :: ReachesPlus(TaskGraph(e), x, x)
  {
    hide Reachable, Deadlocked, ReachesPlus, TaskGraph;
    if CanDeadlock(e) {
      var s, c :| Reachable(e, s) && Deadlocked(s, c);
      ReachableInv(e, s);
      DeadlockIsCycle(e, s, c);
    }
    if x :| ReachesPlus(TaskGraph(e), x, x) { CycleDeadlocks(e, x); }
  }

  /** So without such a cycle some task can always go on, as long as any is not finished. */
  lemma NoCycleNeverBlocks(e: Setting, s: State, t: TaskId)
    requires Reachable(e, s) && t < |s.tasks| && !Finished(s.tasks[t])
    requires forall x :: !ReachesPlus(TaskGraph(e), x, x)
    ensures exists step :: Enabled(s, step) && !step.Start?
  {
    hide Reachable, Inv, Deadlocked, ReachesPlus, TaskGraph, Enabled, Finished;
    ReachableInv(e, s);
    if forall step :: Enabled(s, step) ==> step.Start? {
      StuckIsDeadlock(e, s, t);
      var c :| Deadlocked(s, c);
      DeadlockIsCycle(e, s, c);
    }
  }
}
