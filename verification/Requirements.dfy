/** The requirements manager of homeassistant/requirements.py, run by a single task. */
module Requirements {
  import opened Graphs
  import opened Loader
  import opened Options

  /** The integration each discovery protocol needs, and the manifest keys that ask for it. */
  const DISCOVERY_INTEGRATIONS: seq<(Domain, set<string>)> := [
    (Domain("dhcp"), {"dhcp"}),
    (Domain("mqtt"), {"mqtt"}),
    (Domain("ssdp"), {"ssdp"}),
    (Domain("zeroconf"), {"zeroconf", "homekit"})]

  /** Everything whose requirements an integration needs besides its own. */
  function Needs(repo: Repository, d: Domain): set<Domain>
    requires d in repo
  {
    Deps(repo, d) + After(repo, d)
    + set p | p in DISCOVERY_INTEGRATIONS && p.1 * repo[d].manifestKeys != {} :: p.0
  }

  /** Dependencies, after-dependencies, and the integrations of the discovery protocols that the
      manifest mentions. */
  lemma NeedsExactly(repo: Repository, d: Domain, x: Domain)
    requires d in repo
    ensures var keys := repo[d].manifestKeys;
      x in Needs(repo, d) <==>
        || x in repo[d].dependencies || x in repo[d].afterDependencies
        || (x == Domain("dhcp") && "dhcp" in keys) || (x == Domain("mqtt") && "mqtt" in keys)
        || (x == Domain("ssdp") && "ssdp" in keys)
        || (x == Domain("zeroconf") && ("zeroconf" in keys || "homekit" in keys))
  {
    var keys, ps := repo[d].manifestKeys, DISCOVERY_INTEGRATIONS;
    assert ps[0] in ps && ps[1] in ps && ps[2] in ps && ps[3] in ps;
    forall k, s: set<string> | k in s && k in keys ensures s * keys != {} { assert k in s * keys; }
  }

  /** A custom integration does without an after-dependency that has a plain name but no
      manifest. */
  predicate Excused(repo: Repository, d: Domain, x: Domain)
    requires d in repo
  {
    !repo[d].builtIn && x in After(repo, d) && x !in repo && '.' !in x.name
  }

  /** What an integration cannot do without. */
  function Required(repo: Repository, d: Domain): set<Domain>
    requires d in repo
  {
    set x | x in Needs(repo, d) && !Excused(repo, d, x)
  }

  /** What the integrations require, except for the `known` ones. */
  function NeedGraph(repo: Repository, known: set<Domain>): Graph {
    map d | d in repo && d !in known :: Required(repo, d)
  }

  datatype Entry = InProgress | Ready

  /** `SelfWait` would be an `await` on a future that only the waiting task completes. */
  datatype Result = Done | Missing(domain: Domain) | Failed | SelfWait

  function WithEntryIn(entries: map<Domain, Entry>, e: Entry): set<Domain> {
    set d | d in entries && entries[d] == e
  }

  lemma EntrySet(entries: map<Domain, Entry>, d: Domain, e: Entry)
    requires d in WithEntryIn(entries, InProgress) || d !in entries
    ensures e == InProgress ==>
      && WithEntryIn(entries[d := e], InProgress) == WithEntryIn(entries, InProgress) + {d}
      && WithEntryIn(entries[d := e], Ready) == WithEntryIn(entries, Ready)
    ensures e == Ready ==>
      && WithEntryIn(entries[d := e], InProgress) == WithEntryIn(entries, InProgress) - {d}
      && WithEntryIn(entries[d := e], Ready) == WithEntryIn(entries, Ready) + {d}
    ensures d !in WithEntryIn(entries, Ready)
    ensures WithEntryIn(entries - {d}, InProgress) == WithEntryIn(entries, InProgress) - {d}
    ensures WithEntryIn(entries - {d}, Ready) == WithEntryIn(entries, Ready)
  {
  }

  lemma EntryIn(entries: map<Domain, Entry>, d: Domain, e: Entry)
    ensures d in WithEntryIn(entries, e) <==> d in entries && entries[d] == e
  {
  }

  class RequirementsManager {
    const repo: Repository
    const skipPip: bool
    const skipped: set<Requirement>
    /** What pip manages to install. As every requirement is tried at most once, this can be
        settled beforehand. */
    const installable: set<Requirement>
    var cache: map<Domain, Entry>
    var installed: set<Requirement>
    var failures: set<Requirement>
    var done: set<Domain>

    function WithEntry(e: Entry): set<Domain> reads this {
      WithEntryIn(cache, e)
    }

    /** The requirements of an integration that are not skipped by configuration. */
    function Own(d: Domain): set<Requirement>
      requires d in repo
    {
      ToSet(repo[d].requirements) - skipped
    }

    /** Everything the domain transitively requires has a manifest and can be installed. */
    ghost predicate Servable(d: Domain) {
      forall x :: Reaches(NeedGraph(repo, {}), d, x) ==> x in repo && Own(x) <= installable
    }

    lemma ServableNeeds(d: Domain)
      requires Servable(d)
      ensures d in repo && Own(d) <= installable
      ensures forall x :: x in Needs(repo, d) ==> Servable(x) || Excused(repo, d, x)
      ensures forall x :: x in Required(repo, d) ==> Servable(x)
    {
      var g := NeedGraph(repo, {});
      ReachesRefl(g, d);
      forall x | x in Required(repo, d) ensures Servable(x) {
        assert x in Succ(g, d);
        EdgeReaches(g, d, x);
        forall y | Reaches(g, x, y) ensures y in repo && Own(y) <= installable { ReachesTrans(g, d, x, y); }
      }
    }

    /** That is, its own requirements can be installed, and all it needs is servable, or missing
        and excused. */
    lemma ServableIffNeeds(d: Domain)
      requires d in repo
      ensures Servable(d) <==>
        Own(d) <= installable && forall x :: x in Needs(repo, d) ==> Servable(x) || Excused(repo, d, x)
    {
      if Servable(d) { ServableNeeds(d); }
      if Own(d) <= installable && forall x :: x in Needs(repo, d) ==> Servable(x) || Excused(repo, d, x) {
        var g := NeedGraph(repo, {});
        forall y | Reaches(g, d, y) ensures y in repo && Own(y) <= installable {
          ReachesSplit(g, d, y);
          if y != d {
            var x :| x in Succ(g, d) && Reaches(g, x, y);
            assert Servable(x);
          }
        }
      }
    }

    /** Servable integrations whose entry is ready require only cached ones. */
    ghost predicate ServablesComplete(entries: map<Domain, Entry>) {
      forall d :: d in entries && entries[d] == Ready && d in repo && Servable(d) ==> Required(repo, d) <= entries.Keys
    }

    /** A call for the domain fails whatever has happened before: its name is not plain, or its
        own requirements cannot be installed. */
    predicate Hopeless(d: Domain) {
      if d in repo then !(Own(d) <= installable) else '.' in d.name
    }

    /** A missing domain that makes a call for `d` raise. */
    predicate MissedBy(d: Domain, x: Domain)
      requires d in repo
    {
      x !in repo && '.' !in x.name && !Excused(repo, d, x)
    }

    /** Every servable domain visited is cached. */
    ghost predicate ServablesCached(now: set<Domain>, entries: map<Domain, Entry>) {
      forall x :: x in now && Servable(x) ==> x in entries
    }

    /** Only integrations with a manifest are cached, and the own requirements of every
        cached integration are installed. */
    ghost predicate Valid() reads this {
      && ServablesComplete(cache)
      && cache.Keys <= repo.Keys && installed <= installable && failures !! installable
      && forall d :: d in WithEntry(Ready) ==> Own(d) <= installed
    }

    /** Everything a cached integration needs is cached as well. */
    ghost predicate Complete() reads this {
      forall d :: d in WithEntry(Ready) && d in repo ==> Needs(repo, d) <= WithEntry(Ready)
    }

    /** What holds in the middle of a walk: domains finished by this walk, that is other than
        the `known` ones, only need domains that were visited or are cached. */
    ghost predicate NeedsVisited(now: set<Domain>, ready: set<Domain>, known: set<Domain>) {
      forall d :: d in ready - known && d in repo ==> Needs(repo, d) <= now + ready
    }

    lemma NeedsVisitedGrows(d: Domain, now: set<Domain>, ready: set<Domain>, known: set<Domain>)
      requires NeedsVisited(now, ready, known)
      ensures NeedsVisited(now + {d}, ready, known)
      ensures (d in repo ==> Needs(repo, d) <= now + ready) ==> NeedsVisited(now, ready + {d}, known)
    {
    }

    /** What holds as well while no exception was met: every domain visited is finished or on
        the stack. */
    ghost predicate OnTrack(stack: set<Domain>) reads this {
      done <= stack + WithEntry(Ready)
    }

    /** An integration whose own requirements can be installed, and which needs only domains
        out of `visited`. */
    predicate SelfContained(d: Domain, visited: set<Domain>) {
      d in repo && Own(d) <= installable && Needs(repo, d) <= visited
    }

    /** Of the domains `now` visited, those beyond `before` are `ready` if all they need is in
        `visited`. */
    ghost predicate Finished(now: set<Domain>, ready: set<Domain>, before: set<Domain>, visited: set<Domain>) {
      forall x :: x in now - before && SelfContained(x, visited) ==> x in ready
    }

    lemma FinishedNow(now: set<Domain>, ready: set<Domain>)
      ensures Finished(now, ready, now, now)
    {
    }

    lemma FinishedGrows(d: Domain, now: set<Domain>, ready: set<Domain>, before: set<Domain>)
      requires Finished(now, ready, before, before)
      ensures Finished(now, ready + {d}, before, before)
    {
    }

    lemma FinishedThen(
        d: Domain, before: set<Domain>, mid: set<Domain>, midReady: set<Domain>, now: set<Domain>, ready: set<Domain>)
      requires Finished(mid, midReady, before, before) && Finished(now, ready, mid, mid + {d})
      requires before <= mid && midReady <= ready
      ensures Finished(now, ready, before, before)
    {
      forall x | x in now - before && SelfContained(x, before) ensures x in ready {
        assert x !in mid ==> SelfContained(x, mid + {d});
      }
    }

    ghost predicate BuiltIn() {
      forall d :: d in repo ==> repo[d].builtIn
    }

    constructor (repo: Repository, skipPip: bool, skipped: set<Requirement>, installable: set<Requirement>)
      ensures this.repo == repo && this.skipPip == skipPip && this.skipped == skipped
      ensures this.installable == installable
      ensures Valid() && Complete() && cache == map[] && installed == {} && failures == {}
    {
      this.repo, this.skipPip, this.skipped, this.installable := repo, skipPip, skipped, installable;
      cache, installed, failures, done := map[], {}, {}, {};
    }

    /** `async_process_requirements` with `_install_requirements_if_missing`. A requirement
        that has failed before is not tried again, and keeps the others from being tried. */
    method ProcessRequirements(requirements: seq<Requirement>) returns (ok: bool)
      requires installed <= installable && failures !! installable
      modifies this`installed, this`failures
      ensures installed <= installable && failures !! installable
      ensures ok <==> ToSet(requirements) - skipped <= installable
      ensures var missing := ToSet(requirements) - skipped - old(installed);
        if missing * old(failures) != {} then installed == old(installed) && failures == old(failures)
        else installed == old(installed) + missing * installable && failures == old(failures) + (missing - installable)
    {
      hide ToSet;
      var missing := ToSet(requirements) - skipped - installed;
      if missing == {} {
        assert forall x :: x in ToSet(requirements) - skipped ==> x in missing || x in installed;
        return true;
      }
      if missing * failures != {} {
        return false;
      }
      ok := InstallMissing(missing);
    }

    /** `_install_requirements_if_missing`, and what becomes of its result. */
    method InstallMissing(missing: set<Requirement>) returns (ok: bool)
      modifies this`installed, this`failures
      ensures installed == old(installed) + missing * installable
      ensures failures == old(failures) + (missing - installable)
      ensures ok <==> missing <= installable
    {
      var todo := missing;
      ok := true;
      while todo != {}
        invariant todo <= missing
        invariant forall x ::
          x in installed <==> x in old(installed) || (x in missing && x !in todo && x in installable)
        invariant forall x ::
          x in failures <==> x in old(failures) || (x in missing && x !in todo && x !in installable)
        invariant ok <==> forall x :: x in missing && x !in todo ==> x in installable
        decreases |todo|
      {
        var req :| req in todo;
        todo := todo - {req};
        if req in installable { installed := installed + {req}; } else { failures, ok := failures + {req}, false; }
      }
    }

    lemma Started(d: Domain, now: set<Domain>, entries: map<Domain, Entry>)
      requires ServablesComplete(entries) && ServablesCached(now, entries) && d !in entries
      ensures ServablesComplete(entries[d := InProgress]) && ServablesCached(now + {d}, entries[d := InProgress])
    {
    }

    /** Nothing servable needs what is not. */
    lemma Dropped(d: Domain, now: set<Domain>, entries: map<Domain, Entry>)
      requires ServablesComplete(entries) && ServablesCached(now, entries) && !Servable(d)
      ensures ServablesComplete(entries - {d}) && ServablesCached(now, entries - {d})
    {
      forall x | x in entries - {d} && entries[x] == Ready && x in repo && Servable(x)
        ensures Required(repo, x) <= (entries - {d}).Keys
      {
        ServableNeeds(x);
      }
    }

    lemma Finishes(d: Domain, now: set<Domain>, entries: map<Domain, Entry>)
      requires ServablesComplete(entries) && ServablesCached(now, entries) && d in entries
      requires d in repo && (Servable(d) ==> Required(repo, d) <= entries.Keys)
      ensures ServablesComplete(entries[d := Ready]) && ServablesCached(now, entries[d := Ready])
    {
    }

    /** `async_get_integration_with_requirements`. `stack` holds the domains whose futures
        the calls below this one on the stack still have to complete. */
    method GetWithRequirements(d: Domain, ghost stack: set<Domain>, ghost known: set<Domain>) returns (r: Result)
      requires Valid() && stack <= done * repo.Keys && WithEntry(InProgress) == stack && d !in stack
      requires !skipPip ==> ServablesCached(done, cache)
      modifies this
      ensures Valid() && WithEntry(InProgress) == stack && r != SelfWait
      ensures old(done) + {d} <= done && old(installed) <= installed && old(WithEntry(Ready)) <= WithEntry(Ready)
      ensures r.Done? ==> d in repo && (!skipPip ==> d in WithEntry(Ready))
      ensures r.Missing? ==> r.domain !in repo
      ensures r.Done? && BuiltIn() && !skipPip && old(OnTrack(stack)) ==> OnTrack(stack)
      ensures BuiltIn() && old(NeedsVisited(done, WithEntry(Ready), known)) ==>
        NeedsVisited(done, WithEntry(Ready), known)
      ensures !skipPip ==> Finished(done, WithEntry(Ready), old(done), old(done) + {d})
      ensures !skipPip && d in repo && d !in old(cache) && Own(d) <= installable ==>
        Needs(repo, d) <= done + WithEntry(Ready)
      ensures !skipPip && old(d in WithEntry(Ready)) ==> r.Done?
      ensures !skipPip ==> ServablesCached(done, cache) && (Servable(d) ==> r.Done?)
      ensures d !in repo ==> r == if '.' in d.name then Failed else Missing(d)
      ensures skipPip && d in repo ==> r == Done
      ensures skipPip ==> cache == old(cache) && installed == old(installed)
      ensures !skipPip && Hopeless(d) ==> r == Failed
      ensures !skipPip && d in repo && d !in old(cache) && Own(d) <= installable ==>
        Raises(d, Needs(repo, d) - (old(done) + {d}) - old(WithEntry(Ready)), r)
      decreases repo.Keys - stack, 2
    {
      hide Needs, NeedsVisited, Servable, ServablesComplete, Own, Required, Raises;
      if NeedsVisited(done, WithEntry(Ready), known) { NeedsVisitedGrows(d, done, WithEntry(Ready), known); }
      if Servable(d) { ServableNeeds(d); }
      done := done + {d};
      if d !in repo {
        return if '.' in d.name then Failed else Missing(d);
      }
      if skipPip {
        return Done;
      }
      if d in cache {
        assert d in WithEntry(InProgress) <==> cache[d] == InProgress;
        return if cache[d] == InProgress then SelfWait else Done;
      }
      Started(d, old(done), cache);
      r := ProcessWithFuture(d, stack, known);
    }

    /** The rest of it: the integration is processed under a future, which is replaced by the
        integration, or taken away when an exception is raised. */
    method ProcessWithFuture(d: Domain, ghost stack: set<Domain>, ghost known: set<Domain>) returns (r: Result)
      requires d in repo && d !in stack && d in done && d !in cache && !skipPip
      requires Valid() && stack <= done * repo.Keys && WithEntry(InProgress) == stack
      requires ServablesComplete(cache[d := InProgress]) && ServablesCached(done, cache[d := InProgress])
      modifies this
      ensures Valid() && WithEntry(InProgress) == stack && r != SelfWait
      ensures old(done) <= done && old(installed) <= installed && old(WithEntry(Ready)) <= WithEntry(Ready)
      ensures r.Done? ==> d in WithEntry(Ready)
      ensures r.Missing? ==> r.domain !in repo
      ensures ServablesCached(done, cache) && (Servable(d) ==> r.Done?)
      ensures !(Own(d) <= installable) ==> r == Failed
      ensures Own(d) <= installable ==> Raises(d, Needs(repo, d) - old(done) - old(WithEntry(Ready)), r)
      ensures r.Done? && BuiltIn() && old(OnTrack(stack + {d})) ==> OnTrack(stack)
      ensures BuiltIn() && old(NeedsVisited(done, WithEntry(Ready), known)) ==>
        NeedsVisited(done, WithEntry(Ready), known)
      ensures Own(d) <= installable ==> Needs(repo, d) <= done + WithEntry(Ready)
      ensures SelfContained(d, old(done)) ==> r.Done?
      ensures Finished(done, WithEntry(Ready), old(done), old(done))
      decreases repo.Keys - stack, 1
    {
      hide Needs, NeedsVisited, Servable, ServablesComplete, ServablesCached, SelfContained, Finished, Own, WithEntryIn;
      hide Required, Raises;
      EntrySet(cache, d, InProgress);
      cache := cache[d := InProgress];
      r := ProcessIntegration(d, stack, known);
      ghost var ready := WithEntry(Ready);
      EntryIn(cache, d, InProgress);
      EntrySet(cache, d, Ready);
      if r != Done {
        Dropped(d, done, cache);
        cache := cache - {d};
        return r;
      }
      if NeedsVisited(done, ready, known) { NeedsVisitedGrows(d, done, ready, known); }
      FinishedGrows(d, done, ready, old(done));
      Finishes(d, done, cache);
      cache := cache[d := Ready];
    }

    /** `_async_process_integration`, entered with a pending future for `d`. */
    method ProcessIntegration(d: Domain, ghost stack: set<Domain>, ghost known: set<Domain>) returns (r: Result)
      requires d in repo && d !in stack && d in done && !skipPip
      requires Valid() && stack <= done * repo.Keys && WithEntry(InProgress) == stack + {d}
      requires ServablesCached(done, cache)
      modifies this
      ensures ServablesCached(done, cache) && (Servable(d) ==> r.Done? && Required(repo, d) <= cache.Keys)
      ensures !(Own(d) <= installable) ==> r == Failed
      ensures Own(d) <= installable ==>
        Raises(d, Needs(repo, d) - old(done) - old(WithEntry(Ready)), r)
      ensures Valid() && WithEntry(InProgress) == stack + {d} && r != SelfWait
      ensures old(done) <= done && old(installed) <= installed && old(WithEntry(Ready)) <= WithEntry(Ready)
      ensures r.Missing? ==> r.domain !in repo
      ensures r.Done? ==> Own(d) <= installed
      ensures r.Done? && BuiltIn() && old(OnTrack(stack + {d})) ==> OnTrack(stack + {d})
      ensures BuiltIn() && old(NeedsVisited(done, WithEntry(Ready), known)) ==>
        NeedsVisited(done, WithEntry(Ready), known)
      ensures Own(d) <= installable ==> Needs(repo, d) <= done + WithEntry(Ready)
      ensures SelfContained(d, old(done)) ==> r.Done?
      ensures Finished(done, WithEntry(Ready), old(done), old(done))
      decreases repo.Keys - stack, 0, 1
    {
      hide Needs, Finished, NeedsVisited, Servable, ServablesComplete, Required, Excused;
      FinishedNow(done, WithEntry(Ready));
      if Servable(d) { ServableNeeds(d); RequiredIsNeeded(d); }
      var ok := ProcessRequirements(repo[d].requirements);
      if !ok {
        return Failed;
      }
      var toCheck := Needs(repo, d) - done - WithEntry(Ready);
      r := CheckNeeds(d, toCheck, stack, known);
    }

    lemma RequiredIsNeeded(d: Domain)
      requires d in repo
      ensures Required(repo, d) <= Needs(repo, d)
    {
    }

    /** How the checks of `needs` for the integration `d` end: with an error if one of them is
        hopeless; not well if one of them is missing and not excused; and well if all of them
        are servable or excused. */
    ghost predicate Raises(d: Domain, needs: set<Domain>, r: Result)
      requires d in repo
    {
      && ((exists x :: x in needs && Hopeless(x)) ==> r == Failed)
      && ((exists x :: x in needs && MissedBy(d, x)) ==> r != Done)
      && ((forall x :: x in needs ==> Servable(x) || Excused(repo, d, x)) ==> r == Done)
    }

    /** The rest of `_async_process_integration`: a call for every domain to check, of which the
        first exception is raised that is not merely a missing domain. */
    method CheckNeeds(d: Domain, needs: set<Domain>, ghost stack: set<Domain>,
      ghost known: set<Domain>) returns (r: Result)
      requires d in repo && d !in stack && d in done && !skipPip && needs !! stack + {d}
      requires Valid() && stack <= done * repo.Keys && WithEntry(InProgress) == stack + {d}
      requires ServablesCached(done, cache)
      modifies this
      ensures ServablesCached(done, cache) && Raises(d, needs, r)
      ensures Valid() && WithEntry(InProgress) == stack + {d} && r != SelfWait
      ensures old(done) + needs <= done && old(installed) <= installed && old(WithEntry(Ready)) <= WithEntry(Ready)
      ensures r.Missing? ==> r.domain !in repo
      ensures r.Done? && BuiltIn() && old(OnTrack(stack + {d})) ==> OnTrack(stack + {d})
      ensures BuiltIn() && old(NeedsVisited(done, WithEntry(Ready), known)) ==>
        NeedsVisited(done, WithEntry(Ready), known)
      ensures Finished(done, WithEntry(Ready), old(done), old(done))
      decreases repo.Keys - stack, 0, 0
    {
      hide Needs, Finished, NeedsVisited, Servable, ServablesComplete, ServablesCached, Own;
      var toCheck := needs;
      var notFound: Option<Domain>, failed := None, false;
      FinishedNow(done, WithEntry(Ready));
      while toCheck != {}
        invariant toCheck <= needs && needs <= done + toCheck
        invariant Valid() && stack + {d} <= done && WithEntry(InProgress) == stack + {d}
        invariant old(done) <= done && old(installed) <= installed && old(WithEntry(Ready)) <= WithEntry(Ready)
        invariant notFound.Some? ==> notFound.value !in repo
        invariant notFound.None? && !failed && BuiltIn() && old(OnTrack(stack + {d})) ==> OnTrack(stack + {d})
        invariant BuiltIn() && old(NeedsVisited(done, WithEntry(Ready), known)) ==>
          NeedsVisited(done, WithEntry(Ready), known)
        invariant ServablesCached(done, cache)
        invariant (exists x :: x in needs - toCheck && Hopeless(x)) ==> failed
        invariant (exists x :: x in needs - toCheck && MissedBy(d, x)) ==> notFound.Some?
        invariant (forall x :: x in needs ==> Servable(x) || Excused(repo, d, x)) ==> notFound.None? && !failed
        invariant Finished(done, WithEntry(Ready), old(done), old(done))
        decreases |toCheck|
      {
        var dep :| dep in toCheck;
        toCheck := toCheck - {dep};
        assert d in repo.Keys - stack;
        ghost var visited, ready := done, WithEntry(Ready);
        var result := GetWithRequirements(dep, stack + {d}, known);
        FinishedThen(dep, old(done), visited, ready, done, WithEntry(Ready));
        match result
        case Done =>
        case Missing(x) =>
          if (repo[d].builtIn || x !in repo[d].afterDependencies) && notFound.None? {
            notFound := Some(x);
          }
        case Failed => failed := true;
      }
      if failed {
        return Failed;
      }
      if notFound.Some? {
        return Missing(notFound.value);
      }
      return Done;
    }

    /** One call from outside, with a fresh `done`. It always returns without ever waiting
        for itself. When all integrations are built in and nothing is skipped, success means
        that everything the domain transitively needs, not looking behind integrations that
        were cached before, has a manifest and its requirements installed. What a call caches,
        be it successful or not, needs only domains that are cached or that it has visited, of
        which some may have failed. From a complete cache, such as the empty one, success means
        all of that without exception, and keeps the cache complete. */
    method Get(d: Domain) returns (r: Result)
      requires Valid() && WithEntry(InProgress) == {}
      modifies this
      ensures Valid() && WithEntry(InProgress) == {} && r != SelfWait
      ensures old(installed) <= installed && old(WithEntry(Ready)) <= WithEntry(Ready)
      ensures !skipPip && Servable(d) ==> r.Done?
      ensures !skipPip && r.Done? ==> (AllInstalled(d, {}) <==> Servable(d))
      ensures r.Done? && BuiltIn() && !skipPip ==> AllInstalled(d, old(WithEntry(Ready)))
      ensures r.Done? && BuiltIn() && !skipPip && old(Complete()) ==> Complete() && AllInstalled(d, {})
      ensures BuiltIn() ==> NeedsVisited(done, WithEntry(Ready), old(WithEntry(Ready)))
      ensures !skipPip ==> Finished(done, WithEntry(Ready), {}, {d})
      ensures !skipPip && d in repo && d !in old(cache) && Own(d) <= installable ==>
        Needs(repo, d) <= done + WithEntry(Ready)
      ensures !skipPip && old(d in WithEntry(Ready)) ==> r.Done?
      ensures d !in repo ==> r == if '.' in d.name then Failed else Missing(d)
      ensures skipPip && d in repo ==> r == Done
      ensures skipPip ==> cache == old(cache) && installed == old(installed)
      ensures !skipPip && Hopeless(d) ==> r == Failed
      ensures !skipPip && d in repo && d !in old(cache) && Own(d) <= installable ==>
        Raises(d, Needs(repo, d) - {d} - old(WithEntry(Ready)), r)
    {
      hide Servable, AllInstalled, NeedsVisited, Finished, ServablesComplete, Own, Raises;
      done := {};
      ghost var known := WithEntry(Ready);
      NothingVisited(known);
      r := GetWithRequirements(d, {}, known);
      if r.Done? && !skipPip {
        if Servable(d) { ServableIsInstalled(d); }
        InstalledIsServable(d);
      }
      assert {} + {d} == {d};
      if r.Done? && BuiltIn() && !skipPip {
        assert done <= WithEntry(Ready);
        FinishedIsInstalled(d, known);
        if old(Complete()) {
          CompleteAgain(known);
          FinishedIsInstalled(d, {});
        }
      }
    }

    lemma NothingVisited(known: set<Domain>)
      ensures NeedsVisited({}, known, known)
    {
    }

    /** What the domain transitively requires, not looking behind the `known` domains, has a
        manifest and its requirements installed. */
    ghost predicate AllInstalled(d: Domain, known: set<Domain>) reads this {
      forall x :: Reaches(NeedGraph(repo, known), d, x) ==>
        x in repo && Own(x) <= installed
    }

    /** Servable domains in a cache without pending entries have all they require in the
        cache. */
    lemma ServableIsInstalled(d: Domain)
      requires Valid() && WithEntry(InProgress) == {} && d in cache && Servable(d)
      ensures AllInstalled(d, {})
    {
      var g, s := NeedGraph(repo, {}), set x | x in cache && Servable(x);
      forall x | x in s ensures Succ(g, x) <= s && x in WithEntry(Ready) {
        EntryIn(cache, x, cache[x]);
        ServableNeeds(x);
      }
      forall x | Reaches(g, d, x) ensures x in repo && Own(x) <= installed {
        ClosedStays(g, s, d, x);
      }
    }

    lemma InstalledIsServable(d: Domain)
      requires installed <= installable
      ensures AllInstalled(d, {}) ==> Servable(d)
    {
    }

    /** After a successful call from a complete cache, the cache is complete. */
    lemma CompleteAgain(known: set<Domain>)
      requires done <= WithEntry(Ready) && NeedsVisited(done, WithEntry(Ready), known) && known <= WithEntry(Ready)
      requires forall d :: d in known && d in repo ==> Needs(repo, d) <= known
      ensures Complete() && NeedsVisited(done, WithEntry(Ready), {})
    {
    }

    lemma FinishedIsInstalled(d: Domain, known: set<Domain>)
      requires Valid() && d in WithEntry(Ready)
      requires done <= WithEntry(Ready) && NeedsVisited(done, WithEntry(Ready), known)
      ensures AllInstalled(d, known)
    {
      assert Closed(NeedGraph(repo, known), WithEntry(Ready));
      forall x | Reaches(NeedGraph(repo, known), d, x)
        ensures x in WithEntry(Ready)
      {
        ClosedStays(NeedGraph(repo, known), WithEntry(Ready), d, x);
      }
    }
  }

  /** An integration whose requirement cannot be installed, and two that name each other as
      after-dependencies, one of which depends on the first. */
  function GapRepository(a: Domain, b: Domain, c: Domain, req: Requirement): Repository {
    map[a := Integration([], {b}, [], {}, true), b := Integration([c], {a}, [], {}, true),
        c := Integration([], {}, [req], {}, true)]
  }

  /** A failed call can leave an integration in the cache whose needs are not met: the second
      of the two finds the first visited, and is cached although the first fails. From then on
      a call for it succeeds. */
  method FailedCallLeavesGap(a: Domain, b: Domain, c: Domain, req: Requirement)
      returns (m: RequirementsManager, first: Result, second: Result)
    requires a != b && b != c && a != c
    ensures m.repo == GapRepository(a, b, c, req) && !m.skipPip && m.skipped == {}
    ensures first != Done && second == Done && !m.AllInstalled(a, {})
  {
    var repo := GapRepository(a, b, c, req);
    m := new RequirementsManager(repo, false, {}, {});
    GapNeeds(a, b, c, req);
    assert req in m.Own(c);
    first := m.Get(b);
    GapReaches(m, a, b, c, req);
    assert m.SelfContained(a, {b});
    second := m.Get(a);
  }

  lemma GapNeeds(a: Domain, b: Domain, c: Domain, req: Requirement)
    requires a != b && b != c && a != c
    ensures var repo := GapRepository(a, b, c, req);
      Needs(repo, a) == {b} && Needs(repo, b) == {a, c} && Needs(repo, c) == {}
  {
  }

  /** Whoever needs `c`, directly or not, is not served. */
  lemma GapReaches(m: RequirementsManager, a: Domain, b: Domain, c: Domain, req: Requirement)
    requires a != b && b != c && a != c && m.repo == GapRepository(a, b, c, req)
    requires m.skipped == {} && req !in m.installed
    ensures !m.AllInstalled(b, {}) && !m.AllInstalled(a, {})
  {
    GapNeeds(a, b, c, req);
    var g := NeedGraph(m.repo, {});
    assert Succ(g, b) == {a, c} && Succ(g, a) == {b};
    assert IsPath(g, b, c, [b, c]);
    assert IsPath(g, a, c, [a, b, c]);
    assert Reaches(g, b, c) && Reaches(g, a, c);
    assert req in ToSet(m.repo[c].requirements);
  }
}
