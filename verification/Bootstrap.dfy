/** The worklists of homeassistant/bootstrap.py: which domains have to be set up, and in
    which stage. */
module Bootstrap {
  import opened Graphs
  import opened Loader
  import opened Sets

  /** Dependencies and after-dependencies, the edges along which manifests are preloaded. */
  function ManifestGraph(repo: Repository): Graph {
    map d | d in repo :: Deps(repo, d) + After(repo, d)
  }

  /** `all_dependencies` of an integration whose dependencies have been resolved. */
  function AllDependencies(repo: Repository, d: Domain): set<Domain>
    requires Resolves(repo, d)
  {
    Search(repo, d).loaded - {d}
  }

  ghost predicate ReachableFromAny(g: Graph, start: set<Domain>, d: Domain) {
    exists s :: s in start && Reaches(g, s, d)
  }

  /** `Raises` is a `RuntimeError` or `ValueError` for a domain that cannot be resolved. */
  datatype Resolution = Domains(domains: set<Domain>, cache: set<Domain>) | Raises

  // ------------------------------------------------------------------ termination

  /** What the next request for manifests can still achieve: 3 re-reads cached ones, 2 finds
      new ones, 1 finds nothing, 0 is no request at all. */
  function Kind(repo: Repository, cache: set<Domain>, request: set<Domain>): nat {
    if request * repo.Keys - cache != {} then 2
    else if request * repo.Keys != {} then 3
    else if request != {} then 1
    else 0
  }

  lemma UncachedShrinks(all: set<Domain>, small: set<Domain>, large: set<Domain>)
    requires small <= large
    ensures |all - large| <= |all - small|
    ensures (large - small) * all != {} ==> |all - large| < |all - small|
  {
    SubsetCard(all - large, all - small);
    if (large - small) * all != {} {
      var x :| x in (large - small) * all;
      assert x in all - small && x !in all - large;
    }
  }

  // ------------------------------------------------------- domains to be set up

  /** Everything already dealt with: its manifest is cached, it is resolved, and its
      dependencies are domains to be set up themselves. */
  ghost predicate Processed(repo: Repository, domains: set<Domain>, cache: set<Domain>, d: Domain) {
    d in repo ==> d in cache && Resolves(repo, d) && AllDependencies(repo, d) <= domains
  }

  /** The manifest of every neighbour is cached, requested, or does not exist. */
  predicate Followed(repo: Repository, cache: set<Domain>, request: set<Domain>, d: Domain)
    requires d in repo
  {
    (Deps(repo, d) + After(repo, d)) * repo.Keys <= cache + request
  }

  lemma {:induction false} DepPathIsManifestPath(repo: Repository, a: Domain, b: Domain, p: seq<Domain>)
    requires IsPath(DepGraph(repo), a, b, p)
    ensures Reaches(ManifestGraph(repo), a, b)
  {
    forall i | 0 <= i < |p| - 1
      ensures p[i + 1] in Succ(ManifestGraph(repo), p[i])
    {
      assert p[i + 1] in Succ(DepGraph(repo), p[i]);
    }
    assert IsPath(ManifestGraph(repo), a, b, p);
  }

  lemma DepReachIsManifestReach(repo: Repository, start: set<Domain>, more: set<Domain>, d: Domain)
    requires ReachableFromAny(DepGraph(repo), start, d)
    ensures ReachableFromAny(ManifestGraph(repo), start + more, d)
  {
    var s :| s in start && Reaches(DepGraph(repo), s, d);
    var p :| IsPath(DepGraph(repo), s, d, p);
    DepPathIsManifestPath(repo, s, d, p);
    assert s in start + more;
  }

  lemma AddDependenciesReachable(repo: Repository, start: set<Domain>, d: Domain)
    requires Resolves(repo, d) && ReachableFromAny(DepGraph(repo), start, d)
    ensures forall x :: x in AllDependencies(repo, d) ==> ReachableFromAny(DepGraph(repo), start, x) && x in repo
  {
    var g := DepGraph(repo);
    SearchSound(repo, d);
    var s :| s in start && Reaches(g, s, d);
    forall x | x in AllDependencies(repo, d)
      ensures ReachableFromAny(g, start, x)
    {
      ReachesTrans(g, s, d, x);
    }
  }

  /** Domains that are all processed are closed under dependencies, so nothing reachable
      from the start is missing. */
  lemma ProcessedIsComplete(repo: Repository, start: set<Domain>, domains: set<Domain>, cache: set<Domain>)
    requires start <= domains && forall d :: d in domains ==> Processed(repo, domains, cache, d)
    ensures forall d :: ReachableFromAny(DepGraph(repo), start, d) ==> d in domains
  {
    var g := DepGraph(repo);
    forall d | d in domains
      ensures Succ(g, d) <= domains
    {
      if d in repo {
        SearchSound(repo, d);
        forall x | x in Succ(g, d)
          ensures x in domains
        {
          EdgeReaches(g, d, x);
          AllDependenciesExact(repo, d);
        }
      }
    }
    forall d | ReachableFromAny(g, start, d)
      ensures d in domains
    {
      var s :| s in start && Reaches(g, s, d);
      ClosedStays(g, domains, s, d);
    }
  }

  /** `async_get_integrations` for a whole request, then one pass over the manifests found:
      they enter the cache, and neighbours missing from it are requested next. */
  method ReadManifests(repo: Repository, request: set<Domain>, known: set<Domain>)
    returns (cache: set<Domain>, additional: set<Domain>)
    requires known <= repo.Keys
    ensures cache == known + request * repo.Keys
    ensures forall x :: x in additional ==> HasPredIn(ManifestGraph(repo), request * repo.Keys, x)
    ensures additional !! known
    ensures forall d :: d in request * repo.Keys ==> Followed(repo, cache, additional, d)
  {
    cache, additional := known, {};
    var todo := request * repo.Keys;
    while todo != {}
      invariant todo <= request * repo.Keys
      invariant cache == known + (request * repo.Keys - todo)
      invariant additional !! known
      invariant forall x :: x in additional ==> HasPredIn(ManifestGraph(repo), request * repo.Keys, x)
      invariant forall d :: d in request * repo.Keys - todo ==> Followed(repo, cache, additional, d)
      decreases |todo|
    {
      var d :| d in todo;
      ghost var cache1, additional1 := cache, additional;
      cache := cache + {d};
      assert Succ(ManifestGraph(repo), d) == Deps(repo, d) + After(repo, d);
      additional := additional + (ToSet(repo[d].dependencies) + repo[d].afterDependencies - cache);
      todo := todo - {d};
      assert Followed(repo, cache, additional, d);
      forall e | e in request * repo.Keys - todo
        ensures Followed(repo, cache, additional, e)
      {
        assert e != d ==> Followed(repo, cache1, additional1, e);
      }
    }
  }

  /** Every element of `xs` is a successor of some element of `s`. */
  ghost predicate AllHavePred(g: Graph, s: set<Domain>, xs: set<Domain>) {
    forall x :: x in xs ==> HasPredIn(g, s, x)
  }

  /** Every successor of an element of `s` is in `xs`. */
  ghost predicate AllSuccIn(g: Graph, s: set<Domain>, xs: set<Domain>) {
    forall d :: d in s ==> Succ(g, d) <= xs
  }

  lemma OneMore(g: Graph, s: set<Domain>, d: Domain, xs: set<Domain>, ys: set<Domain>)
    requires AllHavePred(g, s, xs) && AllSuccIn(g, s, ys)
    ensures AllHavePred(g, s + {d}, xs + Succ(g, d)) && AllSuccIn(g, s + {d}, ys + Succ(g, d))
  {
    forall x | x in xs + Succ(g, d)
      ensures HasPredIn(g, s + {d}, x)
    {
      if x in xs {
        assert HasPredIn(g, s, x);
        var e :| e in s && x in Succ(g, e);
        assert e in s + {d};
      } else {
        assert d in s + {d};
      }
    }
  }

  /** The elements of a set as a list, in any order. */
  method Listed(s: set<Domain>) returns (xs: seq<Domain>)
    ensures forall x :: x in xs <==> x in s
  {
    xs := [];
    var todo := s;
    while todo != {}
      invariant forall x :: x in s <==> x in xs || x in todo
      decreases |todo|
    {
      var x :| x in todo;
      xs, todo := xs + [x], todo - {x};
    }
  }

  /** The final loop over the integrations of one round: every dependency that is new
      becomes a domain to be set up and to be resolved. */
  method AddDependencies(allDependencies: Graph, process: seq<Domain>, domains0: set<Domain>)
    returns (domains: set<Domain>, toResolve: set<Domain>)
    ensures domains0 <= domains && toResolve == domains - domains0
    ensures forall x :: x in toResolve ==> exists i :: 0 <= i < |process| && x in Succ(allDependencies, process[i])
    ensures forall i :: 0 <= i < |process| ==> Succ(allDependencies, process[i]) <= domains
  {
    domains, toResolve := domains0, {};
    for k := 0 to |process|
      invariant domains0 <= domains && toResolve == domains - domains0
      invariant forall x :: x in toResolve ==> exists i :: 0 <= i < |process| && x in Succ(allDependencies, process[i])
      invariant forall i :: 0 <= i < k ==> Succ(allDependencies, process[i]) <= domains
    {
      var unseen := Succ(allDependencies, process[k]) - domains;
      domains, toResolve := domains + unseen, toResolve + unseen;
    }
  }

  // --------------------------------------------------------------- one round

  /** The variables of the loop: `domains_to_setup`, `to_resolve`,
      `additional_manifests_to_load` and the keys of `integration_cache`. */
  datatype Work = Work(domains: set<Domain>, toResolve: set<Domain>, additional: set<Domain>, cache: set<Domain>) {
    function Request(): set<Domain> {
      toResolve + additional
    }
  }

  ghost predicate WorkInv(repo: Repository, start: set<Domain>, preload: set<Domain>, w: Work) {
    && start <= w.domains && w.toResolve <= w.domains && w.cache <= repo.Keys
    && (forall d :: d in w.domains ==> ReachableFromAny(DepGraph(repo), start, d))
    && (forall d :: d in w.domains - w.toResolve ==> Processed(repo, w.domains, w.cache, d))
    && (forall d :: d in w.cache + w.Request() ==> ReachableFromAny(ManifestGraph(repo), start + preload, d))
    && preload * repo.Keys <= w.cache + w.Request()
    && (forall d :: d in w.cache - w.Request() ==> Followed(repo, w.cache, w.Request(), d))
  }

  /** The manifest part of a round. */
  ghost predicate ReadRound(repo: Repository, w0: Work, w: Work) {
    var read := w0.cache + w0.Request() * repo.Keys;
    && read <= w.cache <= repo.Keys
    && w.additional !! w0.cache
    && (forall x :: x in w.additional + w.cache - read ==> HasPredIn(ManifestGraph(repo), w0.Request() * repo.Keys, x))
    && (forall d :: d in w0.Request() * repo.Keys ==> Followed(repo, read, w.additional, d))
    && w.cache <= read + w.additional
  }

  /** The dependency part of a round. */
  ghost predicate ResolveRound(repo: Repository, w0: Work, w: Work) {
    var process := w0.toResolve * repo.Keys;
    && process <= w.cache && w0.cache <= w.cache
    && (forall d :: d in process ==> Resolves(repo, d) && AllDependencies(repo, d) <= w.domains)
    && w.domains == w0.domains + w.toResolve && w.toResolve !! w0.domains
    && (forall x :: x in w.toResolve ==> exists d :: d in process && x in AllDependencies(repo, d))
  }

  lemma RoundKeepsDomains(repo: Repository, start: set<Domain>, preload: set<Domain>, w0: Work, w: Work)
    requires WorkInv(repo, start, preload, w0) && ResolveRound(repo, w0, w)
    ensures w.toResolve <= repo.Keys
    ensures forall d :: d in w.domains ==> ReachableFromAny(DepGraph(repo), start, d)
    ensures forall d :: d in w.domains - w.toResolve ==> Processed(repo, w.domains, w.cache, d)
  {
    forall x | x in w.toResolve
      ensures ReachableFromAny(DepGraph(repo), start, x) && x in repo
    {
      var d :| d in w0.toResolve * repo.Keys && x in AllDependencies(repo, d);
      AddDependenciesReachable(repo, start, d);
    }
    forall d | d in w.domains - w.toResolve
      ensures Processed(repo, w.domains, w.cache, d)
    {
      if d !in w0.toResolve { assert Processed(repo, w0.domains, w0.cache, d); }
    }
  }

  lemma ParentReachable(repo: Repository, start: set<Domain>, s: set<Domain>, x: Domain)
    requires forall d :: d in s ==> ReachableFromAny(ManifestGraph(repo), start, d)
    requires HasPredIn(ManifestGraph(repo), s, x)
    ensures ReachableFromAny(ManifestGraph(repo), start, x)
  {
    var g := ManifestGraph(repo);
    var d :| d in s && x in Succ(g, d);
    var a :| a in start && Reaches(g, a, d);
    EdgeReaches(g, d, x);
    ReachesTrans(g, a, d, x);
  }

  lemma RoundKeepsReach(repo: Repository, start: set<Domain>, preload: set<Domain>, w0: Work, w: Work)
    requires WorkInv(repo, start, preload, w0) && ReadRound(repo, w0, w)
    ensures forall x :: x in w.cache + w.additional ==> ReachableFromAny(ManifestGraph(repo), start + preload, x)
  {
    forall x | x in w.cache + w.additional
      ensures ReachableFromAny(ManifestGraph(repo), start + preload, x)
    {
      if x !in w0.cache + w0.Request() {
        assert x in w.additional + w.cache - (w0.cache + w0.Request() * repo.Keys);
        ParentReachable(repo, start + preload, w0.Request() * repo.Keys, x);
      }
    }
  }

  lemma RoundKeepsFollowed(repo: Repository, w0: Work, w: Work)
    requires ReadRound(repo, w0, w)
    requires forall d :: d in w0.cache - w0.Request() ==> d in repo && Followed(repo, w0.cache, w0.Request(), d)
    ensures forall d :: d in w.cache - w.Request() ==> Followed(repo, w.cache, w.Request(), d)
  {
    forall d | d in w.cache - w.Request()
      ensures Followed(repo, w.cache, w.Request(), d)
    {
      if d in w0.Request() {
        assert Followed(repo, w0.cache + w0.Request() * repo.Keys, w.additional, d);
      } else {
        assert d in w0.cache - w0.Request();
        assert Followed(repo, w0.cache, w0.Request(), d);
      }
    }
  }

  lemma RoundKeeps(repo: Repository, start: set<Domain>, preload: set<Domain>, w0: Work, w: Work)
    requires WorkInv(repo, start, preload, w0) && ReadRound(repo, w0, w) && ResolveRound(repo, w0, w)
    ensures WorkInv(repo, start, preload, w)
  {
    RoundKeepsDomains(repo, start, preload, w0, w);
    RoundKeepsReach(repo, start, preload, w0, w);
    RoundKeepsFollowed(repo, w0, w);
    forall d | d in w.toResolve
      ensures ReachableFromAny(ManifestGraph(repo), start + preload, d)
    {
      DepReachIsManifestReach(repo, start, preload, d);
    }
  }

  // ------------------------------------------------------------- termination

  /** The measure of the loop, compared lexicographically. */
  ghost predicate Smaller(repo: Repository, w: Work, w0: Work) {
    var c, c0 := |repo.Keys - w.cache|, |repo.Keys - w0.cache|;
    var d, d0 := |repo.Keys - w.domains|, |repo.Keys - w0.domains|;
    c < c0 ||
    (c == c0 &&
     (d < d0 || (d == d0 && Kind(repo, w.cache, w.Request()) < Kind(repo, w0.cache, w0.Request()))))
  }

  /** A round that finds neither a new manifest nor a new domain only asks for manifests it
      does not have; if it asked for those already, it asks for nothing any more. */
  lemma IdleRound(repo: Repository, w0: Work, w: Work)
    requires ReadRound(repo, w0, w) && w0.Request() != {}
    requires w.toResolve == {} && w.cache == w0.cache
    ensures Kind(repo, w.cache, w.Request()) < Kind(repo, w0.cache, w0.Request())
  {
    var read := w0.cache + w0.Request() * repo.Keys;
    assert w0.Request() * repo.Keys - w0.cache == {};
    assert w.Request() == w.additional;
    if w0.Request() * repo.Keys == {} {
      assert forall x :: x in w.additional ==> x in w.additional + w.cache - read;
      assert w.additional == {};
    }
  }

  lemma RoundDecreases(repo: Repository, w0: Work, w: Work)
    requires w0.cache <= w.cache <= repo.Keys
    requires w.domains == w0.domains + w.toResolve && w.toResolve !! w0.domains && w.toResolve <= repo.Keys
    requires w.toResolve == {} && w.cache == w0.cache ==>
      Kind(repo, w.cache, w.Request()) < Kind(repo, w0.cache, w0.Request())
    ensures Smaller(repo, w, w0)
  {
    UncachedShrinks(repo.Keys, w0.cache, w.cache);
    UncachedShrinks(repo.Keys, w0.domains, w.domains);
    if w.cache != w0.cache {
      assert w.cache - w0.cache == (w.cache - w0.cache) * repo.Keys != {};
    } else if w.toResolve != {} {
      assert (w.domains - w0.domains) * repo.Keys == w.toResolve;
    } else {
      assert w.domains == w0.domains;
    }
  }

  // --------------------------------------------------------------- at the end

  lemma {:induction false} FoundStays(repo: Repository, cache: set<Domain>, a: Domain, b: Domain, p: seq<Domain>)
    requires IsPath(ManifestGraph(repo), a, b, p) && b in repo && (a in repo ==> a in cache)
    requires cache <= repo.Keys && forall d :: d in cache ==> Followed(repo, cache, {}, d)
    ensures b in cache
    decreases |p|
  {
    if |p| > 1 {
      assert p[1] in Succ(ManifestGraph(repo), p[0]);
      assert Followed(repo, cache, {}, a);
      FoundStays(repo, cache, p[1], b, p[1..]);
    }
  }

  lemma CacheIsComplete(repo: Repository, start: set<Domain>, preload: set<Domain>, w: Work)
    requires WorkInv(repo, start, preload, w) && w.toResolve == {} == w.additional
    ensures forall d :: d in w.cache <==> d in repo && ReachableFromAny(ManifestGraph(repo), start + preload, d)
  {
    assert w.Request() == {};
    forall d | d in repo && ReachableFromAny(ManifestGraph(repo), start + preload, d)
      ensures d in w.cache
    {
      var s :| s in start + preload && Reaches(ManifestGraph(repo), s, d);
      var p :| IsPath(ManifestGraph(repo), s, d, p);
      if s in start { assert Processed(repo, w.domains, w.cache, s); }
      FoundStays(repo, w.cache, s, d, p);
    }
  }

  lemma SelfReachable(g: Graph, start: set<Domain>)
    ensures forall d :: d in start ==> ReachableFromAny(g, start, d)
  {
    forall d | d in start ensures ReachableFromAny(g, start, d) { ReachesRefl(g, d); }
  }

  lemma InitialWork(repo: Repository, start: set<Domain>, preload: set<Domain>)
    ensures WorkInv(repo, start, preload, Work(start, start, preload, {}))
  {
    var w := Work(start, start, preload, {});
    assert w.domains - w.toResolve == {} && w.cache - w.Request() == {} && w.cache + w.Request() == start + preload;
    SelfReachable(DepGraph(repo), start);
    SelfReachable(ManifestGraph(repo), start + preload);
  }

  lemma RoundAdvances(repo: Repository, start: set<Domain>, preload: set<Domain>, w0: Work, w: Work)
    requires WorkInv(repo, start, preload, w0) && ReadRound(repo, w0, w) && ResolveRound(repo, w0, w)
    requires w0.Request() != {}
    ensures WorkInv(repo, start, preload, w) && Smaller(repo, w, w0)
  {
    RoundKeepsDomains(repo, start, preload, w0, w);
    RoundKeeps(repo, start, preload, w0, w);
    if w.toResolve == {} && w.cache == w0.cache { IdleRound(repo, w0, w); }
    RoundDecreases(repo, w0, w);
  }

  ghost predicate SomeUnresolved(repo: Repository, start: set<Domain>) {
    exists d :: d in repo && !Resolves(repo, d) && ReachableFromAny(DepGraph(repo), start, d)
  }

  lemma UnresolvedIsReachable(repo: Repository, start: set<Domain>, preload: set<Domain>, w: Work)
    requires WorkInv(repo, start, preload, w)
    requires exists d :: d in w.toResolve * repo.Keys && !Resolves(repo, d)
    ensures SomeUnresolved(repo, start)
  {
    var d :| d in w.toResolve * repo.Keys && !Resolves(repo, d);
    assert d in w.domains;
  }

  lemma FinishedWork(repo: Repository, start: set<Domain>, preload: set<Domain>, w: Work)
    requires WorkInv(repo, start, preload, w) && w.toResolve == {} == w.additional
    ensures !SomeUnresolved(repo, start)
    ensures forall d :: d in w.domains <==> ReachableFromAny(DepGraph(repo), start, d)
    ensures forall d :: d in w.domains ==> Processed(repo, w.domains, w.cache, d)
  {
    assert w.domains - w.toResolve == w.domains;
    ProcessedIsComplete(repo, start, w.domains, w.cache);
    forall d | d in repo && ReachableFromAny(DepGraph(repo), start, d)
      ensures Resolves(repo, d)
    {
      assert d in w.domains && Processed(repo, w.domains, w.cache, d);
    }
  }

  // ------------------------------------------------------------ the whole loop

  /** One round of the loop; `ok` is false when an integration cannot be resolved. */
  method RunRound(repo: Repository, w0: Work) returns (ok: bool, w: Work)
    requires w0.cache <= repo.Keys
    ensures !ok ==> exists d :: d in w0.toResolve * repo.Keys && !Resolves(repo, d)
    ensures ok ==> ReadRound(repo, w0, w) && ResolveRound(repo, w0, w)
  {
    var cache, additional := ReadManifests(repo, w0.Request(), w0.cache);
    ghost var read := cache;
    var process := w0.toResolve * repo.Keys;
    // neighbours of the integrations to be resolved are fetched right away
    var manifestDeps := set d, x | d in process && x in Deps(repo, d) + After(repo, d) :: x;
    cache := cache + (manifestDeps - cache) * repo.Keys;
    forall x | x in cache - read
      ensures x in additional
    {
      var d :| d in process && x in Deps(repo, d) + After(repo, d);
      assert d in w0.Request() * repo.Keys && Followed(repo, read, additional, d);
      assert x in (Deps(repo, d) + After(repo, d)) * repo.Keys;
    }
    w := w0;
    ok := forall d :: d in process ==> Resolves(repo, d);
    if ok {
      var all := map d | d in process :: AllDependencies(repo, d);
      var list := Listed(process);
      var domains, toResolve := AddDependencies(all, list, w0.domains);
      assert forall d :: d in process ==> Succ(all, d) == AllDependencies(repo, d);
      assert forall i :: 0 <= i < |list| ==> list[i] in process;
      w := Work(domains, toResolve, additional, cache);
    }
  }

  /** The cache has the sources, and with every integration its dependencies and
      after-dependencies, as far as they have manifests. */
  predicate ClosedCache(repo: Repository, sources: set<Domain>, cache: set<Domain>) {
    && sources * repo.Keys <= cache
    && forall d :: d in cache ==>
         d in repo && ToSet(repo[d].dependencies) * repo.Keys <= cache && repo[d].afterDependencies * repo.Keys <= cache
  }

  lemma CacheIsClosed(repo: Repository, sources: set<Domain>, cache: set<Domain>)
    requires forall d :: d in cache <==> d in repo && ReachableFromAny(ManifestGraph(repo), sources, d)
    ensures ClosedCache(repo, sources, cache)
  {
    var g := ManifestGraph(repo);
    forall d | d in sources * repo.Keys ensures d in cache { ReachesRefl(g, d); }
    forall d, x | d in cache && x in (Deps(repo, d) + After(repo, d)) * repo.Keys ensures x in cache {
      var s :| s in sources && Reaches(g, s, d);
      assert x in Succ(g, d);
      EdgeReaches(g, d, x);
      ReachesTrans(g, s, d, x);
    }
    forall d | d in cache ensures ToSet(repo[d].dependencies) * repo.Keys <= cache {
      assert Deps(repo, d) * repo.Keys <= (Deps(repo, d) + After(repo, d)) * repo.Keys;
    }
    forall d | d in cache ensures repo[d].afterDependencies * repo.Keys <= cache {
      assert After(repo, d) * repo.Keys <= (Deps(repo, d) + After(repo, d)) * repo.Keys;
    }
  }

  /** `_async_resolve_domains_to_setup`. It terminates; it raises exactly when a domain that
      can be reached from the configuration has a manifest but does not resolve; otherwise
      the domains to be set up are exactly those reachable from the configured ones along
      dependencies, and the manifest cache holds exactly the integrations reachable along
      dependencies and after-dependencies. */
  method ResolveDomainsToSetup(repo: Repository, start: set<Domain>, preload: set<Domain>)
    returns (r: Resolution)
    ensures r.Raises? <==> SomeUnresolved(repo, start)
    ensures r.Domains? ==> forall d :: d in r.domains <==> ReachableFromAny(DepGraph(repo), start, d)
    ensures r.Domains? ==> forall d :: d in r.domains ==> Processed(repo, r.domains, r.cache, d)
    ensures r.Domains? ==>
      forall d :: d in r.cache <==> d in repo && ReachableFromAny(ManifestGraph(repo), start + preload, d)
    ensures r.Domains? ==> ClosedCache(repo, start + preload, r.cache)
  {
    var w := Work(start, start, preload, {});
    InitialWork(repo, start, preload);
    assert WorkInv(repo, start, preload, w);
    while w.toResolve != {} || w.additional != {}
      invariant WorkInv(repo, start, preload, w)
      decreases |repo.Keys - w.cache|, |repo.Keys - w.domains|, Kind(repo, w.cache, w.Request())
    {
      var ok, next := RunRound(repo, w);
      if !ok {
        UnresolvedIsReachable(repo, start, preload, w);
        return Raises;
      }
      assert w.Request() != {};
      RoundAdvances(repo, start, preload, w, next);
      w := next;
    }
    FinishedWork(repo, start, preload, w);
    CacheIsComplete(repo, start, preload, w);
    CacheIsClosed(repo, start + preload, w.cache);
    return Domains(w.domains, w.cache);
  }

  // -------------------------------------------------------------------- stages

  /** Promotion of dependencies to stage 1, given the `all_dependencies` of the cached
      integrations: stage 1 ends up with exactly the domains to be set up that can be
      reached from an original stage 1 integration that is to be set up itself. */
  method PromoteStageOne(domains: set<Domain>, allDependencies: Graph, original: set<Domain>)
    returns (stage1: set<Domain>)
    requires Closed(allDependencies, domains)
    ensures stage1 <= domains && Closed(allDependencies, stage1) && original * domains <= stage1
    ensures forall d :: d in stage1 ==> ReachableFromAny(allDependencies, original * domains, d)
  {
    stage1 := {};
    var promotion := original;
    SelfReachable(allDependencies, original * domains);
    while promotion != {}
      invariant stage1 <= domains
      invariant forall d :: d in (promotion + stage1) * domains ==>
        ReachableFromAny(allDependencies, original * domains, d)
      invariant original * domains <= stage1 + promotion
      invariant forall d :: d in stage1 ==> Succ(allDependencies, d) <= stage1 + promotion
      decreases |domains - stage1|, |promotion|
    {
      ghost var before, promotion0 := stage1, promotion;
      var generation := Listed(promotion);
      stage1, promotion := PromoteOnce(domains, allDependencies, stage1, generation);
      forall d | d in (promotion + stage1) * domains
        ensures ReachableFromAny(allDependencies, original * domains, d)
      {
        if d !in (promotion0 + before) * domains {
          assert HasPredIn(allDependencies, stage1 - before, d);
          var x :| x in stage1 - before && d in Succ(allDependencies, x);
          ReachOneMore(allDependencies, original * domains, x, d);
        }
      }
      SubsetCard(domains - stage1, domains - before);
      if stage1 == before { assert promotion == {}; }
    }
  }

  lemma ReachOneMore(g: Graph, start: set<Domain>, x: Domain, d: Domain)
    requires ReachableFromAny(g, start, x) && d in Succ(g, x)
    ensures ReachableFromAny(g, start, d)
  {
    var s :| s in start && Reaches(g, s, x);
    EdgeReaches(g, x, d);
    ReachesTrans(g, s, x, d);
  }

  /** The inner loop over one generation of promoted domains. */
  method PromoteOnce(domains: set<Domain>, allDependencies: Graph, before: set<Domain>, generation: seq<Domain>)
    returns (stage1: set<Domain>, promotion: set<Domain>)
    requires before <= domains
    ensures before <= stage1 <= domains
    ensures forall x :: x in stage1 - before ==> x in generation
    ensures forall i :: 0 <= i < |generation| && generation[i] in domains ==> generation[i] in stage1
    ensures AllHavePred(allDependencies, stage1 - before, promotion)
    ensures AllSuccIn(allDependencies, stage1 - before, promotion)
  {
    stage1, promotion := before, {};
    ghost var added := {};
    for k := 0 to |generation|
      invariant stage1 == before + added && added !! before && stage1 <= domains
      invariant forall x :: x in added ==> x in generation
      invariant forall i :: 0 <= i < k && generation[i] in domains ==> generation[i] in stage1
      invariant AllHavePred(allDependencies, added, promotion) && AllSuccIn(allDependencies, added, promotion)
    {
      var d := generation[k];
      if d in domains && d !in stage1 {
        OneMore(allDependencies, added, d, promotion, promotion);
        stage1, added := stage1 + {d}, added + {d};
        promotion := promotion + Succ(allDependencies, d);
      }
    }
    assert stage1 - before == added;
  }

  /** The graph of `all_dependencies` of the cached integrations that resolved. */
  function AllDependencyGraph(repo: Repository, cache: set<Domain>): Graph {
    map d | d in cache && Resolves(repo, d) :: AllDependencies(repo, d)
  }

  datatype Stages = Stages(before: seq<set<Domain>>, stage1: set<Domain>, stage2: set<Domain>)

  function Union(groups: seq<set<Domain>>): set<Domain> {
    if groups == [] then {} else groups[0] + Union(groups[1..])
  }

  /** The pre-stage groups and what is left over for stage 2. */
  method Partition(domains: set<Domain>, stage1: set<Domain>, groups: seq<set<Domain>>)
    returns (before: seq<set<Domain>>, stage2: set<Domain>)
    requires stage1 <= domains
    ensures |before| == |groups| && forall i :: 0 <= i < |groups| ==> before[i] == groups[i] * domains
    ensures domains == Union(before) + stage1 + stage2 && stage2 !! Union(before) + stage1
  {
    before := seq(|groups|, i requires 0 <= i < |groups| => groups[i] * domains);
    stage2 := domains - stage1;
    for i := 0 to |before|
      invariant stage2 == domains - stage1 - Union(before[..i])
      invariant Union(before[..i]) <= domains
    {
      UnionSnoc(before, i);
      stage2 := stage2 - before[i];
    }
    assert before[..|before|] == before;
  }

  /** The partition into stages of `_async_set_up_integrations`. Every domain is in some
      stage; nothing is left for stage 2 that an earlier stage sets up; and no domain of
      stage 1 depends, directly or not, on a domain outside stage 1. */
  method SetUpStages(repo: Repository, domains: set<Domain>, cache: set<Domain>,
                     groups: seq<set<Domain>>, original: set<Domain>) returns (r: Stages)
    requires forall d :: d in domains ==> Processed(repo, domains, cache, d)
    ensures |r.before| == |groups| && forall i :: 0 <= i < |groups| ==> r.before[i] == groups[i] * domains
    ensures domains == Union(r.before) + r.stage1 + r.stage2
    ensures r.stage2 !! Union(r.before) + r.stage1
    ensures forall d :: d in r.stage1 <==> ReachableFromAny(DepGraph(repo), original * domains, d)
    ensures forall d, x :: d in r.stage1 && Reaches(DepGraph(repo), d, x) ==> x in r.stage1
  {
    var stage1 := StageOne(repo, domains, cache, original);
    var before, stage2 := Partition(domains, stage1, groups);
    return Stages(before, stage1, stage2);
  }

  method StageOne(repo: Repository, domains: set<Domain>, cache: set<Domain>, original: set<Domain>)
    returns (stage1: set<Domain>)
    requires forall d :: d in domains ==> Processed(repo, domains, cache, d)
    ensures stage1 <= domains
    ensures forall d :: d in stage1 <==> ReachableFromAny(DepGraph(repo), original * domains, d)
    ensures forall d, x :: d in stage1 && Reaches(DepGraph(repo), d, x) ==> x in stage1
  {
    ProcessedGraphClosed(repo, domains, cache);
    stage1 := PromoteStageOne(domains, AllDependencyGraph(repo, cache), original);
    StageOneExact(repo, domains, cache, original, stage1);
  }

  lemma {:induction false} UnionSnoc(groups: seq<set<Domain>>, i: nat)
    requires i < |groups|
    ensures Union(groups[..i + 1]) == Union(groups[..i]) + groups[i]
  {
    if i > 0 {
      assert groups[..i + 1][1..] == groups[1..][..i] && groups[..i][1..] == groups[1..][..i - 1];
      UnionSnoc(groups[1..], i - 1);
    } else {
      assert groups[..1][1..] == [] && groups[..0] == [];
    }
  }

  lemma ProcessedGraphClosed(repo: Repository, domains: set<Domain>, cache: set<Domain>)
    requires forall d :: d in domains ==> Processed(repo, domains, cache, d)
    ensures Closed(AllDependencyGraph(repo, cache), domains)
  {
    forall d | d in domains
      ensures Succ(AllDependencyGraph(repo, cache), d) <= domains
    {
      assert Processed(repo, domains, cache, d);
    }
  }

  lemma {:induction false} PathInClosure(repo: Repository, cache: set<Domain>, a: Domain, b: Domain, p: seq<Domain>)
    requires IsPath(AllDependencyGraph(repo, cache), a, b, p)
    ensures Reaches(DepGraph(repo), a, b)
    decreases |p|
  {
    if |p| == 1 {
      ReachesRefl(DepGraph(repo), a);
    } else {
      assert p[1] in Succ(AllDependencyGraph(repo, cache), p[0]);
      AllDependenciesExact(repo, a);
      PlusIsReaches(DepGraph(repo), a, p[1]);
      PathInClosure(repo, cache, p[1], b, p[1..]);
      ReachesTrans(DepGraph(repo), a, p[1], b);
    }
  }

  /** A set closed under `all_dependencies` is closed under dependencies. */
  lemma ClosureIsClosed(repo: Repository, domains: set<Domain>, cache: set<Domain>, stage1: set<Domain>)
    requires forall d :: d in domains ==> Processed(repo, domains, cache, d)
    requires stage1 <= domains && Closed(AllDependencyGraph(repo, cache), stage1)
    ensures Closed(DepGraph(repo), stage1)
  {
    forall d | d in stage1
      ensures Succ(DepGraph(repo), d) <= stage1
    {
      assert Processed(repo, domains, cache, d);
      if d in repo {
        assert Succ(AllDependencyGraph(repo, cache), d) <= stage1;
        AllDependenciesExact(repo, d);
        forall x | x in Succ(DepGraph(repo), d) ensures x in stage1 {
          EdgeReaches(DepGraph(repo), d, x);
        }
      }
    }
  }

  lemma ClosureReaches(repo: Repository, cache: set<Domain>, start: set<Domain>, d: Domain)
    requires ReachableFromAny(AllDependencyGraph(repo, cache), start, d)
    ensures ReachableFromAny(DepGraph(repo), start, d)
  {
    var s :| s in start && Reaches(AllDependencyGraph(repo, cache), s, d);
    var p :| IsPath(AllDependencyGraph(repo, cache), s, d, p);
    PathInClosure(repo, cache, s, d, p);
  }

  lemma StageOneExact(repo: Repository, domains: set<Domain>, cache: set<Domain>, original: set<Domain>,
    stage1: set<Domain>)
    requires forall d :: d in domains ==> Processed(repo, domains, cache, d)
    requires stage1 <= domains && Closed(AllDependencyGraph(repo, cache), stage1) && original * domains <= stage1
    requires forall d :: d in stage1 ==> ReachableFromAny(AllDependencyGraph(repo, cache), original * domains, d)
    ensures forall d :: d in stage1 <==> ReachableFromAny(DepGraph(repo), original * domains, d)
    ensures forall d, x :: d in stage1 && Reaches(DepGraph(repo), d, x) ==> x in stage1
  {
    ClosureIsClosed(repo, domains, cache, stage1);
    forall d, x | d in stage1 && Reaches(DepGraph(repo), d, x)
      ensures x in stage1
    {
      ClosedStays(DepGraph(repo), stage1, d, x);
    }
    forall d | d in stage1
      ensures ReachableFromAny(DepGraph(repo), original * domains, d)
    {
      ClosureReaches(repo, cache, original * domains, d);
    }
  }
}
