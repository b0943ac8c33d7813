/** The dependency search of homeassistant/loader.py and the memoised
    `Integration.resolve_dependencies` on top of it. */
module Loader {
  import opened Graphs
  import opened Options

  type Requirement = string

  /** What an integration's manifest declares. `dependencies` is listed in the order in
      which the integrations come back from the manifest cache; a search visits every
      domain at most once, so an arbitrary order here covers every order there. */
  datatype Integration = Integration(
    dependencies: seq<Domain>,
    afterDependencies: set<Domain>,
    requirements: seq<Requirement>,
    manifestKeys: set<string>,
    builtIn: bool)

  type Repository = map<Domain, Integration>

  function ToSet<T>(xs: seq<T>): set<T> {
    set x | x in xs
  }

  function Deps(repo: Repository, d: Domain): set<Domain>
    requires d in repo
  {
    ToSet(repo[d].dependencies)
  }

  function After(repo: Repository, d: Domain): set<Domain>
    requires d in repo
  {
    repo[d].afterDependencies
  }

  /** The graph of hard dependencies. */
  function DepGraph(repo: Repository): Graph {
    map d | d in repo :: Deps(repo, d)
  }

  // ---------------------------------------------------------------- the search

  datatype Outcome =
    | Loaded(loaded: set<Domain>)
    | NotFound(domain: Domain)
    | InvalidDomain(domain: Domain)
    | Circular(from: set<Domain>, to: Domain)

  /** What looking up a domain without a manifest raises. */
  function LookupError(d: Domain): Outcome {
    if '.' in d.name then InvalidDomain(d) else NotFound(d)
  }

  /** The recursive part of the search: `loading` is the stack of domains whose
      dependencies are being walked, `loaded` the memo of finished domains. */
  function Visit(repo: Repository, d: Domain, loading: set<Domain>, loaded: set<Domain>): (r: Outcome)
    requires d in repo && d !in loading && d !in loaded
    ensures r.Loaded? ==> loaded <= r.loaded
    decreases repo.Keys - loading - loaded, 0
  {
    if repo[d].dependencies == [] then Loaded(loaded + {d})
    else
      assert d in repo.Keys - loading - loaded;
      var r := VisitAll(repo, d, repo[d].dependencies, loading + {d}, loaded);
      if r.Loaded? then Loaded(r.loaded + {d}) else r
  }

  function VisitAll(repo: Repository, d: Domain, pending: seq<Domain>,
                    loading: set<Domain>, loaded: set<Domain>): (r: Outcome)
    ensures r.Loaded? ==> loaded <= r.loaded
    decreases repo.Keys - loading - loaded, 1, |pending|
  {
    if pending == [] then Loaded(loaded)
    else
      var x := pending[0];
      if x !in repo then LookupError(x)
      else if loading * After(repo, x) != {} then Circular(loading * After(repo, x), x)
      else if x in loaded then VisitAll(repo, d, pending[1..], loading, loaded)
      else if x in loading then Circular({x}, d)
      else
        var r := Visit(repo, x, loading, loaded);
        if r.Loaded? then VisitAll(repo, d, pending[1..], loading, r.loaded) else r
  }

  function Search(repo: Repository, root: Domain): Outcome
    requires root in repo
  {
    Visit(repo, root, {}, {})
  }

  /** The search from `d` succeeds, which is what `resolve_dependencies` reports. */
  predicate Resolves(repo: Repository, d: Domain) {
    d in repo && Search(repo, d).Loaded?
  }

  lemma ResolvesIsListed(repo: Repository, d: Domain)
    ensures Resolves(repo, d) ==> d in repo
  {
  }

  // ------------------------------------------------- what a successful search means

  /** `s` only holds domains with a manifest, is closed under dependencies and acyclic. */
  ghost predicate Explored(repo: Repository, s: set<Domain>) {
    && s <= repo.Keys
    && Closed(DepGraph(repo), s)
    && Acyclic(DepGraph(repo), s)
  }

  /** Everything in `s` can be reached from `d` and names nothing of `loading` as an
      after-dependency. */
  ghost predicate ReachedClean(repo: Repository, d: Domain, loading: set<Domain>, s: set<Domain>)
    requires s <= repo.Keys
  {
    forall x :: x in s ==> Reaches(DepGraph(repo), d, x) && After(repo, x) !! loading
  }

  lemma {:induction false} VisitSound(repo: Repository, d: Domain, loading: set<Domain>, loaded: set<Domain>)
    requires d in repo && d !in loading && d !in loaded
    requires Explored(repo, loaded) && loading !! loaded
    requires Visit(repo, d, loading, loaded).Loaded?
    ensures var l := Visit(repo, d, loading, loaded).loaded;
            && d in l && Explored(repo, l) && loading !! l
            && (forall x :: x in l - loaded ==> Reaches(DepGraph(repo), d, x))
            && (forall x :: x in l - loaded - {d} ==> After(repo, x) !! loading + {d})
    decreases repo.Keys - loading - loaded, 0
  {
    var g := DepGraph(repo);
    ReachesRefl(g, d);
    if repo[d].dependencies == [] {
      AddOnTop(g, loaded, d);
    } else {
      assert d in repo.Keys - loading - loaded;
      VisitAllSound(repo, d, repo[d].dependencies, loading + {d}, loaded);
      var l := VisitAll(repo, d, repo[d].dependencies, loading + {d}, loaded).loaded;
      assert Succ(g, d) == Deps(repo, d) <= l;
      AddOnTop(g, l, d);
    }
  }

  lemma {:induction false} VisitAllSound(repo: Repository, d: Domain, pending: seq<Domain>,
                                         loading: set<Domain>, loaded: set<Domain>)
    requires d in repo && ToSet(pending) <= Deps(repo, d)
    requires Explored(repo, loaded) && loading !! loaded
    requires VisitAll(repo, d, pending, loading, loaded).Loaded?
    ensures var l := VisitAll(repo, d, pending, loading, loaded).loaded;
            && Explored(repo, l) && loading !! l
            && ToSet(pending) <= l
            && ReachedClean(repo, d, loading, l - loaded)
    decreases repo.Keys - loading - loaded, 1, |pending|
  {
    if pending != [] {
      var g, x := DepGraph(repo), pending[0];
      assert x in pending && x in ToSet(pending) && x in Succ(g, d);
      EdgeReaches(g, d, x);
      assert forall y :: y in pending[1..] ==> y in pending;
      if x in loaded {
        VisitAllSound(repo, d, pending[1..], loading, loaded);
      } else {
        VisitSound(repo, x, loading, loaded);
        var l := Visit(repo, x, loading, loaded).loaded;
        VisitAllSound(repo, d, pending[1..], loading, l);
        var m := VisitAll(repo, d, pending[1..], loading, l).loaded;
        forall y | y in m - loaded
          ensures Reaches(g, d, y) && After(repo, y) !! loading
        {
          if y in l {
            ReachesTrans(g, d, x, y);
          }
        }
      }
    }
  }

  // --------------------------------------------------- what a failed search means

  /** Why a search that started in `root` may fail. */
  ghost predicate Witness(repo: Repository, root: Domain, r: Outcome) {
    var g := DepGraph(repo);
    match r
    case Loaded(_) => true
    case NotFound(x) => Reaches(g, root, x) && x !in repo && '.' !in x.name
    case InvalidDomain(x) => Reaches(g, root, x) && x !in repo && '.' in x.name
    case Circular(from, to) =>
      && from != {} && to in repo
      && forall s :: s in from ==>
           && Reaches(g, root, s)
           && (|| (s in Deps(repo, to) && Reaches(g, s, to))
               || (s in After(repo, to) && ReachesPlus(g, s, to)))
  }

  /** Every domain on the stack is reachable from the root and reaches `d`. */
  ghost predicate OnStack(repo: Repository, root: Domain, loading: set<Domain>, d: Domain) {
    && Reaches(DepGraph(repo), root, d)
    && forall s :: s in loading ==> Reaches(DepGraph(repo), root, s) && Reaches(DepGraph(repo), s, d)
  }

  lemma {:induction false} VisitWitness(repo: Repository, root: Domain, d: Domain,
                                        loading: set<Domain>, loaded: set<Domain>)
    requires d in repo && d !in loading && d !in loaded
    requires OnStack(repo, root, loading, d)
    ensures Witness(repo, root, Visit(repo, d, loading, loaded))
    decreases repo.Keys - loading - loaded, 0
  {
    if repo[d].dependencies != [] {
      assert d in repo.Keys - loading - loaded;
      ReachesRefl(DepGraph(repo), d);
      VisitAllWitness(repo, root, d, repo[d].dependencies, loading + {d}, loaded);
    }
  }

  lemma {:induction false} VisitAllWitness(repo: Repository, root: Domain, d: Domain, pending: seq<Domain>,
                                           loading: set<Domain>, loaded: set<Domain>)
    requires d in repo && ToSet(pending) <= Deps(repo, d)
    requires OnStack(repo, root, loading, d)
    ensures Witness(repo, root, VisitAll(repo, d, pending, loading, loaded))
    decreases repo.Keys - loading - loaded, 1, |pending|
  {
    if pending != [] {
      var g, x := DepGraph(repo), pending[0];
      assert x in pending && x in ToSet(pending) && x in Succ(g, d);
      assert forall y :: y in pending[1..] ==> y in pending;
      EdgeReaches(g, d, x);
      ReachesTrans(g, root, d, x);
      forall s | s in loading
        ensures ReachesPlus(g, s, x) && Reaches(g, s, x)
      {
        ReachesThenPlus(g, s, d, x);
        PlusIsReaches(g, s, x);
      }
      if x in repo && loading * After(repo, x) == {} {
        if x in loaded {
          VisitAllWitness(repo, root, d, pending[1..], loading, loaded);
        } else if x !in loading {
          VisitWitness(repo, root, x, loading, loaded);
          var r := Visit(repo, x, loading, loaded);
          if r.Loaded? {
            VisitAllWitness(repo, root, d, pending[1..], loading, r.loaded);
          }
        }
      }
    }
  }

  // ------------------------------------------------------------- main theorems

  ghost predicate ReachableFrom(repo: Repository, root: Domain, s: set<Domain>) {
    forall x :: x in s <==> Reaches(DepGraph(repo), root, x)
  }

  /** On success the search returns exactly the domains reachable from the root; they all
      have a manifest, none lies on a dependency cycle, and no transitive dependency of
      the root names the root as an after-dependency. */
  lemma SearchSound(repo: Repository, root: Domain)
    requires Resolves(repo, root)
    ensures var l := Search(repo, root).loaded;
            && ReachableFrom(repo, root, l)
            && l <= repo.Keys
            && Acyclic(DepGraph(repo), l)
            && (forall x :: ReachesPlus(DepGraph(repo), root, x) ==> x in l && root !in After(repo, x))
  {
    var g, l := DepGraph(repo), Search(repo, root).loaded;
    VisitSound(repo, root, {}, {});
    forall x | Reaches(g, root, x) ensures x in l { ClosedStays(g, l, root, x); }
    forall x | ReachesPlus(g, root, x)
      ensures x in l && root !in After(repo, x)
    {
      PlusIsReaches(g, root, x);
      assert x != root;
    }
  }

  /** A failed search always points at a real defect: a reachable domain without manifest,
      or a cycle made of dependency edges closed by a dependency or after-dependency. */
  lemma SearchFailureIsReal(repo: Repository, root: Domain)
    requires root in repo
    ensures Witness(repo, root, Search(repo, root))
  {
    ReachesRefl(DepGraph(repo), root);
    VisitWitness(repo, root, root, {}, {});
  }

  /** The defect-free condition on a domain: nothing it transitively depends on is
      missing, depends on itself, or lists the domain it is a dependency of among its
      after-dependencies. It mentions no search order and no memo. */
  ghost predicate Sane(repo: Repository, root: Domain) {
    var g := DepGraph(repo);
    forall d :: Reaches(g, root, d) ==>
      && d in repo
      && !ReachesPlus(g, d, d)
      && forall x :: ReachesPlus(g, d, x) && x in repo ==> d !in After(repo, x)
  }

  lemma SaneResolves(repo: Repository, root: Domain)
    requires root in repo && Sane(repo, root)
    ensures Resolves(repo, root)
  {
    var g, r := DepGraph(repo), Search(repo, root);
    SearchFailureIsReal(repo, root);
    if r.Circular? {
      var s :| s in r.from;
      if s in Deps(repo, r.to) && Reaches(g, s, r.to) {
        EdgeReaches(g, r.to, s);
        ReachesThenPlus(g, s, r.to, s);
      }
    }
  }

  /** Exactness: a domain and all its transitive dependencies pass the search if and only
      if the domain is sane, whatever the order in which manifests come back. */
  lemma AllResolveIffSane(repo: Repository, root: Domain)
    requires root in repo
    ensures (forall d :: Reaches(DepGraph(repo), root, d) ==> Resolves(repo, d)) <==> Sane(repo, root)
  {
    var g := DepGraph(repo);
    if forall d :: Reaches(g, root, d) ==> Resolves(repo, d) {
      forall d | Reaches(g, root, d)
        ensures d in repo && !ReachesPlus(g, d, d)
        ensures forall x :: ReachesPlus(g, d, x) && x in repo ==> d !in After(repo, x)
      {
        SearchSound(repo, d);
        ReachesRefl(g, d);
      }
    }
    if Sane(repo, root) {
      forall d | Reaches(g, root, d)
        ensures Resolves(repo, d)
      {
        forall e | Reaches(g, d, e)
          ensures Reaches(g, root, e)
        {
          ReachesTrans(g, root, d, e);
        }
        SaneResolves(repo, d);
      }
    }
  }

  ghost predicate SameManifests(a: Repository, b: Repository) {
    && a.Keys == b.Keys
    && forall d :: d in a ==> Deps(a, d) == Deps(b, d) && After(a, d) == After(b, d)
  }

  /** The order in which manifests come back cannot change whether a domain with all its
      transitive dependencies resolves. */
  lemma VerdictIgnoresOrder(a: Repository, b: Repository, root: Domain)
    requires root in a && SameManifests(a, b)
    ensures (forall d :: Reaches(DepGraph(a), root, d) ==> Resolves(a, d))
       <==> (forall d :: Reaches(DepGraph(b), root, d) ==> Resolves(b, d))
  {
    assert DepGraph(a) == DepGraph(b);
    AllResolveIffSane(a, root);
    AllResolveIffSane(b, root);
  }

  /** For the root alone the verdict does depend on the order: `m` is finished before `s`
      is entered, so the conflict between `s` and `x` below `m` is not seen, while the
      other order reports it. */
  lemma VerdictOfRootAloneDependsOnOrder()
    ensures exists a: Repository, b: Repository, root ::
      root in a && SameManifests(a, b) && Resolves(a, root) && !Resolves(b, root)
  {
    var root, s, m, x := Domain("root"), Domain("s"), Domain("m"), Domain("x");
    var rest := map[
      s := Integration([m], {}, [], {}, true),
      m := Integration([x], {}, [], {}, true),
      x := Integration([], {s}, [], {}, true)];
    var a := rest[root := Integration([m, s], {}, [], {}, true)];
    var b := rest[root := Integration([s, m], {}, [], {}, true)];
    assert Deps(a, root) == {m, s} == Deps(b, root);
    assert SameManifests(a, b);

    assert VisitAll(a, m, [x], {root, m}, {}) == Loaded({x}) by {
      assert {root, m} * After(a, x) == {};
      assert Visit(a, x, {root, m}, {}) == Loaded({x});
    }
    assert Visit(a, m, {root}, {}) == Loaded({x, m}) by {
      assert {root} + {m} == {root, m};
    }
    assert VisitAll(a, s, [m], {root, s}, {x, m}) == Loaded({x, m}) by {
      assert {root, s} * After(a, m) == {};
    }
    assert Visit(a, s, {root}, {x, m}) == Loaded({x, m, s}) by {
      assert {root} + {s} == {root, s};
    }
    assert VisitAll(a, root, [m, s], {root}, {}).Loaded? by {
      assert {root} * After(a, m) == {} && {root} * After(a, s) == {};
      assert [m, s][1..] == [s];
      assert VisitAll(a, root, [s], {root}, {x, m}).Loaded? by { assert [s][1..] == []; }
    }
    assert Visit(a, root, {}, {}).Loaded? by { assert {} + {root} == {root}; }

    assert VisitAll(b, m, [x], {root, s, m}, {}).Circular? by {
      assert s in {root, s, m} * After(b, x);
    }
    assert Visit(b, m, {root, s}, {}).Circular? by {
      assert {root, s} + {m} == {root, s, m};
    }
    assert VisitAll(b, s, [m], {root, s}, {}).Circular? by {
      assert {root, s} * After(b, m) == {};
    }
    assert Visit(b, s, {root}, {}).Circular? by { assert {root} + {s} == {root, s}; }
    assert VisitAll(b, root, [s, m], {root}, {}).Circular? by {
      assert {root} * After(b, s) == {};
    }
    assert Visit(b, root, {}, {}).Circular? by { assert {} + {root} == {root}; }
  }

  // --------------------------------------------- when the order cannot matter

  /** Entering `x` with this stack is what the search reports. */
  predicate Flaw(repo: Repository, x: Domain, loading: set<Domain>) {
    x !in repo || loading * After(repo, x) != {} || x in loading
  }

  /** A walk along dependencies whose last domain is flawed, given the ones before it. */
  ghost predicate FlawedWalk(repo: Repository, p: seq<Domain>) {
    && |p| >= 2 && IsPath(DepGraph(repo), p[0], p[|p| - 1], p)
    && Flaw(repo, p[|p| - 1], ToSet(p[..|p| - 1]))
  }

  /** No shorter beginning of the walk is flawed. */
  ghost predicate FirstFlaw(repo: Repository, p: seq<Domain>) {
    && FlawedWalk(repo, p)
    && forall j :: 1 <= j < |p| - 1 ==> !Flaw(repo, p[j], ToSet(p[..j]))
  }

  lemma {:induction false} ShortestFlawedWalk(repo: Repository, p: seq<Domain>) returns (q: seq<Domain>)
    requires FlawedWalk(repo, p)
    ensures FirstFlaw(repo, q) && q[0] == p[0]
    decreases |p|
  {
    if j :| 1 <= j < |p| - 1 && Flaw(repo, p[j], ToSet(p[..j])) {
      var shorter := p[..j + 1];
      assert shorter[..j] == p[..j];
      q := ShortestFlawedWalk(repo, shorter);
    } else {
      q := p;
    }
  }

  /** A walk from `a` through `d` to `x`. */
  lemma WalkThrough(g: Graph, a: Domain, d: Domain, x: Domain) returns (p: seq<Domain>)
    requires Reaches(g, a, d) && ReachesPlus(g, d, x)
    ensures IsPath(g, a, x, p) && |p| >= 2 && d in p[..|p| - 1]
  {
    var q :| IsPath(g, a, d, q);
    var c :| c in Succ(g, d) && Reaches(g, c, x);
    var r :| IsPath(g, c, x, r);
    p := q + r;
    assert p[..|p| - 1][|q| - 1] == d;
  }

  lemma UnsaneHasFlawedWalk(repo: Repository, root: Domain) returns (p: seq<Domain>)
    requires root in repo && !Sane(repo, root)
    ensures FlawedWalk(repo, p) && p[0] == root
  {
    var g := DepGraph(repo);
    var d :| Reaches(g, root, d) && (d in repo ==> ReachesPlus(g, d, d) || NamedBelow(repo, d));
    if d !in repo {
      p :| IsPath(g, root, d, p);
    } else if ReachesPlus(g, d, d) {
      p := WalkThrough(g, root, d, d);
    } else {
      assert NamedBelow(repo, d);
      var x :| ReachesPlus(DepGraph(repo), d, x) && x in repo && d in After(repo, x);
      p := WalkThrough(g, root, d, x);
      assert d in ToSet(p[..|p| - 1]) * After(repo, x);
    }
  }

  /** Something that `d` depends on names it as an after-dependency. */
  ghost predicate NamedBelow(repo: Repository, d: Domain) {
    exists x :: ReachesPlus(DepGraph(repo), d, x) && x in repo && d in After(repo, x)
  }

  function Without(xs: seq<Domain>, x: Domain): (r: seq<Domain>)
    ensures ToSet(r) == ToSet(xs) - {x}
  {
    if xs == [] then []
    else
      assert ToSet(xs) == {xs[0]} + ToSet(xs[1..]);
      if xs[0] == x then Without(xs[1..], x)
      else
        var rest := Without(xs[1..], x);
        assert ToSet([xs[0]] + rest) == {xs[0]} + ToSet(rest);
        [xs[0]] + rest
  }

  function MoveFirst(xs: seq<Domain>, x: Domain): (r: seq<Domain>)
    ensures r != [] && r[0] == x && (x in xs ==> ToSet(r) == ToSet(xs))
  {
    assert ToSet([x] + Without(xs, x)) == {x} + ToSet(Without(xs, x));
    [x] + Without(xs, x)
  }

  predicate OnWalk(p: seq<Domain>, d: Domain) {
    exists i :: 0 <= i < |p| - 1 && p[i] == d
  }

  /** The manifest with the next domain of the walk in front of the other dependencies. */
  ghost function LedAlong(repo: Repository, p: seq<Domain>, d: Domain): Integration
    requires d in repo
  {
    if OnWalk(p, d) then
      var i :| 0 <= i < |p| - 1 && p[i] == d;
      repo[d].(dependencies := MoveFirst(repo[d].dependencies, p[i + 1]))
    else repo[d]
  }

  lemma FirstFlawIsSimple(repo: Repository, p: seq<Domain>, i: nat, j: nat)
    requires FirstFlaw(repo, p) && i < j < |p| - 1
    ensures p[i] != p[j]
  {
    assert p[i] in p[..j];
  }

  lemma LedIsSame(repo: Repository, p: seq<Domain>, d: Domain)
    requires FirstFlaw(repo, p) && d in repo
    ensures ToSet(LedAlong(repo, p, d).dependencies) == Deps(repo, d)
    ensures LedAlong(repo, p, d).afterDependencies == After(repo, d)
    ensures OnWalk(p, d) ==> LedAlong(repo, p, d).dependencies != []
  {
    forall j | 0 <= j < |p| - 1 && p[j] == d ensures p[j + 1] in Deps(repo, d) {
      assert p[j + 1] in Succ(DepGraph(repo), p[j]);
    }
  }

  lemma LedFirst(repo: Repository, p: seq<Domain>, i: nat)
    requires FirstFlaw(repo, p) && i < |p| - 1
    ensures p[i] in repo && LedAlong(repo, p, p[i]).dependencies != []
    ensures LedAlong(repo, p, p[i]).dependencies[0] == p[i + 1]
  {
    assert p[i + 1] in Succ(DepGraph(repo), p[i]);
    forall j | 0 <= j < |p| - 1 && p[j] == p[i] ensures j == i {
      if j < i { FirstFlawIsSimple(repo, p, j, i); } else if i < j { FirstFlawIsSimple(repo, p, i, j); }
    }
    assert OnWalk(p, p[i]);
  }

  /** Every domain of the walk lists the next one first. */
  ghost predicate Leads(led: Repository, p: seq<Domain>) {
    forall i :: 0 <= i < |p| - 1 ==>
      p[i] in led && led[p[i]].dependencies != [] && led[p[i]].dependencies[0] == p[i + 1]
  }

  /** The same manifests, ordered so that the search goes along the walk. */
  lemma LeadAlong(repo: Repository, p: seq<Domain>) returns (led: Repository)
    requires FirstFlaw(repo, p) && p[0] in repo
    ensures SameManifests(repo, led) && FirstFlaw(led, p) && Leads(led, p)
  {
    hide FirstFlaw, LedAlong;
    led := map d | d in repo :: LedAlong(repo, p, d);
    forall d | d in repo ensures Deps(repo, d) == Deps(led, d) && After(repo, d) == After(led, d) {
      LedIsSame(repo, p, d);
    }
    forall i | 0 <= i < |p| - 1
      ensures p[i] in led && led[p[i]].dependencies != [] && led[p[i]].dependencies[0] == p[i + 1]
    {
      LedFirst(repo, p, i);
    }
    SameFlaws(repo, led, p);
  }

  lemma SameFlaws(a: Repository, b: Repository, p: seq<Domain>)
    requires SameManifests(a, b) && FirstFlaw(a, p)
    ensures FirstFlaw(b, p)
  {
    assert DepGraph(a) == DepGraph(b);
    forall j | 1 <= j < |p| - 1 ensures !Flaw(b, p[j], ToSet(p[..j])) { assert !Flaw(a, p[j], ToSet(p[..j])); }
  }

  /** The search that goes along the walk ends at its flaw. */
  lemma {:induction false} LedSearchFails(led: Repository, p: seq<Domain>, i: nat)
    requires FirstFlaw(led, p) && Leads(led, p) && i < |p| - 1
    ensures p[i] !in ToSet(p[..i]) && !Visit(led, p[i], ToSet(p[..i]), {}).Loaded?
    decreases |p| - i
  {
    var loading, x := ToSet(p[..i]), p[i + 1];
    assert i > 0 ==> !Flaw(led, p[i], loading);
    assert ToSet(p[..i + 1]) == loading + {p[i]};
    if i + 1 < |p| - 1 {
      LedSearchFails(led, p, i + 1);
      assert !Flaw(led, x, loading + {p[i]});
    } else {
      assert p[..i + 1] == p[..|p| - 1];
      assert Flaw(led, x, loading + {p[i]});
    }
    assert !VisitAll(led, p[i], led[p[i]].dependencies, loading + {p[i]}, {}).Loaded?;
  }

  /** The root itself passes the search in every order of the manifests if and only if it is
      free of defects, and so passes together with all its transitive dependencies. */
  lemma EveryOrderResolvesIffSane(repo: Repository, root: Domain)
    requires root in repo
    ensures (forall b :: SameManifests(repo, b) ==> Resolves(b, root)) <==> Sane(repo, root)
  {
    if Sane(repo, root) {
      forall b | SameManifests(repo, b) ensures Resolves(b, root) {
        assert DepGraph(b) == DepGraph(repo);
        SaneResolves(b, root);
      }
    } else {
      var p := UnsaneHasFlawedWalk(repo, root);
      p := ShortestFlawedWalk(repo, p);
      var led := LeadAlong(repo, p);
      LedSearchFails(led, p, 0);
      assert ToSet(p[..0]) == {};
      assert !Resolves(led, root);
    }
  }

  // ------------------------------------------------------- the imperative search

  /** One run of `_async_component_dependencies`: the two sets its inner function updates
      while it recurses. */
  class DependencySearch {
    const repo: Repository
    var loading: set<Domain>
    var loaded: set<Domain>

    constructor (repo: Repository)
      ensures this.repo == repo && loading == {} && loaded == {}
    {
      this.repo := repo;
      loading, loaded := {}, {};
    }

    /** A return value of `None` is normal completion; otherwise the exception raised. */
    method ComponentDependencies(d: Domain) returns (raised: Option<Outcome>)
      requires d in repo && d !in loading && d !in loaded
      modifies this
      ensures raised.None? ==> loading == old(loading)
      ensures var r := Visit(repo, d, old(loading), old(loaded));
              if r.Loaded? then raised == None && loaded == r.loaded else raised == Some(r)
      decreases repo.Keys - loading - loaded
    {
      var dependencies := repo[d].dependencies;
      if dependencies == [] {
        loaded := loaded + {d};
        return None;
      }
      loading := loading + {d};
      ghost var before := loaded;
      var i := 0;
      while i < |dependencies|
        invariant 0 <= i <= |dependencies|
        invariant loading == old(loading) + {d} && before <= loaded
        invariant VisitAll(repo, d, dependencies, old(loading) + {d}, before)
               == VisitAll(repo, d, dependencies[i..], loading, loaded)
      {
        var x := dependencies[i];
        assert dependencies[i..][0] == x && dependencies[i..][1..] == dependencies[i + 1..];
        if x !in repo {
          return Some(LookupError(x));
        }
        var conflict := loading * repo[x].afterDependencies;
        if conflict != {} {
          return Some(Circular(conflict, x));
        }
        if x !in loaded {
          if x in loading {
            return Some(Circular({x}, d));
          }
          assert d in repo.Keys - old(loading) - old(loaded);
          raised := ComponentDependencies(x);
          if raised.Some? {
            return;
          }
        }
        i := i + 1;
      }
      loading := loading - {d};
      loaded := loaded + {d};
      return None;
    }
  }

  /** The part of `Integration` that memoises the outcome of the search. The repository
      entry of the domain is this integration's own manifest. */
  class ResolvableIntegration {
    const repo: Repository
    const domain: Domain
    var allDependencies: Option<set<Domain>>
    var resolved: Option<bool>
    /** A caller is suspended in the search, and the preliminary `False` is stored. */
    ghost var searching: bool

    ghost predicate Valid() reads this {
      && domain in repo
      && (searching ==> resolved == Some(false))
      && (resolved == Some(true) ==>
            && Resolves(repo, domain)
            && allDependencies == Some(Search(repo, domain).loaded - {domain}))
      && (resolved == Some(false) && !searching ==> !Resolves(repo, domain))
    }

    constructor (repo: Repository, domain: Domain)
      requires domain in repo
      ensures Valid() && this.repo == repo && this.domain == domain && resolved == None && !searching
    {
      this.repo, this.domain := repo, domain;
      allDependencies, resolved, searching := None, None, false;
    }

    /** `resolve_dependencies` up to the search. A stored verdict is answered at once; it is
        wrong if and only if it is the preliminary one of a domain that resolves. */
    method BeginResolving() returns (answer: Option<bool>)
      requires Valid()
      modifies this
      ensures Valid() && allDependencies == old(allDependencies)
      ensures old(resolved) == None ==> answer == None && searching
      ensures old(resolved).Some? ==> answer == old(resolved) == resolved && searching == old(searching)
      ensures answer.Some? ==> (answer.value == Resolves(repo, domain) <==> !(searching && Resolves(repo, domain)))
    {
      answer := resolved;
      if resolved.None? { resolved, searching := Some(false), true; }
    }

    /** The search and what follows it. On success `all_dependencies` holds exactly the domains
        that can be reached by at least one dependency edge. A `ValueError` for an invalid
        domain is not caught and leaves the preliminary `False` behind. */
    method EndResolving() returns (answer: Option<bool>)
      requires Valid() && searching
      modifies this
      ensures Valid() && !searching && resolved == Some(Resolves(repo, domain))
      ensures answer == None <==> Search(repo, domain).InvalidDomain?
      ensures answer.Some? ==> answer == resolved
      ensures DependenciesExact()
    {
      if Resolves(repo, domain) {
        AllDependenciesExact(repo, domain);
      }
      searching := false;
      var search := new DependencySearch(repo);
      var raised := search.ComponentDependencies(domain);
      match raised
      case None =>
        allDependencies := Some(search.loaded - {domain});
        resolved := Some(true);
        return resolved;
      case Some(InvalidDomain(_)) =>
        return None;
      case Some(_) =>
        return resolved;
    }

    ghost predicate DependenciesExact() reads this {
      resolved == Some(true) ==>
        && allDependencies.Some?
        && forall x :: x in allDependencies.value <==> ReachesPlus(DepGraph(repo), domain, x)
    }

    /** Reports whether the domain resolves. While another caller is in the search, the answer
        is the preliminary one, which is wrong for a domain that resolves. */
    method ResolveDependencies() returns (answer: Option<bool>)
      requires Valid()
      modifies this
      ensures Valid() && DependenciesExact() && searching == old(searching)
      ensures old(resolved).Some? ==> answer == old(resolved) && allDependencies == old(allDependencies)
      ensures answer == None <==> old(resolved) == None && Search(repo, domain).InvalidDomain?
      ensures !searching ==> resolved == Some(Resolves(repo, domain))
      ensures answer.Some? ==> answer == resolved
      ensures answer.Some? ==> (answer.value == Resolves(repo, domain) <==> !(searching && Resolves(repo, domain)))
    {
      if Resolves(repo, domain) {
        AllDependenciesExact(repo, domain);
      }
      answer := BeginResolving();
      if answer.None? { answer := EndResolving(); }
    }
  }

  /** Dropping the root from the loaded set leaves exactly its transitive dependencies. */
  lemma AllDependenciesExact(repo: Repository, d: Domain)
    requires Resolves(repo, d)
    ensures forall x :: x in Search(repo, d).loaded - {d} <==> ReachesPlus(DepGraph(repo), d, x)
  {
    SearchSound(repo, d);
    ReachesRefl(DepGraph(repo), d);
    forall x
      ensures x in Search(repo, d).loaded - {d} <==> ReachesPlus(DepGraph(repo), d, x)
    {
      ReachesSplit(DepGraph(repo), d, x);
    }
  }
}
