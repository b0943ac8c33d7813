/** The exact condition under which the dependency search of homeassistant/loader.py succeeds
    for manifests in a given order. */
module SearchOrder {
  import opened Graphs
  import opened Loader

  // ------------------------------------------------------- conflicts that are seen

  /** No dependency of a domain in `s` names that domain as an after-dependency. */
  ghost predicate NoDirectConflict(repo: Repository, s: set<Domain>) {
    forall d, x :: d in s && x in Succ(DepGraph(repo), d) && x in repo ==> d !in After(repo, x)
  }

  lemma {:induction false} VisitSeesConflicts(repo: Repository, d: Domain, loading: set<Domain>, loaded: set<Domain>)
    requires d in repo && d !in loading && d !in loaded
    requires NoDirectConflict(repo, loaded) && Visit(repo, d, loading, loaded).Loaded?
    ensures NoDirectConflict(repo, Visit(repo, d, loading, loaded).loaded)
    decreases repo.Keys - loading - loaded, 0
  {
    if repo[d].dependencies != [] {
      assert d in repo.Keys - loading - loaded;
      VisitAllSeesConflicts(repo, d, repo[d].dependencies, loading + {d}, loaded);
      VisitAllTests(repo, d, repo[d].dependencies, loading + {d}, loaded);
    }
  }

  /** Every dependency is tested for a conflict with the whole stack, also one in the memo. */
  lemma {:induction false} VisitAllTests(
      repo: Repository, d: Domain, pending: seq<Domain>, loading: set<Domain>, loaded: set<Domain>)
    requires VisitAll(repo, d, pending, loading, loaded).Loaded?
    ensures forall x :: x in pending ==> x in repo && loading !! After(repo, x)
    decreases |pending|
  {
    if pending != [] {
      var x := pending[0];
      assert loading * After(repo, x) == {};
      VisitAllTests(repo, d, pending[1..], loading,
                    if x in loaded then loaded else Visit(repo, x, loading, loaded).loaded);
      forall y | y in pending ensures y in repo && loading !! After(repo, y) {
        if y != x { assert y in pending[1..]; }
      }
    }
  }

  lemma {:induction false} VisitAllSeesConflicts(
      repo: Repository, d: Domain, pending: seq<Domain>, loading: set<Domain>, loaded: set<Domain>)
    requires NoDirectConflict(repo, loaded) && VisitAll(repo, d, pending, loading, loaded).Loaded?
    ensures NoDirectConflict(repo, VisitAll(repo, d, pending, loading, loaded).loaded)
    decreases repo.Keys - loading - loaded, 1, |pending|
  {
    if pending != [] {
      var x := pending[0];
      if x in loaded {
        VisitAllSeesConflicts(repo, d, pending[1..], loading, loaded);
      } else {
        VisitSeesConflicts(repo, x, loading, loaded);
        VisitAllSeesConflicts(repo, d, pending[1..], loading, Visit(repo, x, loading, loaded).loaded);
      }
    }
  }

  /** A search that succeeds has seen every direct conflict: no domain below the root has a
      dependency that names it as an after-dependency. */
  lemma ResolvedHasNoDirectConflict(repo: Repository, root: Domain)
    requires Resolves(repo, root)
    ensures forall d, x :: Reaches(DepGraph(repo), root, d) && x in Succ(DepGraph(repo), d) ==>
      x in repo && d !in After(repo, x)
  {
    SearchSound(repo, root);
    VisitSeesConflicts(repo, root, {}, {});
    forall d, x | Reaches(DepGraph(repo), root, d) && x in Succ(DepGraph(repo), d)
      ensures x in repo && d !in After(repo, x)
    {
      EdgeReaches(DepGraph(repo), d, x);
      ReachesTrans(DepGraph(repo), root, d, x);
    }
  }

  // ------------------------------------------------------------------ first walks

  /** The walk goes from `p[i]` to the `n`-th dependency, and no dependency listed before that
      one leads to the end of the walk. */
  ghost predicate FirstTurn(repo: Repository, p: seq<Domain>, i: nat, n: nat)
    requires i + 1 < |p|
  {
    && p[i] in repo && n < |repo[p[i]].dependencies| && repo[p[i]].dependencies[n] == p[i + 1]
    && forall k :: 0 <= k < n ==> !Reaches(DepGraph(repo), repo[p[i]].dependencies[k], p[|p| - 1])
  }

  ghost predicate TurnsFirst(repo: Repository, p: seq<Domain>, i: nat)
    requires i + 1 < |p|
  {
    exists n :: FirstTurn(repo, p, i, n)
  }

  /** The first walk to its end: at every turn no dependency that is listed before the one
      taken leads to the end. */
  ghost predicate FirstWalk(repo: Repository, root: Domain, p: seq<Domain>) {
    && p != [] && p[0] == root
    && forall i :: 0 <= i < |p| - 1 ==> TurnsFirst(repo, p, i)
  }

  /** No dependency of the end of the walk is missing, lies on the walk, or names a domain of
      the walk as an after-dependency. */
  ghost predicate Flawless(repo: Repository, p: seq<Domain>)
    requires p != []
  {
    forall x :: x in Succ(DepGraph(repo), p[|p| - 1]) ==> !Flaw(repo, x, ToSet(p))
  }

  ghost predicate FirstWalksFlawless(repo: Repository, root: Domain) {
    forall p :: FirstWalk(repo, root, p) ==> Flawless(repo, p)
  }

  lemma WalkReachesEnd(repo: Repository, root: Domain, p: seq<Domain>, i: nat)
    requires FirstWalk(repo, root, p) && i < |p|
    ensures Reaches(DepGraph(repo), p[i], p[|p| - 1])
  {
    var q := p[i..];
    forall j | 0 <= j < |q| - 1 ensures q[j + 1] in Succ(DepGraph(repo), q[j]) {
      assert TurnsFirst(repo, p, i + j);
    }
    assert IsPath(DepGraph(repo), p[i], p[|p| - 1], q);
  }

  // -------------------------------------------- a search that succeeds follows them

  /** What the search has finished does not lead to the end of the walk. */
  ghost predicate Aside(repo: Repository, p: seq<Domain>, i: nat, loaded: set<Domain>)
    requires i < |p|
  {
    Explored(repo, loaded) && ToSet(p[..i]) !! loaded && p[|p| - 1] !in loaded
  }

  lemma NextToSet(p: seq<Domain>, i: nat)
    requires i < |p|
    ensures ToSet(p[..i + 1]) == ToSet(p[..i]) + {p[i]}
  {
  }

  lemma {:induction false} WalkIsEntered(repo: Repository, root: Domain, p: seq<Domain>, i: nat, loaded: set<Domain>)
    requires FirstWalk(repo, root, p) && i < |p| && Aside(repo, p, i, loaded)
    requires p[i] in repo && p[i] !in ToSet(p[..i]) && p[i] !in loaded
    requires Visit(repo, p[i], ToSet(p[..i]), loaded).Loaded?
    ensures Flawless(repo, p)
    decreases |p| - i, 1, 0
  {
    var d, deps := p[i], repo[p[i]].dependencies;
    NextToSet(p, i);
    if i == |p| - 1 {
      assert p[..i + 1] == p;
      if deps != [] { AllPendingFlawless(repo, d, deps, ToSet(p), loaded); }
    } else {
      assert TurnsFirst(repo, p, i);
      var n :| FirstTurn(repo, p, i, n);
      assert deps[0..] == deps;
      TurnIsTaken(repo, root, p, i, n, 0, loaded);
    }
  }

  lemma AllPendingFlawless(
      repo: Repository, d: Domain, pending: seq<Domain>, loading: set<Domain>, loaded: set<Domain>)
    requires d in repo && ToSet(pending) <= Deps(repo, d) && Explored(repo, loaded) && loading !! loaded
    requires VisitAll(repo, d, pending, loading, loaded).Loaded?
    ensures forall x :: x in pending ==> !Flaw(repo, x, loading)
  {
    VisitAllSound(repo, d, pending, loading, loaded);
    VisitAllTests(repo, d, pending, loading, loaded);
    var l := VisitAll(repo, d, pending, loading, loaded).loaded;
    forall x | x in pending ensures !Flaw(repo, x, loading) { assert x in ToSet(pending) && x in l; }
  }

  lemma {:induction false} TurnIsTaken(
      repo: Repository, root: Domain, p: seq<Domain>, i: nat, n: nat, m: nat, loaded: set<Domain>)
    requires FirstWalk(repo, root, p) && i + 1 < |p| && FirstTurn(repo, p, i, n) && m <= n
    requires Aside(repo, p, i + 1, loaded)
    requires VisitAll(repo, p[i], repo[p[i]].dependencies[m..], ToSet(p[..i + 1]), loaded).Loaded?
    ensures Flawless(repo, p)
    decreases |p| - i, 0, n - m
  {
    var g, t, loading := DepGraph(repo), p[|p| - 1], ToSet(p[..i + 1]);
    var pending := repo[p[i]].dependencies[m..];
    var x := pending[0];
    assert pending[1..] == repo[p[i]].dependencies[m + 1..];
    if m == n {
      WalkReachesEnd(repo, root, p, i + 1);
      if x in loaded { ClosedStays(g, loaded, x, t); }
      WalkIsEntered(repo, root, p, i + 1, loaded);
    } else if x in loaded {
      TurnIsTaken(repo, root, p, i, n, m + 1, loaded);
    } else {
      VisitSound(repo, x, loading, loaded);
      TurnIsTaken(repo, root, p, i, n, m + 1, Visit(repo, x, loading, loaded).loaded);
    }
  }

  // ---------------------------------------------- a search that fails ends on one

  /** What is raised on a flaw: a missing manifest comes before a conflict with the stack, and
      that before a dependency on the stack. */
  function ErrorAt(repo: Repository, p: seq<Domain>, x: Domain): Outcome
    requires p != []
  {
    if x !in repo then LookupError(x)
    else if ToSet(p) * After(repo, x) != {} then Circular(ToSet(p) * After(repo, x), x)
    else Circular({x}, p[|p| - 1])
  }

  /** The search stopped on a flaw behind a first walk. */
  ghost predicate StopsAt(repo: Repository, root: Domain, r: Outcome, p: seq<Domain>, x: Domain) {
    && FirstWalk(repo, root, p) && x in Succ(DepGraph(repo), p[|p| - 1]) && Flaw(repo, x, ToSet(p))
    && r == ErrorAt(repo, p, x)
  }

  /** The stack is a walk along dependencies, before each of which all others are finished. */
  ghost predicate Stack(repo: Repository, root: Domain, p: seq<Domain>, loaded: set<Domain>) {
    && p != [] && p[0] == root && p[|p| - 1] in repo && Explored(repo, loaded) && ToSet(p) !! loaded
    && forall i :: 0 <= i < |p| - 1 ==> TurnsAfter(repo, p, i, loaded)
  }

  ghost predicate TurnsAfter(repo: Repository, p: seq<Domain>, i: nat, loaded: set<Domain>)
    requires i + 1 < |p|
  {
    exists n :: NextAfter(repo, p, i, n, loaded)
  }

  predicate NextAfter(repo: Repository, p: seq<Domain>, i: nat, n: nat, loaded: set<Domain>)
    requires i + 1 < |p|
  {
    && p[i] in repo && n < |repo[p[i]].dependencies| && repo[p[i]].dependencies[n] == p[i + 1]
    && forall k :: 0 <= k < n ==> repo[p[i]].dependencies[k] in loaded
  }

  lemma StackIsFirstWalk(repo: Repository, root: Domain, p: seq<Domain>, loaded: set<Domain>)
    requires Stack(repo, root, p, loaded)
    ensures FirstWalk(repo, root, p)
  {
    var g, t := DepGraph(repo), p[|p| - 1];
    assert t in ToSet(p);
    forall i | 0 <= i < |p| - 1 ensures TurnsFirst(repo, p, i) {
      assert TurnsAfter(repo, p, i, loaded);
      var n :| NextAfter(repo, p, i, n, loaded);
      forall k | 0 <= k < n ensures !Reaches(g, repo[p[i]].dependencies[k], t) {
        if Reaches(g, repo[p[i]].dependencies[k], t) { ClosedStays(g, loaded, repo[p[i]].dependencies[k], t); }
      }
      assert FirstTurn(repo, p, i, n);
    }
  }

  lemma StackGrows(repo: Repository, root: Domain, p: seq<Domain>, loaded: set<Domain>, more: set<Domain>)
    requires Stack(repo, root, p, loaded) && loaded <= more && Explored(repo, more) && ToSet(p) !! more
    ensures Stack(repo, root, p, more)
  {
    forall i | 0 <= i < |p| - 1 ensures TurnsAfter(repo, p, i, more) {
      assert TurnsAfter(repo, p, i, loaded);
      var n :| NextAfter(repo, p, i, n, loaded);
      assert NextAfter(repo, p, i, n, more);
    }
  }

  lemma StackPush(repo: Repository, root: Domain, p: seq<Domain>, loaded: set<Domain>, m: nat)
    requires Stack(repo, root, p, loaded)
    requires var deps := repo[p[|p| - 1]].dependencies;
      m < |deps| && deps[m] in repo && deps[m] !in loaded && forall k :: 0 <= k < m ==> deps[k] in loaded
    ensures var q := p + [repo[p[|p| - 1]].dependencies[m]];
      Stack(repo, root, q, loaded) && ToSet(q) == ToSet(p) + {repo[p[|p| - 1]].dependencies[m]}
  {
    var x := repo[p[|p| - 1]].dependencies[m];
    var q := p + [x];
    forall i | 0 <= i < |q| - 1 ensures TurnsAfter(repo, q, i, loaded) {
      if i < |p| - 1 {
        assert TurnsAfter(repo, p, i, loaded);
        var n :| NextAfter(repo, p, i, n, loaded);
        assert NextAfter(repo, q, i, n, loaded);
      } else {
        assert NextAfter(repo, q, i, m, loaded);
      }
    }
  }

  lemma {:induction false} VisitStops(
      repo: Repository, root: Domain, p: seq<Domain>, loading: set<Domain>, loaded: set<Domain>)
      returns (q: seq<Domain>, x: Domain)
    requires Stack(repo, root, p, loaded)
    requires ToSet(p) == loading + {p[|p| - 1]} && p[|p| - 1] !in loading
    requires p[|p| - 1] !in loaded && !Visit(repo, p[|p| - 1], loading, loaded).Loaded?
    ensures StopsAt(repo, root, Visit(repo, p[|p| - 1], loading, loaded), q, x)
    decreases repo.Keys - loading - loaded, 0, 0
  {
    var d := p[|p| - 1];
    assert d in repo.Keys - loading - loaded;
    assert repo[d].dependencies[0..] == repo[d].dependencies;
    q, x := VisitAllStops(repo, root, p, 0, loaded);
  }

  lemma {:induction false} VisitAllStops(
      repo: Repository, root: Domain, p: seq<Domain>, m: nat, loaded: set<Domain>)
      returns (q: seq<Domain>, x: Domain)
    requires Stack(repo, root, p, loaded) && m <= |repo[p[|p| - 1]].dependencies|
    requires var deps := repo[p[|p| - 1]].dependencies; forall k :: 0 <= k < m ==> deps[k] in loaded
    requires !VisitAll(repo, p[|p| - 1], repo[p[|p| - 1]].dependencies[m..], ToSet(p), loaded).Loaded?
    ensures StopsAt(repo, root,
      VisitAll(repo, p[|p| - 1], repo[p[|p| - 1]].dependencies[m..], ToSet(p), loaded), q, x)
    decreases repo.Keys - ToSet(p) - loaded, 1, |repo[p[|p| - 1]].dependencies| - m
  {
    var d, deps := p[|p| - 1], repo[p[|p| - 1]].dependencies;
    var loading, y := ToSet(p), deps[m..][0];
    assert deps[m..][1..] == deps[m + 1..];
    assert y in deps && y in Succ(DepGraph(repo), d);
    if y !in repo || loading * After(repo, y) != {} || (y !in loaded && y in loading) {
      StackIsFirstWalk(repo, root, p, loaded);
      q, x := p, y;
    } else if y in loaded {
      q, x := VisitAllStops(repo, root, p, m + 1, loaded);
    } else {
      StackPush(repo, root, p, loaded, m);
      if Visit(repo, y, loading, loaded).Loaded? {
        VisitSound(repo, y, loading, loaded);
        var l := Visit(repo, y, loading, loaded).loaded;
        StackGrows(repo, root, p, loaded, l);
        q, x := VisitAllStops(repo, root, p, m + 1, l);
      } else {
        q, x := VisitStops(repo, root, p + [y], loading, loaded);
      }
    }
  }

  // -------------------------------------------------------------- the exact verdict

  lemma RootAlone(repo: Repository, root: Domain)
    requires root in repo
    ensures Explored(repo, {}) && Stack(repo, root, [root], {}) && ToSet([root]) == {root}
  {
  }

  /** With its manifests in their order, a domain passes the search if and only if no first
      walk from it ends at a flaw. */
  lemma ResolvesIffFirstWalksFlawless(repo: Repository, root: Domain)
    requires root in repo
    ensures Resolves(repo, root) <==> FirstWalksFlawless(repo, root)
  {
    RootAlone(repo, root);
    if Resolves(repo, root) {
      forall p | FirstWalk(repo, root, p) ensures Flawless(repo, p) {
        assert ToSet(p[..0]) == {};
        WalkIsEntered(repo, root, p, 0, {});
      }
    } else {
      var p, x := VisitStops(repo, root, [root], {}, {});
      assert !Flawless(repo, p);
    }
  }

  /** What a failed search raises is the error at a flaw behind a first walk. */
  lemma FailureIsAtFirstWalk(repo: Repository, root: Domain) returns (p: seq<Domain>, x: Domain)
    requires root in repo && !Resolves(repo, root)
    ensures StopsAt(repo, root, Search(repo, root), p, x)
  {
    RootAlone(repo, root);
    p, x := VisitStops(repo, root, [root], {}, {});
  }
}
