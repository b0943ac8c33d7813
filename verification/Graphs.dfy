/** Finite directed graphs over integration domains, and the notion of a path that
    every dependency theorem of this project is stated with. */
module Graphs {
  import opened Sets

  /** The name of an integration, such as `light` or `mqtt`. */
  datatype Domain = Domain(name: string)

  type Graph = map<Domain, set<Domain>>

  function Succ(g: Graph, x: Domain): set<Domain> {
    if x in g then g[x] else {}
  }

  /** `p` is a walk along the edges of `g` that starts in `a` and ends in `b`. */
  ghost predicate IsPath(g: Graph, a: Domain, b: Domain, p: seq<Domain>) {
    && 0 < |p|
    && p[0] == a
    && p[|p| - 1] == b
    && forall i :: 0 <= i < |p| - 1 ==> p[i + 1] in Succ(g, p[i])
  }

  /** `b` can be reached from `a` by following zero or more edges. */
  ghost predicate Reaches(g: Graph, a: Domain, b: Domain) {
    exists p :: IsPath(g, a, b, p)
  }

  /** `b` can be reached from `a` by following at least one edge. */
  ghost predicate ReachesPlus(g: Graph, a: Domain, b: Domain) {
    exists c :: c in Succ(g, a) && Reaches(g, c, b)
  }

  ghost predicate Closed(g: Graph, s: set<Domain>) {
    forall x :: x in s ==> Succ(g, x) <= s
  }

  /** No element of `s` lies on a cycle. */
  ghost predicate Acyclic(g: Graph, s: set<Domain>) {
    forall x :: x in s ==> !ReachesPlus(g, x, x)
  }

  lemma ReachesRefl(g: Graph, a: Domain)
    ensures Reaches(g, a, a)
  {
    assert IsPath(g, a, a, [a]);
  }

  lemma ReachesTrans(g: Graph, a: Domain, b: Domain, c: Domain)
    requires Reaches(g, a, b) && Reaches(g, b, c)
    ensures Reaches(g, a, c)
  {
    var p :| IsPath(g, a, b, p);
    var q :| IsPath(g, b, c, q);
    var r := p + q[1..];
    forall i | 0 <= i < |r| - 1
      ensures r[i + 1] in Succ(g, r[i])
    {
      if i >= |p| - 1 {
        assert r[i] == q[i - |p| + 1] && r[i + 1] == q[i - |p| + 2];
      }
    }
    assert IsPath(g, a, c, r);
  }

  lemma EdgeReaches(g: Graph, a: Domain, b: Domain)
    requires b in Succ(g, a)
    ensures Reaches(g, a, b) && ReachesPlus(g, a, b)
  {
    assert IsPath(g, a, b, [a, b]);
    ReachesRefl(g, b);
  }

  lemma PlusIsReaches(g: Graph, a: Domain, b: Domain)
    requires ReachesPlus(g, a, b)
    ensures Reaches(g, a, b)
  {
    var c :| c in Succ(g, a) && Reaches(g, c, b);
    EdgeReaches(g, a, c);
    ReachesTrans(g, a, c, b);
  }

  lemma ReachesSplit(g: Graph, a: Domain, b: Domain)
    ensures Reaches(g, a, b) <==> a == b || ReachesPlus(g, a, b)
  {
    if Reaches(g, a, b) && a != b {
      var p :| IsPath(g, a, b, p);
      assert p[1] in Succ(g, p[0]);
      assert IsPath(g, p[1], b, p[1..]);
    }
    if ReachesPlus(g, a, b) {
      PlusIsReaches(g, a, b);
    }
    ReachesRefl(g, a);
  }

  lemma PlusThenReaches(g: Graph, a: Domain, b: Domain, c: Domain)
    requires ReachesPlus(g, a, b) && Reaches(g, b, c)
    ensures ReachesPlus(g, a, c)
  {
    var x :| x in Succ(g, a) && Reaches(g, x, b);
    ReachesTrans(g, x, b, c);
  }

  lemma ReachesThenPlus(g: Graph, a: Domain, b: Domain, c: Domain)
    requires Reaches(g, a, b) && ReachesPlus(g, b, c)
    ensures ReachesPlus(g, a, c)
  {
    ReachesSplit(g, a, b);
    if a != b {
      PlusIsReaches(g, b, c);
      PlusThenReaches(g, a, b, c);
    }
  }

  /** A closed set is never left by a path. */
  lemma {:induction false} ClosedStays(g: Graph, s: set<Domain>, a: Domain, b: Domain)
    requires Closed(g, s) && a in s && Reaches(g, a, b)
    ensures b in s
  {
    var p :| IsPath(g, a, b, p);
    ClosedStaysAlong(g, s, a, b, p);
  }

  lemma {:induction false} ClosedStaysAlong(g: Graph, s: set<Domain>, a: Domain, b: Domain, p: seq<Domain>)
    requires Closed(g, s) && a in s && IsPath(g, a, b, p)
    ensures b in s
    decreases |p|
  {
    if |p| > 1 {
      assert p[1] in Succ(g, p[0]);
      ClosedStaysAlong(g, s, p[1], b, p[1..]);
    }
  }

  /** Adding a vertex whose successors all lie in a closed set it is not part of
      keeps the set closed and creates no cycle. */
  lemma AddOnTop(g: Graph, s: set<Domain>, d: Domain)
    requires Closed(g, s) && Acyclic(g, s)
    requires d !in s && Succ(g, d) <= s
    ensures Closed(g, s + {d}) && Acyclic(g, s + {d})
  {
    if ReachesPlus(g, d, d) {
      var c :| c in Succ(g, d) && Reaches(g, c, d);
      ClosedStays(g, s, c, d);
    }
  }

  ghost predicate HasSuccIn(g: Graph, s: set<Domain>, x: Domain) {
    exists y :: y in s && y in Succ(g, x)
  }

  ghost predicate HasPredIn(g: Graph, s: set<Domain>, x: Domain) {
    exists d :: d in s && x in Succ(g, d)
  }

  /** Pigeonhole: if every element of a finite non-empty set has a successor in the set,
      the set contains a cycle. */
  lemma {:induction false} EndlessWalkCloses(g: Graph, s: set<Domain>, start: Domain)
    requires start in s
    requires forall x :: x in s ==> HasSuccIn(g, s, x)
    ensures exists x :: x in s && ReachesPlus(g, x, x)
    decreases |s|
  {
    if !ReachesPlus(g, start, start) {
      // start is not reachable from any of its successors: the set of elements of s
      // strictly reachable from start is smaller and has the same property
      var t := set x | x in s && ReachesPlus(g, start, x);
      forall x | x in t
        ensures HasSuccIn(g, t, x)
      {
        assert HasSuccIn(g, s, x);
        var y :| y in s && y in Succ(g, x);
        EdgeReaches(g, x, y);
        PlusThenReaches(g, start, x, y);
        assert y in t;
      }
      assert HasSuccIn(g, s, start);
      var y :| y in s && y in Succ(g, start);
      EdgeReaches(g, start, y);
      SubsetCard(t, s);
      EndlessWalkCloses(g, t, y);
    }
  }

  /** The vertices of a cycle: each has a successor among them. */
  lemma CycleSet(g: Graph, x: Domain) returns (c: set<Domain>)
    requires ReachesPlus(g, x, x)
    ensures x in c && forall d :: d in c ==> HasSuccIn(g, c, d)
  {
    var y :| y in Succ(g, x) && Reaches(g, y, x);
    var p :| IsPath(g, y, x, p);
    c := set d | d in p;
    forall d | d in c ensures HasSuccIn(g, c, d) {
      var i :| 0 <= i < |p| && p[i] == d;
      if i < |p| - 1 {
        assert p[i + 1] in Succ(g, p[i]) && p[i + 1] in c;
      } else {
        assert y == p[0] && y in c;
      }
    }
  }
}
