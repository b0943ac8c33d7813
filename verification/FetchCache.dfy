/** The integration cache as an object: the stretches of `async_get_integrations` between its
    suspensions, loop by loop. */
module FetchCache {
  import opened Graphs
  import opened Loader
  import opened Fetch

  lemma {:induction false} ClassifyLast(k: Classified, c: CallId, ds: seq<Domain>, d: Domain)
    ensures Classify(k, c, ds + [d]) == ClassifyOne(Classify(k, c, ds), c, d)
    decreases |ds|
  {
    var more := ds + [d];
    if ds == [] {
      assert more[1..] == [];
    } else {
      assert more[1..] == ds[1..] + [d];
      ClassifyLast(ClassifyOne(k, c, ds[0]), c, ds[1..], d);
    }
  }

  /** The needed domains among `done` that were found. */
  function Hits(needed: map<Domain, FutureId>, found: map<Domain, Integration>, done: set<Domain>)
      : map<Domain, Integration>
  {
    map d | d in needed && d in found && d in done :: found[d]
  }

  function Misses(found: map<Domain, Integration>, done: set<Domain>): set<Domain> {
    set d | d in done && d !in found
  }

  /** The loop state after the domains `done`: cache, futures and results. */
  datatype Settled = Settled(cache: map<Domain, Entry>, futures: seq<Future>, results: map<Domain, Answer>)

  function SettledBy(s: State, c: CallId, hits: map<Domain, Integration>, misses: set<Domain>): Settled
    requires c < |s.calls|
  {
    Settled(SettledCache(s.cache, hits, misses), Complete(s.futures, c, hits.Keys + misses),
            SettledResults(s.calls[c].results, hits, misses))
  }

  lemma NothingSettled(s: State, c: CallId)
    requires c < |s.calls|
    ensures SettledBy(s, c, map[], {}) == Settled(s.cache, s.futures, s.calls[c].results)
  {
    assert Complete(s.futures, c, {}) == s.futures;
  }

  /** A call has one pending future for a domain. */
  lemma OnePending(s: State, c: CallId, d: Domain, i: FutureId)
    requires Inv(s) && c < |s.calls| && d in s.calls[c].needed && i < |s.futures|
    requires s.futures[i].owner == c && s.futures[i].domain == d && !s.futures[i].done
    ensures i == s.calls[c].needed[d]
  {
    assert FutureInv(s, i);
  }

  lemma CompleteOneMore(s: State, c: CallId, settled: set<Domain>, d: Domain)
    requires Inv(s) && c < |s.calls| && d in s.calls[c].needed
    ensures var f := s.calls[c].needed[d];
      && f < |s.futures|
      && Complete(s.futures, c, settled + {d})
         == Complete(s.futures, c, settled)[f := Complete(s.futures, c, settled)[f].(done := true)]
  {
    assert CallInv(s.cache, s.futures, c, s.calls[c]);
    var f := s.calls[c].needed[d];
    var one, more := Complete(s.futures, c, settled), Complete(s.futures, c, settled + {d});
    forall i | 0 <= i < |s.futures| && i != f ensures more[i] == one[i] {
      if s.futures[i].owner == c && s.futures[i].domain == d && !s.futures[i].done { OnePending(s, c, d, i); }
    }
  }

  lemma CacheHit(cache: map<Domain, Entry>, hits: map<Domain, Integration>, misses: set<Domain>, d: Domain,
    i: Integration)
    requires d !in misses
    ensures SettledCache(cache, hits[d := i], misses) == SettledCache(cache, hits, misses)[d := Cached(i)]
  {
    hide SettledCache;
    var before, after := SettledCache(cache, hits, misses), SettledCache(cache, hits[d := i], misses);
    assert after.Keys == before[d := Cached(i)].Keys;
  }

  lemma CacheMissed(cache: map<Domain, Entry>, hits: map<Domain, Integration>, misses: set<Domain>, d: Domain)
    requires d !in hits
    ensures SettledCache(cache, hits, misses + {d}) == SettledCache(cache, hits, misses) - {d}
  {
    hide SettledCache;
    var before, after := SettledCache(cache, hits, misses), SettledCache(cache, hits, misses + {d});
    assert after.Keys == (before - {d}).Keys;
  }

  lemma ResultHit(results: map<Domain, Answer>, hits: map<Domain, Integration>, misses: set<Domain>, d: Domain,
    i: Integration)
    requires d !in misses
    ensures SettledResults(results, hits[d := i], misses) == SettledResults(results, hits, misses)[d := Found(i)]
  {
    hide SettledResults;
    var before, after := SettledResults(results, hits, misses), SettledResults(results, hits[d := i], misses);
    assert after.Keys == before[d := Found(i)].Keys;
  }

  lemma ResultMissed(results: map<Domain, Answer>, hits: map<Domain, Integration>, misses: set<Domain>, d: Domain)
    ensures SettledResults(results, hits, misses + {d}) == SettledResults(results, hits, misses)[d := Missing]
  {
    hide SettledResults;
    var before, after := SettledResults(results, hits, misses), SettledResults(results, hits, misses + {d});
    assert after.Keys == before[d := Missing].Keys;
  }

  lemma SettleHit(s: State, c: CallId, hits: map<Domain, Integration>, misses: set<Domain>, d: Domain, i: Integration)
    requires Inv(s) && c < |s.calls| && d in s.calls[c].needed && d !in misses
    ensures var f, before := s.calls[c].needed[d], SettledBy(s, c, hits, misses);
      && f < |before.futures|
      && SettledBy(s, c, hits[d := i], misses)
         == Settled(before.cache[d := Cached(i)], before.futures[f := before.futures[f].(done := true)],
                    before.results[d := Found(i)])
  {
    hide Complete, SettledCache, SettledResults, Inv;
    CompleteOneMore(s, c, hits.Keys + misses, d);
    assert hits[d := i].Keys + misses == hits.Keys + misses + {d};
    CacheHit(s.cache, hits, misses, d, i);
    ResultHit(s.calls[c].results, hits, misses, d, i);
  }

  lemma SettleMiss(s: State, c: CallId, hits: map<Domain, Integration>, misses: set<Domain>, d: Domain)
    requires Inv(s) && c < |s.calls| && d in s.calls[c].needed && d !in hits
    ensures var f, before := s.calls[c].needed[d], SettledBy(s, c, hits, misses);
      && f < |before.futures|
      && SettledBy(s, c, hits, misses + {d})
         == Settled(before.cache - {d}, before.futures[f := before.futures[f].(done := true)],
                    before.results[d := Missing])
  {
    hide Complete, SettledCache, SettledResults, Inv;
    CompleteOneMore(s, c, hits.Keys + misses, d);
    assert hits.Keys + (misses + {d}) == hits.Keys + misses + {d};
    CacheMissed(s.cache, hits, misses, d);
    ResultMissed(s.calls[c].results, hits, misses, d);
  }

  lemma HitsMore(needed: map<Domain, FutureId>, found: map<Domain, Integration>, done: set<Domain>, d: Domain)
    requires d in needed
    ensures Hits(needed, found, done + {d})
         == if d in found then Hits(needed, found, done)[d := found[d]] else Hits(needed, found, done)
    ensures Misses(found, done + {d}) == if d in found then Misses(found, done) else Misses(found, done) + {d}
  {
  }

  class IntegrationCache {
    var cache: map<Domain, Entry>
    var futures: seq<Future>
    /** The calls made so far, with their local variables. */
    var calls: seq<Call>

    ghost function Model(): State
      reads this
    {
      State(cache, futures, calls)
    }

    constructor ()
      ensures Model() == INIT && Inv(Model())
    {
      cache, futures, calls := map[], [], [];
    }

    /** From the call to its first suspension. */
    method AsyncGetIntegrations(domains: seq<Domain>) returns (c: CallId)
      requires Inv(Model())
      modifies this
      ensures Inv(Model()) && Model() == Apply(old(Model()), Enter(domains)) && c == old(|calls|)
    {
      hide Inv, ClassifyOne;
      ghost var start := Fresh(Model(), domains);
      StepInv(Model(), Enter(domains));
      c := |calls|;
      var call := Call(domains, map[], map[], map[], Waiting);
      assert domains[..0] == [];
      for n := 0 to |domains|
        invariant calls == old(calls) && c == |calls|
        invariant Classified(cache, futures, call) == Classify(start, c, domains[..n])
      {
        var d := domains[n];
        assert domains[..n + 1] == domains[..n] + [d];
        ClassifyLast(start, c, domains[..n], d);
        call := ClassifyDomain(c, call, d);
      }
      assert domains[..|domains|] == domains;
      calls := calls + [call.(stage := FirstStage(call))];
    }

    /** One round of the classification loop. */
    method ClassifyDomain(c: CallId, call: Call, d: Domain) returns (r: Call)
      modifies this`cache, this`futures
      ensures Classified(cache, futures, r) == ClassifyOne(Classified(old(cache), old(futures), call), c, d)
    {
      if d in cache {
        match cache[d] {
          case Cached(i) => r := call.(results := call.results[d := Found(i)]);
          case Loading(f) => r := call.(inProgress := call.inProgress[d := f]);
        }
      } else if '.' in d.name {
        r := call.(results := call.results[d := Invalid]);
      } else {
        cache := cache[d := Loading(|futures|)];
        r := call.(needed := call.needed[d := |futures|]);
        futures := futures + [Future(c, d, false)];
      }
    }

    /** The awaited futures are done: the cache is read again. */
    method FuturesDone(c: CallId)
      requires Inv(Model()) && Enabled(Model(), Wake(c))
      modifies this`calls
      ensures Inv(Model()) && Model() == Apply(old(Model()), Wake(c))
    {
      hide Inv, RereadAll;
      StepInv(Model(), Wake(c));
      var call := calls[c];
      var results, todo := call.results, call.inProgress.Keys;
      RereadNone(cache, call.results);
      assert call.inProgress.Keys - todo == {};
      while todo != {}
        invariant calls == old(calls) && todo <= call.inProgress.Keys
        invariant results == RereadAll(cache, call.results, call.inProgress.Keys - todo)
        decreases todo
      {
        var d :| d in todo;
        RereadOne(cache, call.results, call.inProgress.Keys - todo, d);
        assert call.inProgress.Keys - (todo - {d}) == call.inProgress.Keys - todo + {d};
        results := results[d := Reread(cache, d)];
        todo := todo - {d};
      }
      assert call.inProgress.Keys - todo == call.inProgress.Keys;
      calls := calls[c := call.(results := results, inProgress := map[],
                                stage := if call.needed.Keys == {} then Returned else Custom)];
    }

    /** The custom integrations are known. */
    method CustomComponentsLoaded(c: CallId, custom: map<Domain, Integration>)
      requires Inv(Model()) && Enabled(Model(), CustomLoaded(c, custom))
      modifies this
      ensures Inv(Model()) && Model() == Apply(old(Model()), CustomLoaded(c, custom))
    {
      hide Inv, Complete, SettledBy, Hits, Apply;
      ghost var s := Model();
      StepInv(s, CustomLoaded(c, custom));
      var call := calls[c];
      var results, todo, left := call.results, call.needed.Keys, call.needed;
      ghost var done: set<Domain> := {};
      NothingSettled(s, c);
      NoHits(call.needed, custom);
      while todo != {}
        invariant calls == s.calls && todo == call.needed.Keys - done && done <= call.needed.Keys
        invariant Settled(cache, futures, results) == SettledBy(s, c, Hits(call.needed, custom, done), {})
        invariant left == call.needed - Hits(call.needed, custom, done).Keys
        decreases todo
      {
        var d :| d in todo;
        HitsMore(call.needed, custom, done, d);
        if d in custom {
          SettleHit(s, c, Hits(call.needed, custom, done), {}, d, custom[d]);
          results := results[d := Found(custom[d])];
          cache := cache[d := Cached(custom[d])];
          var f := call.needed[d];
          futures := futures[f := futures[f].(done := true)];
          left := left - {d};
        }
        done := done + {d};
        todo := todo - {d};
      }
      AllHits(call.needed, custom, done);
      calls := calls[c := call.(results := results, needed := left, stage := if left == map[] then Returned else Root)];
      CustomStored(s, c, custom, Settled(cache, futures, results), left);
    }

    /** The executor job has read the manifests of the rest. */
    method RootComponentsLoaded(c: CallId, found: map<Domain, Integration>)
      requires Inv(Model()) && Enabled(Model(), RootLoaded(c, found))
      modifies this
      ensures Inv(Model()) && Model() == Apply(old(Model()), RootLoaded(c, found))
    {
      hide Inv, Complete, SettledBy, Hits, Misses, Apply;
      ghost var s := Model();
      StepInv(s, RootLoaded(c, found));
      var call := calls[c];
      var results, todo := call.results, call.needed.Keys;
      ghost var done: set<Domain> := {};
      NothingSettled(s, c);
      NoHits(call.needed, found);
      while todo != {}
        invariant calls == s.calls && todo == call.needed.Keys - done && done <= call.needed.Keys
        invariant Settled(cache, futures, results)
               == SettledBy(s, c, Hits(call.needed, found, done), Misses(found, done))
        decreases todo
      {
        var d :| d in todo;
        HitsMore(call.needed, found, done, d);
        NotYetSettled(call.needed, found, done, d);
        var f := call.needed[d];
        if d in found {
          SettleHit(s, c, Hits(call.needed, found, done), Misses(found, done), d, found[d]);
          results := results[d := Found(found[d])];
          cache := cache[d := Cached(found[d])];
        } else {
          SettleMiss(s, c, Hits(call.needed, found, done), Misses(found, done), d);
          cache := cache - {d};
          results := results[d := Missing];
        }
        futures := futures[f := futures[f].(done := true)];
        done := done + {d};
        todo := todo - {d};
      }
      AllHits(call.needed, found, done);
      calls := calls[c := call.(results := results, needed := map[], stage := Returned)];
      RootStored(s, c, found, Settled(cache, futures, results));
    }
  }

  lemma RereadNone(cache: map<Domain, Entry>, results: map<Domain, Answer>)
    ensures RereadAll(cache, results, {}) == results
  {
  }

  lemma RereadOne(cache: map<Domain, Entry>, results: map<Domain, Answer>, done: set<Domain>, d: Domain)
    ensures RereadAll(cache, results, done + {d}) == RereadAll(cache, results, done)[d := Reread(cache, d)]
  {
  }

  lemma NoHits(needed: map<Domain, FutureId>, found: map<Domain, Integration>)
    ensures Hits(needed, found, {}) == map[] && Misses(found, {}) == {}
    ensures needed - Hits(needed, found, {}).Keys == needed
  {
  }

  lemma NotYetSettled(needed: map<Domain, FutureId>, found: map<Domain, Integration>, done: set<Domain>, d: Domain)
    requires d !in done
    ensures d !in Hits(needed, found, done) && d !in Misses(found, done)
  {
  }

  lemma AllHits(needed: map<Domain, FutureId>, found: map<Domain, Integration>, done: set<Domain>)
    requires done == needed.Keys
    ensures Hits(needed, found, done) == FoundOf(needed, found)
    ensures Misses(found, done) == needed.Keys - found.Keys
  {
  }

  lemma CustomStored(s: State, c: CallId, custom: map<Domain, Integration>, r: Settled, left: map<Domain, FutureId>)
    requires Enabled(s, CustomLoaded(c, custom))
    requires r == SettledBy(s, c, FoundOf(s.calls[c].needed, custom), {})
    requires left == s.calls[c].needed - FoundOf(s.calls[c].needed, custom).Keys
    ensures Apply(s, CustomLoaded(c, custom))
         == State(r.cache, r.futures, s.calls[c := s.calls[c].(results := r.results, needed := left,
                                                                stage := if left == map[] then Returned else Root)])
  {
    hide SettledCache, SettledResults, Complete, FoundOf;
    var needed := s.calls[c].needed;
    var hits := FoundOf(needed, custom);
    LeftOver(needed, custom);
    assert hits.Keys + {} == hits.Keys;
    assert needed - hits.Keys - {} == left;
  }

  lemma LeftOver(needed: map<Domain, FutureId>, custom: map<Domain, Integration>)
    ensures needed - FoundOf(needed, custom).Keys == map[] <==> needed.Keys <= custom.Keys
  {
    var left := needed - FoundOf(needed, custom).Keys;
    assert left.Keys == needed.Keys - custom.Keys;
    if needed.Keys <= custom.Keys { assert left.Keys == {}; }
    if left == map[] {
      forall d | d in needed ensures d in custom { assert d !in left; }
    }
  }

  lemma RootStored(s: State, c: CallId, found: map<Domain, Integration>, r: Settled)
    requires Enabled(s, RootLoaded(c, found))
    requires r == SettledBy(s, c, FoundOf(s.calls[c].needed, found), s.calls[c].needed.Keys - found.Keys)
    ensures Apply(s, RootLoaded(c, found))
         == State(r.cache, r.futures,
                  s.calls[c := s.calls[c].(results := r.results, needed := map[], stage := Returned)])
  {
    hide SettledCache, SettledResults, Complete, FoundOf;
    var needed := s.calls[c].needed;
    var left := needed - FoundOf(needed, found).Keys - (needed.Keys - found.Keys);
    assert left.Keys == {};
  }
}
