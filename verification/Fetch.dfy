/** The shared integration cache of `async_get_integrations` in homeassistant/loader.py:
    any number of interleaved calls, each suspended at most three times. */
module Fetch {
  import opened Graphs
  import opened Loader

  type FutureId = nat
  type CallId = nat

  datatype Entry = Cached(integration: Integration) | Loading(future: FutureId)

  /** `Unfinished` is the future a waiter finds in the cache when the domain it waited for
      turned out to be missing and was requested again in the meantime. */
  datatype Answer = Found(integration: Integration) | Invalid | Missing | Unfinished(future: FutureId)

  /** A future made by the call `owner` for one domain. */
  datatype Future = Future(owner: CallId, domain: Domain, done: bool)

  /** Where a call is suspended: on the futures of others, on the custom integrations, on
      the executor job that reads manifests; or it has returned. */
  datatype Stage = Waiting | Custom | Root | Returned

  datatype Call = Call(
    domains: seq<Domain>,
    results: map<Domain, Answer>,
    needed: map<Domain, FutureId>,
    inProgress: map<Domain, FutureId>,
    stage: Stage)

  datatype State = State(cache: map<Domain, Entry>, futures: seq<Future>, calls: seq<Call>)

  const INIT: State := State(map[], [], [])

  /** A step names what the outside world answered: the custom integrations, and the
      manifests that could be read. */
  datatype Step =
    | Enter(domains: seq<Domain>)
    | Wake(call: CallId)
    | CustomLoaded(call: CallId, custom: map<Domain, Integration>)
    | RootLoaded(call: CallId, found: map<Domain, Integration>)

  // -------------------------------------------------------------------- the steps

  /** The classification loop at the start of a call, which runs without a suspension. */
  datatype Classified = Classified(cache: map<Domain, Entry>, futures: seq<Future>, call: Call)

  function ClassifyOne(k: Classified, c: CallId, d: Domain): Classified {
    if d in k.cache then
      match k.cache[d]
      case Cached(i) => k.(call := k.call.(results := k.call.results[d := Found(i)]))
      case Loading(f) => k.(call := k.call.(inProgress := k.call.inProgress[d := f]))
    else if '.' in d.name then
      k.(call := k.call.(results := k.call.results[d := Invalid]))
    else
      Classified(k.cache[d := Loading(|k.futures|)],
                 k.futures + [Future(c, d, false)],
                 k.call.(needed := k.call.needed[d := |k.futures|]))
  }

  function Classify(k: Classified, c: CallId, domains: seq<Domain>): Classified
    decreases |domains|
  {
    if domains == [] then k
    else Classify(ClassifyOne(k, c, domains[0]), c, domains[1..])
  }

  function Fresh(s: State, domains: seq<Domain>): Classified {
    Classified(s.cache, s.futures, Call(domains, map[], map[], map[], Waiting))
  }

  function FirstStage(call: Call): Stage {
    if call.inProgress.Keys != {} then Waiting else if call.needed.Keys != {} then Custom else Returned
  }

  function Complete(futures: seq<Future>, owner: CallId, domains: set<Domain>): (r: seq<Future>)
    ensures |r| == |futures|
  {
    seq(|futures|, i requires 0 <= i < |futures| =>
      if futures[i].owner == owner && futures[i].domain in domains then futures[i].(done := true) else futures[i])
  }

  function Reread(cache: map<Domain, Entry>, d: Domain): Answer {
    if d !in cache then Missing
    else match cache[d] case Cached(i) => Found(i) case Loading(f) => Unfinished(f)
  }

  function RereadAll(cache: map<Domain, Entry>, results: map<Domain, Answer>,
    waited: set<Domain>): (r: map<Domain, Answer>)
    ensures r.Keys == results.Keys + waited
    ensures forall d :: d in r ==> r[d] == if d in waited then Reread(cache, d) else results[d]
  {
    map d | d in results.Keys + waited :: if d in waited then Reread(cache, d) else results[d]
  }

  predicate IsDone(s: State, f: FutureId) {
    f < |s.futures| && s.futures[f].done
  }

  predicate Enabled(s: State, step: Step) {
    match step
    case Enter(_) => true
    case Wake(c) =>
      && c < |s.calls| && s.calls[c].stage == Waiting
      && forall d :: d in s.calls[c].inProgress ==> IsDone(s, s.calls[c].inProgress[d])
    case CustomLoaded(c, _) => c < |s.calls| && s.calls[c].stage == Custom
    case RootLoaded(c, _) => c < |s.calls| && s.calls[c].stage == Root
  }

  function SettledResults(results: map<Domain, Answer>, hits: map<Domain, Integration>,
    misses: set<Domain>): (r: map<Domain, Answer>)
    ensures r.Keys == results.Keys + hits.Keys + misses
    ensures forall d :: d in r ==>
      r[d] == if d in misses then Missing else if d in hits then Found(hits[d]) else results[d]
  {
    map d | d in results.Keys + hits.Keys + misses ::
      if d in misses then Missing else if d in hits then Found(hits[d]) else results[d]
  }

  function SettledCache(cache: map<Domain, Entry>, hits: map<Domain, Integration>,
    misses: set<Domain>): (r: map<Domain, Entry>)
    ensures r.Keys == cache.Keys - misses + hits.Keys
    ensures forall d :: d in r ==> r[d] == if d in hits then Cached(hits[d]) else cache[d]
  {
    map d | d in cache.Keys - misses + hits.Keys :: if d in hits then Cached(hits[d]) else cache[d]
  }

  /** A call takes over integrations for domains it made the futures for. */
  function Store(s: State, c: CallId, hits: map<Domain, Integration>, misses: set<Domain>, stage: Stage): State
    requires c < |s.calls|
  {
    var call := s.calls[c];
    State(SettledCache(s.cache, hits, misses),
          Complete(s.futures, c, hits.Keys + misses),
          s.calls[c := call.(results := SettledResults(call.results, hits, misses),
                             needed := call.needed - hits.Keys - misses, stage := stage)])
  }

  /** What was found of the needed domains. */
  function FoundOf(needed: map<Domain, FutureId>, found: map<Domain, Integration>): (r: map<Domain, Integration>)
    ensures r.Keys == needed.Keys * found.Keys
    ensures forall d :: d in r ==> r[d] == found[d]
  {
    map d | d in needed && d in found :: found[d]
  }

  function Apply(s: State, step: Step): State
    requires Enabled(s, step)
  {
    match step
    case Enter(domains) =>
      var k := Classify(Fresh(s, domains), |s.calls|, domains);
      State(k.cache, k.futures, s.calls + [k.call.(stage := FirstStage(k.call))])
    case Wake(c) =>
      var call := s.calls[c];
      var results := RereadAll(s.cache, call.results, call.inProgress.Keys);
      s.(calls := s.calls[c := call.(results := results, inProgress := map[],
                                     stage := if call.needed.Keys == {} then Returned else Custom)])
    case CustomLoaded(c, custom) =>
      var needed := s.calls[c].needed;
      var hits := FoundOf(needed, custom);
      Store(s, c, hits, {}, if needed.Keys <= custom.Keys then Returned else Root)
    case RootLoaded(c, found) =>
      var needed := s.calls[c].needed;
      var hits := FoundOf(needed, found);
      Store(s, c, hits, needed.Keys - found.Keys, Returned)
  }

  // ---------------------------------------------------------------- the invariant

  /** The futures a call made are pending and stand in the cache. */
  predicate NeededInv(cache: map<Domain, Entry>, futures: seq<Future>, c: CallId, call: Call) {
    forall d :: d in call.needed ==>
      && call.needed[d] < |futures|
      && futures[call.needed[d]] == Future(c, d, false)
      && d in cache && cache[d] == Loading(call.needed[d])
  }

  /** A call waits for futures of the right domain, made by itself or before it entered. */
  predicate ProgressInv(cache: map<Domain, Entry>, futures: seq<Future>, c: CallId, call: Call) {
    forall d :: d in call.inProgress ==>
      && call.inProgress[d] < |futures|
      && futures[call.inProgress[d]].domain == d
      && futures[call.inProgress[d]].owner <= c
      && (d in cache && cache[d].Loading? ==> call.inProgress[d] <= cache[d].future)
  }

  /** An integration handed out is the one in the cache. */
  predicate ResultInv(cache: map<Domain, Entry>, call: Call) {
    forall d :: d in call.results && call.results[d].Found? ==>
      d in cache && cache[d] == Cached(call.results[d].integration)
  }

  predicate ShapeInv(call: Call) {
    && ToSet(call.domains) == call.results.Keys + call.needed.Keys + call.inProgress.Keys
    && (call.stage.Returned? ==> call.needed.Keys == {})
    && (!call.stage.Waiting? ==> call.inProgress.Keys == {})
    && (call.stage.Custom? || call.stage.Root? ==> call.needed.Keys != {})
  }

  predicate CallInv(cache: map<Domain, Entry>, futures: seq<Future>, c: CallId, call: Call) {
    && NeededInv(cache, futures, c, call) && ProgressInv(cache, futures, c, call)
    && ResultInv(cache, call) && ShapeInv(call)
  }

  /** A pending future is the one its owner still needs. */
  predicate FutureInv(s: State, i: FutureId)
    requires i < |s.futures|
  {
    var f := s.futures[i];
    !f.done ==> f.owner < |s.calls| && f.domain in s.calls[f.owner].needed && s.calls[f.owner].needed[f.domain] == i
  }

  predicate EntryInv(s: State, d: Domain)
    requires d in s.cache
  {
    match s.cache[d]
    case Cached(_) => true
    case Loading(f) => f < |s.futures| && s.futures[f].domain == d && !s.futures[f].done
  }

  ghost predicate Inv(s: State) {
    && (forall c :: 0 <= c < |s.calls| ==> CallInv(s.cache, s.futures, c, s.calls[c]))
    && (forall i :: 0 <= i < |s.futures| ==> FutureInv(s, i))
    && (forall d :: d in s.cache ==> EntryInv(s, d))
  }

  // ------------------------------------------------------------- classification

  /** `d` can be requested: it is not in the cache, and it is a plain domain. */
  predicate Requestable(s: State, d: Domain) {
    d !in s.cache && '.' !in d.name
  }

  ghost predicate Twice(ds: seq<Domain>, d: Domain) {
    exists i, j :: 0 <= i < j < |ds| && ds[i] == d == ds[j]
  }

  /** The new futures are exactly the ones for the needed domains. */
  ghost predicate NewFutures(s: State, k: Classified, c: CallId) {
    && |s.futures| <= |k.futures|
    && (forall i :: 0 <= i < |s.futures| ==> k.futures[i] == s.futures[i])
    && (forall i :: |s.futures| <= i < |k.futures| ==>
         && k.futures[i].owner == c && !k.futures[i].done
         && k.futures[i].domain in k.call.needed && k.call.needed[k.futures[i].domain] == i)
    && (forall d :: d in k.call.needed ==>
         && |s.futures| <= k.call.needed[d] < |k.futures| && k.futures[k.call.needed[d]].domain == d)
  }

  /** The cache has grown by the needed domains. */
  ghost predicate NewEntries(s: State, k: Classified) {
    && k.cache.Keys == s.cache.Keys + k.call.needed.Keys
    && s.cache.Keys !! k.call.needed.Keys
    && (forall d :: d in s.cache ==> k.cache[d] == s.cache[d])
    && (forall d :: d in k.call.needed ==> k.cache[d] == Loading(k.call.needed[d]))
  }

  ghost predicate SortedNeeded(s: State, k: Classified, ds: seq<Domain>) {
    forall d :: d in k.call.needed <==> d in ds && Requestable(s, d)
  }

  ghost predicate SortedKeys(k: Classified, ds: seq<Domain>) {
    ToSet(ds) == k.call.results.Keys + k.call.needed.Keys + k.call.inProgress.Keys
  }

  ghost predicate SortedFound(s: State, k: Classified) {
    forall d :: d in k.call.results && k.call.results[d].Found? ==>
      d in s.cache && s.cache[d] == Cached(k.call.results[d].integration)
  }

  /** Every domain listed has an answer, is needed, or is waited for. */
  ghost predicate Sorted(s: State, k: Classified, ds: seq<Domain>) {
    SortedNeeded(s, k, ds) && SortedKeys(k, ds) && SortedFound(s, k)
  }

  /** A domain is waited for if somebody else is loading it, or if it is listed twice. */
  ghost predicate WaitsExplained(s: State, k: Classified, ds: seq<Domain>) {
    && (forall d :: d in k.call.inProgress ==>
         || (d in s.cache && s.cache[d] == Loading(k.call.inProgress[d]))
         || (d in k.call.needed && k.call.inProgress[d] == k.call.needed[d]))
    && (forall d :: d in k.call.needed ==> (d in k.call.inProgress <==> Twice(ds, d)))
  }

  /** What the classification loop has done after the domains `ds`. */
  ghost predicate ClassifiedInv(s: State, k: Classified, c: CallId, ds: seq<Domain>) {
    NewFutures(s, k, c) && NewEntries(s, k) && Sorted(s, k, ds) && WaitsExplained(s, k, ds)
  }

  lemma TwiceSnoc(ds: seq<Domain>, d: Domain, e: Domain)
    ensures Twice(ds + [d], e) <==> Twice(ds, e) || (e == d && e in ds)
  {
    var more := ds + [d];
    if Twice(ds, e) {
      var i, j :| 0 <= i < j < |ds| && ds[i] == e == ds[j];
      assert more[i] == e == more[j];
    }
    if e == d && e in ds {
      var i :| 0 <= i < |ds| && ds[i] == e;
      assert more[i] == e == more[|ds|];
    }
    if Twice(more, e) {
      var i, j :| 0 <= i < j < |more| && more[i] == e == more[j];
      assert ds[i] == e;
    }
  }

  lemma ClassifyOneFutures(s: State, k: Classified, c: CallId, d: Domain)
    requires NewFutures(s, k, c) && NewEntries(s, k)
    ensures NewFutures(s, ClassifyOne(k, c, d), c)
  {
  }

  lemma ClassifyOneEntries(s: State, k: Classified, c: CallId, d: Domain)
    requires NewEntries(s, k)
    ensures NewEntries(s, ClassifyOne(k, c, d))
  {
  }

  lemma ClassifyOneNeeded(s: State, k: Classified, c: CallId, ds: seq<Domain>, d: Domain)
    requires NewEntries(s, k) && SortedNeeded(s, k, ds)
    ensures SortedNeeded(s, ClassifyOne(k, c, d), ds + [d])
  {
    ListedNext(ds, d);
  }

  lemma ClassifyOneKeys(k: Classified, c: CallId, ds: seq<Domain>, d: Domain)
    requires SortedKeys(k, ds)
    ensures SortedKeys(ClassifyOne(k, c, d), ds + [d])
  {
    ListedNext(ds, d);
    hide ToSet;
    var r := ClassifyOne(k, c, d);
    assert r.call.results.Keys + r.call.needed.Keys + r.call.inProgress.Keys
        == k.call.results.Keys + k.call.needed.Keys + k.call.inProgress.Keys + {d};
  }

  lemma ClassifyOneFound(s: State, k: Classified, c: CallId, d: Domain)
    requires NewEntries(s, k) && SortedFound(s, k)
    ensures SortedFound(s, ClassifyOne(k, c, d))
  {
  }

  lemma ClassifyOneSorted(s: State, k: Classified, c: CallId, ds: seq<Domain>, d: Domain)
    requires NewEntries(s, k) && Sorted(s, k, ds)
    ensures Sorted(s, ClassifyOne(k, c, d), ds + [d])
  {
    hide NewEntries, SortedNeeded, SortedKeys, SortedFound, ClassifyOne;
    ClassifyOneNeeded(s, k, c, ds, d);
    ClassifyOneKeys(k, c, ds, d);
    ClassifyOneFound(s, k, c, d);
  }

  lemma ListedNext(ds: seq<Domain>, d: Domain)
    ensures forall e :: e in ds + [d] <==> e in ds || e == d
    ensures ToSet(ds + [d]) == ToSet(ds) + {d}
  {
  }

  lemma ClassifyOneWaits(s: State, k: Classified, c: CallId, ds: seq<Domain>, d: Domain)
    requires NewEntries(s, k) && Sorted(s, k, ds) && WaitsExplained(s, k, ds)
    ensures WaitsExplained(s, ClassifyOne(k, c, d), ds + [d])
  {
    hide Twice, Requestable;
    forall e
      ensures Twice(ds + [d], e) <==> Twice(ds, e) || (e == d && e in ds)
    {
      TwiceSnoc(ds, d, e);
    }
    if d in k.cache {
      assert d in k.call.needed ==> d in ds;
    } else {
      NotListedYet(s, k, ds, d);
    }
  }

  lemma NotListedYet(s: State, k: Classified, ds: seq<Domain>, d: Domain)
    requires NewEntries(s, k) && Sorted(s, k, ds) && d !in k.cache
    ensures Requestable(s, d) ==> d !in ds && !Twice(ds, d)
    ensures Requestable(s, d) <==> '.' !in d.name
  {
  }

  lemma ClassifyOneInv(s: State, k: Classified, c: CallId, ds: seq<Domain>, d: Domain)
    requires ClassifiedInv(s, k, c, ds)
    ensures ClassifiedInv(s, ClassifyOne(k, c, d), c, ds + [d])
  {
    ClassifyOneFutures(s, k, c, d);
    ClassifyOneEntries(s, k, c, d);
    ClassifyOneSorted(s, k, c, ds, d);
    ClassifyOneWaits(s, k, c, ds, d);
  }

  lemma NothingClassified(s: State, c: CallId, domains: seq<Domain>)
    ensures ClassifiedInv(s, Fresh(s, domains), c, [])
  {
  }

  lemma ShiftOne(seen: seq<Domain>, rest: seq<Domain>)
    requires rest != []
    ensures seen + [rest[0]] + rest[1..] == seen + rest
  {
  }

  lemma {:induction false} ClassifyInv(s: State, k: Classified, c: CallId, seen: seq<Domain>, rest: seq<Domain>)
    requires ClassifiedInv(s, k, c, seen)
    ensures ClassifiedInv(s, Classify(k, c, rest), c, seen + rest)
    decreases |rest|
  {
    if rest == [] {
      assert seen + rest == seen;
    } else {
      ClassifyOneInv(s, k, c, seen, rest[0]);
      ShiftOne(seen, rest);
      ClassifyInv(s, ClassifyOne(k, c, rest[0]), c, seen + [rest[0]], rest[1..]);
    }
  }

  /** The call made by `Enter`. */
  function Entered(s: State, domains: seq<Domain>): Classified {
    Classify(Fresh(s, domains), |s.calls|, domains)
  }

  lemma EnteredInv(s: State, domains: seq<Domain>)
    ensures ClassifiedInv(s, Entered(s, domains), |s.calls|, domains)
    ensures Entered(s, domains).call.domains == domains
  {
    NothingClassified(s, |s.calls|, domains);
    ClassifyInv(s, Fresh(s, domains), |s.calls|, [], domains);
    assert [] + domains == domains;
    DomainsKept(Fresh(s, domains), |s.calls|, domains);
  }

  lemma {:induction false} DomainsKept(k: Classified, c: CallId, domains: seq<Domain>)
    ensures Classify(k, c, domains).call.domains == k.call.domains
    decreases |domains|
  {
    if domains != [] {
      DomainsKept(ClassifyOne(k, c, domains[0]), c, domains[1..]);
    }
  }

  // ------------------------------------------------------------- invariant proof

  lemma EnteredProgress(s: State, k: Classified, domains: seq<Domain>)
    requires Inv(s) && ClassifiedInv(s, k, |s.calls|, domains)
    ensures ProgressInv(k.cache, k.futures, |s.calls|, k.call)
  {
    hide Twice, Sorted, CallInv;
    forall d | d in k.call.inProgress
      ensures k.call.inProgress[d] < |k.futures|
      ensures k.futures[k.call.inProgress[d]].domain == d && k.futures[k.call.inProgress[d]].owner <= |s.calls|
      ensures d in k.cache && k.cache[d].Loading? ==> k.call.inProgress[d] <= k.cache[d].future
    {
      if d !in k.call.needed {
        assert EntryInv(s, d) && FutureInv(s, k.call.inProgress[d]);
      }
    }
  }

  lemma EnteredCallInv(s: State, domains: seq<Domain>)
    requires Inv(s)
    ensures var k := Entered(s, domains);
            CallInv(k.cache, k.futures, |s.calls|, k.call.(stage := FirstStage(k.call)))
  {
    hide Twice, Inv, Entered, WaitsExplained, EntryInv, FutureInv;
    var k := Entered(s, domains);
    EnteredInv(s, domains);
    EnteredProgress(s, k, domains);
  }

  /** Earlier calls do not notice a new one. */
  lemma EnteredKeepsCall(s: State, k: Classified, c: CallId, e: CallId, call: Call)
    requires NewFutures(s, k, c) && NewEntries(s, k) && CallInv(s.cache, s.futures, e, call)
    ensures CallInv(k.cache, k.futures, e, call)
  {
  }

  lemma EnterInv(s: State, domains: seq<Domain>)
    requires Inv(s)
    ensures Inv(Apply(s, Enter(domains)))
  {
    var k, t := Entered(s, domains), Apply(s, Enter(domains));
    EnteredInv(s, domains);
    EnteredCallInv(s, domains);
    forall c | 0 <= c < |t.calls|
      ensures CallInv(t.cache, t.futures, c, t.calls[c])
    {
      if c < |s.calls| { EnteredKeepsCall(s, k, |s.calls|, c, s.calls[c]); }
    }
    forall i | 0 <= i < |t.futures|
      ensures FutureInv(t, i)
    {
      if i < |s.futures| {
        assert t.futures[i] == s.futures[i];
        assert FutureInv(s, i);
      }
    }
    forall d | d in t.cache
      ensures EntryInv(t, d)
    {
      if d in s.cache { assert EntryInv(s, d); }
    }
  }

  lemma WakeCall(s: State, c: CallId)
    requires Enabled(s, Wake(c)) && CallInv(s.cache, s.futures, c, s.calls[c])
    ensures CallInv(s.cache, s.futures, c, Apply(s, Wake(c)).calls[c])
  {
    var call, after := s.calls[c], Apply(s, Wake(c)).calls[c];
    assert after.results.Keys == call.results.Keys + call.inProgress.Keys;
  }

  lemma WakeInv(s: State, c: CallId)
    requires Inv(s) && Enabled(s, Wake(c))
    ensures Inv(Apply(s, Wake(c)))
  {
    hide CallInv;
    var t := Apply(s, Wake(c));
    forall e | 0 <= e < |t.calls|
      ensures CallInv(t.cache, t.futures, e, t.calls[e])
    {
      assert CallInv(s.cache, s.futures, e, s.calls[e]);
      if e == c { WakeCall(s, c); }
    }
    forall i | 0 <= i < |t.futures| ensures FutureInv(t, i) { assert FutureInv(s, i); }
    forall d | d in t.cache ensures EntryInv(t, d) { assert EntryInv(s, d); }
  }

  /** What `Store` needs to know about the call whose domains are settled. */
  ghost predicate Settles(s: State, c: CallId, hits: map<Domain, Integration>, misses: set<Domain>, stage: Stage) {
    && c < |s.calls| && (s.calls[c].stage.Custom? || s.calls[c].stage.Root?)
    && hits.Keys + misses <= s.calls[c].needed.Keys && hits.Keys !! misses
    && (stage.Returned? || stage.Root?)
    && (stage.Returned? <==> hits.Keys + misses == s.calls[c].needed.Keys)
  }

  /** Entries of domains that the call does not settle, and integrations, survive. */
  lemma StoreKeepsEntry(s: State, c: CallId, hits: map<Domain, Integration>, misses: set<Domain>, stage: Stage,
    d: Domain)
    requires Settles(s, c, hits, misses, stage) && NeededInv(s.cache, s.futures, c, s.calls[c])
    requires d in s.cache && (s.cache[d].Cached? || d !in hits.Keys + misses)
    ensures d in Store(s, c, hits, misses, stage).cache && Store(s, c, hits, misses, stage).cache[d] == s.cache[d]
  {
    if s.cache[d].Cached? { CachedIsNotNeeded(s, c, d); }
  }

  lemma CachedIsNotNeeded(s: State, c: CallId, d: Domain)
    requires c < |s.calls| && NeededInv(s.cache, s.futures, c, s.calls[c]) && d in s.cache && s.cache[d].Cached?
    ensures d !in s.calls[c].needed
  {
  }

  lemma NeededOnce(s: State, c: CallId, e: CallId, d: Domain)
    requires c < |s.calls| && e < |s.calls| && c != e && d in s.calls[e].needed
    requires NeededInv(s.cache, s.futures, c, s.calls[c]) && NeededInv(s.cache, s.futures, e, s.calls[e])
    ensures d !in s.calls[c].needed
  {
  }

  /** Only futures of settled domains are completed. */
  lemma StoreKeepsFuture(s: State, c: CallId, hits: map<Domain, Integration>, misses: set<Domain>, stage: Stage,
    i: FutureId)
    requires c < |s.calls| && i < |s.futures|
    requires s.futures[i].owner != c || s.futures[i].domain !in hits.Keys + misses
    ensures Store(s, c, hits, misses, stage).futures[i] == s.futures[i]
  {
  }

  lemma StoreNeeded(s: State, c: CallId, hits: map<Domain, Integration>, misses: set<Domain>, stage: Stage, e: CallId)
    requires Settles(s, c, hits, misses, stage) && e < |s.calls|
    requires NeededInv(s.cache, s.futures, c, s.calls[c]) && NeededInv(s.cache, s.futures, e, s.calls[e])
    ensures var t := Store(s, c, hits, misses, stage); NeededInv(t.cache, t.futures, e, t.calls[e])
  {
    var t, needed := Store(s, c, hits, misses, stage), s.calls[e].needed;
    forall d | d in t.calls[e].needed
      ensures d in needed && t.calls[e].needed[d] == needed[d]
      ensures d in t.cache && t.cache[d] == Loading(needed[d])
      ensures needed[d] < |t.futures| && t.futures[needed[d]] == Future(e, d, false)
    {
      if e != c { NeededOnce(s, c, e, d); }
      StoreKeepsEntry(s, c, hits, misses, stage, d);
      StoreKeepsFuture(s, c, hits, misses, stage, needed[d]);
    }
  }

  lemma StoreProgress(s: State, c: CallId, hits: map<Domain, Integration>, misses: set<Domain>, stage: Stage, e: CallId)
    requires Settles(s, c, hits, misses, stage) && e < |s.calls|
    requires ProgressInv(s.cache, s.futures, e, s.calls[e])
    ensures var t := Store(s, c, hits, misses, stage); ProgressInv(t.cache, t.futures, e, t.calls[e])
  {
  }

  lemma StoreResults(s: State, c: CallId, hits: map<Domain, Integration>, misses: set<Domain>, stage: Stage, e: CallId)
    requires Settles(s, c, hits, misses, stage) && e < |s.calls|
    requires NeededInv(s.cache, s.futures, c, s.calls[c]) && ResultInv(s.cache, s.calls[e])
    ensures var t := Store(s, c, hits, misses, stage); ResultInv(t.cache, t.calls[e])
  {
    var t := Store(s, c, hits, misses, stage);
    forall d | d in t.calls[e].results && t.calls[e].results[d].Found?
      ensures d in t.cache && t.cache[d] == Cached(t.calls[e].results[d].integration)
    {
      if e != c || d !in hits {
        StoreKeepsEntry(s, c, hits, misses, stage, d);
      }
    }
  }

  lemma StoreShape(s: State, c: CallId, hits: map<Domain, Integration>, misses: set<Domain>, stage: Stage)
    requires Settles(s, c, hits, misses, stage) && ShapeInv(s.calls[c])
    ensures ShapeInv(Store(s, c, hits, misses, stage).calls[c])
  {
    hide SettledCache, SettledResults, Complete;
    var after, call := Store(s, c, hits, misses, stage).calls[c], s.calls[c];
    StoreKeys(call.results.Keys, call.needed, hits.Keys, misses);
    assert after.needed == call.needed - hits.Keys - misses;
  }

  lemma StoreKeys(results: set<Domain>, needed: map<Domain, FutureId>, hits: set<Domain>, misses: set<Domain>)
    requires hits + misses <= needed.Keys
    ensures results + hits + misses + (needed - hits - misses).Keys == results + needed.Keys
    ensures (needed - hits - misses).Keys == needed.Keys - (hits + misses)
    ensures hits + misses == needed.Keys <==> (needed - hits - misses).Keys == {}
  {
    var left := needed - hits - misses;
    assert left.Keys == needed.Keys - (hits + misses);
    assert needed.Keys == (hits + misses) + left.Keys;
  }

  lemma StoreFuture(s: State, c: CallId, hits: map<Domain, Integration>, misses: set<Domain>, stage: Stage, i: FutureId)
    requires Settles(s, c, hits, misses, stage) && i < |s.futures| && FutureInv(s, i)
    ensures FutureInv(Store(s, c, hits, misses, stage), i)
  {
  }

  lemma StoreEntry(s: State, c: CallId, hits: map<Domain, Integration>, misses: set<Domain>, stage: Stage, d: Domain)
    requires Settles(s, c, hits, misses, stage) && NeededInv(s.cache, s.futures, c, s.calls[c])
    requires d in Store(s, c, hits, misses, stage).cache
    requires d in s.cache ==> EntryInv(s, d)
    ensures EntryInv(Store(s, c, hits, misses, stage), d)
  {
  }

  lemma StoreCall(s: State, c: CallId, hits: map<Domain, Integration>, misses: set<Domain>, stage: Stage, e: CallId)
    requires Settles(s, c, hits, misses, stage) && e < |s.calls|
    requires CallInv(s.cache, s.futures, c, s.calls[c]) && CallInv(s.cache, s.futures, e, s.calls[e])
    ensures var t := Store(s, c, hits, misses, stage); CallInv(t.cache, t.futures, e, t.calls[e])
  {
    hide NeededInv, ProgressInv, ResultInv, ShapeInv, SettledCache, SettledResults, Complete;
    StoreNeeded(s, c, hits, misses, stage, e);
    StoreProgress(s, c, hits, misses, stage, e);
    StoreResults(s, c, hits, misses, stage, e);
    StoreShape(s, c, hits, misses, stage);
  }

  lemma StoreInv(s: State, c: CallId, hits: map<Domain, Integration>, misses: set<Domain>, stage: Stage)
    requires Inv(s) && Settles(s, c, hits, misses, stage)
    ensures Inv(Store(s, c, hits, misses, stage))
  {
    hide CallInv, FutureInv, EntryInv, Settles;
    SettlesNeeded(s, c, hits, misses, stage);
    var t := Store(s, c, hits, misses, stage);
    forall e | 0 <= e < |t.calls|
      ensures CallInv(t.cache, t.futures, e, t.calls[e])
    {
      StoreCall(s, c, hits, misses, stage, e);
    }
    forall i | 0 <= i < |t.futures| ensures FutureInv(t, i) { StoreFuture(s, c, hits, misses, stage, i); }
    forall d | d in t.cache ensures EntryInv(t, d) { StoreEntry(s, c, hits, misses, stage, d); }
  }

  lemma SettlesNeeded(s: State, c: CallId, hits: map<Domain, Integration>, misses: set<Domain>, stage: Stage)
    requires Inv(s) && Settles(s, c, hits, misses, stage)
    ensures c < |s.calls| && CallInv(s.cache, s.futures, c, s.calls[c])
    ensures NeededInv(s.cache, s.futures, c, s.calls[c])
  {
    assert CallInv(s.cache, s.futures, c, s.calls[c]);
  }

  /** The two ways in which a call settles domains it needs. */
  lemma StoringStep(s: State, step: Step)
    requires Inv(s) && Enabled(s, step) && (step.CustomLoaded? || step.RootLoaded?)
    ensures exists hits, misses, stage ::
      Settles(s, step.call, hits, misses, stage) && Apply(s, step) == Store(s, step.call, hits, misses, stage)
  {
    var c := step.call;
    var needed := s.calls[c].needed;
    assert CallInv(s.cache, s.futures, c, s.calls[c]);
    match step
    case CustomLoaded(_, custom) =>
      var hits := FoundOf(needed, custom);
      assert hits.Keys + {} == needed.Keys <==> needed.Keys <= custom.Keys;
      assert Settles(s, c, hits, {}, if needed.Keys <= custom.Keys then Returned else Root);
    case RootLoaded(_, found) =>
      var hits := FoundOf(needed, found);
      assert hits.Keys + (needed.Keys - found.Keys) == needed.Keys;
      assert Settles(s, c, hits, needed.Keys - found.Keys, Returned);
  }

  lemma StepInv(s: State, step: Step)
    requires Inv(s) && Enabled(s, step)
    ensures Inv(Apply(s, step))
  {
    match step
    case Enter(domains) => EnterInv(s, domains);
    case Wake(c) => WakeInv(s, c);
    case _ =>
      StoringStep(s, step);
      var hits, misses, stage :|
        Settles(s, step.call, hits, misses, stage) && Apply(s, step) == Store(s, step.call, hits, misses, stage);
      StoreInv(s, step.call, hits, misses, stage);
  }
}
