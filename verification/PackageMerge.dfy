/** What merging packages keeps, reports and yields. */
module PackageMerge {
  import opened Options
  import opened Dicts
  import opened Packages

  // ------------------------------------------------------------- looking into trees

  function At(c: Conf, path: seq<string>): Option<Conf>
    decreases |path|
  {
    if path == [] then Some(c)
    else if c.Node? && Has(c.entries, path[0]) then At(Lookup(c.entries, path[0]).value, path[1..])
    else None
  }

  /** No dictionary of the tree has a key twice. */
  predicate Unique(c: Conf) {
    c.Node? ==> UniqueKeys(c.entries) && forall p :: p in c.entries ==> Unique(p.value)
  }

  lemma {:induction false} LookupPut(d: Entries, k: string, v: Conf, x: string)
    ensures Lookup(Put(d, k, v), x) == if x == k then Some(v) else Lookup(d, x)
    decreases |d|
  {
    var r := Put(d, k, v);
    if d != [] {
      assert d == [d[0]] + d[1..];
      LookupCons(d[0], d[1..], x);
      if d[0].key == k {
        LookupCons(Pair(k, v), d[1..], x);
      } else {
        LookupPut(d[1..], k, v, x);
        LookupCons(d[0], Put(d[1..], k, v), x);
      }
    } else {
      LookupCons(Pair(k, v), [], x);
    }
  }

  lemma LookupCons(p: Pair<Conf>, d: Entries, x: string)
    ensures Lookup([p] + d, x) == if x == p.key then Some(p.value) else Lookup(d, x)
  {
    HasCons(p, d, x);
    assert ([p] + d)[1..] == d;
  }

  lemma LookupHead(d: Entries, x: string)
    requires d != []
    ensures Lookup(d, x) == if x == d[0].key then Some(d[0].value) else Lookup(d[1..], x)
  {
    assert d == [d[0]] + d[1..];
    LookupCons(d[0], d[1..], x);
  }

  // ------------------------------------------------------------------- key by key

  predicate IsScalar(c: Conf) {
    c.Null? || c.Scalar?
  }

  /** A scalar of the package that meets a value that is set. */
  predicate Stops(before: Option<Conf>, value: Conf) {
    IsScalar(value) && before.Some? && before != Some(Null)
  }

  function Below(before: Option<Conf>): Option<Entries> {
    match before
    case None => Some([])
    case Some(Node(entries)) => Some(entries)
    case _ => None
  }

  predicate Nested(value: Conf) {
    value.Node? && value.entries != []
  }

  /** What one key of the package does to the value at that key. */
  function KeyMerge(before: Option<Conf>, value: Conf): Option<Conf> {
    match value
    case Node(inner) =>
      if inner == [] || Below(before).None? then before
      else
        var r := MergeFrom(Below(before).value, inner, None);
        if r.Raised? then before else Some(Node(r.conf))
    case List(items) => Some(List(RemoveFalsy(EnsureList(before) + items)))
    case scalar => if Stops(before, scalar) then before else Some(scalar)
  }

  function Expected(conf: Entries, package: Entries, k: string): Option<Conf> {
    if Has(package, k) then KeyMerge(Lookup(conf, k), Lookup(package, k).value) else Lookup(conf, k)
  }

  ghost predicate NoStops(conf: Entries, package: Entries) {
    forall i :: 0 <= i < |package| ==> !Stops(Lookup(conf, package[i].key), package[i].value)
  }

  /** The configuration after the first entry of the package, unless that ends the merge. */
  function AfterHead(conf: Entries, head: Pair<Conf>): Entries {
    if head.value.Node? && (!Nested(head.value) || Below(Lookup(conf, head.key)).None?) then conf
    else
      match KeyMerge(Lookup(conf, head.key), head.value)
      case None => conf
      case Some(v) => Put(conf, head.key, v)
  }

  /** What merging the dictionary of an entry reports. */
  function NestedReport(conf: Entries, head: Pair<Conf>): Option<string>
    requires Nested(head.value)
  {
    match Below(Lookup(conf, head.key))
    case None => None
    case Some(below) =>
      match MergeFrom(below, head.value.entries, None) case Raised => None case Merged(_, d) => d
  }

  function HeadReports(conf: Entries, head: Pair<Conf>, duplicate: Option<string>): Option<string> {
    if Nested(head.value) then NestedReport(conf, head) else duplicate
  }

  /** The dictionary of the package meets one or nothing, and the two merge, or it has
      nothing to merge. */
  predicate NestedMerges(conf: Entries, head: Pair<Conf>)
    requires Nested(head.value)
  {
    match Below(Lookup(conf, head.key))
    case None => OnlyEmpty(head.value.entries)
    case Some(below) => MergeFrom(below, head.value.entries, None).Merged?
  }

  lemma Unfold(conf: Entries, package: Entries, duplicate: Option<string>)
    requires package != [] && MergeFrom(conf, package, duplicate).Merged?
    ensures var head := package[0];
      if Stops(Lookup(conf, head.key), head.value) then
        MergeFrom(conf, package, duplicate) == Merged(conf, Some(head.key))
      else
        MergeFrom(conf, package, duplicate)
          == MergeFrom(AfterHead(conf, head), package[1..], HeadReports(conf, head, duplicate))
    ensures Nested(package[0].value) ==> NestedMerges(conf, package[0])
  {
  }

  lemma AfterHeadLookup(conf: Entries, head: Pair<Conf>, k: string)
    ensures Lookup(AfterHead(conf, head), k)
         == if k == head.key then KeyMerge(Lookup(conf, k), head.value) else Lookup(conf, k)
  {
    var merged := KeyMerge(Lookup(conf, head.key), head.value);
    if merged.Some? { LookupPut(conf, head.key, merged.value, k); }
  }

  /** Every key ends up as before or merged with the package's value; if nothing stops the
      merge at this level, exactly the keys of the package are merged. */
  lemma {:induction false} KeyWise(conf: Entries, package: Entries, duplicate: Option<string>, k: string)
    requires UniqueKeys(package) && MergeFrom(conf, package, duplicate).Merged?
    ensures var after := Lookup(MergeFrom(conf, package, duplicate).conf, k);
      && (after == Lookup(conf, k) || after == Expected(conf, package, k))
      && (NoStops(conf, package) ==> after == Expected(conf, package, k))
    decreases |package|
  {
    hide MergeFrom, KeyMerge, Stops, AfterHead, HeadReports;
    if package == [] {
      NothingToMerge(conf, duplicate);
    } else {
      var head, rest := package[0], package[1..];
      Unfold(conf, package, duplicate);
      AfterHeadLookup(conf, head, k);
      LookupHead(package, k);
      FirstKeyIsNew(package);
      if !Stops(Lookup(conf, head.key), head.value) {
        KeyWise(AfterHead(conf, head), rest, HeadReports(conf, head, duplicate), k);
        StopsInRest(conf, package);
      } else {
        assert !NoStops(conf, package);
      }
    }
  }

  lemma {:induction false} RemoveFalsyAppends(items: seq<Conf>, more: seq<Conf>)
    ensures RemoveFalsy(items + more) == RemoveFalsy(items) + RemoveFalsy(more)
    decreases |items|
  {
    if items == [] {
      assert items + more == more;
    } else {
      RemoveFalsyAppends(items[1..], more);
      assert (items + more)[1..] == items[1..] + more;
    }
  }

  predicate Falsy(x: Conf) {
    x == Null || x == List([]) || x == Node([]) || (x.Scalar? && !x.truthy)
  }

  /** Of a list exactly the nulls, the falsy scalars and the empty lists and dictionaries are
      removed. */
  lemma {:induction false} RemoveFalsyExact(items: seq<Conf>, x: Conf)
    ensures multiset(RemoveFalsy(items))[x] == if Falsy(x) then 0 else multiset(items)[x]
    decreases |items|
  {
    if items != [] {
      RemoveFalsyExact(items[1..], x);
      assert items == [items[0]] + items[1..];
      assert Falsy(items[0]) <==> !Truthy(items[0]);
    }
  }

  /** A list of the package is appended to the list of the configuration, to the list of its
      single value, or to none, without what is falsy in either. */
  lemma ListsConcatenate(conf: Entries, package: Entries, k: string, items: seq<Conf>)
    requires UniqueKeys(package) && MergeFrom(conf, package, None).Merged? && NoStops(conf, package)
    requires Lookup(package, k) == Some(List(items))
    ensures var own :=
        match Lookup(conf, k)
        case None => []
        case Some(Null) => []
        case Some(List(before)) => before
        case Some(single) => [single];
      Lookup(MergeFrom(conf, package, None).conf, k) == Some(List(RemoveFalsy(own) + RemoveFalsy(items)))
  {
    hide MergeFrom, RemoveFalsy;
    KeyWise(conf, package, None, k);
    RemoveFalsyAppends(EnsureList(Lookup(conf, k)), items);
  }

  lemma NothingToMerge(conf: Entries, duplicate: Option<string>)
    ensures MergeFrom(conf, [], duplicate) == Merged(conf, duplicate)
  {
  }

  lemma StopsInRest(conf: Entries, package: Entries)
    requires UniqueKeys(package) && package != []
    ensures NoStops(conf, package) ==> NoStops(AfterHead(conf, package[0]), package[1..])
    ensures !Stops(Lookup(conf, package[0].key), package[0].value) && NoStops(AfterHead(conf, package[0]), package[1..])
      ==> NoStops(conf, package)
  {
    hide KeyMerge, AfterHead, Stops;
    var head, rest := package[0], package[1..];
    forall i | 0 <= i < |rest|
      ensures Lookup(AfterHead(conf, head), rest[i].key) == Lookup(conf, rest[i].key)
    {
      AfterHeadLookup(conf, head, rest[i].key);
      assert package[i + 1].key != head.key;
    }
    if NoStops(conf, package) {
      forall i | 0 <= i < |rest| ensures !Stops(Lookup(AfterHead(conf, head), rest[i].key), rest[i].value) {
        assert rest[i] == package[i + 1];
      }
    }
    if !Stops(Lookup(conf, head.key), head.value) && NoStops(AfterHead(conf, head), rest) {
      forall i | 0 <= i < |package| ensures !Stops(Lookup(conf, package[i].key), package[i].value) {
        if i > 0 { assert rest[i - 1] == package[i]; }
      }
    }
  }

  // ------------------------------------------------------------------ what raises

  /** No entry in front of the key is a scalar that ends the merge. */
  ghost predicate ReachesKey(conf: Entries, package: Entries, k: string) {
    forall i :: 0 <= i < |package| && (forall j :: 0 <= j <= i ==> package[j].key != k) ==>
      !Stops(Lookup(conf, package[i].key), package[i].value)
  }

  /** At the end of the path a dictionary of the package that holds more than empty ones meets
      something that is there and no dictionary, and nothing ends the merge on the way. */
  ghost predicate Breaks(conf: Entries, package: Entries, path: seq<string>)
    decreases |path|
  {
    && path != [] && ReachesKey(conf, package, path[0])
    && match (Lookup(package, path[0]), Lookup(conf, path[0]))
       case (Some(Node(inner)), Some(Node(below))) => Breaks(below, inner, path[1..])
       case (Some(Node(inner)), Some(_)) => |path| == 1 && !OnlyEmpty(inner)
       case _ => false
  }

  ghost predicate BreaksSomewhere(conf: Entries, package: Entries) {
    exists path :: Breaks(conf, package, path)
  }

  lemma BreaksAt(conf: Entries, package: Entries, path: seq<string>)
    requires Breaks(conf, package, path)
    ensures BreaksSomewhere(conf, package)
  {
  }

  lemma BreaksInRest(conf: Entries, package: Entries, path: seq<string>)
    requires UniqueKeys(package) && package != [] && path != [] && path[0] != package[0].key
    requires !Stops(Lookup(conf, package[0].key), package[0].value)
    ensures Breaks(conf, package, path) <==> Breaks(AfterHead(conf, package[0]), package[1..], path)
  {
    hide KeyMerge, AfterHead, Stops;
    var head, rest, k := package[0], package[1..], path[0];
    forall i | 0 <= i < |rest| ensures Lookup(AfterHead(conf, head), rest[i].key) == Lookup(conf, rest[i].key) {
      AfterHeadLookup(conf, head, rest[i].key);
      assert package[i + 1].key != head.key;
    }
    AfterHeadLookup(conf, head, k);
    LookupHead(package, k);
    assert ReachesKey(conf, package, k) <==> ReachesKey(AfterHead(conf, head), rest, k) by {
      if ReachesKey(conf, package, k) {
        forall i | 0 <= i < |rest| && (forall j :: 0 <= j <= i ==> rest[j].key != k)
          ensures !Stops(Lookup(AfterHead(conf, head), rest[i].key), rest[i].value)
        {
          forall j | 0 <= j <= i + 1 ensures package[j].key != k { if j > 0 { assert rest[j - 1] == package[j]; } }
          assert package[i + 1] == rest[i];
        }
      }
      if ReachesKey(AfterHead(conf, head), rest, k) {
        forall i | 0 <= i < |package| && (forall j :: 0 <= j <= i ==> package[j].key != k)
          ensures !Stops(Lookup(conf, package[i].key), package[i].value)
        {
          if i > 0 {
            forall j | 0 <= j <= i - 1 ensures rest[j].key != k { assert package[j + 1] == rest[j]; }
            assert package[i] == rest[i - 1];
          }
        }
      }
    }
  }

  /** A scalar in front ends the merge before anything can break. */
  lemma StoppedDoesNotBreak(conf: Entries, package: Entries, path: seq<string>)
    requires package != [] && Stops(Lookup(conf, package[0].key), package[0].value)
    ensures !Breaks(conf, package, path)
  {
    if path != [] {
      LookupHead(package, path[0]);
      if path[0] != package[0].key { assert !ReachesKey(conf, package, path[0]); }
    }
  }

  /** What the first entry does by itself. */
  lemma HeadBreaks(conf: Entries, package: Entries, path: seq<string>)
    requires package != [] && path != [] && path[0] == package[0].key
    ensures Breaks(conf, package, path) <==>
      match (package[0].value, Lookup(conf, path[0]))
      case (Node(inner), Some(Node(below))) => Breaks(below, inner, path[1..])
      case (Node(inner), Some(_)) => |path| == 1 && !OnlyEmpty(inner)
      case _ => false
  {
    LookupHead(package, path[0]);
  }

  /** The merge raises if and only if something breaks. */
  lemma {:induction false} RaisesIffBreaks(conf: Entries, package: Entries, duplicate: Option<string>)
    requires Unique(Node(package))
    ensures MergeFrom(conf, package, duplicate).Raised? <==> BreaksSomewhere(conf, package)
    decreases package
  {
    if package == [] {
      forall path ensures !Breaks(conf, [], path) {}
    } else if Stops(Lookup(conf, package[0].key), package[0].value) {
      forall path ensures !Breaks(conf, package, path) { StoppedDoesNotBreak(conf, package, path); }
    } else {
      var head, rest := package[0], package[1..];
      assert head in package && forall p :: p in rest ==> p in package;
      RestIsUnique(package);
      if HeadRaises(conf, head) {
        RaisesAtHead(conf, package, duplicate);
        var path := HeadBreaksSomewhere(conf, package);
        BreaksAt(conf, package, path);
      } else {
        HeadDoesNotRaise(conf, package, duplicate);
        RaisesIffBreaks(AfterHead(conf, head), rest, HeadReports(conf, head, duplicate));
        hide MergeFrom, AfterHead, HeadReports;
        forall path
          ensures Breaks(conf, package, path) <==>
            path != [] && path[0] != head.key && Breaks(AfterHead(conf, head), rest, path)
        {
          if path != [] && path[0] != head.key { BreaksInRest(conf, package, path); }
          if path != [] && path[0] == head.key { HeadIsSound(conf, package, path); }
        }
        forall path | Breaks(AfterHead(conf, head), rest, path) ensures path[0] != head.key {
          FirstKeyIsNew(package);
        }
      }
    }
  }

  lemma RestIsUnique(package: Entries)
    requires Unique(Node(package)) && package != []
    ensures Unique(Node(package[1..])) && Unique(package[0].value)
  {
    assert package[0] in package;
    assert forall p :: p in package[1..] ==> p in package;
  }

  predicate HeadRaises(conf: Entries, head: Pair<Conf>) {
    Nested(head.value) && !NestedMerges(conf, head)
  }

  lemma RaisesAtHead(conf: Entries, package: Entries, duplicate: Option<string>)
    requires package != [] && HeadRaises(conf, package[0])
    ensures MergeFrom(conf, package, duplicate).Raised?
  {
    assert Below(Lookup(conf, package[0].key)).Some? ==>
      MergeFrom(Below(Lookup(conf, package[0].key)).value, package[0].value.entries, None).Raised?;
  }

  lemma HeadDoesNotRaise(conf: Entries, package: Entries, duplicate: Option<string>)
    requires package != [] && !HeadRaises(conf, package[0])
    requires !Stops(Lookup(conf, package[0].key), package[0].value)
    ensures MergeFrom(conf, package, duplicate)
         == MergeFrom(AfterHead(conf, package[0]), package[1..], HeadReports(conf, package[0], duplicate))
  {
  }

  lemma HeadBreaksSomewhere(conf: Entries, package: Entries) returns (path: seq<string>)
    requires Unique(Node(package)) && package != [] && HeadRaises(conf, package[0])
    ensures Breaks(conf, package, path)
    decreases package, 0
  {
    var head := package[0];
    assert head in package;
    RestIsUnique(package);
    match Below(Lookup(conf, head.key))
    case None =>
      path := [head.key];
      HeadBreaks(conf, package, path);
    case Some(below) =>
      RaisesIffBreaks(below, head.value.entries, None);
      var p :| Breaks(below, head.value.entries, p);
      path := [head.key] + p;
      assert path[1..] == p;
      HeadBreaks(conf, package, path);
  }

  lemma HeadIsSound(conf: Entries, package: Entries, path: seq<string>)
    requires Unique(Node(package)) && package != [] && !HeadRaises(conf, package[0])
    requires path != [] && path[0] == package[0].key
    ensures !Breaks(conf, package, path)
    decreases package, 0
  {
    var head := package[0];
    assert head in package;
    RestIsUnique(package);
    HeadBreaks(conf, package, path);
    match (head.value, Lookup(conf, head.key))
    case (Node(inner), Some(Node(below))) =>
      if inner == [] { NothingMerges(below, path[1..]); } else { RaisesIffBreaks(below, inner, None); }
    case _ =>
  }

  lemma NothingMerges(conf: Entries, path: seq<string>)
    ensures !Breaks(conf, [], path)
  {
  }

  // --------------------------------------------------------------- what is reported

  /** The package has a scalar where the configuration has something that is set. */
  predicate RealClash(conf: Entries, package: Entries, path: seq<string>) {
    path != [] && At(Node(package), path).Some? && Stops(At(Node(conf), path), At(Node(package), path).value)
  }

  ghost predicate ClashesAt(conf: Entries, package: Entries, k: string) {
    exists path :: RealClash(conf, package, path) && path[|path| - 1] == k
  }

  lemma AtKey(d: Entries, path: seq<string>)
    requires path != []
    ensures At(Node(d), path) == match Lookup(d, path[0]) case None => None case Some(v) => At(v, path[1..])
  {
  }

  lemma ClashInRest(conf: Entries, package: Entries, k: string)
    requires UniqueKeys(package) && package != [] && ClashesAt(AfterHead(conf, package[0]), package[1..], k)
    ensures ClashesAt(conf, package, k)
  {
    hide Stops, AfterHead;
    var head, rest := package[0], package[1..];
    var path :| RealClash(AfterHead(conf, head), rest, path) && path[|path| - 1] == k;
    AtKey(rest, path);
    AtKey(package, path);
    AtKey(conf, path);
    AtKey(AfterHead(conf, head), path);
    FirstKeyIsNew(package);
    LookupHead(package, path[0]);
    AfterHeadLookup(conf, head, path[0]);
    assert RealClash(conf, package, path);
  }

  lemma LiftClash(conf: Entries, package: Entries, key: string, below: Entries, inner: Entries, path: seq<string>)
    requires Lookup(package, key) == Some(Node(inner)) && Below(Lookup(conf, key)) == Some(below)
    requires RealClash(below, inner, path)
    ensures RealClash(conf, package, [key] + path)
  {
    var longer := [key] + path;
    assert longer[1..] == path;
    AtKey(package, longer);
    AtKey(conf, longer);
    AtKey(below, path);
  }

  lemma ClashBelow(conf: Entries, package: Entries, key: string, below: Entries, inner: Entries, k: string)
    requires Lookup(package, key) == Some(Node(inner)) && Below(Lookup(conf, key)) == Some(below)
    requires ClashesAt(below, inner, k)
    ensures ClashesAt(conf, package, k)
  {
    var path :| RealClash(below, inner, path) && path[|path| - 1] == k;
    LiftClash(conf, package, key, below, inner, path);
    assert ([key] + path)[|path|] == k;
  }

  /** A key is reported only for a real clash, somewhere in the tree. */
  lemma {:induction false} ReportIsReal(conf: Entries, package: Entries, duplicate: Option<string>)
    requires Unique(Node(package)) && MergeFrom(conf, package, duplicate).Merged?
    ensures var reported := MergeFrom(conf, package, duplicate).duplicate;
      reported.Some? && reported != duplicate ==> ClashesAt(conf, package, reported.value)
    decreases package
  {
    hide MergeFrom, ClashesAt, KeyMerge, Stops, AfterHead, At;
    if package == [] {
      NothingToMerge(conf, duplicate);
    } else {
      var head, rest := package[0], package[1..];
      Unfold(conf, package, duplicate);
      LookupHead(package, head.key);
      assert head in package && Unique(head.value);
      UniqueRest(package);
      if Stops(Lookup(conf, head.key), head.value) {
        ClashHere(conf, package, head.key);
      } else {
        ReportIsReal(AfterHead(conf, head), rest, HeadReports(conf, head, duplicate));
        var reported := MergeFrom(conf, package, duplicate).duplicate;
        if reported.Some? && ClashesAt(AfterHead(conf, head), rest, reported.value) {
          ClashInRest(conf, package, reported.value);
        }
        if Nested(head.value) && Below(Lookup(conf, head.key)).Some? {
          var below, inner := Below(Lookup(conf, head.key)).value, head.value.entries;
          ReportIsReal(below, inner, None);
          var nested := MergeFrom(below, inner, None).duplicate;
          if nested.Some? { ClashBelow(conf, package, head.key, below, inner, nested.value); }
        }
      }
    }
  }

  lemma ClashHere(conf: Entries, package: Entries, key: string)
    requires Has(package, key) && Stops(Lookup(conf, key), Lookup(package, key).value)
    ensures ClashesAt(conf, package, key)
  {
    AtKey(package, [key]);
    AtKey(conf, [key]);
    assert RealClash(conf, package, [key]);
  }

  lemma UniqueRest(package: Entries)
    requires Unique(Node(package)) && package != []
    ensures UniqueKeys(package) && Unique(Node(package[1..]))
  {
    assert forall p :: p in package[1..] ==> p in package;
  }

  // ------------------------------------------------------------ what goes unreported

  /** The key of an entry that meets a value that is set. */
  predicate IsStop(conf: Entries, package: Entries, key: Option<string>) {
    exists i ::
      0 <= i < |package| && key == Some(package[i].key) && Stops(Lookup(conf, package[i].key), package[i].value)
  }

  /** A scalar clash of this level is reported, whatever is below. */
  lemma {:induction false} StopIsReported(conf: Entries, package: Entries, duplicate: Option<string>)
    requires UniqueKeys(package) && MergeFrom(conf, package, duplicate).Merged? && !NoStops(conf, package)
    ensures IsStop(conf, package, MergeFrom(conf, package, duplicate).duplicate)
    decreases |package|
  {
    hide MergeFrom, KeyMerge, Stops, AfterHead, HeadReports;
    var head, rest := package[0], package[1..];
    Unfold(conf, package, duplicate);
    if !Stops(Lookup(conf, head.key), head.value) {
      StopsInRest(conf, package);
      var before := AfterHead(conf, head);
      StopIsReported(before, rest, HeadReports(conf, head, duplicate));
      var reported := MergeFrom(conf, package, duplicate).duplicate;
      var i :| 0 <= i < |rest| && reported == Some(rest[i].key) && Stops(Lookup(before, rest[i].key), rest[i].value);
      AfterHeadLookup(conf, head, rest[i].key);
      assert rest[i] == package[i + 1];
      assert Stops(Lookup(conf, package[i + 1].key), package[i + 1].value);
    }
  }

  predicate LastNested(package: Entries, j: nat) {
    j < |package| && Nested(package[j].value) && forall i :: j < i < |package| ==> !Nested(package[i].value)
  }

  /** Otherwise the report is that of the last dictionary that was merged below: what the
      dictionaries before it reported is forgotten. */
  lemma {:induction false} LastNestedIsReported(conf: Entries, package: Entries, duplicate: Option<string>, j: nat)
    requires UniqueKeys(package) && MergeFrom(conf, package, duplicate).Merged? && NoStops(conf, package)
    requires LastNested(package, j)
    ensures MergeFrom(conf, package, duplicate).duplicate == NestedReport(conf, package[j])
    ensures NestedMerges(conf, package[j])
    decreases |package|
  {
    hide MergeFrom, KeyMerge, Stops, AfterHead;
    var head, rest := package[0], package[1..];
    Unfold(conf, package, duplicate);
    StopsInRest(conf, package);
    assert !Stops(Lookup(conf, package[0].key), package[0].value);
    if j > 0 {
      assert LastNested(rest, j - 1) by { assert forall i :: 0 <= i < |rest| ==> rest[i] == package[i + 1]; }
      LastNestedIsReported(AfterHead(conf, head), rest, HeadReports(conf, head, duplicate), j - 1);
      AfterHeadLookup(conf, head, rest[j - 1].key);
    } else {
      assert forall i :: 0 <= i < |rest| ==> !Nested(rest[i].value) by {
        assert forall i :: 0 <= i < |rest| ==> rest[i] == package[i + 1];
      }
      NoneNested(AfterHead(conf, head), rest, HeadReports(conf, head, duplicate));
    }
  }

  lemma {:induction false} NoneNested(conf: Entries, package: Entries, duplicate: Option<string>)
    requires UniqueKeys(package) && MergeFrom(conf, package, duplicate).Merged? && NoStops(conf, package)
    requires forall i :: 0 <= i < |package| ==> !Nested(package[i].value)
    ensures MergeFrom(conf, package, duplicate).duplicate == duplicate
    decreases |package|
  {
    hide MergeFrom, KeyMerge, Stops, AfterHead;
    if package == [] {
      NothingToMerge(conf, duplicate);
    } else {
      Unfold(conf, package, duplicate);
      StopsInRest(conf, package);
      assert !Nested(package[0].value) && !Stops(Lookup(conf, package[0].key), package[0].value);
      forall i | 0 <= i < |package| - 1 ensures !Nested(package[1..][i].value) {
        assert package[1..][i] == package[i + 1];
      }
      NoneNested(AfterHead(conf, package[0]), package[1..], HeadReports(conf, package[0], duplicate));
    }
  }

  /** Every key of the path before the last one is the last non-empty dictionary of its level. */
  ghost predicate OnSpine(package: Entries, path: seq<string>)
    decreases |path|
  {
    path != [] && (|path| > 1 ==>
      exists j: nat ::
        LastNested(package, j) && package[j].key == path[0] && OnSpine(package[j].value.entries, path[1..]))
  }

  lemma {:induction false} SomeLastNested(package: Entries)
    ensures (forall i :: 0 <= i < |package| ==> !Nested(package[i].value)) || exists j: nat :: LastNested(package, j)
    decreases |package|
  {
    if package != [] {
      var init, n := package[..|package| - 1], |package| - 1;
      SomeLastNested(init);
      if Nested(package[n].value) {
        assert LastNested(package, n);
      } else if j: nat :| LastNested(init, j) {
        assert LastNested(package, j);
      } else {
        forall i | 0 <= i < |package| ensures !Nested(package[i].value) {
          if i < n { assert package[i] == init[i]; }
        }
      }
    }
  }

  lemma AtBelow(c: Conf, path: seq<string>)
    ensures path == [] ==> At(c, path) == Some(c)
    ensures path != [] && At(c, path).Some? ==> c.Node? && c.entries != []
  {
  }

  lemma {:induction false} SpineClashIsReported(conf: Entries, package: Entries, path: seq<string>)
    requires Unique(Node(package)) && MergeFrom(conf, package, None).Merged?
    requires RealClash(conf, package, path) && OnSpine(package, path)
    ensures MergeFrom(conf, package, None).duplicate.Some?
    decreases |path|
  {
    hide MergeFrom, At, KeyMerge;
    if !NoStops(conf, package) {
      StopIsReported(conf, package, None);
    } else {
      ClashIsBelow(conf, package, path);
      var j: nat :| LastNested(package, j) && package[j].key == path[0] && OnSpine(package[j].value.entries, path[1..]);
      LookupAt(package, j);
      LastNestedIsReported(conf, package, None, j);
      assert package[j] in package;
      SpineClashIsReported(Below(Lookup(conf, path[0])).value, package[j].value.entries, path[1..]);
    }
  }

  /** A clash that is no scalar clash of this level is one further down. */
  lemma ClashIsBelow(conf: Entries, package: Entries, path: seq<string>)
    requires UniqueKeys(package) && RealClash(conf, package, path) && NoStops(conf, package)
    ensures |path| > 1 && Has(package, path[0]) && Nested(Lookup(package, path[0]).value)
    ensures Below(Lookup(conf, path[0])).Some?
    ensures RealClash(Below(Lookup(conf, path[0])).value, Lookup(package, path[0]).value.entries, path[1..])
  {
    hide At;
    AtKey(package, path);
    AtKey(conf, path);
    var value := Lookup(package, path[0]).value;
    assert !Stops(Lookup(conf, path[0]), package[Place(package, path[0])].value);
    AtBelow(value, path[1..]);
    AtBelow(Lookup(conf, path[0]).value, path[1..]);
  }

  lemma {:induction false} ReportIsOnSpine(conf: Entries, package: Entries) returns (path: seq<string>)
    requires Unique(Node(package)) && MergeFrom(conf, package, None).Merged?
    requires MergeFrom(conf, package, None).duplicate.Some?
    ensures RealClash(conf, package, path) && OnSpine(package, path)
    decreases package
  {
    hide MergeFrom, At, KeyMerge, NoStops;
    if !NoStops(conf, package) {
      StopIsReported(conf, package, None);
      var i :| 0 <= i < |package| && Stops(Lookup(conf, package[i].key), package[i].value);
      path := [package[i].key];
      assert Stops(Lookup(conf, path[0]), package[i].value);
      LookupAt(package, i);
      AtKey(package, path);
      AtKey(conf, path);
      AtBelow(package[i].value, path[1..]);
      AtBelow(Lookup(conf, path[0]).value, path[1..]);
    } else {
      SomeLastNested(package);
      if forall i :: 0 <= i < |package| ==> !Nested(package[i].value) { NoneNested(conf, package, None); }
      var j: nat :| LastNested(package, j);
      LastNestedIsReported(conf, package, None, j);
      var key, below, inner := package[j].key, Below(Lookup(conf, package[j].key)).value, package[j].value.entries;
      assert package[j] in package;
      var rest := ReportIsOnSpine(below, inner);
      LookupAt(package, j);
      path := [key] + rest;
      assert path[1..] == rest;
      LiftClash(conf, package, key, below, inner, rest);
    }
  }

  /** Nothing is reported if and only if no clash is on the spine of the package: reached
      through the last non-empty dictionary of every level. */
  lemma SilentIffNoClashOnSpine(conf: Entries, package: Entries)
    requires Unique(Node(package)) && MergeFrom(conf, package, None).Merged?
    ensures MergeFrom(conf, package, None).duplicate.None?
       <==> (forall path :: RealClash(conf, package, path) ==> !OnSpine(package, path))
  {
    hide MergeFrom, RealClash, OnSpine;
    if MergeFrom(conf, package, None).duplicate.None? {
      forall path | RealClash(conf, package, path) ensures !OnSpine(package, path) {
        if OnSpine(package, path) { SpineClashIsReported(conf, package, path); }
      }
    } else {
      var path := ReportIsOnSpine(conf, package);
    }
  }

  /** No dictionary of the package has two non-empty dictionaries. */
  predicate OneBranch(package: Entries) {
    && (forall i, j :: 0 <= i < j < |package| ==> !Nested(package[i].value) || !Nested(package[j].value))
    && (forall p :: p in package && p.value.Node? ==> OneBranch(p.value.entries))
  }

  lemma {:induction false} OneBranchIsSpine(package: Entries, path: seq<string>)
    requires UniqueKeys(package) && OneBranch(package) && Unique(Node(package))
    requires path != [] && At(Node(package), path).Some?
    ensures OnSpine(package, path)
    decreases |path|
  {
    hide At;
    AtKey(package, path);
    var j := Place(package, path[0]);
    AtBelow(package[j].value, path[1..]);
    assert package[j] in package;
    if |path| > 1 {
      OneBranchIsSpine(package[j].value.entries, path[1..]);
      assert LastNested(package, j);
    }
  }

  /** When no dictionary of the package has two non-empty dictionaries, its spine is all of
      it: nothing is reported if and only if there is no clash. */
  lemma SilentIffNoClash(conf: Entries, package: Entries)
    requires Unique(Node(package)) && OneBranch(package) && MergeFrom(conf, package, None).Merged?
    ensures MergeFrom(conf, package, None).duplicate.None? <==> forall path :: !RealClash(conf, package, path)
  {
    hide MergeFrom, OnSpine, At;
    SilentIffNoClashOnSpine(conf, package);
    forall path | RealClash(conf, package, path) ensures OnSpine(package, path) {
      OneBranchIsSpine(package, path);
    }
  }

  /** With two non-empty dictionaries a clash in the first can go unreported: it is not
      on the spine. */
  lemma ClashUnreported(mine: Conf, theirs: Conf, other: Conf)
    requires mine.Scalar? && theirs.Scalar? && other.Scalar?
    ensures var conf := [Pair("light", Node([Pair("name", mine)]))];
      var package := [Pair("light", Node([Pair("name", theirs)])), Pair("switch", Node([Pair("name", other)]))];
      && RealClash(conf, package, ["light", "name"]) && !OnSpine(package, ["light", "name"])
      && MergeFrom(conf, package, None).Merged? && MergeFrom(conf, package, None).duplicate.None?
  {
    var inner, added: Entries := [Pair("name", theirs)], [Pair("name", other)];
    var conf: Entries := [Pair("light", Node([Pair("name", mine)]))];
    var package: Entries := [Pair("light", Node(inner)), Pair("switch", Node(added))];
    LookupHead(conf, "light");
    LookupHead(package, "light");
    LookupHead([Pair("name", mine)], "name");
    LookupHead(inner, "name");
    AtKey(conf, ["light", "name"]);
    AtKey(package, ["light", "name"]);
    AtKey([Pair("name", mine)], ["name"]);
    AtKey(inner, ["name"]);
    assert ["light", "name"][1..] == ["name"];
    assert RealClash(conf, package, ["light", "name"]);
    assert !LastNested(package, 0) by { assert Nested(package[1].value); }
    var first := MergeFrom([Pair("name", mine)], inner, None);
    assert first == Merged([Pair("name", mine)], Some("name"));
    var conf1 := Put(conf, "light", Node(first.conf));
    assert MergeFrom(conf, package, None) == MergeFrom(conf1, package[1..], Some("name"));
    LookupPut(conf, "light", Node(first.conf), "switch");
    LookupHead(conf, "switch");
    assert package[1..][0] == package[1] && package[1..][1..] == [];
    assert added[1..] == [];
    var second := MergeFrom([], added, None);
    assert second == MergeFrom(Put([], "name", other), [], None);
    assert MergeFrom(conf1, package[1..], Some("name"))
      == MergeFrom(Put(conf1, "switch", Node(second.conf)), [], second.duplicate);
  }

  // ------------------------------------------------------------------- what is kept

  /** No list of the package meets a scalar or a dictionary. */
  ghost predicate ListsMeetLists(conf: Entries, package: Entries) {
    forall path :: At(Node(package), path).Some? && At(Node(package), path).value.List? && At(Node(conf), path).Some?
      ==> At(Node(conf), path).value.List? || At(Node(conf), path).value.Null?
  }

  /** A scalar that is set keeps its value, and no key disappears, also when the merge ends
      early with a clash. */
  lemma {:induction false} ScalarsAndKeysKept(conf: Entries, package: Entries, path: seq<string>)
    requires Unique(Node(package)) && MergeFrom(conf, package, None).Merged? && ListsMeetLists(conf, package)
    ensures var before, after := At(Node(conf), path), At(Node(MergeFrom(conf, package, None).conf), path);
      && (before.Some? && before.value.Scalar? ==> after == before)
      && (before.Some? ==> after.Some?)
    decreases |path|
  {
    if path != [] {
      hide MergeFrom, At;
      var after, k := MergeFrom(conf, package, None).conf, path[0];
      KeyWise(conf, package, None, k);
      AtKey(conf, path);
      AtKey(after, path);
      if Lookup(conf, k).Some? && Has(package, k) && Lookup(after, k) != Lookup(conf, k) {
        var mine, theirs := Lookup(conf, k).value, Lookup(package, k).value;
        AtBelow(mine, path[1..]);
        AtBelow(Lookup(after, k).value, path[1..]);
        AtKey(package, [k]);
        AtKey(conf, [k]);
        AtBelow(theirs, [k][1..]);
        AtBelow(mine, [k][1..]);
        if Nested(theirs) {
          ListsMeetListsBelow(conf, package, k, mine.entries, theirs.entries);
          UniqueBelow(package, k, theirs);
          ScalarsAndKeysKept(mine.entries, theirs.entries, path[1..]);
        }
      }
    }
  }

  lemma UniqueBelow(package: Entries, k: string, value: Conf)
    requires Unique(Node(package)) && Lookup(package, k) == Some(value)
    ensures Unique(value)
  {
    assert Pair(k, value) in package;
  }

  lemma ListsMeetListsBelow(conf: Entries, package: Entries, k: string, below: Entries, inner: Entries)
    requires ListsMeetLists(conf, package)
    requires Lookup(conf, k) == Some(Node(below)) && Lookup(package, k) == Some(Node(inner))
    ensures ListsMeetLists(below, inner)
  {
    forall path | At(Node(inner), path).Some? && At(Node(inner), path).value.List? && At(Node(below), path).Some?
      ensures At(Node(below), path).value.List? || At(Node(below), path).value.Null?
    {
      var longer := [k] + path;
      assert longer[1..] == path;
      AtKey(package, longer);
      AtKey(conf, longer);
    }
  }

  // ----------------------------------------------------------------- union, any order

  /** Wherever both trees have something, both have a dictionary. */
  ghost predicate NoConflict(a: Entries, b: Entries) {
    forall path :: At(Node(a), path).Some? && At(Node(b), path).Some? ==>
      At(Node(a), path).value.Node? && At(Node(b), path).value.Node?
  }

  /** Dictionaries and scalars only. */
  predicate Plain(c: Conf) {
    match c
    case Scalar(_, _) => true
    case Node(entries) => forall p :: p in entries ==> Plain(p.value)
    case _ => false
  }

  function Leaf(c: Conf, path: seq<string>): Option<Conf> {
    if At(c, path).Some? && At(c, path).value.Scalar? then At(c, path) else None
  }

  lemma NoConflictHere(conf: Entries, package: Entries, k: string)
    requires NoConflict(conf, package) && Has(conf, k) && Has(package, k)
    ensures Lookup(conf, k).value.Node? && Lookup(package, k).value.Node?
    ensures NoConflict(Lookup(conf, k).value.entries, Lookup(package, k).value.entries)
  {
    AtKey(conf, [k]);
    AtKey(package, [k]);
    assert At(Node(conf), [k]).Some? && At(Node(package), [k]).Some?;
    var a, b := Lookup(conf, k).value, Lookup(package, k).value;
    forall path | At(a, path).Some? && At(b, path).Some?
      ensures At(a, path).value.Node? && At(b, path).value.Node?
    {
      var longer := [k] + path;
      assert longer[1..] == path;
      AtKey(conf, longer);
      AtKey(package, longer);
      assert At(Node(conf), longer).Some? && At(Node(package), longer).Some?;
    }
  }

  lemma NoConflictNoStops(conf: Entries, package: Entries)
    requires NoConflict(conf, package) && UniqueKeys(package)
    ensures NoStops(conf, package)
  {
    forall i | 0 <= i < |package| ensures !Stops(Lookup(conf, package[i].key), package[i].value) {
      var k := package[i].key;
      LookupAt(package, i);
      if Has(conf, k) { NoConflictHere(conf, package, k); }
    }
  }

  lemma LookupAt(d: Entries, i: nat)
    requires UniqueKeys(d) && i < |d|
    ensures Lookup(d, d[i].key) == Some(d[i].value)
  {
    assert Has(d, d[i].key);
    var j := Place(d, d[i].key);
    assert d[j].key == d[i].key;
  }

  lemma NoConflictWithNothing(inner: Entries)
    ensures NoConflict([], inner)
  {
    forall path | At(Node([]), path).Some? && At(Node(inner), path).Some?
      ensures At(Node(inner), path).value.Node?
    {
      AtBelow(Node([]), path);
    }
  }

  lemma NoConflictRest(conf: Entries, package: Entries)
    requires UniqueKeys(package) && package != [] && NoConflict(conf, package)
    ensures NoConflict(AfterHead(conf, package[0]), package[1..])
  {
    hide AfterHead;
    var head, rest := package[0], package[1..];
    var conf1 := AfterHead(conf, head);
    forall path | At(Node(conf1), path).Some? && At(Node(rest), path).Some?
      ensures At(Node(conf1), path).value.Node? && At(Node(rest), path).value.Node?
    {
      if path != [] {
        AtKey(conf1, path);
        AtKey(conf, path);
        AtKey(rest, path);
        AtKey(package, path);
        LookupHead(package, path[0]);
        FirstKeyIsNew(package);
        AfterHeadLookup(conf, head, path[0]);
        assert At(Node(conf), path).Some? && At(Node(package), path).Some?;
      }
    }
  }

  /** Without conflicts the merge succeeds and reports nothing. */
  lemma {:induction false} NoConflictMerges(conf: Entries, package: Entries)
    requires Unique(Node(package)) && NoConflict(conf, package)
    ensures MergeFrom(conf, package, None).Merged? && MergeFrom(conf, package, None).duplicate.None?
    decreases package
  {
    if package != [] {
      var head, rest := package[0], package[1..];
      UniqueRest(package);
      NoConflictNoStops(conf, package);
      assert !Stops(Lookup(conf, package[0].key), package[0].value);
      LookupHead(package, head.key);
      NoConflictRest(conf, package);
      if Nested(head.value) {
        var below := if Has(conf, head.key) then Lookup(conf, head.key).value else Node([]);
        if Has(conf, head.key) {
          NoConflictHere(conf, package, head.key);
        } else {
          NoConflictWithNothing(head.value.entries);
        }
        assert head in package;
        NoConflictMerges(below.entries, head.value.entries);
      }
      NoConflictMerges(AfterHead(conf, head), rest);
      OneStep(conf, package);
    }
  }

  lemma OneStep(conf: Entries, package: Entries)
    requires package != [] && !Stops(Lookup(conf, package[0].key), package[0].value)
    requires Nested(package[0].value) ==> NestedMerges(conf, package[0]) && HeadReports(conf, package[0], None).None?
    ensures MergeFrom(conf, package, None) == MergeFrom(AfterHead(conf, package[0]), package[1..], None)
  {
  }

  /** The leaves of the result are the leaves of both. */
  lemma {:induction false} LeavesUnite(conf: Entries, package: Entries, path: seq<string>)
    requires Unique(Node(package)) && Plain(Node(package)) && NoConflict(conf, package)
    ensures MergeFrom(conf, package, None).Merged?
    ensures Leaf(Node(MergeFrom(conf, package, None).conf), path)
         == if Leaf(Node(conf), path).Some? then Leaf(Node(conf), path) else Leaf(Node(package), path)
    decreases |path|
  {
    NoConflictMerges(conf, package);
    if path != [] {
      hide MergeFrom, At;
      var after, k := MergeFrom(conf, package, None).conf, path[0];
      NoConflictNoStops(conf, package);
      KeyWise(conf, package, None, k);
      AtKey(conf, path);
      AtKey(after, path);
      AtKey(package, path);
      if Has(package, k) {
        var value := Lookup(package, k).value;
        assert Pair(k, value) in package && Plain(value);
        AtBelow(value, path[1..]);
        if Has(conf, k) { NoConflictHere(conf, package, k); }
        if Nested(value) {
          if !Has(conf, k) {
            NoConflictWithNothing(value.entries);
            AtBelow(Node([]), path[1..]);
          }
          var below := Below(Lookup(conf, k)).value;
          UniqueBelow(package, k, value);
          LeavesUnite(below, value.entries, path[1..]);
        }
      }
    }
  }

  /** Whatever the result has at a path, one of the two has there, of the same kind. */
  lemma {:induction false} NothingNew(conf: Entries, package: Entries, path: seq<string>)
    requires Unique(Node(package)) && Plain(Node(package)) && NoConflict(conf, package)
    requires MergeFrom(conf, package, None).Merged?
    requires At(Node(MergeFrom(conf, package, None).conf), path).Some?
    ensures var kind := At(Node(MergeFrom(conf, package, None).conf), path).value.Node?;
      || (At(Node(conf), path).Some? && At(Node(conf), path).value.Node? == kind)
      || (At(Node(package), path).Some? && At(Node(package), path).value.Node? == kind)
    decreases |path|
  {
    if path != [] {
      hide MergeFrom, At;
      var after, k := MergeFrom(conf, package, None).conf, path[0];
      NoConflictNoStops(conf, package);
      KeyWise(conf, package, None, k);
      AtKey(conf, path);
      AtKey(after, path);
      AtKey(package, path);
      if Has(package, k) {
        var value := Lookup(package, k).value;
        assert Pair(k, value) in package && Plain(value);
        if Has(conf, k) { NoConflictHere(conf, package, k); }
        if Nested(value) {
          if !Has(conf, k) { NoConflictWithNothing(value.entries); }
          var below := Below(Lookup(conf, k)).value;
          UniqueBelow(package, k, value);
          NoConflictMerges(below, value.entries);
          NothingNew(below, value.entries, path[1..]);
          if !Has(conf, k) && path[1..] != [] { AtBelow(Node([]), path[1..]); }
          AtBelow(value, path[1..]);
        }
      }
    }
  }

  lemma StillNoConflict(conf: Entries, a: Entries, b: Entries)
    requires Unique(Node(a)) && Plain(Node(a)) && MergeFrom(conf, a, None).Merged?
    requires NoConflict(conf, a) && NoConflict(conf, b) && NoConflict(a, b)
    ensures NoConflict(MergeFrom(conf, a, None).conf, b)
  {
    hide MergeFrom, At;
    var merged := MergeFrom(conf, a, None).conf;
    forall path | At(Node(merged), path).Some? && At(Node(b), path).Some?
      ensures At(Node(merged), path).value.Node? && At(Node(b), path).value.Node?
    {
      NothingNew(conf, a, path);
    }
  }

  /** Two packages that conflict neither with the configuration nor with each other give the
      same leaves in either order, and nothing is reported. */
  lemma OrderDoesNotMatter(conf: Entries, a: Entries, b: Entries, path: seq<string>)
    requires Unique(Node(a)) && Plain(Node(a)) && Unique(Node(b)) && Plain(Node(b))
    requires NoConflict(conf, a) && NoConflict(conf, b) && NoConflict(a, b)
    ensures var withA, withB := MergeFrom(conf, a, None), MergeFrom(conf, b, None);
      && withA.Merged? && withA.duplicate.None? && withB.Merged? && withB.duplicate.None?
      && var ab, ba := MergeFrom(withA.conf, b, None), MergeFrom(withB.conf, a, None);
      && ab.Merged? && ab.duplicate.None? && ba.Merged? && ba.duplicate.None?
      && Leaf(Node(ab.conf), path) == Leaf(Node(ba.conf), path)
  {
    hide MergeFrom, At, Unique, Plain;
    NoConflictMerges(conf, a);
    NoConflictMerges(conf, b);
    var withA, withB := MergeFrom(conf, a, None), MergeFrom(conf, b, None);
    StillNoConflict(conf, a, b);
    assert NoConflict(b, a);
    StillNoConflict(conf, b, a);
    NoConflictMerges(withA.conf, b);
    NoConflictMerges(withB.conf, a);
    LeavesUnite(conf, a, path);
    LeavesUnite(conf, b, path);
    LeavesUnite(withA.conf, b, path);
    LeavesUnite(withB.conf, a, path);
  }
}
