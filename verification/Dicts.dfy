/** Insertion-ordered dictionaries, as the saved auth data depends on their order, and folds
    that may end with an exception. */
module Dicts {
  import opened Options

  datatype Pair<V> = Pair(key: string, value: V)

  type Dict<V> = seq<Pair<V>>

  predicate UniqueKeys<V>(d: Dict<V>) {
    forall i, j :: 0 <= i < j < |d| ==> d[i].key != d[j].key
  }

  predicate Has<V>(d: Dict<V>, k: string) {
    exists i :: 0 <= i < |d| && d[i].key == k
  }

  /** Assignment to a key: an existing entry keeps its place. */
  function Put<V>(d: Dict<V>, k: string, v: V): Dict<V> {
    if d == [] then [Pair(k, v)]
    else if d[0].key == k then [Pair(k, v)] + d[1..]
    else [d[0]] + Put(d[1..], k, v)
  }

  /** Replaces the value of an existing key by a function of it. */
  function Adjust<V>(d: Dict<V>, k: string, f: V -> V): (r: Dict<V>)
    ensures |r| == |d|
    ensures forall i :: 0 <= i < |d| ==> r[i].key == d[i].key
  {
    if d == [] then []
    else if d[0].key == k then [Pair(k, f(d[0].value))] + d[1..]
    else [d[0]] + Adjust(d[1..], k, f)
  }

  lemma {:induction false} PutNew<V>(d: Dict<V>, k: string, v: V)
    requires !Has(d, k)
    ensures Put(d, k, v) == d + [Pair(k, v)]
    decreases |d|
  {
    if d != [] {
      forall i | 0 <= i < |d| - 1 ensures d[1..][i].key != k { assert d[i + 1].key != k; }
      PutNew(d[1..], k, v);
      assert d[0].key != k;
    }
  }

  lemma FirstKeyIsNew<V>(d: Dict<V>)
    requires UniqueKeys(d) && d != []
    ensures !Has(d[1..], d[0].key)
  {
    forall i | 0 <= i < |d| - 1 ensures d[1..][i].key != d[0].key { assert d[i + 1].key != d[0].key; }
  }

  lemma {:induction false} PutKeys<V>(d: Dict<V>, k: string, v: V)
    requires UniqueKeys(d)
    ensures UniqueKeys(Put(d, k, v))
    ensures forall x :: Has(Put(d, k, v), x) <==> x == k || Has(d, x)
    ensures forall p :: p in Put(d, k, v) ==> p == Pair(k, v) || p in d
    decreases |d|
  {
    var r := Put(d, k, v);
    if d == [] {
      assert r[0].key == k;
    } else if d[0].key == k {
      assert r[0].key == k;
      forall x ensures Has(r, x) <==> x == k || Has(d, x) {
        if Has(r, x) { var i :| 0 <= i < |r| && r[i].key == x; assert d[i].key == x; }
        if Has(d, x) { var i :| 0 <= i < |d| && d[i].key == x; assert r[i].key == x; }
      }
    } else {
      PutKeys(d[1..], k, v);
      var t := Put(d[1..], k, v);
      assert r == [d[0]] + t;
      forall x ensures Has(r, x) <==> x == d[0].key || Has(t, x) { HasCons(d[0], t, x); }
      forall x ensures Has(d, x) <==> x == d[0].key || Has(d[1..], x) {
        assert d == [d[0]] + d[1..];
        HasCons(d[0], d[1..], x);
      }
      forall i, j | 0 <= i < j < |r| ensures r[i].key != r[j].key {
        if i == 0 {
          assert r[j] == t[j - 1];
          assert Has(t, r[j].key);
          FirstKeyIsNew(d);
        } else {
          assert r[i] == t[i - 1] && r[j] == t[j - 1];
        }
      }
    }
  }

  lemma HasCons<V>(p: Pair<V>, d: Dict<V>, x: string)
    ensures Has([p] + d, x) <==> x == p.key || Has(d, x)
  {
    var r := [p] + d;
    if x == p.key { assert r[0].key == x; }
    if Has(d, x) { var i :| 0 <= i < |d| && d[i].key == x; assert r[i + 1].key == x; }
    if Has(r, x) && x != p.key { var i :| 0 <= i < |r| && r[i].key == x; assert d[i - 1].key == x; }
  }

  lemma {:induction false} AdjustAt<V>(d: Dict<V>, i: nat, f: V -> V)
    requires UniqueKeys(d) && i < |d|
    ensures Adjust(d, d[i].key, f) == d[i := Pair(d[i].key, f(d[i].value))]
    decreases |d|
  {
    if i > 0 {
      assert d[0].key != d[i].key;
      AdjustAt(d[1..], i - 1, f);
      assert d[1..][i - 1] == d[i];
    }
  }

  /** The index of the first entry with the key. */
  function Place<V>(d: Dict<V>, k: string): (i: nat)
    requires Has(d, k)
    ensures i < |d| && d[i].key == k
    decreases |d|
  {
    if d[0].key == k then 0
    else
      assert exists j :: 0 <= j < |d[1..]| && d[1..][j].key == k by {
        var j :| 0 <= j < |d| && d[j].key == k;
        assert d[1..][j - 1].key == k;
      }
      Place(d[1..], k) + 1
  }

  /** An existing key keeps its place, and every other entry stays. */
  lemma {:induction false} PutAtPlace<V>(d: Dict<V>, k: string, v: V)
    requires Has(d, k)
    ensures Put(d, k, v) == d[Place(d, k) := Pair(k, v)]
    decreases |d|
  {
    if d[0].key != k {
      var j :| 0 <= j < |d| && d[j].key == k;
      assert d[1..][j - 1].key == k;
      PutAtPlace(d[1..], k, v);
    }
  }

  lemma KeptKeys<V>(d: Dict<V>, n: nat, v: V)
    requires UniqueKeys(d) && n < |d|
    ensures UniqueKeys(d[n := Pair(d[n].key, v)]) && Has(d[n := Pair(d[n].key, v)], d[n].key)
  {
    assert d[n := Pair(d[n].key, v)][n].key == d[n].key;
  }

  lemma AdjustPlace<V>(d: Dict<V>, k: string, f: V -> V)
    requires UniqueKeys(d) && Has(d, k)
    ensures Adjust(d, k, f) == d[Place(d, k) := Pair(k, f(d[Place(d, k)].value))]
    ensures UniqueKeys(Adjust(d, k, f))
  {
    var i := Place(d, k);
    AdjustAt(d, i, f);
    KeptKeys(d, i, f(d[i].value));
  }

  lemma KeyAbsent<V>(d: Dict<V>, k: string)
    requires !Has(d, k)
    ensures forall p :: p in d ==> p.key != k
  {
  }

  /** After the assignment the key has only the new value. */
  lemma {:induction false} PutReplaces<V>(d: Dict<V>, k: string, v: V)
    requires UniqueKeys(d)
    ensures forall p :: p in Put(d, k, v) ==> p.key == k ==> p.value == v
    decreases |d|
  {
    if d != [] && d[0].key == k {
      FirstKeyIsNew(d);
      KeyAbsent(d[1..], k);
    } else if d != [] {
      PutReplaces(d[1..], k, v);
    }
  }

  // ------------------------------------------------------------------- folds

  /** A loop over a list whose body may raise. */
  function Fold<S, D>(step: (S, D) -> Option<S>, init: S, ds: seq<D>): Option<S>
    decreases |ds|
  {
    if ds == [] then Some(init)
    else
      var s :- Fold(step, init, ds[..|ds| - 1]);
      step(s, ds[|ds| - 1])
  }

  lemma {:induction false} FoldAppend<S, D>(step: (S, D) -> Option<S>, init: S, a: seq<D>, b: seq<D>)
    ensures Fold(step, init, a + b) ==
      match Fold(step, init, a) case None => None case Some(s) => Fold(step, s, b)
    decreases |b|
  {
    if b == [] {
      assert a + b == a;
    } else {
      assert (a + b)[..|a + b| - 1] == a + b[..|b| - 1];
      FoldAppend(step, init, a, b[..|b| - 1]);
    }
  }

  /** One round of the loop keeps the invariant, if it does not raise. */
  ghost predicate Keeps<S(!new), D>(step: (S, D) -> Option<S>, inv: S -> bool, d: D) {
    forall s :: inv(s) && step(s, d).Some? ==> inv(step(s, d).value)
  }

  lemma {:induction false} FoldKeeps<S(!new), D>(step: (S, D) -> Option<S>, inv: S -> bool, init: S, ds: seq<D>)
    requires inv(init)
    requires forall d :: d in ds ==> Keeps(step, inv, d)
    ensures Fold(step, init, ds).Some? ==> inv(Fold(step, init, ds).value)
    decreases |ds|
  {
    if ds != [] && Fold(step, init, ds).Some? {
      FoldKeeps(step, inv, init, ds[..|ds| - 1]);
      assert Keeps(step, inv, ds[|ds| - 1]);
    }
  }

  /** The loop raises if and only if one of its items is bad. */
  lemma {:induction false} FoldRaisesIff<S(!new), D(!new)>(
      step: (S, D) -> Option<S>, inv: S -> bool, bad: D -> bool, init: S, ds: seq<D>)
    requires inv(init)
    requires forall s, d ::
      inv(s) && d in ds ==> (step(s, d).None? <==> bad(d)) && (step(s, d).Some? ==> inv(step(s, d).value))
    ensures Fold(step, init, ds).None? <==> exists d :: d in ds && bad(d)
    ensures Fold(step, init, ds).Some? ==> inv(Fold(step, init, ds).value)
    decreases |ds|
  {
    if ds != [] {
      var before, last := ds[..|ds| - 1], ds[|ds| - 1];
      FoldRaisesIff(step, inv, bad, init, before);
      assert forall d :: d in ds <==> d in before || d == last;
    }
  }
}
