/** Indexes from a key to the set of items with that key, kept without empty buckets. */
module Indexes {
  import opened Options

  function KeysOf<K(==), V(==)>(items: set<V>, key: V -> Option<K>): set<K> {
    set v | v in items && key(v).Some? :: key(v).value
  }

  function Bucket<K(==), V(==)>(items: set<V>, key: V -> Option<K>, k: K): set<V> {
    set v | v in items && key(v) == Some(k)
  }

  /** The index a scan of all items gives. */
  function IndexOf<K(==), V(==)>(items: set<V>, key: V -> Option<K>): (index: map<K, set<V>>)
    ensures index.Keys == KeysOf(items, key)
    ensures forall k :: k in index ==> index[k] == Bucket(items, key, k)
  {
    map k | k in KeysOf(items, key) :: Bucket(items, key, k)
  }

  /** Every lookup gives what a scan of all items gives, and no bucket is empty. */
  ghost predicate LooksUp<K(!new), V>(index: map<K, set<V>>, items: set<V>, key: V -> Option<K>) {
    && (forall k :: k in index ==> index[k] != {})
    && (forall k :: (if k in index then index[k] else {}) == Bucket(items, key, k))
  }

  lemma ExactIffLookups<K(!new), V>(index: map<K, set<V>>, items: set<V>, key: V -> Option<K>)
    ensures index == IndexOf(items, key) <==> LooksUp(index, items, key)
  {
    var exact := IndexOf(items, key);
    if index == exact {
      forall k | k in index ensures index[k] != {} {
        var v :| v in items && key(v) == Some(k);
        assert v in index[k];
      }
      forall k ensures (if k in index then index[k] else {}) == Bucket(items, key, k) {
        if k !in index { assert Bucket(items, key, k) == {}; }
      }
    }
    if LooksUp(index, items, key) {
      forall k ensures k in index <==> k in exact {
        if k in index {
          assert index[k] == Bucket(items, key, k);
          var v :| v in index[k];
        }
        if k in exact {
          var v :| v in items && key(v) == Some(k);
          assert v in Bucket(items, key, k);
        }
      }
      assert forall k :: k in index ==> index[k] == exact[k];
    }
  }

  /** `index.setdefault(key, set()).add(item)`, for an item that has a key. */
  function Add<K(==), V(==)>(index: map<K, set<V>>, item: V, key: V -> Option<K>): map<K, set<V>> {
    match key(item)
    case None => index
    case Some(k) => index[k := (if k in index then index[k] else {}) + {item}]
  }

  /** Removing the item from its bucket would not fail. */
  predicate Removable<K(==), V(==)>(index: map<K, set<V>>, item: V, key: V -> Option<K>) {
    match key(item)
    case None => true
    case Some(k) => k in index && item in index[k]
  }

  /** Removes the item from its bucket, and the bucket if that leaves it empty. */
  function Remove<K(==), V(==)>(index: map<K, set<V>>, item: V, key: V -> Option<K>): map<K, set<V>>
    requires Removable(index, item, key)
  {
    match key(item)
    case None => index
    case Some(k) => if index[k] == {item} then index - {k} else index[k := index[k] - {item}]
  }

  lemma AddExact<K, V>(items: set<V>, item: V, key: V -> Option<K>)
    ensures Add(IndexOf(items, key), item, key) == IndexOf(items + {item}, key)
  {
    var r, index := IndexOf(items + {item}, key), IndexOf(items, key);
    assert r.Keys == Add(index, item, key).Keys;
    forall k | k in r ensures r[k] == Add(index, item, key)[k] {
      if key(item) != Some(k) {
        assert Bucket(items + {item}, key, k) == Bucket(items, key, k);
      } else {
        assert Bucket(items + {item}, key, k) == Bucket(items, key, k) + {item};
        if k !in index { assert Bucket(items, key, k) == {}; }
      }
    }
  }

  /** Removing a listed item never fails, and leaves the index of the other items. */
  lemma RemoveExact<K, V>(items: set<V>, item: V, key: V -> Option<K>)
    requires item in items
    ensures Removable(IndexOf(items, key), item, key)
    ensures Remove(IndexOf(items, key), item, key) == IndexOf(items - {item}, key)
  {
    var index, r := IndexOf(items, key), IndexOf(items - {item}, key);
    if key(item).Some? {
      assert key(item).value in KeysOf(items, key);
      assert item in Bucket(items, key, key(item).value);
    }
    var s := Remove(index, item, key);
    forall k ensures k in s <==> k in r {
      if k in s && key(item) == Some(k) {
        var v :| v in index[k] && v != item;
        assert v in items - {item} && key(v) == Some(k);
      } else if k in s {
        var v :| v in items && key(v) == Some(k);
        assert v in items - {item};
      }
      if k in r {
        var v :| v in items - {item} && key(v) == Some(k);
        assert v in index[k] && k in index;
      }
    }
    forall k | k in r ensures r[k] == s[k] {
      assert Bucket(items - {item}, key, k) == Bucket(items, key, k) - {item};
    }
  }
}
