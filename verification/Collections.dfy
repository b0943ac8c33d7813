/** Collections that share an id manager, homeassistant/helpers/collection.py. */
module Collections {
  import opened Options
  import opened CollectionChanges
  import opened CollectionIds
  import opened Sets

  // ------------------------------------------------------------------ the objects

  class Dict {
    var items: Data

    constructor ()
      ensures items == map[]
    {
      items := map[];
    }
  }

  class IdManager {
    var collections: seq<Dict>

    constructor ()
      ensures collections == []
    {
      collections := [];
    }

    method AddCollection(d: Dict)
      modifies this
      ensures collections == old(collections) + [d]
    {
      collections := collections + [d];
    }

    /** The ids of all collections. */
    ghost function Used(): set<Id>
      reads this, collections
    {
      set d, id | d in collections && id in d.items :: id
    }

    ghost function UsedElsewhere(own: Dict): set<Id>
      reads this, collections
    {
      set d, id | d in collections && d != own && id in d.items :: id
    }

    ghost predicate Disjoint()
      reads this, collections
    {
      forall d, e :: d in collections && e in collections && d != e ==> d.items.Keys !! e.items.Keys
    }

    predicate HasId(id: Id)
      reads this, collections
      ensures HasId(id) <==> id in Used()
    {
      exists d :: d in collections && id in d.items
    }

    ghost predicate IsFirstFree(base: string, id: Id)
      reads this, collections
    {
      exists n: nat :: n >= 1 && id == Proposal(base, n) && !HasId(id)
        && forall k :: 1 <= k < n ==> HasId(Proposal(base, k))
    }

    /** The first proposal that no collection uses; there is one, since the used ids run out. */
    method GenerateId(base: string) returns (id: Id)
      ensures IsFirstFree(base, id)
    {
      hide HasId, Used, ProposedBefore, Proposal;
      var attempt := 1;
      NothingProposedBefore(base);
      id := base;
      ghost var used, tried: set<Id> := Used(), {};
      while HasId(id)
        invariant attempt >= 1 && id == Proposal(base, attempt)
        invariant forall k :: 1 <= k < attempt ==> HasId(Proposal(base, k))
        invariant tried <= used
        invariant forall t :: t in tried ==> ProposedBefore(base, attempt, t)
        decreases |used| - |tried|
      {
        NotProposedBefore(base, attempt);
        SubsetCard(tried + {id}, used);
        tried := tried + {id};
        attempt := attempt + 1;
        id := Proposal(base, attempt);
      }
    }
  }

  class YamlCollection {
    const data: Dict
    const idManager: IdManager

    constructor (idManager: IdManager)
      modifies idManager
      ensures this.idManager == idManager && data.items == map[] && fresh(data)
      ensures idManager.collections == old(idManager.collections) + [data]
    {
      this.idManager := idManager;
      data := new Dict();
      new;
      idManager.AddCollection(data);
    }

    /** `async_load`: returns the changes that the listeners are told. */
    method AsyncLoad(items: seq<Item>) returns (changes: seq<Change>)
      requires data in idManager.collections
      modifies data
      ensures data.items == Loaded(items, old(data.items), old(idManager.UsedElsewhere(data)))
      ensures Replay(old(data.items), changes) == data.items
      ensures MentionedOnce(changes) && ChangesOk(changes, old(data.items), data.items)
      ensures old(idManager.Disjoint()) ==> idManager.Disjoint()
    {
      hide LoadState, Sweeping, Loaded, Replay, MentionedOnce, ChangesOk;
      ghost var before, others := data.items, idManager.UsedElsewhere(data);
      var oldIds := data.items.Keys;
      changes := [];
      LoadStarts(before, others);
      assert items[..0] == [];
      for n := 0 to |items|
        invariant idManager.UsedElsewhere(data) == others
        invariant LoadState(items[..n], before, others, data.items, oldIds, changes)
      {
        var item := items[n];
        LoadNext(items, n, before, others, data.items, oldIds, changes);
        if item.id in oldIds {
          oldIds := oldIds - {item.id};
          data.items := data.items[item.id := item];
          changes := changes + [Change(Updated, item.id, item)];
        } else if !HasIdHere(item.id) {
          data.items := data.items[item.id := item];
          changes := changes + [Change(Added, item.id, item)];
        }
      }
      assert items[..|items|] == items;
      ghost var loaded := Loaded(items, before, others);
      LoadEnds(items, before, others, data.items, oldIds, changes);
      while oldIds != {}
        invariant idManager.UsedElsewhere(data) == others
        invariant Sweeping(loaded, before, data.items, oldIds, changes)
        decreases oldIds
      {
        var id :| id in oldIds;
        SweepNext(loaded, before, data.items, oldIds, changes, id);
        changes := changes + [Change(Removed, id, data.items[id])];
        data.items := data.items - {id};
        oldIds := oldIds - {id};
      }
      SweepEnds(loaded, before, data.items, changes);
      forall id | id in loaded ensures id in before || id !in others { LoadedExact(items, before, others, id); }
    }

    predicate HasIdHere(id: Id)
      requires data in idManager.collections
      reads idManager, idManager.collections, data
      ensures HasIdHere(id) <==> id in data.items || id in idManager.UsedElsewhere(data)
    {
      idManager.HasId(id)
    }
  }

  class StorageCollection {
    const data: Dict
    const idManager: IdManager

    constructor (idManager: IdManager)
      modifies idManager
      ensures this.idManager == idManager && data.items == map[] && fresh(data)
      ensures idManager.collections == old(idManager.collections) + [data]
    {
      this.idManager := idManager;
      data := new Dict();
      new;
      idManager.AddCollection(data);
    }

    /** `async_load` does not look for clashes: the collections stay disjoint if and only if
        no other collection uses an id in the storage. */
    method AsyncLoad(stored: seq<Item>) returns (changes: seq<Change>)
      requires data in idManager.collections && idManager.Disjoint()
      modifies data
      ensures |changes| == |stored|
      ensures forall i :: 0 <= i < |stored| ==> changes[i] == Change(Added, stored[i].id, stored[i])
      ensures data.items == Replay(old(data.items), changes)
      ensures idManager.Disjoint() <==>
        forall i :: 0 <= i < |stored| ==> stored[i].id !in old(idManager.UsedElsewhere(data))
    {
      hide Replay;
      ghost var before, others := data.items, idManager.UsedElsewhere(data);
      DisjointIffOwnIdsFree(idManager, data);
      changes := [];
      ReplayNothing(before);
      for n := 0 to |stored|
        invariant |changes| == n
        invariant forall i :: 0 <= i < n ==> changes[i] == Change(Added, stored[i].id, stored[i])
        invariant data.items == Replay(before, changes)
        invariant data.items.Keys == before.Keys + set i | 0 <= i < n :: stored[i].id
        invariant idManager.UsedElsewhere(data) == others
      {
        var item := stored[n];
        ReplayNext(before, changes, Change(Added, item.id, item));
        data.items := data.items[item.id := item];
        changes := changes + [Change(Added, item.id, item)];
      }
      DisjointIffOwnIdsFree(idManager, data);
    }

    /** `async_create_item` from the generation of the id on. */
    method AsyncCreateItem(suggestion: string, content: string) returns (item: Item, change: Change)
      requires data in idManager.collections
      modifies data
      ensures old(!idManager.HasId(item.id)) && item.content == content
      ensures data.items == old(data.items)[item.id := item] && change == Change(Added, item.id, item)
      ensures old(idManager.Disjoint()) ==> idManager.Disjoint()
    {
      var id := idManager.GenerateId(suggestion);
      item := Item(id, content);
      data.items := data.items[id := item];
      change := Change(Added, id, item);
    }

    /** The end of `async_update_item`, when the new item is known. The item may have been
        deleted since the update began; the collections stay disjoint if and only if no other
        collection has taken its id meanwhile. */
    method UpdateReturned(id: Id, content: string) returns (change: Change)
      requires data in idManager.collections && idManager.Disjoint()
      modifies data
      ensures data.items == old(data.items)[id := Item(id, content)] && change == Change(Updated, id, Item(id, content))
      ensures idManager.Disjoint() <==> id !in old(idManager.UsedElsewhere(data))
    {
      ghost var others := idManager.UsedElsewhere(data);
      DisjointIffOwnIdsFree(idManager, data);
      data.items := data.items[id := Item(id, content)];
      assert idManager.UsedElsewhere(data) == others;
      DisjointIffOwnIdsFree(idManager, data);
      change := Change(Updated, id, Item(id, content));
    }

    /** `async_delete_item`; an unknown id raises. */
    method AsyncDeleteItem(id: Id) returns (change: Option<Change>)
      requires data in idManager.collections
      modifies data
      ensures data.items == old(data.items) - {id}
      ensures change == if id in old(data.items) then Some(Change(Removed, id, old(data.items)[id])) else None
      ensures old(idManager.Disjoint()) ==> idManager.Disjoint()
    {
      if id !in data.items { assert data.items - {id} == data.items; return None; }
      change := Some(Change(Removed, id, data.items[id]));
      data.items := data.items - {id};
    }
  }

  /** When the other collections are disjoint, all are if and only if none of the own ids is
      used elsewhere. */
  lemma DisjointIffOwnIdsFree(m: IdManager, own: Dict)
    requires own in m.collections && OthersDisjoint(m, own)
    ensures m.Disjoint() <==> own.items.Keys !! m.UsedElsewhere(own)
  {
    if own.items.Keys !! m.UsedElsewhere(own) {
      forall d, id | d in m.collections && d != own && id in d.items.Keys ensures id !in own.items.Keys {
        assert id in m.UsedElsewhere(own);
      }
    }
    if m.Disjoint() {
      forall id | id in m.UsedElsewhere(own) ensures id !in own.items.Keys {
        var d :| d in m.collections && d != own && id in d.items;
        assert d.items.Keys !! own.items.Keys;
      }
    }
  }

  ghost predicate OthersDisjoint(m: IdManager, own: Dict)
    reads m, m.collections
  {
    forall d, e | d in m.collections && e in m.collections ::
      d != e && d != own && e != own ==> d.items.Keys !! e.items.Keys
  }
}
