/** Loading a collection from YAML, and the change sets that its listeners are told,
    homeassistant/helpers/collection.py. */
module CollectionChanges {
  type Id(==, !new) = string

  datatype Item = Item(id: Id, content: string)

  datatype ChangeType = Added | Updated | Removed

  datatype Change = Change(kind: ChangeType, id: Id, item: Item)

  type Data = map<Id, Item>

  // ----------------------------------------------------------------- YAML loads

  /** What a load leaves: of the items with the same id the first, unless the id is new to
      the collection and used by another one. */
  function Loaded(items: seq<Item>, before: Data, others: set<Id>): Data
    decreases |items|
  {
    if items == [] then map[]
    else
      var loaded, item := Loaded(items[..|items| - 1], before, others), items[|items| - 1];
      if item.id in loaded || (item.id !in before && item.id in others) then loaded else loaded[item.id := item]
  }

  predicate Occurs(items: seq<Item>, id: Id) {
    exists i :: 0 <= i < |items| && items[i].id == id
  }

  lemma OccursNext(items: seq<Item>, item: Item, id: Id)
    ensures Occurs(items + [item], id) <==> Occurs(items, id) || item.id == id
  {
    var r := items + [item];
    if Occurs(items, id) { var i :| 0 <= i < |items| && items[i].id == id; assert r[i].id == id; }
    if item.id == id { assert r[|items|].id == id; }
  }

  /** The first item with an id. */
  function First(items: seq<Item>, id: Id): (item: Item)
    requires Occurs(items, id)
    ensures item.id == id
  {
    if items[0].id == id then items[0]
    else
      assert Occurs(items[1..], id) by {
        var i :| 0 <= i < |items| && items[i].id == id;
        assert items[1..][i - 1].id == id;
      }
      First(items[1..], id)
  }

  lemma {:induction false} FirstNext(items: seq<Item>, item: Item, id: Id)
    requires Occurs(items + [item], id)
    ensures First(items + [item], id) == if Occurs(items, id) then First(items, id) else item
    decreases |items|
  {
    var r := items + [item];
    if items != [] {
      assert r[1..] == items[1..] + [item];
      if items[0].id != id {
        OccursTail(r, id);
        OccursTail(items, id);
        FirstNext(items[1..], item, id);
      }
    }
  }

  lemma OccursTail(items: seq<Item>, id: Id)
    requires items != [] && items[0].id != id
    ensures Occurs(items, id) <==> Occurs(items[1..], id)
  {
    assert items == [items[0]] + items[1..];
    if Occurs(items, id) { var i :| 0 <= i < |items| && items[i].id == id; assert items[1..][i - 1].id == id; }
    if Occurs(items[1..], id) {
      var i :| 0 <= i < |items| - 1 && items[1..][i].id == id;
      assert items[i + 1].id == id;
    }
  }

  /** An id is loaded if and only if an item has it and it was in the collection before or no
      other collection uses it; it then stands for the first item that has it. */
  lemma {:induction false} LoadedExact(items: seq<Item>, before: Data, others: set<Id>, id: Id)
    ensures id in Loaded(items, before, others) <==> Occurs(items, id) && (id in before || id !in others)
    ensures id in Loaded(items, before, others) ==> Loaded(items, before, others)[id] == First(items, id)
    decreases |items|
  {
    if items != [] {
      var init, last := items[..|items| - 1], items[|items| - 1];
      assert items == init + [last];
      LoadedExact(init, before, others, id);
      OccursNext(init, last, id);
      if Occurs(items, id) { FirstNext(init, last, id); }
    }
  }

  // ---------------------------------------------------------------- change sets

  function ApplyChange(data: Data, c: Change): Data {
    if c.kind.Removed? then data - {c.id} else data[c.id := c.item]
  }

  /** What a listener that follows the changes has. */
  function Replay(data: Data, changes: seq<Change>): Data
    decreases |changes|
  {
    if changes == [] then data
    else ApplyChange(Replay(data, changes[..|changes| - 1]), changes[|changes| - 1])
  }

  lemma ReplayNothing(data: Data)
    ensures Replay(data, []) == data
  {
  }

  lemma ReplayNext(data: Data, changes: seq<Change>, c: Change)
    ensures Replay(data, changes + [c]) == ApplyChange(Replay(data, changes), c)
  {
    assert (changes + [c])[..|changes|] == changes;
  }

  predicate Mentions(changes: seq<Change>, id: Id) {
    exists i :: 0 <= i < |changes| && changes[i].id == id
  }

  predicate MentionedOnce(changes: seq<Change>) {
    forall i, j :: 0 <= i < j < |changes| ==> changes[i].id != changes[j].id
  }

  /** Every change is of the right kind, with the item that was put in or taken out. */
  predicate ChangeOk(c: Change, before: Data, after: Data) {
    match c.kind
    case Added => c.id !in before && c.id in after && after[c.id] == c.item
    case Updated => c.id in before && c.id in after && after[c.id] == c.item
    case Removed => c.id in before && c.id !in after && before[c.id] == c.item
  }

  predicate ChangesOk(changes: seq<Change>, before: Data, after: Data) {
    forall i :: 0 <= i < |changes| ==> ChangeOk(changes[i], before, after)
  }

  predicate PutsOk(changes: seq<Change>, before: Data, after: Data) {
    forall i :: 0 <= i < |changes| ==> !changes[i].kind.Removed? && ChangeOk(changes[i], before, after)
  }

  /** Half-way through the items: the data are the loaded items over what is left of the old
      data, and `oldIds` are the old ids not met yet. */
  ghost predicate LoadState(done: seq<Item>, before: Data, others: set<Id>, data: Data, oldIds: set<Id>,
    changes: seq<Change>) {
    var loaded := Loaded(done, before, others);
    && oldIds == before.Keys - loaded.Keys
    && Changed(loaded, before, data, oldIds, changes)
  }

  ghost predicate Changed(loaded: Data, before: Data, data: Data, oldIds: set<Id>, changes: seq<Change>) {
    && data == before + loaded
    && Replay(before, changes) == data
    && MentionedOnce(changes)
    && (forall id :: Mentions(changes, id) <==> id in loaded)
    && PutsOk(changes, before, loaded)
  }

  lemma LoadStarts(before: Data, others: set<Id>)
    ensures LoadState([], before, others, before, before.Keys, [])
  {
  }

  lemma LoadEnds(items: seq<Item>, before: Data, others: set<Id>, data: Data, oldIds: set<Id>, changes: seq<Change>)
    requires LoadState(items, before, others, data, oldIds, changes)
    ensures Sweeping(Loaded(items, before, others), before, data, oldIds, changes)
  {
  }

  lemma SweepEnds(loaded: Data, before: Data, data: Data, changes: seq<Change>)
    requires Sweeping(loaded, before, data, {}, changes)
    ensures data == loaded && Replay(before, changes) == data
    ensures MentionedOnce(changes) && ChangesOk(changes, before, data)
  {
  }

  lemma MentionsNext(changes: seq<Change>, c: Change)
    requires MentionedOnce(changes) && !Mentions(changes, c.id)
    ensures MentionedOnce(changes + [c])
    ensures forall id :: Mentions(changes + [c], id) <==> Mentions(changes, id) || id == c.id
  {
    var r := changes + [c];
    forall id ensures Mentions(r, id) <==> Mentions(changes, id) || id == c.id {
      if Mentions(changes, id) { var i :| 0 <= i < |changes| && changes[i].id == id; assert r[i].id == id; }
      if id == c.id { assert r[|changes|].id == id; }
    }
  }

  lemma LoadNext(items: seq<Item>, n: nat, before: Data, others: set<Id>, data: Data, oldIds: set<Id>,
    changes: seq<Change>)
    requires n < |items| && LoadState(items[..n], before, others, data, oldIds, changes)
    ensures var item := items[n];
      if item.id in oldIds then
        LoadState(items[..n + 1], before, others, data[item.id := item], oldIds - {item.id},
          changes + [Change(Updated, item.id, item)])
      else if item.id !in data && item.id !in others then
        LoadState(items[..n + 1], before, others, data[item.id := item], oldIds,
          changes + [Change(Added, item.id, item)])
      else LoadState(items[..n + 1], before, others, data, oldIds, changes)
  {
    var item, loaded := items[n], Loaded(items[..n], before, others);
    assert items[..n + 1][..n] == items[..n];
    if item.id in oldIds {
      Put(loaded, before, data, oldIds, changes, Change(Updated, item.id, item));
    } else if item.id !in data && item.id !in others {
      Put(loaded, before, data, oldIds, changes, Change(Added, item.id, item));
    }
  }

  lemma Put(loaded: Data, before: Data, data: Data, oldIds: set<Id>, changes: seq<Change>, c: Change)
    requires Changed(loaded, before, data, oldIds, changes) && c.id !in loaded
    requires c.kind == if c.id in before then Updated else Added
    ensures Changed(loaded[c.id := c.item], before, data[c.id := c.item], oldIds - {c.id}, changes + [c])
  {
    hide MentionedOnce, Mentions, Replay;
    MentionsNext(changes, c);
    ReplayNext(before, changes, c);
    StillPutOk(changes, before, loaded, c);
    assert before + loaded[c.id := c.item] == (before + loaded)[c.id := c.item];
  }

  lemma StillPutOk(changes: seq<Change>, before: Data, loaded: Data, c: Change)
    requires PutsOk(changes, before, loaded) && !Mentions(changes, c.id)
    requires c.kind == if c.id in before then Updated else Added
    ensures PutsOk(changes + [c], before, loaded[c.id := c.item])
  {
    forall i | 0 <= i < |changes| ensures ChangeOk(changes[i], before, loaded[c.id := c.item]) {
      assert Mentions(changes, changes[i].id);
    }
  }

  /** While what is left of the old data is removed. */
  ghost predicate Sweeping(loaded: Data, before: Data, data: Data, oldIds: set<Id>, changes: seq<Change>) {
    && oldIds <= before.Keys - loaded.Keys
    && data.Keys == loaded.Keys + oldIds
    && (forall id :: id in loaded ==> data[id] == loaded[id])
    && (forall id :: id in oldIds ==> data[id] == before[id])
    && Replay(before, changes) == data
    && MentionedOnce(changes)
    && (forall id :: id in oldIds ==> !Mentions(changes, id))
    && ChangesOk(changes, before, loaded)
  }

  lemma SweepNext(loaded: Data, before: Data, data: Data, oldIds: set<Id>, changes: seq<Change>, id: Id)
    requires Sweeping(loaded, before, data, oldIds, changes) && id in oldIds
    ensures id in data
    ensures Sweeping(loaded, before, data - {id}, oldIds - {id}, changes + [Change(Removed, id, data[id])])
  {
    var c := Change(Removed, id, data[id]);
    MentionsNext(changes, c);
    ReplayNext(before, changes, c);
  }
}
