/** The histories of state changes that homeassistant/core.py time-stamps, independent of any
    stored state: what was set, removed or forced, and when. */
module StateHistory {
  import opened Options

  /** An entity id such as `light.kitchen`. */
  datatype Id = Id(text: string)

  datatype Attributes = Attributes(items: map<string, string>)

  /** A call that reached the state machine, with the entity id it was resolved to. */
  datatype Op =
    | Set(id: Id, value: string, attributes: Attributes, force: bool, time: int)
    | Remove(id: Id)

  type History = seq<Op>

  /** The index of the last operation on `id`. */
  function LastOn(h: History, id: Id): Option<nat>
    ensures LastOn(h, id).Some? ==> LastOn(h, id).value < |h| && h[LastOn(h, id).value].id == id
  {
    if h == [] then None
    else if h[|h| - 1].id == id then Some(|h| - 1)
    else LastOn(h[..|h| - 1], id)
  }

  /** Whether the entity exists after the history: its last operation was a `Set`. */
  predicate Exists(h: History, id: Id) {
    LastOn(h, id).Some? && h[LastOn(h, id).value].Set?
  }

  function Latest(h: History, id: Id): Op
    requires Exists(h, id)
  {
    h[LastOn(h, id).value]
  }

  /** Operation `i` creates the entity, changes its value, or is forced. */
  predicate Changes(h: History, i: nat)
    requires i < |h|
  {
    h[i].Set? && (h[i].force || !Exists(h[..i], h[i].id) || Latest(h[..i], h[i].id).value != h[i].value)
  }

  /** Operation `i` creates the entity, changes its value or attributes, or is forced. */
  predicate Updates(h: History, i: nat)
    requires i < |h|
  {
    Changes(h, i) || (h[i].Set? && Latest(h[..i], h[i].id).attributes != h[i].attributes)
  }

  /** The time of the last operation on `id` that is a `Set` of the given kind. */
  datatype Kind = Changing | Updating | Reporting

  predicate IsKind(h: History, i: nat, k: Kind)
    requires i < |h|
  {
    match k
    case Changing => Changes(h, i)
    case Updating => Updates(h, i)
    case Reporting => h[i].Set?
  }

  /** `t` is the time of the last operation of the kind on `id`. */
  ghost predicate IsLastTime(h: History, id: Id, k: Kind, t: int) {
    exists i :: 0 <= i < |h| && LastOfKind(h, id, k, i) && h[i].Set? && h[i].time == t
  }

  ghost predicate LastOfKind(h: History, id: Id, k: Kind, i: nat)
    requires i < |h|
  {
    && h[i].id == id && IsKind(h, i, k)
    && forall j :: i < j < |h| && h[j].id == id ==> !IsKind(h, j, k)
  }

  ghost predicate Monotone(h: History) {
    forall i, j :: 0 <= i < j < |h| && h[i].Set? && h[j].Set? ==> h[i].time <= h[j].time
  }

  /** With a clock that never runs backwards, last_changed <= last_updated <= last_reported. */
  lemma TimesAreOrdered(h: History, id: Id, changed: int, updated: int, reported: int)
    requires Monotone(h)
    requires IsLastTime(h, id, Changing, changed)
    requires IsLastTime(h, id, Updating, updated)
    requires IsLastTime(h, id, Reporting, reported)
    ensures changed <= updated <= reported
  {
    hide Exists, Latest, LastOn;
    var c :| 0 <= c < |h| && LastOfKind(h, id, Changing, c) && h[c].Set? && h[c].time == changed;
    var u :| 0 <= u < |h| && LastOfKind(h, id, Updating, u) && h[u].Set? && h[u].time == updated;
    var r :| 0 <= r < |h| && LastOfKind(h, id, Reporting, r) && h[r].Set? && h[r].time == reported;
    assert IsKind(h, c, Updating) && IsKind(h, u, Reporting);
    assert c <= u <= r;
  }

  // ------------------------------------------------ appending one operation

  lemma AppendPrefix(h: History, op: Op)
    ensures forall i :: 0 <= i <= |h| ==> (h + [op])[..i] == h[..i]
    ensures (h + [op])[..|h|] == h
  {
  }

  lemma AppendKind(h: History, op: Op, i: nat, k: Kind)
    requires i < |h|
    ensures IsKind(h + [op], i, k) == IsKind(h, i, k)
  {
    AppendPrefix(h, op);
  }

  lemma AppendLastOn(h: History, op: Op, id: Id)
    ensures LastOn(h + [op], id) == if op.id == id then Some(|h|) else LastOn(h, id)
  {
    AppendPrefix(h, op);
  }

  lemma AppendExists(h: History, op: Op, id: Id)
    ensures Exists(h + [op], id) <==> if op.id == id then op.Set? else Exists(h, id)
    ensures Exists(h + [op], id) ==> Latest(h + [op], id) == if op.id == id then op else Latest(h, id)
  {
    AppendLastOn(h, op, id);
  }

  /** How one more operation moves the three times of an entity. */
  lemma AppendTime(h: History, op: Op, id: Id, k: Kind, t: int)
    requires IsLastTime(h, id, k, t)
    requires op.id == id ==> !IsKind(h + [op], |h|, k)
    ensures IsLastTime(h + [op], id, k, t)
  {
    var i :| 0 <= i < |h| && LastOfKind(h, id, k, i) && h[i].Set? && h[i].time == t;
    forall j | 0 <= j < |h| ensures IsKind(h + [op], j, k) == IsKind(h, j, k) { AppendKind(h, op, j, k); }
    assert LastOfKind(h + [op], id, k, i);
  }

  lemma AppendNewTime(h: History, op: Op, k: Kind)
    requires op.Set? && IsKind(h + [op], |h|, k)
    ensures IsLastTime(h + [op], op.id, k, op.time)
  {
    assert LastOfKind(h + [op], op.id, k, |h|);
  }

  lemma AppendedKinds(h: History, op: Op)
    requires op.Set?
    ensures Changes(h + [op], |h|) <==> op.force || !Exists(h, op.id) || Latest(h, op.id).value != op.value
    ensures Updates(h + [op], |h|) <==>
      op.force || !Exists(h, op.id) || Latest(h, op.id).value != op.value
        || Latest(h, op.id).attributes != op.attributes
  {
    AppendPrefix(h, op);
  }

  // --------------------------------------------- stored records and their stamps

  /** What the state machine stores for an entity. */
  datatype Record = Record(id: Id, value: string, attributes: Attributes,
                           lastChanged: int, lastUpdated: int, lastReported: int)

  type Records = map<Id, Record>

  /** The three time stamps are the times of the operations they stand for. */
  ghost predicate Stamped(h: History, r: Record) {
    && IsLastTime(h, r.id, Changing, r.lastChanged)
    && IsLastTime(h, r.id, Updating, r.lastUpdated)
    && IsLastTime(h, r.id, Reporting, r.lastReported)
  }

  predicate Recorded(h: History, id: Id, r: Record) {
    r.id == id && Exists(h, id) && Latest(h, id).value == r.value && Latest(h, id).attributes == r.attributes
  }

  /** The records are exactly the existing entities, with their latest value and attributes
      and the right time stamps. */
  ghost predicate Faithful(h: History, m: Records) {
    && (forall id :: id in m ==> Recorded(h, id, m[id]) && Stamped(h, m[id]))
    && (forall id :: Exists(h, id) ==> id in m)
  }

  /** Entities that an operation is not about stay recorded and keep their time stamps. */
  lemma OpKeepsOther(h: History, op: Op, id: Id, r: Record)
    requires Recorded(h, id, r) && Stamped(h, r) && op.id != id
    ensures Recorded(h + [op], id, r) && Stamped(h + [op], r)
  {
    AppendExists(h, op, id);
    AppendTime(h, op, id, Changing, r.lastChanged);
    AppendTime(h, op, id, Updating, r.lastUpdated);
    AppendTime(h, op, id, Reporting, r.lastReported);
  }

  lemma RemoveKeepsFaithful(h: History, id: Id, m: Records)
    requires Faithful(h, m)
    ensures Faithful(h + [Remove(id)], m - {id})
  {
    forall x | x in m - {id}
      ensures Recorded(h + [Remove(id)], x, m[x]) && Stamped(h + [Remove(id)], m[x])
    {
      OpKeepsOther(h, Remove(id), x, m[x]);
    }
    forall x | Exists(h + [Remove(id)], x)
      ensures x in m - {id}
    {
      AppendExists(h, Remove(id), x);
    }
  }

  /** Storing a record that carries and time-stamps the new operation. */
  lemma SetKeepsFaithful(h: History, op: Op, m: Records, r: Record)
    requires op.Set? && Faithful(h, m)
    requires Recorded(h + [op], op.id, r) && Stamped(h + [op], r)
    ensures Faithful(h + [op], m[op.id := r])
  {
    var after := m[op.id := r];
    forall x | x in after
      ensures Recorded(h + [op], x, after[x]) && Stamped(h + [op], after[x])
    {
      if x != op.id {
        OpKeepsOther(h, op, x, m[x]);
      }
    }
    forall x | Exists(h + [op], x)
      ensures x in after
    {
      AppendExists(h, op, x);
    }
  }

  /** The comparison with the stored record decides what kind of operation a `Set` is. */
  lemma SetKind(h: History, m: Records, op: Op)
    requires Faithful(h, m) && op.Set?
    ensures Changes(h + [op], |h|) <==> op.force || op.id !in m || m[op.id].value != op.value
    ensures Updates(h + [op], |h|) <==>
      op.force || op.id !in m || m[op.id].value != op.value || m[op.id].attributes != op.attributes
  {
    AppendedKinds(h, op);
    if op.id in m { assert Recorded(h, op.id, m[op.id]); }
  }

  /** What `async_set` stores: a report only moves the last time stamp, an update keeps the
      time of the last change. */
  function Next(m: Records, op: Op): Record
    requires op.Set?
  {
    if op.id !in m || op.force || m[op.id].value != op.value then
      Record(op.id, op.value, op.attributes, op.time, op.time, op.time)
    else if m[op.id].attributes != op.attributes then
      Record(op.id, op.value, op.attributes, m[op.id].lastChanged, op.time, op.time)
    else m[op.id].(lastReported := op.time)
  }

  /** The stored record of a `Set` carries the right time stamps. */
  lemma NextIsStamped(h: History, m: Records, op: Op)
    requires Faithful(h, m) && op.Set?
    ensures Recorded(h + [op], op.id, Next(m, op)) && Stamped(h + [op], Next(m, op))
  {
    SetKind(h, m, op);
    AppendExists(h, op, op.id);
    AppendNewTime(h, op, Reporting);
    if op.id in m {
      assert Stamped(h, m[op.id]) && Recorded(h, op.id, m[op.id]);
    }
    if Changes(h + [op], |h|) {
      AppendNewTime(h, op, Changing);
    } else {
      AppendTime(h, op, op.id, Changing, m[op.id].lastChanged);
    }
    if Updates(h + [op], |h|) {
      AppendNewTime(h, op, Updating);
    } else {
      AppendTime(h, op, op.id, Updating, m[op.id].lastUpdated);
    }
  }

  /** With a clock that never runs backwards, the time stamps of every stored record are in
      order. */
  lemma StampsAreOrdered(h: History, m: Records, id: Id)
    requires Faithful(h, m) && Monotone(h) && id in m
    ensures m[id].lastChanged <= m[id].lastUpdated <= m[id].lastReported
  {
    assert Recorded(h, id, m[id]) && Stamped(h, m[id]);
    TimesAreOrdered(h, id, m[id].lastChanged, m[id].lastUpdated, m[id].lastReported);
  }
}
