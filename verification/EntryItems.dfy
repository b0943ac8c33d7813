/** The two indexes over config entries, homeassistant/config_entries.py. Entries stand in
    the indexes by their id. */
module EntryItems {
  import opened Options

  type Id(==, !new) = string

  datatype Entry = Entry(id: Id, domain: string, uniqueId: Option<string>)

  datatype Items = Items(
    data: map<Id, Entry>, byDomain: map<string, seq<Id>>, byUnique: map<string, map<string, Id>>)

  const EMPTY := Items(map[], map[], map[])

  function RemoveOne(ids: seq<Id>, id: Id): (r: seq<Id>)
    requires id in ids
    ensures multiset(r) == multiset(ids) - multiset{id}
    decreases |ids|
  {
    assert ids == [ids[0]] + ids[1..];
    if ids[0] == id then ids[1..] else [ids[0]] + RemoveOne(ids[1..], id)
  }

  function Ids(byDomain: map<string, seq<Id>>, d: string): seq<Id> {
    if d in byDomain then byDomain[d] else []
  }

  function Unique(byUnique: map<string, map<string, Id>>, d: string): map<string, Id> {
    if d in byUnique then byUnique[d] else map[]
  }

  function DomainsWith(byDomain: map<string, seq<Id>>, e: Entry): map<string, seq<Id>> {
    byDomain[e.domain := Ids(byDomain, e.domain) + [e.id]]
  }

  function UniqueWith(byUnique: map<string, map<string, Id>>, e: Entry): map<string, map<string, Id>> {
    match e.uniqueId
    case None => byUnique
    case Some(u) => byUnique[e.domain := Unique(byUnique, e.domain)[u := e.id]]
  }

  /** `_index_entry`. */
  function Index(s: Items, e: Entry): Items {
    s.(byDomain := DomainsWith(s.byDomain, e), byUnique := UniqueWith(s.byUnique, e))
  }

  predicate InDomains(byDomain: map<string, seq<Id>>, e: Entry) {
    e.id in Ids(byDomain, e.domain)
  }

  predicate InUnique(byUnique: map<string, map<string, Id>>, e: Entry) {
    e.uniqueId.Some? ==> e.uniqueId.value in Unique(byUnique, e.domain)
  }

  /** What `_unindex_entry` does not find would make it raise. */
  predicate Unindexable(s: Items, e: Entry) {
    InDomains(s.byDomain, e) && InUnique(s.byUnique, e)
  }

  function DomainsWithout(byDomain: map<string, seq<Id>>, e: Entry): map<string, seq<Id>>
    requires InDomains(byDomain, e)
  {
    var rest := RemoveOne(byDomain[e.domain], e.id);
    if rest == [] then byDomain - {e.domain} else byDomain[e.domain := rest]
  }

  function UniqueWithout(byUnique: map<string, map<string, Id>>, e: Entry): map<string, map<string, Id>>
    requires InUnique(byUnique, e)
  {
    match e.uniqueId
    case None => byUnique
    case Some(u) =>
      var others := byUnique[e.domain] - {u};
      if others == map[] then byUnique - {e.domain} else byUnique[e.domain := others]
  }

  /** `_unindex_entry` of an entry that it finds. */
  function Unindex(s: Items, e: Entry): Items
    requires Unindexable(s, e)
  {
    s.(byDomain := DomainsWithout(s.byDomain, e), byUnique := UniqueWithout(s.byUnique, e))
  }

  datatype Op = Set(entry: Entry) | Delete(id: Id) | UpdateUniqueId(id: Id, uniqueId: Option<string>)

  /** The entries after an operation; deleting or updating an unknown id raises. */
  function DataAfter(data: map<Id, Entry>, op: Op): Option<map<Id, Entry>> {
    match op
    case Set(e) => Some(data[e.id := e])
    case Delete(id) => if id in data then Some(data - {id}) else None
    case UpdateUniqueId(id, u) => if id in data then Some(data[id := data[id].(uniqueId := u)]) else None
  }

  /** The operation; `None` when it raises, be it for an unknown id or in an index. */
  function Apply(s: Items, op: Op): Option<Items> {
    match op
    case Set(e) =>
      if e.id !in s.data then Some(Index(s.(data := s.data[e.id := e]), e))
      else if !Unindexable(s, s.data[e.id]) then None
      else Some(Index(Unindex(s, s.data[e.id]).(data := s.data[e.id := e]), e))
    case Delete(id) =>
      if id !in s.data || !Unindexable(s, s.data[id]) then None
      else Some(Unindex(s, s.data[id]).(data := s.data - {id}))
    case UpdateUniqueId(id, u) =>
      if id !in s.data || !Unindexable(s, s.data[id]) then None
      else
        var e := s.data[id].(uniqueId := u);
        Some(Index(Unindex(s, s.data[id]).(data := s.data[id := e]), e))
  }

  function Target(op: Op): Id {
    match op case Set(e) => e.id case Delete(id) => id case UpdateUniqueId(id, _) => id
  }

  /** What an operation that raises leaves behind: an entry that was found in the index over
      domains, but not in the one over unique ids, is gone from the former. */
  function Halted(s: Items, op: Op): Items {
    if Target(op) in s.data && InDomains(s.byDomain, s.data[Target(op)])
    then s.(byDomain := DomainsWithout(s.byDomain, s.data[Target(op)]))
    else s
  }

  /** The operation, with what it leaves behind when it raises. */
  predicate Performs(before: Items, op: Op, after: Items, ok: bool) {
    match Apply(before, op)
    case Some(s) => ok && after == s
    case None => !ok && after == Halted(before, op)
  }

  // ------------------------------------------------------------------ exactness

  function InDomain(data: map<Id, Entry>, d: string): set<Id> {
    set id | id in data && data[id].domain == d
  }

  predicate Keyed(data: map<Id, Entry>) {
    forall id :: id in data ==> data[id].id == id
  }

  ghost predicate DomainsExact(s: Items) {
    && (forall d :: multiset(Ids(s.byDomain, d)) == multiset(InDomain(s.data, d)))
    && (forall d :: d in s.byDomain ==> s.byDomain[d] != [])
  }

  predicate Carries(data: map<Id, Entry>, id: Id, d: string, u: string) {
    id in data && data[id].domain == d && data[id].uniqueId == Some(u)
  }

  predicate Listed(byUnique: map<string, map<string, Id>>, id: Id, d: string, u: string) {
    u in Unique(byUnique, d) && Unique(byUnique, d)[u] == id
  }

  ghost predicate UniqueExact(s: Items) {
    && (forall id, d, u :: Listed(s.byUnique, id, d, u) <==> Carries(s.data, id, d, u))
    && (forall d :: d in s.byUnique ==> s.byUnique[d] != map[])
  }

  /** Both indexes are what a scan of all entries gives, without empty buckets. */
  ghost predicate Exact(s: Items) {
    Keyed(s.data) && DomainsExact(s) && UniqueExact(s)
  }

  /** No two entries of a domain share a unique id. */
  ghost predicate Distinct(data: map<Id, Entry>) {
    forall id, other, d, u :: Carries(data, id, d, u) && Carries(data, other, d, u) ==> id == other
  }

  lemma ExactIsDistinct(s: Items)
    requires Exact(s)
    ensures Distinct(s.data)
  {
    forall id, other, d, u | Carries(s.data, id, d, u) && Carries(s.data, other, d, u)
      ensures id == other
    {
      assert Listed(s.byUnique, id, d, u) && Listed(s.byUnique, other, d, u);
    }
  }

  lemma ExactIsUnindexable(s: Items, id: Id)
    requires Exact(s) && id in s.data
    ensures Unindexable(s, s.data[id])
  {
    var e := s.data[id];
    assert id in InDomain(s.data, e.domain);
    assert id in multiset(Ids(s.byDomain, e.domain));
    if e.uniqueId.Some? { assert Carries(s.data, id, e.domain, e.uniqueId.value); }
  }

  lemma UnindexDomains(s: Items, id: Id)
    requires Exact(s) && id in s.data && Unindexable(s, s.data[id])
    ensures DomainsExact(Unindex(s, s.data[id]).(data := s.data - {id}))
  {
    var e, r := s.data[id], Unindex(s, s.data[id]).(data := s.data - {id});
    forall d ensures multiset(Ids(r.byDomain, d)) == multiset(InDomain(r.data, d)) {
      if d == e.domain {
        assert InDomain(r.data, d) == InDomain(s.data, d) - {id};
        assert multiset(Ids(r.byDomain, d)) == multiset(s.byDomain[d]) - multiset{id};
      } else {
        assert InDomain(r.data, d) == InDomain(s.data, d);
      }
    }
  }

  lemma UnindexUnique(s: Items, id: Id)
    requires Exact(s) && id in s.data && Unindexable(s, s.data[id])
    ensures UniqueExact(Unindex(s, s.data[id]).(data := s.data - {id}))
  {
    var e, r := s.data[id], Unindex(s, s.data[id]).(data := s.data - {id});
    forall other, d, u ensures Listed(r.byUnique, other, d, u) <==> Carries(r.data, other, d, u) {
      assert Listed(s.byUnique, other, d, u) <==> Carries(s.data, other, d, u);
      if e.uniqueId.Some? { assert Carries(s.data, id, e.domain, e.uniqueId.value); }
    }
  }

  lemma IndexDomains(s: Items, e: Entry)
    requires DomainsExact(s) && e.id !in s.data
    ensures DomainsExact(Index(s.(data := s.data[e.id := e]), e))
  {
    var r := Index(s.(data := s.data[e.id := e]), e);
    forall d ensures multiset(Ids(r.byDomain, d)) == multiset(InDomain(r.data, d)) {
      IndexDomain(s.byDomain, s.data, e, d);
    }
  }

  lemma IndexDomain(byDomain: map<string, seq<Id>>, data: map<Id, Entry>, e: Entry, d: string)
    requires multiset(Ids(byDomain, d)) == multiset(InDomain(data, d)) && e.id !in data
    ensures multiset(Ids(DomainsWith(byDomain, e), d)) == multiset(InDomain(data[e.id := e], d))
  {
    if d == e.domain {
      assert InDomain(data[e.id := e], d) == InDomain(data, d) + {e.id};
    } else {
      assert InDomain(data[e.id := e], d) == InDomain(data, d);
    }
  }

  lemma IndexUnique(s: Items, e: Entry)
    requires UniqueExact(s) && e.id !in s.data && Distinct(s.data[e.id := e])
    ensures UniqueExact(Index(s.(data := s.data[e.id := e]), e))
  {
    var r := Index(s.(data := s.data[e.id := e]), e);
    forall id, d, u ensures Listed(r.byUnique, id, d, u) <==> Carries(r.data, id, d, u) {
      assert Listed(s.byUnique, id, d, u) <==> Carries(s.data, id, d, u);
      if e.uniqueId == Some(u) && d == e.domain {
        assert Carries(r.data, e.id, d, u);
        assert Listed(r.byUnique, e.id, d, u);
      }
    }
    forall d | d in r.byUnique ensures r.byUnique[d] != map[] {
      if e.uniqueId.Some? && d == e.domain { assert e.uniqueId.value in r.byUnique[d]; }
    }
  }

  /** Adding an entry under a new id keeps the indexes exact if and only if its unique id is
      not taken in its domain. */
  lemma IndexExact(s: Items, e: Entry)
    requires Exact(s) && e.id !in s.data
    ensures var r := Index(s.(data := s.data[e.id := e]), e); Exact(r) <==> Distinct(r.data)
  {
    var r := Index(s.(data := s.data[e.id := e]), e);
    IndexDomains(s, e);
    if Distinct(r.data) { IndexUnique(s, e); }
    if Exact(r) { ExactIsDistinct(r); }
  }

  /** An operation on exact indexes raises only for an unknown id, and keeps them exact if and
      only if the unique ids of the entries it leaves are distinct in each domain. */
  lemma ApplyExact(s: Items, op: Op)
    requires Exact(s)
    ensures Apply(s, op).Some? <==> DataAfter(s.data, op).Some?
    ensures Apply(s, op).Some? ==>
      && Apply(s, op).value.data == DataAfter(s.data, op).value
      && (Exact(Apply(s, op).value) <==> Distinct(Apply(s, op).value.data))
  {
    hide Index, Unindex, Exact, Distinct, Unindexable;
    var id := Target(op);
    if id in s.data {
      ExactIsUnindexable(s, id);
      var without := Unindex(s, s.data[id]).(data := s.data - {id});
      UnindexExact(s, id);
      match op {
        case Set(e) =>
          assert without.data[id := e] == s.data[id := e];
          SameBut(s, id, e);
          IndexExact(without, e);
        case Delete(_) => ExactIsDistinct(without);
        case UpdateUniqueId(_, u) =>
          var e := s.data[id].(uniqueId := u);
          KeyedAt(s, id);
          assert without.data[id := e] == s.data[id := e];
          SameBut(s, id, e);
          IndexExact(without, e);
      }
    } else if op.Set? {
      IndexExact(s, op.entry);
      IndexData(s.(data := s.data[id := op.entry]), op.entry);
    }
  }

  lemma KeyedAt(s: Items, id: Id)
    requires Exact(s) && id in s.data
    ensures s.data[id].id == id
  {
  }

  lemma IndexData(s: Items, e: Entry)
    ensures Index(s, e).data == s.data
  {
  }

  /** Replacing the entries first or last makes no difference to the indexes. */
  lemma SameBut(s: Items, id: Id, e: Entry)
    requires id in s.data && Unindexable(s, s.data[id])
    ensures var without := Unindex(s, s.data[id]).(data := s.data - {id});
      && Index(Unindex(s, s.data[id]).(data := s.data[id := e]), e) == Index(without.(data := without.data[id := e]), e)
      && Index(without.(data := without.data[id := e]), e).data == s.data[id := e]
  {
    assert (s.data - {id})[id := e] == s.data[id := e];
  }

  lemma UnindexExact(s: Items, id: Id)
    requires Exact(s) && id in s.data && Unindexable(s, s.data[id])
    ensures Exact(Unindex(s, s.data[id]).(data := s.data - {id}))
  {
    UnindexDomains(s, id);
    UnindexUnique(s, id);
  }

  // ----------------------------------------------------------------------- runs

  /** The entries after a list of operations, of which those that raise are ignored. */
  function DataRun(data: map<Id, Entry>, ops: seq<Op>): map<Id, Entry>
    decreases |ops|
  {
    if ops == [] then data
    else
      var before := DataRun(data, ops[..|ops| - 1]);
      DataAfter(before, ops[|ops| - 1]).GetOr(before)
  }

  function Run(s: Items, ops: seq<Op>): Items
    decreases |ops|
  {
    if ops == [] then s
    else
      var before := Run(s, ops[..|ops| - 1]);
      Apply(before, ops[|ops| - 1]).GetOr(before)
  }

  /** While entries have distinct unique ids per domain, every sequence of operations keeps
      both indexes exact, and the entries are what the operations say. */
  lemma {:induction false} RunsAreExact(ops: seq<Op>)
    requires forall n :: 0 <= n <= |ops| ==> Distinct(DataRun(map[], ops[..n]))
    ensures Exact(Run(EMPTY, ops)) && Run(EMPTY, ops).data == DataRun(map[], ops)
    decreases |ops|
  {
    if ops != [] {
      var init, last := ops[..|ops| - 1], ops[|ops| - 1];
      forall n | 0 <= n <= |init| ensures Distinct(DataRun(map[], init[..n])) {
        assert init[..n] == ops[..n];
      }
      RunsAreExact(init);
      ApplyExact(Run(EMPTY, init), last);
      assert ops[..|ops|] == ops;
    }
  }

  // ----------------------------------------------------------- the order of entries

  function Without(order: seq<Id>, id: Id): seq<Id> {
    if order == [] then []
    else (if order[0] == id then [] else [order[0]]) + Without(order[1..], id)
  }

  /** The entries in the order in which they were last added or changed. */
  function OrderAfter(data: map<Id, Entry>, order: seq<Id>, op: Op): seq<Id> {
    match op
    case Set(e) => Without(order, e.id) + [e.id]
    case Delete(id) => Without(order, id)
    case UpdateUniqueId(id, _) => if id in data then Without(order, id) + [id] else order
  }

  function OrderRun(ops: seq<Op>): seq<Id> {
    if ops == [] then []
    else
      var init := ops[..|ops| - 1];
      OrderAfter(DataRun(map[], init), OrderRun(init), ops[|ops| - 1])
  }

  /** The entries of one domain, in that order. */
  function OfDomain(order: seq<Id>, data: map<Id, Entry>, d: string): seq<Id> {
    if order == [] then []
    else
      (if order[0] in data && data[order[0]].domain == d then [order[0]] else []) + OfDomain(order[1..], data, d)
  }

  /** The index over domains lists the entries of each in their order. */
  ghost predicate InOrder(s: Items, order: seq<Id>) {
    && (forall id :: multiset(order)[id] == if id in s.data then 1 else 0)
    && (forall d :: Ids(s.byDomain, d) == OfDomain(order, s.data, d))
  }

  lemma {:induction false} WithoutCount(order: seq<Id>, id: Id, x: Id)
    ensures multiset(Without(order, id))[x] == if x == id then 0 else multiset(order)[x]
    decreases |order|
  {
    if order != [] {
      WithoutCount(order[1..], id, x);
      assert order == [order[0]] + order[1..];
    }
  }

  lemma {:induction false} WithoutAbsent(order: seq<Id>, id: Id)
    requires id !in order
    ensures Without(order, id) == order
    decreases |order|
  {
    if order != [] { WithoutAbsent(order[1..], id); }
  }

  lemma {:induction false} OfDomainSnoc(order: seq<Id>, data: map<Id, Entry>, d: string, id: Id)
    ensures OfDomain(order + [id], data, d)
         == OfDomain(order, data, d) + if id in data && data[id].domain == d then [id] else []
    decreases |order|
  {
    if order == [] {
      assert order + [id] == [id];
    } else {
      assert (order + [id])[1..] == order[1..] + [id];
      OfDomainSnoc(order[1..], data, d, id);
    }
  }

  /** Only the entries in the order matter. */
  lemma {:induction false} OfDomainSame(order: seq<Id>, data: map<Id, Entry>, other: map<Id, Entry>, d: string)
    requires forall id :: id in order ==> (id in data <==> id in other) && (id in data ==> data[id] == other[id])
    ensures OfDomain(order, data, d) == OfDomain(order, other, d)
    decreases |order|
  {
    if order != [] {
      assert order[0] in order;
      OfDomainSame(order[1..], data, other, d);
    }
  }

  lemma {:induction false} OfDomainWithout(order: seq<Id>, data: map<Id, Entry>, d: string, id: Id)
    ensures OfDomain(Without(order, id), data, d) == Without(OfDomain(order, data, d), id)
    decreases |order|
  {
    if order != [] {
      OfDomainWithout(order[1..], data, d, id);
      var head := if order[0] in data && data[order[0]].domain == d then [order[0]] else [];
      assert OfDomain(order, data, d) == head + OfDomain(order[1..], data, d);
      WithoutAppend(head, OfDomain(order[1..], data, d), id);
      assert [order[0]][1..] == [];
      if order[0] == id {
        assert Without(order, id) == Without(order[1..], id) && Without(head, id) == [];
      } else {
        assert Without(order, id) == [order[0]] + Without(order[1..], id) && Without(head, id) == head;
        OfDomainCons(order[0], Without(order[1..], id), data, d);
      }
    }
  }

  lemma OfDomainCons(x: Id, rest: seq<Id>, data: map<Id, Entry>, d: string)
    ensures OfDomain([x] + rest, data, d)
         == (if x in data && data[x].domain == d then [x] else []) + OfDomain(rest, data, d)
  {
    assert ([x] + rest)[1..] == rest;
  }

  lemma WithoutAppend(head: seq<Id>, rest: seq<Id>, id: Id)
    requires |head| <= 1
    ensures Without(head + rest, id) == Without(head, id) + Without(rest, id)
  {
    if head == [] {
      assert head + rest == rest;
    } else {
      assert (head + rest)[1..] == rest && head[1..] == [];
    }
  }

  lemma {:induction false} OnlyOne(ids: seq<Id>, id: Id)
    requires multiset(ids)[id] == 1
    ensures RemoveOne(ids, id) == Without(ids, id)
    decreases |ids|
  {
    assert id in multiset(ids);
    assert ids == [ids[0]] + ids[1..];
    if ids[0] == id {
      assert id !in multiset(ids[1..]);
      WithoutAbsent(ids[1..], id);
    } else {
      OnlyOne(ids[1..], id);
    }
  }

  lemma {:induction false} OfDomainCount(order: seq<Id>, data: map<Id, Entry>, d: string, id: Id)
    ensures multiset(OfDomain(order, data, d))[id]
      == if id in data && data[id].domain == d then multiset(order)[id] else 0
    decreases |order|
  {
    if order != [] {
      OfDomainCount(order[1..], data, d, id);
      assert order == [order[0]] + order[1..];
    }
  }

  lemma IdsWithout(byDomain: map<string, seq<Id>>, e: Entry, d: string)
    requires InDomains(byDomain, e)
    ensures Ids(DomainsWithout(byDomain, e), d)
      == if d == e.domain then RemoveOne(Ids(byDomain, d), e.id) else Ids(byDomain, d)
  {
  }

  lemma UnindexedDomain(s: Items, order: seq<Id>, id: Id, d: string)
    requires Keyed(s.data) && InOrder(s, order) && id in s.data && Unindexable(s, s.data[id])
    ensures Ids(DomainsWithout(s.byDomain, s.data[id]), d) == OfDomain(Without(order, id), s.data, d)
  {
    hide DomainsWithout, RemoveOne, OfDomain, Without, InUnique;
    IdsWithout(s.byDomain, s.data[id], d);
    OfDomainWithout(order, s.data, d, id);
    OfDomainCount(order, s.data, d, id);
    if d == s.data[id].domain {
      OnlyOne(Ids(s.byDomain, d), id);
    } else {
      assert id !in multiset(OfDomain(order, s.data, d));
      WithoutAbsent(OfDomain(order, s.data, d), id);
    }
  }

  lemma UnindexedInOrder(s: Items, order: seq<Id>, id: Id)
    requires Keyed(s.data) && InOrder(s, order) && id in s.data && Unindexable(s, s.data[id])
    ensures InOrder(Unindex(s, s.data[id]).(data := s.data - {id}), Without(order, id))
  {
    var r := Unindex(s, s.data[id]).(data := s.data - {id});
    forall x ensures multiset(Without(order, id))[x] == if x in r.data then 1 else 0 { WithoutCount(order, id, x); }
    forall d ensures Ids(r.byDomain, d) == OfDomain(Without(order, id), r.data, d) {
      UnindexedDomain(s, order, id, d);
      forall x | x in Without(order, id) ensures x != id {
        WithoutCount(order, id, id);
        assert x in multiset(Without(order, id));
      }
      hide DomainsWithout;
      OfDomainSame(Without(order, id), s.data, r.data, d);
    }
  }

  lemma IndexedInOrder(s: Items, order: seq<Id>, e: Entry)
    requires InOrder(s, order) && e.id !in s.data
    ensures InOrder(Index(s.(data := s.data[e.id := e]), e), order + [e.id])
  {
    var r := Index(s.(data := s.data[e.id := e]), e);
    assert e.id !in multiset(order);
    forall d ensures Ids(r.byDomain, d) == OfDomain(order + [e.id], r.data, d) {
      OfDomainSnoc(order, r.data, d, e.id);
      OfDomainSame(order, s.data, r.data, d);
    }
  }

  lemma StepInOrder(s: Items, order: seq<Id>, op: Op)
    requires Exact(s) && InOrder(s, order) && Apply(s, op).Some?
    ensures InOrder(Apply(s, op).value, OrderAfter(s.data, order, op))
  {
    hide Exact, InOrder, Index, Unindex, Unindexable;
    var id := Target(op);
    if id in s.data {
      ExactIsUnindexable(s, id);
      KeyedAt(s, id);
      var without := Unindex(s, s.data[id]).(data := s.data - {id});
      assert Keyed(s.data) by { ExactIsKeyed(s); }
      UnindexedInOrder(s, order, id);
      match op {
        case Set(e) =>
          SameBut(s, id, e);
          IndexedInOrder(without, Without(order, id), e);
        case Delete(_) =>
        case UpdateUniqueId(_, u) =>
          SameBut(s, id, s.data[id].(uniqueId := u));
          IndexedInOrder(without, Without(order, id), s.data[id].(uniqueId := u));
      }
    } else if op.Set? {
      IndexedInOrder(s, order, op.entry);
      NewIsLast(s, order, id);
    }
  }

  lemma ExactIsKeyed(s: Items)
    requires Exact(s)
    ensures Keyed(s.data)
  {
  }

  lemma NewIsLast(s: Items, order: seq<Id>, id: Id)
    requires InOrder(s, order) && id !in s.data
    ensures Without(order, id) == order
  {
    assert id !in multiset(order);
    WithoutAbsent(order, id);
  }

  /** While entries have distinct unique ids per domain, the entries of each domain are listed
      in the order in which they were last added or changed. */
  lemma {:induction false} RunsAreInOrder(ops: seq<Op>)
    requires forall n :: 0 <= n <= |ops| ==> Distinct(DataRun(map[], ops[..n]))
    ensures InOrder(Run(EMPTY, ops), OrderRun(ops))
    decreases |ops|
  {
    if ops != [] {
      var init, last := ops[..|ops| - 1], ops[|ops| - 1];
      forall n | 0 <= n <= |init| ensures Distinct(DataRun(map[], init[..n])) { assert init[..n] == ops[..n]; }
      RunsAreInOrder(init);
      RunsAreExact(init);
      var s := Run(EMPTY, init);
      hide InOrder, Exact, Distinct;
      if Apply(s, last).Some? {
        StepInOrder(s, OrderRun(init), last);
      } else {
        ApplyExact(s, last);
        RefusedKeepsOrder(s, OrderRun(init), last);
      }
    }
  }

  lemma RefusedKeepsOrder(s: Items, order: seq<Id>, op: Op)
    requires InOrder(s, order) && DataAfter(s.data, op).None?
    ensures OrderAfter(s.data, order, op) == order
  {
    if op.Delete? { NewIsLast(s, order, op.id); }
  }

  // ------------------------------------------------------- replacing a duplicate

  /** Finishing a flow that replaces an entry adds the new entry first and removes the old one
      then. With a shared unique id this loses the new entry: it is live, but looking it up by
      its unique id finds nothing, and trying to remove it raises and takes it out of the index
      over domains as well. */
  lemma ReplacementIsLost(s: Items, old_: Id, e: Entry)
    requires Exact(s) && old_ in s.data && e.id !in s.data && e.uniqueId.Some?
    requires s.data[old_].domain == e.domain && s.data[old_].uniqueId == e.uniqueId
    ensures var added := Apply(s, Set(e));
      && added.Some? && Apply(added.value, Delete(old_)).Some?
      && var r := Apply(added.value, Delete(old_)).value;
      && e.id in r.data && e.uniqueId.value !in Unique(r.byUnique, e.domain)
      && Apply(r, Delete(e.id)).None?
      && var h := Halted(r, Delete(e.id)); e.id in h.data && e.id !in Ids(h.byDomain, e.domain)
  {
    hide DomainsWith, DomainsWithout, UniqueWith, UniqueWithout;
    var added := Apply(s, Set(e)).value;
    ExactIsUnindexable(s, old_);
    KeyedAt(s, old_);
    var x := added.data[old_];
    NotListed(s, e);
    LastListing(s.byDomain, e, x);
    LastUniqueId(s.byUnique, e, x);
    assert Unindexable(added, x);
    var r := Apply(added, Delete(old_)).value;
    assert r.data[e.id] == e;
  }

  lemma NotListed(s: Items, e: Entry)
    requires Exact(s) && e.id !in s.data
    ensures e.id !in Ids(s.byDomain, e.domain)
  {
    assert e.id !in multiset(InDomain(s.data, e.domain));
  }

  lemma LastListing(byDomain: map<string, seq<Id>>, e: Entry, x: Entry)
    requires x.domain == e.domain && InDomains(byDomain, x) && !InDomains(byDomain, e)
    ensures InDomains(DomainsWith(byDomain, e), x)
    ensures var left := DomainsWithout(DomainsWith(byDomain, e), x);
      InDomains(left, e) && !InDomains(DomainsWithout(left, e), e)
  {
    var ids := DomainsWith(byDomain, e)[e.domain];
    var rest := RemoveOne(ids, x.id);
    assert multiset(ids)[e.id] == 1;
    assert e.id in multiset(rest);
    assert e.id !in multiset(RemoveOne(rest, e.id));
  }

  lemma LastUniqueId(byUnique: map<string, map<string, Id>>, e: Entry, x: Entry)
    requires x.domain == e.domain && x.uniqueId == e.uniqueId && e.uniqueId.Some?
    ensures InUnique(UniqueWith(byUnique, e), x)
    ensures e.uniqueId.value !in Unique(UniqueWithout(UniqueWith(byUnique, e), x), e.domain)
  {
  }

  // ------------------------------------------------------------------ the object

  class ConfigEntryItems {
    var data: map<Id, Entry>
    var domainIndex: map<string, seq<Id>>
    var domainUniqueIdIndex: map<string, map<string, Id>>

    ghost function Contents(): Items
      reads this
    {
      Items(data, domainIndex, domainUniqueIdIndex)
    }

    constructor ()
      ensures Contents() == EMPTY && Exact(Contents())
    {
      data, domainIndex, domainUniqueIdIndex := map[], map[], map[];
    }

    method IndexEntry(e: Entry)
      modifies this`domainIndex, this`domainUniqueIdIndex
      ensures Contents() == Index(old(Contents()), e)
    {
      if e.domain !in domainIndex { domainIndex := domainIndex[e.domain := []]; }
      domainIndex := domainIndex[e.domain := domainIndex[e.domain] + [e.id]];
      assert domainIndex == DomainsWith(old(domainIndex), e);
      if e.uniqueId.Some? {
        if e.domain !in domainUniqueIdIndex { domainUniqueIdIndex := domainUniqueIdIndex[e.domain := map[]]; }
        domainUniqueIdIndex :=
          domainUniqueIdIndex[e.domain := domainUniqueIdIndex[e.domain][e.uniqueId.value := e.id]];
      }
    }

    method UnindexDomain(e: Entry)
      requires InDomains(domainIndex, e)
      modifies this`domainIndex
      ensures domainIndex == DomainsWithout(old(domainIndex), e)
    {
      domainIndex := domainIndex[e.domain := RemoveOne(domainIndex[e.domain], e.id)];
      if domainIndex[e.domain] == [] { domainIndex := domainIndex - {e.domain}; }
    }

    method UnindexUniqueId(e: Entry)
      requires InUnique(domainUniqueIdIndex, e)
      modifies this`domainUniqueIdIndex
      ensures domainUniqueIdIndex == UniqueWithout(old(domainUniqueIdIndex), e)
    {
      if e.uniqueId.Some? {
        domainUniqueIdIndex := domainUniqueIdIndex[e.domain := domainUniqueIdIndex[e.domain] - {e.uniqueId.value}];
        if domainUniqueIdIndex[e.domain] == map[] { domainUniqueIdIndex := domainUniqueIdIndex - {e.domain}; }
      }
    }

    method UnindexEntry(id: Id) returns (ok: bool)
      requires id in data
      modifies this`domainIndex, this`domainUniqueIdIndex
      ensures ok == Unindexable(old(Contents()), data[id])
      ensures ok ==> Contents() == Unindex(old(Contents()), data[id])
      ensures !ok ==> Contents() == Halted(old(Contents()), Delete(id))
    {
      var e := data[id];
      if !InDomains(domainIndex, e) { return false; }
      UnindexDomain(e);
      if !InUnique(domainUniqueIdIndex, e) { return false; }
      UnindexUniqueId(e);
      return true;
    }

    /** `__setitem__`. On exact indexes it does not raise, and they stay exact unless the
        unique id is taken by another entry of the domain. */
    method SetItem(e: Entry) returns (ok: bool)
      requires Keyed(data)
      modifies this
      ensures Performs(old(Contents()), Set(e), Contents(), ok) && Keyed(data)
      ensures Exact(old(Contents())) ==>
        ok && data == old(data)[e.id := e] && (Exact(Contents()) <==> Distinct(data))
    {
      hide Exact, Distinct, DomainsWith, DomainsWithout, UniqueWith, UniqueWithout, InDomains, InUnique;
      ghost var before := Contents();
      if Exact(before) { ApplyExact(before, Set(e)); }
      if e.id in data {
        ok := UnindexEntry(e.id);
        if !ok { return; }
      }
      data := data[e.id := e];
      IndexEntry(e);
      return true;
    }

    /** `__delitem__`; an unknown id raises. */
    method DeleteItem(id: Id) returns (ok: bool)
      requires Keyed(data)
      modifies this
      ensures Performs(old(Contents()), Delete(id), Contents(), ok) && Keyed(data)
      ensures Exact(old(Contents())) ==>
        ok == (id in old(data)) && data == old(data) - {id} && Exact(Contents())
    {
      ghost var before := Contents();
      if Exact(before) {
        ApplyExact(before, Delete(id));
        DeletedIsDistinct(before, id);
      }
      if id !in data { assert data - {id} == data; return false; }
      ok := UnindexEntry(id);
      if !ok { return; }
      data := data - {id};
    }

    /** `update_unique_id`, with the same exception. */
    method UpdateEntryUniqueId(id: Id, uniqueId: Option<string>) returns (ok: bool)
      requires Keyed(data) && id in data
      modifies this
      ensures Performs(old(Contents()), UpdateUniqueId(id, uniqueId), Contents(), ok) && Keyed(data)
      ensures Exact(old(Contents())) ==>
        && ok && data == old(data)[id := old(data)[id].(uniqueId := uniqueId)]
        && (Exact(Contents()) <==> Distinct(data))
    {
      hide Exact, Distinct, DomainsWith, DomainsWithout, UniqueWith, UniqueWithout, InDomains, InUnique;
      ghost var before := Contents();
      if Exact(before) { ApplyExact(before, UpdateUniqueId(id, uniqueId)); }
      ok := UnindexEntry(id);
      if !ok { return; }
      data := data[id := data[id].(uniqueId := uniqueId)];
      IndexEntry(data[id]);
    }
  }

  lemma DeletedIsDistinct(s: Items, id: Id)
    requires Exact(s)
    ensures Distinct(s.data - {id})
  {
    ExactIsDistinct(s);
    forall a, b, d, u | Carries(s.data - {id}, a, d, u) && Carries(s.data - {id}, b, d, u)
      ensures a == b
    {
      assert Carries(s.data, a, d, u) && Carries(s.data, b, d, u);
    }
  }
}
