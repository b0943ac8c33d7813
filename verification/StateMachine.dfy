/** `States` and `StateMachine` of homeassistant/core.py, with the event stream they fire. */
module StateMachines {
  import opened StateHistory

  const MAX_LENGTH_STATE_STATE := 255

  // ------------------------------------------------------------------ entity ids

  function LowerChar(c: char): char {
    if 'A' <= c <= 'Z' then (c as int - 'A' as int + 'a' as int) as char else c
  }

  function LowerText(s: string): (r: string) {
    seq(|s|, i requires 0 <= i < |s| => LowerChar(s[i]))
  }

  function Lower(id: Id): Id {
    Id(LowerText(id.text))
  }

  predicate SlugChar(c: char) {
    ('a' <= c <= 'z') || ('0' <= c <= '9') || c == '_'
  }

  /** A non-empty run of slug characters that neither starts nor ends with an underscore. */
  predicate Slug(s: string) {
    s != "" && s[0] != '_' && s[|s| - 1] != '_' && forall i :: 0 <= i < |s| ==> SlugChar(s[i])
  }

  function DotAt(s: string): (i: nat)
    ensures i <= |s|
    ensures forall j :: 0 <= j < i ==> s[j] != '.'
    ensures i < |s| ==> s[i] == '.'
  {
    if s == "" || s[0] == '.' then 0 else 1 + DotAt(s[1..])
  }

  /** The part of an entity id before its first dot. */
  function DomainOf(id: Id): string {
    id.text[..DotAt(id.text)]
  }

  /** Two slugs joined by a dot, without a double underscore anywhere. */
  predicate Matches(t: string) {
    var dot := DotAt(t);
    && dot < |t|
    && Slug(t[..dot]) && Slug(t[dot + 1..])
    && forall i :: 0 <= i < |t| - 1 ==> !(t[i] == '_' && t[i + 1] == '_')
  }

  /** The pattern ends in `$`, which also matches in front of a final newline. */
  predicate ValidEntityId(id: Id) {
    var t := id.text;
    Matches(t) || (t != "" && t[|t| - 1] == '\n' && Matches(t[..|t| - 1]))
  }

  lemma {:induction false} DotIsAt(t: string, n: nat)
    requires n <= |t| && (forall j :: 0 <= j < n ==> t[j] != '.') && (n < |t| ==> t[n] == '.')
    ensures DotAt(t) == n
    decreases |t|
  {
    if n > 0 {
      assert forall j :: 0 <= j < n - 1 ==> t[1..][j] == t[j + 1];
      DotIsAt(t[1..], n - 1);
    }
  }

  /** The domain is the text before the first dot, or all of it if there is none. */
  lemma DomainIsFirstPart(id: Id, domain: string)
    ensures DomainOf(id) == domain <==>
      && domain <= id.text && '.' !in domain
      && (|domain| < |id.text| ==> id.text[|domain|] == '.')
  {
    var t := id.text;
    if domain <= t && '.' !in domain && (|domain| < |t| ==> t[|domain|] == '.') {
      forall j | 0 <= j < |domain| ensures t[j] != '.' { assert t[j] == domain[j]; }
      DotIsAt(t, |domain|);
    }
  }

  predicate LetterOrDigit(c: char) {
    ('a' <= c <= 'z') || ('0' <= c <= '9')
  }

  /** Every character is a small letter, a digit, the one dot, or an underscore between two
      letters or digits; and the dot stands between two letters or digits as well. */
  predicate WellSpelled(t: string, dot: nat) {
    && 0 < dot < |t| - 1 && t[dot] == '.'
    && forall i :: 0 <= i < |t| && !LetterOrDigit(t[i]) ==>
         && (i == dot || t[i] == '_')
         && 0 < i < |t| - 1 && LetterOrDigit(t[i - 1]) && LetterOrDigit(t[i + 1])
  }

  /** These are exactly the ids that match the pattern. */
  lemma MatchesIffWellSpelled(t: string)
    ensures Matches(t) <==> exists dot: nat :: WellSpelled(t, dot)
  {
    if Matches(t) {
      MatchingIsWellSpelled(t);
    }
    if dot: nat :| WellSpelled(t, dot) {
      forall i | 0 <= i < dot ensures t[i] != '.' {}
      DotIsAt(t, dot);
      var a, b := t[..dot], t[dot + 1..];
      assert a[0] == t[0] && a[|a| - 1] == t[dot - 1] && b[0] == t[dot + 1] && b[|b| - 1] == t[|t| - 1];
      forall i | 0 <= i < |a| ensures SlugChar(a[i]) { assert a[i] == t[i]; }
      forall i | 0 <= i < |b| ensures SlugChar(b[i]) { assert b[i] == t[dot + 1 + i]; }
    }
  }

  lemma MatchingIsWellSpelled(t: string)
    requires Matches(t)
    ensures WellSpelled(t, DotAt(t))
  {
    var dot := DotAt(t);
    var a, b := t[..dot], t[dot + 1..];
    forall i | 0 <= i < |t| ensures i == dot || SlugChar(t[i]) {
      if i < dot { assert t[i] == a[i]; } else if i > dot { assert t[i] == b[i - dot - 1]; }
    }
    assert a[0] == t[0] && a[|a| - 1] == t[dot - 1] && b[0] == t[dot + 1] && b[|b| - 1] == t[|t| - 1];
  }

  /** Exactly the capital letters change, each to the small one at the same place of the
      alphabet. */
  lemma LowerExact(c: char)
    ensures LowerText("ABCDEFGHIJKLMNOPQRSTUVWXYZ") == "abcdefghijklmnopqrstuvwxyz"
    ensures LowerChar(c) != c <==> c in "ABCDEFGHIJKLMNOPQRSTUVWXYZ"
  {
    var capitals := "ABCDEFGHIJKLMNOPQRSTUVWXYZ";
    assert forall i :: 0 <= i < 26 ==> capitals[i] as int == 'A' as int + i;
    if 'A' <= c <= 'Z' { assert capitals[c as int - 'A' as int] == c; }
  }

  lemma MatchesIsLower(t: string)
    requires Matches(t)
    ensures forall i :: 0 <= i < |t| ==> LowerChar(t[i]) == t[i]
  {
    var dot := DotAt(t);
    forall i | 0 <= i < |t| ensures LowerChar(t[i]) == t[i] {
      if i < dot {
        assert t[i] == t[..dot][i];
      } else if i > dot {
        assert t[i] == t[dot + 1..][i - dot - 1];
      }
    }
  }

  lemma ValidIsLower(id: Id)
    requires ValidEntityId(id)
    ensures Lower(id) == id
  {
    var t := id.text;
    if Matches(t) {
      MatchesIsLower(t);
    } else {
      MatchesIsLower(t[..|t| - 1]);
      assert forall i :: 0 <= i < |t| - 1 ==> t[i] == t[..|t| - 1][i];
    }
    assert LowerText(t) == t;
  }

  // ---------------------------------------------------------------------- states

  class State {
    const entityId: Id
    const value: string
    const attributes: Attributes
    const lastChanged: int
    const lastUpdated: int
    var lastReported: int

    function AsRecord(): Record reads this {
      Record(entityId, value, attributes, lastChanged, lastUpdated, lastReported)
    }

    constructor (entityId: Id, value: string, attributes: Attributes,
                 lastChanged: int, lastReported: int, lastUpdated: int)
      ensures this.entityId == entityId && this.value == value && this.attributes == attributes
      ensures this.lastChanged == lastChanged && this.lastReported == lastReported && this.lastUpdated == lastUpdated
    {
      this.entityId, this.value, this.attributes := entityId, value, attributes;
      this.lastChanged, this.lastReported, this.lastUpdated := lastChanged, lastReported, lastUpdated;
    }
  }

  datatype Event =
    | StateChanged(id: Id, oldState: State?, newState: State?)
    | StateReported(id: Id, oldLastReported: int, state: State)

  type StateMap = map<Id, State>

  /** What a listener that applies every state_changed event to an empty map ends up with. */
  function Replay(events: seq<Event>): StateMap {
    if events == [] then map[]
    else
      var before, e := Replay(events[..|events| - 1]), events[|events| - 1];
      if e.StateReported? then before
      else if e.newState == null then before - {e.id}
      else before[e.id := e.newState]
  }

  /** Every state_changed event names the state that was stored just before it. */
  predicate Chained(events: seq<Event>) {
    forall i :: 0 <= i < |events| && events[i].StateChanged? ==>
      events[i].oldState == Stored(Replay(events[..i]), events[i].id)
  }

  function Stored(m: StateMap, id: Id): State? {
    if id in m then m[id] else null
  }

  /** A listener that has seen the whole stream holds exactly `m`. */
  ghost predicate StreamValid(events: seq<Event>, m: StateMap) {
    Replay(events) == m && Chained(events)
  }

  /** The map after one more event. */
  function After(m: StateMap, e: Event): StateMap {
    if e.StateReported? then m
    else if e.newState == null then m - {e.id}
    else m[e.id := e.newState]
  }

  lemma StreamAppend(events: seq<Event>, m: StateMap, e: Event)
    requires StreamValid(events, m)
    requires e.StateChanged? ==> e.oldState == Stored(m, e.id)
    ensures StreamValid(events + [e], After(m, e))
  {
    var more := events + [e];
    assert more[..|events|] == events;
    forall i | 0 <= i < |more| && more[i].StateChanged?
      ensures more[i].oldState == Stored(Replay(more[..i]), more[i].id)
    {
      if i < |events| {
        assert more[..i] == events[..i];
      }
    }
  }

  // ----------------------------------------------------------------- domain index

  type Index = map<string, StateMap>

  function Bucket(index: Index, domain: string): StateMap {
    if domain in index then index[domain] else map[]
  }

  /** The index is the partition of the states by domain. */
  ghost predicate IndexExact(states: StateMap, index: Index) {
    && (forall d, id :: id in Bucket(index, d) ==>
         id in states && DomainOf(id) == d && Bucket(index, d)[id] == states[id])
    && (forall id :: id in states ==> id in Bucket(index, DomainOf(id)))
  }

  lemma IndexPut(states: StateMap, index: Index, id: Id, s: State)
    requires IndexExact(states, index)
    ensures IndexExact(states[id := s], index[DomainOf(id) := Bucket(index, DomainOf(id))[id := s]])
  {
    var after := index[DomainOf(id) := Bucket(index, DomainOf(id))[id := s]];
    forall d ensures Bucket(after, d) == if d == DomainOf(id) then Bucket(index, d)[id := s] else Bucket(index, d) {}
  }

  lemma IndexDrop(states: StateMap, index: Index, id: Id)
    requires IndexExact(states, index) && id in states
    ensures IndexExact(states - {id}, index[DomainOf(id) := Bucket(index, DomainOf(id)) - {id}])
  {
    var after := index[DomainOf(id) := Bucket(index, DomainOf(id)) - {id}];
    forall d ensures Bucket(after, d) == if d == DomainOf(id) then Bucket(index, d) - {id} else Bucket(index, d) {}
  }

  datatype SetResult = Ok | InvalidEntityFormat | InvalidState

  /** The key under which an entity id is looked up: itself if stored, else in lower case. */
  function Resolve(states: StateMap, id: Id): Id {
    if id in states then id else Lower(id)
  }

  /** No filter, one domain in any spelling, or a list of domains as they are stored. */
  datatype DomainFilter = All | One(domain: string) | Several(domains: seq<string>)

  /** How often the filter asks for an id. */
  function Times(filter: DomainFilter, id: Id): nat {
    match filter
    case All => 1
    case One(domain) => if DomainOf(id) == LowerText(domain) then 1 else 0
    case Several(domains) => multiset(domains)[DomainOf(id)]
  }

  /** The elements of a set in some order. */
  method Listed(s: set<Id>) returns (ids: seq<Id>)
    ensures multiset(ids) == multiset(s)
  {
    ids := [];
    var left := s;
    while left != {}
      invariant left <= s && multiset(ids) == multiset(s - left)
    {
      var id :| id in left;
      assert s - (left - {id}) == s - left + {id};
      ids, left := ids + [id], left - {id};
    }
    assert s - {} == s;
  }

  // --------------------------------------------------------------- state machine

  class StateMachine {
    var states: StateMap
    var index: Index
    var reservations: set<Id>
    ghost var fired: seq<Event>
    ghost var history: History
    ghost var records: Records  // the stored states, as values

    ghost predicate Valid()
      reads this, states.Values
    {
      var stream, partition, faithful :=
        StreamValid(fired, states), IndexExact(states, index), Faithful(history, records);
      && stream && partition && faithful
      && states.Keys == records.Keys
      && forall id :: id in states ==>
           ValidEntityId(id) && states[id].entityId == id && states[id].AsRecord() == records[id]
    }

    constructor ()
      ensures Valid() && states == map[] && reservations == {} && fired == [] && history == []
    {
      states, index, reservations, fired, history, records := map[], map[], {}, [], [], map[];
    }

    /** `States.__setitem__`. */
    method Store(id: Id, s: State)
      requires IndexExact(states, index) && s.entityId == id
      modifies this`states, this`index
      ensures states == old(states)[id := s] && IndexExact(states, index)
    {
      IndexPut(states, index, id, s);
      states := states[id := s];
      index := index[DomainOf(s.entityId) := Bucket(index, DomainOf(s.entityId))[s.entityId := s]];
    }

    /** `States.__delitem__`. */
    method Drop(id: Id)
      requires IndexExact(states, index) && id in states && states[id].entityId == id
      modifies this`states, this`index
      ensures states == old(states) - {id} && IndexExact(states, index)
    {
      var s := states[id];
      IndexDrop(states, index, id);
      index := index[DomainOf(s.entityId) := Bucket(index, DomainOf(s.entityId)) - {s.entityId}];
      states := states - {id};
    }

    /** `async_remove`. */
    method AsyncRemove(entityId: Id) returns (removed: bool)
      requires Valid()
      modifies this
      ensures Valid()
      ensures reservations == old(reservations) - {Lower(entityId)}
      ensures removed <==> Lower(entityId) in old(states)
      ensures states == old(states) - {Lower(entityId)}
      ensures removed ==>
        && history == old(history) + [Remove(Lower(entityId))]
        && fired == old(fired) + [StateChanged(Lower(entityId), old(states)[Lower(entityId)], null)]
      ensures !removed ==> history == old(history) && fired == old(fired)
    {
      hide Faithful, StreamValid, IndexExact, ValidEntityId;
      var id := Lower(entityId);
      reservations := reservations - {id};
      if id !in states {
        assert states - {id} == states;
        return false;
      }
      Erase(id);
      return true;
    }

    /** Drops a stored state and fires the event for it. */
    method Erase(id: Id)
      requires Valid() && id in states
      modifies this`states, this`index, this`fired, this`history, this`records
      ensures Valid()
      ensures history == old(history) + [Remove(id)] && states == old(states) - {id}
      ensures fired == old(fired) + [StateChanged(id, old(states)[id], null)]
    {
      hide Faithful, StreamValid, IndexExact, Recorded, Stamped, ValidEntityId, Next;
      ghost var e := StateChanged(id, states[id], null);
      StreamAppend(fired, states, e);
      RemoveKeepsFaithful(history, id, records);
      Drop(id);
      fired, history, records := fired + [e], history + [Remove(id)], records - {id};
    }

    /** `async_set` at time `now`. */
    method AsyncSet(entityId: Id, value: string, attributes: Attributes, force: bool, now: int)
      returns (r: SetResult)
      requires Valid()
      modifies this, states.Values
      ensures Valid() && reservations == old(reservations)
      ensures r != Ok ==> states == old(states) && history == old(history) && fired == old(fired)
      ensures r == InvalidEntityFormat <==>
        Resolve(old(states), entityId) !in old(states) && !ValidEntityId(Lower(entityId))
      ensures r == InvalidState <==>
        && r != InvalidEntityFormat && |value| > MAX_LENGTH_STATE_STATE
        && Updates(old(history) + [Set(Resolve(old(states), entityId), value, attributes, force, now)], |old(history)|)
      ensures r == Ok ==>
        var id := Resolve(old(states), entityId);
        && history == old(history) + [Set(id, value, attributes, force, now)]
        && (Updates(history, |old(history)|) ==>
             && id in states && states == old(states)[id := states[id]]
             && fired == old(fired) + [StateChanged(id, Stored(old(states), id), states[id])])
        && (!Updates(history, |old(history)|) ==>
             && id in old(states) && states == old(states)
             && fired == old(fired)
               + [StateReported(id, old(states[Resolve(states, entityId)].lastReported), states[id])])
      ensures r == Ok ==>
        var id := if entityId in old(states) then entityId else Lower(entityId);
        && id in states && states[id].value == value && states[id].attributes == attributes
        && states[id].lastReported == now
        && (force || id !in old(states) || old(states)[id].value != value ==>
              states[id].lastChanged == now && states[id].lastUpdated == now)
        && (!force && id in old(states) && old(states)[id].value == value ==>
              && states[id].lastChanged == old(states)[id].lastChanged
              && (old(states)[id].attributes != attributes ==> states[id].lastUpdated == now)
              && (old(states)[id].attributes == attributes ==> states[id] == old(states)[id]))
    {
      hide Faithful, StreamValid, IndexExact, Recorded, Stamped, ValidEntityId, Updates, Changes;
      var id := Resolve(states, entityId);
      var oldState := Stored(states, id);
      var sameState := oldState != null && oldState.value == value && !force;
      var sameAttributes := oldState != null && oldState.attributes == attributes;
      var op := Set(id, value, attributes, force, now);
      SetKind(history, records, op);
      if sameState && sameAttributes {
        Report(op, oldState);
        return Ok;
      }
      if oldState == null && !ValidEntityId(id) {
        return InvalidEntityFormat;
      }
      if |value| > MAX_LENGTH_STATE_STATE {
        return InvalidState;
      }
      var s := new State(id, value, attributes, if sameState then oldState.lastChanged else now, now, now);
      Replace(op, s);
      return Ok;
    }

    /** Nothing changed: only `last_reported` of the stored state moves. */
    method Report(op: Op, oldState: State)
      requires Valid() && op.Set? && op.id in states && states[op.id] == oldState
      requires Next(records, op) == oldState.AsRecord().(lastReported := op.time)
      modifies this`fired, this`history, this`records, oldState
      ensures Valid() && oldState.lastReported == op.time
      ensures history == old(history) + [op]
      ensures fired == old(fired) + [StateReported(op.id, old(oldState.lastReported), oldState)]
    {
      hide Faithful, StreamValid, IndexExact, Recorded, Stamped, ValidEntityId, Next;
      ghost var e := StateReported(op.id, oldState.lastReported, oldState);
      ghost var record := Next(records, op);
      StreamAppend(fired, states, e);
      NextIsStamped(history, records, op);
      SetKeepsFaithful(history, op, records, record);
      oldState.lastReported := op.time;
      fired, history, records := fired + [e], history + [op], records[op.id := record];
    }

    /** A new state takes the place of the stored one, if any. */
    method Replace(ghost op: Op, s: State)
      requires Valid() && op.Set? && op.id == s.entityId && ValidEntityId(op.id)
      requires Next(records, op) == s.AsRecord()
      modifies this`states, this`index, this`fired, this`history, this`records
      ensures Valid()
      ensures history == old(history) + [op] && states == old(states)[op.id := s]
      ensures fired == old(fired) + [StateChanged(op.id, Stored(old(states), op.id), s)]
    {
      hide Faithful, StreamValid, IndexExact, Recorded, Stamped, ValidEntityId, Next;
      ghost var e := StateChanged(op.id, Stored(states, op.id), s);
      StreamAppend(fired, states, e);
      NextIsStamped(history, records, op);
      SetKeepsFaithful(history, op, records, s.AsRecord());
      Store(s.entityId, s);
      fired, history, records := fired + [e], history + [op], records[op.id := s.AsRecord()];
    }

    /** Over any history with a non-decreasing clock the time stamps of every stored state
        are in order. */
    lemma TimesOrdered(id: Id)
      requires Valid() && Monotone(history) && id in states
      ensures states[id].lastChanged <= states[id].lastUpdated <= states[id].lastReported
    {
      StampsAreOrdered(history, records, id);
    }

    // ------------------------------------------------------ reservations, queries

    /** `async_available`. */
    predicate Available(entityId: Id)
      reads this
    {
      Lower(entityId) !in states && Lower(entityId) !in reservations
    }

    /** `async_reserve`: refused exactly when the id is not available; afterwards it is not,
        in any spelling, and nothing else has changed. */
    method AsyncReserve(entityId: Id) returns (ok: bool)
      requires Valid()
      modifies this`reservations
      ensures Valid()
      ensures ok <==> old(Available(entityId))
      ensures forall x :: Available(x) <==> old(Available(x)) && Lower(x) != Lower(entityId)
      ensures !ok ==> reservations == old(reservations)
    {
      var id := Lower(entityId);
      if id in states || id in reservations {
        return false;
      }
      reservations := reservations + {id};
      return true;
    }

    /** `async_entity_ids`, for every kind of filter: every stored id is listed as often as a
        scan over all states and the filter's domains meets it. */
    method AsyncEntityIds(filter: DomainFilter) returns (ids: seq<Id>)
      requires Valid()
      ensures forall id :: multiset(ids)[id] == if id in states then Times(filter, id) else 0
    {
      match filter {
        case All => ids := Listed(states.Keys);
        case One(domain) => ids := Listed(Bucket(index, LowerText(domain)).Keys);
        case Several(domains) => ids := IdsOfDomains(domains);
      }
    }

    method IdsOfDomains(domains: seq<string>) returns (ids: seq<Id>)
      requires Valid()
      ensures forall id :: multiset(ids)[id] == if id in states then multiset(domains)[DomainOf(id)] else 0
    {
      hide DomainOf;
      ids := [];
      for n := 0 to |domains|
        invariant forall id ::
          multiset(ids)[id] == if id in states then multiset(domains[..n])[DomainOf(id)] else 0
      {
        assert domains[..n + 1] == domains[..n] + [domains[n]];
        var more := Listed(Bucket(index, domains[n]).Keys);
        ids := ids + more;
      }
      assert domains[..|domains|] == domains;
    }

    /** `get`: a stored state is found under every spelling of its id. */
    method Get(entityId: Id) returns (s: State?)
      requires Valid()
      ensures s == Stored(states, Lower(entityId))
    {
      if entityId in states {
        ValidIsLower(entityId);
      }
      s := Stored(states, Resolve(states, entityId));
    }
  }
}
