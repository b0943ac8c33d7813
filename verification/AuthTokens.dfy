/** Refresh tokens across all users: removing, using and expiring them. */
module AuthTokens {
  import opened Dicts
  import opened AuthModel

  // --------------------------------------------------------- deleting entries

  function Drop<V>(d: Dict<V>, k: string): Dict<V> {
    if d == [] then []
    else (if d[0].key == k then [] else [d[0]]) + Drop(d[1..], k)
  }

  lemma {:induction false} DropKeeps<V>(d: Dict<V>, k: string)
    ensures forall p :: p in Drop(d, k) ==> p in d && p.key != k
    ensures forall p :: p in d && p.key != k ==> p in Drop(d, k)
    ensures UniqueKeys(d) ==> UniqueKeys(Drop(d, k))
    decreases |d|
  {
    if d != [] {
      DropKeeps(d[1..], k);
      assert d == [d[0]] + d[1..];
      var r := Drop(d[1..], k);
      if UniqueKeys(d) && d[0].key != k {
        FirstKeyIsNew(d);
        forall i | 0 <= i < |r| ensures r[i].key != d[0].key {
          assert r[i] in r;
          EntryHas(d[1..], r[i]);
        }
      }
    }
  }

  lemma HasEntry<V>(d: Dict<V>, k: string)
    ensures Has(d, k) <==> exists p :: p in d && p.key == k
  {
    if p :| p in d && p.key == k { EntryHas(d, p); }
    if i :| 0 <= i < |d| && d[i].key == k { assert d[i] in d; }
  }

  lemma EntryHas<V>(d: Dict<V>, p: Pair<V>)
    requires p in d
    ensures Has(d, p.key)
  {
    var i :| 0 <= i < |d| && d[i] == p;
    assert d[i].key == p.key;
  }

  // ------------------------------------------------------------ all the users

  /** No two users share a token id. */
  ghost predicate TokensDistinct(users: Dict<User>) {
    forall i, j, k :: 0 <= i < j < |users| && Has(users[i].value.tokens, k) ==> !Has(users[j].value.tokens, k)
  }

  function RevokeOf(u: User, id: string): User {
    u.(tokens := Drop(u.tokens, id))
  }

  /** `async_remove_refresh_token`: the first user that has a token of this id loses it. */
  function RemoveFirst(users: Dict<User>, id: string): Dict<User> {
    if users == [] then []
    else if Has(users[0].value.tokens, id) then [Pair(users[0].key, RevokeOf(users[0].value, id))] + users[1..]
    else [users[0]] + RemoveFirst(users[1..], id)
  }

  /** One id after the other. */
  function RemoveEach(users: Dict<User>, ids: seq<string>): Dict<User>
    decreases |ids|
  {
    if ids == [] then users else RemoveFirst(RemoveEach(users, ids[..|ids| - 1]), ids[|ids| - 1])
  }

  predicate NoneHolds(users: Dict<User>, id: string, n: nat)
    requires n <= |users|
  {
    forall i :: 0 <= i < n ==> !Has(users[i].value.tokens, id)
  }

  lemma {:induction false} RemoveFirstAt(users: Dict<User>, id: string, i: nat)
    requires i < |users|
    ensures |RemoveFirst(users, id)| == |users|
    ensures RemoveFirst(users, id)[i] ==
      if Has(users[i].value.tokens, id) && NoneHolds(users, id, i)
      then Pair(users[i].key, RevokeOf(users[i].value, id)) else users[i]
    decreases |users|
  {
    if |users| > 1 { RemoveFirstAt(users[1..], id, if i == 0 then 0 else i - 1); }
    if i > 0 {
      assert NoneHolds(users, id, i) ==> !Has(users[0].value.tokens, id) && NoneHolds(users[1..], id, i - 1);
      if !Has(users[0].value.tokens, id) && NoneHolds(users[1..], id, i - 1) {
        forall j | 0 <= j < i ensures !Has(users[j].value.tokens, id) {
          if j > 0 { assert users[j] == users[1..][j - 1]; }
        }
      }
    }
  }

  /** A token is the one that is removed by its id if and only if no earlier user has a token
      of the same id. */
  lemma RemovesOwnTokenIffFirst(users: Dict<User>, n: nat, id: string)
    requires n < |users| && Has(users[n].value.tokens, id)
    ensures RemoveFirst(users, id) == users[n := Pair(users[n].key, RevokeOf(users[n].value, id))]
       <==> NoneHolds(users, id, n)
  {
    hide RemoveFirst;
    var own := users[n := Pair(users[n].key, RevokeOf(users[n].value, id))];
    forall i | 0 <= i < |users|
      ensures |RemoveFirst(users, id)| == |users|
      ensures NoneHolds(users, id, n) ==> RemoveFirst(users, id)[i] == own[i]
    {
      RemoveFirstAt(users, id, i);
    }
    RemoveFirstAt(users, id, n);
    HasEntry(users[n].value.tokens, id);
    DropKeeps(users[n].value.tokens, id);
    assert NoneHolds(users, id, n) ==> RemoveFirst(users, id) == own;
  }

  lemma {:induction false} NothingRemoved(users: Dict<User>, id: string)
    requires NoneHolds(users, id, |users|)
    ensures RemoveFirst(users, id) == users
    decreases |users|
  {
    if users != [] {
      forall i | 0 <= i < |users| - 1 ensures !Has(users[1..][i].value.tokens, id) {
        assert users[1..][i] == users[i + 1];
      }
      assert !Has(users[0].value.tokens, id);
      NothingRemoved(users[1..], id);
    }
  }

  /** The same users with fewer tokens. */
  ghost predicate Fewer(after: Dict<User>, before: Dict<User>) {
    |after| == |before| && forall i :: 0 <= i < |after| ==> FewerAt(after[i], before[i])
  }

  ghost predicate FewerAt(after: Pair<User>, before: Pair<User>) {
    && after.key == before.key
    && (forall q :: q in after.value.tokens ==> q in before.value.tokens)
    && (UniqueKeys(before.value.tokens) ==> UniqueKeys(after.value.tokens))
  }

  lemma RemoveFirstFewer(users: Dict<User>, id: string)
    ensures Fewer(RemoveFirst(users, id), users)
  {
    forall i | 0 <= i < |users|
      ensures |RemoveFirst(users, id)| == |users| && FewerAt(RemoveFirst(users, id)[i], users[i])
    {
      RemoveFirstAt(users, id, i);
      DropKeeps(users[i].value.tokens, id);
    }
  }

  // -------------------------------------------------- which tokens are removed

  predicate HasExpired(u: User, id: string, now: Time) {
    exists q :: q in u.tokens && q.key == id && ExpiredAt(q.value, now)
  }

  /** How many of the first `n` users have a token of this id. */
  function Holders(users: Dict<User>, id: string, n: nat): nat
    requires n <= |users|
  {
    if n == 0 then 0
    else Holders(users, id, n - 1) + if Has(users[n - 1].value.tokens, id) then 1 else 0
  }

  /** How many of the first `n` users have an expired token of this id. */
  function Expired(users: Dict<User>, id: string, now: Time, n: nat): nat
    requires n <= |users|
  {
    if n == 0 then 0
    else Expired(users, id, now, n - 1) + if HasExpired(users[n - 1].value, id, now) then 1 else 0
  }

  lemma {:induction false} HoldersGrow(users: Dict<User>, id: string, now: Time, m: nat, n: nat)
    requires m <= n <= |users|
    ensures Holders(users, id, n) - Holders(users, id, m)
         >= Expired(users, id, now, n) - Expired(users, id, now, m) >= 0
    decreases n
  {
    if m < n {
      HoldersGrow(users, id, now, m, n - 1);
      HasEntry(users[n - 1].value.tokens, id);
    }
  }

  lemma {:induction false} NthHolder(users: Dict<User>, id: string, n: nat, c: nat)
    requires n <= |users|
    ensures (exists j :: 0 <= j < n && Has(users[j].value.tokens, id) && Holders(users, id, j) >= c)
       <==> Holders(users, id, n) > c
    decreases n
  {
    if n > 0 {
      NthHolder(users, id, n - 1, c);
      if Has(users[n - 1].value.tokens, id) && Holders(users, id, n - 1) < c {
        forall j | 0 <= j < n && Has(users[j].value.tokens, id) ensures Holders(users, id, j) < c {
          HoldersGrow(users, id, 0, j, n - 1);
        }
      }
    }
  }

  /** User `i` has lost exactly the tokens of which as many holders come before it as their
      ids were removed times. */
  ghost predicate LostAt(users: Dict<User>, ids: seq<string>, i: nat)
    requires i < |users|
  {
    var r := RemoveEach(users, ids);
    && |r| == |users|
    && (forall q :: q in r[i].value.tokens
          <==> q in users[i].value.tokens && Holders(users, q.key, i) >= multiset(ids)[q.key])
  }

  lemma HeldAfter(users: Dict<User>, ids: seq<string>, i: nat, id: string)
    requires i < |users| && LostAt(users, ids, i)
    ensures Has(RemoveEach(users, ids)[i].value.tokens, id)
       <==> Has(users[i].value.tokens, id) && Holders(users, id, i) >= multiset(ids)[id]
  {
    hide Has, RemoveEach, Holders;
    HasEntry(RemoveEach(users, ids)[i].value.tokens, id);
    HasEntry(users[i].value.tokens, id);
  }

  /** When ids are removed one after the other, the first holders of each lose it, as many as
      it is listed times. */
  lemma {:induction false} RemoveEachAt(users: Dict<User>, ids: seq<string>, i: nat)
    requires i < |users|
    ensures LostAt(users, ids, i)
    decreases |ids|
  {
    hide RemoveFirst, Has, Holders;
    if ids != [] {
      var init, id := ids[..|ids| - 1], ids[|ids| - 1];
      assert ids == init + [id];
      var r, c := RemoveEach(users, init), multiset(init)[id];
      forall j | 0 <= j <= i
        ensures LostAt(users, init, j)
        ensures Has(r[j].value.tokens, id) <==> Has(users[j].value.tokens, id) && Holders(users, id, j) >= c
      {
        RemoveEachAt(users, init, j);
        HeldAfter(users, init, j, id);
      }
      NthHolder(users, id, i, c);
      assert NoneHolds(r, id, i) <==> Holders(users, id, i) <= c;
      RemoveFirstAt(r, id, i);
      HasEntry(r[i].value.tokens, id);
      DropKeeps(r[i].value.tokens, id);
    }
  }

  /** No token of an id is left after its removal if and only if at most one user had one. */
  lemma GoneIffOneHolder(users: Dict<User>, id: string)
    ensures |RemoveFirst(users, id)| == |users|
    ensures NoneHolds(RemoveFirst(users, id), id, |users|) <==> Holders(users, id, |users|) <= 1
  {
    hide RemoveFirst, Has, Holders;
    var ids := [id];
    assert ids[..0] == [];
    assert RemoveEach(users, ids) == RemoveFirst(users, id);
    SameLength(users, ids);
    forall i | 0 <= i < |users|
      ensures Has(RemoveFirst(users, id)[i].value.tokens, id)
         <==> Has(users[i].value.tokens, id) && Holders(users, id, i) >= 1
    {
      RemoveEachAt(users, ids, i);
      HeldAfter(users, ids, i, id);
    }
    NthHolder(users, id, |users|, 1);
  }

  // -------------------------------------------------------------------- expiry

  predicate ExpiredAt(t: Token, now: Time) {
    t.expireAt.Some? && t.expireAt.value <= now
  }

  function TokensOf(u: User): seq<Token> {
    seq(|u.tokens|, i requires 0 <= i < |u.tokens| => u.tokens[i].value)
  }

  /** `async_get_refresh_tokens`: the tokens of all users, user by user. */
  function AllTokens(users: Dict<User>): seq<Token> {
    PerUser(users, TokensOf)
  }

  lemma {:induction false} AllTokensExact(users: Dict<User>, t: Token)
    ensures t in AllTokens(users) <==> exists p, q :: p in users && q in p.value.tokens && q.value == t
    decreases |users|
  {
    if users != [] {
      var init, last := users[..|users| - 1], users[|users| - 1];
      AllTokensExact(init, t);
      assert users == init + [last];
      if t in TokensOf(last.value) {
        var i :| 0 <= i < |TokensOf(last.value)| && TokensOf(last.value)[i] == t;
        assert last.value.tokens[i] in last.value.tokens;
      }
      if q :| q in last.value.tokens && q.value == t {
        var i :| 0 <= i < |last.value.tokens| && last.value.tokens[i] == q;
        assert TokensOf(last.value)[i] == t;
      }
    }
  }

  /** The ids of the expired tokens, in order. */
  function ExpiredIds(ts: seq<Token>, now: Time): seq<string> {
    if ts == [] then []
    else
      var t := ts[|ts| - 1];
      ExpiredIds(ts[..|ts| - 1], now) + if ExpiredAt(t, now) then [t.id] else []
  }

  ghost predicate TokenKeysOk(users: Dict<User>) {
    forall p :: p in users ==> UniqueKeys(p.value.tokens) && forall q :: q in p.value.tokens ==> TokenOk(q)
  }

  lemma ExpiredNext(ts: seq<Token>, i: nat, now: Time)
    requires i < |ts|
    ensures ExpiredIds(ts[..i + 1], now)
      == if ExpiredAt(ts[i], now) then ExpiredIds(ts[..i], now) + [ts[i].id] else ExpiredIds(ts[..i], now)
  {
    assert ts[..i + 1][..i] == ts[..i];
  }

  lemma {:induction false} ExpiredIdsAppend(a: seq<Token>, b: seq<Token>, now: Time)
    ensures ExpiredIds(a + b, now) == ExpiredIds(a, now) + ExpiredIds(b, now)
    decreases |b|
  {
    if b == [] {
      assert a + b == a;
    } else {
      assert (a + b)[..|a + b| - 1] == a + b[..|b| - 1];
      ExpiredIdsAppend(a, b[..|b| - 1], now);
    }
  }

  lemma {:induction false} ListedOnce(u: User, n: nat, id: string, now: Time)
    requires n <= |u.tokens| && UniqueKeys(u.tokens) && forall q :: q in u.tokens ==> TokenOk(q)
    ensures multiset(ExpiredIds(TokensOf(u)[..n], now))[id]
      == if exists i :: 0 <= i < n && u.tokens[i].key == id && ExpiredAt(u.tokens[i].value, now) then 1 else 0
    decreases n
  {
    if n > 0 {
      ListedOnce(u, n - 1, id, now);
      assert TokensOf(u)[..n][..n - 1] == TokensOf(u)[..n - 1];
      assert u.tokens[n - 1] in u.tokens;
    }
  }

  lemma ListedIffExpired(u: User, id: string, now: Time)
    requires UniqueKeys(u.tokens) && forall q :: q in u.tokens ==> TokenOk(q)
    ensures multiset(ExpiredIds(TokensOf(u), now))[id] == if HasExpired(u, id, now) then 1 else 0
  {
    ListedOnce(u, |u.tokens|, id, now);
    assert TokensOf(u)[..|u.tokens|] == TokensOf(u);
    if q :| q in u.tokens && q.key == id && ExpiredAt(q.value, now) {
      var i :| 0 <= i < |u.tokens| && u.tokens[i] == q;
    }
  }

  /** An id is listed once for every user whose token of this id has expired. */
  lemma {:induction false} ListedPerUser(users: Dict<User>, id: string, now: Time, n: nat)
    requires TokenKeysOk(users) && n <= |users|
    ensures multiset(ExpiredIds(AllTokens(users[..n]), now))[id] == Expired(users, id, now, n)
    decreases n
  {
    hide UniqueKeys, HasExpired, TokensOf, ExpiredIds, TokenOk;
    if n > 0 {
      ListedPerUser(users, id, now, n - 1);
      assert users[..n][..n - 1] == users[..n - 1];
      var u := users[n - 1].value;
      assert users[n - 1] in users;
      ExpiredIdsAppend(AllTokens(users[..n - 1]), TokensOf(u), now);
      ListedIffExpired(u, id, now);
    } else {
      NothingListed(now);
    }
  }

  lemma NothingListed(now: Time)
    ensures ExpiredIds([], now) == []
  {
  }

  /** Every user keeps exactly the tokens that have not expired. */
  ghost predicate ExactlyExpiredGone(before: Dict<User>, after: Dict<User>, now: Time) {
    |after| == |before| && forall i :: 0 <= i < |after| ==> LiveKept(before[i].value, after[i].value, now)
  }

  ghost predicate LiveKept(before: User, after: User, now: Time) {
    forall q :: q in after.tokens <==> q in before.tokens && !ExpiredAt(q.value, now)
  }

  /** What is left when the expired tokens are removed by their ids at time `now`. */
  function Swept(users: Dict<User>, now: Time): Dict<User> {
    RemoveEach(users, ExpiredIds(AllTokens(users), now))
  }

  ghost predicate NoneExpired(users: Dict<User>, now: Time) {
    forall i, q :: 0 <= i < |users| && q in users[i].value.tokens ==> !ExpiredAt(q.value, now)
  }

  /** User `i` has token `q`, and the later user `j` has `r` under the same id. */
  predicate Share(users: Dict<User>, i: int, q: Pair<Token>, j: int, r: Pair<Token>) {
    0 <= i < j < |users| && q in users[i].value.tokens && r in users[j].value.tokens && q.key == r.key
  }

  /** Of two users that share a token id, the later one's token does not expire first. */
  ghost predicate ExpiredFirst(users: Dict<User>, now: Time) {
    forall i, q, j, r :: Share(users, i, q, j, r) ==> ExpiredAt(r.value, now) ==> ExpiredAt(q.value, now)
  }

  lemma TokenHasExpired(users: Dict<User>, i: nat, q: Pair<Token>, now: Time)
    requires TokenKeysOk(users) && i < |users| && q in users[i].value.tokens
    ensures Has(users[i].value.tokens, q.key) && (HasExpired(users[i].value, q.key, now) <==> ExpiredAt(q.value, now))
  {
    EntryHas(users[i].value.tokens, q);
    assert users[i] in users;
    var ts := users[i].value.tokens;
    if r :| r in ts && r.key == q.key && ExpiredAt(r.value, now) {
      var a :| 0 <= a < |ts| && ts[a] == q;
      var b :| 0 <= b < |ts| && ts[b] == r;
    }
  }

  /** The last user whose token of this id has expired. */
  lemma {:induction false} LastExpired(users: Dict<User>, id: string, now: Time, n: nat) returns (l: nat)
    requires n <= |users| && Expired(users, id, now, n) > 0
    ensures l < n && HasExpired(users[l].value, id, now)
    ensures Expired(users, id, now, l) == Expired(users, id, now, n) - 1
    ensures forall j :: l < j < n ==> !HasExpired(users[j].value, id, now)
    decreases n
  {
    if HasExpired(users[n - 1].value, id, now) { l := n - 1; } else { l := LastExpired(users, id, now, n - 1); }
  }

  /** A live token before an expired one of the same id takes its place among those that are
      removed, so that an expired one stays. */
  lemma ExpiredStays(users: Dict<User>, now: Time, i: nat, q: Pair<Token>, j: nat, r: Pair<Token>)
    requires TokenKeysOk(users) && Share(users, i, q, j, r) && ExpiredAt(r.value, now) && !ExpiredAt(q.value, now)
    ensures !NoneExpired(Swept(users, now), now)
  {
    hide RemoveEach, AllTokens, ExpiredIds, Has, HasExpired, TokenKeysOk;
    var id, n := q.key, |users|;
    TokenHasExpired(users, i, q, now);
    TokenHasExpired(users, j, r, now);
    HoldersGrow(users, id, now, j + 1, n);
    var l := LastExpired(users, id, now, n);
    HoldersGrow(users, id, now, 0, i);
    HoldersGrow(users, id, now, i + 1, l);
    ListedPerUser(users, id, now, n);
    assert users[..n] == users;
    ExpiredKept(users, ExpiredIds(AllTokens(users), now), l, id, now);
  }

  lemma ExpiredKept(users: Dict<User>, ids: seq<string>, l: nat, id: string, now: Time)
    requires l < |users| && HasExpired(users[l].value, id, now) && Holders(users, id, l) >= multiset(ids)[id]
    ensures !NoneExpired(RemoveEach(users, ids), now)
  {
    hide RemoveEach, Holders;
    RemoveEachAt(users, ids, l);
    var t :| t in users[l].value.tokens && t.key == id && ExpiredAt(t.value, now);
    assert t in RemoveEach(users, ids)[l].value.tokens;
  }

  /** Removing the ids of the expired tokens, each at its first holder, removes exactly the
      expired tokens if and only if no token that has expired stands behind another user's
      live one of the same id. Otherwise an expired token stays. */
  lemma RevokeExpiredExactIff(users: Dict<User>, now: Time)
    requires TokenKeysOk(users)
    ensures ExactlyExpiredGone(users, Swept(users, now), now) <==> ExpiredFirst(users, now)
    ensures NoneExpired(Swept(users, now), now) <==> ExpiredFirst(users, now)
  {
    hide RemoveEach, AllTokens, ExpiredIds, Has, TokenKeysOk, Holders;
    var ids := ExpiredIds(AllTokens(users), now);
    var after := RemoveEach(users, ids);
    SameLength(users, ids);
    if ExpiredFirst(users, now) {
      forall i | 0 <= i < |users| ensures LiveKept(users[i].value, after[i].value, now) {
        RemoveEachAt(users, ids, i);
        forall q | q in users[i].value.tokens
          ensures Holders(users, q.key, i) >= multiset(ids)[q.key] <==> !ExpiredAt(q.value, now)
        {
          ListedPerUser(users, q.key, now, |users|);
          assert users[..|users|] == users;
          ExpiredOrNot(users, now, i, q);
        }
      }
      ExactLeavesNone(users, after, now);
    } else {
      var i, q, j, r :| Share(users, i, q, j, r) && ExpiredAt(r.value, now) && !ExpiredAt(q.value, now);
      ExpiredStays(users, now, i, q, j, r);
      if ExactlyExpiredGone(users, after, now) { ExactLeavesNone(users, after, now); }
    }
  }

  lemma ExactLeavesNone(before: Dict<User>, after: Dict<User>, now: Time)
    requires ExactlyExpiredGone(before, after, now)
    ensures NoneExpired(after, now)
  {
    forall i, q | 0 <= i < |after| && q in after[i].value.tokens ensures !ExpiredAt(q.value, now) {
      assert LiveKept(before[i].value, after[i].value, now);
    }
  }

  lemma SameLength(users: Dict<User>, ids: seq<string>)
    ensures |RemoveEach(users, ids)| == |users|
  {
    if users == [] { NoUsers(ids); } else { RemoveEachAt(users, ids, 0); }
  }

  lemma {:induction false} NoUsers(ids: seq<string>)
    ensures RemoveEach([], ids) == []
    decreases |ids|
  {
    if ids != [] { NoUsers(ids[..|ids| - 1]); }
  }

  lemma ExpiredOrNot(users: Dict<User>, now: Time, i: nat, q: Pair<Token>)
    requires TokenKeysOk(users) && ExpiredFirst(users, now) && i < |users| && q in users[i].value.tokens
    ensures Holders(users, q.key, i) >= Expired(users, q.key, now, |users|) <==> !ExpiredAt(q.value, now)
  {
    hide Has, TokenKeysOk;
    TokenHasExpired(users, i, q, now);
    HoldersGrow(users, q.key, now, 0, i);
    if ExpiredAt(q.value, now) {
      AllExpired(users, q.key, now, i, q, i);
      HoldersGrow(users, q.key, now, i + 1, |users|);
    } else {
      NoMoreExpired(users, q.key, now, i, q, |users|);
    }
  }

  /** Before an expired token all tokens of the same id have expired. */
  lemma {:induction false} AllExpired(users: Dict<User>, id: string, now: Time, i: nat, q: Pair<Token>, m: nat)
    requires TokenKeysOk(users) && ExpiredFirst(users, now) && m <= i < |users|
    requires q in users[i].value.tokens && q.key == id && ExpiredAt(q.value, now)
    ensures Holders(users, id, m) == Expired(users, id, now, m)
    decreases m
  {
    hide Has, TokenKeysOk;
    if m > 0 {
      AllExpired(users, id, now, i, q, m - 1);
      HasEntry(users[m - 1].value.tokens, id);
      if p :| p in users[m - 1].value.tokens && p.key == id {
        assert Share(users, m - 1, p, i, q);
        TokenHasExpired(users, m - 1, p, now);
      }
    }
  }

  /** Behind a live token none of the same id has expired. */
  lemma {:induction false} NoMoreExpired(users: Dict<User>, id: string, now: Time, i: nat, q: Pair<Token>, n: nat)
    requires TokenKeysOk(users) && ExpiredFirst(users, now) && i <= n <= |users| && i < |users|
    requires q in users[i].value.tokens && q.key == id && !ExpiredAt(q.value, now)
    ensures Expired(users, id, now, n) == Expired(users, id, now, i)
    decreases n
  {
    hide Has, TokenKeysOk, UniqueKeys;
    if n > i {
      NoMoreExpired(users, id, now, i, q, n - 1);
      if n == i + 1 {
        TokenHasExpired(users, i, q, now);
      } else {
        forall r | r in users[n - 1].value.tokens && r.key == id ensures !ExpiredAt(r.value, now) {
          assert Share(users, i, q, n - 1, r);
        }
      }
    }
  }

  /** Of two users that share a token id, the earlier one's token expires, and no later than
      that of the later one if that expires as well. */
  ghost predicate ExpiriesOrdered(users: Dict<User>) {
    forall i, q, j, r :: Share(users, i, q, j, r) ==> ExpiresFirst(q.value, r.value)
  }

  predicate ExpiresFirst(q: Token, r: Token) {
    r.expireAt.Some? ==> q.expireAt.Some? && q.expireAt.value <= r.expireAt.value
  }

  /** So the removal is exact at all times if and only if expiries are ordered like that; they
      are when no two users share a token id. */
  lemma AlwaysExactIffOrdered(users: Dict<User>)
    requires TokenKeysOk(users)
    ensures (forall now :: ExactlyExpiredGone(users, Swept(users, now), now)) <==> ExpiriesOrdered(users)
    ensures TokensDistinct(users) ==> ExpiriesOrdered(users)
  {
    hide Swept, ExactlyExpiredGone;
    forall now ensures ExactlyExpiredGone(users, Swept(users, now), now) <==> ExpiredFirst(users, now) {
      RevokeExpiredExactIff(users, now);
    }
    if ExpiriesOrdered(users) {
      forall now ensures ExpiredFirst(users, now) {
        forall i, q, j, r | Share(users, i, q, j, r) ensures ExpiredAt(r.value, now) ==> ExpiredAt(q.value, now) {
          assert ExpiresFirst(q.value, r.value);
        }
      }
    } else {
      var i, q, j, r :| Share(users, i, q, j, r) && !ExpiresFirst(q.value, r.value);
      var now := r.value.expireAt.value;
      assert ExpiredAt(r.value, now) && !ExpiredAt(q.value, now);
      assert !ExpiredFirst(users, now);
    }
    if TokensDistinct(users) {
      forall i, q, j, r ensures !Share(users, i, q, j, r) {
        if Share(users, i, q, j, r) {
          EntryHas(users[i].value.tokens, q);
          EntryHas(users[j].value.tokens, r);
          assert false;
        }
      }
    }
  }

  /** No stored token expires before the timer. */
  predicate Covers(users: Dict<User>, timer: Time) {
    forall i :: 0 <= i < |users| ==> CoversUser(users[i].value, timer)
  }

  predicate CoversUser(u: User, timer: Time) {
    forall q :: q in u.tokens && q.value.expireAt.Some? ==> timer <= q.value.expireAt.value
  }

  /** Every normal token carries an expiry. */
  predicate ExpiriesSet(users: Dict<User>) {
    forall i :: 0 <= i < |users| ==> ExpirySet(users[i].value)
  }

  predicate ExpirySet(u: User) {
    forall q :: q in u.tokens && q.value.tokenType == Normal ==> q.value.expireAt.Some?
  }

  /** A user has at most one long-lived token for any name that is stored. */
  predicate OneTokenPerName(u: User) {
    forall q, r | q in u.tokens && r in u.tokens :: SameName(q.value, r.value) ==> q == r
  }

  predicate SameName(t: Token, other: Token) {
    NamedLongLived(t) && NamedLongLived(other) && t.clientName == other.clientName
  }

  predicate NamedLongLived(t: Token) {
    t.tokenType == LongLivedAccessToken && t.clientName.Some?
  }

  predicate OneTokenPerNameEach(users: Dict<User>) {
    forall i :: 0 <= i < |users| ==> OneTokenPerName(users[i].value)
  }

  /** Users are keyed by id, and so are the tokens of each. */
  ghost predicate TokensInOrder(users: Dict<User>) {
    UniqueKeys(users) && TokenKeysOk(users)
  }

  /** Fewer tokens keep their order, the expiries of normal ones, and what was unique. */
  lemma FewerKeeps(after: Dict<User>, before: Dict<User>)
    requires Fewer(after, before)
    ensures TokensInOrder(before) ==> TokensInOrder(after)
    ensures TokensDistinct(before) ==> TokensDistinct(after)
    ensures ExpiriesSet(before) ==> ExpiriesSet(after)
    ensures OneTokenPerNameEach(before) ==> OneTokenPerNameEach(after)
    ensures forall timer :: Covers(before, timer) ==> Covers(after, timer)
  {
    forall i | 0 <= i < |after|
      ensures ExpirySet(before[i].value) ==> ExpirySet(after[i].value)
      ensures OneTokenPerName(before[i].value) ==> OneTokenPerName(after[i].value)
      ensures forall timer :: CoversUser(before[i].value, timer) ==> CoversUser(after[i].value, timer)
      ensures forall k :: Has(after[i].value.tokens, k) ==> Has(before[i].value.tokens, k)
    {
      assert FewerAt(after[i], before[i]);
      forall k | Has(after[i].value.tokens, k) ensures Has(before[i].value.tokens, k) {
        HasEntry(after[i].value.tokens, k);
        HasEntry(before[i].value.tokens, k);
      }
    }
    if TokensInOrder(before) {
      forall i | 0 <= i < |after|
        ensures UniqueKeys(after[i].value.tokens) && forall q :: q in after[i].value.tokens ==> TokenOk(q)
      {
        assert FewerAt(after[i], before[i]) && before[i] in before;
      }
    }
  }

  // ------------------------------------------------------- adding and changing

  /** One user gets one more token, or another value for one of its tokens. */
  function WithToken(users: Dict<User>, n: nat, t: Token): Dict<User>
    requires n < |users|
  {
    var u := users[n].value;
    users[n := Pair(users[n].key, u.(tokens := Put(u.tokens, t.id, t)))]
  }

  /** The token may take this place: its id is new, or it replaces the user's own token. */
  ghost predicate MayTake(users: Dict<User>, n: nat, t: Token)
    requires n < |users|
  {
    forall i :: 0 <= i < |users| && i != n ==> !Has(users[i].value.tokens, t.id)
  }

  ghost predicate NameIsFree(u: User, t: Token) {
    forall q :: q in u.tokens && SameName(q.value, t) ==> q.key == t.id
  }

  /** The user gets the token, in the place of one with the same id if there is one; all other
      tokens, users and fields stay. */
  lemma WithTokenExact(users: Dict<User>, n: nat, t: Token)
    requires TokenKeysOk(users) && n < |users|
    ensures var r := WithToken(users, n, t);
      && |r| == |users| && (forall i :: 0 <= i < |users| && i != n ==> r[i] == users[i])
      && r[n] == Pair(users[n].key, users[n].value.(tokens := r[n].value.tokens))
      && forall q :: q in r[n].value.tokens <==> q == Pair(t.id, t) || (q in users[n].value.tokens && q.key != t.id)
  {
    var d, r := users[n].value.tokens, WithToken(users, n, t)[n].value.tokens;
    assert users[n] in users;
    PutKeys(d, t.id, t);
    if Has(d, t.id) {
      PutAtPlace(d, t.id, t);
      var place := Place(d, t.id);
      assert r[place] == Pair(t.id, t);
      forall q | q in d && q.key != t.id ensures q in r {
        var i :| 0 <= i < |d| && d[i] == q;
        assert r[i] == q;
      }
    } else {
      PutNew(d, t.id, t);
      KeyAbsent(d, t.id);
    }
    PutReplaces(d, t.id, t);
  }

  lemma WithTokenDistinct(users: Dict<User>, n: nat, t: Token)
    requires TokensDistinct(users) && n < |users| && MayTake(users, n, t) && UniqueKeys(users[n].value.tokens)
    ensures TokensDistinct(WithToken(users, n, t))
  {
    var r := WithToken(users, n, t);
    PutKeys(users[n].value.tokens, t.id, t);
    forall i, j, k | 0 <= i < j < |r| && Has(r[i].value.tokens, k)
      ensures !Has(r[j].value.tokens, k)
    {
      assert Has(users[i].value.tokens, k) || (i == n && k == t.id);
    }
  }

  lemma WithTokenInOrder(users: Dict<User>, n: nat, t: Token)
    requires TokensInOrder(users) && n < |users|
    ensures TokensInOrder(WithToken(users, n, t))
  {
    var u := users[n].value;
    assert users[n] in users;
    PutKeys(u.tokens, t.id, t);
    KeptKeys(users, n, u.(tokens := Put(u.tokens, t.id, t)));
  }

  lemma WithTokenKeepsExpiries(users: Dict<User>, n: nat, t: Token)
    requires ExpiriesSet(users) && TokenKeysOk(users) && n < |users| && (t.tokenType == Normal ==> t.expireAt.Some?)
    ensures ExpiriesSet(WithToken(users, n, t))
  {
    assert users[n] in users && ExpirySet(users[n].value);
    PutKeys(users[n].value.tokens, t.id, t);
  }

  lemma WithTokenKeepsNames(users: Dict<User>, n: nat, t: Token)
    requires OneTokenPerNameEach(users) && TokenKeysOk(users) && n < |users| && NameIsFree(users[n].value, t)
    ensures OneTokenPerNameEach(WithToken(users, n, t))
  {
    var u := users[n].value;
    assert users[n] in users && OneTokenPerName(u);
    PutKeys(u.tokens, t.id, t);
    PutReplaces(u.tokens, t.id, t);
  }

  lemma WithTokenCovered(users: Dict<User>, n: nat, t: Token, timer: Time)
    requires Covers(users, timer) && TokenKeysOk(users) && n < |users|
    requires t.expireAt.Some? ==> timer <= t.expireAt.value
    ensures Covers(WithToken(users, n, t), timer)
  {
    assert users[n] in users && CoversUser(users[n].value, timer);
    PutKeys(users[n].value.tokens, t.id, t);
  }
}
