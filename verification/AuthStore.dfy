/** The auth store object of homeassistant/auth/auth_store.py: loading, and the changes to
    refresh tokens, in place. */
module AuthStores {
  import opened Options
  import opened Dicts
  import opened AuthModel
  import opened AuthMigration
  import opened AuthTokens

  datatype LoadOutcome = Loaded | AlreadyLoaded | Raised

  const DEFAULT_GROUPS: Dict<Group> := [
    Pair(GROUP_ID_ADMIN, SystemGroup(GROUP_ID_ADMIN)),
    Pair(GROUP_ID_USER, SystemGroup(GROUP_ID_USER)),
    Pair(GROUP_ID_READ_ONLY, SystemGroup(GROUP_ID_READ_ONLY))]

  lemma FoldNext<S, D>(step: (S, D) -> Option<S>, init: S, ds: seq<D>, i: nat)
    requires i < |ds| && Fold(step, init, ds[..i]).Some?
    ensures Fold(step, init, ds[..i + 1]) == step(Fold(step, init, ds[..i]).value, ds[i])
  {
    assert ds[..i + 1][..i] == ds[..i];
  }

  /** Once the loop has raised, so has the whole fold. */
  lemma {:induction false} FoldRaises<S, D>(step: (S, D) -> Option<S>, init: S, ds: seq<D>, i: nat)
    requires i <= |ds| && Fold(step, init, ds[..i]).None?
    ensures Fold(step, init, ds).None?
    decreases |ds| - i
  {
    if i < |ds| {
      assert ds[..i + 1][..i] == ds[..i];
      FoldRaises(step, init, ds, i + 1);
    } else {
      assert ds[..i] == ds;
    }
  }

  lemma DefaultsAreSettled()
    ensures WellFormed(Store(DEFAULT_GROUPS, [])) && Settled(Store(DEFAULT_GROUPS, []))
  {
    assert DEFAULT_GROUPS[0].key == GROUP_ID_ADMIN && DEFAULT_GROUPS[1].key == GROUP_ID_USER;
    assert DEFAULT_GROUPS[2].key == GROUP_ID_READ_ONLY;
  }

  class AuthStore {
    var groups: Dict<Group>
    var users: Dict<User>
    var loaded: bool

    constructor ()
      ensures !loaded && groups == [] && users == []
    {
      groups, users, loaded := [], [], false;
    }

    function Contents(): Store
      reads this
    {
      Store(groups, users)
    }

    /** `async_load`: `data` is what the storage holds, if anything. A failed load leaves the
        store as it was; a successful one leaves it in a state that saving and loading keep. */
    method AsyncLoad(data: Option<AuthData>, now: Time) returns (outcome: LoadOutcome)
      modifies this
      ensures loaded
      ensures old(loaded) ==> outcome.AlreadyLoaded? && Contents() == old(Contents())
      ensures !old(loaded) && data.None? ==> outcome.Loaded? && Contents() == Store(DEFAULT_GROUPS, [])
      ensures !old(loaded) && data.Some? && Load(data.value, now).None? ==>
        outcome.Raised? && Contents() == old(Contents())
      ensures !old(loaded) && data.Some? && Load(data.value, now).Some? ==>
        outcome.Loaded? && Contents() == Load(data.value, now).value
      ensures outcome.Loaded? ==> WellFormed(Contents()) && Settled(Contents()) && ExpiriesSet(users)
      ensures outcome.Loaded? ==> TokensInOrder(users)
      ensures outcome.Loaded? ==> (TokensDistinct(users) <==> data.None? || OwnersAgree(data.value.refreshTokens))
    {
      if loaded { return AlreadyLoaded; }
      loaded := true;
      if data.None? {
        groups, users := DEFAULT_GROUPS, [];
        DefaultsAreSettled();
        return Loaded;
      }
      var d := data.value;
      var g := LoadGroups(d.groups);
      var m := Migrate(g);
      var newUsers := LoadUsers(m, d.users);
      if newUsers.None? { return Raised; }
      newUsers := LoadCredentials(newUsers.value, d.credentials);
      if newUsers.None? { return Raised; }
      newUsers := LoadTokens(newUsers.value, d.refreshTokens, CredentialIds(d.credentials), now);
      if newUsers.None? { return Raised; }
      groups, users := m.groups, newUsers.value;
      LoadedIsSettled(d, now);
      SettledExpiries(Contents());
      LoadedDistinctIffOwnersAgree(d, now);
      return Loaded;
    }

    method LoadGroups(gs: seq<GroupData>) returns (s: GroupState)
      ensures Fold(GroupStep(), GroupState([], None), gs) == Some(s)
    {
      var loaded: Dict<Group>, withoutPolicy: Option<string> := [], None;
      for i := 0 to |gs|
        invariant Fold(GroupStep(), GroupState([], None), gs[..i]) == Some(GroupState(loaded, withoutPolicy))
      {
        var g := gs[i];
        FoldNext(GroupStep(), GroupState([], None), gs, i);
        if IsSystemGroup(g.id) {
          loaded := Put(loaded, g.id, SystemGroup(g.id));
        } else if g.policy.None? {
          withoutPolicy := Some(g.id);
        } else {
          loaded := Put(loaded, g.id, Group(g.id, g.name, g.policy.value, false));
        }
      }
      assert gs[..|gs|] == gs;
      s := GroupState(loaded, withoutPolicy);
    }

    method LoadUsers(m: Migration, us: seq<UserData>) returns (r: Option<Dict<User>>)
      ensures r == Fold(UserStep(m), [], us)
    {
      var loaded: Dict<User> := [];
      for i := 0 to |us|
        invariant Fold(UserStep(m), [], us[..i]) == Some(loaded)
      {
        var u := us[i];
        FoldNext(UserStep(m), [], us, i);
        var groupIds := MapGroups(m, if u.groupIds.Some? then u.groupIds.value else []);
        if exists id :: id in groupIds && !Has(m.groups, id) {
          FoldRaises(UserStep(m), [], us, i + 1);
          return None;
        }
        groupIds := groupIds + (if !u.systemGenerated && m.allToAdmin then [GROUP_ID_ADMIN] else []);
        loaded := Put(loaded, u.id, User(u.id, u.name, groupIds, u.isOwner, u.isActive, u.systemGenerated,
                                         u.localOnly == Some(true), [], []));
      }
      assert us[..|us|] == us;
      r := Some(loaded);
    }

    method LoadCredentials(bare: Dict<User>, cs: seq<CredentialData>) returns (r: Option<Dict<User>>)
      ensures r == Fold(CredentialStep(), bare, cs)
    {
      var loaded := bare;
      for i := 0 to |cs|
        invariant Fold(CredentialStep(), bare, cs[..i]) == Some(loaded)
      {
        var c := cs[i];
        FoldNext(CredentialStep(), bare, cs, i);
        if !Has(loaded, c.userId) {
          FoldRaises(CredentialStep(), bare, cs, i + 1);
          return None;
        }
        loaded := Adjust(loaded, c.userId, (u: User) => AddCredential(u, c));
      }
      assert cs[..|cs|] == cs;
      r := Some(loaded);
    }

    method LoadTokens(before: Dict<User>, ts: seq<TokenData>, known: set<string>, now: Time)
        returns (r: Option<Dict<User>>)
      ensures r == Fold(TokenStep(known, now), before, ts)
    {
      var loaded, step := before, TokenStep(known, now);
      for i := 0 to |ts|
        invariant Fold(step, before, ts[..i]) == Some(loaded)
      {
        var t := ts[i];
        FoldNext(step, before, ts, i);
        if Skipped(t) { continue; }
        if TypeOf(t).UnknownType? || !Has(loaded, t.userId) {
          FoldRaises(step, before, ts, i + 1);
          return None;
        }
        loaded := Adjust(loaded, t.userId, (u: User) => AddToken(u, t, known, now));
      }
      assert ts[..|ts|] == ts;
      r := Some(loaded);
    }

    /** `async_create_refresh_token`, once the token is made. */
    method CreateRefreshToken(uid: string, t: Token)
      requires UniqueKeys(users) && Has(users, uid)
      modifies this`users
      ensures users == WithToken(old(users), Place(old(users), uid), t)
    {
      var add := (u: User) => u.(tokens := Put(u.tokens, t.id, t));
      AdjustPlace(users, uid, add);
      users := Adjust(users, uid, add);
    }

    /** `async_remove_refresh_token`: the first user that has a token of this id loses it. No
        user has one afterwards if and only if at most one had. */
    method RemoveRefreshToken(id: string)
      modifies this`users
      ensures users == RemoveFirst(old(users), id)
      ensures NoneHolds(users, id, |users|) <==> Holders(old(users), id, |old(users)|) <= 1
    {
      ghost var before := users;
      GoneIffOneHolder(before, id);
      for n := 0 to |users|
        invariant users == before && NoneHolds(users, id, n)
      {
        if Has(users[n].value.tokens, id) {
          RemovesOwnTokenIffFirst(users, n, id);
          users := users[n := Pair(users[n].key, RevokeOf(users[n].value, id))];
          return;
        }
      }
      NothingRemoved(users, id);
    }

    /** `async_log_refresh_token_usage` of a stored token. */
    method LogRefreshTokenUsage(uid: string, id: string, remoteIp: Option<string>, now: Time)
      requires UniqueKeys(users) && Has(users, uid)
      requires TokenKeysOk(users) && Has(users[Place(users, uid)].value.tokens, id)
      modifies this`users
      ensures users == WithToken(old(users), Place(old(users), uid), Used(old(Stored(uid, id)), remoteIp, now))
    {
      var t := Stored(uid, id);
      var add := (u: User) => u.(tokens := Put(u.tokens, id, Used(t, remoteIp, now)));
      AdjustPlace(users, uid, add);
      users := Adjust(users, uid, add);
    }

    /** The stored token of a user. */
    function Stored(uid: string, id: string): (t: Token)
      requires Has(users, uid) && TokenKeysOk(users) && Has(users[Place(users, uid)].value.tokens, id)
      reads this
      ensures t.id == id
    {
      var p := users[Place(users, uid)];
      assert p in users;
      var q := p.value.tokens[Place(p.value.tokens, id)];
      assert q in p.value.tokens && TokenOk(q);
      q.value
    }
  }

  // ------------------------------------------------------ token ids of loaded data

  lemma SettledExpiries(s: Store)
    requires Settled(s)
    ensures ExpiriesSet(s.users)
  {
    forall i | 0 <= i < |s.users| ensures ExpirySet(s.users[i].value) { assert s.users[i] in s.users; }
  }

  /** Stored tokens with the same id that are not skipped belong to the same user. */
  predicate OwnersAgree(ts: seq<TokenData>) {
    forall t, other | t in ts && other in ts ::
      !Skipped(t) && !Skipped(other) && t.id == other.id ==> t.userId == other.userId
  }

  predicate Owns(ts: seq<TokenData>, userId: string, id: string) {
    exists t :: t in ts && !Skipped(t) && t.userId == userId && t.id == id
  }

  /** The users have exactly the stored tokens that are not skipped. */
  ghost predicate HaveTokens(users: Dict<User>, ts: seq<TokenData>) {
    && (forall i, id :: 0 <= i < |users| ==> (Has(users[i].value.tokens, id) <==> Owns(ts, users[i].key, id)))
    && (forall t :: t in ts && !Skipped(t) ==> Has(users, t.userId))
  }

  lemma OwnsNext(ts: seq<TokenData>, t: TokenData, userId: string, id: string)
    ensures Owns(ts + [t], userId, id) <==> Owns(ts, userId, id) || (!Skipped(t) && t.userId == userId && t.id == id)
  {
    assert forall x :: x in ts + [t] <==> x in ts || x == t;
  }

  lemma TokenStepAdds(groups: Dict<Group>, users: Dict<User>, ts: seq<TokenData>, t: TokenData,
    known: set<string>, now: Time)
    requires UsersOk(groups, users) && HaveTokens(users, ts) && TokenStep(known, now)(users, t).Some?
    ensures HaveTokens(TokenStep(known, now)(users, t).value, ts + [t])
  {
    var r := TokenStep(known, now)(users, t).value;
    forall x | x in ts + [t] && !Skipped(x) ensures Has(users, x.userId) { assert x in ts || x == t; }
    if Skipped(t) {
      forall i, id | 0 <= i < |users| ensures Has(users[i].value.tokens, id) <==> Owns(ts + [t], users[i].key, id) {
        OwnsNext(ts, t, users[i].key, id);
      }
    } else {
      AdjustPlace(users, t.userId, (u: User) => AddToken(u, t, known, now));
      var n := Place(users, t.userId);
      assert users[n] in users;
      PutKeys(users[n].value.tokens, t.id, LoadToken(t, known, now));
      assert r == users[n := Pair(users[n].key, AddToken(users[n].value, t, known, now))];
      forall i, id | 0 <= i < |r| ensures Has(r[i].value.tokens, id) <==> Owns(ts + [t], r[i].key, id) {
        OwnsNext(ts, t, users[i].key, id);
      }
      SameKeys(users, r);
    }
  }

  lemma SameKeys<V>(d: Dict<V>, e: Dict<V>)
    requires |d| == |e| && forall i :: 0 <= i < |d| ==> d[i].key == e[i].key
    ensures forall k :: Has(d, k) ==> Has(e, k)
  {
    forall k | Has(d, k) ensures Has(e, k) {
      var i :| 0 <= i < |d| && d[i].key == k;
      assert e[i].key == k;
    }
  }

  lemma NoTokensOwned(users: Dict<User>)
    requires NoTokens(users)
    ensures HaveTokens(users, [])
  {
  }

  lemma {:induction false} TokensAdded(groups: Dict<Group>, users: Dict<User>, ts: seq<TokenData>,
    known: set<string>, now: Time)
    requires TokensOk(groups, users, known) && NoTokens(users) && Fold(TokenStep(known, now), users, ts).Some?
    ensures HaveTokens(Fold(TokenStep(known, now), users, ts).value, ts)
    decreases |ts|
  {
    hide HaveTokens, NoTokens, TokenStep, UserOk, UserSettled, Holds;
    if ts == [] {
      NoTokensOwned(users);
    } else {
      var init, last := ts[..|ts| - 1], ts[|ts| - 1];
      TokensAdded(groups, users, init, known, now);
      TokensLoad(groups, users, init, known, now);
      TokenStepAdds(groups, Fold(TokenStep(known, now), users, init).value, init, last, known, now);
      assert ts == init + [last];
    }
  }

  lemma DistinctIffOwnersAgree(users: Dict<User>, ts: seq<TokenData>)
    requires UniqueKeys(users) && HaveTokens(users, ts)
    ensures TokensDistinct(users) <==> OwnersAgree(ts)
  {
    if OwnersAgree(ts) {
      forall i, j, id | 0 <= i < j < |users| && Has(users[i].value.tokens, id) ensures !Has(users[j].value.tokens, id) {
        assert Owns(ts, users[i].key, id);
        assert users[i].key != users[j].key;
      }
    }
    if TokensDistinct(users) {
      forall t, other | t in ts && other in ts && !Skipped(t) && !Skipped(other) && t.id == other.id
        ensures t.userId == other.userId
      {
        var i, j := Place(users, t.userId), Place(users, other.userId);
        assert Owns(ts, users[i].key, t.id) && Owns(ts, users[j].key, t.id);
        assert Has(users[i].value.tokens, t.id) && Has(users[j].value.tokens, t.id);
      }
    }
  }

  /** The token ids of a loaded store are distinct across users if and only if the data give
      no token id to two of them. */
  lemma LoadedDistinctIffOwnersAgree(d: AuthData, now: Time)
    requires Load(d, now).Some?
    ensures TokensInOrder(Load(d, now).value.users)
    ensures TokensDistinct(Load(d, now).value.users) <==> OwnersAgree(d.refreshTokens)
  {
    hide TokensDistinct, OwnersAgree, HaveTokens;
    var g := Fold(GroupStep(), GroupState([], None), d.groups).value;
    GroupsLoad(d.groups);
    SystemGroupsAdded(g.groups);
    var m := Migrate(g);
    UsersLoad(m, d.users);
    var bare := Fold(UserStep(m), [], d.users).value;
    CredentialsLoad(m.groups, bare, d.credentials);
    var known := CredentialIds(d.credentials);
    NoTokensYet(m, d.users, d.credentials, known);
    TokensAdded(m.groups, Fold(CredentialStep(), bare, d.credentials).value, d.refreshTokens, known, now);
    LoadedIsSettled(d, now);
    var users := Load(d, now).value.users;
    assert TokenKeysOk(users) && UniqueKeys(users);
    DistinctIffOwnersAgree(users, d.refreshTokens);
  }

  /** Using a token changes only its last use and its expiry, which moves to ninety days from
      now unless there is none or it is zero. */
  lemma UsedExact(t: Token, remoteIp: Option<string>, now: Time)
    ensures var u := Used(t, remoteIp, now);
      && u == t.(lastUsedAt := Some(now), lastUsedIp := remoteIp, expireAt := u.expireAt)
      && u.expireAt == if t.expireAt == None || t.expireAt == Some(0) then t.expireAt else Some(now + 90 * 24 * 60 * 60)
  {
  }

  /** A token after use: its expiry, if it has one that is not zero, moves on. */
  function Used(t: Token, remoteIp: Option<string>, now: Time): Token {
    var used := t.(lastUsedAt := Some(now), lastUsedIp := remoteIp);
    if t.expireAt.Some? && t.expireAt.value != 0 then used.(expireAt := Some(now + REFRESH_TOKEN_EXPIRATION)) else used
  }
}
