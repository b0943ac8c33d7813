/** What is loaded from stored auth data, item by item, with the migrations of old data,
    homeassistant/auth/auth_store.py. */
module AuthLoaded {
  import opened Options
  import opened Dicts
  import opened AuthModel

  // ------------------------------------------------------------------- groups

  /** Neither a system group nor one with a policy. */
  predicate Orphan(g: GroupData) {
    !IsSystemGroup(g.id) && g.policy.None?
  }

  /** The stored group is the last of its id that is not an orphan. */
  ghost predicate LastGroup(gs: seq<GroupData>, n: nat, id: string) {
    && n < |gs| && gs[n].id == id && !Orphan(gs[n])
    && forall m :: n < m < |gs| && gs[m].id == id ==> Orphan(gs[m])
  }

  /** A system group is what it always is; any other has the stored name and policy. */
  predicate LoadsGroup(g: GroupData, v: Group) {
    if g.id == GROUP_ID_ADMIN then v == Group(g.id, Some("Administrators"), AdminPolicy, true)
    else if g.id == GROUP_ID_USER then v == Group(g.id, Some("Users"), UserPolicy, true)
    else if g.id == GROUP_ID_READ_ONLY then v == Group(g.id, Some("Read Only"), ReadOnlyPolicy, true)
    else g.policy.Some? && v == Group(g.id, g.name, g.policy.value, false)
  }

  ghost predicate GroupFrom(gs: seq<GroupData>, p: Pair<Group>) {
    exists n: nat :: LastGroup(gs, n, p.key) && LoadsGroup(gs[n], p.value)
  }

  /** The groups are exactly the stored ones that are no orphans, and the last orphan is
      remembered. */
  ghost predicate GroupsFrom(gs: seq<GroupData>, s: GroupState) {
    && UniqueKeys(s.groups)
    && (forall p :: p in s.groups ==> GroupFrom(gs, p))
    && (forall g :: g in gs && !Orphan(g) ==> Has(s.groups, g.id))
    && LastOrphan(gs, s.withoutPolicy)
  }

  ghost predicate LastOrphan(gs: seq<GroupData>, id: Option<string>) {
    match id
    case None => forall g :: g in gs ==> !Orphan(g)
    case Some(x) =>
      exists n :: 0 <= n < |gs| && gs[n].id == x && Orphan(gs[n]) && forall m :: n < m < |gs| ==> !Orphan(gs[m])
  }

  lemma InSnoc<T>(xs: seq<T>, x: T)
    ensures forall y :: y in xs + [x] <==> y in xs || y == x
  {
  }

  lemma GroupStays(gs: seq<GroupData>, g: GroupData, p: Pair<Group>)
    requires GroupFrom(gs, p) && (g.id != p.key || Orphan(g))
    ensures GroupFrom(gs + [g], p)
  {
    var n: nat :| LastGroup(gs, n, p.key) && LoadsGroup(gs[n], p.value);
    assert LastGroup(gs + [g], n, p.key);
  }

  lemma OrphanStays(gs: seq<GroupData>, g: GroupData, id: Option<string>)
    requires LastOrphan(gs, id)
    ensures LastOrphan(gs + [g], if Orphan(g) then Some(g.id) else id)
  {
    InSnoc(gs, g);
    if Orphan(g) {
      assert (gs + [g])[|gs|] == g;
    } else if id.Some? {
      var n :| 0 <= n < |gs| && gs[n].id == id.value && Orphan(gs[n]) && forall m :: n < m < |gs| ==> !Orphan(gs[m]);
      assert (gs + [g])[n] == gs[n];
    }
  }

  lemma GroupStepFrom(gs: seq<GroupData>, s: GroupState, g: GroupData)
    requires GroupsFrom(gs, s)
    ensures GroupStep()(s, g).Some? && GroupsFrom(gs + [g], GroupStep()(s, g).value)
  {
    hide LastOrphan;
    InSnoc(gs, g);
    OrphanStays(gs, g, s.withoutPolicy);
    var r := GroupStep()(s, g).value;
    if !Orphan(g) {
      var v := if IsSystemGroup(g.id) then SystemGroup(g.id) else Group(g.id, g.name, g.policy.value, false);
      PutKeys(s.groups, g.id, v);
      PutReplaces(s.groups, g.id, v);
      assert LastGroup(gs + [g], |gs|, g.id);
    }
    forall p | p in r.groups ensures GroupFrom(gs + [g], p) {
      if Orphan(g) || p.key != g.id { GroupStays(gs, g, p); }
    }
  }

  lemma {:induction false} GroupsLoaded(gs: seq<GroupData>)
    ensures Fold(GroupStep(), GroupState([], None), gs).Some?
    ensures GroupsFrom(gs, Fold(GroupStep(), GroupState([], None), gs).value)
    decreases |gs|
  {
    if gs != [] {
      var init, last := gs[..|gs| - 1], gs[|gs| - 1];
      GroupsLoaded(init);
      GroupStepFrom(init, Fold(GroupStep(), GroupState([], None), init).value, last);
      assert gs == init + [last];
    }
  }

  // ------------------------------------------------------------- memberships

  /** All stored groups are orphans, of which this one is the last. */
  predicate OnlyOrphans(gs: seq<GroupData>, id: string) {
    gs != [] && gs[|gs| - 1].id == id && forall g :: g in gs ==> Orphan(g)
  }

  /** Everybody but system users becomes an administrator if and only if no groups are stored;
      the members of a group do if and only if it is the last and all groups are orphans. */
  lemma WhoMigrates(gs: seq<GroupData>, s: GroupState)
    requires GroupsFrom(gs, s)
    ensures Migrate(s).allToAdmin <==> gs == []
    ensures forall id :: Migrate(s).toAdmin == Some(id) <==> OnlyOrphans(gs, id)
  {
    if s.groups == [] {
      forall g | g in gs ensures Orphan(g) { assert Orphan(g) || Has(s.groups, g.id); }
      if gs != [] { assert gs[|gs| - 1] in gs; }
    } else {
      SomeGroupIsStored(gs, s);
    }
  }

  lemma SomeGroupIsStored(gs: seq<GroupData>, s: GroupState)
    requires GroupsFrom(gs, s) && s.groups != []
    ensures exists g :: g in gs && !Orphan(g)
  {
    var p := s.groups[0];
    assert p in s.groups && GroupFrom(gs, p);
    var n: nat :| LastGroup(gs, n, p.key) && LoadsGroup(gs[n], p.value);
    assert gs[n] in gs && !Orphan(gs[n]);
  }

  /** The groups a user is loaded with: those stored; for old data without groups the
      administrators as well, unless it is a system user; and for data with nothing but orphans
      the administrators in place of the last orphan. */
  ghost predicate Memberships(d: AuthData, u: UserData, groupIds: seq<string>) {
    var listed := if u.groupIds.Some? then u.groupIds.value else [];
    if d.groups == [] then groupIds == if u.systemGenerated then listed else listed + [GROUP_ID_ADMIN]
    else
      && |groupIds| == |listed|
      && forall i :: 0 <= i < |listed| ==>
           groupIds[i] == if OnlyOrphans(d.groups, listed[i]) then GROUP_ID_ADMIN else listed[i]
  }

  // --------------------------------------------------------------------- users

  ghost predicate LastUser(us: seq<UserData>, n: nat, id: string) {
    n < |us| && us[n].id == id && forall m :: n < m < |us| ==> us[m].id != id
  }

  predicate LoadsUser(u: UserData, v: User) {
    && v.id == u.id && v.name == u.name && v.isOwner == u.isOwner && v.isActive == u.isActive
    && v.systemGenerated == u.systemGenerated && v.localOnly == (u.localOnly == Some(true))
  }

  ghost predicate UserFrom(d: AuthData, us: seq<UserData>, p: Pair<User>) {
    exists n: nat :: LastUser(us, n, p.key) && LoadsUser(us[n], p.value) && Memberships(d, us[n], p.value.groupIds)
  }

  ghost predicate UsersFrom(d: AuthData, us: seq<UserData>, users: Dict<User>) {
    && UniqueKeys(users)
    && (forall p :: p in users ==> UserFrom(d, us, p) && p.value.credentials == [] && p.value.tokens == [])
    && (forall u :: u in us ==> Has(users, u.id))
  }

  ghost predicate Migrates(d: AuthData, m: Migration) {
    && (m.allToAdmin <==> d.groups == [])
    && (forall id :: m.toAdmin == Some(id) <==> OnlyOrphans(d.groups, id))
  }

  lemma UserStepFrom(d: AuthData, m: Migration, us: seq<UserData>, users: Dict<User>, u: UserData)
    requires Migrates(d, m) && UsersFrom(d, us, users) && UserStep(m)(users, u).Some?
    ensures UsersFrom(d, us + [u], UserStep(m)(users, u).value)
  {
    hide UserStep, LoadsUser, Memberships, Migrates, Put;
    InSnoc(us, u);
    var r := UserStep(m)(users, u).value;
    var v := NewUser(m, users, u);
    PutKeys(users, u.id, v);
    PutReplaces(users, u.id, v);
    StepMemberships(d, m, u, v.groupIds);
    assert LastUser(us + [u], |us|, u.id);
    forall p | p in r ensures UserFrom(d, us + [u], p) && p.value.credentials == [] && p.value.tokens == [] {
      if p.key != u.id {
        assert p in users;
        var n: nat :| LastUser(us, n, p.key) && LoadsUser(us[n], p.value) && Memberships(d, us[n], p.value.groupIds);
        assert LastUser(us + [u], n, p.key) && (us + [u])[n] == us[n];
      }
    }
  }

  /** The user that the step puts in. */
  lemma NewUser(m: Migration, users: Dict<User>, u: UserData) returns (v: User)
    requires UserStep(m)(users, u).Some?
    ensures UserStep(m)(users, u).value == Put(users, u.id, v)
    ensures LoadsUser(u, v) && v.credentials == [] && v.tokens == []
    ensures v.groupIds == MapGroups(m, if u.groupIds.Some? then u.groupIds.value else [])
                          + (if !u.systemGenerated && m.allToAdmin then [GROUP_ID_ADMIN] else [])
  {
    var mapped := MapGroups(m, if u.groupIds.Some? then u.groupIds.value else []);
    v := User(u.id, u.name, mapped + (if !u.systemGenerated && m.allToAdmin then [GROUP_ID_ADMIN] else []),
              u.isOwner, u.isActive, u.systemGenerated, u.localOnly == Some(true), [], []);
  }

  lemma StepMemberships(d: AuthData, m: Migration, u: UserData, groupIds: seq<string>)
    requires Migrates(d, m)
    requires groupIds == MapGroups(m, if u.groupIds.Some? then u.groupIds.value else [])
                         + (if !u.systemGenerated && m.allToAdmin then [GROUP_ID_ADMIN] else [])
    ensures Memberships(d, u, groupIds)
  {
    var listed := if u.groupIds.Some? then u.groupIds.value else [];
    forall id ensures MapGroup(m, id) == if OnlyOrphans(d.groups, id) then GROUP_ID_ADMIN else id {
      assert m.toAdmin == Some(id) <==> OnlyOrphans(d.groups, id);
    }
    if d.groups == [] { assert MapGroups(m, listed) == listed; }
  }

  lemma {:induction false} UsersLoaded(d: AuthData, m: Migration, us: seq<UserData>)
    requires Migrates(d, m) && Fold(UserStep(m), [], us).Some?
    ensures UsersFrom(d, us, Fold(UserStep(m), [], us).value)
    decreases |us|
  {
    hide UsersFrom, Migrates, UserStep;
    if us == [] {
      NobodyLoaded(d);
    } else {
      var init, last := us[..|us| - 1], us[|us| - 1];
      UsersLoaded(d, m, init);
      UserStepFrom(d, m, init, Fold(UserStep(m), [], init).value, last);
      assert us == init + [last];
    }
  }

  lemma NobodyLoaded(d: AuthData)
    ensures UsersFrom(d, [], [])
  {
  }

  // -------------------------------------------------------------- credentials

  /** The stored credentials of one user, in order. */
  function Owned(cs: seq<CredentialData>, userId: string): seq<Credential> {
    if cs == [] then []
    else
      var c := cs[|cs| - 1];
      Owned(cs[..|cs| - 1], userId)
      + if c.userId == userId then [Credential(c.id, c.providerType, c.providerId, c.data)] else []
  }

  /** The users as they were, with the credentials that are stored for them. */
  ghost predicate CredentialsFrom(bare: Dict<User>, cs: seq<CredentialData>, users: Dict<User>) {
    && |users| == |bare|
    && forall i :: 0 <= i < |bare| ==>
         users[i] == Pair(bare[i].key, bare[i].value.(credentials := Owned(cs, bare[i].key)))
  }

  lemma CredentialStepFrom(bare: Dict<User>, cs: seq<CredentialData>, users: Dict<User>, c: CredentialData)
    requires UniqueKeys(bare) && CredentialsFrom(bare, cs, users) && CredentialStep()(users, c).Some?
    ensures Has(bare, c.userId) && CredentialsFrom(bare, cs + [c], CredentialStep()(users, c).value)
  {
    SameKeyed(bare, users);
    AdjustPlace(users, c.userId, (u: User) => AddCredential(u, c));
    var n, r := Place(users, c.userId), CredentialStep()(users, c).value;
    assert r == users[n := Pair(c.userId, AddCredential(users[n].value, c))];
    forall i | 0 <= i < |bare|
      ensures r[i] == Pair(bare[i].key, bare[i].value.(credentials := Owned(cs + [c], bare[i].key)))
    {
      OwnedSnoc(cs, c, bare[i].key);
      OtherKey(bare, n, i);
      assert users[i] == Pair(bare[i].key, bare[i].value.(credentials := Owned(cs, bare[i].key)));
      if i != n { assert r[i] == users[i] && bare[i].key != c.userId; }
    }
  }

  lemma OtherKey<V>(d: Dict<V>, n: nat, i: nat)
    requires UniqueKeys(d) && n < |d| && i < |d|
    ensures i != n ==> d[i].key != d[n].key
  {
  }

  lemma OwnedSnoc(cs: seq<CredentialData>, c: CredentialData, userId: string)
    ensures Owned(cs + [c], userId) ==
      if c.userId != userId then Owned(cs, userId)
      else Owned(cs, userId) + [Credential(c.id, c.providerType, c.providerId, c.data)]
  {
    assert (cs + [c])[..|cs|] == cs;
  }

  lemma {:induction false} CredentialsLoaded(bare: Dict<User>, cs: seq<CredentialData>)
    requires UniqueKeys(bare) && (forall p :: p in bare ==> p.value.credentials == [])
    requires Fold(CredentialStep(), bare, cs).Some?
    ensures CredentialsFrom(bare, cs, Fold(CredentialStep(), bare, cs).value)
    ensures forall c :: c in cs ==> Has(bare, c.userId)
    decreases |cs|
  {
    hide CredentialStep, UniqueKeys;
    if cs == [] {
      forall i | 0 <= i < |bare| ensures bare[i].value.credentials == [] { assert bare[i] in bare; }
    } else {
      var init, c := cs[..|cs| - 1], cs[|cs| - 1];
      CredentialsLoaded(bare, init);
      CredentialStepFrom(bare, init, Fold(CredentialStep(), bare, init).value, c);
      assert cs == init + [c];
    }
  }

  lemma SameKeyed<V>(d: Dict<V>, e: Dict<V>)
    requires |d| == |e| && forall i :: 0 <= i < |d| ==> d[i].key == e[i].key
    ensures UniqueKeys(d) <==> UniqueKeys(e)
    ensures forall k :: Has(d, k) <==> Has(e, k)
  {
    forall k ensures Has(d, k) <==> Has(e, k) {
      if i :| 0 <= i < |d| && d[i].key == k { assert e[i].key == k; }
      if i :| 0 <= i < |e| && e[i].key == k { assert d[i].key == k; }
    }
  }

  // ------------------------------------------------------------------- tokens

  predicate IsToken(t: TokenData, userId: string, id: string) {
    !Skipped(t) && t.userId == userId && t.id == id
  }

  ghost predicate LastToken(ts: seq<TokenData>, n: nat, userId: string, id: string) {
    n < |ts| && IsToken(ts[n], userId, id) && forall m :: n < m < |ts| ==> !IsToken(ts[m], userId, id)
  }

  /** A token as it was stored, but for what old data lack: without a type it is one of the
      system if it has no client, else a normal one; a normal one without an expiry gets ninety
      days from its last use, or from now; a link to an unknown credential is dropped. */
  predicate LoadsToken(t: TokenData, known: set<string>, now: Time, v: Token) {
    && v.id == t.id && v.clientId == t.clientId && v.clientName == t.clientName && v.clientIcon == t.clientIcon
    && Iso(v.createdAt) == t.createdAt && v.accessTokenExpiration == t.accessTokenExpiration
    && v.token == t.token && Some(v.jwtKey) == t.jwtKey && v.lastUsedIp == t.lastUsedIp && v.version == t.version
    && (match t.tokenType
        case Some(kind) => kind == TypeName(v.tokenType)
        case None => v.tokenType == if t.clientId.None? then System else Normal)
    && (v.lastUsedAt.Some? <==> t.lastUsedAt.Some? && t.lastUsedAt.value.Iso?)
    && (v.lastUsedAt.Some? ==> t.lastUsedAt == Some(Iso(v.lastUsedAt.value)))
    && (if t.expireAt.Some? then v.expireAt == t.expireAt
        else if v.tokenType != Normal then v.expireAt == None
        else v.expireAt == Some((if v.lastUsedAt.Some? then v.lastUsedAt.value else now) + 90 * 24 * 60 * 60))
    && (v.credential.Some? <==> t.credentialId.Some? && t.credentialId.value in known)
    && (v.credential.Some? ==> v.credential == t.credentialId)
  }

  ghost predicate TokenFrom(
      ts: seq<TokenData>, known: set<string>, now: Time, userId: string, q: Pair<Token>) {
    exists n: nat :: LastToken(ts, n, userId, q.key) && LoadsToken(ts[n], known, now, q.value)
  }

  /** The users as they were, each with a token for every id that is stored for it. */
  ghost predicate TokensFrom(
      before: Dict<User>, ts: seq<TokenData>, known: set<string>, now: Time, users: Dict<User>) {
    && |users| == |before|
    && forall i :: 0 <= i < |before| ==> TokensFromAt(before[i], ts, known, now, users[i])
  }

  ghost predicate TokensFromAt(
      before: Pair<User>, ts: seq<TokenData>, known: set<string>, now: Time, after: Pair<User>) {
    && after.key == before.key && after.value == before.value.(tokens := after.value.tokens)
    && UniqueKeys(after.value.tokens)
    && (forall q :: q in after.value.tokens ==> TokenFrom(ts, known, now, before.key, q))
    && (forall t :: t in ts && !Skipped(t) && t.userId == before.key ==> Has(after.value.tokens, t.id))
  }

  lemma TokenStays(ts: seq<TokenData>, t: TokenData, known: set<string>, now: Time, userId: string, q: Pair<Token>)
    requires TokenFrom(ts, known, now, userId, q) && !IsToken(t, userId, q.key)
    ensures TokenFrom(ts + [t], known, now, userId, q)
  {
    var n: nat :| LastToken(ts, n, userId, q.key) && LoadsToken(ts[n], known, now, q.value);
    assert LastToken(ts + [t], n, userId, q.key) && (ts + [t])[n] == ts[n];
  }

  lemma OtherUserStays(
      before: Pair<User>, ts: seq<TokenData>, t: TokenData, known: set<string>, now: Time, after: Pair<User>)
    requires TokensFromAt(before, ts, known, now, after) && (Skipped(t) || t.userId != before.key)
    ensures TokensFromAt(before, ts + [t], known, now, after)
  {
    InSnoc(ts, t);
    forall q | q in after.value.tokens ensures TokenFrom(ts + [t], known, now, before.key, q) {
      TokenStays(ts, t, known, now, before.key, q);
    }
  }

  lemma UserGetsToken(
      before: Pair<User>, ts: seq<TokenData>, t: TokenData, known: set<string>, now: Time, after: Pair<User>)
    requires TokensFromAt(before, ts, known, now, after)
    requires !Skipped(t) && TypeOf(t).TypeName? && t.userId == before.key
    ensures TokensFromAt(before, ts + [t], known, now, Pair(after.key, AddToken(after.value, t, known, now)))
  {
    var v := LoadToken(t, known, now);
    InSnoc(ts, t);
    PutKeys(after.value.tokens, t.id, v);
    PutReplaces(after.value.tokens, t.id, v);
    LoadsIt(t, known, now);
    hide LoadsToken, LoadToken;
    assert LastToken(ts + [t], |ts|, before.key, t.id);
    forall q | q in Put(after.value.tokens, t.id, v) ensures TokenFrom(ts + [t], known, now, before.key, q) {
      if q.key != t.id { TokenStays(ts, t, known, now, before.key, q); }
    }
  }

  lemma LoadsIt(t: TokenData, known: set<string>, now: Time)
    requires !Skipped(t) && TypeOf(t).TypeName?
    ensures LoadsToken(t, known, now, LoadToken(t, known, now))
  {
  }

  lemma TokenStepFrom(
      before: Dict<User>, ts: seq<TokenData>, known: set<string>, now: Time, users: Dict<User>, t: TokenData)
    requires UniqueKeys(before) && TokensFrom(before, ts, known, now, users)
    requires TokenStep(known, now)(users, t).Some?
    ensures TokensFrom(before, ts + [t], known, now, TokenStep(known, now)(users, t).value)
  {
    hide TokensFromAt;
    var r := TokenStep(known, now)(users, t).value;
    forall i | 0 <= i < |before| ensures users[i].key == before[i].key {
      SameKeyAt(before[i], ts, known, now, users[i]);
    }
    SameKeyed(before, users);
    if !Skipped(t) {
      AdjustPlace(users, t.userId, (u: User) => AddToken(u, t, known, now));
      var n := Place(users, t.userId);
      assert r == users[n := Pair(t.userId, AddToken(users[n].value, t, known, now))];
      UserGetsToken(before[n], ts, t, known, now, users[n]);
    }
    forall i | 0 <= i < |before| ensures TokensFromAt(before[i], ts + [t], known, now, r[i]) {
      if Skipped(t) || before[i].key != t.userId {
        OtherUserStays(before[i], ts, t, known, now, users[i]);
      } else {
        OtherKey(before, Place(users, t.userId), i);
      }
    }
  }

  lemma SameKeyAt(before: Pair<User>, ts: seq<TokenData>, known: set<string>, now: Time, after: Pair<User>)
    requires TokensFromAt(before, ts, known, now, after)
    ensures after.key == before.key
  {
  }

  lemma {:induction false} TokensLoaded(before: Dict<User>, ts: seq<TokenData>, known: set<string>, now: Time)
    requires UniqueKeys(before) && (forall p :: p in before ==> p.value.tokens == [])
    requires Fold(TokenStep(known, now), before, ts).Some?
    ensures TokensFrom(before, ts, known, now, Fold(TokenStep(known, now), before, ts).value)
    decreases |ts|
  {
    hide TokenStep, UniqueKeys, TokensFromAt;
    if ts == [] {
      forall i | 0 <= i < |before| ensures TokensFromAt(before[i], [], known, now, before[i]) {
        assert before[i] in before;
        NoTokensAt(before[i], known, now);
      }
    } else {
      var init, t := ts[..|ts| - 1], ts[|ts| - 1];
      TokensLoaded(before, init, known, now);
      TokenStepFrom(before, init, known, now, Fold(TokenStep(known, now), before, init).value, t);
      assert ts == init + [t];
    }
  }

  lemma NoTokensAt(p: Pair<User>, known: set<string>, now: Time)
    requires p.value.tokens == []
    ensures TokensFromAt(p, [], known, now, p)
  {
  }

  // -------------------------------------------------------------- the whole store

  /** A user with everything that is stored for it. */
  ghost predicate UserLoaded(d: AuthData, now: Time, p: Pair<User>) {
    && UserFrom(d, d.users, p)
    && p.value.credentials == Owned(d.credentials, p.key)
    && (forall q :: q in p.value.tokens ==>
          TokenFrom(d.refreshTokens, CredentialIds(d.credentials), now, p.key, q))
    && (forall t :: t in d.refreshTokens && !Skipped(t) && t.userId == p.key ==> Has(p.value.tokens, t.id))
  }

  /** The groups in the store: the three of the system, and the stored ones with a policy. */
  ghost predicate GroupLoaded(gs: seq<GroupData>, p: Pair<Group>) {
    GroupFrom(gs, p) || (IsSystemGroup(p.key) && LoadsGroup(GroupData(p.key, None, None), p.value))
  }

  /** What a load makes of the data. */
  lemma LoadedExactly(d: AuthData, now: Time)
    requires Load(d, now).Some?
    ensures var s := Load(d, now).value;
      && (forall p :: p in s.groups ==> GroupLoaded(d.groups, p))
      && (forall id ::
            Has(s.groups, id) <==> IsSystemGroup(id) || exists g :: g in d.groups && g.id == id && !Orphan(g))
      && (forall p :: p in s.users ==> UserLoaded(d, now, p))
      && (forall id :: Has(s.users, id) <==> exists u :: u in d.users && u.id == id)
  {
    hide GroupsFrom, UsersFrom, CredentialsFrom, TokensFrom, UserLoaded, GroupLoaded, Migrate;
    GroupsLoaded(d.groups);
    var g := Fold(GroupStep(), GroupState([], None), d.groups).value;
    var m := Migrate(g);
    WhoMigrates(d.groups, g);
    UsersLoaded(d, m, d.users);
    var bare := Fold(UserStep(m), [], d.users).value;
    NothingHeld(d, bare);
    CredentialsLoaded(bare, d.credentials);
    var credited := Fold(CredentialStep(), bare, d.credentials).value;
    StillNoTokens(d, bare, credited);
    TokensLoaded(credited, d.refreshTokens, CredentialIds(d.credentials), now);
    StoredGroups(d.groups, g);
    StoredUsers(d, now, bare, credited, Load(d, now).value.users);
  }

  lemma NothingHeld(d: AuthData, bare: Dict<User>)
    requires UsersFrom(d, d.users, bare)
    ensures UniqueKeys(bare) && forall p :: p in bare ==> p.value.credentials == []
  {
  }

  lemma StillNoTokens(d: AuthData, bare: Dict<User>, credited: Dict<User>)
    requires UsersFrom(d, d.users, bare) && CredentialsFrom(bare, d.credentials, credited)
    ensures UniqueKeys(credited) && forall p :: p in credited ==> p.value.tokens == []
  {
    hide UserFrom;
    SameKeyed(bare, credited);
    forall p | p in credited ensures p.value.tokens == [] {
      var i :| 0 <= i < |credited| && credited[i] == p;
      assert bare[i] in bare;
    }
  }

  /** The user is in the groups that were stored for it, and a user of the system in no others. */
  predicate KeepsGroups(u: UserData, v: User) {
    var listed := if u.groupIds.Some? then u.groupIds.value else [];
    listed <= v.groupIds && (v.systemGenerated ==> v.groupIds == listed)
  }

  /** Data from before there were groups: every user but those of the system becomes an
      administrator, and nobody leaves a group. */
  lemma OldUsersBecomeAdministrators(d: AuthData, now: Time, p: Pair<User>)
    requires Load(d, now).Some? && d.groups == [] && p in Load(d, now).value.users
    ensures !p.value.systemGenerated ==> GROUP_ID_ADMIN in p.value.groupIds
    ensures exists u :: u in d.users && u.id == p.key && KeepsGroups(u, p.value)
  {
    LoadedExactly(d, now);
    assert UserLoaded(d, now, p);
    var n: nat :| LastUser(d.users, n, p.key) && LoadsUser(d.users[n], p.value)
      && Memberships(d, d.users[n], p.value.groupIds);
    assert d.users[n] in d.users;
  }

  /** A system group that is not stored is added. */
  lemma SystemAdded(groups: Dict<Group>, id: string)
    requires UniqueKeys(groups) && IsSystemGroup(id)
    ensures UniqueKeys(AddSystemGroup(groups, id))
    ensures forall x :: Has(AddSystemGroup(groups, id), x) <==> x == id || Has(groups, x)
    ensures forall p :: p in AddSystemGroup(groups, id) ==> p in groups || p == Pair(id, SystemGroup(id))
  {
    PutKeys(groups, id, SystemGroup(id));
  }

  lemma StoredGroups(gs: seq<GroupData>, s: GroupState)
    requires GroupsFrom(gs, s)
    ensures forall p :: p in Migrate(s).groups ==> GroupLoaded(gs, p)
    ensures forall id :: Has(Migrate(s).groups, id) <==>
      IsSystemGroup(id) || exists g :: g in gs && g.id == id && !Orphan(g)
  {
    hide LastOrphan;
    var a := AddSystemGroup(s.groups, GROUP_ID_ADMIN);
    var b := AddSystemGroup(a, GROUP_ID_READ_ONLY);
    SystemAdded(s.groups, GROUP_ID_ADMIN);
    SystemAdded(a, GROUP_ID_READ_ONLY);
    SystemAdded(b, GROUP_ID_USER);
    forall id | Has(s.groups, id) ensures exists g :: g in gs && g.id == id && !Orphan(g) {
      var i :| 0 <= i < |s.groups| && s.groups[i].key == id;
      assert s.groups[i] in s.groups;
      var n: nat :| LastGroup(gs, n, id) && LoadsGroup(gs[n], s.groups[i].value);
      assert gs[n] in gs;
    }
    forall id | IsSystemGroup(id) ensures LoadsGroup(GroupData(id, None, None), SystemGroup(id)) {}
  }

  lemma StoredUsers(d: AuthData, now: Time, bare: Dict<User>, credited: Dict<User>, users: Dict<User>)
    requires UsersFrom(d, d.users, bare) && CredentialsFrom(bare, d.credentials, credited)
    requires TokensFrom(credited, d.refreshTokens, CredentialIds(d.credentials), now, users)
    ensures forall p :: p in users ==> UserLoaded(d, now, p)
    ensures forall id :: Has(users, id) <==> exists u :: u in d.users && u.id == id
  {
    hide TokenFrom;
    forall i | 0 <= i < |users| ensures UserLoaded(d, now, users[i]) && users[i].key == bare[i].key {
      assert bare[i] in bare && TokensFromAt(credited[i], d.refreshTokens, CredentialIds(d.credentials), now, users[i]);
      SameUser(d, bare[i], users[i]);
    }
    SameKeyed(bare, users);
    forall id | Has(bare, id) ensures exists u :: u in d.users && u.id == id {
      var i :| 0 <= i < |bare| && bare[i].key == id;
      assert bare[i] in bare;
      var n: nat :| LastUser(d.users, n, id) && LoadsUser(d.users[n], bare[i].value)
        && Memberships(d, d.users[n], bare[i].value.groupIds);
      assert d.users[n] in d.users;
    }
  }

  lemma SameUser(d: AuthData, p: Pair<User>, q: Pair<User>)
    requires UserFrom(d, d.users, p) && q.key == p.key
    requires q.value == p.value.(credentials := q.value.credentials, tokens := q.value.tokens)
    ensures UserFrom(d, d.users, q)
  {
    var n: nat :| LastUser(d.users, n, p.key) && LoadsUser(d.users[n], p.value)
      && Memberships(d, d.users[n], p.value.groupIds);
    assert LoadsUser(d.users[n], q.value) && Memberships(d, d.users[n], q.value.groupIds);
  }

  // ------------------------------------------------------------- what is refused

  predicate GroupKnown(d: AuthData, id: string) {
    IsSystemGroup(id) || OnlyOrphans(d.groups, id) || exists g :: g in d.groups && g.id == id && !Orphan(g)
  }

  predicate UserKnown(d: AuthData, id: string) {
    exists u :: u in d.users && u.id == id
  }

  predicate BadUser(d: AuthData, u: UserData) {
    u.groupIds.Some? && exists id :: id in u.groupIds.value && !GroupKnown(d, id)
  }

  predicate BadToken(d: AuthData, t: TokenData) {
    !Skipped(t) && (t.tokenType == Some(UnknownType) || !UserKnown(d, t.userId))
  }

  lemma UserStepRaises(d: AuthData, m: Migration, users: Dict<User>, u: UserData)
    requires Migrates(d, m) && forall id :: Has(m.groups, id) || OnlyOrphans(d.groups, id) <==> GroupKnown(d, id)
    requires Has(m.groups, GROUP_ID_ADMIN)
    ensures UserStep(m)(users, u).None? <==> BadUser(d, u)
  {
    var listed := if u.groupIds.Some? then u.groupIds.value else [];
    var mapped := MapGroups(m, listed);
    forall i | 0 <= i < |listed| ensures Has(m.groups, mapped[i]) <==> GroupKnown(d, listed[i]) {
      assert m.toAdmin == Some(listed[i]) <==> OnlyOrphans(d.groups, listed[i]);
    }
    if id :| id in mapped && !Has(m.groups, id) {
      var i :| 0 <= i < |mapped| && mapped[i] == id;
      assert listed[i] in listed && !GroupKnown(d, listed[i]);
    }
    if BadUser(d, u) {
      var id :| id in listed && !GroupKnown(d, id);
      var i :| 0 <= i < |listed| && listed[i] == id;
      assert mapped[i] in mapped && !Has(m.groups, mapped[i]);
    }
  }

  lemma UsersRaise(d: AuthData, m: Migration)
    requires Migrates(d, m) && forall id :: Has(m.groups, id) || OnlyOrphans(d.groups, id) <==> GroupKnown(d, id)
    requires Has(m.groups, GROUP_ID_ADMIN)
    ensures Fold(UserStep(m), [], d.users).None? <==> exists u :: u in d.users && BadUser(d, u)
  {
    hide UserStep, BadUser;
    forall users: Dict<User>, u: UserData ensures UserStep(m)(users, u).None? <==> BadUser(d, u) {
      UserStepRaises(d, m, users, u);
    }
    FoldRaisesIff(UserStep(m), (users: Dict<User>) => true, (u: UserData) => BadUser(d, u), [], d.users);
  }

  predicate SameKeysAs(bare: Dict<User>, users: Dict<User>) {
    |users| == |bare| && forall i :: 0 <= i < |bare| ==> users[i].key == bare[i].key
  }

  lemma CredentialsRaise(bare: Dict<User>, cs: seq<CredentialData>)
    ensures Fold(CredentialStep(), bare, cs).None? <==> exists c :: c in cs && !Has(bare, c.userId)
  {
    forall users: Dict<User>, c: CredentialData | SameKeysAs(bare, users)
      ensures CredentialStep()(users, c).None? <==> !Has(bare, c.userId)
      ensures CredentialStep()(users, c).Some? ==> SameKeysAs(bare, CredentialStep()(users, c).value)
    {
      SameKeyed(bare, users);
    }
    FoldRaisesIff(CredentialStep(), (users: Dict<User>) => SameKeysAs(bare, users),
                  (c: CredentialData) => !Has(bare, c.userId), bare, cs);
  }

  lemma TokensRaise(d: AuthData, before: Dict<User>, known: set<string>, now: Time)
    requires forall id :: Has(before, id) <==> UserKnown(d, id)
    ensures Fold(TokenStep(known, now), before, d.refreshTokens).None?
       <==> exists t :: t in d.refreshTokens && BadToken(d, t)
  {
    var step := TokenStep(known, now);
    forall users: Dict<User>, t: TokenData | SameKeysAs(before, users)
      ensures step(users, t).None? <==> BadToken(d, t)
      ensures step(users, t).Some? ==> SameKeysAs(before, step(users, t).value)
    {
      SameKeyed(before, users);
    }
    FoldRaisesIff(step, (users: Dict<User>) => SameKeysAs(before, users), (t: TokenData) => BadToken(d, t),
                  before, d.refreshTokens);
  }

  /** Data are refused if and only if a user is in a group that is not stored and that nobody
      is moved out of, a credential belongs to nobody, or a token that is not skipped belongs to
      nobody or has an unknown type. */
  lemma LoadRaisesIff(d: AuthData, now: Time)
    ensures Load(d, now).None? <==>
      || (exists u :: u in d.users && BadUser(d, u))
      || (exists c :: c in d.credentials && !UserKnown(d, c.userId))
      || (exists t :: t in d.refreshTokens && BadToken(d, t))
  {
    hide GroupsFrom, UsersFrom, Migrate, BadUser, BadToken, UserKnown, GroupKnown, Migrates;
    GroupsLoaded(d.groups);
    var g := Fold(GroupStep(), GroupState([], None), d.groups).value;
    var m := Migrate(g);
    MigrationKnown(d, g);
    UsersRaise(d, m);
    if Fold(UserStep(m), [], d.users).Some? {
      UsersLoaded(d, m, d.users);
      var bare := Fold(UserStep(m), [], d.users).value;
      UsersAreKnown(d, bare);
      CredentialsRaise(bare, d.credentials);
      if Fold(CredentialStep(), bare, d.credentials).Some? {
        NothingHeld(d, bare);
        CredentialsLoaded(bare, d.credentials);
        var credited := Fold(CredentialStep(), bare, d.credentials).value;
        SameKeyed(bare, credited);
        TokensRaise(d, credited, CredentialIds(d.credentials), now);
      }
    }
  }

  lemma MigrationKnown(d: AuthData, s: GroupState)
    requires GroupsFrom(d.groups, s)
    ensures Migrates(d, Migrate(s)) && Has(Migrate(s).groups, GROUP_ID_ADMIN)
    ensures forall id :: Has(Migrate(s).groups, id) || OnlyOrphans(d.groups, id) <==> GroupKnown(d, id)
  {
    WhoMigrates(d.groups, s);
    StoredGroups(d.groups, s);
  }

  lemma UsersAreKnown(d: AuthData, bare: Dict<User>)
    requires UsersFrom(d, d.users, bare)
    ensures forall id :: Has(bare, id) <==> UserKnown(d, id)
  {
    forall id | Has(bare, id) ensures UserKnown(d, id) {
      var i :| 0 <= i < |bare| && bare[i].key == id;
      assert bare[i] in bare;
      var n: nat :| LastUser(d.users, n, id) && LoadsUser(d.users[n], bare[i].value)
        && Memberships(d, d.users[n], bare[i].value.groupIds);
      assert d.users[n] in d.users;
    }
  }
}
