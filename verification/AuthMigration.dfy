/** Whatever auth data loads, loads into a store that saving and loading keeps. */
module AuthMigration {
  import opened Options
  import opened Dicts
  import opened AuthModel
  import opened AuthRoundTrip

  // ------------------------------------------------------------------- groups

  predicate GroupsOk(groups: Dict<Group>) {
    UniqueKeys(groups) && forall p :: p in groups ==> GroupOk(p)
  }

  lemma GroupsLoad(gs: seq<GroupData>)
    ensures Fold(GroupStep(), GroupState([], None), gs).Some? ==>
      GroupsOk(Fold(GroupStep(), GroupState([], None), gs).value.groups)
  {
    var inv := (s: GroupState) => GroupsOk(s.groups);
    forall g | g in gs
      ensures Keeps(GroupStep(), inv, g)
    {
      forall s: GroupState | inv(s) && GroupStep()(s, g).Some?
        ensures inv(GroupStep()(s, g).value)
      {
        PutKeys(s.groups, g.id, SystemGroup(if IsSystemGroup(g.id) then g.id else GROUP_ID_USER));
        if g.policy.Some? { PutKeys(s.groups, g.id, Group(g.id, g.name, g.policy.value, false)); }
      }
    }
    FoldKeeps(GroupStep(), inv, GroupState([], None), gs);
  }

  lemma SystemGroupAdded(groups: Dict<Group>, id: string)
    requires GroupsOk(groups) && IsSystemGroup(id)
    ensures GroupsOk(AddSystemGroup(groups, id))
    ensures Has(AddSystemGroup(groups, id), id)
    ensures forall x :: Has(groups, x) ==> Has(AddSystemGroup(groups, id), x)
  {
    PutKeys(groups, id, SystemGroup(id));
  }

  lemma SystemGroupsAdded(groups: Dict<Group>)
    requires GroupsOk(groups)
    ensures GroupsOk(AddSystemGroups(groups))
    ensures forall id :: IsSystemGroup(id) ==> Has(AddSystemGroups(groups), id)
  {
    var a := AddSystemGroup(groups, GROUP_ID_ADMIN);
    var b := AddSystemGroup(a, GROUP_ID_READ_ONLY);
    SystemGroupAdded(groups, GROUP_ID_ADMIN);
    SystemGroupAdded(a, GROUP_ID_READ_ONLY);
    SystemGroupAdded(b, GROUP_ID_USER);
  }

  // -------------------------------------------------------------------- users

  predicate UsersOk(groups: Dict<Group>, users: Dict<User>) {
    UniqueKeys(users) && forall p :: p in users ==> UserOk(groups, p)
  }

  lemma UserStepKeeps(m: Migration, users: Dict<User>, u: UserData)
    requires UsersOk(m.groups, users) && Has(m.groups, GROUP_ID_ADMIN)
    ensures UserStep(m)(users, u).Some? ==> UsersOk(m.groups, UserStep(m)(users, u).value)
  {
    var mapped := MapGroups(m, if u.groupIds.Some? then u.groupIds.value else []);
    if forall id :: id in mapped ==> Has(m.groups, id) {
      var groupIds := mapped + (if !u.systemGenerated && m.allToAdmin then [GROUP_ID_ADMIN] else []);
      PutKeys(users, u.id, User(u.id, u.name, groupIds, u.isOwner, u.isActive, u.systemGenerated,
                                u.localOnly == Some(true), [], []));
    }
  }

  lemma UsersLoad(m: Migration, us: seq<UserData>)
    requires Has(m.groups, GROUP_ID_ADMIN)
    ensures Fold(UserStep(m), [], us).Some? ==> UsersOk(m.groups, Fold(UserStep(m), [], us).value)
  {
    var inv := (users: Dict<User>) => UsersOk(m.groups, users);
    forall u | u in us
      ensures Keeps(UserStep(m), inv, u)
    {
      forall users: Dict<User> | inv(users)
        ensures UserStep(m)(users, u).Some? ==> inv(UserStep(m)(users, u).value)
      {
        UserStepKeeps(m, users, u);
      }
    }
    FoldKeeps(UserStep(m), inv, [], us);
  }

  // -------------------------------------------------------------- credentials

  /** Some user has a credential with this id. */
  predicate Holds(users: Dict<User>, id: string) {
    exists i, j :: 0 <= i < |users| && 0 <= j < |users[i].value.credentials| && users[i].value.credentials[j].id == id
  }

  lemma ChangedUser(groups: Dict<Group>, users: Dict<User>, i: nat, v: User)
    requires UsersOk(groups, users) && i < |users| && UserOk(groups, Pair(users[i].key, v))
    requires users[i].value.credentials <= v.credentials
    ensures UsersOk(groups, users[i := Pair(users[i].key, v)])
    ensures forall id :: Holds(users, id) ==> Holds(users[i := Pair(users[i].key, v)], id)
  {
    var r := users[i := Pair(users[i].key, v)];
    KeptKeys(users, i, v);
    forall id | Holds(users, id)
      ensures Holds(r, id)
    {
      var n, j :| 0 <= n < |users| && 0 <= j < |users[n].value.credentials| && users[n].value.credentials[j].id == id;
      assert r[n].value.credentials[j].id == id;
    }
  }

  lemma CredentialStepKeeps(groups: Dict<Group>, users: Dict<User>, c: CredentialData)
    requires UsersOk(groups, users) && CredentialStep()(users, c).Some?
    ensures UsersOk(groups, CredentialStep()(users, c).value)
    ensures Holds(CredentialStep()(users, c).value, c.id)
    ensures forall id :: Holds(users, id) ==> Holds(CredentialStep()(users, c).value, id)
  {
    AdjustPlace(users, c.userId, (u: User) => AddCredential(u, c));
    var i := Place(users, c.userId);
    var v := AddCredential(users[i].value, c);
    assert users[i] in users;
    assert UserOk(groups, Pair(users[i].key, v));
    ChangedUser(groups, users, i, v);
    var r := users[i := Pair(users[i].key, v)];
    assert CredentialStep()(users, c) == Some(r);
    assert r[i].value.credentials[|v.credentials| - 1].id == c.id;
  }

  lemma {:induction false} CredentialsLoad(groups: Dict<Group>, users: Dict<User>, cs: seq<CredentialData>)
    requires UsersOk(groups, users) && Fold(CredentialStep(), users, cs).Some?
    ensures UsersOk(groups, Fold(CredentialStep(), users, cs).value)
    ensures forall id :: id in CredentialIds(cs) ==> Holds(Fold(CredentialStep(), users, cs).value, id)
  {
    if cs != [] {
      var init, c := cs[..|cs| - 1], cs[|cs| - 1];
      CredentialsLoad(groups, users, init);
      CredentialStepKeeps(groups, Fold(CredentialStep(), users, init).value, c);
      assert forall x :: x in cs ==> x in init || x == c;
    }
  }

  // ------------------------------------------------------------------- tokens

  predicate UserSettled(u: User, known: set<string>) {
    forall t :: t in u.tokens ==> TokenSettled(t.value, known)
  }

  predicate UsersSettled(users: Dict<User>, known: set<string>) {
    forall p :: p in users ==> UserSettled(p.value, known)
  }

  predicate HoldAll(users: Dict<User>, known: set<string>) {
    forall id :: id in known ==> Holds(users, id)
  }

  predicate TokensOk(groups: Dict<Group>, users: Dict<User>, known: set<string>) {
    UsersOk(groups, users) && UsersSettled(users, known) && HoldAll(users, known)
  }

  lemma TokenAdded(groups: Dict<Group>, p: Pair<User>, t: TokenData, known: set<string>, now: Time)
    requires UserOk(groups, p) && UserSettled(p.value, known) && !Skipped(t) && TypeOf(t).TypeName?
    ensures UserOk(groups, Pair(p.key, AddToken(p.value, t, known, now)))
    ensures UserSettled(AddToken(p.value, t, known, now), known)
  {
    PutKeys(p.value.tokens, t.id, LoadToken(t, known, now));
  }

  lemma TokenStepKeeps(groups: Dict<Group>, users: Dict<User>, t: TokenData, known: set<string>, now: Time)
    requires TokensOk(groups, users, known) && TokenStep(known, now)(users, t).Some?
    ensures TokensOk(groups, TokenStep(known, now)(users, t).value, known)
  {
    if !Skipped(t) {
      AdjustPlace(users, t.userId, (u: User) => AddToken(u, t, known, now));
      var i := Place(users, t.userId);
      var v := AddToken(users[i].value, t, known, now);
      assert users[i] in users;
      TokenAdded(groups, users[i], t, known, now);
      ChangedUser(groups, users, i, v);
      assert TokenStep(known, now)(users, t) == Some(users[i := Pair(users[i].key, v)]);
    }
  }

  lemma TokensLoad(groups: Dict<Group>, users: Dict<User>, ts: seq<TokenData>, known: set<string>, now: Time)
    requires TokensOk(groups, users, known)
    ensures Fold(TokenStep(known, now), users, ts).Some? ==>
      TokensOk(groups, Fold(TokenStep(known, now), users, ts).value, known)
  {
    var step, inv := TokenStep(known, now), (us: Dict<User>) => TokensOk(groups, us, known);
    forall t | t in ts
      ensures Keeps(step, inv, t)
    {
      forall us: Dict<User> | inv(us) && step(us, t).Some?
        ensures inv(step(us, t).value)
      {
        TokenStepKeeps(groups, us, t, known, now);
      }
    }
    FoldKeeps(step, inv, users, ts);
  }

  // --------------------------------------------------------------- the theorem

  lemma {:induction false} InPerUser<D>(users: Dict<User>, list: User -> seq<D>, i: nat, item: D)
    requires i < |users| && item in list(users[i].value)
    ensures item in PerUser(users, list)
  {
    if i < |users| - 1 {
      InPerUser(users[..|users| - 1], list, i, item);
    }
  }

  lemma HeldIsKnown(s: Store, id: string)
    requires Holds(s.users, id)
    ensures id in Known(s)
  {
    var i, j :| 0 <= i < |s.users| && 0 <= j < |s.users[i].value.credentials|
                && s.users[i].value.credentials[j].id == id;
    var u := s.users[i].value;
    var c := SaveCredentials(u)[j];
    assert c in SaveCredentials(u) && c.id == id;
    InPerUser(s.users, SaveCredentials, i, c);
    assert c in Save(s).credentials;
  }

  /** Whatever loads is keyed by id, has the three system groups, keeps its references
      inside the store, and every normal token carries an expiry. */
  lemma LoadedIsSettled(d: AuthData, now: Time)
    requires Load(d, now).Some?
    ensures WellFormed(Load(d, now).value) && Settled(Load(d, now).value)
  {
    var g := Fold(GroupStep(), GroupState([], None), d.groups).value;
    GroupsLoad(d.groups);
    SystemGroupsAdded(g.groups);
    var m := Migrate(g);
    UsersLoad(m, d.users);
    var bare := Fold(UserStep(m), [], d.users).value;
    CredentialsLoad(m.groups, bare, d.credentials);
    var known := CredentialIds(d.credentials);
    var users := Fold(CredentialStep(), bare, d.credentials).value;
    NoTokensYet(m, d.users, d.credentials, known);
    TokensLoad(m.groups, users, d.refreshTokens, known, now);
    var s := Load(d, now).value;
    assert TokensOk(s.groups, s.users, known);
    forall id | id in known ensures id in Known(s) { HeldIsKnown(s, id); }
    assert forall p :: p in s.users ==> UserSettled(p.value, known);
  }

  predicate NoTokens(users: Dict<User>) {
    forall i :: 0 <= i < |users| ==> users[i].value.tokens == []
  }

  lemma {:induction false} PutNoTokens(users: Dict<User>, k: string, u: User)
    requires NoTokens(users) && u.tokens == []
    ensures NoTokens(Put(users, k, u))
    decreases |users|
  {
    if users != [] { PutNoTokens(users[1..], k, u); }
  }

  lemma {:induction false} AdjustNoTokens(users: Dict<User>, k: string, f: User -> User)
    requires NoTokens(users) && forall u: User :: u.tokens == [] ==> f(u).tokens == []
    ensures NoTokens(Adjust(users, k, f))
    decreases |users|
  {
    if users != [] { AdjustNoTokens(users[1..], k, f); }
  }

  lemma NoTokensYet(m: Migration, us: seq<UserData>, cs: seq<CredentialData>, known: set<string>)
    requires Fold(UserStep(m), [], us).Some?
    requires Fold(CredentialStep(), Fold(UserStep(m), [], us).value, cs).Some?
    ensures UsersSettled(Fold(CredentialStep(), Fold(UserStep(m), [], us).value, cs).value, known)
    ensures NoTokens(Fold(CredentialStep(), Fold(UserStep(m), [], us).value, cs).value)
  {
    var inv := (users: Dict<User>) => NoTokens(users);
    forall u | u in us
      ensures Keeps(UserStep(m), inv, u)
    {
      forall users: Dict<User> | inv(users) && UserStep(m)(users, u).Some?
        ensures inv(UserStep(m)(users, u).value)
      {
        var mapped := MapGroups(m, if u.groupIds.Some? then u.groupIds.value else []);
        var groupIds := mapped + (if !u.systemGenerated && m.allToAdmin then [GROUP_ID_ADMIN] else []);
        PutNoTokens(users, u.id, User(u.id, u.name, groupIds, u.isOwner, u.isActive, u.systemGenerated,
                                      u.localOnly == Some(true), [], []));
      }
    }
    FoldKeeps(UserStep(m), inv, [], us);
    var bare := Fold(UserStep(m), [], us).value;
    forall c | c in cs
      ensures Keeps(CredentialStep(), inv, c)
    {
      forall users: Dict<User> | inv(users) && CredentialStep()(users, c).Some?
        ensures inv(CredentialStep()(users, c).value)
      {
        AdjustNoTokens(users, c.userId, (u: User) => AddCredential(u, c));
      }
    }
    FoldKeeps(CredentialStep(), inv, bare, cs);
  }

  /** Loading is a normaliser: after one load, any number of saves and later loads give the
      same store, and the same data on disk. */
  lemma LoadIsNormaliser(d: AuthData, now: Time, later: Time)
    requires Load(d, now).Some?
    ensures Load(Save(Load(d, now).value), later) == Load(d, now)
    ensures Save(Load(Save(Load(d, now).value), later).value) == Save(Load(d, now).value)
  {
    LoadedIsSettled(d, now);
    RoundTripIffSettled(Load(d, now).value, later);
  }
}
