/** Loading after saving restores the auth store, and loading is a normaliser. */
module AuthRoundTrip {
  import opened Options
  import opened Dicts
  import opened AuthModel

  // ------------------------------------------------------------- groups and users

  lemma NotYet<V>(d: Dict<V>, n: nat)
    requires UniqueKeys(d) && n < |d|
    ensures !Has(d[..n], d[n].key)
  {
  }

  lemma PutNext<V>(d: Dict<V>, n: nat)
    requires UniqueKeys(d) && n < |d|
    ensures Put(d[..n], d[n].key, d[n].value) == d[..n + 1]
  {
    NotYet(d, n);
    PutNew(d[..n], d[n].key, d[n].value);
  }

  lemma {:induction false} GroupsBack(s: Store, n: nat)
    requires WellFormed(s) && n <= |s.groups|
    ensures Fold(GroupStep(), GroupState([], None), Save(s).groups[..n]) == Some(GroupState(s.groups[..n], None))
  {
    if n > 0 {
      var saved := Save(s).groups;
      GroupsBack(s, n - 1);
      assert saved[..n][..n - 1] == saved[..n - 1];
      assert s.groups[n - 1] in s.groups && GroupOk(s.groups[n - 1]);
      PutNext(s.groups, n - 1);
    }
  }

  lemma MigrationIsIdentity(s: Store)
    requires WellFormed(s)
    ensures Migrate(GroupState(s.groups, None)) == Migration(s.groups, None, false)
  {
  }

  function Bare(u: User): User {
    u.(credentials := [], tokens := [])
  }

  function WithoutTokens(u: User): User {
    u.(tokens := [])
  }

  lemma {:induction false} UsersBack(s: Store, n: nat)
    requires WellFormed(s) && n <= |s.users|
    ensures Fold(UserStep(Migration(s.groups, None, false)), [], Save(s).users[..n])
      == Some(MapUsers(s.users, Bare)[..n])
  {
    var m, bare := Migration(s.groups, None, false), MapUsers(s.users, Bare);
    if n > 0 {
      var saved, u := Save(s).users, s.users[n - 1].value;
      UsersBack(s, n - 1);
      assert saved[..n][..n - 1] == saved[..n - 1];
      assert s.users[n - 1] in s.users && UserOk(s.groups, s.users[n - 1]);
      var mapped := MapGroups(m, u.groupIds);
      assert mapped == u.groupIds && mapped + [] == mapped;
      assert bare[n - 1] == Pair(u.id, Bare(u));
      assert UserStep(m)(bare[..n - 1], saved[n - 1]) == Some(Put(bare[..n - 1], u.id, Bare(u)));
      PutNext(bare, n - 1);
    }
  }

  // ---------------------------------------------------------- credentials, tokens

  /** The users when the lists of the first `n` of them have been delivered. */
  function Mixed(users: Dict<User>, n: nat, after: User -> User, before: User -> User): (r: Dict<User>)
    ensures |r| == |users|
    ensures forall i :: 0 <= i < |users| ==>
      r[i] == Pair(users[i].key, if i < n then after(users[i].value) else before(users[i].value))
  {
    seq(|users|, i requires 0 <= i < |users| =>
      Pair(users[i].key, if i < n then after(users[i].value) else before(users[i].value)))
  }

  lemma MixedEnds(users: Dict<User>, after: User -> User, before: User -> User)
    ensures Mixed(users, 0, after, before) == MapUsers(users, before)
    ensures Mixed(users, |users|, after, before) == MapUsers(users, after)
  {
  }

  /** One list per user, each delivered to its own user, turns every `before` into `after`. */
  lemma {:induction false} DeliverToUsers<D>(users: Dict<User>, n: nat, after: User -> User, before: User -> User,
      step: (Dict<User>, D) -> Option<Dict<User>>, g: (User, D) -> User, list: User -> seq<D>)
    requires n <= |users|
    requires forall i :: 0 <= i < |users| ==>
      ApplyAll(g, before(users[i].value), list(users[i].value)) == after(users[i].value)
    requires forall i, item :: 0 <= i < |users| && item in list(users[i].value) ==>
      Delivers(step, g, Mixed(users, i, after, before), i, item)
    ensures Fold(step, Mixed(users, 0, after, before), PerUser(users[..n], list))
      == Some(Mixed(users, n, after, before))
  {
    if n > 0 {
      var u := users[n - 1].value;
      DeliverToUsers(users, n - 1, after, before, step, g, list);
      assert users[..n][..n - 1] == users[..n - 1];
      FoldAppend(step, Mixed(users, 0, after, before), PerUser(users[..n - 1], list), list(u));
      var d := Mixed(users, n - 1, after, before);
      DeliverAll(step, g, d, n - 1, list(u));
      assert d[n - 1 := Pair(d[n - 1].key, after(u))] == Mixed(users, n, after, before);
    }
  }

  lemma CredentialDelivered(d: Dict<User>, n: nat, c: CredentialData)
    requires UniqueKeys(d) && n < |d| && c.userId == d[n].key
    ensures Delivers(CredentialStep(), AddCredential, d, n, c)
  {
    forall v: User
      ensures CredentialStep()(d[n := Pair(d[n].key, v)], c) == Some(d[n := Pair(d[n].key, AddCredential(v, c))])
    {
      var e := d[n := Pair(d[n].key, v)];
      KeptKeys(d, n, v);
      var add := (u: User) => AddCredential(u, c);
      AdjustAt(e, n, add);
      assert CredentialStep()(e, c) == Some(Adjust(e, d[n].key, add));
      assert e[n := Pair(d[n].key, add(v))] == d[n := Pair(d[n].key, AddCredential(v, c))];
    }
  }

  lemma {:induction false} CredentialsApplied(u: User, m: nat)
    requires m <= |u.credentials|
    ensures ApplyAll(AddCredential, Bare(u), SaveCredentials(u)[..m]) == Bare(u).(credentials := u.credentials[..m])
  {
    if m > 0 {
      CredentialsApplied(u, m - 1);
      assert SaveCredentials(u)[..m][..m - 1] == SaveCredentials(u)[..m - 1];
      assert u.credentials[..m] == u.credentials[..m - 1] + [u.credentials[m - 1]];
    }
  }

  lemma CredentialsBack(s: Store)
    requires WellFormed(s)
    ensures Fold(CredentialStep(), MapUsers(s.users, Bare), Save(s).credentials)
      == Some(MapUsers(s.users, WithoutTokens))
  {
    var users := s.users;
    forall i | 0 <= i < |users|
      ensures ApplyAll(AddCredential, Bare(users[i].value), SaveCredentials(users[i].value))
        == WithoutTokens(users[i].value)
    {
      var u := users[i].value;
      CredentialsApplied(u, |u.credentials|);
      assert SaveCredentials(u)[..|u.credentials|] == SaveCredentials(u);
      assert u.credentials[..|u.credentials|] == u.credentials;
    }
    forall i, item | 0 <= i < |users| && item in SaveCredentials(users[i].value)
      ensures Delivers(CredentialStep(), AddCredential, Mixed(users, i, WithoutTokens, Bare), i, item)
    {
      assert users[i] in users && UserOk(s.groups, users[i]);
      CredentialDelivered(Mixed(users, i, WithoutTokens, Bare), i, item);
    }
    DeliverToUsers(users, |users|, WithoutTokens, Bare, CredentialStep(), AddCredential, SaveCredentials);
    MixedEnds(users, WithoutTokens, Bare);
    assert users[..|users|] == users;
  }

  /** Adding a stored token to a user, if it is one that loading accepts. */
  function TokenAdder(known: set<string>, now: Time): (User, TokenData) -> User {
    (u: User, t: TokenData) =>
      if Skipped(t) || TypeOf(t).UnknownType? then u else AddToken(u, t, known, now)
  }

  lemma TokenDelivered(d: Dict<User>, n: nat, t: TokenData, known: set<string>, now: Time)
    requires UniqueKeys(d) && n < |d| && t.userId == d[n].key
    requires !Skipped(t) && TypeOf(t).TypeName?
    ensures Delivers(TokenStep(known, now), TokenAdder(known, now), d, n, t)
  {
    forall v: User
      ensures TokenStep(known, now)(d[n := Pair(d[n].key, v)], t) ==
              Some(d[n := Pair(d[n].key, TokenAdder(known, now)(v, t))])
    {
      var e := d[n := Pair(d[n].key, v)];
      KeptKeys(d, n, v);
      var add := (u: User) => AddToken(u, t, known, now);
      AdjustAt(e, n, add);
      assert TokenStep(known, now)(e, t) == Some(Adjust(e, d[n].key, add));
      assert e[n := Pair(d[n].key, add(v))] == d[n := Pair(d[n].key, TokenAdder(known, now)(v, t))];
    }
  }

  lemma {:induction false} TokensApplied(u: User, known: set<string>, now: Time, m: nat)
    requires m <= |u.tokens| && UniqueKeys(u.tokens) && forall t :: t in u.tokens ==> TokenOk(t)
    ensures ApplyAll(TokenAdder(known, now), WithoutTokens(u), SaveTokens(u)[..m])
         == u.(tokens := NormalTokens(u.tokens, known, now)[..m])
  {
    if m > 0 {
      var normal, t := NormalTokens(u.tokens, known, now), u.tokens[m - 1];
      TokensApplied(u, known, now, m - 1);
      assert SaveTokens(u)[..m][..m - 1] == SaveTokens(u)[..m - 1];
      assert t in u.tokens && TokenOk(t);
      assert LoadToken(SaveToken(u, t.value), known, now) == NormalToken(t.value, known, now);
      PutNext(normal, m - 1);
    }
  }

  lemma TokensBack(s: Store, known: set<string>, now: Time)
    requires WellFormed(s)
    ensures Fold(TokenStep(known, now), MapUsers(s.users, WithoutTokens), Save(s).refreshTokens)
         == Some(MapUsers(s.users, (u: User) => NormalUser(u, known, now)))
  {
    var users, normal := s.users, (u: User) => NormalUser(u, known, now);
    var g, step := TokenAdder(known, now), TokenStep(known, now);
    forall i | 0 <= i < |users|
      ensures ApplyAll(g, WithoutTokens(users[i].value), SaveTokens(users[i].value)) == normal(users[i].value)
    {
      var u := users[i].value;
      assert users[i] in users && UserOk(s.groups, users[i]);
      TokensApplied(u, known, now, |u.tokens|);
      assert SaveTokens(u)[..|u.tokens|] == SaveTokens(u);
      assert NormalTokens(u.tokens, known, now)[..|u.tokens|] == NormalTokens(u.tokens, known, now);
    }
    forall i, item | 0 <= i < |users| && item in SaveTokens(users[i].value)
      ensures Delivers(step, g, Mixed(users, i, normal, WithoutTokens), i, item)
    {
      assert users[i] in users && UserOk(s.groups, users[i]);
      TokenDelivered(Mixed(users, i, normal, WithoutTokens), i, item, known, now);
    }
    DeliverToUsers(users, |users|, normal, WithoutTokens, step, g, SaveTokens);
    MixedEnds(users, normal, WithoutTokens);
    assert users[..|users|] == users;
  }

  // ---------------------------------------------------------------- round trip

  /** Loading what was saved gives the store back, except that missing expiries of normal
      tokens are filled in and dangling credential links are dropped. */
  lemma LoadAfterSave(s: Store, now: Time)
    requires WellFormed(s)
    ensures Load(Save(s), now) == Some(Normalised(s, now))
  {
    GroupsBack(s, |s.groups|);
    assert Save(s).groups[..|s.groups|] == Save(s).groups && s.groups[..|s.groups|] == s.groups;
    MigrationIsIdentity(s);
    UsersBack(s, |s.users|);
    assert Save(s).users[..|s.users|] == Save(s).users;
    assert MapUsers(s.users, Bare)[..|s.users|] == MapUsers(s.users, Bare);
    CredentialsBack(s);
    TokensBack(s, Known(s), now);
  }

  lemma NormalTokenIffSettled(t: Token, known: set<string>, now: Time)
    ensures NormalToken(t, known, now) == t <==> TokenSettled(t, known)
  {
  }

  lemma NormalisedIffSettled(s: Store, now: Time)
    ensures Normalised(s, now) == s <==> Settled(s)
  {
    var known := Known(s);
    var users := Normalised(s, now).users;
    if Settled(s) {
      forall i | 0 <= i < |users|
        ensures users[i] == s.users[i]
      {
        var ts := s.users[i].value.tokens;
        assert s.users[i] in s.users;
        forall j | 0 <= j < |ts| ensures NormalTokens(ts, known, now)[j] == ts[j] {
          assert ts[j] in ts;
          NormalTokenIffSettled(ts[j].value, known, now);
        }
        assert NormalTokens(ts, known, now) == ts;
      }
    }
    if Normalised(s, now) == s {
      forall p, t | p in s.users && t in p.value.tokens
        ensures TokenSettled(t.value, known)
      {
        var i :| 0 <= i < |s.users| && s.users[i] == p;
        assert users[i] == Pair(p.key, NormalUser(p.value, known, now));
        var j :| 0 <= j < |p.value.tokens| && p.value.tokens[j] == t;
        assert NormalTokens(p.value.tokens, known, now)[j] == t;
        NormalTokenIffSettled(t.value, known, now);
      }
    }
  }

  /** Exactness: a well-formed store survives saving and loading unchanged if and only if
      its normal tokens carry an expiry and its token credentials still exist. */
  lemma RoundTripIffSettled(s: Store, now: Time)
    requires WellFormed(s)
    ensures Load(Save(s), now) == Some(s) <==> Settled(s)
  {
    LoadAfterSave(s, now);
    NormalisedIffSettled(s, now);
  }
}
