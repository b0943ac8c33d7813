/** Refresh tokens and their expiry timer, homeassistant/auth/__init__.py. */
module AuthManagers {
  import opened Options
  import opened Dicts
  import opened AuthModel
  import opened AuthRoundTrip
  import opened AuthTokens
  import opened AuthStores

  datatype CreateError =
    | UserInactive | ClientOfSystemUser | SystemTypeMismatch | ClientRequired | ClientNameRequired
    | ClientNameTaken | InvalidType

  datatype Created = Issued(token: Token) | Refused(error: CreateError)

  /** The arguments of `async_create_refresh_token`. */
  datatype Request = Request(
    clientId: Option<string>, clientName: Option<string>, clientIcon: Option<string>,
    tokenType: Option<TypeText>, accessTokenExpiration: int, credential: Option<string>)

  /** The parts of a new token that are drawn at random. */
  datatype Secrets = Secrets(id: string, token: string, jwtKey: string)

  function TypeFor(u: User, r: Request): TypeText {
    if r.tokenType.Some? then r.tokenType.value else TypeName(if u.systemGenerated then System else Normal)
  }

  predicate NameTaken(u: User, name: Option<string>) {
    exists q :: q in u.tokens && q.value.clientName == name && q.value.tokenType == LongLivedAccessToken
  }

  /** Empty names and icons are not stored. */
  function NonEmpty(s: Option<string>): Option<string> {
    if s == Some("") then None else s
  }

  /** The checks of `async_create_refresh_token`, in order. */
  function Refusal(u: User, r: Request): Option<CreateError> {
    var kind := TypeFor(u, r);
    if !u.isActive then Some(UserInactive)
    else if u.systemGenerated && r.clientId.Some? then Some(ClientOfSystemUser)
    else if u.systemGenerated != (kind == TypeName(System)) then Some(SystemTypeMismatch)
    else if kind == TypeName(Normal) && r.clientId.None? then Some(ClientRequired)
    else if kind == TypeName(LongLivedAccessToken) && r.clientName.None? then Some(ClientNameRequired)
    else if kind == TypeName(LongLivedAccessToken) && NameTaken(u, r.clientName) then Some(ClientNameTaken)
    else if kind.UnknownType? then Some(InvalidType)
    else None
  }

  function NewToken(u: User, r: Request, secrets: Secrets, now: Time, version: Option<string>): Token
    requires TypeFor(u, r).TypeName?
  {
    var kind := TypeFor(u, r).tokenType;
    Token(secrets.id, r.clientId, NonEmpty(r.clientName), NonEmpty(r.clientIcon), kind, now,
                r.accessTokenExpiration, secrets.token, secrets.jwtKey, None, None,
                if kind == Normal then Some(now + REFRESH_TOKEN_EXPIRATION) else None, r.credential, version)
  }

  /** The user has a long-lived token of this name. */
  predicate HasNamed(u: User, name: Option<string>) {
    exists i :: 0 <= i < |u.tokens| &&
      u.tokens[i].value.tokenType == LongLivedAccessToken && u.tokens[i].value.clientName == name
  }

  /** Who may have a token: an active user; a system user one of the system, for no client; any
      other a normal one for a client, or a long-lived one under a name of its own. */
  predicate Allowed(u: User, r: Request) {
    && u.isActive
    && if u.systemGenerated then r.clientId == None && (r.tokenType == None || r.tokenType == Some(TypeName(System)))
       else match r.tokenType
         case None => r.clientId.Some?
         case Some(UnknownType) => false
         case Some(TypeName(System)) => false
         case Some(TypeName(Normal)) => r.clientId.Some?
         case Some(TypeName(LongLivedAccessToken)) => r.clientName.Some? && !HasNamed(u, r.clientName)
  }

  lemma RefusedIffNotAllowed(u: User, r: Request)
    ensures Refusal(u, r).None? <==> Allowed(u, r)
  {
    if q :| q in u.tokens && q.value.clientName == r.clientName && q.value.tokenType == LongLivedAccessToken {
      var i :| 0 <= i < |u.tokens| && u.tokens[i] == q;
      assert HasNamed(u, r.clientName);
    }
    if i :| 0 <= i < |u.tokens| && u.tokens[i].value.tokenType == LongLivedAccessToken
              && u.tokens[i].value.clientName == r.clientName {
      assert u.tokens[i] in u.tokens;
    }
  }

  /** What is issued: a token as requested, which expires after ninety days if and only if it is
      a normal one; an empty name or icon counts as none. */
  predicate IssuedAs(u: User, r: Request, secrets: Secrets, now: Time, version: Option<string>, t: Token) {
    && t.id == secrets.id && t.token == secrets.token && t.jwtKey == secrets.jwtKey
    && t.createdAt == now && t.lastUsedAt == None && t.lastUsedIp == None && t.version == version
    && t.clientId == r.clientId && t.credential == r.credential && t.accessTokenExpiration == r.accessTokenExpiration
    && t.clientName == (if r.clientName == Some("") then None else r.clientName)
    && t.clientIcon == (if r.clientIcon == Some("") then None else r.clientIcon)
    && (match r.tokenType
        case Some(kind) => kind == TypeName(t.tokenType)
        case None => t.tokenType == if u.systemGenerated then System else Normal)
    && t.expireAt == if t.tokenType == Normal then Some(now + 90 * 24 * 60 * 60) else None
  }

  /** A token that passes the checks takes a free place; if normal, it carries an expiry, and
      if long-lived under a stored name, the user had none of that name. */
  lemma NewTokenFits(users: Dict<User>, n: nat, r: Request, secrets: Secrets, now: Time, version: Option<string>)
    requires TokensInOrder(users) && n < |users| && Refusal(users[n].value, r).None?
    requires forall i :: 0 <= i < |users| ==> !Has(users[i].value.tokens, secrets.id)
    ensures var after := WithToken(users, n, NewToken(users[n].value, r, secrets, now, version));
      TokensInOrder(after) && KeepsEach(users, after)
  {
    var u := users[n].value;
    var t := NewToken(u, r, secrets, now, version);
    assert NameIsFree(u, t) by {
      forall q | q in u.tokens ensures !SameName(q.value, t) {
        assert t.tokenType == LongLivedAccessToken ==> !NameTaken(u, r.clientName);
      }
    }
    WithTokenInOrder(users, n, t);
    assert users[n] in users;
    if TokensDistinct(users) { WithTokenDistinct(users, n, t); }
    if ExpiriesSet(users) { WithTokenKeepsExpiries(users, n, t); }
    if OneTokenPerNameEach(users) { WithTokenKeepsNames(users, n, t); }
  }

  lemma UsedTokenFits(users: Dict<User>, n: nat, q: Pair<Token>, remoteIp: Option<string>, now: Time)
    requires TokensInOrder(users) && n < |users| && q in users[n].value.tokens
    ensures var after := WithToken(users, n, Used(q.value, remoteIp, now));
      TokensInOrder(after) && KeepsEach(users, after)
  {
    var u, t := users[n].value, Used(q.value, remoteIp, now);
    assert users[n] in users && TokenOk(q);
    EntryHas(u.tokens, q);
    WithTokenInOrder(users, n, t);
    if TokensDistinct(users) { WithTokenDistinct(users, n, t); }
    if ExpiriesSet(users) {
      assert ExpirySet(u);
      WithTokenKeepsExpiries(users, n, t);
    }
    if OneTokenPerNameEach(users) {
      assert OneTokenPerName(u);
      forall r | r in u.tokens && SameName(r.value, t) ensures r.key == t.id {
        assert SameName(r.value, q.value);
      }
      WithTokenKeepsNames(users, n, t);
    }
  }

  /** Token ids that were distinct across users still are, normal tokens that all had an
      expiry still have one, and long-lived tokens whose stored names were unique per user
      still have unique ones. */
  ghost predicate KeepsEach(before: Dict<User>, after: Dict<User>) {
    && (TokensDistinct(before) ==> TokensDistinct(after))
    && (ExpiriesSet(before) ==> ExpiriesSet(after))
    && (OneTokenPerNameEach(before) ==> OneTokenPerNameEach(after))
  }

  class AuthManager {
    const store: AuthStore
    /** The point in time the expiry job is scheduled for. */
    var expireTimer: Option<Time>
    /** Between set-up and shutdown. */
    ghost var running: bool
    /** The latest reading of the clock. */
    ghost var clock: Time

    ghost predicate Valid()
      reads this, store
    {
      && TokensInOrder(store.users)
      && (running ==> expireTimer.Some? && TimerInTime())
      && (!running ==> expireTimer.None?)
    }

    /** A timer is pending no later than the earliest expiry, or ninety days from now. */
    ghost predicate TimerInTime()
      requires expireTimer.Some?
      reads this, store
    {
      Covers(store.users, expireTimer.value) && expireTimer.value <= clock + REFRESH_TOKEN_EXPIRATION
    }

    constructor (store: AuthStore, ghost now: Time)
      requires TokensInOrder(store.users)
      ensures this.store == store && Valid() && !running && clock == now
    {
      this.store, expireTimer, running, clock := store, None, false, now;
    }

    method AsyncSetup(now: Time)
      requires Valid() && !running && clock <= now
      modifies this
      ensures Valid() && running && clock == now
    {
      TrackNextExpiration(now);
      running, clock := true, now;
    }

    /** The earliest expiry, but no later than ninety days from now. */
    method TrackNextExpiration(now: Time)
      modifies this`expireTimer
      ensures expireTimer.Some? && Covers(store.users, expireTimer.value)
      ensures expireTimer.value <= now + REFRESH_TOKEN_EXPIRATION
      ensures expireTimer.value == now + REFRESH_TOKEN_EXPIRATION
           || exists t :: t in AllTokens(store.users) && t.expireAt == Some(expireTimer.value)
    {
      var tokens, next := AllTokens(store.users), now + REFRESH_TOKEN_EXPIRATION;
      for i := 0 to |tokens|
        invariant next <= now + REFRESH_TOKEN_EXPIRATION
        invariant forall j :: 0 <= j < i && tokens[j].expireAt.Some? ==> next <= tokens[j].expireAt.value
        invariant next == now + REFRESH_TOKEN_EXPIRATION || exists t :: t in tokens && t.expireAt == Some(next)
      {
        var t := tokens[i];
        if t.expireAt.Some? && t.expireAt.value < next {
          next := t.expireAt.value;
          assert t in tokens;
        }
      }
      forall n | 0 <= n < |store.users|
        ensures CoversUser(store.users[n].value, next)
      {
        forall q | q in store.users[n].value.tokens && q.value.expireAt.Some?
          ensures next <= q.value.expireAt.value
        {
          assert store.users[n] in store.users;
          AllTokensExact(store.users, q.value);
        }
      }
      expireTimer := Some(next);
    }

    method AsyncCreateRefreshToken(uid: string, r: Request, secrets: Secrets, version: Option<string>, now: Time)
        returns (c: Created)
      requires Valid() && clock <= now && Has(store.users, uid)
      requires forall i :: 0 <= i < |store.users| ==> !Has(store.users[i].value.tokens, secrets.id)
      modifies this`clock, store`users
      ensures Valid() && clock == now && KeepsEach(old(store.users), store.users)
      ensures var u := old(store.users[Place(store.users, uid)].value);
        match Refusal(u, r)
        case Some(e) => c == Refused(e) && store.users == old(store.users)
        case None =>
          && c == Issued(NewToken(u, r, secrets, now, version))
          && store.users == WithToken(old(store.users), Place(old(store.users), uid), c.token)
      ensures var u := old(store.users[Place(store.users, uid)].value);
        (c.Issued? <==> Allowed(u, r)) && (c.Issued? ==> IssuedAs(u, r, secrets, now, version, c.token))
    {
      RefusedIffNotAllowed(store.users[Place(store.users, uid)].value, r);
      clock := now;
      var n := Place(store.users, uid);
      var u := store.users[n].value;
      var refusal := Refusal(u, r);
      if refusal.Some? { return Refused(refusal.value); }
      var t := NewToken(u, r, secrets, now, version);
      NewTokenFits(store.users, n, r, secrets, now, version);
      if expireTimer.Some? { WithTokenCovered(store.users, n, t, expireTimer.value); }
      store.CreateRefreshToken(uid, t);
      c := Issued(t);
    }

    /** The part of `async_create_access_token` that moves the expiry on. */
    method LogUsage(uid: string, id: string, remoteIp: Option<string>, now: Time)
      requires Valid() && clock <= now && Has(store.users, uid)
      requires Has(store.users[Place(store.users, uid)].value.tokens, id)
      modifies this`clock, store`users
      ensures Valid() && clock == now && KeepsEach(old(store.users), store.users)
      ensures store.users ==
        WithToken(old(store.users), Place(old(store.users), uid), Used(old(store.Stored(uid, id)), remoteIp, now))
    {
      clock := now;
      var n := Place(store.users, uid);
      ghost var u := store.users[n].value;
      ghost var q := u.tokens[Place(u.tokens, id)];
      assert q in u.tokens;
      UsedTokenFits(store.users, n, q, remoteIp, now);
      if expireTimer.Some? { WithTokenCovered(store.users, n, Used(q.value, remoteIp, now), expireTimer.value); }
      store.LogRefreshTokenUsage(uid, id, remoteIp, now);
    }

    method AsyncRemoveRefreshToken(id: string)
      requires Valid()
      modifies store`users
      ensures Valid() && KeepsEach(old(store.users), store.users)
      ensures store.users == RemoveFirst(old(store.users), id)
    {
      RemoveFirstFewer(store.users, id);
      FewerKeeps(RemoveFirst(store.users, id), store.users);
      store.RemoveRefreshToken(id);
    }

    /** The timer fires: the ids of the tokens expired by now are removed, each at its first
        holder. These are exactly the expired tokens, and the new timer is in the future, if
        and only if no live token shares its id with a later user's expired one. */
    method RemoveExpiredRefreshTokens(now: Time)
      requires Valid() && running && expireTimer.value <= now && clock <= now
      modifies this, store`users
      ensures Valid() && running && clock == now && KeepsEach(old(store.users), store.users)
      ensures store.users == Swept(old(store.users), now)
      ensures ExactlyExpiredGone(old(store.users), store.users, now) <==> ExpiredFirst(old(store.users), now)
      ensures expireTimer.value > now <==> ExpiredFirst(old(store.users), now)
      ensures TokensDistinct(old(store.users)) ==> ExpiredFirst(old(store.users), now)
    {
      hide AllTokens, Covers, TokensInOrder, TokensDistinct, ExpiriesSet, OneTokenPerNameEach, RemoveEach, RemoveFirst;
      var tokens := AllTokens(store.users);
      ghost var before := store.users;
      RemoveNone(before);
      for i := 0 to |tokens|
        invariant Valid() && running && clock == old(clock) && KeepsEach(before, store.users)
        invariant store.users == RemoveEach(before, ExpiredIds(tokens[..i], now))
      {
        var t := tokens[i];
        ExpiredNext(tokens, i, now);
        if ExpiredAt(t, now) {
          RemoveNext(before, ExpiredIds(tokens[..i], now), t.id);
          AsyncRemoveRefreshToken(t.id);
        }
      }
      assert tokens[..|tokens|] == tokens;
      clock := now;
      TrackNextExpiration(now);
      InOrderKeys(before);
      RevokeExpiredExactIff(before, now);
      DistinctExpireFirst(before, now);
      TimerPastIffExpired(store.users, expireTimer.value, now);
    }

    /** The shutdown job. */
    method CancelExpirationSchedule()
      requires Valid()
      modifies this
      ensures Valid() && !running && expireTimer.None? && clock == old(clock)
    {
      expireTimer, running := None, false;
    }
  }

  lemma InOrderKeys(users: Dict<User>)
    requires TokensInOrder(users)
    ensures TokenKeysOk(users)
  {
  }

  lemma RemoveNone(users: Dict<User>)
    ensures RemoveEach(users, []) == users
  {
  }

  lemma RemoveNext(users: Dict<User>, ids: seq<string>, id: string)
    ensures RemoveEach(users, ids + [id]) == RemoveFirst(RemoveEach(users, ids), id)
  {
    assert (ids + [id])[..|ids|] == ids;
  }

  lemma DistinctExpireFirst(users: Dict<User>, now: Time)
    requires TokenKeysOk(users)
    ensures TokensDistinct(users) ==> ExpiredFirst(users, now)
  {
    AlwaysExactIffOrdered(users);
    RevokeExpiredExactIff(users, now);
  }

  /** The new timer is not in the future if and only if an expired token is left. */
  lemma TimerPastIffExpired(users: Dict<User>, timer: Time, now: Time)
    requires Covers(users, timer)
    requires timer == now + REFRESH_TOKEN_EXPIRATION || exists t :: t in AllTokens(users) && t.expireAt == Some(timer)
    ensures timer > now <==> NoneExpired(users, now)
  {
    if timer <= now {
      var t :| t in AllTokens(users) && t.expireAt == Some(timer);
      AllTokensExact(users, t);
      var p, q :| p in users && q in p.value.tokens && q.value == t;
      var i :| 0 <= i < |users| && users[i] == p;
    } else {
      forall i, q | 0 <= i < |users| && q in users[i].value.tokens ensures !ExpiredAt(q.value, now) {
        assert CoversUser(users[i].value, timer);
      }
    }
  }

  /** The data of two users that have one token each, under the same id: a live one of the
      first user, and an expired one of the second. */
  function TwoHolders(live: Token, expired: Token): Store {
    Store(DEFAULT_GROUPS, [
      Pair("a", User("a", None, [], false, true, false, false, [], [Pair("t", live)])),
      Pair("b", User("b", None, [], false, true, false, false, [], [Pair("t", expired)]))])
  }

  /** Such data can be saved and loaded. When the timer fires, the live token is lost and the
      expired one stays. */
  lemma LiveTokenLost(live: Token, expired: Token, now: Time)
    requires live.id == "t" && live.expireAt.Some? && !ExpiredAt(live, now) && live.credential.None?
    requires expired.id == "t" && ExpiredAt(expired, now) && expired.credential.None?
    ensures var s := TwoHolders(live, expired);
      && Load(Save(s), now) == Some(s)
      && Swept(s.users, now) == s.users[0 := Pair("a", RevokeOf(s.users[0].value, "t"))]
      && RevokeOf(s.users[0].value, "t").tokens == []
  {
    assert Drop([Pair("t", live)], "t") == [];
    hide WellFormed, Settled, Save, Load, Swept;
    var s := TwoHolders(live, expired);
    TwoHoldersSettled(live, expired);
    RoundTripIffSettled(s, now);
    TwoExpired(live, expired, now);
    RemoveNone(s.users);
    RemoveNext(s.users, [], "t");
    assert [] + ["t"] == ["t"];
    assert s.users[0].value.tokens[0].key == "t";
    RemovesOwnTokenIffFirst(s.users, 0, "t");
    assert Swept(s.users, now) == RemoveFirst(s.users, "t") by { SweptIs(s.users, now); }
  }

  lemma SweptIs(users: Dict<User>, now: Time)
    ensures Swept(users, now) == RemoveEach(users, ExpiredIds(AllTokens(users), now))
  {
  }

  lemma TwoHoldersSettled(live: Token, expired: Token)
    requires live.id == expired.id == "t" && live.expireAt.Some? && expired.expireAt.Some?
    requires live.credential.None? && expired.credential.None?
    ensures WellFormed(TwoHolders(live, expired)) && Settled(TwoHolders(live, expired))
  {
    hide Known;
    DefaultsAreSettled();
  }

  lemma TwoExpired(live: Token, expired: Token, now: Time)
    requires expired.id == "t" && ExpiredAt(expired, now) && !ExpiredAt(live, now)
    ensures ExpiredIds(AllTokens(TwoHolders(live, expired).users), now) == ["t"]
  {
    var users := TwoHolders(live, expired).users;
    assert users[..1] == [users[0]] && [users[0]][..0] == [];
    assert AllTokens([]) == [];
    assert AllTokens([users[0]]) == AllTokens([]) + TokensOf(users[0].value);
    assert AllTokens(users) == AllTokens(users[..1]) + TokensOf(users[1].value);
    assert AllTokens(users) == [live, expired];
    assert [live, expired][..0] == [];
    ExpiredNext([live, expired], 0, now);
    ExpiredNext([live, expired], 1, now);
    assert [live, expired][..2] == [live, expired];
  }

  /** Asking for the same token again, under a name that is stored as it is, is refused if and
      only if it is a long-lived token under a name other than the empty one: the empty name is
      not stored, so it escapes the check. */
  lemma SecondRequestRefusedIffNamed(u: User, r: Request, secrets: Secrets, now: Time, version: Option<string>)
    requires Refusal(u, r).None? && UniqueKeys(u.tokens)
    ensures var t := NewToken(u, r, secrets, now, version);
      Refusal(u.(tokens := Put(u.tokens, t.id, t)), r)
        == if TypeFor(u, r) == TypeName(LongLivedAccessToken) && r.clientName != Some("")
           then Some(ClientNameTaken) else None
  {
    var t := NewToken(u, r, secrets, now, version);
    var v := u.(tokens := Put(u.tokens, t.id, t));
    PutKeys(u.tokens, t.id, t);
    PutHolds(u.tokens, t.id, t);
    assert TypeFor(v, r) == TypeFor(u, r);
  }

  lemma {:induction false} PutHolds<V>(d: Dict<V>, k: string, v: V)
    ensures Pair(k, v) in Put(d, k, v)
    decreases |d|
  {
    if d != [] && d[0].key != k { PutHolds(d[1..], k, v); }
  }
}
