/** Saving, loading and migrating the auth data of homeassistant/auth/auth_store.py. */
module AuthModel {
  import opened Options
  import opened Dicts

  const GROUP_ID_ADMIN := "system-admin"
  const GROUP_ID_USER := "system-users"
  const GROUP_ID_READ_ONLY := "system-read-only"

  /** Ninety days, in seconds. */
  const REFRESH_TOKEN_EXPIRATION: int := 7776000

  type Time = int

  // -------------------------------------------------------------- in memory

  datatype Policy = AdminPolicy | UserPolicy | ReadOnlyPolicy | CustomPolicy(text: string)

  datatype Group = Group(id: string, name: Option<string>, policy: Policy, systemGenerated: bool)

  datatype Credential = Credential(id: string, providerType: string, providerId: Option<string>, data: string)

  datatype TokenType = Normal | System | LongLivedAccessToken

  /** `credential` is the id of the linked credential. */
  datatype Token = Token(
    id: string, clientId: Option<string>, clientName: Option<string>, clientIcon: Option<string>,
    tokenType: TokenType, createdAt: Time, accessTokenExpiration: int, token: string, jwtKey: string,
    lastUsedAt: Option<Time>, lastUsedIp: Option<string>, expireAt: Option<Time>,
    credential: Option<string>, version: Option<string>)

  datatype User = User(
    id: string, name: Option<string>, groupIds: seq<string>, isOwner: bool, isActive: bool,
    systemGenerated: bool, localOnly: bool, credentials: seq<Credential>, tokens: Dict<Token>)

  datatype Store = Store(groups: Dict<Group>, users: Dict<User>)

  // ---------------------------------------------------------------- on disk

  /** A date as stored; unreadable text parses to nothing. */
  datatype DateText = Iso(time: Time) | Unreadable

  function Parse(d: DateText): Option<Time> {
    match d case Iso(t) => Some(t) case Unreadable => None
  }

  datatype TypeText = TypeName(tokenType: TokenType) | UnknownType

  datatype GroupData = GroupData(id: string, name: Option<string>, policy: Option<Policy>)

  datatype UserData = UserData(
    id: string, groupIds: Option<seq<string>>, isOwner: bool, isActive: bool, name: Option<string>,
    systemGenerated: bool, localOnly: Option<bool>)

  datatype CredentialData = CredentialData(
    id: string, userId: string, providerType: string, providerId: Option<string>, data: string)

  datatype TokenData = TokenData(
    id: string, userId: string, clientId: Option<string>, clientName: Option<string>, clientIcon: Option<string>,
    tokenType: Option<TypeText>, createdAt: DateText, accessTokenExpiration: int, token: string,
    jwtKey: Option<string>, lastUsedAt: Option<DateText>, lastUsedIp: Option<string>, expireAt: Option<Time>,
    credentialId: Option<string>, version: Option<string>)

  datatype AuthData = AuthData(
    users: seq<UserData>, groups: seq<GroupData>, credentials: seq<CredentialData>, refreshTokens: seq<TokenData>)

  // --------------------------------------------------------------------- load

  predicate IsSystemGroup(id: string) {
    id == GROUP_ID_ADMIN || id == GROUP_ID_USER || id == GROUP_ID_READ_ONLY
  }

  function SystemGroup(id: string): Group
    requires IsSystemGroup(id)
  {
    if id == GROUP_ID_ADMIN then Group(id, Some("Administrators"), AdminPolicy, true)
    else if id == GROUP_ID_USER then Group(id, Some("Users"), UserPolicy, true)
    else Group(id, Some("Read Only"), ReadOnlyPolicy, true)
  }

  /** The groups loaded so far, and the last group that had no policy. */
  datatype GroupState = GroupState(groups: Dict<Group>, withoutPolicy: Option<string>)

  function GroupStep(): (GroupState, GroupData) -> Option<GroupState> {
    (s: GroupState, g: GroupData) =>
      if IsSystemGroup(g.id) then Some(s.(groups := Put(s.groups, g.id, SystemGroup(g.id))))
      else if g.policy.None? then Some(s.(withoutPolicy := Some(g.id)))
      else Some(s.(groups := Put(s.groups, g.id, Group(g.id, g.name, g.policy.value, false))))
  }

  function AddSystemGroup(groups: Dict<Group>, id: string): Dict<Group>
    requires IsSystemGroup(id)
  {
    if Has(groups, id) then groups else Put(groups, id, SystemGroup(id))
  }

  function AddSystemGroups(groups: Dict<Group>): Dict<Group> {
    AddSystemGroup(AddSystemGroup(AddSystemGroup(groups, GROUP_ID_ADMIN), GROUP_ID_READ_ONLY), GROUP_ID_USER)
  }

  /** What the users are loaded with: the groups, the group whose members become
      administrators, and whether everybody does. */
  datatype Migration = Migration(groups: Dict<Group>, toAdmin: Option<string>, allToAdmin: bool)

  function Migrate(s: GroupState): Migration {
    Migration(AddSystemGroups(s.groups),
              if s.groups != [] then None else s.withoutPolicy,
              s.groups == [] && s.withoutPolicy.None?)
  }

  function MapGroup(m: Migration, id: string): string {
    if m.toAdmin == Some(id) then GROUP_ID_ADMIN else id
  }

  function MapGroups(m: Migration, ids: seq<string>): (r: seq<string>)
    ensures |r| == |ids| && forall i :: 0 <= i < |ids| ==> r[i] == MapGroup(m, ids[i])
  {
    seq(|ids|, i requires 0 <= i < |ids| => MapGroup(m, ids[i]))
  }

  function UserStep(m: Migration): (Dict<User>, UserData) -> Option<Dict<User>> {
    (users: Dict<User>, u: UserData) =>
      var mapped := MapGroups(m, if u.groupIds.Some? then u.groupIds.value else []);
      if exists id :: id in mapped && !Has(m.groups, id) then None
      else
        var groupIds := mapped + (if !u.systemGenerated && m.allToAdmin then [GROUP_ID_ADMIN] else []);
        Some(Put(users, u.id, User(u.id, u.name, groupIds, u.isOwner, u.isActive, u.systemGenerated,
                                   u.localOnly == Some(true), [], [])))
  }

  function AddCredential(u: User, c: CredentialData): User {
    u.(credentials := u.credentials + [Credential(c.id, c.providerType, c.providerId, c.data)])
  }

  function CredentialStep(): (Dict<User>, CredentialData) -> Option<Dict<User>> {
    (users: Dict<User>, c: CredentialData) =>
      if !Has(users, c.userId) then None
      else Some(Adjust(users, c.userId, (u: User) => AddCredential(u, c)))
  }

  function LastUsed(t: TokenData): Option<Time> {
    if t.lastUsedAt.Some? then Parse(t.lastUsedAt.value) else None
  }

  function TypeOf(t: TokenData): TypeText {
    if t.tokenType.Some? then t.tokenType.value
    else TypeName(if t.clientId.None? then System else Normal)
  }

  function Expiry(tokenType: TokenType, stored: Option<Time>, lastUsed: Option<Time>, now: Time): Option<Time> {
    if stored.Some? || tokenType != Normal then stored
    else Some((if lastUsed.Some? then lastUsed.value else now) + REFRESH_TOKEN_EXPIRATION)
  }

  function Link(credential: Option<string>, known: set<string>): Option<string> {
    if credential.Some? && credential.value in known then credential else None
  }

  predicate Skipped(t: TokenData) {
    t.jwtKey.None? || Parse(t.createdAt).None?
  }

  function LoadToken(t: TokenData, known: set<string>, now: Time): Token
    requires !Skipped(t) && TypeOf(t).TypeName?
  {
    Token(t.id, t.clientId, t.clientName, t.clientIcon, TypeOf(t).tokenType, Parse(t.createdAt).value,
          t.accessTokenExpiration, t.token, t.jwtKey.value, LastUsed(t), t.lastUsedIp,
          Expiry(TypeOf(t).tokenType, t.expireAt, LastUsed(t), now), Link(t.credentialId, known), t.version)
  }

  function AddToken(u: User, t: TokenData, known: set<string>, now: Time): User
    requires !Skipped(t) && TypeOf(t).TypeName?
  {
    u.(tokens := Put(u.tokens, t.id, LoadToken(t, known, now)))
  }

  function TokenStep(known: set<string>, now: Time): (Dict<User>, TokenData) -> Option<Dict<User>> {
    (users: Dict<User>, t: TokenData) =>
      if Skipped(t) then Some(users)
      else if TypeOf(t).UnknownType? || !Has(users, t.userId) then None
      else Some(Adjust(users, t.userId, (u: User) => AddToken(u, t, known, now)))
  }

  function CredentialIds(cs: seq<CredentialData>): set<string> {
    set c | c in cs :: c.id
  }

  /** `async_load` of existing data at time `now`; `None` when it raises. */
  function Load(d: AuthData, now: Time): Option<Store> {
    var g :- Fold(GroupStep(), GroupState([], None), d.groups);
    var m := Migrate(g);
    var bare :- Fold(UserStep(m), [], d.users);
    var withCredentials :- Fold(CredentialStep(), bare, d.credentials);
    var users :- Fold(TokenStep(CredentialIds(d.credentials), now), withCredentials, d.refreshTokens);
    Some(Store(m.groups, users))
  }

  // --------------------------------------------------------------------- save

  function SaveGroup(g: Group): GroupData {
    GroupData(g.id, g.name, if g.systemGenerated then None else Some(g.policy))
  }

  function SaveUser(u: User): UserData {
    UserData(u.id, Some(u.groupIds), u.isOwner, u.isActive, u.name, u.systemGenerated, Some(u.localOnly))
  }

  function SaveCredential(u: User, c: Credential): CredentialData {
    CredentialData(c.id, u.id, c.providerType, c.providerId, c.data)
  }

  function SaveToken(u: User, t: Token): TokenData {
    TokenData(t.id, u.id, t.clientId, t.clientName, t.clientIcon, Some(TypeName(t.tokenType)), Iso(t.createdAt),
              t.accessTokenExpiration, t.token, Some(t.jwtKey),
              if t.lastUsedAt.Some? then Some(Iso(t.lastUsedAt.value)) else None,
              t.lastUsedIp, t.expireAt, t.credential, t.version)
  }

  function SaveCredentials(u: User): seq<CredentialData> {
    seq(|u.credentials|, i requires 0 <= i < |u.credentials| => SaveCredential(u, u.credentials[i]))
  }

  function SaveTokens(u: User): seq<TokenData> {
    seq(|u.tokens|, i requires 0 <= i < |u.tokens| => SaveToken(u, u.tokens[i].value))
  }

  /** The concatenation of one list per user, in the order of the users. */
  function PerUser<D>(users: Dict<User>, list: User -> seq<D>): seq<D> {
    if users == [] then []
    else PerUser(users[..|users| - 1], list) + list(users[|users| - 1].value)
  }

  /** `_data_to_save`. */
  function Save(s: Store): AuthData {
    AuthData(seq(|s.users|, i requires 0 <= i < |s.users| => SaveUser(s.users[i].value)),
             seq(|s.groups|, i requires 0 <= i < |s.groups| => SaveGroup(s.groups[i].value)),
             PerUser(s.users, SaveCredentials),
             PerUser(s.users, SaveTokens))
  }

  // ------------------------------------------------------------ well-formedness

  predicate GroupOk(p: Pair<Group>) {
    && p.key == p.value.id
    && if IsSystemGroup(p.key) then p.value == SystemGroup(p.key) else !p.value.systemGenerated
  }

  predicate TokenOk(p: Pair<Token>) {
    p.key == p.value.id
  }

  predicate UserOk(groups: Dict<Group>, p: Pair<User>) {
    && p.key == p.value.id
    && (forall id :: id in p.value.groupIds ==> Has(groups, id))
    && UniqueKeys(p.value.tokens)
    && forall t :: t in p.value.tokens ==> TokenOk(t)
  }

  /** Dictionaries are keyed by id, the three system groups exist unchanged, and users are
      members of existing groups. */
  predicate WellFormed(s: Store) {
    && UniqueKeys(s.groups) && (forall p :: p in s.groups ==> GroupOk(p))
    && Has(s.groups, GROUP_ID_ADMIN) && Has(s.groups, GROUP_ID_USER) && Has(s.groups, GROUP_ID_READ_ONLY)
    && UniqueKeys(s.users) && (forall p :: p in s.users ==> UserOk(s.groups, p))
  }

  /** The ids of all credentials of all users. */
  function Known(s: Store): set<string> {
    CredentialIds(Save(s).credentials)
  }

  /** The token carries an expiry if it is a normal one, and its credential still exists. */
  predicate TokenSettled(t: Token, known: set<string>) {
    && (t.tokenType == Normal ==> t.expireAt.Some?)
    && (t.credential.Some? ==> t.credential.value in known)
  }

  predicate Settled(s: Store) {
    forall p :: p in s.users ==> forall t :: t in p.value.tokens ==> TokenSettled(t.value, Known(s))
  }

  /** What a round trip does to a token: a missing expiry is filled in, a dangling link to a
      credential is dropped. */
  function NormalToken(t: Token, known: set<string>, now: Time): Token {
    t.(expireAt := Expiry(t.tokenType, t.expireAt, t.lastUsedAt, now), credential := Link(t.credential, known))
  }

  function NormalTokens(ts: Dict<Token>, known: set<string>, now: Time): (r: Dict<Token>)
    ensures |r| == |ts|
    ensures forall i :: 0 <= i < |ts| ==> r[i] == Pair(ts[i].key, NormalToken(ts[i].value, known, now))
  {
    seq(|ts|, i requires 0 <= i < |ts| => Pair(ts[i].key, NormalToken(ts[i].value, known, now)))
  }

  function NormalUser(u: User, known: set<string>, now: Time): User {
    u.(tokens := NormalTokens(u.tokens, known, now))
  }

  function MapUsers(users: Dict<User>, f: User -> User): (r: Dict<User>)
    ensures |r| == |users|
    ensures forall i :: 0 <= i < |users| ==> r[i] == Pair(users[i].key, f(users[i].value))
  {
    seq(|users|, i requires 0 <= i < |users| => Pair(users[i].key, f(users[i].value)))
  }

  function Normalised(s: Store, now: Time): Store {
    s.(users := MapUsers(s.users, (u: User) => NormalUser(u, Known(s), now)))
  }

  // ------------------------------------------------------- delivering to users

  /** Applies `g` to a value with one item after the other. */
  function ApplyAll<V, D>(g: (V, D) -> V, v: V, items: seq<D>): V
    decreases |items|
  {
    if items == [] then v else g(ApplyAll(g, v, items[..|items| - 1]), items[|items| - 1])
  }

  /** The step changes exactly entry `n` of the dictionary, by `g`. */
  ghost predicate Delivers<V(!new), D>(
      step: (Dict<V>, D) -> Option<Dict<V>>, g: (V, D) -> V, d: Dict<V>, n: nat, item: D)
    requires n < |d|
  {
    forall v: V :: step(d[n := Pair(d[n].key, v)], item) == Some(d[n := Pair(d[n].key, g(v, item))])
  }

  /** Folding over a list of items that all go to entry `n`. */
  lemma {:induction false} DeliverAll<V(!new), D>(step: (Dict<V>, D) -> Option<Dict<V>>, g: (V, D) -> V,
                                                  d: Dict<V>, n: nat, items: seq<D>)
    requires n < |d|
    requires forall item :: item in items ==> Delivers(step, g, d, n, item)
    ensures Fold(step, d, items) == Some(d[n := Pair(d[n].key, ApplyAll(g, d[n].value, items))])
    decreases |items|
  {
    if items == [] {
      assert d[n := Pair(d[n].key, d[n].value)] == d;
    } else {
      var init, last := items[..|items| - 1], items[|items| - 1];
      DeliverAll(step, g, d, n, init);
      assert last in items && Delivers(step, g, d, n, last);
    }
  }
}
