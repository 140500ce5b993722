/**
 Accounts and sessions as values: what each call of the account store does
 (server/auth/storage.ts), the three-way OAuth sign-in (server/auth/oauth.ts) and
 token validation (server/auth/service.ts), with the laws that hold over runs.
 The heap-based store is proved against these functions in `AuthStore`.
 */
module AuthModel {

  import opened Wrappers

  datatype Error =
    | NotFound | EmailUnique | OAuthUnique | OrgDenied | AccountDisabled | RegistrationDisabled | NoSecret

  datatype Result<+T> = Ok(value: T) | Err(error: Error)

  datatype Provider = Github | Gitlab

  datatype Role = RegularUser | Maintainer | Admin

  datatype User = User(id: string, email: string, name: string, passwordHash: Option<string>, isActive: bool,
                       role: Role, oauthProvider: Option<Provider>, oauthId: Option<string>, avatarUrl: Option<string>,
                       lastLoginAt: Option<int>, createdAt: int)
  {
    /** JavaScript truthiness: an empty provider id is no link. */
    predicate Linked() { oauthProvider.Some? && oauthId.Some? && oauthId.value != "" }

    predicate SameLink(o: User) {
      Linked() && o.Linked() && oauthProvider == o.oauthProvider && oauthId == o.oauthId
    }

    predicate LinkedTo(p: Provider, pid: string) { Linked() && oauthProvider.value == p && oauthId.value == pid }
  }

  datatype NewUser = NewUser(email: string, name: string, passwordHash: Option<string>, isActive: Option<bool>,
                             role: Option<Role>, oauthProvider: Option<Provider>, oauthId: Option<string>,
                             avatarUrl: Option<string>)

  datatype Updates = Updates(name: Option<string>, email: Option<string>, passwordHash: Option<string>,
                             lastLoginAt: Option<int>, avatarUrl: Option<string>)

  datatype Session = Session(id: string, userId: string, expiresAt: int)

  /** `emptyLinks` remembers who once linked the empty id of a provider. The store's index
      enters that id although it is no link, and never drops it. */
  datatype AuthState = AuthState(users: map<string, User>, emptyLinks: map<Provider, string>,
                                 sessions: map<string, Session>)

  predicate EmailUsed(users: map<string, User>, email: string) {
    exists i :: i in users && users[i].email == email
  }

  predicate OAuthUsed(users: map<string, User>, p: Provider, pid: string) {
    exists i :: i in users && users[i].LinkedTo(p, pid)
  }

  /** Ids, emails and provider links identify users. */
  ghost predicate WellFormed(users: map<string, User>) {
    && (forall i :: i in users ==> users[i].id == i)
    && (forall i, j :: i in users && j in users && users[i].email == users[j].email ==> i == j)
    && (forall i, j :: i in users && j in users && users[i].SameLink(users[j]) ==> i == j)
  }

  // ----- The store's calls -----

  function Build(data: NewUser, id: string, now: int): User {
    User(id, data.email, data.name, data.passwordHash, OrElse(data.isActive, true), OrElse(data.role, RegularUser),
         data.oauthProvider, data.oauthId, data.avatarUrl, None, now)
  }

  function CreateUser(st: AuthState, data: NewUser, id: string, now: int): (AuthState, Result<User>) {
    var u := Build(data, id, now);
    if EmailUsed(st.users, data.email) then (st, Err(EmailUnique))
    else if u.Linked() && OAuthUsed(st.users, u.oauthProvider.value, u.oauthId.value) then (st, Err(OAuthUnique))
    else (st.(users := st.users[id := u]), Ok(u))
  }

  function Updated(u: User, up: Updates): User {
    u.(email := OrElse(up.email, u.email), name := OrElse(up.name, u.name),
       passwordHash := if up.passwordHash.Some? then up.passwordHash else u.passwordHash,
       lastLoginAt := if up.lastLoginAt.Some? then up.lastLoginAt else u.lastLoginAt,
       avatarUrl := if up.avatarUrl.Some? then up.avatarUrl else u.avatarUrl)
  }

  function UpdateUser(st: AuthState, id: string, up: Updates): (AuthState, Result<User>) {
    if id !in st.users then (st, Err(NotFound))
    else if up.email.Some? && up.email.value != st.users[id].email && EmailUsed(st.users, up.email.value)
    then (st, Err(EmailUnique))
    else (st.(users := st.users[id := Updated(st.users[id], up)]), Ok(Updated(st.users[id], up)))
  }

  function UpdateRole(st: AuthState, id: string, role: Role): (AuthState, Result<User>) {
    if id !in st.users then (st, Err(NotFound))
    else (st.(users := st.users[id := st.users[id].(role := role)]), Ok(st.users[id].(role := role)))
  }

  /** The provider index has an entry for the pair. */
  predicate LinkTaken(st: AuthState, p: Provider, pid: string) {
    if pid == "" then p in st.emptyLinks else OAuthUsed(st.users, p, pid)
  }

  function LinkOAuth(st: AuthState, id: string, p: Provider, pid: string, avatarUrl: Option<string>)
    : (AuthState, Result<User>)
  {
    if id !in st.users then (st, Err(NotFound))
    else if LinkTaken(st, p, pid) then (st, Err(OAuthUnique))
    else
      var u := st.users[id].(oauthProvider := Some(p), oauthId := Some(pid),
                             avatarUrl := if avatarUrl.Some? then avatarUrl else st.users[id].avatarUrl);
      (st.(users := st.users[id := u], emptyLinks := if pid == "" then st.emptyLinks[p := id]
          else st.emptyLinks), Ok(u))
  }

  function WithoutUser(sessions: map<string, Session>, userId: string): map<string, Session> {
    map t | t in sessions && sessions[t].userId != userId :: sessions[t]
  }

  function Deactivate(st: AuthState, id: string): (AuthState, Result<User>) {
    if id !in st.users then (st, Err(NotFound))
    else
      (st.(users := st.users[id := st.users[id].(isActive := false)], sessions := WithoutUser(st.sessions, id)),
       Ok(st.users[id].(isActive := false)))
  }

  /** Removes the session stored under `token` if it has id `id`. */
  function DropSession(st: AuthState, id: string, token: string): AuthState {
    if token in st.sessions && st.sessions[token].id == id then st.(sessions := st.sessions - {token}) else st
  }

  // ----- Token validation -----

  datatype Payload = Payload(userId: string, sessionId: string)

  /** `verified` is the outcome of checking the token's signature. */
  function ValidateToken(st: AuthState, hasSecret: bool, verified: Option<Payload>, token: string,
                         now: int): Option<User> {
    if !hasSecret || verified.None? || token !in st.sessions then None
    else if st.sessions[token].expiresAt < now then None
    else if st.sessions[token].userId != verified.value.userId then None
    else if verified.value.userId !in st.users || !st.users[verified.value.userId].isActive then None
    else Some(st.users[verified.value.userId])
  }

  // ----- Runs -----

  datatype Op =
    | OpCreateUser(data: NewUser, id: string, now: int)
    | OpUpdateUser(id: string, up: Updates)
    | OpUpdateRole(id: string, role: Role)
    | OpDeactivate(id: string)
    | OpLinkOAuth(id: string, p: Provider, pid: string, avatarUrl: Option<string>)
    | OpCreateSession(token: string, session: Session)
    | OpDeleteSession(token: string)
    | OpDropSession(sid: string, token: string)
    | OpDeleteSessionsOf(userId: string)

  function Step(st: AuthState, op: Op): AuthState {
    match op
    case OpCreateUser(data, id, now) => CreateUser(st, data, id, now).0
    case OpUpdateUser(id, up) => UpdateUser(st, id, up).0
    case OpUpdateRole(id, role) => UpdateRole(st, id, role).0
    case OpDeactivate(id) => Deactivate(st, id).0
    case OpLinkOAuth(id, p, pid, a) => LinkOAuth(st, id, p, pid, a).0
    case OpCreateSession(token, session) => st.(sessions := st.sessions[token := session])
    case OpDeleteSession(token) => st.(sessions := st.sessions - {token})
    case OpDropSession(sid, token) => DropSession(st, sid, token)
    case OpDeleteSessionsOf(userId) => st.(sessions := WithoutUser(st.sessions, userId))
  }

  function Run(st: AuthState, ops: seq<Op>): AuthState
    decreases |ops|
  {
    if ops == [] then st else Run(Step(st, ops[0]), ops[1..])
  }

  /** Created users get ids nobody has. */
  ghost predicate FreshIds(st: AuthState, ops: seq<Op>)
    decreases |ops|
  {
    ops != [] ==> (ops[0].OpCreateUser? ==> ops[0].id !in st.users) && FreshIds(Step(st, ops[0]), ops[1..])
  }

  /** Writing one user keeps everything unique if nobody else has its email or link. */
  lemma {:induction false} WriteWellFormed(users: map<string, User>, u: User)
    requires WellFormed(users)
    requires forall j :: j in users && j != u.id ==> users[j].email != u.email && !users[j].SameLink(u)
    ensures WellFormed(users[u.id := u])
  {
    var t := users[u.id := u];
    forall i, j | i in t && j in t && t[i].SameLink(t[j]) ensures i == j {
      assert t[j].SameLink(t[i]);
    }
  }

  /** Every call keeps ids, emails and links unique. */
  lemma {:induction false} StepWellFormed(st: AuthState, op: Op)
    requires WellFormed(st.users) && (op.OpCreateUser? ==> op.id !in st.users)
    ensures WellFormed(Step(st, op).users)
  {
    match op
    case OpCreateUser(data, id, now) =>
      var (st', r) := CreateUser(st, data, id, now);
      if r.Ok? {
        forall j | j in st.users ensures !st.users[j].SameLink(r.value) {
          if st.users[j].SameLink(r.value) {
            assert st.users[j].LinkedTo(r.value.oauthProvider.value, r.value.oauthId.value);
          }
        }
        WriteWellFormed(st.users, r.value);
      }
    case OpUpdateUser(id, up) =>
      if UpdateUser(st, id, up).1.Ok? {
        var u := Updated(st.users[id], up);
        forall j | j in st.users && j != id ensures !st.users[j].SameLink(u) {
          assert st.users[j].SameLink(u) == st.users[j].SameLink(st.users[id]);
        }
        WriteWellFormed(st.users, u);
      }
    case OpUpdateRole(id, role) =>
      if id in st.users { WriteLikeBefore(st.users, st.users[id].(role := role)); }
    case OpDeactivate(id) =>
      if id in st.users { WriteLikeBefore(st.users, st.users[id].(isActive := false)); }
    case OpLinkOAuth(id, p, pid, a) =>
      var (st', r) := LinkOAuth(st, id, p, pid, a);
      if r.Ok? {
        forall j | j in st.users && j != id ensures !st.users[j].SameLink(r.value) {
          if st.users[j].SameLink(r.value) { assert st.users[j].LinkedTo(p, pid); }
        }
        WriteWellFormed(st.users, r.value);
      }
    case OpCreateSession(_, _) =>
    case OpDeleteSession(_) =>
    case OpDropSession(_, _) =>
    case OpDeleteSessionsOf(_) =>
  }

  lemma {:induction false} WriteLikeBefore(users: map<string, User>, u: User)
    requires WellFormed(users) && u.id in users
    requires u.email == users[u.id].email && u.oauthProvider == users[u.id].oauthProvider &&
             u.oauthId == users[u.id].oauthId
    ensures WellFormed(users[u.id := u])
  {
    forall j | j in users && j != u.id ensures !users[j].SameLink(u) {
      assert users[j].SameLink(u) == users[j].SameLink(users[u.id]);
    }
    WriteWellFormed(users, u);
  }

  /** DEACTIVATION. The user's sessions are gone and every other session is untouched. */
  lemma {:induction false} DeactivateSessions(st: AuthState, id: string, token: string)
    requires id in st.users
    ensures token in Deactivate(st, id).0.sessions <==> token in st.sessions && st.sessions[token].userId != id
    ensures token in Deactivate(st, id).0.sessions ==> Deactivate(st, id).0.sessions[token] == st.sessions[token]
  {
  }

  lemma {:induction false} InactiveStays(st: AuthState, op: Op, u: string)
    requires u in st.users && !st.users[u].isActive && (op.OpCreateUser? ==> op.id !in st.users)
    requires forall i :: i in st.users ==> st.users[i].id == i
    ensures u in Step(st, op).users && !Step(st, op).users[u].isActive
  {
  }

  lemma {:induction false} InactiveForever(st: AuthState, ops: seq<Op>, u: string)
    requires WellFormed(st.users) && u in st.users && !st.users[u].isActive
    requires FreshIds(st, ops)
    ensures WellFormed(Run(st, ops).users)
    ensures u in Run(st, ops).users && !Run(st, ops).users[u].isActive
    decreases |ops|
  {
    if ops != [] {
      StepWellFormed(st, ops[0]);
      InactiveStays(st, ops[0], u);
      InactiveForever(Step(st, ops[0]), ops[1..], u);
    }
  }

  /** DEACTIVATION IS PERMANENT. Whatever calls follow, including new sessions for the
      same user, no token ever validates as a deactivated user again. */
  lemma {:induction false} DeactivatedNeverValidates(st: AuthState, u: string, ops: seq<Op>, hasSecret: bool,
                                                     verified: Option<Payload>, token: string, now: int)
    requires WellFormed(st.users) && u in st.users
    requires FreshIds(Deactivate(st, u).0, ops)
    ensures var r := ValidateToken(Run(Deactivate(st, u).0, ops), hasSecret, verified, token, now);
            r.Some? ==> r.value.id != u && r.value.isActive
  {
    StepWellFormed(st, OpDeactivate(u));
    InactiveForever(Deactivate(st, u).0, ops, u);
  }

  // ----- OAuth sign-in -----

  datatype Profile = Profile(provider: Provider, id: string, email: string, name: string, avatarUrl: Option<string>,
                             orgs: seq<string>)

  datatype Config = Config(allowedOrgs: seq<string>, allowedGroups: seq<string>, autoRegister: bool, defaultRole: Role,
                           hasSecret: bool, sessionMs: int)

  /** Values drawn at random during one sign-in. */
  datatype Drawn = Drawn(userId: string, sessionId: string, token: string)

  datatype AuthSession = AuthSession(token: string, user: User, expiresAt: int)

  predicate OrgAllowed(profile: Profile, cfg: Config) {
    var allowed := if profile.provider.Github? then cfg.allowedOrgs else cfg.allowedGroups;
    allowed == [] || exists o :: o in profile.orgs && o in allowed
  }

  /** The user linked to a provider account, if any. */
  ghost function FindByOAuth(users: map<string, User>, p: Provider, pid: string): (r: Option<User>)
    ensures r.None? <==> !OAuthUsed(users, p, pid)
    ensures r.Some? ==> exists i :: i in users && users[i] == r.value && users[i].LinkedTo(p, pid)
  {
    if OAuthUsed(users, p, pid) then var i :| i in users && users[i].LinkedTo(p, pid); Some(users[i]) else None
  }

  /** What the store's provider lookup answers, also for the empty id. */
  ghost function LookupOAuth(st: AuthState, p: Provider, pid: string): Option<User> {
    if pid != "" then FindByOAuth(st.users, p, pid)
    else if p in st.emptyLinks && st.emptyLinks[p] in st.users then Some(st.users[st.emptyLinks[p]])
    else None
  }

  ghost function FindByEmail(users: map<string, User>, email: string): (r: Option<User>)
    ensures r.None? <==> !EmailUsed(users, email)
    ensures r.Some? ==> exists i :: i in users && users[i] == r.value && users[i].email == email
  {
    if EmailUsed(users, email) then var i :| i in users && users[i].email == email; Some(users[i]) else None
  }

  function BuildSession(st: AuthState, user: User, cfg: Config, drawn: Drawn,
                        now: int): (AuthState, Result<AuthSession>) {
    if !cfg.hasSecret then (st, Err(NoSecret))
    else
      (st.(sessions := st.sessions[drawn.token := Session(drawn.sessionId, user.id, now + cfg.sessionMs)]),
       Ok(AuthSession(drawn.token, user, now + cfg.sessionMs)))
  }

  const NoUpdates := Updates(None, None, None, None, None)

  function LoginLinked(st: AuthState, user: User, profile: Profile, cfg: Config, drawn: Drawn, now: int)
    : (AuthState, Result<AuthSession>)
  {
    if !user.isActive then (st, Err(AccountDisabled))
    else
      var (st1, r) := UpdateUser(st, user.id,
        NoUpdates.(name := Some(profile.name), avatarUrl := profile.avatarUrl, lastLoginAt := Some(now)));
      if r.Err? then (st1, Err(r.error)) else BuildSession(st1, r.value, cfg, drawn, now)
  }

  function LinkAndLogin(st: AuthState, user: User, profile: Profile, cfg: Config, drawn: Drawn, now: int)
    : (AuthState, Result<AuthSession>)
  {
    if !user.isActive then (st, Err(AccountDisabled))
    else
      var (st1, r1) := LinkOAuth(st, user.id, profile.provider, profile.id, profile.avatarUrl);
      if r1.Err? then (st1, Err(r1.error))
      else
        var (st2, r2) := UpdateUser(st1, r1.value.id, NoUpdates.(lastLoginAt := Some(now)));
        if r2.Err? then (st2, Err(r2.error)) else BuildSession(st2, r2.value, cfg, drawn, now)
  }

  function AutoRegister(st: AuthState, profile: Profile, cfg: Config, drawn: Drawn, now: int)
    : (AuthState, Result<AuthSession>)
  {
    if !cfg.autoRegister then (st, Err(RegistrationDisabled))
    else
      var (st1, r) := CreateUser(st, Registration(profile, cfg), drawn.userId, now);
      if r.Err? then (st1, Err(r.error)) else BuildSession(st1, r.value, cfg, drawn, now)
  }

  ghost function SignIn(st: AuthState, profile: Profile, cfg: Config, drawn: Drawn, now: int)
    : (AuthState, Result<AuthSession>)
  {
    if !OrgAllowed(profile, cfg) then (st, Err(OrgDenied))
    else
      var byOAuth := FindByOAuth(st.users, profile.provider, profile.id);
      if byOAuth.Some? then LoginLinked(st, byOAuth.value, profile, cfg, drawn, now)
      else SignInByEmail(st, profile, cfg, drawn, now)
  }

  /** No user has this provider account yet: link by email, or register. */
  ghost function SignInByEmail(st: AuthState, profile: Profile, cfg: Config, drawn: Drawn, now: int)
    : (AuthState, Result<AuthSession>)
  {
    var byEmail := FindByEmail(st.users, profile.email);
    if byEmail.Some? then LinkAndLogin(st, byEmail.value, profile, cfg, drawn, now)
    else AutoRegister(st, profile, cfg, drawn, now)
  }

  function Registration(profile: Profile, cfg: Config): NewUser {
    NewUser(profile.email, profile.name, None, None, Some(cfg.defaultRole), Some(profile.provider), Some(profile.id),
            profile.avatarUrl)
  }

  /** What a successful sign-in leaves behind: the provider account points at the
      session's user, who is active, and the token opens that user's session. */
  ghost predicate SignedIn(st: AuthState, profile: Profile, s: AuthSession) {
    && s.user.id in st.users && st.users[s.user.id] == s.user
    && s.user.LinkedTo(profile.provider, profile.id) && s.user.isActive
    && s.token in st.sessions && st.sessions[s.token].userId == s.user.id
  }

  lemma {:induction false} UpdateKeepsLink(st: AuthState, u: User, up: Updates, profile: Profile)
    requires WellFormed(st.users) && up.email.None?
    requires u.id in st.users && st.users[u.id] == u
    ensures var (st1, r) := UpdateUser(st, u.id, up);
            && WellFormed(st1.users) && st1.users.Keys == st.users.Keys
            && r == Ok(Updated(u, up)) && st1.users[u.id] == r.value
            && r.value.id == u.id && r.value.isActive == u.isActive
            && r.value.LinkedTo(profile.provider, profile.id) == u.LinkedTo(profile.provider, profile.id)
  {
    StepWellFormed(st, OpUpdateUser(u.id, up));
  }

  lemma {:induction false} LinkLinks(st: AuthState, u: User, profile: Profile)
    requires WellFormed(st.users) && profile.id != ""
    requires u.id in st.users && st.users[u.id] == u
    requires !OAuthUsed(st.users, profile.provider, profile.id)
    ensures var (st1, r) := LinkOAuth(st, u.id, profile.provider, profile.id, profile.avatarUrl);
            && WellFormed(st1.users) && st1.users.Keys == st.users.Keys
            && r.Ok? && r.value.id == u.id && st1.users[u.id] == r.value && r.value.isActive == u.isActive
            && r.value.LinkedTo(profile.provider, profile.id)
  {
    StepWellFormed(st, OpLinkOAuth(u.id, profile.provider, profile.id, profile.avatarUrl));
  }

  lemma {:induction false} RegisterLinks(st: AuthState, profile: Profile, cfg: Config, id: string, now: int)
    requires WellFormed(st.users) && profile.id != "" && id !in st.users
    requires !OAuthUsed(st.users, profile.provider, profile.id) && !EmailUsed(st.users, profile.email)
    ensures var (st1, r) := CreateUser(st, Registration(profile, cfg), id, now);
            && WellFormed(st1.users) && st1.users.Keys == st.users.Keys + {id}
            && r.Ok? && r.value.id == id && st1.users[id] == r.value && r.value.isActive
            && r.value.LinkedTo(profile.provider, profile.id)
  {
    StepWellFormed(st, OpCreateUser(Registration(profile, cfg), id, now));
  }

  lemma {:induction false} FoundIsStored(st: AuthState, profile: Profile)
    requires WellFormed(st.users)
    ensures var u := FindByOAuth(st.users, profile.provider, profile.id);
            u.Some? ==> u.value.id in st.users && st.users[u.value.id] == u.value
                        && u.value.LinkedTo(profile.provider, profile.id)
    ensures var u := FindByEmail(st.users, profile.email);
            u.Some? ==> u.value.id in st.users && st.users[u.value.id] == u.value
  {
  }

  lemma {:induction false} SignInByEmailLinks(st: AuthState, profile: Profile, cfg: Config, drawn: Drawn, now: int)
    requires WellFormed(st.users) && profile.id != "" && drawn.userId !in st.users
    requires !OAuthUsed(st.users, profile.provider, profile.id)
    ensures var (st', r) := SignInByEmail(st, profile, cfg, drawn, now);
            && WellFormed(st'.users)
            && (r.Err? ==> r.error !in {EmailUnique, OAuthUnique, NotFound})
            && (r.Ok? ==> SignedIn(st', profile, r.value))
            && st'.users.Keys == st.users.Keys +
                 (if cfg.autoRegister && !EmailUsed(st.users, profile.email) then {drawn.userId} else {})
  {
    var byEmail := FindByEmail(st.users, profile.email);
    FoundIsStored(st, profile);
    if byEmail.Some? {
      LinkLinks(st, byEmail.value, profile);
      var (st1, r1) := LinkOAuth(st, byEmail.value.id, profile.provider, profile.id, profile.avatarUrl);
      UpdateKeepsLink(st1, r1.value, NoUpdates.(lastLoginAt := Some(now)), profile);
    } else {
      RegisterLinks(st, profile, cfg, drawn.userId, now);
    }
  }

  lemma {:induction false} LoginKeepsLink(st: AuthState, u: User, profile: Profile, cfg: Config, drawn: Drawn, now: int)
    requires WellFormed(st.users) && u.id in st.users && st.users[u.id] == u
    requires u.LinkedTo(profile.provider, profile.id)
    ensures var (st', r) := LoginLinked(st, u, profile, cfg, drawn, now);
            && WellFormed(st'.users) && st'.users.Keys == st.users.Keys
            && (r.Err? ==> r.error in {AccountDisabled, NoSecret})
            && (r.Ok? ==> SignedIn(st', profile, r.value))
  {
    UpdateKeepsLink(st, u,
      NoUpdates.(name := Some(profile.name), avatarUrl := profile.avatarUrl, lastLoginAt := Some(now)), profile);
  }

  /** SIGN-IN, one call: it never fails on uniqueness; on success the provider account
      points at the session's user; and a user is added exactly when both lookups
      missed and registration is open. */
  lemma {:induction false} SignInLinks(st: AuthState, profile: Profile, cfg: Config, drawn: Drawn, now: int)
    requires WellFormed(st.users) && profile.id != "" && drawn.userId !in st.users
    ensures var (st', r) := SignIn(st, profile, cfg, drawn, now);
            && WellFormed(st'.users)
            && (r.Err? ==> r.error !in {EmailUnique, OAuthUnique, NotFound})
            && (r.Ok? ==> SignedIn(st', profile, r.value))
            && st'.users.Keys == st.users.Keys +
                 (if r != Err(OrgDenied) && cfg.autoRegister && !OAuthUsed(st.users, profile.provider, profile.id)
                     && !EmailUsed(st.users, profile.email)
                  then {drawn.userId} else {})
  {
    var byOAuth := FindByOAuth(st.users, profile.provider, profile.id);
    FoundIsStored(st, profile);
    if byOAuth.Some? {
      LoginKeepsLink(st, byOAuth.value, profile, cfg, drawn, now);
    } else {
      SignInByEmailLinks(st, profile, cfg, drawn, now);
    }
  }

  /** The link is the one the provider lookup finds. */
  lemma {:induction false} LinkedUnique(users: map<string, User>, id: string, p: Provider, pid: string)
    requires WellFormed(users) && id in users && users[id].LinkedTo(p, pid)
    ensures FindByOAuth(users, p, pid) == Some(users[id])
  {
    assert OAuthUsed(users, p, pid);
    var found := FindByOAuth(users, p, pid);
    var i :| i in users && users[i] == found.value && users[i].LinkedTo(p, pid);
    assert users[i].SameLink(users[id]);
  }

  lemma {:induction false} SignInNeeds(st: AuthState, profile: Profile, cfg: Config, drawn: Drawn, now: int)
    requires SignIn(st, profile, cfg, drawn, now).1.Ok?
    ensures OrgAllowed(profile, cfg) && cfg.hasSecret
  {
  }

  /** An active user who is already linked signs in as themselves. */
  lemma {:induction false} LinkedSignsIn(st: AuthState, u: User, profile: Profile, cfg: Config, drawn: Drawn, now: int)
    requires WellFormed(st.users) && OrgAllowed(profile, cfg) && cfg.hasSecret
    requires u.id in st.users && st.users[u.id] == u && u.isActive && u.LinkedTo(profile.provider, profile.id)
    ensures var (st', r) := SignIn(st, profile, cfg, drawn, now);
            r.Ok? && r.value.user.id == u.id && st'.users.Keys == st.users.Keys
  {
    LinkedUnique(st.users, u.id, profile.provider, profile.id);
    UpdateKeepsLink(st, u,
      NoUpdates.(name := Some(profile.name), avatarUrl := profile.avatarUrl, lastLoginAt := Some(now)), profile);
  }

  /** SIGN-IN IS STABLE: signing in again right away, at any later time and with any
      fresh values, succeeds as the same user and adds nobody. */
  lemma {:induction false} SignInStable(st: AuthState, profile: Profile, cfg: Config, drawn: Drawn, now: int,
                                        again: Drawn, later: int)
    requires WellFormed(st.users) && profile.id != "" && drawn.userId !in st.users
    requires SignIn(st, profile, cfg, drawn, now).1.Ok?
    ensures var (st', r) := SignIn(st, profile, cfg, drawn, now);
            var (st'', r') := SignIn(st', profile, cfg, again, later);
            && FindByOAuth(st'.users, profile.provider, profile.id) == Some(r.value.user)
            && r'.Ok? && r'.value.user.id == r.value.user.id
            && st''.users.Keys == st'.users.Keys
  {
    SignInLinks(st, profile, cfg, drawn, now);
    SignInNeeds(st, profile, cfg, drawn, now);
    var (st', r) := SignIn(st, profile, cfg, drawn, now);
    LinkedUnique(st'.users, r.value.user.id, profile.provider, profile.id);
    LinkedSignsIn(st', r.value.user, profile, cfg, again, later);
  }

  /** A witness for the empty id: once one user linked it nobody else can, and the lookup
      still finds that user after a real link replaced it. */
  lemma {:induction false} EmptyIdWitness(a: User, b: User)
    requires a.id != b.id
    ensures var st := AuthState(map[a.id := a, b.id := b], map[], map[]);
            var st1 := LinkOAuth(st, a.id, Github, "", None).0;
            var st2 := LinkOAuth(st1, a.id, Github, "7", None).0;
            && LinkOAuth(st1, b.id, Github, "", None).1 == Err(OAuthUnique)
            && (LinkOAuth(st1, a.id, Github, "7", None).1.Ok? ==> LookupOAuth(st2, Github, "") == Some(st2.users[a.id]))
  {
  }

  // ----- What each call answers, field by field -----

  /** createUser: an email, and a non-empty provider link, may be taken only once; a missing
      flag means active, a missing role the ordinary one. */
  lemma {:induction false} CreatedUser(st: AuthState, data: NewUser, id: string, now: int)
    ensures CreateUser(st, data, id, now).1 == Err(EmailUnique) <==>
            exists i :: i in st.users && st.users[i].email == data.email
    ensures CreateUser(st, data, id, now).1 == Err(OAuthUnique) <==>
            && (forall i :: i in st.users ==> st.users[i].email != data.email)
            && data.oauthProvider.Some? && data.oauthId.Some? && data.oauthId.value != ""
            && exists i :: i in st.users && st.users[i].oauthProvider == data.oauthProvider
                           && st.users[i].oauthId == data.oauthId
    ensures var (st', r) := CreateUser(st, data, id, now);
            match r
            case Err(e) => st' == st && e in {EmailUnique, OAuthUnique}
            case Ok(u) =>
              && st' == st.(users := st.users[id := u])
              && u.id == id && u.email == data.email && u.name == data.name && u.passwordHash == data.passwordHash
              && u.isActive == (data.isActive != Some(false))
              && u.role == (match data.role case None => RegularUser case Some(role) => role)
              && u.oauthProvider == data.oauthProvider && u.oauthId == data.oauthId && u.avatarUrl == data.avatarUrl
              && u.lastLoginAt == None && u.createdAt == now
  {
    var u := Build(data, id, now);
    assert u.Linked() ==> forall i :: i in st.users ==>
      (st.users[i].LinkedTo(u.oauthProvider.value, u.oauthId.value) <==>
       st.users[i].oauthProvider == data.oauthProvider && st.users[i].oauthId == data.oauthId);
  }

  /** updateUser: each field given is taken over, every other stays. */
  lemma {:induction false} UpdatedUser(st: AuthState, id: string, up: Updates)
    ensures UpdateUser(st, id, up).1 == Err(NotFound) <==> id !in st.users
    ensures UpdateUser(st, id, up).1 == Err(EmailUnique) <==>
            id in st.users && up.email.Some? && up.email.value != st.users[id].email &&
            exists i :: i in st.users && st.users[i].email == up.email.value
    ensures var (st', r) := UpdateUser(st, id, up);
            match r
            case Err(e) => st' == st && e in {NotFound, EmailUnique}
            case Ok(u) =>
              && id in st.users && st' == st.(users := st.users[id := u])
              && (match up.email case Some(x) => u.email == x case None => u.email == st.users[id].email)
              && (match up.name case Some(x) => u.name == x case None => u.name == st.users[id].name)
              && (if up.passwordHash.Some? then u.passwordHash == up.passwordHash
                  else u.passwordHash == st.users[id].passwordHash)
              && (if up.lastLoginAt.Some? then u.lastLoginAt == up.lastLoginAt
                  else u.lastLoginAt == st.users[id].lastLoginAt)
              && (if up.avatarUrl.Some? then u.avatarUrl == up.avatarUrl else u.avatarUrl == st.users[id].avatarUrl)
              && (u.id, u.isActive, u.role, u.createdAt) ==
                 (st.users[id].id, st.users[id].isActive, st.users[id].role, st.users[id].createdAt)
              && (u.oauthProvider, u.oauthId) == (st.users[id].oauthProvider, st.users[id].oauthId)
  {
  }

  /** linkOAuth: the link and the picture, if one is given, change; a taken link is refused. */
  lemma {:induction false} LinkedUser(st: AuthState, id: string, p: Provider, pid: string, avatarUrl: Option<string>)
    ensures LinkOAuth(st, id, p, pid, avatarUrl).1 == Err(NotFound) <==> id !in st.users
    ensures pid != "" ==>
              (LinkOAuth(st, id, p, pid, avatarUrl).1 == Err(OAuthUnique) <==>
               && id in st.users
               && exists i :: i in st.users && st.users[i].oauthProvider == Some(p) && st.users[i].oauthId == Some(pid))
    ensures var (st', r) := LinkOAuth(st, id, p, pid, avatarUrl);
            match r
            case Err(e) => st' == st && e in {NotFound, OAuthUnique}
            case Ok(u) =>
              && id in st.users && st'.users == st.users[id := u] && st'.sessions == st.sessions
              && u == st.users[id].(oauthProvider := Some(p), oauthId := Some(pid), avatarUrl := u.avatarUrl)
              && u.avatarUrl == (if avatarUrl == None then st.users[id].avatarUrl else avatarUrl)
              && (pid != "" ==> st'.emptyLinks == st.emptyLinks)
  {
    assert pid != "" ==> forall i :: i in st.users ==>
      (st.users[i].LinkedTo(p, pid) <==> st.users[i].oauthProvider == Some(p) && st.users[i].oauthId == Some(pid));
  }

  /** updateUserRole and deactivateUser change one field of one user. */
  lemma {:induction false} RoleAndActivity(st: AuthState, id: string, role: Role)
    ensures UpdateRole(st, id, role) ==
            if id !in st.users then (st, Err(NotFound))
            else (st.(users := st.users[id := st.users[id].(role := role)]), Ok(st.users[id].(role := role)))
    ensures id in st.users ==>
              var u := st.users[id].(isActive := false);
              Deactivate(st, id).0.users == st.users[id := u] && Deactivate(st, id).1 == Ok(u)
    ensures id !in st.users ==> Deactivate(st, id) == (st, Err(NotFound))
  {
  }

  /** Sessions come and go by token, and by user. */
  lemma {:induction false} SessionOps(st: AuthState, token: string, session: Session, userId: string)
    ensures Step(st, OpCreateSession(token, session)) == st.(sessions := st.sessions[token := session])
    ensures Step(st, OpDeleteSession(token)) == st.(sessions := st.sessions - {token})
    ensures forall t :: t in Step(st, OpDeleteSessionsOf(userId)).sessions <==>
              t in st.sessions && st.sessions[t].userId != userId
    ensures Step(st, OpDeleteSessionsOf(userId)).users == st.users
    ensures Step(st, OpDropSession(session.id, token)).sessions ==
            if token in st.sessions && st.sessions[token].id == session.id then st.sessions - {token} else st.sessions
  {
  }

  /** validateToken: it answers the stored user of the session, and does so exactly for a
      genuine token of a session that is not over, whose user is the token's and active. */
  lemma {:induction false} ValidatesIff(st: AuthState, hasSecret: bool, verified: Option<Payload>, token: string,
                                        now: int, u: User)
    ensures ValidateToken(st, hasSecret, verified, token, now) == Some(u) <==>
            exists payload, session ::
              && hasSecret && verified == Some(payload) && token in st.sessions && st.sessions[token] == session
              && now <= session.expiresAt && session.userId == payload.userId
              && payload.userId in st.users && st.users[payload.userId] == u && u.isActive
  {
    if ValidateToken(st, hasSecret, verified, token, now) == Some(u) {
      assert verified == Some(verified.value) && st.sessions[token] == st.sessions[token];
    }
  }

  /** ORG RESTRICTION. A sign-in is denied exactly when its provider's list of organizations
      (GitHub) or groups (GitLab) is not empty and names none of the profile's; then the
      store stays as it is. */
  lemma {:induction false} OrgDeniedIff(st: AuthState, profile: Profile, cfg: Config, drawn: Drawn, now: int)
    ensures SignIn(st, profile, cfg, drawn, now).1 == Err(OrgDenied) <==>
            || (profile.provider == Github && cfg.allowedOrgs != [] &&
                forall o :: o in profile.orgs ==> o !in cfg.allowedOrgs)
            || (profile.provider == Gitlab && cfg.allowedGroups != [] &&
                forall o :: o in profile.orgs ==> o !in cfg.allowedGroups)
    ensures SignIn(st, profile, cfg, drawn, now).1 == Err(OrgDenied) ==> SignIn(st, profile, cfg, drawn, now).0 == st
  {
  }

  /** The session a sign-in opens for the user: it is stored under the drawn token and ends
      after the configured time. Without a signing secret there is none. */
  ghost predicate Opens(users: map<string, User>, st: AuthState, u: User, cfg: Config, drawn: Drawn, now: int,
                        after: AuthState, r: Result<AuthSession>) {
    && after.users == users && after.emptyLinks == st.emptyLinks
    && (cfg.hasSecret ==>
          && r == Ok(AuthSession(drawn.token, u, now + cfg.sessionMs))
          && after.sessions == st.sessions[drawn.token := Session(drawn.sessionId, u.id, now + cfg.sessionMs)])
    && (!cfg.hasSecret ==> r == Err(NoSecret) && after.sessions == st.sessions)
  }

  /** A known provider account: its user signs in, with name, picture and time of login
      brought up to date, unless it is disabled. */
  lemma {:induction false} SignInKnown(st: AuthState, u: User, profile: Profile, cfg: Config, drawn: Drawn, now: int)
    requires WellFormed(st.users) && u.id in st.users && st.users[u.id] == u
    requires u.oauthProvider == Some(profile.provider) && u.oauthId == Some(profile.id) && profile.id != ""
    requires SignIn(st, profile, cfg, drawn, now).1 != Err(OrgDenied)
    ensures var (after, r) := SignIn(st, profile, cfg, drawn, now);
            if !u.isActive then (after, r) == (st, Err(AccountDisabled))
            else
              var avatarUrl := if profile.avatarUrl == None then u.avatarUrl else profile.avatarUrl;
              var u' := u.(name := profile.name, avatarUrl := avatarUrl, lastLoginAt := Some(now));
              Opens(st.users[u.id := u'], st, u', cfg, drawn, now, after, r)
  {
    LinkedUnique(st.users, u.id, profile.provider, profile.id);
  }

  ghost predicate NobodyLinked(st: AuthState, profile: Profile) {
    forall i :: i in st.users ==> !(st.users[i].oauthProvider == Some(profile.provider)
                                    && st.users[i].oauthId == Some(profile.id))
  }

  lemma {:induction false} NotUsed(st: AuthState, profile: Profile)
    requires NobodyLinked(st, profile)
    ensures !OAuthUsed(st.users, profile.provider, profile.id)
  {
  }

  /** A known email: its user gets the provider account and signs in, unless disabled. */
  lemma {:induction false} SignInByKnownMail(st: AuthState, u: User, profile: Profile, cfg: Config, drawn: Drawn,
                                             now: int)
    requires WellFormed(st.users) && u.id in st.users && st.users[u.id] == u && u.email == profile.email
    requires NobodyLinked(st, profile) && profile.id != ""
    requires SignIn(st, profile, cfg, drawn, now).1 != Err(OrgDenied)
    ensures var (after, r) := SignIn(st, profile, cfg, drawn, now);
            if !u.isActive then (after, r) == (st, Err(AccountDisabled))
            else
              var avatarUrl := if profile.avatarUrl == None then u.avatarUrl else profile.avatarUrl;
              var u' := u.(oauthProvider := Some(profile.provider), oauthId := Some(profile.id), avatarUrl := avatarUrl,
                           lastLoginAt := Some(now));
              Opens(st.users[u.id := u'], st, u', cfg, drawn, now, after, r)
  {
    NotUsed(st, profile);
    assert EmailUsed(st.users, profile.email);
    assert FindByEmail(st.users, profile.email) == Some(u);
    LinkThenLogin(st, u, profile, cfg, drawn, now);
  }

  lemma {:induction false} LinkThenLogin(st: AuthState, u: User, profile: Profile, cfg: Config, drawn: Drawn, now: int)
    requires u.id in st.users && st.users[u.id] == u && profile.id != ""
    requires !OAuthUsed(st.users, profile.provider, profile.id)
    ensures var (after, r) := LinkAndLogin(st, u, profile, cfg, drawn, now);
            if !u.isActive then (after, r) == (st, Err(AccountDisabled))
            else
              var avatarUrl := if profile.avatarUrl == None then u.avatarUrl else profile.avatarUrl;
              var u' := u.(oauthProvider := Some(profile.provider), oauthId := Some(profile.id), avatarUrl := avatarUrl,
                           lastLoginAt := Some(now));
              Opens(st.users[u.id := u'], st, u', cfg, drawn, now, after, r)
  {
    if u.isActive {
      var (st1, r1) := LinkOAuth(st, u.id, profile.provider, profile.id, profile.avatarUrl);
      var (st2, r2) := UpdateUser(st1, u.id, NoUpdates.(lastLoginAt := Some(now)));
      assert r1.Ok? && r2.Ok?;
      assert st2.users == st.users[u.id := r2.value];
    }
  }

  /** A new account: with open registration an active user with the profile's data, the
      default role and no password is added and signs in. */
  lemma {:induction false} SignInNew(st: AuthState, profile: Profile, cfg: Config, drawn: Drawn, now: int)
    requires NobodyLinked(st, profile) && forall i :: i in st.users ==> st.users[i].email != profile.email
    requires SignIn(st, profile, cfg, drawn, now).1 != Err(OrgDenied)
    ensures var (after, r) := SignIn(st, profile, cfg, drawn, now);
            if !cfg.autoRegister then (after, r) == (st, Err(RegistrationDisabled))
            else
              var u := User(drawn.userId, profile.email, profile.name, None, true, cfg.defaultRole,
                            Some(profile.provider), Some(profile.id), profile.avatarUrl, None, now);
              Opens(st.users[u.id := u], st, u, cfg, drawn, now, after, r)
  {
    NotUsed(st, profile);
  }

  /** The token of a successful sign-in validates as its user until it expires and not
      after, as long as nothing else happens. */
  lemma {:induction false} SignInValidates(st: AuthState, profile: Profile, cfg: Config, drawn: Drawn, now: int,
                                           payload: Payload, later: int)
    requires WellFormed(st.users) && profile.id != "" && drawn.userId !in st.users
    requires SignIn(st, profile, cfg, drawn, now).1.Ok?
    requires payload.userId == SignIn(st, profile, cfg, drawn, now).1.value.user.id
    ensures var (after, r) := SignIn(st, profile, cfg, drawn, now);
            ValidateToken(after, true, Some(payload), r.value.token, later) ==
            if later <= now + cfg.sessionMs then Some(r.value.user) else None
  {
    SignInLinks(st, profile, cfg, drawn, now);
    SessionEnds(st, profile, cfg, drawn, now);
  }

  lemma {:induction false} SessionEnds(st: AuthState, profile: Profile, cfg: Config, drawn: Drawn, now: int)
    requires SignIn(st, profile, cfg, drawn, now).1.Ok?
    ensures var (after, r) := SignIn(st, profile, cfg, drawn, now);
            r.value.token in after.sessions && after.sessions[r.value.token].expiresAt == now + cfg.sessionMs
  {
  }
}
