/**
 The in-memory account store (server/auth/storage.ts): three maps alias the same
 mutable user objects. `Coherent` says the email and provider indexes are the inverse
 images of the users' current fields, up to provider entries for an empty id; every
 call keeps it, and is proved to do what `AuthModel` says on the users' values. `Exact`
 says that there are no such entries; only linking an empty id makes one.
 */
module AuthStore {
  import opened Wrappers
  import opened AuthModel

  function Name(p: Provider): string {
    match p case Github => "github" case Gitlab => "gitlab"
  }

  /** The string key of the provider index, `provider:id`. */
  function OAuthKey(p: Provider, pid: string): string { Name(p) + ":" + pid }

  /** The key tells provider and id apart, because no provider name contains a colon. */
  lemma {:induction false} OAuthKeyInjective(p: Provider, pid: string, q: Provider, qid: string)
    requires OAuthKey(p, pid) == OAuthKey(q, qid)
    ensures p == q && pid == qid
  {
    assert OAuthKey(p, pid)[3] == Name(p)[3] && OAuthKey(q, qid)[3] == Name(q)[3];
    assert OAuthKey(p, pid)[7..] == pid && OAuthKey(q, qid)[7..] == qid;
  }

  /** Whether a key of the index has an id: both provider names have six letters, so a
      key without one has seven characters. */
  predicate HasId(k: string) { |k| > 7 }

  lemma {:induction false} EmptyKey(p: Provider, pid: string)
    ensures HasId(OAuthKey(p, pid)) <==> pid != ""
  {
  }

  lemma {:induction false} NewValue<T>(m: map<string, T>, k: string, v: T)
    requires k !in m
    ensures m[k := v].Values == m.Values + {v}
  {
    var t := m[k := v];
    forall x ensures x in t.Values <==> x in m.Values + {v} {
      if x in m.Values {
        var i :| i in m && m[i] == x;
        assert i in t && t[i] == x;
      }
      assert k in t && t[k] == v;
    }
  }

  lemma {:induction false} WrittenTwice<T>(m: map<string, T>, k: string, a: T, b: T)
    ensures m[k := a][k := b] == m[k := b]
  {
  }

  /** A stored account: one mutable object, shared by the maps that lead to it. */
  class StoredUser {
    const id: string
    var user: User

    constructor (u: User)
      ensures user == u && id == u.id
    {
      id, user := u.id, u;
    }
  }

  function KeyOf(u: User): string
    requires u.Linked()
  {
    OAuthKey(u.oauthProvider.value, u.oauthId.value)
  }

  /** The user carries the provider key now; an entry for an empty id may be about anyone. */
  predicate Carries(u: User, k: string) {
    HasId(k) ==> u.Linked() && KeyOf(u) == k
  }

  class MemAuthStorage {
    var usersById: map<string, StoredUser>
    var usersByEmail: map<string, StoredUser>
    var usersByOAuth: map<string, StoredUser>
    var sessions: map<string, Session>

    /** The object is the one stored under its own id. */
    ghost predicate Holds(u: StoredUser)
      reads `usersById
    {
      u.id in usersById && usersById[u.id] == u
    }

    ghost predicate IdsHold()
      reads `usersById, usersById.Values
    {
      forall i :: i in usersById ==> usersById[i].id == i && usersById[i].user.id == i
    }

    ghost predicate EmailsHold()
      requires IdsHold()
      reads `usersById, `usersByEmail, usersById.Values
    {
      && (forall e :: e in usersByEmail ==> Holds(usersByEmail[e]) && usersByEmail[e].user.email == e)
      && (forall i :: i in usersById ==>
            usersById[i].user.email in usersByEmail && usersByEmail[usersById[i].user.email] == usersById[i])
    }

    ghost predicate LinksHold()
      requires IdsHold()
      reads `usersById, `usersByOAuth, usersById.Values
    {
      && (forall k :: k in usersByOAuth ==> Holds(usersByOAuth[k]) && Carries(usersByOAuth[k].user, k))
      && (forall i :: i in usersById && usersById[i].user.Linked() ==>
            KeyOf(usersById[i].user) in usersByOAuth && usersByOAuth[KeyOf(usersById[i].user)] == usersById[i])
    }

    /** Every index entry leads to a stored object that carries the entry's key now,
        (or an empty provider id), and every stored object is found under each of its
        current keys. */
    ghost predicate Coherent()
      reads `usersById, `usersByEmail, `usersByOAuth, usersById.Values
    {
      IdsHold() && EmailsHold() && LinksHold()
    }

    ghost function Users(): map<string, User>
      reads `usersById, usersById.Values
    {
      map i | i in usersById :: usersById[i].user
    }

    /** The provider index has no entry but the users' current links. */
    ghost predicate Exact()
      reads `usersByOAuth
    {
      forall k :: k in usersByOAuth ==> HasId(k)
    }

    ghost function EmptyLinks(): map<Provider, string>
      reads `usersByOAuth
    {
      map p: Provider | OAuthKey(p, "") in usersByOAuth :: usersByOAuth[OAuthKey(p, "")].id
    }

    ghost function State(): AuthState
      reads this, usersById.Values
    {
      AuthState(Users(), EmptyLinks(), sessions)
    }

    constructor ()
      ensures Coherent() && Exact() && State() == AuthState(map[], map[], map[])
    {
      usersById, usersByEmail, usersByOAuth, sessions := map[], map[], map[], map[];
    }

    /** Coherent indexes make emails and links unique. */
    lemma {:induction false} CoherentWellFormed()
      requires Coherent()
      ensures WellFormed(Users())
    {
      forall i, j | i in Users() && j in Users() && Users()[i].SameLink(Users()[j]) ensures i == j {
        assert KeyOf(usersById[i].user) == KeyOf(usersById[j].user);
      }
    }

    lemma {:induction false} EmailIndex(email: string)
      requires Coherent()
      ensures email in usersByEmail <==> EmailUsed(Users(), email)
    {
      if email in usersByEmail {
        assert Users()[usersByEmail[email].id].email == email;
      }
    }

    lemma {:induction false} OAuthIndex(p: Provider, pid: string)
      requires Coherent()
      ensures OAuthKey(p, pid) in usersByOAuth <==> LinkTaken(State(), p, pid)
    {
      EmptyKey(p, pid);
      if OAuthKey(p, pid) in usersByOAuth && pid != "" {
        var u := usersByOAuth[OAuthKey(p, pid)];
        OAuthKeyInjective(u.user.oauthProvider.value, u.user.oauthId.value, p, pid);
        assert Users()[u.id].LinkedTo(p, pid);
      }
    }

    /** One object was written, at most its own index entries moved with it, and the
        set of stored objects is the old one plus possibly that object. */
    twostate predicate WroteOnly(new u: StoredUser)
      reads *
    {
      && u.user.id == u.id
      && usersById == old(usersById)[u.id := u]
      && (forall i :: i in old(usersById) && i != u.id ==> unchanged(old(usersById)[i]))
    }

    twostate lemma WroteUsers(new u: StoredUser)
      requires WroteOnly(u)
      ensures Users() == old(Users())[u.id := u.user]
    {
    }

    /** If the email index dropped the object's old email and gained its new one,
        which nobody else had, it is coherent again. */
    twostate lemma WroteEmail(new u: StoredUser, dropped: set<string>)
      requires old(IdsHold() && EmailsHold()) && WroteOnly(u) && IdsHold()
      requires u.id in old(usersById) ==> old(usersById)[u.id] == u
      requires forall e :: e in old(usersByEmail) ==> (e in dropped <==> old(usersByEmail)[e] == u && e != u.user.email)
      requires u.user.email in old(usersByEmail) ==> old(usersByEmail)[u.user.email] == u
      requires usersByEmail == (old(usersByEmail) - dropped)[u.user.email := u]
      ensures EmailsHold()
    {
      forall e | e in usersByEmail ensures Holds(usersByEmail[e]) && usersByEmail[e].user.email == e {
        if e != u.user.email { assert old(Holds(usersByEmail[e])); }
      }
    }

    /** The same for the provider index, for an object that is linked now. */
    twostate lemma WroteLink(new u: StoredUser, dropped: set<string>)
      requires old(IdsHold() && LinksHold()) && WroteOnly(u) && IdsHold()
      requires u.id in old(usersById) ==> old(usersById)[u.id] == u
      requires u.user.Linked() && (KeyOf(u.user) in old(usersByOAuth) ==> old(usersByOAuth)[KeyOf(u.user)] == u)
      requires forall k :: k in old(usersByOAuth) && HasId(k) ==>
                 (k in dropped <==> old(usersByOAuth)[k] == u && k != KeyOf(u.user))
      requires forall k :: k in dropped ==> HasId(k)
      requires usersByOAuth == (old(usersByOAuth) - dropped)[KeyOf(u.user) := u]
      ensures LinksHold()
    {
      forall k | k in usersByOAuth ensures Holds(usersByOAuth[k]) && Carries(usersByOAuth[k].user, k) {
        if k != KeyOf(u.user) { assert old(Holds(usersByOAuth[k])); }
      }
    }

    /** An index is untouched when the object's key in it did not change. */
    twostate lemma SameLink(u: StoredUser)
      requires old(IdsHold() && LinksHold()) && WroteOnly(u) && IdsHold()
      requires old(Holds(u)) && u.user.oauthProvider == old(u.user).oauthProvider &&
               u.user.oauthId == old(u.user).oauthId
      requires usersByOAuth == old(usersByOAuth)
      ensures LinksHold()
    {
      forall k | k in usersByOAuth ensures Holds(usersByOAuth[k]) && Carries(usersByOAuth[k].user, k) {
        assert old(Holds(usersByOAuth[k]));
      }
    }

    /** A new object under a key nobody had keeps an index coherent. */
    twostate lemma AddedEmail(new u: StoredUser)
      requires old(IdsHold() && EmailsHold()) && WroteOnly(u) && IdsHold()
      requires u.id !in old(usersById) && u.user.email !in old(usersByEmail)
      requires usersByEmail == old(usersByEmail)[u.user.email := u]
      ensures EmailsHold()
    {
      forall e | e in old(usersByEmail) ensures Holds(usersByEmail[e]) && usersByEmail[e].user.email == e {
        assert old(Holds(usersByEmail[e]));
      }
    }

    twostate lemma AddedLink(new u: StoredUser)
      requires old(IdsHold() && LinksHold()) && WroteOnly(u) && IdsHold()
      requires u.id !in old(usersById)
      requires u.user.Linked() ==>
               KeyOf(u.user) !in old(usersByOAuth) && usersByOAuth == old(usersByOAuth)[KeyOf(u.user) := u]
      requires !u.user.Linked() ==> usersByOAuth == old(usersByOAuth)
      ensures LinksHold()
    {
      forall k | k in old(usersByOAuth) ensures Holds(usersByOAuth[k]) && Carries(usersByOAuth[k].user, k) {
        assert old(Holds(usersByOAuth[k]));
      }
    }

    twostate lemma SameEmail(u: StoredUser)
      requires old(IdsHold() && EmailsHold()) && WroteOnly(u) && IdsHold()
      requires old(Holds(u)) && u.user.email == old(u.user).email
      requires usersByEmail == old(usersByEmail)
      ensures EmailsHold()
    {
      forall e | e in usersByEmail ensures Holds(usersByEmail[e]) && usersByEmail[e].user.email == e {
        assert old(Holds(usersByEmail[e]));
      }
    }

    /** The index entries for empty ids did not change. */
    twostate lemma SameEmptyLinks()
      requires forall k :: !HasId(k) ==> (k in usersByOAuth <==> k in old(usersByOAuth))
      requires forall k :: !HasId(k) && k in usersByOAuth ==> usersByOAuth[k] == old(usersByOAuth)[k]
      ensures EmptyLinks() == old(EmptyLinks())
    {
    }

    method CreateUser(data: NewUser, id: string, now: int) returns (r: Result<User>)
      requires Coherent() && id !in usersById
      modifies this
      ensures Coherent() && fresh(usersById.Values - old(usersById.Values))
      ensures (State(), r) == AuthModel.CreateUser(old(State()), data, id, now)
      ensures r.Err? ==> unchanged(this)
    {
      EmailIndex(data.email);
      if data.email in usersByEmail { return Err(EmailUnique); }
      if data.oauthProvider.Some? && data.oauthId.Some? && data.oauthId.value != "" {
        OAuthIndex(data.oauthProvider.value, data.oauthId.value);
        if OAuthKey(data.oauthProvider.value, data.oauthId.value) in usersByOAuth { return Err(OAuthUnique); }
      }
      AddUser(Build(data, id, now));
      r := Ok(Build(data, id, now));
    }

    /** Stores a new object and enters it under each of its keys. */
    method AddUser(user: User)
      requires Coherent() && user.id !in usersById && user.email !in usersByEmail
      requires user.Linked() ==> KeyOf(user) !in usersByOAuth
      modifies this
      ensures Coherent() && fresh(usersById.Values - old(usersById.Values))
      ensures Users() == old(Users())[user.id := user] && EmptyLinks() == old(EmptyLinks()) && sessions == old(sessions)
    {
      var stored := StoreNew(user);
      NewValue(old(usersById), user.id, stored);
      WroteUsers(stored);
      AddedEmail(stored);
      AddedLink(stored);
      if user.Linked() { EmptyKey(user.oauthProvider.value, user.oauthId.value); }
      SameEmptyLinks();
    }

    /** Allocates the object and writes the three maps. */
    method StoreNew(user: User) returns (stored: StoredUser)
      modifies this
      ensures fresh(stored) && stored.user == user && stored.id == user.id
      ensures usersById == old(usersById)[user.id := stored] && usersByEmail == old(usersByEmail)[user.email := stored]
      ensures user.Linked() ==> usersByOAuth == old(usersByOAuth)[KeyOf(user) := stored]
      ensures !user.Linked() ==> usersByOAuth == old(usersByOAuth)
      ensures sessions == old(sessions)
    {
      stored := new StoredUser(user);
      usersById := usersById[user.id := stored];
      usersByEmail := usersByEmail[user.email := stored];
      if user.Linked() {
        usersByOAuth := usersByOAuth[KeyOf(user) := stored];
      }
    }

    method GetUserByEmail(email: string) returns (r: Option<User>)
      requires Coherent()
      ensures r == FindByEmail(Users(), email)
    {
      EmailIndex(email);
      if email !in usersByEmail { return None; }
      var stored := usersByEmail[email];
      ghost var found := FindByEmail(Users(), email);
      ghost var i :| i in Users() && Users()[i] == found.value && Users()[i].email == email;
      assert usersById[i] == stored;
      r := Some(stored.user);
    }

    method GetUserByOAuth(p: Provider, pid: string) returns (r: Option<User>)
      requires Coherent()
      ensures r == LookupOAuth(State(), p, pid)
    {
      OAuthIndex(p, pid);
      if OAuthKey(p, pid) !in usersByOAuth { return None; }
      var stored := usersByOAuth[OAuthKey(p, pid)];
      if pid == "" { return Some(stored.user); }
      EmptyKey(p, pid);
      ghost var found := FindByOAuth(Users(), p, pid);
      ghost var i :| i in Users() && Users()[i] == found.value && Users()[i].LinkedTo(p, pid);
      assert usersById[i] == stored;
      r := Some(stored.user);
    }

    /** Gives a user a new, unused email and moves its index entry. */
    method MoveEmail(stored: StoredUser, email: string)
      requires Coherent() && Holds(stored) && email !in usersByEmail
      modifies `usersByEmail, stored
      ensures Coherent() && stored.user == old(stored.user).(email := email)
      ensures Users() == old(Users())[stored.id := stored.user]
    {
      usersByEmail := usersByEmail - {stored.user.email};
      stored.user := stored.user.(email := email);
      usersByEmail := usersByEmail[email := stored];
      WroteUsers(stored);
      WroteEmail(stored, {old(stored.user.email)});
      SameLink(stored);
    }

    method UpdateUser(id: string, up: Updates) returns (r: Result<User>)
      requires Coherent()
      modifies this, usersById.Values
      ensures Coherent() && usersById == old(usersById)
      ensures (State(), r) == AuthModel.UpdateUser(old(State()), id, up)
      ensures r.Err? ==> unchanged(this) && forall u :: u in usersById.Values ==> unchanged(u)
    {
      if id !in usersById { return Err(NotFound); }
      var stored := usersById[id];
      assert stored in usersById.Values;
      if up.email.Some? && up.email.value != stored.user.email {
        EmailIndex(up.email.value);
        if up.email.value in usersByEmail { return Err(EmailUnique); }
      }
      Overwrite(stored, up);
      r := Ok(stored.user);
    }

    /** Applies the updates; a new email must be unused. */
    method Overwrite(stored: StoredUser, up: Updates)
      requires Coherent() && Holds(stored)
      requires up.email.Some? && up.email.value != stored.user.email ==> up.email.value !in usersByEmail
      modifies `usersByEmail, stored
      ensures Coherent() && stored.user == Updated(old(stored.user), up)
      ensures Users() == old(Users())[stored.id := stored.user]
    {
      if up.email.Some? && up.email.value != stored.user.email {
        MoveEmail(stored, up.email.value);
      }
      ghost var moved := stored.user;
      SetUser(stored, Updated(stored.user, up));
      WrittenTwice(old(Users()), stored.id, moved, stored.user);
    }

    /** Overwrites the fields of a user that no index depends on. */
    method SetUser(stored: StoredUser, user: User)
      requires Coherent() && Holds(stored)
      requires user.id == stored.user.id && user.email == stored.user.email
      requires user.oauthProvider == stored.user.oauthProvider && user.oauthId == stored.user.oauthId
      modifies stored
      ensures Coherent() && stored.user == user
      ensures Users() == old(Users())[stored.id := user]
    {
      stored.user := user;
      WroteUsers(stored);
      SameEmail(stored);
      SameLink(stored);
    }

    method UpdateUserRole(id: string, role: Role) returns (r: Result<User>)
      requires Coherent()
      modifies usersById.Values
      ensures Coherent()
      ensures (State(), r) == UpdateRole(old(State()), id, role)
    {
      if id !in usersById { return Err(NotFound); }
      var stored := usersById[id];
      assert stored in usersById.Values;
      SetUser(stored, stored.user.(role := role));
      r := Ok(stored.user);
    }

    method DeactivateUser(id: string) returns (r: Result<User>)
      requires Coherent()
      modifies this, usersById.Values
      ensures Coherent() && usersById == old(usersById)
      ensures (State(), r) == Deactivate(old(State()), id)
    {
      if id !in usersById { return Err(NotFound); }
      var stored := usersById[id];
      assert stored in usersById.Values;
      SetUser(stored, stored.user.(isActive := false));
      DeleteSessionsByUserId(id);
      r := Ok(stored.user);
    }

    /** Linking leaves the indexes coherent, and exact if and only if they were and it
        throws or the provider id is not empty. */
    method LinkOAuth(id: string, p: Provider, pid: string, avatarUrl: Option<string>) returns (r: Result<User>)
      requires Coherent()
      modifies this, usersById.Values
      ensures Coherent() && usersById == old(usersById)
      ensures Exact() <==> old(Exact()) && (r.Err? || pid != "")
      ensures (State(), r) == AuthModel.LinkOAuth(old(State()), id, p, pid, avatarUrl)
      ensures r.Err? ==> unchanged(this) && forall u :: u in usersById.Values ==> unchanged(u)
    {
      if id !in usersById { return Err(NotFound); }
      var stored := usersById[id];
      assert stored in usersById.Values;
      OAuthIndex(p, pid);
      if OAuthKey(p, pid) in usersByOAuth { return Err(OAuthUnique); }
      var user := stored.user.(oauthProvider := Some(p), oauthId := Some(pid),
                               avatarUrl := if avatarUrl.Some? then avatarUrl else stored.user.avatarUrl);
      Link(stored, user, p, pid);
      r := Ok(stored.user);
    }

    method Link(stored: StoredUser, user: User, p: Provider, pid: string)
      requires Coherent() && Holds(stored) && OAuthKey(p, pid) !in usersByOAuth
      requires user.id == stored.user.id && user.email == stored.user.email
      requires user.oauthProvider == Some(p) && user.oauthId == Some(pid)
      modifies `usersByOAuth, stored
      ensures Coherent() && (Exact() <==> old(Exact()) && pid != "")
      ensures stored.user == user
      ensures State() == old(State()).(users := old(Users())[stored.id := user],
                                       emptyLinks := if pid == "" then old(EmptyLinks())[p := stored.id]
                                           else old(EmptyLinks()))
    {
      if pid == "" { RelinkEmpty(stored, user, p); } else { Relink(stored, user); }
    }

    /** The provider entry of the object moves to its new link. */
    method Relink(stored: StoredUser, user: User)
      requires Coherent() && Holds(stored) && user.Linked() && KeyOf(user) !in usersByOAuth
      requires user.id == stored.user.id && user.email == stored.user.email
      modifies `usersByOAuth, stored
      ensures Coherent() && EmptyLinks() == old(EmptyLinks()) && (Exact() <==> old(Exact()))
      ensures stored.user == user && Users() == old(Users())[stored.id := user]
    {
      EmptyKey(user.oauthProvider.value, user.oauthId.value);
      ghost var stale := WriteLink(stored, user, OAuthKey(user.oauthProvider.value, user.oauthId.value));
      WroteUsers(stored);
      SameEmail(stored);
      WroteLink(stored, stale);
      SameEmptyLinks();
    }

    /** With an empty id the object has no link; the entry it gets is nobody's. */
    method RelinkEmpty(stored: StoredUser, user: User, p: Provider)
      requires Coherent() && Holds(stored) && !user.Linked() && OAuthKey(p, "") !in usersByOAuth
      requires user.id == stored.user.id && user.email == stored.user.email
      modifies `usersByOAuth, stored
      ensures Coherent() && EmptyLinks() == old(EmptyLinks())[p := stored.id] && !Exact()
      ensures stored.user == user && Users() == old(Users())[stored.id := user]
    {
      EmptyKey(p, "");
      ghost var stale := WriteLink(stored, user, OAuthKey(p, ""));
      WroteUsers(stored);
      SameEmail(stored);
      Unlinked(stored, stale, OAuthKey(p, ""));
      AddedEmptyLink(stored, p, stale);
    }

    /** The old entry goes if there is one, the fields change, and the new entry comes. */
    method WriteLink(stored: StoredUser, user: User, oauthKey: string) returns (ghost stale: set<string>)
      modifies `usersByOAuth, stored
      ensures forall k :: k in stale <==> old(stored.user).Linked() && k == KeyOf(old(stored.user))
      ensures forall k :: k in stale ==> HasId(k)
      ensures stored.user == user && usersByOAuth == (old(usersByOAuth) - stale)[oauthKey := stored]
    {
      stale := {};
      if stored.user.Linked() {
        EmptyKey(stored.user.oauthProvider.value, stored.user.oauthId.value);
        stale := {KeyOf(stored.user)};
        usersByOAuth := usersByOAuth - {KeyOf(stored.user)};
      }
      stored.user := user;
      usersByOAuth := usersByOAuth[oauthKey := stored];
    }

    /** An object without a link: its old entry went, and an entry for an empty id came. */
    twostate lemma Unlinked(u: StoredUser, new dropped: set<string>, new key: string)
      requires old(IdsHold() && LinksHold()) && WroteOnly(u) && IdsHold()
      requires old(Holds(u)) && !u.user.Linked() && !HasId(key)
      requires forall k :: k in dropped <==> old(u.user).Linked() && k == KeyOf(old(u.user))
      requires usersByOAuth == (old(usersByOAuth) - dropped)[key := u]
      ensures LinksHold()
    {
      forall k | k in usersByOAuth ensures Holds(usersByOAuth[k]) && Carries(usersByOAuth[k].user, k) {
        if k != key { assert old(Holds(usersByOAuth[k])); }
      }
    }

    twostate lemma AddedEmptyLink(u: StoredUser, new p: Provider, new dropped: set<string>)
      requires forall k :: k in dropped ==> HasId(k)
      requires usersByOAuth == (old(usersByOAuth) - dropped)[OAuthKey(p, "") := u]
      ensures EmptyLinks() == old(EmptyLinks())[p := u.id]
    {
      forall q: Provider ensures !HasId(OAuthKey(q, "")) && (OAuthKey(q, "") == OAuthKey(p, "") ==> q == p) {
        EmptyKey(q, "");
        if OAuthKey(q, "") == OAuthKey(p, "") { OAuthKeyInjective(q, "", p, ""); }
      }
    }

    method CreateSession(sessionId: string, userId: string, token: string, expiresAt: int)
      modifies `sessions
      ensures sessions == old(sessions)[token := Session(sessionId, userId, expiresAt)]
      ensures State() == old(State()).(sessions := sessions) && (old(Coherent()) ==> Coherent())
    {
      sessions := sessions[token := Session(sessionId, userId, expiresAt)];
    }

    method DeleteSession(token: string)
      modifies `sessions
      ensures sessions == old(sessions) - {token}
    {
      sessions := sessions - {token};
    }

    /** Deletes one session with the id, if there is one. */
    method DeleteSessionById(id: string) returns (ghost token: string)
      modifies `sessions
      ensures sessions == if token in old(sessions) && old(sessions)[token].id == id then old(sessions) - {token}
                          else old(sessions)
      ensures (token in old(sessions) && old(sessions)[token].id == id)
              || (forall t :: t in old(sessions) ==> old(sessions)[t].id != id)
    {
      var todo := sessions.Keys;
      token := "";
      while todo != {}
        invariant todo <= sessions.Keys && sessions == old(sessions)
        invariant forall t :: t in sessions.Keys - todo ==> sessions[t].id != id
        decreases todo
      {
        var t :| t in todo;
        if sessions[t].id == id {
          sessions := sessions - {t};
          token := t;
          return;
        }
        todo := todo - {t};
      }
    }

    method DeleteSessionsByUserId(userId: string)
      modifies `sessions
      ensures sessions == WithoutUser(old(sessions), userId)
      ensures State() == old(State()).(sessions := sessions) && (old(Coherent()) ==> Coherent())
    {
      var todo := sessions.Keys;
      while todo != {}
        invariant sessions.Keys <= old(sessions).Keys
        invariant forall t :: t in sessions ==> sessions[t] == old(sessions)[t]
        invariant todo <= sessions.Keys
        invariant forall t :: t in old(sessions) && t !in todo ==>
                  (t in sessions <==> old(sessions)[t].userId != userId)
        decreases todo
      {
        var t :| t in todo;
        if sessions[t].userId == userId { sessions := sessions - {t}; }
        todo := todo - {t};
      }
    }
  }

  /** AuthService and the OAuth sign-in over a store. Each call runs without another
      one in between. */
  class AuthService {
    const store: MemAuthStorage

    constructor (store: MemAuthStorage)
      ensures this.store == store
    {
      this.store := store;
    }

    method BuildSession(user: User, cfg: Config, drawn: Drawn, now: int) returns (r: Result<AuthSession>)
      requires store.Coherent()
      modifies store`sessions
      ensures store.Coherent()
      ensures (store.State(), r) == AuthModel.BuildSession(old(store.State()), user, cfg, drawn, now)
    {
      if !cfg.hasSecret { return Err(NoSecret); }
      var expiresAt := now + cfg.sessionMs;
      store.CreateSession(drawn.sessionId, user.id, drawn.token, expiresAt);
      r := Ok(AuthSession(drawn.token, user, expiresAt));
      ghost var st := old(store.State());
      assert store.State() == AuthModel.BuildSession(st, user, cfg, drawn, now).0;
      assert r == AuthModel.BuildSession(st, user, cfg, drawn, now).1;
    }

    method AuthenticateOAuth(profile: Profile, cfg: Config, drawn: Drawn, now: int) returns (r: Result<AuthSession>)
      requires store.Coherent() && profile.id != "" && drawn.userId !in store.usersById
      modifies store, store.usersById.Values
      ensures store.Coherent()
      ensures (store.State(), r) == SignIn(old(store.State()), profile, cfg, drawn, now)
    {
      if !OrgAllowed(profile, cfg) { return Err(OrgDenied); }
      var existingOAuth := store.GetUserByOAuth(profile.provider, profile.id);
      if existingOAuth.Some? {
        r := LoginExistingOAuthUser(existingOAuth.value, profile, cfg, drawn, now);
      } else {
        r := AuthenticateByEmail(profile, cfg, drawn, now);
      }
    }

    method AuthenticateByEmail(profile: Profile, cfg: Config, drawn: Drawn, now: int) returns (r: Result<AuthSession>)
      requires store.Coherent() && profile.id != "" && drawn.userId !in store.usersById
      modifies store, store.usersById.Values
      ensures store.Coherent()
      ensures (store.State(), r) == SignInByEmail(old(store.State()), profile, cfg, drawn, now)
    {
      var existingEmail := store.GetUserByEmail(profile.email);
      if existingEmail.Some? {
        r := LinkAndLogin(existingEmail.value, profile, cfg, drawn, now);
      } else {
        r := AutoRegister(profile, cfg, drawn, now);
      }
    }

    method LoginExistingOAuthUser(user: User, profile: Profile, cfg: Config, drawn: Drawn, now: int)
      returns (r: Result<AuthSession>)
      requires store.Coherent()
      modifies store, store.usersById.Values
      ensures store.Coherent()
      ensures (store.State(), r) == LoginLinked(old(store.State()), user, profile, cfg, drawn, now)
    {
      if !user.isActive { return Err(AccountDisabled); }
      var updated := store.UpdateUser(user.id,
        NoUpdates.(name := Some(profile.name), avatarUrl := profile.avatarUrl, lastLoginAt := Some(now)));
      if updated.Err? { return Err(updated.error); }
      r := BuildSession(updated.value, cfg, drawn, now);
    }

    method LinkAndLogin(user: User, profile: Profile, cfg: Config, drawn: Drawn,
                        now: int) returns (r: Result<AuthSession>)
      requires store.Coherent() && profile.id != ""
      modifies store, store.usersById.Values
      ensures store.Coherent()
      ensures (store.State(), r) == AuthModel.LinkAndLogin(old(store.State()), user, profile, cfg, drawn, now)
    {
      if !user.isActive { return Err(AccountDisabled); }
      var linked := store.LinkOAuth(user.id, profile.provider, profile.id, profile.avatarUrl);
      if linked.Err? { return Err(linked.error); }
      var updated := store.UpdateUser(linked.value.id, NoUpdates.(lastLoginAt := Some(now)));
      if updated.Err? { return Err(updated.error); }
      r := BuildSession(updated.value, cfg, drawn, now);
    }

    method AutoRegister(profile: Profile, cfg: Config, drawn: Drawn, now: int) returns (r: Result<AuthSession>)
      requires store.Coherent() && drawn.userId !in store.usersById
      modifies store
      ensures store.Coherent()
      ensures (store.State(), r) == AuthModel.AutoRegister(old(store.State()), profile, cfg, drawn, now)
    {
      if !cfg.autoRegister { return Err(RegistrationDisabled); }
      var user := store.CreateUser(Registration(profile, cfg), drawn.userId, now);
      if user.Err? { return Err(user.error); }
      r := BuildSession(user.value, cfg, drawn, now);
    }

    /** A genuine token of a session that is over. */
    predicate Expired(st: AuthState, hasSecret: bool, verified: Option<Payload>, token: string, now: int) {
      hasSecret && verified.Some? && token in st.sessions && st.sessions[token].expiresAt < now
    }

    /** Exactly one session with the id went, the one under `t`. */
    predicate DropsOne(before: map<string, Session>, after: map<string, Session>, id: string, t: string) {
      t in before && before[t].id == id && after == before - {t}
    }

    /** `verified` is what checking the token's signature gave. An expired session is
        deleted on the way. */
    method ValidateToken(hasSecret: bool, verified: Option<Payload>, token: string, now: int) returns (r: Option<User>)
      requires store.Coherent()
      modifies store`sessions
      ensures store.Coherent() && store.Users() == old(store.Users())
      ensures r == AuthModel.ValidateToken(old(store.State()), hasSecret, verified, token, now)
      ensures Expired(old(store.State()), hasSecret, verified, token, now) ==>
                exists t :: DropsOne(old(store.sessions), store.sessions, old(store.sessions)[token].id, t)
      ensures !Expired(old(store.State()), hasSecret, verified, token, now) ==> store.sessions == old(store.sessions)
    {
      if !hasSecret || verified.None? { return None; }
      if token !in store.sessions { return None; }
      var session := store.sessions[token];
      if session.expiresAt < now {
        ghost var dropped := store.DeleteSessionById(session.id);
        assert DropsOne(old(store.sessions), store.sessions, session.id, dropped);
        return None;
      }
      if session.userId != verified.value.userId { return None; }
      if verified.value.userId !in store.usersById { return None; }
      var stored := store.usersById[verified.value.userId];
      if !stored.user.isActive { return None; }
      r := Some(stored.user);
    }
  }
}
