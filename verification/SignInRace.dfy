/**
 OAuth sign-ins that run at the same time (server/auth/oauth.ts): each await hands
 control to whoever is next, so a sign-in is a sequence of store calls with anything
 in between. What one sign-in read may be out of date when it writes.
 */
module SignInRace {

  import opened Wrappers
  import opened AuthModel

  /** How far a sign-in is. `u` is the copy of the user it read or wrote last. */
  datatype Phase =
    | Begin
    | SawLink(u: User)
    | SawNoLink
    | SawEmail(u: User)
    | SawNobody
    | DidLink(u: User)
    | DidWrite(u: User)
    | Done(r: Result<AuthSession>)

  datatype SignIn = SignIn(profile: Profile, cfg: Config, drawn: Drawn, phase: Phase)

  datatype System = System(st: AuthState, procs: map<nat, SignIn>)

  function SawUpdate(profile: Profile, now: int): Updates {
    NoUpdates.(name := Some(profile.name), avatarUrl := profile.avatarUrl, lastLoginAt := Some(now))
  }

  function After(r: (AuthState, Result<User>)): (AuthState, Phase) {
    (r.0, if r.1.Ok? then DidWrite(r.1.value) else Done(Err(r.1.error)))
  }

  /** What a sign-in does up to its next await. */
  ghost function Advance(st: AuthState, s: SignIn, now: int): (AuthState, Phase) {
    var profile := s.profile;
    match s.phase
    case Begin =>
      if !OrgAllowed(profile, s.cfg) then (st, Done(Err(OrgDenied)))
      else
        var found := FindByOAuth(st.users, profile.provider, profile.id);
        (st, if found.Some? then SawLink(found.value) else SawNoLink)
    case SawLink(u) =>
      if !u.isActive then (st, Done(Err(AccountDisabled))) else After(UpdateUser(st, u.id, SawUpdate(profile, now)))
    case SawNoLink =>
      var found := FindByEmail(st.users, profile.email);
      (st, if found.Some? then SawEmail(found.value) else SawNobody)
    case SawEmail(u) =>
      if !u.isActive then (st, Done(Err(AccountDisabled)))
      else
        var (st', r) := LinkOAuth(st, u.id, profile.provider, profile.id, profile.avatarUrl);
        (st', if r.Ok? then DidLink(r.value) else Done(Err(r.error)))
    case DidLink(u) => After(UpdateUser(st, u.id, NoUpdates.(lastLoginAt := Some(now))))
    case SawNobody =>
      if !s.cfg.autoRegister then (st, Done(Err(RegistrationDisabled)))
      else After(CreateUser(st, Registration(profile, s.cfg), s.drawn.userId, now))
    case DidWrite(u) =>
      var (st', r) := BuildSession(st, u, s.cfg, s.drawn, now);
      (st', Done(r))
    case Done(_) => (st, s.phase)
  }

  /** One event: a sign-in goes on, or some other call of the store happens. */
  datatype Event = Go(i: nat, now: int) | Other(op: Op)

  ghost function Next(y: System, e: Event): System {
    match e
    case Go(i, now) =>
      if i !in y.procs then y
      else
        var (st', phase') := Advance(y.st, y.procs[i], now);
        System(st', y.procs[i := y.procs[i].(phase := phase')])
    case Other(op) => y.(st := Step(y.st, op))
  }

  ghost function Run(y: System, es: seq<Event>): System {
    if es == [] then y else Next(Run(y, es[..|es| - 1]), es[|es| - 1])
  }

  ghost function At(y: System, es: seq<Event>, k: nat): System
    requires k <= |es|
  {
    Run(y, es[..k])
  }

  lemma {:induction false} AtNext(y: System, es: seq<Event>, k: nat)
    requires k < |es|
    ensures At(y, es, k + 1) == Next(At(y, es, k), es[k])
  {
    assert es[..k + 1][..k] == es[..k];
  }

  // ----- Alone -----

  /** Left alone, a sign-in does in at most five turns what the sequential one does. */
  lemma {:induction false} AloneIsSequential(st: AuthState, s: SignIn, now: int)
    requires s.phase == Begin
    ensures var r := AuthModel.SignIn(st, s.profile, s.cfg, s.drawn, now);
            Turns(st, s, now, 5) == (r.0, Done(r.1))
  {
  }

  ghost function Turns(st: AuthState, s: SignIn, now: int, n: nat): (AuthState, Phase)
    decreases n
  {
    if n == 0 then (st, s.phase)
    else
      var (st', phase') := Advance(st, s, now);
      Turns(st', s.(phase := phase'), now, n - 1)
  }

  // ----- Together -----

  ghost predicate FreshDraws(y: System, es: seq<Event>) {
    && (forall k :: 0 <= k < |es| && es[k].Other? && es[k].op.OpCreateUser? ==> es[k].op.id !in At(y, es, k).st.users)
    && (forall k :: 0 <= k < |es| && es[k].Go? && es[k].i in At(y, es, k).procs ==>
          FreshDraw(At(y, es, k).st, At(y, es, k).procs[es[k].i]))
  }

  predicate FreshDraw(st: AuthState, s: SignIn) {
    s.phase.SawNobody? ==> s.drawn.userId !in st.users
  }

  /** The store call a turn makes, if it makes one that writes. */
  function TurnOp(s: SignIn, now: int): Option<Op> {
    match s.phase
    case SawLink(u) => if u.isActive then Some(OpUpdateUser(u.id, SawUpdate(s.profile, now))) else None
    case SawEmail(u) =>
      if u.isActive then Some(OpLinkOAuth(u.id, s.profile.provider, s.profile.id, s.profile.avatarUrl)) else None
    case DidLink(u) => Some(OpUpdateUser(u.id, NoUpdates.(lastLoginAt := Some(now))))
    case SawNobody =>
      if s.cfg.autoRegister then Some(OpCreateUser(Registration(s.profile, s.cfg), s.drawn.userId, now)) else None
    case DidWrite(u) =>
      if s.cfg.hasSecret
      then Some(OpCreateSession(s.drawn.token, Session(s.drawn.sessionId, u.id, now + s.cfg.sessionMs)))
      else None
    case _ => None
  }

  /** Every turn is at most one call of the store. */
  lemma {:induction false} TurnIsOneCall(st: AuthState, s: SignIn, now: int)
    ensures Advance(st, s, now).0 == if TurnOp(s, now).Some? then Step(st, TurnOp(s, now).value) else st
  {
  }

  lemma {:induction false} AdvanceWellFormed(st: AuthState, s: SignIn, now: int)
    requires WellFormed(st.users) && FreshDraw(st, s)
    ensures WellFormed(Advance(st, s, now).0.users)
  {
    TurnIsOneCall(st, s, now);
    if TurnOp(s, now).Some? { StepWellFormed(st, TurnOp(s, now).value); }
  }

  /** SAFETY. Whatever is interleaved, ids, emails and provider links stay unique: no race
      makes two accounts of one. */
  lemma {:induction false} RaceKeepsUnique(y: System, es: seq<Event>, k: nat)
    requires k <= |es| && WellFormed(y.st.users) && FreshDraws(y, es)
    ensures WellFormed(At(y, es, k).st.users)
  {
    if k > 0 {
      var e, z := es[k - 1], At(y, es, k - 1);
      RaceKeepsUnique(y, es, k - 1);
      AtNext(y, es, k - 1);
      match e
      case Go(i, now) => if i in z.procs { AdvanceWellFormed(z.st, z.procs[i], now); }
      case Other(op) => StepWellFormed(z.st, op);
    }
  }

  function LinkUsed(profile: Profile): AuthState -> bool {
    (st: AuthState) => OAuthUsed(st.users, profile.provider, profile.id)
  }

  function MailUsed(profile: Profile): AuthState -> bool {
    (st: AuthState) => EmailUsed(st.users, profile.email)
  }

  predicate Unique(phase: Phase) { phase.Done? && phase.r.Err? && phase.r.error in {EmailUnique, OAuthUnique} }

  /** A turn fails on uniqueness exactly when it would write and the link, or for a new
      account the email, is taken by then. */
  lemma {:induction false} TurnFailsIff(st: AuthState, s: SignIn, now: int)
    requires s.profile.id != "" && !s.phase.Done?
    ensures Unique(Advance(st, s, now).1) <==>
            || (s.phase.SawEmail? && s.phase.u.isActive && s.phase.u.id in st.users && LinkUsed(s.profile)(st))
            || (s.phase.SawNobody? && s.cfg.autoRegister && (LinkUsed(s.profile)(st) || MailUsed(s.profile)(st)))
  {
  }

  /** Event `k` makes something taken, and it stays taken until `end`. */
  ghost predicate TakenBy(y: System, es: seq<Event>, k: nat, from: nat, end: nat, used: AuthState -> bool)
    requires k < |es| && end <= |es|
  {
    from <= k < end && !used(At(y, es, k).st) && forall m :: k < m <= end ==> used(At(y, es, m).st)
  }

  /** Some event from `from` on makes it taken for good. */
  ghost predicate TakenSince(y: System, es: seq<Event>, from: nat, end: nat, used: AuthState -> bool)
    requires end <= |es|
  {
    exists k :: 0 <= k < |es| && TakenBy(y, es, k, from, end, used)
  }

  lemma {:induction false} TakenBetween(y: System, es: seq<Event>, from: nat, end: nat, used: AuthState -> bool)
    requires from <= end <= |es| && !used(At(y, es, from).st)
    ensures used(At(y, es, end).st) <==> TakenSince(y, es, from, end, used)
    decreases end
  {
    if used(At(y, es, end).st) {
      assert from < end;
      if used(At(y, es, end - 1).st) {
        TakenBetween(y, es, from, end - 1, used);
        var k :| 0 <= k < |es| && TakenBy(y, es, k, from, end - 1, used);
        assert TakenBy(y, es, k, from, end, used);
      } else {
        assert TakenBy(y, es, end - 1, from, end, used);
      }
    }
  }

  /** Event `k` is a turn of sign-in `i`, which is in this phase before it. */
  ghost predicate Turn(y: System, es: seq<Event>, k: nat, i: nat, phase: Phase)
    requires k < |es|
  {
    es[k].Go? && es[k].i == i && i in At(y, es, k).procs && At(y, es, k).procs[i].phase == phase
  }

  /** A sign-in stays what it is but for its phase, and only its own turns move that. */
  lemma {:induction false} NextProc(z: System, e: Event, i: nat)
    requires i in z.procs
    ensures i in Next(z, e).procs
    ensures Next(z, e).procs[i] ==
            if e.Go? && e.i == i then z.procs[i].(phase := Advance(z.st, z.procs[i], e.now).1) else z.procs[i]
  {
  }

  lemma {:induction false} SameProc(y: System, es: seq<Event>, k: nat, i: nat)
    requires k <= |es| && i in y.procs
    ensures i in At(y, es, k).procs && At(y, es, k).procs[i] == y.procs[i].(phase := At(y, es, k).procs[i].phase)
  {
    if k > 0 {
      SameProc(y, es, k - 1, i);
      AtNext(y, es, k - 1);
      NextProc(At(y, es, k - 1), es[k - 1], i);
    }
  }

  /** Past the provider look-up, which missed. */
  predicate MissedLink(phase: Phase) { phase.SawNoLink? || phase.SawEmail? || phase.SawNobody? }

  /** Past the email look-up as well. */
  predicate LookedUp(phase: Phase) { phase.SawEmail? || phase.SawNobody? }

  lemma {:induction false} MissesInTurn(z: System, e: Event, i: nat)
    requires i in z.procs && MissedLink(Next(z, e).procs[i].phase)
    ensures || MissedLink(z.procs[i].phase)
            || (e.Go? && e.i == i && z.procs[i].phase == Begin && !LinkUsed(z.procs[i].profile)(z.st))
  {
  }

  /** A sign-in that is past its provider look-up without a hit made that look-up in a
      turn of its own, when nobody had the link. */
  lemma {:induction false} LookedForLink(y: System, es: seq<Event>, i: nat, end: nat) returns (a: nat)
    requires end <= |es| && i in y.procs && y.procs[i].phase == Begin
    requires i in At(y, es, end).procs && MissedLink(At(y, es, end).procs[i].phase)
    ensures a < end && Turn(y, es, a, i, Begin) && !LinkUsed(y.procs[i].profile)(At(y, es, a).st)
  {
    assert At(y, es, 0) == y;
    if end > 0 {
      a := end - 1;
      AtNext(y, es, a);
      SameProc(y, es, a, i);
      MissesInTurn(At(y, es, a), es[a], i);
      if MissedLink(At(y, es, a).procs[i].phase) { a := LookedForLink(y, es, i, a); }
    }
  }

  lemma {:induction false} LooksInTurn(z: System, e: Event, i: nat)
    requires i in z.procs && LookedUp(Next(z, e).procs[i].phase)
    ensures var p, found := Next(z, e).procs[i].phase, FindByEmail(z.st.users, z.procs[i].profile.email);
            || z.procs[i].phase == p
            || (e.Go? && e.i == i && z.procs[i].phase == SawNoLink && found == if p.SawEmail? then Some(p.u) else None)
  {
  }

  /** One that is past its email look-up made it after that, in a turn of its own, and
      found then what it says. */
  lemma {:induction false} LookedForMail(y: System, es: seq<Event>, i: nat, end: nat) returns (b: nat)
    requires end <= |es| && i in y.procs && y.procs[i].phase == Begin
    requires i in At(y, es, end).procs && LookedUp(At(y, es, end).procs[i].phase)
    ensures b < end && Turn(y, es, b, i, SawNoLink)
    ensures var p := At(y, es, end).procs[i].phase;
            FindByEmail(At(y, es, b).st.users, y.procs[i].profile.email) == if p.SawEmail? then Some(p.u) else None
  {
    assert At(y, es, 0) == y;
    if end > 0 {
      b := end - 1;
      AtNext(y, es, b);
      SameProc(y, es, b, i);
      LooksInTurn(At(y, es, b), es[b], i);
      if At(y, es, b).procs[i].phase == At(y, es, end).procs[i].phase { b := LookedForMail(y, es, i, b); }
    }
  }

  function Rank(phase: Phase): nat {
    match phase
    case Begin => 0
    case SawLink(_) => 1
    case SawNoLink => 1
    case SawEmail(_) => 2
    case SawNobody => 2
    case DidLink(_) => 3
    case DidWrite(_) => 4
    case Done(_) => 5
  }

  lemma {:induction false} RankGrows(z: System, e: Event, i: nat)
    requires i in z.procs
    ensures i in Next(z, e).procs && Rank(z.procs[i].phase) <= Rank(Next(z, e).procs[i].phase)
    ensures e.Go? && e.i == i && !z.procs[i].phase.Done? ==> Rank(z.procs[i].phase) < Rank(Next(z, e).procs[i].phase)
  {
  }

  lemma {:induction false} RankGrowsOn(y: System, es: seq<Event>, i: nat, k: nat, m: nat)
    requires k <= m <= |es| && i in At(y, es, k).procs
    ensures i in At(y, es, m).procs && Rank(At(y, es, k).procs[i].phase) <= Rank(At(y, es, m).procs[i].phase)
  {
    if k < m {
      RankGrowsOn(y, es, i, k, m - 1);
      AtNext(y, es, m - 1);
      RankGrows(At(y, es, m - 1), es[m - 1], i);
    }
  }

  /** A sign-in takes a turn from each phase at most once, so the turn of a look-up is
      determined. */
  lemma {:induction false} TurnsOnce(y: System, es: seq<Event>, i: nat, k: nat, m: nat, phase: Phase)
    requires k < |es| && m < |es| && Turn(y, es, k, i, phase) && Turn(y, es, m, i, phase) && !phase.Done?
    ensures k == m
  {
    var lo, hi := if k < m then k else m, if k < m then m else k;
    AtNext(y, es, lo);
    RankGrows(At(y, es, lo), es[lo], i);
    if lo < hi { RankGrowsOn(y, es, i, lo + 1, hi); }
  }

  /** LOSING A RACE. A sign-in whose look-ups both missed made them in two turns of its
      own, `a` for the link and `b` for the email. Its creation fails on uniqueness if and
      only if, since `a`, an event took the link for good or, since `b`, an event took the
      email for good. */
  lemma {:induction false} RegistrationLostIff(y: System, es: seq<Event>, i: nat, end: nat)
    requires i in y.procs && y.procs[i].phase == Begin && y.procs[i].profile.id != "" && y.procs[i].cfg.autoRegister
    requires end < |es| && Turn(y, es, end, i, SawNobody)
    ensures i in At(y, es, end + 1).procs
    ensures exists a, b :: 0 <= a < b < end && Turn(y, es, a, i, Begin) && Turn(y, es, b, i, SawNoLink) &&
              (Unique(At(y, es, end + 1).procs[i].phase) <==>
                TakenSince(y, es, a, end, LinkUsed(y.procs[i].profile)) ||
                TakenSince(y, es, b, end, MailUsed(y.procs[i].profile)))
  {
    var profile := y.procs[i].profile;
    var b := LookedForMail(y, es, i, end);
    var a := LookedForLink(y, es, i, b);
    SameProc(y, es, end, i);
    AtNext(y, es, end);
    TurnFailsIff(At(y, es, end).st, At(y, es, end).procs[i], es[end].now);
    TakenBetween(y, es, a, end, LinkUsed(profile));
    TakenBetween(y, es, b, end, MailUsed(profile));
  }

  lemma {:induction false} StepKeepsUsers(st: AuthState, op: Op)
    ensures st.users.Keys <= Step(st, op).users.Keys
  {
  }

  lemma {:induction false} AdvanceKeepsUsers(st: AuthState, s: SignIn, now: int)
    ensures st.users.Keys <= Advance(st, s, now).0.users.Keys
  {
    TurnIsOneCall(st, s, now);
    if TurnOp(s, now).Some? { StepKeepsUsers(st, TurnOp(s, now).value); }
  }

  lemma {:induction false} UsersStay(y: System, es: seq<Event>, k: nat, m: nat, id: string)
    requires k <= m <= |es| && id in At(y, es, k).st.users
    ensures id in At(y, es, m).st.users
  {
    if k < m {
      var z := At(y, es, m - 1);
      UsersStay(y, es, k, m - 1, id);
      AtNext(y, es, m - 1);
      match es[m - 1]
      case Other(op) => StepKeepsUsers(z.st, op);
      case Go(i, now) => if i in z.procs { AdvanceKeepsUsers(z.st, z.procs[i], now); }
    }
  }

  /** A sign-in that found an active account by email looked for the link in a turn `a` of
      its own. Linking that account fails on uniqueness if and only if, since `a`, an event
      took the link for good. */
  lemma {:induction false} LinkingLostIff(y: System, es: seq<Event>, i: nat, end: nat, u: User)
    requires WellFormed(y.st.users) && FreshDraws(y, es)
    requires i in y.procs && y.procs[i].phase == Begin && y.procs[i].profile.id != ""
    requires end < |es| && Turn(y, es, end, i, SawEmail(u)) && u.isActive
    ensures i in At(y, es, end + 1).procs
    ensures exists a :: 0 <= a < end && Turn(y, es, a, i, Begin) &&
              (Unique(At(y, es, end + 1).procs[i].phase) <==> TakenSince(y, es, a, end, LinkUsed(y.procs[i].profile)))
  {
    var b := LookedForMail(y, es, i, end);
    var a := LookedForLink(y, es, i, b);
    RaceKeepsUnique(y, es, b);
    UsersStay(y, es, b, end, u.id);
    SameProc(y, es, end, i);
    AtNext(y, es, end);
    TurnFailsIff(At(y, es, end).st, At(y, es, end).procs[i], es[end].now);
    TakenBetween(y, es, a, end, LinkUsed(y.procs[i].profile));
  }

  // ----- One user per provider account -----

  predicate LinkedNow(st: AuthState, id: string, profile: Profile) {
    id in st.users && st.users[id].LinkedTo(profile.provider, profile.id)
  }

  /** The event gives the user another link: a call of linkOAuth, or a sign-in with
      another provider account that found the user by email, whose new link is free. */
  predicate Relinks(z: System, e: Event, id: string) {
    match e
    case Other(op) => op.OpLinkOAuth? && op.id == id && !LinkTaken(z.st, op.p, op.pid)
    case Go(i, _) =>
      && i in z.procs && z.procs[i].phase.SawEmail? && z.procs[i].phase.u.isActive && z.procs[i].phase.u.id == id
      && !LinkTaken(z.st, z.procs[i].profile.provider, z.procs[i].profile.id)
  }

  ghost predicate FreshEvent(z: System, e: Event) {
    match e
    case Other(op) => op.OpCreateUser? ==> op.id !in z.st.users
    case Go(i, _) => i in z.procs ==> FreshDraw(z.st, z.procs[i])
  }

  /** LOSING THE ACCOUNT. A user who has a provider account loses it at exactly the events
      that give the user another link. */
  lemma {:induction false} LinkLostIff(z: System, e: Event, id: string, profile: Profile)
    requires WellFormed(z.st.users) && FreshEvent(z, e) && LinkedNow(z.st, id, profile)
    ensures LinkedNow(Next(z, e).st, id, profile) <==> !Relinks(z, e, id)
  {
    match e
    case Other(op) => StepLinkLost(z.st, op, id, profile);
    case Go(i, now) => if i in z.procs { AdvanceLinkLost(z.st, z.procs[i], now, id, profile); }
  }

  lemma {:induction false} StepLinkLost(st: AuthState, op: Op, id: string, profile: Profile)
    requires WellFormed(st.users) && (op.OpCreateUser? ==> op.id !in st.users) && LinkedNow(st, id, profile)
    ensures LinkedNow(Step(st, op), id, profile) <==> !(op.OpLinkOAuth? && op.id == id && !LinkTaken(st, op.p, op.pid))
  {
  }

  lemma {:induction false} AdvanceLinkLost(st: AuthState, s: SignIn, now: int, id: string, profile: Profile)
    requires WellFormed(st.users) && FreshDraw(st, s) && LinkedNow(st, id, profile)
    ensures LinkedNow(Advance(st, s, now).0, id, profile) <==>
            !(s.phase.SawEmail? && s.phase.u.isActive && s.phase.u.id == id
              && !LinkTaken(st, s.profile.provider, s.profile.id))
  {
    TurnIsOneCall(st, s, now);
    if TurnOp(s, now).Some? { StepLinkLost(st, TurnOp(s, now).value, id, profile); }
  }

  /** No event takes the provider account away from a user who has it. */
  ghost predicate LinkKept(y: System, es: seq<Event>, profile: Profile) {
    forall k, id :: 0 <= k < |es| && LinkedNow(At(y, es, k).st, id, profile) ==> !Relinks(At(y, es, k), es[k], id)
  }

  /** The user a sign-in has settled on. */
  function Settled(phase: Phase): Option<string> {
    match phase
    case SawLink(u) => Some(u.id)
    case DidLink(u) => Some(u.id)
    case DidWrite(u) => Some(u.id)
    case Done(r) => if r.Ok? then Some(r.value.user.id) else None
    case _ => None
  }

  ghost predicate SettledLinked(st: AuthState, s: SignIn) {
    Settled(s.phase).Some? ==> LinkedNow(st, Settled(s.phase).value, s.profile)
  }

  lemma {:induction false} AdvanceSettles(st: AuthState, s: SignIn, now: int)
    requires WellFormed(st.users) && s.profile.id != "" && FreshDraw(st, s) && SettledLinked(st, s)
    ensures SettledLinked(Advance(st, s, now).0, s.(phase := Advance(st, s, now).1))
  {
  }

  /** Sign-ins that were not yet under way when the run began. */
  ghost predicate AllBegin(y: System, profile: Profile) {
    forall i :: i in y.procs && SameAccount(y.procs[i], profile) ==> y.procs[i].phase == Begin
  }

  predicate SameAccount(s: SignIn, profile: Profile) {
    s.profile.provider == profile.provider && s.profile.id == profile.id
  }

  /** One event. */
  lemma {:induction false} NextSettled(z: System, e: Event, i: nat, profile: Profile)
    requires WellFormed(z.st.users) && profile.id != "" && i in z.procs && SameAccount(z.procs[i], profile)
    requires SettledLinked(z.st, z.procs[i])
    requires FreshEvent(z, e) && forall id :: LinkedNow(z.st, id, profile) ==> !Relinks(z, e, id)
    ensures i in Next(z, e).procs && SameAccount(Next(z, e).procs[i], profile)
    ensures SettledLinked(Next(z, e).st, Next(z, e).procs[i])
  {
    if e.Go? && e.i == i {
      AdvanceSettles(z.st, z.procs[i], e.now);
    } else {
      assert Next(z, e).procs[i] == z.procs[i];
      if Settled(z.procs[i].phase).Some? { LinkLostIff(z, e, Settled(z.procs[i].phase).value, profile); }
    }
  }

  lemma {:induction false} StillThere(z: System, e: Event, i: nat)
    requires i in Next(z, e).procs
    ensures i in z.procs && Next(z, e).procs[i].profile == z.procs[i].profile
  {
  }

  lemma {:induction false} SettledStayLinked(y: System, es: seq<Event>, k: nat, i: nat, profile: Profile)
    requires k <= |es| && WellFormed(y.st.users) && FreshDraws(y, es) && profile.id != ""
    requires AllBegin(y, profile) && LinkKept(y, es, profile)
    requires i in At(y, es, k).procs && SameAccount(At(y, es, k).procs[i], profile)
    ensures SettledLinked(At(y, es, k).st, At(y, es, k).procs[i])
  {
    if k == 0 {
      assert At(y, es, 0) == y;
    } else {
      var e, z := es[k - 1], At(y, es, k - 1);
      AtNext(y, es, k - 1);
      StillThere(z, e, i);
      SettledStayLinked(y, es, k - 1, i, profile);
      RaceKeepsUnique(y, es, k - 1);
      NextSettled(z, e, i, profile);
    }
  }

  /** ONE USER PER ACCOUNT. However sign-ins with one provider account race with each other
      and with anything else, those that succeed are all for the same user, as long as
      nobody takes the account away from a user who has it. */
  lemma {:induction false} RaceAgrees(y: System, es: seq<Event>, i: nat, j: nat, profile: Profile)
    requires WellFormed(y.st.users) && FreshDraws(y, es) && profile.id != ""
    requires AllBegin(y, profile) && LinkKept(y, es, profile)
    requires var z := At(y, es, |es|);
             && i in z.procs && SameAccount(z.procs[i], profile) && z.procs[i].phase.Done? && z.procs[i].phase.r.Ok?
             && j in z.procs && SameAccount(z.procs[j], profile) && z.procs[j].phase.Done? && z.procs[j].phase.r.Ok?
    ensures var z := At(y, es, |es|); z.procs[i].phase.r.value.user.id == z.procs[j].phase.r.value.user.id
  {
    SettledStayLinked(y, es, |es|, i, profile);
    SettledStayLinked(y, es, |es|, j, profile);
    RaceKeepsUnique(y, es, |es|);
    var users := At(y, es, |es|).st.users;
    var a, b := At(y, es, |es|).procs[i].phase.r.value.user.id, At(y, es, |es|).procs[j].phase.r.value.user.id;
    assert users[a].SameLink(users[b]);
  }

  // ----- A witness -----

  /** Two first sign-ins with one new account, turn by turn: both look-ups of both miss,
      the first creates the account, and the second fails. */
  lemma {:induction false} FirstSignInsRace(s: SignIn, again: SignIn, now: int)
    requires s.phase == Begin && again == s.(drawn := again.drawn)
    requires s.cfg.autoRegister && OrgAllowed(s.profile, s.cfg) && s.profile.id != ""
    ensures var y := System(AuthState(map[], map[], map[]), map[0 := s, 1 := again]);
            var es := [Go(0, now), Go(1, now), Go(0, now), Go(1, now), Go(0, now), Go(1, now)];
            var z := At(y, es, 6);
            && 0 in z.procs && z.procs[0].phase.DidWrite?
            && 1 in z.procs && z.procs[1].phase == Done(Err(EmailUnique))
  {
    var st := AuthState(map[], map[], map[]);
    var y := System(st, map[0 := s, 1 := again]);
    var es := [Go(0, now), Go(1, now), Go(0, now), Go(1, now), Go(0, now), Go(1, now)];
    MissesTwice(s, now);
    MissesTwice(again, now);
    CreatesThenFails(s.(phase := SawNobody), again.(phase := SawNobody), now);
    RoundRobin(y, s, again, now);
    assert es[..6] == es;
  }

  /** In an empty store both look-ups miss. */
  lemma {:induction false} MissesTwice(s: SignIn, now: int)
    requires s.phase == Begin && OrgAllowed(s.profile, s.cfg)
    ensures var st := AuthState(map[], map[], map[]);
            && Advance(st, s, now) == (st, SawNoLink)
            && Advance(st, s.(phase := SawNoLink), now) == (st, SawNobody)
  {
  }

  lemma {:induction false} CreatesThenFails(s: SignIn, again: SignIn, now: int)
    requires s.phase == SawNobody && again == s.(drawn := again.drawn) && s.cfg.autoRegister && s.profile.id != ""
    ensures var (after, phase) := Advance(AuthState(map[], map[], map[]), s, now);
            phase.DidWrite? && Advance(after, again, now).1 == Done(Err(EmailUnique))
  {
    var after := Advance(AuthState(map[], map[], map[]), s, now).0;
    assert after.users[s.drawn.userId].email == s.profile.email;
  }

  lemma {:induction false} PairTurn(st: AuthState, a: SignIn, b: SignIn, now: int)
    ensures var z := System(st, map[0 := a, 1 := b]);
            && Next(z, Go(0, now)) ==
               System(Advance(st, a, now).0, map[0 := a.(phase := Advance(st, a, now).1), 1 := b])
            && Next(z, Go(1, now)) ==
               System(Advance(st, b, now).0, map[0 := a, 1 := b.(phase := Advance(st, b, now).1)])
  {
    var pair := map[0 := a, 1 := b];
    assert pair[0 := a.(phase := Advance(st, a, now).1)] == map[0 := a.(phase := Advance(st, a, now).1), 1 := b];
    assert pair[1 := b.(phase := Advance(st, b, now).1)] == map[0 := a, 1 := b.(phase := Advance(st, b, now).1)];
  }

  /** Where two sign-ins that take turns get. */
  lemma {:induction false} RoundRobin(y: System, s: SignIn, again: SignIn, now: int)
    requires y == System(y.st, map[0 := s, 1 := again]) && s.phase == Begin && again.phase == Begin
    requires Advance(y.st, s, now) == (y.st, SawNoLink)
    requires Advance(y.st, s.(phase := SawNoLink), now) == (y.st, SawNobody)
    requires Advance(y.st, again, now) == (y.st, SawNoLink)
    requires Advance(y.st, again.(phase := SawNoLink), now) == (y.st, SawNobody)
    ensures var es := [Go(0, now), Go(1, now), Go(0, now), Go(1, now), Go(0, now), Go(1, now)];
            var (after, phase) := Advance(y.st, s.(phase := SawNobody), now);
            var (last, phase') := Advance(after, again.(phase := SawNobody), now);
            At(y, es, 6) == System(last, map[0 := s.(phase := phase), 1 := again.(phase := phase')])
  {
    var es := [Go(0, now), Go(1, now), Go(0, now), Go(1, now), Go(0, now), Go(1, now)];
    var (after, phase) := Advance(y.st, s.(phase := SawNobody), now);
    LooksInRounds(y, es, s, again, now);
    AtNext(y, es, 4);
    AtNext(y, es, 5);
    LastTwo(y.st, s.(phase := SawNobody), again.(phase := SawNobody), now);
    assert s.(phase := SawNobody).(phase := phase) == s.(phase := phase);
  }

  lemma {:induction false} LastTwo(st: AuthState, a: SignIn, b: SignIn, now: int)
    ensures var (after, phase) := Advance(st, a, now);
            Next(Next(System(st, map[0 := a, 1 := b]), Go(0, now)), Go(1, now)) ==
            System(Advance(after, b, now).0, map[0 := a.(phase := phase), 1 := b.(phase := Advance(after, b, now).1)])
  {
    var (after, phase) := Advance(st, a, now);
    PairTurn(st, a, b, now);
    PairTurn(after, a.(phase := phase), b, now);
  }

  lemma {:induction false} LooksInRounds(y: System, es: seq<Event>, s: SignIn, again: SignIn, now: int)
    requires y == System(y.st, map[0 := s, 1 := again]) && s.phase == Begin && again.phase == Begin
    requires Advance(y.st, s, now) == (y.st, SawNoLink)
    requires Advance(y.st, s.(phase := SawNoLink), now) == (y.st, SawNobody)
    requires Advance(y.st, again, now) == (y.st, SawNoLink)
    requires Advance(y.st, again.(phase := SawNoLink), now) == (y.st, SawNobody)
    requires |es| >= 4 && es[0] == es[2] == Go(0, now) && es[1] == es[3] == Go(1, now)
    ensures At(y, es, 4) == System(y.st, map[0 := s.(phase := SawNobody), 1 := again.(phase := SawNobody)])
  {
    assert At(y, es, 0) == y;
    PairTurn(y.st, s, again, now);
    AtNext(y, es, 0);
    PairTurn(y.st, s.(phase := SawNoLink), again, now);
    AtNext(y, es, 1);
    PairTurn(y.st, s.(phase := SawNoLink), again.(phase := SawNoLink), now);
    AtNext(y, es, 2);
    PairTurn(y.st, s.(phase := SawNobody), again.(phase := SawNoLink), now);
    AtNext(y, es, 3);
  }
}
