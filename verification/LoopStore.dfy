/**
 The consilium-loop table, shared by many server instances whose only mutual
 exclusion is compare-and-swap and "claim" updates (server/storage.ts and its SQL
 twin server/storage-pg.ts).

 `Step` gives each call's effect as one atomic step on either backend, the class
 `MemLoops` is the in-memory store proved against it, and the lemmas speak about
 whole runs: claims are spaced, compare-and-swaps form a walk, and one loop per
 group is active.
 */
module LoopStore {

  import opened Wrappers

  datatype LoopState =
    | Pending | BuildingContext | Reviewing | Deciding | Developing | AwaitingMerge | Throttled
    | Converged | StoppedCap | Escalated | Failed | Cancelled | Stopped
  {
    predicate Terminal() {
      Converged? || StoppedCap? || Escalated? || Failed? || Cancelled? || Stopped?
    }

    /** The partial unique index of the SQL table lists five states; `stopped` is missing. */
    predicate Indexed() {
      !(Converged? || StoppedCap? || Escalated? || Failed? || Cancelled?)
    }
  }

  datatype Loop = Loop(groupId: string, state: LoopState, iteration: Option<int>, devGroupId: Option<string>,
                       createdAt: int, updatedAt: int)

  type Store = map<string, Loop>

  /** A partial update: absent fields keep their value. */
  datatype Patch = Patch(groupId: Option<string>, state: Option<LoopState>, iteration: Option<Option<int>>,
                         devGroupId: Option<Option<string>>)

  datatype Backend = Mem | Pg

  /** One storage call. `readAt` and `stampAt` are the two clock readings of a claim. */
  datatype Op =
    | Create(id: string, groupId: string, initial: Option<LoopState>, iteration: Option<int>,
             devGroupId: Option<string>, now: int)
    | Update(id: string, patch: Patch, now: int)
    | Cas(id: string, expected: LoopState, next: LoopState, extra: Patch, now: int)
    | ClaimRedrive(id: string, expected: LoopState, graceMs: int, readAt: int, stampAt: int)
    | ClaimReview(id: string, expectedIteration: int, staleThreshold: int, stampAt: int)
  {
    function First(): int {
      match this
      case ClaimRedrive(_, _, _, r, _) => r
      case ClaimReview(_, _, _, t) => t
      case _ => now
    }

    function Stamp(): int {
      match this
      case ClaimRedrive(_, _, _, _, t) => t
      case ClaimReview(_, _, _, t) => t
      case _ => now
    }
  }

  /** `Row` is the row returned, `Undefined` a lost race, `Threw` an error. */
  datatype Outcome = Row(row: Loop) | Undefined | Threw

  function Patched(l: Loop, p: Patch, now: int): Loop {
    Loop(OrElse(p.groupId, l.groupId), OrElse(p.state, l.state), OrElse(p.iteration, l.iteration),
         OrElse(p.devGroupId, l.devGroupId), l.createdAt, now)
  }

  function Created(op: Op): Loop
    requires op.Create?
  {
    Loop(op.groupId, OrElse(op.initial, Pending), op.iteration, op.devGroupId, op.now, op.now)
  }

  predicate Active(l: Loop) { !l.state.Terminal() }

  predicate HasActive(s: Store, groupId: string) {
    exists id :: id in s && s[id].groupId == groupId && Active(s[id])
  }

  /** Writing `row` under `id` would give its group a second indexed row. */
  predicate IndexConflict(s: Store, id: string, row: Loop) {
    row.state.Indexed() && exists o :: o in s && o != id && s[o].groupId == row.groupId && s[o].state.Indexed()
  }

  function Write(b: Backend, s: Store, id: string, row: Loop): (Store, Outcome) {
    if b.Pg? && IndexConflict(s, id, row) then (s, Threw) else (s[id := row], Row(row))
  }

  /** The state-specific null-reference test of a re-drive claim. */
  predicate NullRef(b: Backend, expected: LoopState, l: Loop) {
    if expected.Reviewing? then l.iteration.None?
    else if b.Pg? || expected.Developing? then l.devGroupId.None?
    else false
  }

  predicate PastGrace(b: Backend, l: Loop, graceMs: int, readAt: int) {
    if b.Mem? then readAt - l.updatedAt >= graceMs else l.updatedAt < readAt - graceMs
  }

  predicate ClaimWins(b: Backend, s: Store, id: string, expected: LoopState, graceMs: int, readAt: int) {
    id in s && s[id].state == expected && NullRef(b, expected, s[id]) && PastGrace(b, s[id], graceMs, readAt)
  }

  predicate ReviewClaimWins(s: Store, id: string, expectedIteration: int, staleThreshold: int) {
    id in s && s[id].state == Reviewing && s[id].iteration == Some(expectedIteration) &&
        s[id].updatedAt < staleThreshold
  }

  function Step(b: Backend, s: Store, op: Op): (Store, Outcome) {
    match op
    case Create(id, groupId, _, _, _, _) =>
      if b.Mem? && Active(Created(op)) && HasActive(s, groupId) then (s, Threw) else Write(b, s, id, Created(op))
    case Update(id, patch, now) =>
      if id !in s then (s, Threw) else Write(b, s, id, Patched(s[id], patch, now))
    case Cas(id, expected, next, extra, now) =>
      if id !in s || s[id].state != expected then (s, Undefined)
      else Write(b, s, id, Patched(s[id], extra, now).(state := next))
    case ClaimRedrive(id, expected, graceMs, readAt, stampAt) =>
      if ClaimWins(b, s, id, expected, graceMs, readAt)
      then (s[id := s[id].(updatedAt := stampAt)], Row(s[id].(updatedAt := stampAt)))
      else (s, Undefined)
    case ClaimReview(id, expectedIteration, staleThreshold, stampAt) =>
      if ReviewClaimWins(s, id, expectedIteration, staleThreshold)
      then (s[id := s[id].(updatedAt := stampAt)], Row(s[id].(updatedAt := stampAt)))
      else (s, Undefined)
  }

  // ----- What each call answers, field by field -----

  /** createLoop: every field of the stored row is the argument given; a missing state
      means pending. */
  lemma {:induction false} CreateArrives(b: Backend, s: Store, op: Op)
    requires op.Create? && Step(b, s, op).1.Row?
    ensures var row := Step(b, s, op).1.row;
            && Step(b, s, op).0 == s[op.id := row]
            && row.groupId == op.groupId && row.iteration == op.iteration && row.devGroupId == op.devGroupId
            && row.state == (match op.initial case None => Pending case Some(st) => st)
            && row.createdAt == op.now && row.updatedAt == op.now
  {
  }

  /** updateLoop and casLoopState: every field given arrives, every other stays; a
      compare-and-swap ends in the state asked for. */
  lemma {:induction false} PatchArrives(b: Backend, s: Store, op: Op)
    requires (op.Update? || op.Cas?) && Step(b, s, op).1.Row?
    ensures op.id in s
    ensures var row, before, patch := Step(b, s, op).1.row, s[op.id], if op.Update? then op.patch else op.extra;
            && Step(b, s, op).0 == s[op.id := row]
            && row.groupId == (match patch.groupId case Some(x) => x case None => before.groupId)
            && row.iteration == (match patch.iteration case Some(x) => x case None => before.iteration)
            && row.devGroupId == (match patch.devGroupId case Some(x) => x case None => before.devGroupId)
            && row.state == (if op.Cas? then op.next else match patch.state case Some(x) => x case None => before.state)
            && row.createdAt == before.createdAt && row.updatedAt == op.now
  {
  }

  const FinishedStates := {Converged, StoppedCap, Escalated, Failed, Cancelled, Stopped}

  /** Whether a row counts for the one-per-group rule: SQL's index also counts `stopped`. */
  predicate Counts(b: Backend, st: LoopState) { st !in FinishedStates || (b.Pg? && st == Stopped) }

  ghost predicate GroupTaken(b: Backend, s: Store, id: string, groupId: string) {
    exists o :: o in s && o != id && s[o].groupId == groupId && Counts(b, s[o].state)
  }

  /** A create throws exactly when the new row counts and its group has another that does. */
  lemma {:induction false} CreateThrowsIff(b: Backend, s: Store, op: Op)
    requires op.Create? && op.id !in s
    ensures Step(b, s, op).1.Row? || Step(b, s, op) == (s, Threw)
    ensures Step(b, s, op).1 == Threw <==>
            Counts(b, if op.initial == None then Pending else op.initial.value) && GroupTaken(b, s, op.id, op.groupId)
  {
    assert forall st: LoopState :: Counts(Mem, st) <==> !st.Terminal();
    assert forall st: LoopState :: Counts(Pg, st) <==> st.Indexed();
  }

  /** An update throws exactly for an unknown id or, in SQL, when the written row counts and
      its group has another that does; a compare-and-swap is lost exactly for an unknown id
      or another state, and throws like an update. */
  lemma {:induction false} PatchRefusedIff(b: Backend, s: Store, op: Op)
    requires op.Update? || op.Cas?
    ensures Step(b, s, op).1.Row? || Step(b, s, op).0 == s
    ensures Step(b, s, op).1 == Undefined <==> op.Cas? && (op.id !in s || s[op.id].state != op.expected)
    ensures Step(b, s, op).1 == Threw <==>
            if op.id !in s then op.Update?
            else
              var patch := if op.Update? then op.patch else op.extra;
              var st := if op.Cas? then op.next else if patch.state == None then s[op.id].state else patch.state.value;
              var groupId := if patch.groupId == None then s[op.id].groupId else patch.groupId.value;
              && b.Pg? && (op.Cas? ==> s[op.id].state == op.expected)
              && Counts(Pg, st) && GroupTaken(Pg, s, op.id, groupId)
  {
    assert forall st: LoopState :: Counts(Pg, st) <==> st.Indexed();
  }

  /** A claim wins exactly on a row in the expected state whose reference is missing and
      whose grace period is over, and then only stamps it. */
  lemma {:induction false} ClaimAnswers(b: Backend, s: Store, op: Op)
    requires op.ClaimRedrive?
    ensures Step(b, s, op).1.Row? <==>
            && op.id in s && s[op.id].state == op.expected
            && (op.expected == Reviewing ==> s[op.id].iteration == None)
            && (op.expected == Developing ==> s[op.id].devGroupId == None)
            && (op.expected !in {Reviewing, Developing} ==> b.Pg? && s[op.id].devGroupId == None)
            && (if b.Mem? then s[op.id].updatedAt + op.graceMs <= op.readAt
                else s[op.id].updatedAt + op.graceMs < op.readAt)
    ensures if Step(b, s, op).1.Row?
            then
              var row := s[op.id].(updatedAt := op.stampAt);
              Step(b, s, op) == (s[op.id := row], Row(row))
            else Step(b, s, op) == (s, Undefined)
  {
  }

  lemma {:induction false} ReviewClaimAnswers(b: Backend, s: Store, op: Op)
    requires op.ClaimReview?
    ensures Step(b, s, op).1.Row? <==>
            && op.id in s && s[op.id].state == Reviewing && s[op.id].iteration == Some(op.expectedIteration)
            && s[op.id].updatedAt < op.staleThreshold
    ensures if Step(b, s, op).1.Row?
            then
              var row := s[op.id].(updatedAt := op.stampAt);
              Step(b, s, op) == (s[op.id := row], Row(row))
            else Step(b, s, op) == (s, Undefined)
  {
  }

  // ----- Runs -----

  function Exec(b: Backend, s: Store, ops: seq<Op>): Store {
    if ops == [] then s else Step(b, Exec(b, s, ops[..|ops| - 1]), ops[|ops| - 1]).0
  }

  /** The store just before call `i`. */
  function At(b: Backend, s: Store, ops: seq<Op>, i: nat): Store
    requires i <= |ops|
  {
    Exec(b, s, ops[..i])
  }

  predicate Wins(b: Backend, s: Store, ops: seq<Op>, i: nat)
    requires i < |ops|
  {
    Step(b, At(b, s, ops, i), ops[i]).1.Row?
  }

  lemma {:induction false} AtNext(b: Backend, s: Store, ops: seq<Op>, i: nat)
    requires i < |ops|
    ensures At(b, s, ops, i + 1) == Step(b, At(b, s, ops, i), ops[i]).0
  {
    assert ops[..i + 1][..i] == ops[..i];
  }

  /** Calls happen one after another under a clock that never goes back. */
  ghost predicate Clocked(ops: seq<Op>) {
    && (forall i :: 0 <= i < |ops| ==> ops[i].First() <= ops[i].Stamp())
    && (forall i, j :: 0 <= i < j < |ops| ==> ops[i].Stamp() <= ops[j].First())
  }

  /** Every created row gets an id no row has. */
  ghost predicate FreshIds(b: Backend, s: Store, ops: seq<Op>) {
    forall i :: 0 <= i < |ops| && ops[i].Create? ==> ops[i].id !in At(b, s, ops, i)
  }

  // ----- Claim spacing -----

  /** A call writes at most the row it names; if it succeeds, it stamps that row. */
  lemma {:induction false} OwnRowOnly(b: Backend, s: Store, op: Op, id: string)
    ensures var (t, r) := Step(b, s, op);
            if op.id == id && r.Row? then id in t && t[id] == r.row && t[id].updatedAt == op.Stamp()
            else (id in t <==> id in s) && (id in s ==> t[id] == s[id])
  {
  }

  /** Once call `i` wrote row `id`, the row stays at least as recent as that write. */
  lemma {:induction false} TouchedSince(b: Backend, s: Store, ops: seq<Op>, i: nat, j: nat, id: string)
    requires i < j <= |ops| && Clocked(ops)
    requires ops[i].id == id && Wins(b, s, ops, i)
    ensures id in At(b, s, ops, j) && At(b, s, ops, j)[id].updatedAt >= ops[i].Stamp()
  {
    var n := j - 1;
    AtNext(b, s, ops, n);
    OwnRowOnly(b, At(b, s, ops, n), ops[n], id);
    if i < n {
      TouchedSince(b, s, ops, i, n, id);
      assert ops[i].Stamp() <= ops[n].First() <= ops[n].Stamp();
    }
  }

  /** CLAIM SPACING. Over any interleaving of calls under a clock that never goes
      back, a later winning claim on a loop reads the clock at least its own grace
      period after every earlier winning claim stamped the row. */
  lemma {:induction false} ClaimSpacing(b: Backend, s: Store, ops: seq<Op>, i: nat, j: nat)
    requires i < j < |ops| && Clocked(ops)
    requires ops[i].ClaimRedrive? && ops[j].ClaimRedrive? && ops[i].id == ops[j].id
    requires Wins(b, s, ops, i) && Wins(b, s, ops, j)
    ensures ops[j].readAt >= ops[i].stampAt + ops[j].graceMs
    ensures b.Pg? ==> ops[j].readAt > ops[i].stampAt + ops[j].graceMs
  {
    TouchedSince(b, s, ops, i, j, ops[i].id);
  }

  /** At most one review claim wins among callers whose threshold is not later than
      the winner's clock. */
  lemma {:induction false} ReviewClaimOneWinner(b: Backend, s: Store, ops: seq<Op>, i: nat, j: nat)
    requires i < j < |ops| && Clocked(ops)
    requires ops[i].ClaimReview? && ops[j].ClaimReview? && ops[i].id == ops[j].id
    requires Wins(b, s, ops, i) && ops[j].staleThreshold <= ops[i].stampAt
    ensures Step(b, At(b, s, ops, j), ops[j]) == (At(b, s, ops, j), Undefined)
  {
    TouchedSince(b, s, ops, i, j, ops[i].id);
  }

  // In SQL the clock is read by each instance and the UPDATE lands later, in any order:
  // there is no common clock, only each call's own readings.

  /** Call `k` is the last one before `j` that wrote row `id`. */
  ghost predicate LastWrite(b: Backend, s: Store, ops: seq<Op>, k: nat, j: nat, id: string)
    requires k < j <= |ops|
  {
    Wrote(b, s, ops, k, id) && forall m :: k < m < j ==> !Wrote(b, s, ops, m, id)
  }

  predicate Wrote(b: Backend, s: Store, ops: seq<Op>, m: nat, id: string)
    requires m < |ops|
  {
    ops[m].id == id && Wins(b, s, ops, m)
  }

  /** Over any interleaving the row carries the stamp of the write that landed last. */
  lemma {:induction false} StampOfLastWrite(b: Backend, s: Store, ops: seq<Op>, k: nat, j: nat, id: string)
    requires k < j <= |ops| && LastWrite(b, s, ops, k, j, id)
    ensures id in At(b, s, ops, j) && At(b, s, ops, j)[id].updatedAt == ops[k].Stamp()
  {
    var n := j - 1;
    AtNext(b, s, ops, n);
    OwnRowOnly(b, At(b, s, ops, n), ops[n], id);
    if k < n {
      assert !Wrote(b, s, ops, n, id);
      StampOfLastWrite(b, s, ops, k, n, id);
    }
  }

  lemma {:induction false} LastWriteExists(b: Backend, s: Store, ops: seq<Op>, i: nat, j: nat,
                                           id: string) returns (k: nat)
    requires i < j <= |ops| && Wrote(b, s, ops, i, id)
    ensures i <= k < j && LastWrite(b, s, ops, k, j, id)
  {
    k := j - 1;
    if !Wrote(b, s, ops, k, id) { k := LastWriteExists(b, s, ops, i, j - 1, id); }
  }

  /** No claim on the row can win on a clock reading within its grace period of `since`. */
  ghost predicate SpacedFrom(t: Store, id: string, since: int) {
    forall expected: LoopState, graceMs: int, readAt: int ::
      graceMs > 0 && ClaimWins(Pg, t, id, expected, graceMs, readAt) ==> readAt > since + graceMs
  }

  /** One row: it is spaced from `since` exactly when its stamp is no earlier, or its
      null-reference test refuses every claim anyway. */
  lemma {:induction false} SpacedIff(t: Store, id: string, since: int)
    requires id in t
    ensures SpacedFrom(t, id, since) <==> (NullRef(Pg, t[id].state, t[id]) ==> t[id].updatedAt >= since)
  {
    if NullRef(Pg, t[id].state, t[id]) && t[id].updatedAt < since {
      assert ClaimWins(Pg, t, id, t[id].state, 1, t[id].updatedAt + 2);
    }
  }

  /** SQL CLAIM SPACING, over any interleaving of all SQL calls. After claim `i` won, the
      next claim is sure to be spaced from it if and only if the write that landed last is
      stamped no earlier than `i`'s (or the row refuses every claim). */
  lemma {:induction false} SqlClaimSpacingIff(s: Store, ops: seq<Op>, i: nat, k: nat, j: nat)
    requires i <= k < j <= |ops| && ops[i].ClaimRedrive? && Wins(Pg, s, ops, i)
    requires LastWrite(Pg, s, ops, k, j, ops[i].id)
    ensures ops[i].id in At(Pg, s, ops, j)
    ensures var row := At(Pg, s, ops, j)[ops[i].id];
            SpacedFrom(At(Pg, s, ops, j), ops[i].id, ops[i].stampAt) <==>
            (NullRef(Pg, row.state, row) ==> ops[k].Stamp() >= ops[i].stampAt)
  {
    StampOfLastWrite(Pg, s, ops, k, j, ops[i].id);
    SpacedIff(At(Pg, s, ops, j), ops[i].id, ops[i].stampAt);
  }

  /** Claims, each reading the clock before it stamps, are the only calls on the row. */
  ghost predicate ClaimsOnly(ops: seq<Op>, id: string) {
    forall i :: 0 <= i < |ops| && ops[i].id == id ==>
      || (ops[i].ClaimRedrive? && ops[i].graceMs > 0 && ops[i].readAt <= ops[i].stampAt)
      || (ops[i].ClaimReview? && ops[i].staleThreshold <= ops[i].stampAt)
  }

  /** Then every winner stamps the row later than it was. */
  lemma {:induction false} ClaimsOnlyStampsGrow(s: Store, ops: seq<Op>, i: nat, k: nat, id: string)
    requires i <= k < |ops| && ClaimsOnly(ops, id)
    requires ops[i].id == id && Wins(Pg, s, ops, i) && ops[k].id == id && Wins(Pg, s, ops, k)
    ensures ops[k].Stamp() >= ops[i].Stamp()
    decreases k
  {
    if i < k {
      var m := LastWriteExists(Pg, s, ops, i, k, id);
      ClaimsOnlyStampsGrow(s, ops, i, m, id);
      StampOfLastWrite(Pg, s, ops, m, k, id);
    }
  }

  /** Hence, with claims alone writing a row, the winners' clock readings strictly
      increase, each by more than its grace period, in the order the updates land. */
  lemma {:induction false} PgClaimSpacing(s: Store, ops: seq<Op>, i: nat, j: nat)
    requires i < j < |ops| && ClaimsOnly(ops, ops[i].id)
    requires ops[i].ClaimRedrive? && ops[j].ClaimRedrive? && ops[i].id == ops[j].id
    requires Wins(Pg, s, ops, i) && Wins(Pg, s, ops, j)
    ensures ops[j].readAt > ops[i].stampAt + ops[j].graceMs
    ensures ops[j].readAt > ops[i].readAt + ops[j].graceMs
  {
    var k := LastWriteExists(Pg, s, ops, i, j, ops[i].id);
    ClaimsOnlyStampsGrow(s, ops, i, k, ops[i].id);
    SqlClaimSpacingIff(s, ops, i, k, j);
    assert ClaimWins(Pg, At(Pg, s, ops, j), ops[j].id, ops[j].expected, ops[j].graceMs, ops[j].readAt);
  }

  const NoChange := Patch(None, None, None, None)

  /** A witness: an update whose stamp was taken early but lands late moves updatedAt
      back, and two claims 1 ms apart both win a grace of 100 ms. */
  lemma {:induction false} LateWriteBreaksSpacing()
    ensures var s: Store := map["l" := Loop("g", Reviewing, None, None, 0, 0)];
            var ops := [ClaimRedrive("l", Reviewing, 100, 1000, 1000), Update("l", NoChange, 500),
                        ClaimRedrive("l", Reviewing, 100, 1001, 1001)];
            Wins(Pg, s, ops, 0) && Wins(Pg, s, ops, 2)
  {
    var s: Store := map["l" := Loop("g", Reviewing, None, None, 0, 0)];
    var ops := [ClaimRedrive("l", Reviewing, 100, 1000, 1000), Update("l", NoChange, 500),
                ClaimRedrive("l", Reviewing, 100, 1001, 1001)];
    AtNext(Pg, s, ops, 0);
    AtNext(Pg, s, ops, 1);
    assert At(Pg, s, ops, 0) == s;
    var s1 := At(Pg, s, ops, 1);
    assert s1["l"] == Loop("g", Reviewing, None, None, 0, 1000) && s1.Keys == {"l"};
    assert !IndexConflict(s1, "l", Patched(s1["l"], NoChange, 500));
    assert At(Pg, s, ops, 2)["l"].updatedAt == 500;
  }

  /** Where the two backends agree on a re-drive claim: everywhere except exactly at
      the grace boundary, and in the states where only SQL tests devGroupId. */
  lemma {:induction false} BackendsAgreeOnClaim(s: Store, id: string, expected: LoopState, graceMs: int, readAt: int)
    ensures ClaimWins(Mem, s, id, expected, graceMs, readAt) != ClaimWins(Pg, s, id, expected, graceMs, readAt)
            <==> id in s && s[id].state == expected &&
                 if expected.Reviewing? || expected.Developing?
                 then NullRef(Mem, expected, s[id]) && readAt - s[id].updatedAt == graceMs
                 else s[id].devGroupId.None? && s[id].updatedAt < readAt - graceMs
  {
  }

  // ----- Compare-and-swap linearization -----

  datatype Edge = Edge(src: LoopState, dst: LoopState)

  predicate CasWins(b: Backend, s: Store, ops: seq<Op>, i: nat, id: string)
    requires i < |ops|
  {
    ops[i].Cas? && ops[i].id == id && Wins(b, s, ops, i)
  }

  /** The successful compare-and-swaps on a loop, in order. */
  function Log(b: Backend, s: Store, ops: seq<Op>, id: string): seq<Edge> {
    if ops == [] then []
    else
      var n := |ops| - 1;
      Log(b, s, ops[..n], id) +
      if CasWins(b, s, ops, n, id) then [Edge(ops[n].expected, ops[n].next)] else []
  }

  /** The edges lead, end to end, from one state to the other. */
  predicate Walk(src: LoopState, edges: seq<Edge>, dst: LoopState) {
    && (if edges == [] then src == dst else edges[0].src == src && edges[|edges| - 1].dst == dst)
    && forall i :: 0 <= i < |edges| - 1 ==> edges[i].dst == edges[i + 1].src
  }

  /** No plain update of the loop touches its state, and its id is not created anew. */
  ghost predicate StateOnlyByCas(ops: seq<Op>, id: string) {
    forall i :: 0 <= i < |ops| && ops[i].id == id ==> !ops[i].Create? && (ops[i].Update? ==> ops[i].patch.state.None?)
  }

  /** LINEARIZATION. The log of winning compare-and-swaps on a loop is a connected
      walk from the state it had to the state it has. */
  lemma {:induction false} CasLogIsWalk(b: Backend, s: Store, ops: seq<Op>, id: string)
    requires id in s && StateOnlyByCas(ops, id)
    ensures id in Exec(b, s, ops)
    ensures Walk(s[id].state, Log(b, s, ops, id), Exec(b, s, ops)[id].state)
  {
    if ops != [] {
      var n := |ops| - 1;
      CasLogIsWalk(b, s, ops[..n], id);
      assert At(b, s, ops, n) == Exec(b, s, ops[..n]);
      StateMovesByCas(b, Exec(b, s, ops[..n]), ops[n], id);
    }
  }

  lemma {:induction false} StateMovesByCas(b: Backend, s: Store, op: Op, id: string)
    requires id in s && (op.id == id ==> !op.Create? && (op.Update? ==> op.patch.state.None?))
    ensures var (t, r) := Step(b, s, op);
            && id in t
            && t[id].state == (if op.Cas? && op.id == id && r.Row? then op.next else s[id].state)
            && (op.Cas? && op.id == id && r.Row? ==> s[id].state == op.expected)
  {
  }

  /** Unless a winning compare-and-swap re-enters `st`, a loop that left it stays out. */
  lemma {:induction false} StaysOut(b: Backend, s: Store, ops: seq<Op>, i: nat, j: nat, id: string, st: LoopState)
    requires i < j <= |ops| && StateOnlyByCas(ops, id)
    requires CasWins(b, s, ops, i, id) && ops[i].next != st
    requires forall k :: i < k < j && CasWins(b, s, ops, k, id) ==> ops[k].next != st
    ensures id in At(b, s, ops, j) && At(b, s, ops, j)[id].state != st
  {
    var n := j - 1;
    AtNext(b, s, ops, n);
    if i < n {
      StaysOut(b, s, ops, i, n, id, st);
      StateMovesByCas(b, At(b, s, ops, n), ops[n], id);
    }
  }

  /** Two winners from the same state have a re-entry of that state between them. */
  lemma {:induction false} ReentryBetweenWinners(b: Backend, s: Store, ops: seq<Op>, i: nat, j: nat, id: string)
    requires i < j < |ops| && StateOnlyByCas(ops, id)
    requires CasWins(b, s, ops, i, id) && CasWins(b, s, ops, j, id)
    requires ops[i].expected == ops[j].expected && ops[i].next != ops[i].expected
    ensures exists k :: i < k < j && CasWins(b, s, ops, k, id) && ops[k].next == ops[i].expected
  {
    if forall k :: i < k < j && CasWins(b, s, ops, k, id) ==> ops[k].next != ops[i].expected {
      StaysOut(b, s, ops, i, j, id, ops[i].expected);
    }
  }

  /** Of callers racing from one state to other states in memory, the first wins and
      nobody else does. */
  lemma {:induction false} RaceHasOneWinner(s: Store, ops: seq<Op>, id: string, st: LoopState)
    requires id in s && s[id].state == st && ops != []
    requires forall i :: 0 <= i < |ops| ==> ops[i].Cas? && ops[i].id == id && ops[i].expected == st && ops[i].next != st
    ensures forall i :: 0 <= i < |ops| ==> (Wins(Mem, s, ops, i) <==> i == 0)
  {
    assert At(Mem, s, ops, 0) == s;
    forall i | 0 < i < |ops| ensures !Wins(Mem, s, ops, i) {
      if Wins(Mem, s, ops, i) {
        ReentryBetweenWinners(Mem, s, ops, 0, i, id);
      }
    }
  }

  // ----- One active loop per group -----

  ghost predicate OneActivePerGroup(s: Store) {
    forall a, b :: a in s && b in s && a != b && Active(s[a]) && Active(s[b]) ==> s[a].groupId != s[b].groupId
  }

  /** The row a call would write, when it writes one. */
  function Written(s: Store, op: Op): Option<Loop> {
    match op
    case Update(id, patch, now) => if id in s then Some(Patched(s[id], patch, now)) else None
    case Cas(id, expected, next, extra, now) =>
      if id in s && s[id].state == expected then Some(Patched(s[id], extra, now).(state := next)) else None
    case _ => None
  }

  predicate OtherActive(s: Store, id: string, groupId: string) {
    exists o :: o in s && o != id && s[o].groupId == groupId && Active(s[o])
  }

  /** Exactly when a call to the in-memory store keeps one active loop per group:
      unless an update or compare-and-swap writes an active row into a group that
      already has another one. `createLoop` and the claims always keep it. */
  lemma {:induction false} KeepsOneActiveIff(s: Store, op: Op)
    requires OneActivePerGroup(s) && (op.Create? ==> op.id !in s)
    ensures OneActivePerGroup(Step(Mem, s, op).0)
            <==> !(Written(s, op).Some? && Active(Written(s, op).value)
                   && OtherActive(s, op.id, Written(s, op).value.groupId))
  {
    var t := Step(Mem, s, op).0;
    var w := Written(s, op);
    if w.Some? {
      assert t == s[op.id := w.value];
      if Active(w.value) && OtherActive(s, op.id, w.value.groupId) {
        var o :| o in s && o != op.id && s[o].groupId == w.value.groupId && Active(s[o]);
        assert o in t && op.id in t;
      }
    }
  }

  /** Calls that never re-open a finished loop, move a loop between groups, or patch
      a state directly. */
  predicate Orderly(op: Op) {
    match op
    case Update(_, patch, _) => patch.groupId.None? && patch.state.None?
    case Cas(_, expected, next, extra, _) => extra.groupId.None? && (expected.Terminal() ==> next.Terminal())
    case _ => true
  }

  /** ONE ACTIVE LOOP PER GROUP, over every orderly run of the in-memory store. */
  lemma {:induction false} OneActiveInEveryRun(s: Store, ops: seq<Op>)
    requires OneActivePerGroup(s) && FreshIds(Mem, s, ops)
    requires forall i :: 0 <= i < |ops| ==> Orderly(ops[i])
    ensures OneActivePerGroup(Exec(Mem, s, ops))
  {
    if ops != [] {
      var n := |ops| - 1;
      assert FreshIds(Mem, s, ops[..n]) by {
        forall i | 0 <= i < n ensures At(Mem, s, ops[..n], i) == At(Mem, s, ops, i) {
          assert ops[..n][..i] == ops[..i];
        }
      }
      OneActiveInEveryRun(s, ops[..n]);
      var before := Exec(Mem, s, ops[..n]);
      assert At(Mem, s, ops, n) == before;
      KeepsOneActiveIff(before, ops[n]);
    }
  }

  /** Re-opening is what breaks it: a finished loop is moved back to `developing`
      after its group got a new loop, and the in-memory store lets it through. */
  lemma {:induction false} ReopenBreaksOneActive()
    ensures var ops := [Create("a", "g", None, None, None, 1), Cas("a", Pending, Converged, NoChange, 2),
                        Create("b", "g", None, None, None, 3), Cas("a", Converged, Developing, NoChange, 4)];
            && (forall i :: 0 <= i < 4 ==> Wins(Mem, map[], ops, i))
            && !OneActivePerGroup(Exec(Mem, map[], ops))
  {
    var ops := [Create("a", "g", None, None, None, 1), Cas("a", Pending, Converged, NoChange, 2),
                Create("b", "g", None, None, None, 3), Cas("a", Converged, Developing, NoChange, 4)];
    forall i | 0 <= i < 4 ensures At(Mem, map[], ops, i + 1) == Step(Mem, At(Mem, map[], ops, i), ops[i]).0 {
      AtNext(Mem, map[], ops, i);
    }
    var pending, converged := Loop("g", Pending, None, None, 1, 1), Loop("g", Converged, None, None, 1, 2);
    var second, reopened := Loop("g", Pending, None, None, 3, 3), Loop("g", Developing, None, None, 1, 4);
    assert At(Mem, map[], ops, 0) == map[];
    ReopenSteps(pending, converged, second, reopened);
    assert At(Mem, map[], ops, 0 + 1) == map["a" := pending];
    assert At(Mem, map[], ops, 1 + 1) == map["a" := converged];
    assert At(Mem, map[], ops, 2 + 1) == map["a" := converged, "b" := second];
    assert At(Mem, map[], ops, 3 + 1) == map["a" := reopened, "b" := second];
    assert ops[..4] == ops;
    assert "a" in map["a" := reopened, "b" := second];
  }

  lemma {:induction false} ReopenSteps(pending: Loop, converged: Loop, second: Loop, reopened: Loop)
    requires pending == Loop("g", Pending, None, None, 1, 1) && converged == Loop("g", Converged, None, None, 1, 2)
    requires second == Loop("g", Pending, None, None, 3, 3) && reopened == Loop("g", Developing, None, None, 1, 4)
    ensures Step(Mem, map[], Create("a", "g", None, None, None, 1)) == (map["a" := pending], Row(pending))
    ensures Step(Mem, map["a" := pending], Cas("a", Pending, Converged, NoChange, 2)) ==
            (map["a" := converged], Row(converged))
    ensures Step(Mem, map["a" := converged], Create("b", "g", None, None, None, 3)) ==
            (map["a" := converged, "b" := second], Row(second))
    ensures Step(Mem, map["a" := converged, "b" := second], Cas("a", Converged, Developing, NoChange, 4)) ==
            (map["a" := reopened, "b" := second], Row(reopened))
    ensures !OneActivePerGroup(map["a" := reopened, "b" := second])
  {
    var s := map["a" := reopened, "b" := second];
    assert "a" in s && "b" in s && "a" != "b" && Active(s["a"]) && Active(s["b"]);
    assert !HasActive(map[], "g") && !HasActive(map["a" := converged], "g");
    assert map["a" := pending]["a" := converged] == map["a" := converged];
    assert map["a" := converged, "b" := second]["a" := reopened] == s;
  }

  ghost predicate OneIndexedPerGroup(s: Store) {
    forall a, b :: a in s && b in s && a != b && s[a].state.Indexed() && s[b].state.Indexed() ==>
        s[a].groupId != s[b].groupId
  }

  lemma {:induction false} IndexStep(s: Store, id: string, row: Loop)
    requires OneIndexedPerGroup(s) && !IndexConflict(s, id, row)
    ensures OneIndexedPerGroup(s[id := row])
  {
  }

  /** In Postgres the partial unique index keeps it over every run, orderly or not. */
  lemma {:induction false} IndexKeepsOneActive(s: Store, ops: seq<Op>)
    requires OneIndexedPerGroup(s)
    ensures OneIndexedPerGroup(Exec(Pg, s, ops)) && OneActivePerGroup(Exec(Pg, s, ops))
  {
    if ops != [] {
      var before, op := Exec(Pg, s, ops[..|ops| - 1]), ops[|ops| - 1];
      IndexKeepsOneActive(s, ops[..|ops| - 1]);
      if Step(Pg, before, op).1.Row? {
        var row := Step(Pg, before, op).1.row;
        assert Step(Pg, before, op).0 == before[op.id := row];
        IndexStep(before, op.id, row);
      }
    }
    forall id | id in Exec(Pg, s, ops) ensures Active(Exec(Pg, s, ops)[id]) ==> Exec(Pg, s, ops)[id].state.Indexed() {}
  }

  /** The backends disagree on creating a loop exactly because the index counts
      `stopped` as unfinished. */
  lemma {:induction false} BackendsAgreeOnCreate(s: Store, op: Op)
    requires op.Create? && op.id !in s
    ensures var state := OrElse(op.initial, Pending);
            var hasStopped := exists o :: o in s && s[o].groupId == op.groupId && s[o].state.Stopped?;
            Step(Mem, s, op).1 != Step(Pg, s, op).1
            <==> || (!state.Terminal() && !HasActive(s, op.groupId) && hasStopped)
                 || (state.Stopped? && (hasStopped || HasActive(s, op.groupId)))
  {
    var row := Created(op);
    assert forall st: LoopState :: st.Indexed() <==> !st.Terminal() || st.Stopped?;
    assert IndexConflict(s, op.id, row) <==>
           row.state.Indexed() && exists o :: o in s && s[o].groupId == row.groupId && s[o].state.Indexed();
  }

  /** A witness: memory accepts a loop beside a stopped one, the index refuses it. */
  lemma {:induction false} StoppedWitness()
    ensures var s: Store := map["a" := Loop("g", Stopped, None, None, 0, 0)];
            var op := Create("b", "g", None, None, None, 1);
            Step(Mem, s, op).1 == Row(Created(op)) && Step(Pg, s, op).1 == Threw
  {
    var s: Store := map["a" := Loop("g", Stopped, None, None, 0, 0)];
    assert "a" in s && s["a"].state.Indexed() && !Active(s["a"]);
  }

  // ----- The in-memory store -----

  /** MemStorage's loop methods. Each runs to completion without yielding, so it is
      one step; `history` records the calls made so far. */
  class MemLoops {
    var loops: map<string, Loop>
    ghost var history: seq<Op>

    /** The table is what the recorded calls made of an empty one, under a clock that
        never went back and with fresh ids. */
    ghost predicate Valid()
      reads this
    {
      loops == Exec(Mem, map[], history) && Clocked(history) && FreshIds(Mem, map[], history)
    }

    ghost predicate Now(t: int)
      reads this
    {
      forall i :: 0 <= i < |history| ==> history[i].Stamp() <= t
    }

    constructor ()
      ensures Valid() && history == [] && loops == map[]
    {
      loops, history := map[], [];
    }

    lemma {:induction false} Recorded(op: Op)
      requires Valid() && Now(op.First()) && op.First() <= op.Stamp()
      requires op.Create? ==> op.id !in loops
      ensures Exec(Mem, map[], history + [op]) == Step(Mem, loops, op).0
      ensures Clocked(history + [op]) && FreshIds(Mem, map[], history + [op])
    {
      var h := history + [op];
      assert h[..|h| - 1] == history;
      forall i | 0 <= i < |h| && h[i].Create? ensures h[i].id !in At(Mem, map[], h, i) {
        if i < |history| {
          assert h[..i] == history[..i];
          assert history[i].id !in At(Mem, map[], history, i);
        }
      }
    }

    method CreateLoop(id: string, groupId: string, initial: Option<LoopState>, iteration: Option<int>,
                      devGroupId: Option<string>, now: int) returns (r: Outcome)
      requires Valid() && Now(now) && id !in loops
      modifies this
      ensures Valid() && history == old(history) + [Create(id, groupId, initial, iteration, devGroupId, now)]
      ensures r == Step(Mem, old(loops), Create(id, groupId, initial, iteration, devGroupId, now)).1
    {
      ghost var op := Create(id, groupId, initial, iteration, devGroupId, now);
      Recorded(op);
      history := history + [op];
      var state := OrElse(initial, Pending);
      if !state.Terminal() {
        var todo := loops.Keys;
        while todo != {}
          invariant todo <= loops.Keys && loops == old(loops)
          invariant forall o :: o in loops.Keys - todo ==> !(loops[o].groupId == groupId && Active(loops[o]))
          decreases todo
        {
          var o :| o in todo;
          if loops[o].groupId == groupId && Active(loops[o]) {
            assert HasActive(loops, groupId);
            return Threw;
          }
          todo := todo - {o};
        }
        assert !HasActive(loops, groupId);
      }
      var row := Loop(groupId, state, iteration, devGroupId, now, now);
      loops := loops[id := row];
      r := Row(row);
    }

    method UpdateLoop(id: string, patch: Patch, now: int) returns (r: Outcome)
      requires Valid() && Now(now)
      modifies this
      ensures Valid() && history == old(history) + [Update(id, patch, now)]
      ensures r == Step(Mem, old(loops), Update(id, patch, now)).1
    {
      Recorded(Update(id, patch, now));
      history := history + [Update(id, patch, now)];
      if id !in loops { return Threw; }
      var updated := Patched(loops[id], patch, now);
      loops := loops[id := updated];
      r := Row(updated);
    }

    method CasLoopState(id: string, expected: LoopState, next: LoopState, extra: Patch, now: int) returns (r: Outcome)
      requires Valid() && Now(now)
      modifies this
      ensures Valid() && history == old(history) + [Cas(id, expected, next, extra, now)]
      ensures r == Step(Mem, old(loops), Cas(id, expected, next, extra, now)).1
    {
      Recorded(Cas(id, expected, next, extra, now));
      history := history + [Cas(id, expected, next, extra, now)];
      if id !in loops || loops[id].state != expected { return Undefined; }
      var updated := Patched(loops[id], extra, now).(state := next);
      loops := loops[id := updated];
      r := Row(updated);
    }

    method ClaimRedriveLoop(id: string, expected: LoopState, graceMs: int, readAt: int,
                            stampAt: int) returns (r: Outcome)
      requires Valid() && Now(readAt) && readAt <= stampAt
      modifies this
      ensures Valid() && history == old(history) + [ClaimRedrive(id, expected, graceMs, readAt, stampAt)]
      ensures r == Step(Mem, old(loops), ClaimRedrive(id, expected, graceMs, readAt, stampAt)).1
    {
      ghost var op := ClaimRedrive(id, expected, graceMs, readAt, stampAt);
      Recorded(op);
      history := history + [op];
      if id !in loops || loops[id].state != expected { return Undefined; }
      var existing := loops[id];
      var nullRef :=
        if expected.Reviewing? then existing.iteration.None?
        else if expected.Developing? then existing.devGroupId.None?
        else false;
      if !nullRef { return Undefined; }
      if readAt - existing.updatedAt < graceMs { return Undefined; }
      var claimed := existing.(updatedAt := stampAt);
      loops := loops[id := claimed];
      r := Row(claimed);
    }

    method ClaimReviewRedrive(id: string, expectedIteration: int, staleThreshold: int, now: int) returns (r: Outcome)
      requires Valid() && Now(now)
      modifies this
      ensures Valid() && history == old(history) + [ClaimReview(id, expectedIteration, staleThreshold, now)]
      ensures r == Step(Mem, old(loops), ClaimReview(id, expectedIteration, staleThreshold, now)).1
    {
      ghost var op := ClaimReview(id, expectedIteration, staleThreshold, now);
      Recorded(op);
      history := history + [op];
      if id !in loops || loops[id].state != Reviewing { return Undefined; }
      if loops[id].iteration != Some(expectedIteration) { return Undefined; }
      if loops[id].updatedAt >= staleThreshold { return Undefined; }
      var claimed := loops[id].(updatedAt := now);
      loops := loops[id := claimed];
      r := Row(claimed);
    }

    /** Finds an active loop of the group if there is one; when the recorded calls
        were orderly it is the only one. */
    method GetActiveLoopByGroup(groupId: string) returns (r: Option<string>)
      requires Valid()
      ensures r.None? <==> !HasActive(loops, groupId)
      ensures r.Some? ==> r.value in loops && loops[r.value].groupId == groupId && Active(loops[r.value])
      ensures r.Some? && (forall i :: 0 <= i < |history| ==> Orderly(history[i]))
              ==> forall id :: id in loops && loops[id].groupId == groupId && Active(loops[id]) ==> id == r.value
    {
      var todo := loops.Keys;
      while todo != {}
        invariant todo <= loops.Keys
        invariant forall o :: o in loops.Keys - todo ==> !(loops[o].groupId == groupId && Active(loops[o]))
        decreases todo
      {
        var o :| o in todo;
        if loops[o].groupId == groupId && Active(loops[o]) {
          if forall i :: 0 <= i < |history| ==> Orderly(history[i]) {
            OneActiveInEveryRun(map[], history);
          }
          return Some(o);
        }
        todo := todo - {o};
      }
      r := None;
    }
  }
}
