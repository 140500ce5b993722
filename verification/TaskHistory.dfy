/**
 Task groups, iterations, executions and traces of the in-memory store
 (server/storage.ts), which emulates the database's unique constraints and
 cascades by hand. `Integrity` is what those constraints promise. A call keeps it if
 and only if the call is proper, and a caller can tell that beforehand.
 */
module TaskHistory {

  import opened Wrappers

  datatype Group = Group(name: string, status: string)
  datatype Task = Task(groupId: string, name: string)
  datatype Iteration = Iteration(groupId: string, number: int, status: string)
  datatype Execution = Execution(iterationId: string, taskId: Option<string>, taskName: Option<string>, groupId: string,
                                 status: string)
  datatype Trace = Trace(id: string, groupId: string, iterationId: Option<string>, totalTokens: int)
  datatype Seed = Seed(taskId: string, taskName: string, status: string)

  datatype DB = DB(groups: map<string, Group>, tasks: map<string, Task>, iterations: map<string, Iteration>,
                   executions: map<string, Execution>, traces: map<string, Trace>, traceByGroup: map<string, Trace>)

  datatype IterationPatch = IterationPatch(groupId: Option<string>, number: Option<int>, status: Option<string>)
  datatype ExecutionPatch = ExecutionPatch(iterationId: Option<string>, taskId: Option<Option<string>>,
                                           groupId: Option<string>, status: Option<string>)
  datatype TracePatch = TracePatch(groupId: Option<string>, totalTokens: Option<int>)

  /** One call; new ids are drawn at random and given here. */
  datatype Op =
    | CreateGroup(id: string, group: Group)
    | CreateTask(id: string, task: Task)
    | CreateIteration(id: string, iteration: Iteration)
    | CreateIterationWithExecutions(id: string, groupId: string, number: int, seeds: seq<Seed>, exIds: seq<string>)
    | UpdateIteration(id: string, itPatch: IterationPatch)
    | CreateExecution(id: string, execution: Execution)
    | UpdateExecution(id: string, exPatch: ExecutionPatch)
    | CreateTrace(id: string, groupId: string, iterationId: Option<string>, totalTokens: int)
    | UpdateTrace(id: string, trPatch: TracePatch)
    | DeleteTask(id: string)
    | DeleteTaskGroup(id: string)

  predicate IterationExists(db: DB, groupId: string, number: int) {
    exists i :: i in db.iterations && db.iterations[i].groupId == groupId && db.iterations[i].number == number
  }

  predicate ExecutionExists(db: DB, iterationId: string, taskId: string) {
    exists e :: e in db.executions && db.executions[e].iterationId == iterationId &&
        db.executions[e].taskId == Some(taskId)
  }

  function Without<T>(m: map<string, T>, drop: T -> bool): map<string, T> {
    map k | k in m && !drop(m[k]) :: m[k]
  }

  function SeedRow(iterationId: string, groupId: string, seed: Seed): Execution {
    Execution(iterationId, Some(seed.taskId), Some(seed.taskName), groupId, seed.status)
  }

  /** The executions with the first rows of the new iteration entered in order. */
  function WithSeeds(ex: map<string, Execution>, iterationId: string, groupId: string, seeds: seq<Seed>,
                     ids: seq<string>)
    : map<string, Execution>
    requires |seeds| == |ids|
  {
    if seeds == [] then ex
    else
      var n := |seeds| - 1;
      WithSeeds(ex, iterationId, groupId, seeds[..n], ids[..n])[ids[n] := SeedRow(iterationId, groupId, seeds[n])]
  }

  function Unlink(ex: Execution, taskId: string): Execution {
    if ex.taskId == Some(taskId) then ex.(taskId := None) else ex
  }

  /** The effect of a call; `false` when it throws. */
  function Step(db: DB, op: Op): (DB, bool)
    requires op.CreateIterationWithExecutions? ==> |op.seeds| == |op.exIds|
  {
    match op
    case CreateGroup(id, group) => (db.(groups := db.groups[id := group]), true)
    case CreateTask(id, task) => (db.(tasks := db.tasks[id := task]), true)
    case CreateIteration(id, it) =>
      if IterationExists(db, it.groupId, it.number) then (db, false)
      else (db.(iterations := db.iterations[id := it]), true)
    case CreateIterationWithExecutions(id, groupId, number, seeds, exIds) =>
      if IterationExists(db, groupId, number) then (db, false)
      else
        (db.(iterations := db.iterations[id := Iteration(groupId, number, "running")],
             executions := WithSeeds(db.executions, id, groupId, seeds, exIds)), true)
    case UpdateIteration(id, p) =>
      if id !in db.iterations then (db, false)
      else
        (db.(iterations := db.iterations[id := Patched(db.iterations[id], p)]), true)
    case CreateExecution(id, ex) =>
      if ex.taskId.Some? && ExecutionExists(db, ex.iterationId, ex.taskId.value) then (db, false)
      else (db.(executions := db.executions[id := ex]), true)
    case UpdateExecution(id, p) =>
      if id !in db.executions then (db, false)
      else
        (db.(executions := db.executions[id := PatchedExecution(db.executions[id], p)]), true)
    case CreateTrace(id, groupId, iterationId, tokens) =>
      var tr := Trace(id, groupId, iterationId, tokens);
      (db.(traces := db.traces[id := tr], traceByGroup := db.traceByGroup[groupId := tr]), true)
    case UpdateTrace(id, p) =>
      if id !in db.traces then (db, false)
      else
        var tr := db.traces[id].(groupId := OrElse(p.groupId, db.traces[id].groupId),
                                 totalTokens := OrElse(p.totalTokens, db.traces[id].totalTokens));
        (db.(traces := db.traces[id := tr], traceByGroup := db.traceByGroup[tr.groupId := tr]), true)
    case DeleteTask(id) =>
      (db.(tasks := db.tasks - {id}, executions := map e | e in db.executions :: Unlink(db.executions[e], id)), true)
    case DeleteTaskGroup(id) =>
      var gone := exists t :: t in db.traces && db.traces[t].groupId == id;
      (DB(db.groups - {id},
          Without(db.tasks, (t: Task) => t.groupId == id),
          Without(db.iterations, (it: Iteration) => it.groupId == id),
          Without(db.executions, (ex: Execution) => ex.groupId == id),
          Without(db.traces, (tr: Trace) => tr.groupId == id),
          if gone then db.traceByGroup - {id} else db.traceByGroup), true)
  }

  // ----- Integrity -----

  predicate SameNumber(a: Iteration, b: Iteration) {
    a.groupId == b.groupId && a.number == b.number
  }

  /** Two live executions of one task in one iteration; forgotten tasks never collide. */
  predicate SameTask(a: Execution, b: Execution) {
    a.taskId.Some? && a.iterationId == b.iterationId && a.taskId == b.taskId
  }

  ghost predicate IterationsUnique(db: DB) {
    forall i, j :: i in db.iterations && j in db.iterations && SameNumber(db.iterations[i], db.iterations[j]) ==> i == j
  }

  ghost predicate ExecutionsUnique(db: DB) {
    forall e, f :: e in db.executions && f in db.executions && SameTask(db.executions[e], db.executions[f]) ==> e == f
  }

  ghost predicate ExecutionsPlaced(db: DB) {
    forall e :: e in db.executions ==> Placed(db, db.executions[e])
  }

  ghost predicate TracesIndexed(db: DB) {
    && (forall t :: t in db.traces ==> db.traces[t].id == t && db.traces[t].groupId in db.traceByGroup)
    && (forall g :: g in db.traceByGroup ==>
          db.traceByGroup[g].groupId == g && db.traceByGroup[g].id in db.traces &&
          db.traces[db.traceByGroup[g].id] == db.traceByGroup[g])
  }

  ghost predicate Integrity(db: DB) {
    IterationsUnique(db) && ExecutionsUnique(db) && ExecutionsPlaced(db) && TracesIndexed(db)
  }

  ghost predicate DistinctSeq(s: seq<string>) {
    forall i, j :: 0 <= i < j < |s| ==> s[i] != s[j]
  }

  /** Random ids are new, and there is one per seed. */
  ghost predicate FreshIds(db: DB, op: Op) {
    match op
    case CreateIteration(id, _) => id !in db.iterations
    case CreateIterationWithExecutions(id, _, _, seeds, exIds) =>
      id !in db.iterations && |exIds| == |seeds| && DistinctSeq(exIds) && db.executions.Keys !! Elements(exIds)
    case CreateExecution(id, _) => id !in db.executions
    case CreateTrace(id, _, _, _) => id !in db.traces
    case _ => true
  }

  ghost predicate SeedsDistinct(seeds: seq<Seed>) {
    forall i, j :: 0 <= i < j < |seeds| ==> seeds[i].taskId != seeds[j].taskId
  }

  function Patched(it: Iteration, p: IterationPatch): Iteration {
    Iteration(OrElse(p.groupId, it.groupId), OrElse(p.number, it.number), OrElse(p.status, it.status))
  }

  function PatchedExecution(ex: Execution, p: ExecutionPatch): Execution {
    Execution(OrElse(p.iterationId, ex.iterationId), OrElse(p.taskId, ex.taskId), ex.taskName,
              OrElse(p.groupId, ex.groupId), OrElse(p.status, ex.status))
  }

  /** The execution names an iteration of its group. */
  predicate Placed(db: DB, ex: Execution) {
    ex.iterationId in db.iterations && db.iterations[ex.iterationId].groupId == ex.groupId
  }

  /** No other row has the number, and the group stays or nothing hangs on the row. */
  ghost predicate MayBecomeIteration(db: DB, id: string, it: Iteration)
    requires id in db.iterations
  {
    && (forall i :: i in db.iterations && i != id ==> !SameNumber(db.iterations[i], it))
    && (it.groupId == db.iterations[id].groupId || forall e ::
          e in db.executions ==> db.executions[e].iterationId != id)
  }

  /** No other row is about the same task, and the iteration is one of the group. */
  ghost predicate MayBecomeExecution(db: DB, id: string, ex: Execution) {
    Placed(db, ex) && forall e :: e in db.executions && e != id ==> !SameTask(db.executions[e], ex)
  }

  /** What callers owe: seeds name distinct tasks, an execution targets an existing
      iteration of its group, a patch clashes with no other row and orphans none, and a
      trace moves to another group only if the index does not hold it for its old one. */
  ghost predicate Proper(db: DB, op: Op)
    requires op.CreateIterationWithExecutions? ==> |op.seeds| == |op.exIds|
  {
    Step(db, op).1 ==>
      match op
      case CreateIterationWithExecutions(_, _, _, seeds, _) => SeedsDistinct(seeds)
      case CreateExecution(_, ex) => Placed(db, ex)
      case UpdateIteration(id, p) => MayBecomeIteration(db, id, Patched(db.iterations[id], p))
      case UpdateExecution(id, p) => MayBecomeExecution(db, id, PatchedExecution(db.executions[id], p))
      case UpdateTrace(id, p) => MayMove(db, id, p)
      case _ => true
  }

  predicate MayMove(db: DB, id: string, p: TracePatch)
    requires id in db.traces
  {
    var g := db.traces[id].groupId;
    p.groupId.None? || p.groupId.value == g || (g in db.traceByGroup && db.traceByGroup[g].id != id)
  }

  ghost function Elements(s: seq<string>): set<string> {
    set x | x in s
  }

  lemma {:induction false} ElementsSnoc(s: seq<string>)
    requires s != []
    ensures Elements(s) == Elements(s[..|s| - 1]) + {s[|s| - 1]}
    ensures DistinctSeq(s) ==> s[|s| - 1] !in Elements(s[..|s| - 1])
  {
    assert s == s[..|s| - 1] + [s[|s| - 1]];
  }

  lemma {:induction false} SeedKeys(ex: map<string, Execution>, it: string, g: string, seeds: seq<Seed>,
                                    ids: seq<string>)
    requires |seeds| == |ids|
    ensures WithSeeds(ex, it, g, seeds, ids).Keys == ex.Keys + Elements(ids)
  {
    if seeds != [] {
      var n := |seeds| - 1;
      SeedKeys(ex, it, g, seeds[..n], ids[..n]);
      ElementsSnoc(ids);
    }
  }

  lemma {:induction false} SeedCount(ids: seq<string>)
    requires DistinctSeq(ids)
    ensures |Elements(ids)| == |ids|
  {
    if ids != [] {
      SeedCount(ids[..|ids| - 1]);
      ElementsSnoc(ids);
    }
  }

  lemma {:induction false} SeedValues(ex: map<string, Execution>, it: string, g: string, seeds: seq<Seed>,
                                      ids: seq<string>)
    requires |seeds| == |ids| && DistinctSeq(ids) && ex.Keys !! Elements(ids)
    ensures var r := WithSeeds(ex, it, g, seeds, ids);
            && (forall e :: e in ex ==> e in r && r[e] == ex[e])
            && (forall i :: 0 <= i < |ids| ==> ids[i] in r && r[ids[i]] == SeedRow(it, g, seeds[i]))
  {
    if seeds != [] {
      var n := |seeds| - 1;
      ElementsSnoc(ids);
      SeedValues(ex, it, g, seeds[..n], ids[..n]);
      forall i | 0 <= i < n ensures ids[i] == ids[..n][i] && seeds[i] == seeds[..n][i] && ids[i] != ids[n] {}
    }
  }

  /** Where each row of a seeded iteration ends up. */
  lemma {:induction false} SeedsEntered(ex: map<string, Execution>, it: string, g: string, seeds: seq<Seed>,
                                        ids: seq<string>)
    requires |seeds| == |ids| && DistinctSeq(ids) && ex.Keys !! Elements(ids)
    ensures var r := WithSeeds(ex, it, g, seeds, ids);
            && r.Keys == ex.Keys + Elements(ids)
            && (forall e :: e in ex ==> r[e] == ex[e])
            && (forall i :: 0 <= i < |ids| ==> ids[i] in r && r[ids[i]] == SeedRow(it, g, seeds[i]))
            && |r| == |ex| + |ids|
  {
    SeedKeys(ex, it, g, seeds, ids);
    SeedValues(ex, it, g, seeds, ids);
    SeedCount(ids);
    var r := WithSeeds(ex, it, g, seeds, ids);
    assert |r| == |r.Keys| && |ex| == |ex.Keys|;
  }

  /** A new iteration adds exactly one row and all its seeds, or changes nothing. */
  lemma {:induction false} SeededAllOrNothing(db: DB, op: Op)
    requires op.CreateIterationWithExecutions? && FreshIds(db, op)
    ensures var (db', ok) := Step(db, op);
            && (!ok <==> IterationExists(db, op.groupId, op.number))
            && (!ok ==> db' == db)
            && (ok ==>
                  && db'.iterations == db.iterations[op.id := Iteration(op.groupId, op.number, "running")]
                  && |db'.iterations| == |db.iterations| + 1
                  && |db'.executions| == |db.executions| + |op.seeds|
                  && (forall e :: e in db.executions ==> e in db'.executions && db'.executions[e] == db.executions[e])
                  && (forall i :: 0 <= i < |op.seeds| ==>
                        op.exIds[i] in db'.executions && op.exIds[i] !in db.executions
                        && db'.executions[op.exIds[i]] ==
                           Execution(op.id, Some(op.seeds[i].taskId), Some(op.seeds[i].taskName), op.groupId,
                                     op.seeds[i].status))
                  && (db'.groups, db'.tasks, db'.traces, db'.traceByGroup) ==
                      (db.groups, db.tasks, db.traces, db.traceByGroup))
  {
    SeedsEntered(db.executions, op.id, op.groupId, op.seeds, op.exIds);
    forall i | 0 <= i < |op.seeds| ensures op.exIds[i] in Elements(op.exIds) {}
  }

  /** Seeding keeps integrity exactly when the seeds name distinct tasks: the store
      does not check them against each other. */
  lemma {:induction false} SeedingKeepsIntegrityIff(db: DB, op: Op)
    requires Integrity(db) && op.CreateIterationWithExecutions? && FreshIds(db, op) && Step(db, op).1
    ensures Integrity(Step(db, op).0) <==> SeedsDistinct(op.seeds)
  {
    var db' := Step(db, op).0;
    SeededAllOrNothing(db, op);
    if SeedsDistinct(op.seeds) {
      DistinctSeedsKeep(db, op);
    } else {
      var i, j :| 0 <= i < j < |op.seeds| && op.seeds[i].taskId == op.seeds[j].taskId;
      assert SameTask(db'.executions[op.exIds[i]], db'.executions[op.exIds[j]]);
    }
  }

  lemma {:induction false} DistinctSeedsKeep(db: DB, op: Op)
    requires Integrity(db) && op.CreateIterationWithExecutions? && FreshIds(db, op) && Step(db, op).1
    requires SeedsDistinct(op.seeds)
    ensures Integrity(Step(db, op).0)
  {
    SeededRest(db, op);
    SeededPlaced(db, op);
    SeededUnique(db, op);
  }

  lemma {:induction false} SeededRest(db: DB, op: Op)
    requires Integrity(db) && op.CreateIterationWithExecutions? && FreshIds(db, op) && Step(db, op).1
    ensures IterationsUnique(Step(db, op).0) && TracesIndexed(Step(db, op).0)
  {
    var db' := Step(db, op).0;
    assert (db'.traces, db'.traceByGroup) == (db.traces, db.traceByGroup);
    assert db'.iterations == db.iterations[op.id := Iteration(op.groupId, op.number, "running")];
  }

  lemma {:induction false} SeededPlaced(db: DB, op: Op)
    requires Integrity(db) && op.CreateIterationWithExecutions? && FreshIds(db, op) && Step(db, op).1
    ensures ExecutionsPlaced(Step(db, op).0)
  {
    var db' := Step(db, op).0;
    SeededAllOrNothing(db, op);
    forall e | e in db'.executions ensures Placed(db', db'.executions[e]) {
      if e in db.executions {
        assert Placed(db, db.executions[e]);
      } else {
        var i := SeedOf(db, op, e);
      }
    }
  }

  /** Which seed an added execution came from. */
  lemma {:induction false} SeedOf(db: DB, op: Op, e: string) returns (i: nat)
    requires op.CreateIterationWithExecutions? && FreshIds(db, op) && Step(db, op).1
    requires e in Step(db, op).0.executions && e !in db.executions
    ensures i < |op.seeds| && op.exIds[i] == e
    ensures Step(db, op).0.executions[e] == SeedRow(op.id, op.groupId, op.seeds[i])
  {
    SeedsEntered(db.executions, op.id, op.groupId, op.seeds, op.exIds);
    assert e in Elements(op.exIds);
    i :| 0 <= i < |op.exIds| && op.exIds[i] == e;
  }

  lemma {:induction false} SeededUnique(db: DB, op: Op)
    requires op.CreateIterationWithExecutions? && FreshIds(db, op) && Step(db, op).1
    requires ExecutionsUnique(db) && ExecutionsPlaced(db) && SeedsDistinct(op.seeds)
    ensures ExecutionsUnique(Step(db, op).0)
  {
    var ex := Step(db, op).0.executions;
    SeededAllOrNothing(db, op);
    forall e, f | e in ex && f in ex && SameTask(ex[e], ex[f]) ensures e == f {
      if e !in db.executions && f !in db.executions {
        var i := SeedOf(db, op, e);
        var j := SeedOf(db, op, f);
        assert op.seeds[i].taskId == op.seeds[j].taskId;
      } else if e !in db.executions {
        var i := SeedOf(db, op, e);
      } else if f !in db.executions {
        var j := SeedOf(db, op, f);
      }
    }
  }

  /** Creating an execution keeps integrity exactly when it targets an existing
      iteration of its group. */
  lemma {:induction false} ExecutionKeepsIntegrityIff(db: DB, op: Op)
    requires Integrity(db) && op.CreateExecution? && FreshIds(db, op) && Step(db, op).1
    ensures Integrity(Step(db, op).0) <==>
            Placed(db, op.execution)
  {
    var db' := Step(db, op).0;
    assert db'.executions[op.id] == op.execution;
    assert TracesIndexed(db') && IterationsUnique(db');
    assert ExecutionsUnique(db') by {
      forall e, f | e in db'.executions && f in db'.executions && SameTask(db'.executions[e], db'.executions[f])
        ensures e == f
      {
        if e != op.id && f == op.id { assert ExecutionExists(db, op.execution.iterationId, op.execution.taskId.value); }
      }
    }
  }

  /** Deleting a task keeps every execution and only forgets the task's id. */
  lemma {:induction false} DeleteTaskOnlyUnlinks(db: DB, id: string)
    ensures var (db', ok) := Step(db, DeleteTask(id));
            && ok && db'.tasks == db.tasks - {id} && db'.executions.Keys == db.executions.Keys
            && (forall e :: e in db.executions ==>
                  && db'.executions[e].taskId == (if db.executions[e].taskId == Some(id) then None
                      else db.executions[e].taskId)
                  && db'.executions[e].(taskId := None) == db.executions[e].(taskId := None))
            && (db'.groups, db'.iterations, db'.traces, db'.traceByGroup) ==
                (db.groups, db.iterations, db.traces, db.traceByGroup)
  {
  }

  /** Deleting a group leaves nothing of it, index included, and keeps every other row
      as it is. */
  lemma {:induction false} DeleteGroupLeavesNothing(db: DB, g: string)
    requires Integrity(db)
    ensures var (db', ok) := Step(db, DeleteTaskGroup(g));
            && ok && db'.groups == db.groups - {g} && db'.traceByGroup == db.traceByGroup - {g}
            && (forall t :: t in db'.tasks <==> t in db.tasks && db.tasks[t].groupId != g)
            && (forall t :: t in db'.tasks ==> db'.tasks[t] == db.tasks[t])
            && (forall i :: i in db'.iterations <==> i in db.iterations && db.iterations[i].groupId != g)
            && (forall i :: i in db'.iterations ==> db'.iterations[i] == db.iterations[i])
            && (forall e :: e in db'.executions <==> e in db.executions && db.executions[e].groupId != g)
            && (forall e :: e in db'.executions ==>
                db'.executions[e] == db.executions[e] && Placed(db', db'.executions[e]))
            && (forall t :: t in db'.traces <==> t in db.traces && db.traces[t].groupId != g)
            && (forall t :: t in db'.traces ==> db'.traces[t] == db.traces[t])
  {
    if g in db.traceByGroup { assert db.traces[db.traceByGroup[g].id].groupId == g; }
  }

  // ----- What each call writes, field by field -----

  /** A created row is the one given, and nothing else changes. */
  lemma {:induction false} CreateArrives(db: DB, op: Op)
    requires op.CreateIteration? || op.CreateExecution? || op.CreateTrace? || op.CreateGroup? || op.CreateTask?
    ensures var (db', ok) := Step(db, op);
            match op
            case CreateGroup(id, group) => ok && db' == db.(groups := db.groups[id := group])
            case CreateTask(id, task) => ok && db' == db.(tasks := db.tasks[id := task])
            case CreateIteration(id, it) =>
              && (ok <==> forall i :: i in db.iterations ==>
                    !(db.iterations[i].groupId == it.groupId && db.iterations[i].number == it.number))
              && db' == if ok then db.(iterations := db.iterations[id := it]) else db
            case CreateExecution(id, ex) =>
              && (ok <==> ex.taskId.Some? ==> forall e :: e in db.executions ==>
                    !(db.executions[e].iterationId == ex.iterationId && db.executions[e].taskId == ex.taskId))
              && db' == if ok then db.(executions := db.executions[id := ex]) else db
            case CreateTrace(id, groupId, iterationId, tokens) =>
              var trace := Trace(id, groupId, iterationId, tokens);
              ok && db' == db.(traces := db.traces[id := trace], traceByGroup := db.traceByGroup[groupId := trace])
            case _ => false
  {
  }

  /** updateIteration: each field given arrives, every other stays. */
  lemma {:induction false} IterationPatchArrives(db: DB, id: string, p: IterationPatch)
    ensures Step(db, UpdateIteration(id, p)).1 <==> id in db.iterations
    ensures id !in db.iterations ==> Step(db, UpdateIteration(id, p)).0 == db
    ensures id in db.iterations ==>
              var (before, db') := (db.iterations[id], Step(db, UpdateIteration(id, p)).0);
              && id in db'.iterations && db' == db.(iterations := db.iterations[id := db'.iterations[id]])
              && db'.iterations[id].groupId == (match p.groupId case Some(x) => x case None => before.groupId)
              && db'.iterations[id].number == (match p.number case Some(x) => x case None => before.number)
              && db'.iterations[id].status == (match p.status case Some(x) => x case None => before.status)
  {
  }

  /** updateExecution: the same; the task's name always stays. */
  lemma {:induction false} ExecutionPatchArrives(db: DB, id: string, p: ExecutionPatch)
    ensures Step(db, UpdateExecution(id, p)).1 <==> id in db.executions
    ensures id !in db.executions ==> Step(db, UpdateExecution(id, p)).0 == db
    ensures id in db.executions ==>
              var (before, db') := (db.executions[id], Step(db, UpdateExecution(id, p)).0);
              && id in db'.executions && db' == db.(executions := db.executions[id := db'.executions[id]])
              && db'.executions[id].iterationId ==
                 (match p.iterationId case Some(x) => x case None => before.iterationId)
              && db'.executions[id].taskId == (match p.taskId case Some(x) => x case None => before.taskId)
              && db'.executions[id].groupId == (match p.groupId case Some(x) => x case None => before.groupId)
              && db'.executions[id].status == (match p.status case Some(x) => x case None => before.status)
              && db'.executions[id].taskName == before.taskName
  {
  }

  /** updateTaskTrace: the same, and the index entry of its group is the patched trace. */
  lemma {:induction false} TracePatchArrives(db: DB, id: string, p: TracePatch)
    ensures Step(db, UpdateTrace(id, p)).1 <==> id in db.traces
    ensures id !in db.traces ==> Step(db, UpdateTrace(id, p)).0 == db
    ensures id in db.traces ==>
              var (before, db') := (db.traces[id], Step(db, UpdateTrace(id, p)).0);
              && id in db'.traces
              && db'.traces[id].groupId == (match p.groupId case Some(x) => x case None => before.groupId)
              && db'.traces[id].totalTokens == (match p.totalTokens case Some(x) => x case None => before.totalTokens)
              && (db'.traces[id].id, db'.traces[id].iterationId) == (before.id, before.iterationId)
              && db' == db.(traces := db.traces[id := db'.traces[id]],
                            traceByGroup := db.traceByGroup[db'.traces[id].groupId := db'.traces[id]])
  {
  }

  // ----- Exactly the proper calls keep integrity -----

  /** Every call that writes no iteration, execution or trace, or that only adds a row
      the store checked, keeps integrity. */
  lemma {:induction false} PlainCallKept(db: DB, op: Op)
    requires Integrity(db) && FreshIds(db, op)
    requires op.CreateGroup? || op.CreateTask? || op.CreateIteration? || op.CreateTrace?
    ensures Integrity(Step(db, op).0)
  {
    var db' := Step(db, op).0;
    assert ExecutionsUnique(db');
    if op.CreateIteration? && Step(db, op).1 {
      forall i | i in db.iterations ensures !SameNumber(db.iterations[i], op.iteration) {
        if SameNumber(db.iterations[i], op.iteration) { assert IterationExists(db, op.iteration.groupId,
            op.iteration.number); }
      }
    }
    assert IterationsUnique(db');
    assert ExecutionsPlaced(db');
    assert TracesIndexed(db');
  }

  /** A patched iteration. */
  lemma {:induction false} IterationPatchIff(db: DB, id: string, p: IterationPatch)
    requires Integrity(db) && id in db.iterations
    ensures Integrity(Step(db, UpdateIteration(id, p)).0) <==> MayBecomeIteration(db, id, Patched(db.iterations[id], p))
  {
    var it := Patched(db.iterations[id], p);
    var db' := Step(db, UpdateIteration(id, p)).0;
    assert TracesIndexed(db') && ExecutionsUnique(db');
    assert db'.iterations[id] == it && db'.iterations.Keys == db.iterations.Keys;
    assert ExecutionsPlaced(db') <==>
           (it.groupId == db.iterations[id].groupId || forall e ::
                 e in db.executions ==> db.executions[e].iterationId != id) by {
      if e :| e in db.executions && db.executions[e].iterationId == id {
        assert Placed(db, db.executions[e]);
        assert Placed(db', db'.executions[e]) <==> it.groupId == db.iterations[id].groupId;
      }
    }
    NumbersUniqueIff(db, id, it);
  }

  lemma {:induction false} NumbersUniqueIff(db: DB, id: string, it: Iteration)
    requires IterationsUnique(db) && id in db.iterations
    ensures IterationsUnique(db.(iterations := db.iterations[id := it])) <==>
            forall i :: i in db.iterations && i != id ==> !SameNumber(db.iterations[i], it)
  {
    var db' := db.(iterations := db.iterations[id := it]);
    if i :| i in db.iterations && i != id && SameNumber(db.iterations[i], it) {
      assert SameNumber(db'.iterations[i], db'.iterations[id]);
    }
  }

  /** A patched execution. */
  lemma {:induction false} ExecutionPatchIff(db: DB, id: string, p: ExecutionPatch)
    requires Integrity(db) && id in db.executions
    ensures Integrity(Step(db, UpdateExecution(id, p)).0) <==>
            MayBecomeExecution(db, id, PatchedExecution(db.executions[id], p))
  {
    var ex := PatchedExecution(db.executions[id], p);
    var db' := Step(db, UpdateExecution(id, p)).0;
    assert TracesIndexed(db') && IterationsUnique(db');
    assert db'.executions[id] == ex && db'.executions.Keys == db.executions.Keys;
    if e :| e in db.executions && e != id && SameTask(db.executions[e], ex) {
      assert SameTask(db'.executions[e], db'.executions[id]);
    }
    assert ExecutionsPlaced(db') <==> Placed(db, ex);
  }

  /** A patched trace: moving it to another group leaves its old group's index entry
      behind, unless that entry is about another trace. */
  lemma {:induction false} TracePatchIff(db: DB, id: string, p: TracePatch)
    requires Integrity(db) && id in db.traces
    ensures Integrity(Step(db, UpdateTrace(id, p)).0) <==>
            p.groupId.None? || p.groupId.value == db.traces[id].groupId ||
                db.traceByGroup[db.traces[id].groupId].id != id
  {
    var db' := Step(db, UpdateTrace(id, p)).0;
    var g := db.traces[id].groupId;
    assert IterationsUnique(db') && ExecutionsUnique(db') && ExecutionsPlaced(db');
    assert g in db.traceByGroup;
    if p.groupId.Some? && p.groupId.value != g && db.traceByGroup[g].id == id {
      assert g in db'.traceByGroup && db'.traces[db'.traceByGroup[g].id].groupId != g;
    } else {
      assert TracesIndexed(db');
    }
  }

  /** The stale entry of a moved trace even outlives the deletion of the old group, unless
      another trace of that group is there to be deleted. */
  lemma {:induction false} MovedTraceSurvivesDelete(db: DB, id: string, p: TracePatch)
    requires Integrity(db) && id in db.traces && !MayMove(db, id, p)
    ensures var g := db.traces[id].groupId;
            var after := Step(Step(db, UpdateTrace(id, p)).0, DeleteTaskGroup(g)).0;
            g in after.traceByGroup <==> forall t :: t in db.traces && t != id ==> db.traces[t].groupId != g
  {
    var g := db.traces[id].groupId;
    var moved := Step(db, UpdateTrace(id, p)).0;
    assert g in moved.traceByGroup && moved.traces.Keys == db.traces.Keys;
    assert moved.traces[id].groupId != g && forall t :: t in db.traces && t != id ==> moved.traces[t] == db.traces[t];
  }

  /** A deleted task: forgetting it can make no two rows collide. */
  lemma {:induction false} DeleteTaskKept(db: DB, id: string)
    requires Integrity(db)
    ensures Integrity(Step(db, DeleteTask(id)).0)
  {
    var db' := Step(db, DeleteTask(id)).0;
    DeleteTaskOnlyUnlinks(db, id);
    assert TracesIndexed(db') && IterationsUnique(db');
    forall e | e in db'.executions ensures Placed(db', db'.executions[e]) { assert Placed(db, db.executions[e]); }
    forall e, f | e in db'.executions && f in db'.executions && SameTask(db'.executions[e], db'.executions[f])
      ensures e == f
    {
      assert SameTask(db.executions[e], db.executions[f]);
    }
  }

  lemma {:induction false} DeleteKept(db: DB, id: string)
    requires Integrity(db)
    ensures Integrity(Step(db, DeleteTaskGroup(id)).0)
  {
    var db' := Step(db, DeleteTaskGroup(id)).0;
    assert TracesIndexed(db') by {
      if id in db.traceByGroup { assert db.traces[db.traceByGroup[id].id].groupId == id; }
    }
  }

  /** EXACTLY THE PROPER CALLS KEEP INTEGRITY. */
  lemma {:induction false} StepKeepsIntegrityIff(db: DB, op: Op)
    requires Integrity(db) && FreshIds(db, op)
    ensures Integrity(Step(db, op).0) <==> Proper(db, op)
  {
    if Step(db, op).1 {
      match op
      case CreateIterationWithExecutions(_, _, _, _, _) => SeedingKeepsIntegrityIff(db, op);
      case CreateExecution(_, _) => ExecutionKeepsIntegrityIff(db, op);
      case UpdateIteration(id, p) => IterationPatchIff(db, id, p);
      case UpdateExecution(id, p) => ExecutionPatchIff(db, id, p);
      case UpdateTrace(id, p) => TracePatchIff(db, id, p);
      case DeleteTask(id) => DeleteTaskKept(db, id);
      case DeleteTaskGroup(id) => DeleteKept(db, id);
      case CreateGroup(_, _) => PlainCallKept(db, op);
      case CreateTask(_, _) => PlainCallKept(db, op);
      case CreateIteration(_, _) => PlainCallKept(db, op);
      case CreateTrace(_, _, _, _) => PlainCallKept(db, op);
    }
  }

  // ----- Runs -----

  /** Ids are drawn anew at every call. */
  ghost predicate FreshRun(db: DB, ops: seq<Op>)
    decreases |ops|
  {
    ops != [] ==> FreshIds(db, ops[0]) && FreshRun(Step(db, ops[0]).0, ops[1..])
  }

  function Run(db: DB, ops: seq<Op>): DB
    requires FreshRun(db, ops)
    decreases |ops|
  {
    if ops == [] then db else Run(Step(db, ops[0]).0, ops[1..])
  }

  /** Every call is proper when it is made. */
  ghost predicate ProperRun(db: DB, ops: seq<Op>)
    requires FreshRun(db, ops)
    decreases |ops|
  {
    ops != [] ==> Proper(db, ops[0]) && ProperRun(Step(db, ops[0]).0, ops[1..])
  }

  /** Integrity holds after every call. */
  ghost predicate AlwaysIntegral(db: DB, ops: seq<Op>)
    requires FreshRun(db, ops)
    decreases |ops|
  {
    Integrity(db) && (ops != [] ==> AlwaysIntegral(Step(db, ops[0]).0, ops[1..]))
  }

  /** HISTORY INTEGRITY, over every run: it holds throughout if and only if every call is
      proper when it is made. */
  lemma {:induction false} IntegrityInEveryRun(db: DB, ops: seq<Op>)
    requires FreshRun(db, ops) && Integrity(db)
    ensures AlwaysIntegral(db, ops) <==> ProperRun(db, ops)
    ensures ProperRun(db, ops) ==> Integrity(Run(db, ops))
    decreases |ops|
  {
    if ops != [] {
      StepKeepsIntegrityIff(db, ops[0]);
      var next := Step(db, ops[0]).0;
      assert AlwaysIntegral(next, ops[1..]) ==> Integrity(next);
      if Proper(db, ops[0]) { IntegrityInEveryRun(next, ops[1..]); }
    }
  }

  // ----- Witnesses -----

  const Empty := DB(map[], map[], map[], map[], map[], map[])

  /** A moved trace breaks the index. */
  lemma {:induction false} MovedTraceBreaks()
    ensures var d := Step(Empty, CreateTrace("t", "g", None, 0)).0;
            Integrity(d) && !Integrity(Step(d, UpdateTrace("t", TracePatch(Some("h"), None))).0)
  {
    TracePatchIff(Step(Empty, CreateTrace("t", "g", None, 0)).0, "t", TracePatch(Some("h"), None));
  }

  /** Two seeds of one task give the iteration two executions of it. */
  lemma {:induction false} RepeatedSeedBreaks()
    ensures var seed := Seed("task", "name", "pending");
            !Integrity(Step(Empty, CreateIterationWithExecutions("i", "g", 1, [seed, seed], ["x", "y"])).0)
  {
    var seed := Seed("task", "name", "pending");
    var op := CreateIterationWithExecutions("i", "g", 1, [seed, seed], ["x", "y"]);
    assert Integrity(Empty) && FreshIds(Empty, op);
    SeedingKeepsIntegrityIff(Empty, op);
    assert op.seeds[0].taskId == op.seeds[1].taskId;
  }

  /** An execution is accepted for an iteration that does not exist. */
  lemma {:induction false} MisplacedExecutionBreaks()
    ensures !Integrity(Step(Empty, CreateExecution("x", Execution("nowhere", None, None, "g", "pending"))).0)
  {
    ExecutionKeepsIntegrityIff(Empty, CreateExecution("x", Execution("nowhere", None, None, "g", "pending")));
  }

  // ----- The store -----

  class MemHistory {
    var groups: map<string, Group>
    var tasks: map<string, Task>
    var iterations: map<string, Iteration>
    var executions: map<string, Execution>
    var traces: map<string, Trace>
    var traceByGroup: map<string, Trace>

    ghost function Model(): DB
      reads this
    {
      DB(groups, tasks, iterations, executions, traces, traceByGroup)
    }

    constructor ()
      ensures Model() == DB(map[], map[], map[], map[], map[], map[]) && Integrity(Model())
    {
      groups, tasks, iterations, executions, traces, traceByGroup := map[], map[], map[], map[], map[], map[];
    }

    method HasIteration(groupId: string, number: int) returns (r: bool)
      ensures r == IterationExists(Model(), groupId, number)
    {
      var todo := iterations.Keys;
      while todo != {}
        invariant todo <= iterations.Keys
        invariant forall i :: i in iterations.Keys - todo ==>
                  !(iterations[i].groupId == groupId && iterations[i].number == number)
        decreases todo
      {
        var i :| i in todo;
        if iterations[i].groupId == groupId && iterations[i].number == number { return true; }
        todo := todo - {i};
      }
      r := false;
    }

    method HasExecution(iterationId: string, taskId: string) returns (r: bool)
      ensures r == ExecutionExists(Model(), iterationId, taskId)
    {
      var todo := executions.Keys;
      while todo != {}
        invariant todo <= executions.Keys
        invariant forall e :: e in executions.Keys - todo ==>
                    !(executions[e].iterationId == iterationId && executions[e].taskId == Some(taskId))
        decreases todo
      {
        var e :| e in todo;
        if executions[e].iterationId == iterationId && executions[e].taskId == Some(taskId) { return true; }
        todo := todo - {e};
      }
      r := false;
    }

    method AddIteration(id: string, it: Iteration) returns (ok: bool)
      modifies this
      ensures (Model(), ok) == Step(old(Model()), CreateIteration(id, it))
    {
      var clash := HasIteration(it.groupId, it.number);
      if clash { return false; }
      iterations := iterations[id := it];
      ok := true;
    }

    method AddIterationWithExecutions(id: string, groupId: string, number: int, seeds: seq<Seed>, exIds: seq<string>)
      returns (ok: bool)
      requires |seeds| == |exIds|
      modifies this
      ensures (Model(), ok) == Step(old(Model()), CreateIterationWithExecutions(id, groupId, number, seeds, exIds))
    {
      var clash := HasIteration(groupId, number);
      if clash { return false; }
      iterations := iterations[id := Iteration(groupId, number, "running")];
      for i := 0 to |seeds|
        invariant executions == WithSeeds(old(executions), id, groupId, seeds[..i], exIds[..i])
        invariant iterations == old(iterations)[id := Iteration(groupId, number, "running")]
        invariant unchanged(`groups) && unchanged(`tasks) && unchanged(`traces) && unchanged(`traceByGroup)
      {
        executions := executions[exIds[i] := SeedRow(id, groupId, seeds[i])];
        assert seeds[..i + 1][..i] == seeds[..i] && exIds[..i + 1][..i] == exIds[..i];
      }
      assert seeds[..|seeds|] == seeds && exIds[..|seeds|] == exIds;
      ok := true;
    }

    method AddExecution(id: string, ex: Execution) returns (ok: bool)
      modifies this
      ensures (Model(), ok) == Step(old(Model()), CreateExecution(id, ex))
    {
      if ex.taskId.Some? {
        var clash := HasExecution(ex.iterationId, ex.taskId.value);
        if clash { return false; }
      }
      executions := executions[id := ex];
      ok := true;
    }

    method ChangeIteration(id: string, p: IterationPatch) returns (ok: bool)
      modifies `iterations
      ensures (Model(), ok) == Step(old(Model()), UpdateIteration(id, p))
    {
      if id !in iterations { return false; }
      iterations := iterations[id := Patched(iterations[id], p)];
      ok := true;
    }

    method ChangeExecution(id: string, p: ExecutionPatch) returns (ok: bool)
      modifies `executions
      ensures (Model(), ok) == Step(old(Model()), UpdateExecution(id, p))
    {
      if id !in executions { return false; }
      executions := executions[id := PatchedExecution(executions[id], p)];
      ok := true;
    }

    method AddTrace(id: string, groupId: string, iterationId: Option<string>, tokens: int)
      modifies this
      ensures Model() == Step(old(Model()), CreateTrace(id, groupId, iterationId, tokens)).0
    {
      var row := Trace(id, groupId, iterationId, tokens);
      traces := traces[id := row];
      traceByGroup := traceByGroup[groupId := row];
    }

    method ChangeTrace(id: string, p: TracePatch) returns (ok: bool)
      modifies this
      ensures (Model(), ok) == Step(old(Model()), UpdateTrace(id, p))
    {
      if id !in traces { return false; }
      var updated := traces[id].(groupId := OrElse(p.groupId, traces[id].groupId),
                                 totalTokens := OrElse(p.totalTokens, traces[id].totalTokens));
      traces := traces[id := updated];
      traceByGroup := traceByGroup[updated.groupId := updated];
      ok := true;
    }

    method RemoveTask(id: string)
      modifies this
      ensures Model() == Step(old(Model()), DeleteTask(id)).0
    {
      tasks := tasks - {id};
      var todo := executions.Keys;
      while todo != {}
        invariant executions.Keys == old(executions).Keys && todo <= executions.Keys
        invariant forall e :: e in executions ==>
                    executions[e] == if e in todo then old(executions)[e] else Unlink(old(executions)[e], id)
        invariant tasks == old(tasks) - {id}
        invariant unchanged(`groups) && unchanged(`iterations) && unchanged(`traces) && unchanged(`traceByGroup)
        decreases todo
      {
        var e :| e in todo;
        if executions[e].taskId == Some(id) { executions := executions[e := executions[e].(taskId := None)]; }
        todo := todo - {e};
      }
    }

    static method Purge<T>(m: map<string, T>, drop: T -> bool) returns (r: map<string, T>)
      ensures r == Without(m, drop)
    {
      r := m;
      var todo := m.Keys;
      while todo != {}
        invariant todo <= r.Keys <= m.Keys
        invariant forall k :: k in r ==> r[k] == m[k]
        invariant forall k :: k in m && k !in todo ==> (k in r <==> !drop(m[k]))
        decreases todo
      {
        var k :| k in todo;
        if drop(r[k]) { r := r - {k}; }
        todo := todo - {k};
      }
    }

    method RemoveTaskGroup(id: string)
      modifies this
      ensures Model() == Step(old(Model()), DeleteTaskGroup(id)).0
    {
      groups := groups - {id};
      tasks := Purge(tasks, (t: Task) => t.groupId == id);
      iterations := Purge(iterations, (it: Iteration) => it.groupId == id);
      executions := Purge(executions, (ex: Execution) => ex.groupId == id);
      RemoveTraces(id);
    }

    method RemoveTraces(id: string)
      modifies `traces, `traceByGroup
      ensures traces == Without(old(traces), (tr: Trace) => tr.groupId == id)
      ensures traceByGroup == if exists t ::
                t in old(traces) && old(traces)[t].groupId == id then old(traceByGroup) - {id}
                              else old(traceByGroup)
    {
      var todo := traces.Keys;
      ghost var hit := false;
      while todo != {}
        invariant todo <= traces.Keys <= old(traces).Keys
        invariant forall k :: k in traces ==> traces[k] == old(traces)[k]
        invariant forall k :: k in old(traces) && k !in todo ==> (k in traces <==> old(traces)[k].groupId != id)
        invariant hit <==> exists t :: t in old(traces) && t !in todo && old(traces)[t].groupId == id
        invariant traceByGroup == if hit then old(traceByGroup) - {id} else old(traceByGroup)
        decreases todo
      {
        var k :| k in todo;
        if traces[k].groupId == id {
          traceByGroup := traceByGroup - {traces[k].groupId};
          traces := traces - {k};
          hit := true;
        }
        todo := todo - {k};
      }
    }
  }
}
