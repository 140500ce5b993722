/**
 Project scoping: the helpers of server/db.ts that rewrite every query of the
 Postgres backend, the dynamic scope of server/context.ts they read, and a table
 they act on.

 The main result is whole-run noninterference (`Noninterference`): erasing every
 operation of every other project from a run changes no result a project sees.
 */
module ProjectScope {
  import opened Wrappers
  import opened Sorting

  datatype Result<+T> = Ok(value: T) | Thrown

  // ----- Dynamic scope (server/context.ts) -----

  datatype Context = Context(projectId: Option<string>, system: bool)

  /** A program that runs database operations inside nested scopes. */
  datatype Prog =
    | Do(op: Op)
    | RunAsProject(projectId: string, body: seq<Prog>)
    | RunAsSystem(sysBody: seq<Prog>)

  /** JavaScript's `!ctx.projectId`: absent and empty ids are both refused. */
  predicate HasProjectId(ctx: Context) {
    ctx.projectId.Some? && ctx.projectId.value != ""
  }

  function GetProjectId(scope: Option<Context>): (r: Result<string>) {
    if scope.None? then Thrown
    else if scope.value.system then Thrown
    else if !HasProjectId(scope.value) then Thrown
    else Ok(scope.value.projectId.value)
  }

  /** Only a system scope may run a query without a project filter. */
  predicate UnscopedSystemQueryAllowed(scope: Option<Context>) {
    scope.Some? && scope.value.system
  }

  // ----- Filter expressions with SQL's three truth values -----

  datatype Truth = True | False | Unknown

  datatype Row = Row(id: string, projectId: Option<string>, cols: map<string, string>)

  datatype Cond =
    | ProjectEq(p: string)
    | ProjectIsNull
    | And(l: Cond, r: Cond)
    | Or(l: Cond, r: Cond)
    | Where(test: Row -> Truth)

  function Eval(c: Cond, row: Row): Truth {
    match c
    case ProjectEq(p) =>
      if row.projectId.None? then Unknown else if row.projectId.value == p then True else False
    case ProjectIsNull => if row.projectId.None? then True else False
    case And(l, r) =>
      var a, b := Eval(l, row), Eval(r, row);
      if a == False || b == False then False else if a == True && b == True then True else Unknown
    case Or(l, r) =>
      var a, b := Eval(l, row), Eval(r, row);
      if a == True || b == True then True else if a == False && b == False then False else Unknown
    case Where(test) => test(row)
  }

  /** A WHERE clause keeps the rows on which it is true; no clause keeps all. */
  predicate Matches(c: Option<Cond>, row: Row) {
    c.None? || Eval(c.value, row) == True
  }

  /** SQL's logic: a conjunction is true when both parts are and false when one is, a
      disjunction the other way round; a comparison with NULL is unknown; WHERE keeps only
      what is true. */
  lemma {:induction false} TruthTables(l: Cond, r: Cond, p: string, test: Row -> Truth, row: Row)
    ensures Eval(And(l, r), row) == True <==> Eval(l, row) == True && Eval(r, row) == True
    ensures Eval(And(l, r), row) == False <==> Eval(l, row) == False || Eval(r, row) == False
    ensures Eval(Or(l, r), row) == True <==> Eval(l, row) == True || Eval(r, row) == True
    ensures Eval(Or(l, r), row) == False <==> Eval(l, row) == False && Eval(r, row) == False
    ensures Eval(ProjectEq(p), row) ==
            (match row.projectId case None => Unknown case Some(q) => if p == q then True else False)
    ensures Eval(ProjectIsNull, row) == True <==> row.projectId == None
    ensures Eval(ProjectIsNull, row) != Unknown
    ensures Matches(Some(Where(test)), row) <==> test(row) == True
    ensures Matches(None, row)
  {
  }

  // ----- The helpers (server/db.ts) -----

  function WithProject(scope: Option<Context>, hasProjectColumn: bool, condition: Option<Cond>): Result<Option<Cond>> {
    if scope.None? then Thrown
    else if scope.value.system then (if condition.None? then Thrown else Ok(condition))
    else if !HasProjectId(scope.value) then Thrown
    else if !hasProjectColumn then Thrown
    else
      var filter := ProjectEq(scope.value.projectId.value);
      Ok(Some(if condition.Some? then And(filter, condition.value) else filter))
  }

  function WithProjectList(scope: Option<Context>, hasProjectColumn: bool,
                           condition: Option<Cond>): Result<Option<Cond>> {
    if scope.None? then Thrown
    else if scope.value.system then Ok(condition)
    else if !HasProjectId(scope.value) then Thrown
    else if !hasProjectColumn then Thrown
    else
      var filter := ProjectEq(scope.value.projectId.value);
      Ok(Some(if condition.Some? then And(filter, condition.value) else filter))
  }

  function WithProjectOrGlobal(scope: Option<Context>, hasProjectColumn: bool,
                               condition: Option<Cond>): Result<Option<Cond>> {
    if scope.None? then Thrown
    else if scope.value.system then Ok(condition)
    else if !HasProjectId(scope.value) then Thrown
    else if !hasProjectColumn then Thrown
    else
      var visibility := Or(ProjectIsNull, ProjectEq(scope.value.projectId.value));
      Ok(Some(if condition.Some? then And(visibility, condition.value) else visibility))
  }

  function WithProjectInsert(scope: Option<Context>, items: seq<Row>): Result<seq<Row>> {
    if scope.None? then Thrown
    else if scope.value.system then Ok(seq(|items|, i requires 0 <= i < |items| => items[i].(projectId := None)))
    else if !HasProjectId(scope.value) then Thrown
    else Ok(seq(|items|, i requires 0 <= i < |items| => items[i].(projectId := scope.value.projectId)))
  }

  /** Fail-closed: outside a project scope every helper throws, except that a system
      scope may pass a condition of its own (and need not, except for the strict helper),
      and inserts shared rows. */
  lemma {:induction false} FailClosed(scope: Option<Context>, condition: Option<Cond>, items: seq<Row>)
    ensures GetProjectId(scope).Thrown? ==>
              (WithProject(scope, true, condition).Ok? <==> scope.Some? && scope.value.system && condition.Some?)
    ensures GetProjectId(scope).Thrown? ==>
              (WithProjectList(scope, true, condition).Ok? <==> UnscopedSystemQueryAllowed(scope))
    ensures GetProjectId(scope).Thrown? ==>
              (WithProjectOrGlobal(scope, true, condition).Ok? <==> UnscopedSystemQueryAllowed(scope))
    ensures GetProjectId(scope).Thrown? ==>
              (WithProjectInsert(scope, items).Ok? <==> UnscopedSystemQueryAllowed(scope))
    ensures UnscopedSystemQueryAllowed(scope) ==>
              && WithProjectList(scope, true, condition) == WithProjectOrGlobal(scope, true, condition) == Ok(condition)
              && forall x :: x in WithProjectInsert(scope, items).value ==> x.projectId.None?
    ensures GetProjectId(scope).Ok? ==>
              WithProject(scope, true, None) == Ok(Some(ProjectEq(GetProjectId(scope).value)))
  {
  }

  // ----- Operations on one table -----

  datatype Helper = Strict | List | OrGlobal

  function Scoped(h: Helper, scope: Option<Context>, hasProjectColumn: bool,
                  condition: Option<Cond>): Result<Option<Cond>> {
    match h
    case Strict => WithProject(scope, hasProjectColumn, condition)
    case List => WithProjectList(scope, hasProjectColumn, condition)
    case OrGlobal => WithProjectOrGlobal(scope, hasProjectColumn, condition)
  }

  /** What a filtered query of a project sees, row by row: exactly its own rows
      (plus the shared ones for the catalog helper) that satisfy the condition. */
  lemma {:induction false} ProjectFilterExact(h: Helper, ctx: Context, condition: Option<Cond>, row: Row)
    requires !ctx.system && HasProjectId(ctx)
    ensures Scoped(h, Some(ctx), true, condition).Ok?
    ensures Matches(Scoped(h, Some(ctx), true, condition).value, row)
            <==> (row.projectId == ctx.projectId || (h.OrGlobal? && row.projectId.None?)) && Matches(condition, row)
  {
    var own := ProjectEq(ctx.projectId.value);
    assert Eval(own, row) == True <==> row.projectId == ctx.projectId;
    assert Eval(Or(ProjectIsNull, own), row) == True <==> row.projectId == ctx.projectId || row.projectId.None?;
  }

  datatype Op =
    | Select(h: Helper, condition: Option<Cond>)
    | InsertRows(items: seq<Row>)
    | Update(h: Helper, condition: Option<Cond>, patch: Row -> Row)
    | Delete(h: Helper, condition: Option<Cond>)

  /** What the caller gets back: rows, or an error raised by the helper or by the
      primary key. */
  datatype Outcome = Rows(rows: seq<Row>) | ScopeError | UniqueViolation

  datatype Call = Call(scope: Option<Context>, op: Op)

  function Apply(f: Row -> Row, hit: Row -> bool, rows: seq<Row>): seq<Row> {
    seq(|rows|, i requires 0 <= i < |rows| => if hit(rows[i]) then f(rows[i]) else rows[i])
  }

  predicate IdClash(table: seq<Row>, items: seq<Row>) {
    || (exists r, x :: r in table && x in items && r.id == x.id)
    || (exists i, j :: 0 <= i < j < |items| && items[i].id == items[j].id)
  }

  /** One call on a table with a projectId column and a primary key on id. */
  function Step(table: seq<Row>, call: Call): (seq<Row>, Outcome) {
    match call.op
    case Select(h, condition) =>
      (match Scoped(h, call.scope, true, condition)
       case Thrown => (table, ScopeError)
       case Ok(w) => (table, Rows(Filter(table, r => Matches(w, r)))))
    case InsertRows(items) =>
      (match WithProjectInsert(call.scope, items)
       case Thrown => (table, ScopeError)
       case Ok(stamped) =>
         if IdClash(table, stamped) then (table, UniqueViolation) else (table + stamped, Rows(stamped)))
    case Update(h, condition, patch) =>
      (match Scoped(h, call.scope, true, condition)
       case Thrown => (table, ScopeError)
       case Ok(w) =>
         (Apply(patch, r => Matches(w, r), table),
          Rows(Apply(patch, r => true, Filter(table, r => Matches(w, r))))))
    case Delete(h, condition) =>
      (match Scoped(h, call.scope, true, condition)
       case Thrown => (table, ScopeError)
       case Ok(w) => (Filter(table, r => !Matches(w, r)), Rows(Filter(table, r => Matches(w, r)))))
  }

  function Run(table: seq<Row>, calls: seq<Call>): (seq<Row>, seq<Outcome>)
    decreases |calls|
  {
    if calls == [] then (table, [])
    else
      var (t, o) := Step(table, calls[0]);
      var (t', os) := Run(t, calls[1..]);
      (t', [o] + os)
  }

  // ----- Noninterference -----

  predicate IsProject(scope: Option<Context>, p: string) {
    scope.Some? && !scope.value.system && HasProjectId(scope.value) && scope.value.projectId.value == p
  }

  /** Calls of project `p`, of the system, and calls outside any scope are kept;
      every other project's calls are erased. */
  predicate Kept(p: string, call: Call) {
    GetProjectId(call.scope).Thrown? || IsProject(call.scope, p)
  }

  function Erase(p: string, calls: seq<Call>): seq<Call>
    decreases |calls|
  {
    if calls == [] then []
    else if Kept(p, calls[0]) then [calls[0]] + Erase(p, calls[1..])
    else Erase(p, calls[1..])
  }

  /** The results that `p` itself receives, in order. */
  function SeenBy(p: string, calls: seq<Call>, outs: seq<Outcome>): seq<Outcome>
    requires |calls| == |outs|
    decreases |calls|
  {
    if calls == [] then []
    else if IsProject(calls[0].scope, p) then [outs[0]] + SeenBy(p, calls[1..], outs[1..])
    else SeenBy(p, calls[1..], outs[1..])
  }

  predicate Visible(p: string, row: Row) {
    row.projectId.None? || row.projectId.value == p
  }

  function View(p: string, table: seq<Row>): seq<Row> {
    Filter(table, r => Visible(p, r))
  }

  function InsertIds(call: Call): set<string> {
    if call.op.InsertRows? then set x | x in call.op.items :: x.id else {}
  }

  function Ids(rows: seq<Row>): set<string> {
    set r | r in rows :: r.id
  }

  /** The discipline the backend keeps: a patch leaves id and projectId alone, and
      only a system scope writes through the global-catalog helper. */
  ghost predicate Disciplined(call: Call) {
    && (call.op.Update? ==> forall r :: call.op.patch(r).id == r.id && call.op.patch(r).projectId == r.projectId)
    && ((call.op.Update? || call.op.Delete?) && call.op.h.OrGlobal? ==> GetProjectId(call.scope).Thrown?)
  }

  /** No kept call inserts an id that a hidden row carries or an erased call inserts. */
  ghost predicate IdsApart(p: string, table: seq<Row>, calls: seq<Call>) {
    && (forall c, r :: c in calls && Kept(p, c) && r in table && !Visible(p, r) ==> r.id !in InsertIds(c))
    && (forall c, d :: c in calls && d in calls && Kept(p, c) && !Kept(p, d) ==> InsertIds(c) !! InsertIds(d))
  }

  lemma {:induction false} RunLength(table: seq<Row>, calls: seq<Call>)
    ensures |Run(table, calls).1| == |calls|
    decreases |calls|
  {
    if calls != [] { RunLength(Step(table, calls[0]).0, calls[1..]); }
  }

  // Filtering commutes with the view whenever the filter only reads the row.
  lemma {:induction false} FilterFilter(s: seq<Row>, f: Row -> bool, g: Row -> bool)
    ensures Filter(Filter(s, f), g) == Filter(s, r => f(r) && g(r))
  {
    if s != [] {
      var t := s[..|s| - 1];
      FilterFilter(t, f, g);
      FilterAppend(Filter(t, f), [s[|s| - 1]], g);
      assert Filter([s[|s| - 1]], g) == if g(s[|s| - 1]) then [s[|s| - 1]] else [];
    }
  }

  lemma {:induction false} FilterExt(s: seq<Row>, f: Row -> bool, g: Row -> bool)
    requires forall r :: r in s ==> f(r) == g(r)
    ensures Filter(s, f) == Filter(s, g)
  {
    if s != [] {
      FilterExt(s[..|s| - 1], f, g);
    }
  }

  lemma {:induction false} ViewFilter(p: string, a: seq<Row>, b: seq<Row>, f: Row -> bool)
    requires View(p, a) == View(p, b)
    ensures View(p, Filter(a, f)) == View(p, Filter(b, f))
  {
    var v := (r: Row) => Visible(p, r);
    FilterFilter(a, f, v);
    FilterFilter(b, f, v);
    FilterFilter(a, v, f);
    FilterFilter(b, v, f);
    FilterExt(a, r => f(r) && v(r), r => v(r) && f(r));
    FilterExt(b, r => f(r) && v(r), r => v(r) && f(r));
  }

  /** A query that only matches visible rows answers from the view alone. */
  lemma {:induction false} SelectFromView(p: string, table: seq<Row>, f: Row -> bool)
    requires forall r :: f(r) ==> Visible(p, r)
    ensures Filter(table, f) == Filter(View(p, table), f)
  {
    var v := (r: Row) => Visible(p, r);
    FilterFilter(table, v, f);
    FilterExt(table, f, r => v(r) && f(r));
  }

  lemma {:induction false} ViewApply(p: string, s: seq<Row>, patch: Row -> Row, hit: Row -> bool)
    requires forall r :: patch(r).projectId == r.projectId
    ensures View(p, Apply(patch, hit, s)) == Apply(patch, hit, View(p, s))
  {
    if s != [] {
      var t := s[..|s| - 1];
      ViewApply(p, t, patch, hit);
      assert Apply(patch, hit, s)[..|s| - 1] == Apply(patch, hit, t);
      var v := View(p, t);
      if Visible(p, s[|s| - 1]) {
        assert Apply(patch, hit, v + [s[|s| - 1]]) ==
               Apply(patch, hit, v) + [if hit(s[|s| - 1]) then patch(s[|s| - 1]) else s[|s| - 1]];
      }
    } else {
      assert Apply(patch, hit, s) == [];
      assert Apply(patch, hit, View(p, s)) == [];
    }
  }

  lemma {:induction false} ViewIn(p: string, table: seq<Row>)
    ensures forall r :: r in View(p, table) <==> r in table && Visible(p, r)
  {
    FilterIn(table, r => Visible(p, r));
  }

  /** Local respect: a disciplined call of another project leaves the view of `p` as it was. */
  lemma {:induction false} OtherProjectInvisible(p: string, table: seq<Row>, call: Call)
    requires !Kept(p, call) && Disciplined(call)
    ensures View(p, Step(table, call).0) == View(p, table)
  {
    var q := call.scope.value.projectId.value;
    match call.op
    case Select(h, condition) =>
    case InsertRows(items) =>
      var stamped := WithProjectInsert(call.scope, items).value;
      FilterAppend(table, stamped, r => Visible(p, r));
      FilterNone(stamped, r => Visible(p, r));
    case Update(h, condition, patch) =>
      var w := Scoped(h, call.scope, true, condition).value;
      var hit := (r: Row) => Matches(w, r);
      ViewApply(p, table, patch, hit);
      ViewIn(p, table);
      var v := View(p, table);
      forall i | 0 <= i < |v| ensures !hit(v[i]) {
        assert v[i] in v;
        ProjectFilterExact(h, call.scope.value, condition, v[i]);
      }
      assert Apply(patch, hit, v) == v;
    case Delete(h, condition) =>
      var w := Scoped(h, call.scope, true, condition).value;
      var miss, v := (r: Row) => !Matches(w, r), (r: Row) => Visible(p, r);
      FilterFilter(table, miss, v);
      forall r | r in table ensures (miss(r) && v(r)) == v(r) {
        ProjectFilterExact(h, call.scope.value, condition, r);
      }
      FilterExt(table, r => miss(r) && v(r), v);
  }

  /** A hidden row never has an id a kept insert is about to use. */
  predicate HiddenApart(p: string, table: seq<Row>, call: Call) {
    forall r :: r in table && !Visible(p, r) ==> r.id !in InsertIds(call)
  }

  lemma {:induction false} ClashFromView(p: string, a: seq<Row>, b: seq<Row>, call: Call, stamped: seq<Row>)
    requires View(p, a) == View(p, b)
    requires call.op.InsertRows? && |stamped| == |call.op.items|
    requires forall i :: 0 <= i < |stamped| ==> stamped[i].id == call.op.items[i].id
    requires HiddenApart(p, a, call)
    requires IdClash(a, stamped)
    ensures IdClash(b, stamped)
  {
    ViewIn(p, a);
    ViewIn(p, b);
    if r, x :| r in a && x in stamped && r.id == x.id {
      var i :| 0 <= i < |stamped| && stamped[i] == x;
      assert call.op.items[i] in call.op.items;
      assert x.id in InsertIds(call);
      assert Visible(p, r);
      assert r in View(p, b);
    }
  }

  lemma {:induction false} OwnMatchesVisible(p: string, scope: Option<Context>, h: Helper, condition: Option<Cond>)
    requires IsProject(scope, p)
    ensures forall r :: Matches(Scoped(h, scope, true, condition).value, r) ==> Visible(p, r)
  {
    forall r: Row | Matches(Scoped(h, scope, true, condition).value, r) ensures Visible(p, r) {
      ProjectFilterExact(h, scope.value, condition, r);
    }
  }

  /** Step consistency: on tables that look alike to `p`, a kept call leaves tables
      that look alike, and a call of `p` gets the same answer. */
  lemma {:induction false} KeptStepConsistent(p: string, a: seq<Row>, b: seq<Row>, call: Call)
    requires View(p, a) == View(p, b)
    requires Kept(p, call) && Disciplined(call)
    requires HiddenApart(p, a, call) && HiddenApart(p, b, call)
    ensures View(p, Step(a, call).0) == View(p, Step(b, call).0)
    ensures IsProject(call.scope, p) ==> Step(a, call).1 == Step(b, call).1
  {
    match call.op
    case Select(h, condition) =>
      var s := Scoped(h, call.scope, true, condition);
      if s.Ok? && IsProject(call.scope, p) {
        OwnMatchesVisible(p, call.scope, h, condition);
        SelectFromView(p, a, r => Matches(s.value, r));
        SelectFromView(p, b, r => Matches(s.value, r));
      }
    case InsertRows(items) =>
      var s := WithProjectInsert(call.scope, items);
      if s.Ok? {
        if IdClash(a, s.value) { ClashFromView(p, a, b, call, s.value); }
        if IdClash(b, s.value) { ClashFromView(p, b, a, call, s.value); }
        FilterAppend(a, s.value, r => Visible(p, r));
        FilterAppend(b, s.value, r => Visible(p, r));
      }
    case Update(h, condition, patch) =>
      var s := Scoped(h, call.scope, true, condition);
      if s.Ok? {
        ViewApply(p, a, patch, r => Matches(s.value, r));
        ViewApply(p, b, patch, r => Matches(s.value, r));
        if IsProject(call.scope, p) {
          OwnMatchesVisible(p, call.scope, h, condition);
          SelectFromView(p, a, r => Matches(s.value, r));
          SelectFromView(p, b, r => Matches(s.value, r));
        }
      }
    case Delete(h, condition) =>
      var s := Scoped(h, call.scope, true, condition);
      if s.Ok? {
        ViewFilter(p, a, b, r => !Matches(s.value, r));
        if IsProject(call.scope, p) {
          OwnMatchesVisible(p, call.scope, h, condition);
          SelectFromView(p, a, r => Matches(s.value, r));
          SelectFromView(p, b, r => Matches(s.value, r));
        }
      }
  }

  /** Rows only come from the table or from the call's inserts, under the same id,
      and hidden rows stay hidden. */
  lemma {:induction false} HiddenRowsOrigin(p: string, table: seq<Row>, call: Call, r: Row)
    requires Disciplined(call)
    requires r in Step(table, call).0 && !Visible(p, r)
    ensures (exists r0 :: r0 in table && !Visible(p, r0) && r0.id == r.id)
            || (!Kept(p, call) && r.id in InsertIds(call))
  {
    match call.op
    case Select(h, condition) =>
    case InsertRows(items) =>
      if r !in table {
        var stamped := WithProjectInsert(call.scope, items).value;
        var i :| 0 <= i < |stamped| && stamped[i] == r;
        assert items[i] in items;
        assert items[i].id == r.id;
      }
    case Update(h, condition, patch) =>
      var i :| 0 <= i < |Step(table, call).0| && Step(table, call).0[i] == r;
      assert table[i] in table && table[i].id == r.id && !Visible(p, table[i]);
    case Delete(h, condition) =>
      var s := Scoped(h, call.scope, true, condition);
      if s.Ok? { FilterIn(table, x => !Matches(s.value, x)); }
  }

  lemma {:induction false} ApartAfter(p: string, table: seq<Row>, calls: seq<Call>)
    requires calls != [] && Disciplined(calls[0]) && IdsApart(p, table, calls)
    ensures IdsApart(p, Step(table, calls[0]).0, calls[1..])
  {
    forall c, r | c in calls[1..] && Kept(p, c) && r in Step(table, calls[0]).0 && !Visible(p, r)
      ensures r.id !in InsertIds(c)
    {
      HiddenRowsOrigin(p, table, calls[0], r);
      assert c in calls;
    }
  }

  /** The unwinding relation between a run and its erased twin, carried to the end. */
  lemma {:induction false} Unwind(p: string, a: seq<Row>, b: seq<Row>, calls: seq<Call>)
    requires View(p, a) == View(p, b)
    requires forall c :: c in calls ==> Disciplined(c)
    requires IdsApart(p, a, calls) && IdsApart(p, b, calls)
    ensures |Run(a, calls).1| == |calls| && |Run(b, Erase(p, calls)).1| == |Erase(p, calls)|
    ensures SeenBy(p, calls, Run(a, calls).1) == SeenBy(p, Erase(p, calls), Run(b, Erase(p, calls)).1)
    ensures View(p, Run(a, calls).0) == View(p, Run(b, Erase(p, calls)).0)
    decreases |calls|
  {
    RunLength(a, calls);
    RunLength(b, Erase(p, calls));
    if calls != [] {
      var c := calls[0];
      var a' := Step(a, c).0;
      ApartAfter(p, a, calls);
      if Kept(p, c) {
        assert HiddenApart(p, a, c) && HiddenApart(p, b, c);
        KeptStepConsistent(p, a, b, c);
        ApartAfter(p, b, calls);
        Unwind(p, a', Step(b, c).0, calls[1..]);
        var e := Erase(p, calls);
        assert e[1..] == Erase(p, calls[1..]);
        RunLength(Step(b, c).0, calls[1..]);
        assert Run(b, e).1[1..] == Run(Step(b, c).0, e[1..]).1;
      } else {
        OtherProjectInvisible(p, a, c);
        Unwind(p, a', b, calls[1..]);
      }
      assert Run(a, calls).1[1..] == Run(a', calls[1..]).1;
    }
  }

  /** NONINTERFERENCE. In any run of disciplined calls in which the ids that `p` and
      the system insert are their own, erasing every call of every other project
      changes neither one result that `p` receives nor the rows `p` ends up seeing. */
  lemma {:induction false} Noninterference(p: string, table: seq<Row>, calls: seq<Call>)
    requires forall c :: c in calls ==> Disciplined(c)
    requires IdsApart(p, table, calls)
    ensures |Run(table, calls).1| == |calls|
    ensures |Run(table, Erase(p, calls)).1| == |Erase(p, calls)|
    ensures SeenBy(p, calls, Run(table, calls).1) == SeenBy(p, Erase(p, calls), Run(table, Erase(p, calls)).1)
    ensures View(p, Run(table, calls).0) == View(p, Run(table, Erase(p, calls)).0)
  {
    Unwind(p, table, table, calls);
  }

  // ----- Exactly when a call of another project shows -----

  ghost predicate UniqueIds(table: seq<Row>) {
    forall i, j :: 0 <= i < j < |table| ==> table[i].id != table[j].id
  }

  /** The primary key: a call whose patch leaves ids alone keeps ids unique. */
  lemma {:induction false} StepKeepsUniqueIds(table: seq<Row>, call: Call)
    requires UniqueIds(table) && (call.op.Update? ==> forall r :: call.op.patch(r).id == r.id)
    ensures UniqueIds(Step(table, call).0)
  {
    match call.op
    case Select(h, condition) =>
    case InsertRows(items) =>
      var s := WithProjectInsert(call.scope, items);
      if s.Ok? && !IdClash(table, s.value) { AppendUnique(table, s.value); }
    case Update(h, condition, patch) =>
    case Delete(h, condition) =>
      var s := Scoped(h, call.scope, true, condition);
      if s.Ok? { FilterUnique(table, r => !Matches(s.value, r)); }
  }

  lemma {:induction false} AppendUnique(table: seq<Row>, items: seq<Row>)
    requires UniqueIds(table) && !IdClash(table, items)
    ensures UniqueIds(table + items)
  {
    var all := table + items;
    forall i, j | 0 <= i < j < |all| ensures all[i].id != all[j].id {
      if i < |table| && j >= |table| { assert all[i] in table && all[j] in items; }
    }
  }

  lemma {:induction false} FilterUnique(table: seq<Row>, keep: Row -> bool)
    requires UniqueIds(table)
    ensures UniqueIds(Filter(table, keep))
  {
    if table != [] {
      var init, last := table[..|table| - 1], table[|table| - 1];
      FilterUnique(init, keep);
      FilterIn(init, keep);
      assert forall r :: r in init ==> r.id != last.id;
      assert forall i :: 0 <= i < |Filter(init, keep)| ==> Filter(init, keep)[i] in init;
    }
  }

  /** Hence over every run. */
  lemma {:induction false} RunKeepsUniqueIds(table: seq<Row>, calls: seq<Call>)
    requires UniqueIds(table)
    requires forall c :: c in calls ==> c.op.Update? ==> forall r :: c.op.patch(r).id == r.id
    ensures UniqueIds(Run(table, calls).0)
    decreases |calls|
  {
    if calls != [] {
      assert calls[0] in calls;
      StepKeepsUniqueIds(table, calls[0]);
      RunKeepsUniqueIds(Step(table, calls[0]).0, calls[1..]);
    }
  }

  /** The rows a query of project `q` reaches: its own, and the shared ones through the
      global-catalog helper, that meet the condition. */
  predicate Reaches(q: string, h: Helper, condition: Option<Cond>, r: Row) {
    (r.projectId == Some(q) || (h.OrGlobal? && r.projectId.None?)) && Matches(condition, r)
  }

  /** Deleting shows if a shared row is reached. Updating shows if a shared row is reached
      and changed, or if a row of the caller is turned into one that `p` sees. */
  ghost predicate Harmless(p: string, q: string, table: seq<Row>, op: Op) {
    match op
    case Select(_, _) => true
    case InsertRows(_) => true
    case Update(h, condition, patch) =>
      && (forall r :: r in table && r.projectId.None? && Reaches(q, h, condition, r) ==> patch(r) == r)
      && (forall r :: r in table && r.projectId == Some(q) && Matches(condition, r) ==> !Visible(p, patch(r)))
    case Delete(h, condition) => forall r :: r in table && r.projectId.None? ==> !Reaches(q, h, condition, r)
  }

  lemma {:induction false} FilterNarrower(s: seq<Row>, f: Row -> bool, g: Row -> bool)
    requires forall r :: f(r) ==> g(r)
    ensures Filter(s, f) == Filter(s, g) <==> forall r :: r in s && g(r) ==> f(r)
  {
    FilterIn(s, f);
    FilterIn(s, g);
    if forall r :: r in s && g(r) ==> f(r) { FilterExt(s, f, g); }
  }

  lemma {:induction false} UpdateKeepsView(p: string, table: seq<Row>, patch: Row -> Row, hit: Row -> bool)
    requires forall r :: r in table && hit(r) ==> if Visible(p, r) then patch(r) == r else !Visible(p, patch(r))
    ensures View(p, Apply(patch, hit, table)) == View(p, table)
  {
    if table != [] {
      var t := table[..|table| - 1];
      UpdateKeepsView(p, t, patch, hit);
      assert Apply(patch, hit, table)[..|table| - 1] == Apply(patch, hit, t);
      assert table[|table| - 1] in table;
    }
  }

  lemma {:induction false} UpdateShows(p: string, table: seq<Row>, patch: Row -> Row, hit: Row -> bool, r: Row)
    requires UniqueIds(table) && forall x :: patch(x).id == x.id
    requires View(p, Apply(patch, hit, table)) == View(p, table) && r in table && hit(r)
    ensures if Visible(p, r) then patch(r) == r else !Visible(p, patch(r))
  {
    var after := Apply(patch, hit, table);
    ViewIn(p, table);
    ViewIn(p, after);
    var i :| 0 <= i < |table| && table[i] == r;
    assert after[i] == patch(r) && after[i] in after;
    assert forall j :: 0 <= j < |table| && table[j].id == r.id ==> j == i;
    assert Visible(p, patch(r)) ==> patch(r) in View(p, table);
    if Visible(p, r) {
      assert r in View(p, table);
      var j :| 0 <= j < |after| && after[j] == r;
      assert table[j].id == r.id;
    }
  }

  /** EXACTLY WHEN IT SHOWS. A call of another project, disciplined or not, leaves what
      `p` sees as it was if and only if it is harmless. */
  lemma {:induction false} ForeignCallInvisibleIff(p: string, table: seq<Row>, call: Call)
    requires !Kept(p, call) && UniqueIds(table)
    requires call.op.Update? ==> forall r :: call.op.patch(r).id == r.id
    ensures View(p, Step(table, call).0) == View(p, table) <==>
            Harmless(p, call.scope.value.projectId.value, table, call.op)
  {
    var q := call.scope.value.projectId.value;
    match call.op
    case Select(h, condition) =>
    case InsertRows(items) => OtherProjectInvisible(p, table, call);
    case Update(h, condition, patch) => ForeignUpdate(p, q, table, call);
    case Delete(h, condition) => ForeignDelete(p, q, table, call);
  }

  lemma {:induction false} ForeignHits(q: string, call: Call, h: Helper, condition: Option<Cond>)
    requires GetProjectId(call.scope) == Ok(q)
    ensures forall r :: Matches(Scoped(h, call.scope, true, condition).value, r) <==> Reaches(q, h, condition, r)
  {
    forall r: Row ensures Matches(Scoped(h, call.scope, true, condition).value, r) <==> Reaches(q, h, condition, r) {
      ProjectFilterExact(h, call.scope.value, condition, r);
    }
  }

  lemma {:induction false} ForeignDelete(p: string, q: string, table: seq<Row>, call: Call)
    requires GetProjectId(call.scope) == Ok(q) && q != p && call.op.Delete?
    ensures View(p, Step(table, call).0) == View(p, table) <==> Harmless(p, q, table, call.op)
  {
    var h, condition := call.op.h, call.op.condition;
    var w := Scoped(h, call.scope, true, condition).value;
    var miss, v := (r: Row) => !Matches(w, r), (r: Row) => Visible(p, r);
    ForeignHits(q, call, h, condition);
    FilterFilter(table, miss, v);
    FilterNarrower(table, r => miss(r) && v(r), v);
  }

  lemma {:induction false} ForeignUpdate(p: string, q: string, table: seq<Row>, call: Call)
    requires GetProjectId(call.scope) == Ok(q) && q != p && UniqueIds(table)
    requires call.op.Update? && forall r :: call.op.patch(r).id == r.id
    ensures View(p, Step(table, call).0) == View(p, table) <==> Harmless(p, q, table, call.op)
  {
    var h, condition, patch := call.op.h, call.op.condition, call.op.patch;
    var w := Scoped(h, call.scope, true, condition).value;
    var hit := (r: Row) => Matches(w, r);
    ForeignHits(q, call, h, condition);
    if View(p, Apply(patch, hit, table)) == View(p, table) {
      forall r | r in table && hit(r) ensures if Visible(p, r) then patch(r) == r else !Visible(p, patch(r)) {
        UpdateShows(p, table, patch, hit, r);
      }
    }
    if Harmless(p, q, table, call.op) { UpdateKeepsView(p, table, patch, hit); }
  }

  /** EXACTLY WHEN HIDDEN ROWS SHOW IN AN INSERT. The answer to an insert of `p` differs
      from the answer on the rows `p` sees if and only if only a hidden row has one of its
      ids. */
  lemma {:induction false} InsertAnswerIff(p: string, table: seq<Row>, call: Call)
    requires IsProject(call.scope, p) && call.op.InsertRows?
    ensures Step(table, call).1 != Step(View(p, table), call).1 <==>
            && (exists r :: r in table && !Visible(p, r) && r.id in InsertIds(call))
            && (forall r :: r in table && Visible(p, r) ==> r.id !in InsertIds(call))
            && UniqueIds(call.op.items)
  {
    var items := call.op.items;
    var stamped := WithProjectInsert(call.scope, items).value;
    ViewIn(p, table);
    ClashIff(table, items, stamped);
    ClashIff(View(p, table), items, stamped);
  }

  lemma {:induction false} ClashIff(table: seq<Row>, items: seq<Row>, stamped: seq<Row>)
    requires |stamped| == |items| && forall i :: 0 <= i < |items| ==> stamped[i].id == items[i].id
    ensures IdClash(table, stamped) <==> !UniqueIds(items) || exists r, x :: r in table && x in items && r.id == x.id
  {
    if r, x :| r in table && x in stamped && r.id == x.id {
      var i :| 0 <= i < |stamped| && stamped[i] == x;
      assert items[i] in items && r.id == items[i].id;
    }
    if r, x :| r in table && x in items && r.id == x.id {
      var i :| 0 <= i < |items| && items[i] == x;
      assert stamped[i] in stamped && r.id == stamped[i].id;
    }
    if !UniqueIds(items) {
      var i, j :| 0 <= i < j < |items| && items[i].id == items[j].id;
      assert stamped[i].id == stamped[j].id;
    }
  }

  // ----- What each call answers, row by row -----

  /** A stamped row keeps its id and its columns and gets the project of the scope, or none
      in a system scope. */
  lemma {:induction false} InsertStamps(scope: Option<Context>, p: string, items: seq<Row>)
    ensures IsProject(scope, p) ==>
              && WithProjectInsert(scope, items).Ok? && |WithProjectInsert(scope, items).value| == |items|
              && forall i :: 0 <= i < |items| ==>
                   WithProjectInsert(scope, items).value[i] == Row(items[i].id, Some(p), items[i].cols)
    ensures scope.Some? && scope.value.system ==>
              && WithProjectInsert(scope, items).Ok? && |WithProjectInsert(scope, items).value| == |items|
              && forall i :: 0 <= i < |items| ==>
                   WithProjectInsert(scope, items).value[i] == Row(items[i].id, None, items[i].cols)
  {
  }

  /** A system scope works on all rows: its condition is passed on as it is, and its inserts
      are shared rows. */
  lemma {:induction false} SystemAnswers(scope: Option<Context>, table: seq<Row>, condition: Cond, h: Helper)
    requires scope.Some? && scope.value.system
    ensures WithProject(scope, true, Some(condition)) == Ok(Some(condition))
    ensures Step(table, Call(scope, Select(h, Some(condition)))).1 ==
            Rows(Filter(table, r => Matches(Some(condition), r)))
    ensures Step(table, Call(scope, Select(List, None))).1 == Rows(table)
    ensures Step(table, Call(scope, Select(Strict, None))) == (table, ScopeError)
  {
    FilterAll(table, r => Matches(None, r));
  }

  /** In a project scope a table without the column is refused by every helper. */
  lemma {:induction false} NoColumnThrows(scope: Option<Context>, p: string, condition: Option<Cond>)
    requires IsProject(scope, p)
    ensures WithProject(scope, false, condition) == Thrown
    ensures WithProjectList(scope, false, condition) == Thrown
    ensures WithProjectOrGlobal(scope, false, condition) == Thrown
  {
  }

  /** Calls run one after the other, each on the table the one before left. */
  lemma {:induction false} RunsInOrder(table: seq<Row>, a: Call, b: Call)
    ensures var (t1, r1) := Step(table, a);
            var (t2, r2) := Step(t1, b);
            Run(table, [a, b]) == (t2, [r1, r2])
  {
    var (t1, r1) := Step(table, a);
    var (t2, r2) := Step(t1, b);
    var run := Run(t1, [b]);
    assert [a, b][1..] == [b] && [b][1..] == [];
    assert Run(t2, []) == (t2, []);
    assert run.0 == t2 && run.1 == [r2] + [] == [r2];
    assert [r1] + [r2] == [r1, r2];
  }

  /** Erasing drops exactly the calls of other projects. */
  lemma {:induction false} ErasesOthers(p: string, calls: seq<Call>)
    ensures forall c :: c in Erase(p, calls) <==>
              c in calls && !(exists q :: q != p && IsProject(c.scope, q))
    decreases |calls|
  {
    if calls != [] {
      ErasesOthers(p, calls[1..]);
      KeptIs(p, calls[0]);
      assert calls == [calls[0]] + calls[1..];
    }
  }

  /** What `p` sees are the outcomes of exactly its own calls. */
  lemma {:induction false} SeesOwn(p: string, calls: seq<Call>, outs: seq<Outcome>, o: Outcome)
    requires |calls| == |outs|
    ensures o in SeenBy(p, calls, outs) <==>
            exists i :: 0 <= i < |calls| && IsProject(calls[i].scope, p) && outs[i] == o
    decreases |calls|
  {
    if calls != [] {
      SeesOwn(p, calls[1..], outs[1..], o);
      if i :| 0 <= i < |calls| && IsProject(calls[i].scope, p) && outs[i] == o {
        if i > 0 { assert calls[1..][i - 1] == calls[i] && outs[1..][i - 1] == outs[i]; }
      }
      if i :| 0 <= i < |calls[1..]| && IsProject(calls[1..][i].scope, p) && outs[1..][i] == o {
        assert calls[i + 1] == calls[1..][i] && outs[i + 1] == o;
      }
    }
  }

  lemma {:induction false} KeptIs(p: string, c: Call)
    ensures Kept(p, c) <==> !(exists q :: q != p && IsProject(c.scope, q))
  {
    if !Kept(p, c) { assert IsProject(c.scope, c.scope.value.projectId.value); }
  }

  /** The row an insert of `p` makes of an item. */
  predicate Stamped(p: string, item: Row, row: Row) { row == Row(item.id, Some(p), item.cols) }

  /** INSERT. It fails exactly when an id is repeated or already in the table, and then
      changes nothing; else it answers and appends the items, in order, as rows of `p`. */
  lemma {:induction false} InsertAnswers(p: string, table: seq<Row>, call: Call)
    requires IsProject(call.scope, p) && call.op.InsertRows?
    ensures Step(table, call).1 == UniqueViolation <==>
            !UniqueIds(call.op.items) || exists r, x :: r in table && x in call.op.items && r.id == x.id
    ensures var (after, r) := Step(table, call);
            match r
            case Rows(rows) => after == table + rows && |rows| == |call.op.items|
                               && forall i :: 0 <= i < |rows| ==> Stamped(p, call.op.items[i], rows[i])
            case UniqueViolation => after == table
            case ScopeError => false
  {
    InsertStamps(call.scope, p, call.op.items);
    ClashIff(table, call.op.items, WithProjectInsert(call.scope, call.op.items).value);
  }

  /** The rows a query of `p` is about. */
  function About(p: string, h: Helper, condition: Option<Cond>): Row -> bool {
    (r: Row) => (r.projectId == Some(p) || (h == OrGlobal && r.projectId == None)) && Matches(condition, r)
  }

  /** SELECT. It answers, in table order and each as often as the table has it, exactly the
      rows of `p` (with the shared ones for the catalog helper) that meet the condition. */
  lemma {:induction false} SelectAnswers(p: string, table: seq<Row>, call: Call)
    requires IsProject(call.scope, p) && call.op.Select?
    ensures Step(table, call) == (table, Rows(Filter(table, About(p, call.op.h, call.op.condition))))
    ensures forall r :: r in Step(table, call).1.rows <==>
              && r in table && (r.projectId == Some(p) || (call.op.h == OrGlobal && r.projectId == None))
              && Matches(call.op.condition, r)
  {
    var h, condition := call.op.h, call.op.condition;
    var w := Scoped(h, call.scope, true, condition).value;
    ForeignHits(p, call, h, condition);
    FilterExt(table, r => Matches(w, r), About(p, h, condition));
    FilterIn(table, About(p, h, condition));
  }

  /** DELETE. Exactly those rows go and are answered; all others stay, in order. */
  lemma {:induction false} DeleteAnswers(p: string, table: seq<Row>, call: Call)
    requires IsProject(call.scope, p) && call.op.Delete?
    ensures var about := About(p, call.op.h, call.op.condition);
            Step(table, call) == (Filter(table, r => !about(r)), Rows(Filter(table, about)))
  {
    var h, condition := call.op.h, call.op.condition;
    var w := Scoped(h, call.scope, true, condition).value;
    var about := About(p, h, condition);
    ForeignHits(p, call, h, condition);
    FilterExt(table, r => Matches(w, r), about);
    FilterExt(table, r => !Matches(w, r), r => !about(r));
  }

  /** UPDATE. Exactly those rows are patched, in place, and answered as patched. */
  lemma {:induction false} UpdateAnswers(p: string, table: seq<Row>, call: Call)
    requires IsProject(call.scope, p) && call.op.Update?
    ensures var (after, r) := Step(table, call);
            var about := About(p, call.op.h, call.op.condition);
            && |after| == |table| && r.Rows? && |r.rows| == |Filter(table, about)|
            && (forall i :: 0 <= i < |table| ==>
                  after[i] == if about(table[i]) then call.op.patch(table[i]) else table[i])
            && (forall i :: 0 <= i < |r.rows| ==> r.rows[i] == call.op.patch(Filter(table, about)[i]))
  {
    var h, condition := call.op.h, call.op.condition;
    var w := Scoped(h, call.scope, true, condition).value;
    ForeignHits(p, call, h, condition);
    FilterExt(table, r => Matches(w, r), About(p, h, condition));
  }

  /** What `p` inserts it selects again: after a successful insert its query answers what
      it answered before, followed by the new rows that meet the condition. */
  lemma {:induction false} InsertThenSelect(p: string, table: seq<Row>, insert: Call, select: Call)
    requires IsProject(insert.scope, p) && insert.op.InsertRows? && Step(table, insert).1.Rows?
    requires IsProject(select.scope, p) && select.op.Select?
    ensures var (after, r) := Step(table, insert);
            var condition := select.op.condition;
            && Step(table, select).1.Rows? && Step(after, select).1.Rows?
            && Step(after, select).1.rows == Step(table, select).1.rows + Filter(r.rows, x => Matches(condition, x))
  {
    var (after, r) := Step(table, insert);
    var about := About(p, select.op.h, select.op.condition);
    var condition := select.op.condition;
    InsertAnswers(p, table, insert);
    SelectAnswers(p, table, select);
    SelectAnswers(p, after, select);
    FilterAppend(table, r.rows, about);
    forall x | x in r.rows ensures x.projectId == Some(p) {
      var i :| 0 <= i < |r.rows| && r.rows[i] == x;
      assert Stamped(p, insert.op.items[i], r.rows[i]);
    }
    FilterExt(r.rows, about, x => Matches(condition, x));
  }

  /** Inside runAsProject a query runs for that project; inside runAsSystem it runs without
      one, unfiltered; and around both the scope is what it was. */
  lemma {:induction false} ScopesNest(scope: Option<Context>, p: string, a: Op, b: Op, c: Op)
    requires p != ""
    ensures var calls := Trace(scope, [RunAsProject(p, [Do(a)]), RunAsSystem([Do(b)]), Do(c)]);
            && |calls| == 3 && calls[0].op == a && calls[1].op == b && calls[2] == Call(scope, c)
            && GetProjectId(calls[0].scope) == Ok(p) && IsProject(calls[0].scope, p)
            && GetProjectId(calls[1].scope) == Thrown && UnscopedSystemQueryAllowed(calls[1].scope)
  {
    var project, system := Some(Context(Some(p), false)), Some(Context(None, true));
    TraceCons(scope, RunAsProject(p, [Do(a)]), [RunAsSystem([Do(b)]), Do(c)]);
    TraceCons(scope, RunAsSystem([Do(b)]), [Do(c)]);
    assert [RunAsProject(p, [Do(a)])] + [RunAsSystem([Do(b)]), Do(c)] ==
           [RunAsProject(p, [Do(a)]), RunAsSystem([Do(b)]), Do(c)];
    assert [RunAsSystem([Do(b)])] + [Do(c)] == [RunAsSystem([Do(b)]), Do(c)];
    OneCall(project, a);
    OneCall(system, b);
    OneCall(scope, c);
    OneScope(scope, RunAsProject(p, [Do(a)]));
    OneScope(scope, RunAsSystem([Do(b)]));
  }

  lemma {:induction false} OneCall(scope: Option<Context>, op: Op)
    ensures Trace(scope, [Do(op)]) == [Call(scope, op)]
  {
    assert [Do(op)][1..] == [];
    assert Trace(scope, []) == [];
  }

  lemma {:induction false} OneScope(scope: Option<Context>, q: Prog)
    requires !q.Do?
    ensures Trace(scope, [q]) ==
            if q.RunAsProject? then Trace(Some(Context(Some(q.projectId), false)), q.body)
            else Trace(Some(Context(None, true)), q.sysBody)
  {
    assert [q][1..] == [];
    assert Trace(scope, []) == [];
  }

  // ----- Witnesses: each condition is needed -----

  const ProjA := Some(Context(Some("a"), false))
  const ProjB := Some(Context(Some("b"), false))

  /** A client-chosen id that another project already used is observable: the
      insert of "a" fails only because of the row of "b". */
  lemma {:induction false} ReusedIdInterferes()
    ensures var r := Row("x", None, map[]);
            var calls := [Call(ProjB, InsertRows([r])), Call(ProjA, InsertRows([r]))];
            && (forall c :: c in calls ==> Disciplined(c))
            && Run([], calls).1 == [Rows([r.(projectId := Some("b"))]), UniqueViolation]
            && Erase("a", calls) == [calls[1]]
            && Run([], Erase("a", calls)).1 == [Rows([r.(projectId := Some("a"))])]
  {
    var r := Row("x", None, map[]);
    var rb, ra := r.(projectId := Some("b")), r.(projectId := Some("a"));
    var c0, c1 := Call(ProjB, InsertRows([r])), Call(ProjA, InsertRows([r]));
    var calls := [c0, c1];
    assert WithProjectInsert(ProjB, [r]).value == [rb];
    assert WithProjectInsert(ProjA, [r]).value == [ra];
    assert !IdClash([], [rb]) && !IdClash([], [ra]);
    assert rb in [rb] && ra in [ra] && rb.id == ra.id;
    assert IdClash([rb], [ra]);
    assert Step([], c0) == ([rb], Rows([rb])) by { assert [] + [rb] == [rb]; }
    assert Step([rb], c1) == ([rb], UniqueViolation);
    assert Step([], c1) == ([ra], Rows([ra])) by { assert [] + [ra] == [ra]; }
    assert calls[1..] == [c1] && [c1][1..] == [];
    assert Run([rb], []) == ([rb], []) && Run([ra], []) == ([ra], []);
    assert [UniqueViolation] + [] == [UniqueViolation] && [Rows([ra])] + [] == [Rows([ra])];
    assert Run([rb], [c1]) == ([rb], [UniqueViolation]);
    assert Run([], [c1]) == ([ra], [Rows([ra])]);
    assert Erase("a", [c1]) == [c1];
  }

  /** A patch that rewrites projectId moves a row of "b" into the view of "a". */
  lemma {:induction false} ProjectPatchInterferes()
    ensures var row := Row("x", Some("b"), map[]);
            var call := Call(ProjB, Update(Strict, None, (r: Row) => r.(projectId := Some("a"))));
            && !Kept("a", call)
            && View("a", [row]) == []
            && View("a", Step([row], call).0) == [row.(projectId := Some("a"))]
  {
    var row := Row("x", Some("b"), map[]);
    var patch := (r: Row) => r.(projectId := Some("a"));
    var call := Call(ProjB, Update(Strict, None, patch));
    assert View("a", [row]) == Filter([row][..0], r => Visible("a", r));
    var w := Scoped(Strict, ProjB, true, None).value;
    assert Matches(w, row);
    var t := Step([row], call).0;
    assert t == [row.(projectId := Some("a"))];
    assert t[..0] == [];
  }

  /** A project writing through the global-catalog helper removes shared rows. (The
      backend reads through it only.) */
  lemma {:induction false} GlobalWriteInterferes()
    ensures var row := Row("x", None, map[]);
            var call := Call(ProjB, Delete(OrGlobal, None));
            && !Kept("a", call)
            && View("a", [row]) == [row]
            && View("a", Step([row], call).0) == []
  {
    var row := Row("x", None, map[]);
    var call := Call(ProjB, Delete(OrGlobal, None));
    assert [row][..0] == [];
    assert View("a", [row]) == Filter([row][..0], r => Visible("a", r)) + [row];
    var w := Scoped(OrGlobal, ProjB, true, None).value;
    assert Matches(w, row);
    assert Step([row], call).0 == Filter([row][..0], r => !Matches(w, r));
  }

  // ----- Scopes as programs -----

  /** The calls a program issues, each under the innermost enclosing scope. */
  function Trace(scope: Option<Context>, progs: seq<Prog>): seq<Call>
    decreases progs
  {
    if progs == [] then []
    else
      (match progs[0]
       case Do(op) => [Call(scope, op)]
       case RunAsProject(p, body) => Trace(Some(Context(Some(p), false)), body)
       case RunAsSystem(body) => Trace(Some(Context(None, true)), body))
      + Trace(scope, progs[1..])
  }

  /** Whether `progs` and all it nests stays in the projects `others`. */
  ghost predicate OnlyOps(others: set<string>, progs: seq<Prog>) {
    forall q :: q in progs ==>
      q.Do? || (q.RunAsProject? && q.projectId in others && OnlyOps(others, q.body))
  }

  /** A scope reaches exactly the code it encloses: a block run as other projects
      contributes only calls that `p` never sees, and the scope around it is restored. */
  lemma {:induction false} BlockErased(p: string, others: set<string>, scope: Option<Context>, block: seq<Prog>)
    requires p !in others && "" !in others
    requires OnlyOps(others, block)
    requires scope.Some? && !scope.value.system && HasProjectId(scope.value) && scope.value.projectId.value in others
    ensures Erase(p, Trace(scope, block)) == []
    decreases block
  {
    if block != [] {
      var q := block[0];
      assert q in block;
      BlockErased(p, others, scope, block[1..]);
      var head := if q.Do? then [Call(scope, q.op)] else Trace(Some(Context(Some(q.projectId), false)), q.body);
      if q.RunAsProject? {
        BlockErased(p, others, Some(Context(Some(q.projectId), false)), q.body);
      } else {
        assert head[1..] == [];
      }
      EraseAppend(p, head, Trace(scope, block[1..]));
    }
  }

  lemma {:induction false} EraseAppend(p: string, a: seq<Call>, b: seq<Call>)
    ensures Erase(p, a + b) == Erase(p, a) + Erase(p, b)
    decreases |a|
  {
    if a == [] {
      assert a + b == b;
    } else {
      EraseAppend(p, a[1..], b);
      assert (a + b)[1..] == a[1..] + b;
    }
  }

  /** The block leaves no trace that `p` sees. */
  lemma {:induction false} JobErased(p: string, q: string, scope: Option<Context>, before: seq<Prog>, body: seq<Prog>,
                                     after: seq<Prog>)
    requires q != p && q != "" && OnlyOps({q}, body)
    ensures var with, without := Trace(scope, before + [RunAsProject(q, body)] + after), Trace(scope, before + after);
            Erase(p, with) == Erase(p, without) && forall c :: c in without ==> c in with
  {
    var job := [RunAsProject(q, body)];
    var a, inner, c := Trace(scope, before), Trace(Some(Context(Some(q), false)), body), Trace(scope, after);
    TraceAppend(scope, before + job, after);
    TraceAppend(scope, before, job);
    TraceAppend(scope, before, after);
    assert job[1..] == [];
    assert Trace(scope, job) == inner by { assert inner + [] == inner; }
    BlockErased(p, {q}, Some(Context(Some(q), false)), body);
    EraseAppend(p, a, inner);
    EraseAppend(p, a + inner, c);
    EraseAppend(p, a, c);
    assert Erase(p, a) + [] == Erase(p, a);
  }

  /** Adding a background job of other projects anywhere in a program changes
      nothing for `p`. */
  lemma {:induction false} BackgroundJobInvisible(p: string, q: string, scope: Option<Context>, before: seq<Prog>,
                                                  body: seq<Prog>, after: seq<Prog>, table: seq<Row>)
    requires q != p && q != "" && OnlyOps({q}, body)
    requires var with := Trace(scope, before + [RunAsProject(q, body)] + after);
             (forall c :: c in with ==> Disciplined(c)) && IdsApart(p, table, with)
    ensures var with := Trace(scope, before + [RunAsProject(q, body)] + after);
            var without := Trace(scope, before + after);
            && |Run(table, with).1| == |with| && |Run(table, without).1| == |without|
            && SeenBy(p, with, Run(table, with).1) == SeenBy(p, without, Run(table, without).1)
  {
    var with := Trace(scope, before + [RunAsProject(q, body)] + after);
    var without := Trace(scope, before + after);
    JobErased(p, q, scope, before, body, after);
    Noninterference(p, table, with);
    Noninterference(p, table, without);
  }

  lemma {:induction false} TraceAppend(scope: Option<Context>, a: seq<Prog>, b: seq<Prog>)
    ensures Trace(scope, a + b) == Trace(scope, a) + Trace(scope, b)
    decreases |a|
  {
    if a == [] {
      assert a + b == b;
    } else {
      var q, t := a[0], a[1..];
      TraceAppend(scope, t, b);
      TraceCons(scope, q, t);
      TraceCons(scope, q, t + b);
      assert a == [q] + t && a + b == [q] + (t + b);
      Assoc(Trace(scope, [q]), Trace(scope, t), Trace(scope, b));
    }
  }

  lemma {:induction false} TraceCons(scope: Option<Context>, q: Prog, rest: seq<Prog>)
    ensures Trace(scope, [q] + rest) == Trace(scope, [q]) + Trace(scope, rest)
  {
    var all := [q] + rest;
    assert all[0] == q && all[1..] == rest && [q][1..] == [];
    assert Trace(scope, []) == [];
    var head := Trace(scope, [q]);
    assert head + [] == head;
  }
}
