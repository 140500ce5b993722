/**
 Workspace cost attribution, written twice in the repository: the in-memory store
 folds request by request (server/storage.ts), the Postgres store groups by runId
 in SQL and folds the groups (server/storage-pg.ts). Both are proved against one
 declarative table (`WorkspaceStats`), which counts each request once under the
 newest loop of its group that resolves to a workspace.

 Token counts are integers, costs reals, timestamps integers.
 */
module LlmStats {
  import opened Wrappers
  import opened Sorting

  datatype Request = Request(runId: Option<string>, inputTokens: Option<int>, outputTokens: Option<int>,
                             costUsd: Option<real>)
  datatype Loop = Loop(id: string, groupId: string, repoPath: string, createdAt: int)
  datatype Workspace = Workspace(id: string, name: string, path: string)

  datatype Totals = Totals(requests: int, inputTokens: int, outputTokens: int, costUsd: real) {
    function Plus(o: Totals): Totals {
      Totals(requests + o.requests, inputTokens + o.inputTokens, outputTokens + o.outputTokens, costUsd + o.costUsd)
    }
  }

  const Zero := Totals(0, 0, 0, 0.0)

  datatype Bucket = Bucket(workspaceId: Option<string>, workspaceName: string, totals: Totals)

  function OrZero(x: Option<int>): int { if x.Some? then x.value else 0 }

  /** What one request adds: missing counts and costs read as zero. */
  function Of(r: Request): Totals {
    Totals(1, OrZero(r.inputTokens), OrZero(r.outputTokens), if r.costUsd.Some? then r.costUsd.value else 0.0)
  }

  /** The sum over the requests that satisfy `p`, each counted once. */
  function SumIf(rs: seq<Request>, p: Request -> bool): Totals {
    if rs == [] then Zero
    else
      var rest := SumIf(rs[..|rs| - 1], p);
      if p(rs[|rs| - 1]) then rest.Plus(Of(rs[|rs| - 1])) else rest
  }

  // ----- Which workspace a request belongs to -----

  predicate WorkspaceBefore(a: Workspace, b: Workspace) { LexLess(a.id, b.id) }

  predicate NewerLoop(a: Loop, b: Loop) {
    a.createdAt > b.createdAt || (a.createdAt == b.createdAt && LexLess(b.id, a.id))
  }

  /** `w` is the workspace of a path: the one with the lowest id. */
  ghost predicate OwnsPath(workspaces: seq<Workspace>, path: string, w: Workspace) {
    w in workspaces && w.path == path &&
    forall v :: v in workspaces && v.path == path ==> v == w || LexLess(w.id, v.id)
  }

  ghost predicate Resolves(workspaces: seq<Workspace>, l: Loop) {
    exists w :: w in workspaces && w.path == l.repoPath
  }

  /** `l` is the newest loop of its group that resolves. */
  ghost predicate Decides(loops: seq<Loop>, workspaces: seq<Workspace>, l: Loop) {
    && l in loops && Resolves(workspaces, l)
    && forall m :: m in loops && m.groupId == l.groupId && Resolves(workspaces, m) ==> m == l || NewerLoop(l, m)
  }

  /** `w` is the workspace of a group: that of the loop that decides. */
  ghost predicate OwnsGroup(loops: seq<Loop>, workspaces: seq<Workspace>, group: string, w: Workspace) {
    exists l :: Decides(loops, workspaces, l) && l.groupId == group && OwnsPath(workspaces, l.repoPath, w)
  }

  ghost predicate Owned(loops: seq<Loop>, workspaces: seq<Workspace>, group: string) {
    exists l :: l in loops && l.groupId == group && Resolves(workspaces, l)
  }

  /** Primary keys: ids identify rows. */
  ghost predicate LoopIdsUnique(loops: seq<Loop>) {
    forall l, m :: l in loops && m in loops && l.id == m.id ==> l == m
  }

  ghost predicate WorkspaceIdsUnique(workspaces: seq<Workspace>) {
    forall w, v :: w in workspaces && v in workspaces && w.id == v.id ==> w == v
  }

  // ----- The sort orders -----

  lemma {:induction false} WorkspaceOrder()
    ensures StrictWeak(WorkspaceBefore)
  {
    LexStrictTotal();
  }

  lemma {:induction false} LoopOrder()
    ensures StrictWeak(NewerLoop)
  {
    forall x: Loop ensures !NewerLoop(x, x) { LexIrreflexive(x.id); }
    forall x, y, z | NewerLoop(x, y) && NewerLoop(y, z) ensures NewerLoop(x, z) {
      if x.createdAt == y.createdAt == z.createdAt { LexTransitive(z.id, y.id, x.id); }
    }
    forall x, y, z | NewerLoop(x, z) ensures NewerLoop(x, y) || NewerLoop(y, z) {
      if x.createdAt == y.createdAt == z.createdAt {
        LexTotal(x.id, y.id);
        if LexLess(x.id, y.id) { LexTransitive(z.id, x.id, y.id); }
      }
    }
  }

  lemma {:induction false} NewerTotal(l: Loop, m: Loop)
    requires l.id != m.id
    ensures NewerLoop(l, m) != NewerLoop(m, l)
  {
    LexTotal(l.id, m.id);
    if LexLess(l.id, m.id) { LexAsymmetric(l.id, m.id); } else { LexAsymmetric(m.id, l.id); }
  }

  method SortedWorkspaces(workspaces: seq<Workspace>) returns (sorted: seq<Workspace>)
    ensures Sorted(WorkspaceBefore, sorted)
    ensures forall w :: w in sorted <==> w in workspaces
  {
    sorted := Sort(WorkspaceBefore, workspaces);
    WorkspaceOrder();
    SortSorted(WorkspaceBefore, workspaces);
    SortPermutes(WorkspaceBefore, workspaces);
    SameElements(sorted, workspaces);
  }

  method NewestFirst(loops: seq<Loop>) returns (sorted: seq<Loop>)
    ensures Sorted(NewerLoop, sorted)
    ensures forall l :: l in sorted <==> l in loops
  {
    sorted := Sort(NewerLoop, loops);
    LoopOrder();
    SortSorted(NewerLoop, loops);
    SortPermutes(NewerLoop, loops);
    SameElements(sorted, loops);
  }

  // ----- Steps shared by both backends -----

  /** Keeps the first workspace listed for each path. */
  method FirstPerPath(sorted: seq<Workspace>) returns (byPath: map<string, Workspace>, ghost at: map<string, nat>)
    ensures at.Keys == byPath.Keys
    ensures forall k :: 0 <= k < |sorted| ==> sorted[k].path in byPath
    ensures forall p :: p in byPath ==> at[p] < |sorted| && sorted[at[p]] == byPath[p] && byPath[p].path == p
    ensures forall p, k :: p in byPath && 0 <= k < at[p] ==> sorted[k].path != p
  {
    byPath, at := map[], map[];
    for i := 0 to |sorted|
      invariant at.Keys == byPath.Keys
      invariant forall k :: 0 <= k < i ==> sorted[k].path in byPath
      invariant forall p :: p in byPath ==> at[p] < i && sorted[at[p]] == byPath[p] && byPath[p].path == p
      invariant forall p, k :: p in byPath && 0 <= k < at[p] ==> sorted[k].path != p
    {
      if sorted[i].path !in byPath {
        at := at[sorted[i].path := i];
        byPath := byPath[sorted[i].path := sorted[i]];
      }
    }
  }

  /** The workspace of each path: the lowest id wins. */
  method WorkspacesByPath(workspaces: seq<Workspace>) returns (byPath: map<string, Workspace>)
    requires WorkspaceIdsUnique(workspaces)
    ensures forall w :: w in workspaces ==> w.path in byPath
    ensures forall p :: p in byPath ==> OwnsPath(workspaces, p, byPath[p])
  {
    var sorted := SortedWorkspaces(workspaces);
    ghost var at;
    byPath, at := FirstPerPath(sorted);
    forall p | p in byPath ensures OwnsPath(workspaces, p, byPath[p]) {
      FirstOwns(workspaces, sorted, at[p]);
    }
    forall w | w in workspaces ensures w.path in byPath {
      assert w in sorted;
    }
  }

  /** The first workspace with its path, in id order, owns the path. */
  lemma {:induction false} FirstOwns(workspaces: seq<Workspace>, sorted: seq<Workspace>, at: nat)
    requires WorkspaceIdsUnique(workspaces) && Sorted(WorkspaceBefore, sorted)
    requires forall w :: w in sorted <==> w in workspaces
    requires at < |sorted| && forall k :: 0 <= k < at ==> sorted[k].path != sorted[at].path
    ensures OwnsPath(workspaces, sorted[at].path, sorted[at])
  {
    var w := sorted[at];
    assert w in sorted;
    forall v | v in workspaces && v.path == w.path ensures v == w || LexLess(w.id, v.id) {
      assert v in sorted;
      var k :| 0 <= k < |sorted| && sorted[k] == v;
      assert at <= k;
      LexTotal(w.id, v.id);
    }
  }

  /** Keeps, per group, the workspace of the first listed loop that has one. */
  method FirstPerGroup(ordered: seq<Loop>, byPath: map<string, Workspace>)
    returns (byGroup: map<string, Workspace>, ghost at: map<string, nat>)
    ensures at.Keys == byGroup.Keys
    ensures forall k :: 0 <= k < |ordered| && ordered[k].repoPath in byPath ==> ordered[k].groupId in byGroup
    ensures forall g :: g in byGroup ==> at[g] < |ordered| && ordered[at[g]].groupId == g
    ensures forall g :: g in byGroup ==>
            ordered[at[g]].repoPath in byPath && byPath[ordered[at[g]].repoPath] == byGroup[g]
    ensures forall g, k :: g in byGroup && 0 <= k < at[g] && ordered[k].groupId == g ==> ordered[k].repoPath !in byPath
  {
    byGroup, at := map[], map[];
    for i := 0 to |ordered|
      invariant at.Keys == byGroup.Keys
      invariant forall k :: 0 <= k < i && ordered[k].repoPath in byPath ==> ordered[k].groupId in byGroup
      invariant forall g :: g in byGroup ==> at[g] < i && ordered[at[g]].groupId == g
      invariant forall g :: g in byGroup ==>
                ordered[at[g]].repoPath in byPath && byPath[ordered[at[g]].repoPath] == byGroup[g]
      invariant forall g, k ::
                  g in byGroup && 0 <= k < at[g] && ordered[k].groupId == g ==> ordered[k].repoPath !in byPath
    {
      var loop := ordered[i];
      if loop.groupId !in byGroup && loop.repoPath in byPath {
        at := at[loop.groupId := i];
        byGroup := byGroup[loop.groupId := byPath[loop.repoPath]];
      }
    }
  }

  /** One workspace per group, from loops given newest first. */
  method WorkspacesByGroup(ghost loops: seq<Loop>, ordered: seq<Loop>, workspaces: seq<Workspace>)
    returns (byGroup: map<string, Workspace>)
    requires LoopIdsUnique(loops) && WorkspaceIdsUnique(workspaces)
    requires Sorted(NewerLoop, ordered)
    requires forall l :: l in ordered <==> l in loops
    ensures Attribution(loops, workspaces, byGroup)
  {
    var byPath := WorkspacesByPath(workspaces);
    ghost var at: map<string, nat>;
    byGroup, at := FirstPerGroup(ordered, byPath);
    forall l | l in loops && Resolves(workspaces, l) ensures l.groupId in byGroup {
      assert l in ordered;
    }
    forall g | g in byGroup ensures OwnsGroup(loops, workspaces, g, byGroup[g]) {
      FirstDecides(loops, ordered, workspaces, byPath, at[g]);
      assert Decides(loops, workspaces, ordered[at[g]]);
    }
    forall g | g in byGroup ensures Owned(loops, workspaces, g) {
      var l :| Decides(loops, workspaces, l) && l.groupId == g;
    }
  }

  /** The first resolving loop of a group, newest first, decides. */
  lemma {:induction false} FirstDecides(loops: seq<Loop>, ordered: seq<Loop>, workspaces: seq<Workspace>,
                                        byPath: map<string, Workspace>, at: nat)
    requires LoopIdsUnique(loops) && Sorted(NewerLoop, ordered)
    requires forall l :: l in ordered <==> l in loops
    requires forall w :: w in workspaces ==> w.path in byPath
    requires forall p :: p in byPath ==> OwnsPath(workspaces, p, byPath[p])
    requires at < |ordered| && ordered[at].repoPath in byPath
    requires forall k :: 0 <= k < at && ordered[k].groupId == ordered[at].groupId ==> ordered[k].repoPath !in byPath
    ensures Decides(loops, workspaces, ordered[at])
  {
    var l := ordered[at];
    assert l in ordered;
    assert byPath[l.repoPath] in workspaces;
    forall m | m in loops && m.groupId == l.groupId && Resolves(workspaces, m) ensures m == l || NewerLoop(l, m) {
      assert m in ordered;
      var k :| 0 <= k < |ordered| && ordered[k] == m;
      assert at <= k;
      if m != l { NewerTotal(l, m); }
    }
  }

  /** A group has at most one owning workspace, so attribution is a function. */
  lemma {:induction false} OwnerUnique(loops: seq<Loop>, workspaces: seq<Workspace>, group: string, w: Workspace,
                                       v: Workspace)
    requires OwnsGroup(loops, workspaces, group, w) && OwnsGroup(loops, workspaces, group, v)
    ensures w == v
  {
    var l :| Decides(loops, workspaces, l) && l.groupId == group && OwnsPath(workspaces, l.repoPath, w);
    var m :| Decides(loops, workspaces, m) && m.groupId == group && OwnsPath(workspaces, m.repoPath, v);
    if l != m {
      assert NewerLoop(l, m) && NewerLoop(m, l);
      LexAsymmetric(m.id, l.id);
    }
    if w != v { LexAsymmetric(w.id, v.id); }
  }

  // ----- The declarative table -----

  /** The map key that stands for "no workspace". */
  const Unattributed: string := "\0unattributed"

  function WorkspaceOf(byGroup: map<string, Workspace>, runId: Option<string>): Option<Workspace> {
    if runId.Some? && runId.value != "" && runId.value in byGroup then Some(byGroup[runId.value]) else None
  }

  function KeyOf(byGroup: map<string, Workspace>, runId: Option<string>): string {
    var ws := WorkspaceOf(byGroup, runId);
    if ws.Some? then ws.value.id else Unattributed
  }

  function Label(byGroup: map<string, Workspace>, runId: Option<string>, t: Totals): Bucket {
    var ws := WorkspaceOf(byGroup, runId);
    if ws.Some? then Bucket(Some(ws.value.id), ws.value.name, t) else Bucket(None, "Unattributed", t)
  }

  /** `byGroup` is the attribution the rows prescribe. */
  ghost predicate Attribution(loops: seq<Loop>, workspaces: seq<Workspace>, byGroup: map<string, Workspace>) {
    && (forall g :: g in byGroup <==> Owned(loops, workspaces, g))
    && (forall g :: g in byGroup ==> OwnsGroup(loops, workspaces, g, byGroup[g]))
  }

  ghost predicate NoReservedId(workspaces: seq<Workspace>) {
    forall w :: w in workspaces ==> w.id != Unattributed
  }

  /** The requests attributed to key `k`. */
  ghost function UnderKey(byGroup: map<string, Workspace>, k: string): Request -> bool {
    (r: Request) => KeyOf(byGroup, r.runId) == k
  }

  ghost function WithRun(runId: Option<string>): Request -> bool {
    (r: Request) => r.runId == runId
  }

  /** The table both backends must produce: one bucket per key some request has,
      labelled with its workspace, holding the sum of exactly those requests. */
  ghost predicate WorkspaceStats(rs: seq<Request>, byGroup: map<string, Workspace>, out: map<string, Bucket>) {
    && (forall k :: k in out ==> exists r :: r in rs && KeyOf(byGroup, r.runId) == k)
    && (forall r :: r in rs ==> KeyOf(byGroup, r.runId) in out)
    && (forall r :: r in rs ==>
          out[KeyOf(byGroup, r.runId)] ==
          Label(byGroup, r.runId, SumIf(rs, UnderKey(byGroup, KeyOf(byGroup, r.runId)))))
  }

  /** `out` is the report on the rows: the table for the attribution they prescribe. */
  ghost predicate Report(rs: seq<Request>, loops: seq<Loop>, workspaces: seq<Workspace>, out: map<string, Bucket>) {
    exists byGroup :: Attribution(loops, workspaces, byGroup) && WorkspaceStats(rs, byGroup, out)
  }

  // ----- In-memory backend: fold each request -----

  /** MemStorage.getLlmStatsByWorkspace */
  method MemStatsByWorkspace(rs: seq<Request>, loops: seq<Loop>, workspaces: seq<Workspace>)
    returns (out: map<string, Bucket>)
    requires LoopIdsUnique(loops) && WorkspaceIdsUnique(workspaces) && NoReservedId(workspaces)
    ensures Report(rs, loops, workspaces, out)
  {
    var ordered := NewestFirst(loops);
    var groupToWs := WorkspacesByGroup(loops, ordered, workspaces);
    LabelsByKey(loops, workspaces, groupToWs);
    out := FoldRequests(rs, groupToWs);
  }

  /** The fold itself: each request goes into exactly one bucket. */
  method FoldRequests(rs: seq<Request>, groupToWs: map<string, Workspace>) returns (out: map<string, Bucket>)
    requires ConsistentLabels(groupToWs)
    ensures WorkspaceStats(rs, groupToWs, out)
  {
    out := map[];
    for i := 0 to |rs|
      invariant WorkspaceStats(rs[..i], groupToWs, out)
    {
      var r := rs[i];
      var key := KeyOf(groupToWs, r.runId);
      var existing := if key in out then out[key] else Label(groupToWs, r.runId, Zero);
      ghost var before := out;
      out := out[key := existing.(totals := existing.totals.Plus(Of(r)))];
      MemNext(rs, i, groupToWs, before, existing, out);
    }
    assert rs[..|rs|] == rs;
  }

  /** Two requests under one key carry the same label. */
  lemma {:induction false} LabelsByKey(loops: seq<Loop>, workspaces: seq<Workspace>, byGroup: map<string, Workspace>)
    requires LoopIdsUnique(loops) && WorkspaceIdsUnique(workspaces) && NoReservedId(workspaces)
    requires Attribution(loops, workspaces, byGroup)
    ensures ConsistentLabels(byGroup)
  {
    forall a: Option<string>, b: Option<string> | KeyOf(byGroup, a) == KeyOf(byGroup, b)
      ensures WorkspaceOf(byGroup, a) == WorkspaceOf(byGroup, b)
    {
      AttributedWorkspace(loops, workspaces, byGroup, a);
      AttributedWorkspace(loops, workspaces, byGroup, b);
    }
  }

  lemma {:induction false} AttributedWorkspace(loops: seq<Loop>, workspaces: seq<Workspace>,
                                               byGroup: map<string, Workspace>, runId: Option<string>)
    requires Attribution(loops, workspaces, byGroup)
    ensures WorkspaceOf(byGroup, runId).Some? ==> WorkspaceOf(byGroup, runId).value in workspaces
  {
    if WorkspaceOf(byGroup, runId).Some? {
      assert OwnsGroup(loops, workspaces, runId.value, byGroup[runId.value]);
    }
  }

  ghost predicate ConsistentLabels(byGroup: map<string, Workspace>) {
    forall a: Option<string>, b: Option<string> :: KeyOf(byGroup, a) == KeyOf(byGroup, b)
      ==> WorkspaceOf(byGroup, a) == WorkspaceOf(byGroup, b)
  }

  lemma {:induction false} SumIfNone(rs: seq<Request>, p: Request -> bool)
    requires forall r :: r in rs ==> !p(r)
    ensures SumIf(rs, p) == Zero
  {
    if rs != [] { SumIfNone(rs[..|rs| - 1], p); }
  }

  lemma {:induction false} SumIfExt(rs: seq<Request>, p: Request -> bool, q: Request -> bool)
    requires forall r :: r in rs ==> p(r) == q(r)
    ensures SumIf(rs, p) == SumIf(rs, q)
  {
    if rs != [] { SumIfExt(rs[..|rs| - 1], p, q); }
  }

  /** Disjoint selections add up. */
  lemma {:induction false} SumIfSplit(rs: seq<Request>, p: Request -> bool, q: Request -> bool, both: Request -> bool)
    requires forall r :: r in rs ==> !(p(r) && q(r)) && (both(r) <==> p(r) || q(r))
    ensures SumIf(rs, both) == SumIf(rs, p).Plus(SumIf(rs, q))
  {
    if rs != [] { SumIfSplit(rs[..|rs| - 1], p, q, both); }
  }

  lemma {:induction false} SumIfSnoc(rs: seq<Request>, r: Request, p: Request -> bool)
    ensures SumIf(rs + [r], p) == if p(r) then SumIf(rs, p).Plus(Of(r)) else SumIf(rs, p)
  {
    assert (rs + [r])[..|rs + [r]| - 1] == rs;
  }

  lemma {:induction false} LabelAlike(byGroup: map<string, Workspace>, a: Option<string>, b: Option<string>, t: Totals)
    requires ConsistentLabels(byGroup) && KeyOf(byGroup, a) == KeyOf(byGroup, b)
    ensures Label(byGroup, a, t) == Label(byGroup, b, t)
  {
  }

  lemma {:induction false} AddTotals(byGroup: map<string, Workspace>, id: Option<string>, sum: Totals, more: Totals)
    ensures Label(byGroup, id, sum).(totals := Label(byGroup, id, sum).totals.Plus(more)) ==
            Label(byGroup, id, sum.Plus(more))
  {
  }

  /** The bucket a request goes into, before and after. */
  lemma {:induction false} MemEntry(rs: seq<Request>, next: seq<Request>, r: Request, byGroup: map<string, Workspace>,
                                    before: map<string, Bucket>, existing: Bucket)
    requires next == rs + [r] && ConsistentLabels(byGroup) && WorkspaceStats(rs, byGroup, before)
    requires var key := KeyOf(byGroup, r.runId);
             existing == if key in before then before[key] else Label(byGroup, r.runId, Zero)
    ensures existing.(totals := existing.totals.Plus(Of(r))) ==
            Label(byGroup, r.runId, SumIf(next, UnderKey(byGroup, KeyOf(byGroup, r.runId))))
  {
    var key := KeyOf(byGroup, r.runId);
    SumIfSnoc(rs, r, UnderKey(byGroup, key));
    var sum := SumIf(rs, UnderKey(byGroup, key));
    if key in before {
      var other :| other in rs && KeyOf(byGroup, other.runId) == key;
      LabelAlike(byGroup, other.runId, r.runId, sum);
    } else {
      SumIfNone(rs, UnderKey(byGroup, key));
    }
    assert existing == Label(byGroup, r.runId, sum);
  }

  /** The entry of any request so far, after one more. */
  lemma {:induction false} MemStepAt(rs: seq<Request>, next: seq<Request>, r: Request,
                                     byGroup: map<string, Workspace>, before: map<string, Bucket>,
                                     after: map<string, Bucket>, x: Request)
    requires next == rs + [r] && ConsistentLabels(byGroup) && WorkspaceStats(rs, byGroup, before) && x in next
    requires var key := KeyOf(byGroup, r.runId);
             after == before[key := Label(byGroup, r.runId, SumIf(next, UnderKey(byGroup, key)))]
    ensures var k := KeyOf(byGroup, x.runId);
            k in after && after[k] == Label(byGroup, x.runId, SumIf(next, UnderKey(byGroup, k)))
  {
    var k := KeyOf(byGroup, x.runId);
    if k == KeyOf(byGroup, r.runId) {
      LabelAlike(byGroup, x.runId, r.runId, SumIf(next, UnderKey(byGroup, k)));
    } else {
      SumIfSnoc(rs, r, UnderKey(byGroup, k));
    }
  }

  lemma {:induction false} MemStep(rs: seq<Request>, next: seq<Request>, r: Request, byGroup: map<string, Workspace>,
                                   before: map<string, Bucket>, after: map<string, Bucket>)
    requires next == rs + [r] && ConsistentLabels(byGroup) && WorkspaceStats(rs, byGroup, before)
    requires var key := KeyOf(byGroup, r.runId);
             after == before[key := Label(byGroup, r.runId, SumIf(next, UnderKey(byGroup, key)))]
    ensures WorkspaceStats(next, byGroup, after)
  {
    var key := KeyOf(byGroup, r.runId);
    forall k | k in after ensures exists x :: x in next && KeyOf(byGroup, x.runId) == k {
      if k == key {
        assert next[|rs|] == r;
      } else {
        var x :| x in rs && KeyOf(byGroup, x.runId) == k;
        assert x in next;
      }
    }
    forall x | x in next
      ensures KeyOf(byGroup, x.runId) in after
      ensures after[KeyOf(byGroup, x.runId)] ==
              Label(byGroup, x.runId, SumIf(next, UnderKey(byGroup, KeyOf(byGroup, x.runId))))
    {
      MemStepAt(rs, next, r, byGroup, before, after, x);
    }
  }

  lemma {:induction false} PrefixNext(rs: seq<Request>, i: nat)
    requires i < |rs|
    ensures rs[..i + 1] == rs[..i] + [rs[i]]
  {
  }

  /** One turn of the loop. */
  lemma {:induction false} MemNext(rs: seq<Request>, i: nat, byGroup: map<string, Workspace>,
                                   before: map<string, Bucket>, existing: Bucket, after: map<string, Bucket>)
    requires i < |rs| && ConsistentLabels(byGroup) && WorkspaceStats(rs[..i], byGroup, before)
    requires var key := KeyOf(byGroup, rs[i].runId);
             && existing == (if key in before then before[key] else Label(byGroup, rs[i].runId, Zero))
             && after == before[key := existing.(totals := existing.totals.Plus(Of(rs[i])))]
    ensures WorkspaceStats(rs[..i + 1], byGroup, after)
  {
    PrefixNext(rs, i);
    MemEntry(rs[..i], rs[..i + 1], rs[i], byGroup, before, existing);
    MemStep(rs[..i], rs[..i + 1], rs[i], byGroup, before, after);
  }

  // ----- Postgres backend: GROUP BY runId, then fold the groups -----

  datatype Group = Group(runId: Option<string>, totals: Totals)

  /** What `SELECT run_id, count, sums ... GROUP BY run_id` returns, in any order. */
  ghost predicate GroupedByRunId(rs: seq<Request>, groups: seq<Group>) {
    && (forall i, j :: 0 <= i < j < |groups| ==> groups[i].runId != groups[j].runId)
    && RunIds(groups) == (set r | r in rs :: r.runId)
    && (forall i :: 0 <= i < |groups| ==> groups[i].totals == SumIf(rs, WithRun(groups[i].runId)))
  }

  ghost function RunIds(groups: seq<Group>): set<Option<string>> {
    set g | g in groups :: g.runId
  }

  /** Requests under key `k` whose runId is among `done`. */
  ghost function Covered(done: set<Option<string>>, byGroup: map<string, Workspace>, k: string): Request -> bool {
    (x: Request) => KeyOf(byGroup, x.runId) == k && x.runId in done
  }

  /** The table of the requests whose runId is among `done`. */
  ghost predicate PartialStats(rs: seq<Request>, done: set<Option<string>>, byGroup: map<string, Workspace>,
                               out: map<string, Bucket>)
  {
    && (forall k :: k in out ==> exists id :: id in done && KeyOf(byGroup, id) == k)
    && (forall id :: id in done ==> KeyOf(byGroup, id) in out)
    && (forall id :: id in done ==>
          out[KeyOf(byGroup, id)] == Label(byGroup, id, SumIf(rs, Covered(done, byGroup, KeyOf(byGroup, id)))))
  }

  /** PgStorage.getLlmStatsByWorkspace, given the grouped rows and the loops the
      database returned newest first. */
  method PgStatsByWorkspace(ghost rs: seq<Request>, groups: seq<Group>, ghost loops: seq<Loop>, loopRows: seq<Loop>,
                            workspaces: seq<Workspace>)
    returns (out: map<string, Bucket>)
    requires LoopIdsUnique(loops) && WorkspaceIdsUnique(workspaces) && NoReservedId(workspaces)
    requires GroupedByRunId(rs, groups)
    requires Sorted(NewerLoop, loopRows) && forall l :: l in loopRows <==> l in loops
    ensures Report(rs, loops, workspaces, out)
  {
    var groupToWs := WorkspacesByGroup(loops, loopRows, workspaces);
    LabelsByKey(loops, workspaces, groupToWs);
    out := FoldGroups(rs, groups, groupToWs);
  }

  /** The fold itself: each group goes into exactly one bucket. */
  method FoldGroups(ghost rs: seq<Request>, groups: seq<Group>,
                    groupToWs: map<string, Workspace>) returns (out: map<string, Bucket>)
    requires ConsistentLabels(groupToWs) && GroupedByRunId(rs, groups)
    ensures WorkspaceStats(rs, groupToWs, out)
  {
    out := map[];
    for i := 0 to |groups|
      invariant PartialStats(rs, RunIds(groups[..i]), groupToWs, out)
    {
      var g := groups[i];
      var key := KeyOf(groupToWs, g.runId);
      var existing := if key in out then out[key] else Label(groupToWs, g.runId, Zero);
      ghost var before := out;
      out := out[key := existing.(totals := existing.totals.Plus(g.totals))];
      RunIdsNext(groups, i);
      PgExisting(rs, RunIds(groups[..i]), g.runId, groupToWs, before);
      PgEntry(rs, RunIds(groups[..i]), g, groupToWs, existing);
      PgStep(rs, RunIds(groups[..i]), g, groupToWs, before, out);
    }
    assert groups[..|groups|] == groups;
    PartialIsWhole(rs, RunIds(groups), groupToWs, out);
  }

  lemma {:induction false} RunIdsNext(groups: seq<Group>, i: nat)
    requires i < |groups|
    ensures RunIds(groups[..i + 1]) == RunIds(groups[..i]) + {groups[i].runId}
  {
    assert groups[..i + 1] == groups[..i] + [groups[i]];
  }

  /** The bucket a group goes into holds the sum of what was covered under its key. */
  lemma {:induction false} PgExisting(rs: seq<Request>, done: set<Option<string>>, runId: Option<string>,
                                      byGroup: map<string, Workspace>, before: map<string, Bucket>)
    requires ConsistentLabels(byGroup) && PartialStats(rs, done, byGroup, before)
    ensures var key := KeyOf(byGroup, runId);
            (if key in before then before[key] else Label(byGroup, runId, Zero)) ==
            Label(byGroup, runId, SumIf(rs, Covered(done, byGroup, key)))
  {
    var key := KeyOf(byGroup, runId);
    if key in before {
      var other :| other in done && KeyOf(byGroup, other) == key;
      LabelAlike(byGroup, other, runId, SumIf(rs, Covered(done, byGroup, key)));
    } else {
      SumIfNone(rs, Covered(done, byGroup, key));
    }
  }

  /** That bucket after the group's totals were added. */
  lemma {:induction false} PgEntry(rs: seq<Request>, done: set<Option<string>>, g: Group,
                                   byGroup: map<string, Workspace>, existing: Bucket)
    requires g.runId !in done && g.totals == SumIf(rs, WithRun(g.runId))
    requires existing == Label(byGroup, g.runId, SumIf(rs, Covered(done, byGroup, KeyOf(byGroup, g.runId))))
    ensures existing.(totals := existing.totals.Plus(g.totals)) ==
            Label(byGroup, g.runId, SumIf(rs, Covered(done + {g.runId}, byGroup, KeyOf(byGroup, g.runId))))
  {
    var key := KeyOf(byGroup, g.runId);
    CoverOneMore(rs, done, g, byGroup, key);
    AddTotals(byGroup, g.runId, SumIf(rs, Covered(done, byGroup, key)), g.totals);
  }

  /** The entry of any runId covered so far, after one more group. */
  lemma {:induction false} PgStepAt(rs: seq<Request>, done: set<Option<string>>, g: Group,
                                    byGroup: map<string, Workspace>, before: map<string, Bucket>,
                                    after: map<string, Bucket>, id: Option<string>)
    requires g.runId !in done && g.totals == SumIf(rs, WithRun(g.runId)) && id in done + {g.runId}
    requires ConsistentLabels(byGroup) && PartialStats(rs, done, byGroup, before)
    requires var key := KeyOf(byGroup, g.runId);
             after == before[key := Label(byGroup, g.runId, SumIf(rs, Covered(done + {g.runId}, byGroup, key)))]
    ensures var k := KeyOf(byGroup, id);
            k in after && after[k] == Label(byGroup, id, SumIf(rs, Covered(done + {g.runId}, byGroup, k)))
  {
    var k := KeyOf(byGroup, id);
    if k == KeyOf(byGroup, g.runId) {
      LabelAlike(byGroup, id, g.runId, SumIf(rs, Covered(done + {g.runId}, byGroup, k)));
    } else {
      CoverOneMore(rs, done, g, byGroup, k);
    }
  }

  lemma {:induction false} PgStep(rs: seq<Request>, done: set<Option<string>>, g: Group,
                                  byGroup: map<string, Workspace>, before: map<string, Bucket>,
                                  after: map<string, Bucket>)
    requires g.runId !in done && g.totals == SumIf(rs, WithRun(g.runId))
    requires ConsistentLabels(byGroup) && PartialStats(rs, done, byGroup, before)
    requires var key := KeyOf(byGroup, g.runId);
             after == before[key := Label(byGroup, g.runId, SumIf(rs, Covered(done + {g.runId}, byGroup, key)))]
    ensures PartialStats(rs, done + {g.runId}, byGroup, after)
  {
    var key, more := KeyOf(byGroup, g.runId), done + {g.runId};
    forall id | id in more
      ensures KeyOf(byGroup, id) in after
      ensures after[KeyOf(byGroup, id)] == Label(byGroup, id, SumIf(rs, Covered(more, byGroup, KeyOf(byGroup, id))))
    {
      PgStepAt(rs, done, g, byGroup, before, after, id);
    }
    forall k | k in after ensures exists id :: id in more && KeyOf(byGroup, id) == k {
      if k == key {
        assert g.runId in more;
      } else {
        var id :| id in done && KeyOf(byGroup, id) == k;
        assert id in more;
      }
    }
  }

  /** Covering one more runId adds exactly that group's totals, under its own key. */
  lemma {:induction false} CoverOneMore(rs: seq<Request>, done: set<Option<string>>, g: Group,
                                        byGroup: map<string, Workspace>, k: string)
    requires g.runId !in done && g.totals == SumIf(rs, WithRun(g.runId))
    ensures SumIf(rs, Covered(done + {g.runId}, byGroup, k)) ==
            if k == KeyOf(byGroup, g.runId) then SumIf(rs, Covered(done, byGroup, k)).Plus(g.totals)
            else SumIf(rs, Covered(done, byGroup, k))
  {
    if k == KeyOf(byGroup, g.runId) {
      SumIfSplit(rs, Covered(done, byGroup, k), WithRun(g.runId), Covered(done + {g.runId}, byGroup, k));
    } else {
      SumIfExt(rs, Covered(done + {g.runId}, byGroup, k), Covered(done, byGroup, k));
    }
  }

  lemma {:induction false} PartialIsWhole(rs: seq<Request>, done: set<Option<string>>,
                                          byGroup: map<string, Workspace>, out: map<string, Bucket>)
    requires done == (set r | r in rs :: r.runId)
    requires PartialStats(rs, done, byGroup, out)
    ensures WorkspaceStats(rs, byGroup, out)
  {
    forall r | r in rs
      ensures KeyOf(byGroup, r.runId) in out
      ensures out[KeyOf(byGroup, r.runId)] ==
              Label(byGroup, r.runId, SumIf(rs, UnderKey(byGroup, KeyOf(byGroup, r.runId))))
    {
      assert r.runId in done;
      var k := KeyOf(byGroup, r.runId);
      SumIfExt(rs, Covered(done, byGroup, k), UnderKey(byGroup, k));
    }
    forall k | k in out ensures exists r :: r in rs && KeyOf(byGroup, r.runId) == k {
      var id :| id in done && KeyOf(byGroup, id) == k;
      var r :| r in rs && r.runId == id;
    }
  }

  // ----- What follows for any table that meets the specification -----

  /** The rows determine the report, so the two backends agree. */
  lemma {:induction false} BackendsAgree(rs: seq<Request>, loops: seq<Loop>, workspaces: seq<Workspace>,
                                         mem: map<string, Bucket>, pg: map<string, Bucket>)
    requires Report(rs, loops, workspaces, mem) && Report(rs, loops, workspaces, pg)
    ensures mem == pg
  {
    var byGroup :| Attribution(loops, workspaces, byGroup) && WorkspaceStats(rs, byGroup, mem);
    ReportFor(rs, loops, workspaces, pg, byGroup);
    StatsUnique(rs, byGroup, mem, pg);
  }

  lemma {:induction false} ReportFor(rs: seq<Request>, loops: seq<Loop>, workspaces: seq<Workspace>,
                                     out: map<string, Bucket>, byGroup: map<string, Workspace>)
    requires Report(rs, loops, workspaces, out) && Attribution(loops, workspaces, byGroup)
    ensures WorkspaceStats(rs, byGroup, out)
  {
    var other :| Attribution(loops, workspaces, other) && WorkspaceStats(rs, other, out);
    AttributionUnique(loops, workspaces, byGroup, other);
  }

  lemma {:induction false} AttributionUnique(loops: seq<Loop>, workspaces: seq<Workspace>, a: map<string, Workspace>,
                                             b: map<string, Workspace>)
    requires Attribution(loops, workspaces, a) && Attribution(loops, workspaces, b)
    ensures a == b
  {
    forall g | g in a ensures g in b && a[g] == b[g] {
      OwnerUnique(loops, workspaces, g, a[g], b[g]);
    }
    assert a.Keys == b.Keys;
  }

  lemma {:induction false} StatsUnique(rs: seq<Request>, byGroup: map<string, Workspace>, mem: map<string, Bucket>,
                                       pg: map<string, Bucket>)
    requires WorkspaceStats(rs, byGroup, mem) && WorkspaceStats(rs, byGroup, pg)
    ensures mem == pg
  {
    forall k | k in mem ensures k in pg && mem[k] == pg[k] {
      var r :| r in rs && KeyOf(byGroup, r.runId) == k;
    }
    assert mem.Keys == pg.Keys;
  }

  /** Sum of the bucket totals over the listed keys. */
  ghost function SumBuckets(out: map<string, Bucket>, keys: seq<string>): Totals
    requires forall k :: k in keys ==> k in out
  {
    if keys == [] then Zero
    else SumBuckets(out, keys[..|keys| - 1]).Plus(out[keys[|keys| - 1]].totals)
  }

  ghost function UnderAny(byGroup: map<string, Workspace>, keys: seq<string>): Request -> bool {
    (r: Request) => KeyOf(byGroup, r.runId) in keys
  }

  lemma {:induction false} SumBucketsIs(rs: seq<Request>, byGroup: map<string, Workspace>, out: map<string, Bucket>,
                                        keys: seq<string>)
    requires WorkspaceStats(rs, byGroup, out)
    requires Distinct(keys) && forall k :: k in keys ==> k in out
    ensures SumBuckets(out, keys) == SumIf(rs, UnderAny(byGroup, keys))
  {
    if keys == [] {
      SumIfNone(rs, UnderAny(byGroup, keys));
    } else {
      var rest, k := keys[..|keys| - 1], keys[|keys| - 1];
      assert keys == rest + [k];
      SumBucketsIs(rs, byGroup, out, rest);
      SumIfSplit(rs, UnderAny(byGroup, rest), UnderKey(byGroup, k), UnderAny(byGroup, keys));
      assert k in out;
      BucketTotal(rs, byGroup, out, k);
    }
  }

  lemma {:induction false} BucketTotal(rs: seq<Request>, byGroup: map<string, Workspace>, out: map<string, Bucket>,
                                       k: string)
    requires WorkspaceStats(rs, byGroup, out) && k in out
    ensures out[k].totals == SumIf(rs, UnderKey(byGroup, k))
  {
    var r :| r in rs && KeyOf(byGroup, r.runId) == k;
  }

  /** Conservation: the buckets, listed once each, add up to the totals over the
      whole request table, so no request is lost or counted twice. */
  lemma {:induction false} BucketsAddUp(rs: seq<Request>, loops: seq<Loop>, workspaces: seq<Workspace>,
                                        out: map<string, Bucket>, keys: seq<string>)
    requires Report(rs, loops, workspaces, out)
    requires Distinct(keys) && forall k :: k in keys <==> k in out
    ensures SumBuckets(out, keys) == SumIf(rs, r => true)
    ensures SumBuckets(out, keys).requests == |rs|
  {
    var byGroup :| Attribution(loops, workspaces, byGroup) && WorkspaceStats(rs, byGroup, out);
    SumBucketsIs(rs, byGroup, out, keys);
    SumIfExt(rs, UnderAny(byGroup, keys), r => true);
    CountAll(rs);
  }

  lemma {:induction false} CountAll(rs: seq<Request>)
    ensures SumIf(rs, r => true).requests == |rs|
  {
    if rs != [] { CountAll(rs[..|rs| - 1]); }
  }

  // ----- What a report says, field by field -----

  /** OWNERSHIP. The workspace of a group is the one with the lowest id among those at the
      path of the group's newest loop (by time of creation, then by id) whose path is a
      workspace's. */
  lemma {:induction false} GroupOwnerIs(loops: seq<Loop>, workspaces: seq<Workspace>, l: Loop, w: Workspace)
    requires l in loops && w in workspaces && w.path == l.repoPath
    requires forall v :: v in workspaces && v.path == w.path ==> v == w || LexLess(w.id, v.id)
    requires forall m, v :: m in loops && v in workspaces && m.groupId == l.groupId && v.path == m.repoPath ==>
               m == l || m.createdAt < l.createdAt || (m.createdAt == l.createdAt && LexLess(m.id, l.id))
    ensures OwnsGroup(loops, workspaces, l.groupId, w)
  {
    assert Resolves(workspaces, l) && OwnsPath(workspaces, l.repoPath, w);
    assert Decides(loops, workspaces, l);
  }

  /** A group without such a loop has no workspace. */
  lemma {:induction false} NoGroupOwner(loops: seq<Loop>, workspaces: seq<Workspace>, group: string)
    requires forall l, w :: l in loops && w in workspaces && l.groupId == group ==> w.path != l.repoPath
    ensures forall w :: !OwnsGroup(loops, workspaces, group, w)
  {
  }

  /** The request belongs to a group whose workspace has this id. */
  ghost predicate OwnedBy(loops: seq<Loop>, workspaces: seq<Workspace>, id: string, r: Request) {
    r.runId.Some? && r.runId.value != "" && exists w :: OwnsGroup(loops, workspaces, r.runId.value, w) && w.id == id
  }

  ghost predicate OwnedByNone(loops: seq<Loop>, workspaces: seq<Workspace>, r: Request) {
    r.runId.Some? && r.runId.value != "" ==> forall w :: !OwnsGroup(loops, workspaces, r.runId.value, w)
  }

  ghost function ForWorkspace(loops: seq<Loop>, workspaces: seq<Workspace>, id: string): Request -> bool {
    (r: Request) => OwnedBy(loops, workspaces, id, r)
  }

  ghost function ForNobody(loops: seq<Loop>, workspaces: seq<Workspace>): Request -> bool {
    (r: Request) => OwnedByNone(loops, workspaces, r)
  }

  function InputOf(): Request -> int { (r: Request) => match r.inputTokens case None => 0 case Some(n) => n }
  function OutputOf(): Request -> int { (r: Request) => match r.outputTokens case None => 0 case Some(n) => n }
  function CostOf(): Request -> real { (r: Request) => match r.costUsd case None => 0.0 case Some(x) => x }

  function Total(rs: seq<Request>, field: Request -> int): int {
    if rs == [] then 0 else Total(rs[..|rs| - 1], field) + field(rs[|rs| - 1])
  }

  function TotalReal(rs: seq<Request>, field: Request -> real): real {
    if rs == [] then 0.0 else TotalReal(rs[..|rs| - 1], field) + field(rs[|rs| - 1])
  }

  /** The bucket's four totals are those of exactly these requests, each field on its own. */
  ghost predicate Adds(b: Bucket, mine: seq<Request>) {
    && b.totals.requests == |mine|
    && b.totals.inputTokens == Total(mine, InputOf())
    && b.totals.outputTokens == Total(mine, OutputOf())
    && b.totals.costUsd == TotalReal(mine, CostOf())
  }

  lemma {:induction false} SumFields(rs: seq<Request>, p: Request -> bool, b: Bucket)
    requires b.totals == SumIf(rs, p)
    ensures Adds(b, Filter(rs, p))
  {
    if rs != [] {
      var init, last := rs[..|rs| - 1], rs[|rs| - 1];
      SumFields(init, p, b.(totals := SumIf(init, p)));
      if p(last) { assert Filter(rs, p)[..|Filter(rs, p)| - 1] == Filter(init, p); }
    }
  }

  lemma {:induction false} KeyMeans(loops: seq<Loop>, workspaces: seq<Workspace>, byGroup: map<string, Workspace>,
                                    r: Request)
    requires Attribution(loops, workspaces, byGroup) && NoReservedId(workspaces)
    ensures forall id :: OwnedBy(loops, workspaces, id, r) <==> KeyOf(byGroup, r.runId) == id && id != Unattributed
    ensures OwnedByNone(loops, workspaces, r) <==> KeyOf(byGroup, r.runId) == Unattributed
  {
    if r.runId.Some? && r.runId.value != "" {
      var g := r.runId.value;
      if w :| OwnsGroup(loops, workspaces, g, w) {
        var l :| Decides(loops, workspaces, l) && l.groupId == g && OwnsPath(workspaces, l.repoPath, w);
        assert Owned(loops, workspaces, g);
      }
      if g in byGroup {
        assert OwnsGroup(loops, workspaces, g, byGroup[g]) && byGroup[g] in workspaces;
        forall w | OwnsGroup(loops, workspaces, g, w) ensures w == byGroup[g] {
          OwnerUnique(loops, workspaces, g, w, byGroup[g]);
        }
      }
    }
  }

  /** ONE BUCKET of a report, for a request: its id, its name and its totals. */
  ghost predicate BucketFor(rs: seq<Request>, loops: seq<Loop>, workspaces: seq<Workspace>, out: map<string, Bucket>,
                            w: Workspace) {
    && w.id in out && out[w.id].workspaceId == Some(w.id) && out[w.id].workspaceName == w.name
    && Adds(out[w.id], Filter(rs, ForWorkspace(loops, workspaces, w.id)))
  }

  ghost predicate BucketForNobody(rs: seq<Request>, loops: seq<Loop>, workspaces: seq<Workspace>,
                                  out: map<string, Bucket>) {
    && Unattributed in out && out[Unattributed].workspaceId == None && out[Unattributed].workspaceName == "Unattributed"
    && Adds(out[Unattributed], Filter(rs, ForNobody(loops, workspaces)))
  }

  lemma {:induction false} KeyTotals(rs: seq<Request>, byGroup: map<string, Workspace>, out: map<string, Bucket>,
                                     r: Request, mine: Request -> bool)
    requires WorkspaceStats(rs, byGroup, out) && r in rs
    requires forall x :: x in rs ==> (mine(x) <==> KeyOf(byGroup, x.runId) == KeyOf(byGroup, r.runId))
    ensures var key := KeyOf(byGroup, r.runId);
            && key in out && Adds(out[key], Filter(rs, mine))
            && out[key] == Label(byGroup, r.runId, out[key].totals)
  {
    var key := KeyOf(byGroup, r.runId);
    SumIfExt(rs, UnderKey(byGroup, key), mine);
    SumFields(rs, mine, out[key]);
  }

  lemma {:induction false} WorkspaceKeys(rs: seq<Request>, loops: seq<Loop>, workspaces: seq<Workspace>,
                                         byGroup: map<string, Workspace>, r: Request, w: Workspace)
    requires Attribution(loops, workspaces, byGroup) && NoReservedId(workspaces)
    requires r.runId.Some? && r.runId.value != "" && OwnsGroup(loops, workspaces, r.runId.value, w)
    ensures WorkspaceOf(byGroup, r.runId) == Some(w)
    ensures var mine := ForWorkspace(loops, workspaces, w.id);
            forall x :: x in rs ==> (mine(x) <==> KeyOf(byGroup, x.runId) == KeyOf(byGroup, r.runId))
  {
    var g := r.runId.value;
    var l :| Decides(loops, workspaces, l) && l.groupId == g && OwnsPath(workspaces, l.repoPath, w);
    assert Owned(loops, workspaces, g);
    OwnerUnique(loops, workspaces, g, w, byGroup[g]);
    forall x | x in rs
      ensures ForWorkspace(loops, workspaces, w.id)(x) <==> KeyOf(byGroup, x.runId) == KeyOf(byGroup, r.runId)
    {
      KeyMeans(loops, workspaces, byGroup, x);
    }
  }

  lemma {:induction false} NobodysKeys(rs: seq<Request>, loops: seq<Loop>, workspaces: seq<Workspace>,
                                       byGroup: map<string, Workspace>, r: Request)
    requires Attribution(loops, workspaces, byGroup) && NoReservedId(workspaces) && OwnedByNone(loops, workspaces, r)
    ensures WorkspaceOf(byGroup, r.runId) == None
    ensures var mine := ForNobody(loops, workspaces);
            forall x :: x in rs ==> (mine(x) <==> KeyOf(byGroup, x.runId) == KeyOf(byGroup, r.runId))
  {
    assert forall g :: g in byGroup ==> OwnsGroup(loops, workspaces, g, byGroup[g]);
    forall x | x in rs
      ensures ForNobody(loops, workspaces)(x) <==> KeyOf(byGroup, x.runId) == KeyOf(byGroup, r.runId)
    {
      KeyMeans(loops, workspaces, byGroup, x);
    }
  }

  lemma {:induction false} WorkspaceBucket(rs: seq<Request>, loops: seq<Loop>, workspaces: seq<Workspace>,
                                           byGroup: map<string, Workspace>, out: map<string, Bucket>, r: Request,
                                           w: Workspace)
    requires Attribution(loops, workspaces, byGroup) && WorkspaceStats(rs, byGroup, out) && NoReservedId(workspaces)
    requires r in rs && r.runId.Some? && r.runId.value != "" && OwnsGroup(loops, workspaces, r.runId.value, w)
    ensures BucketFor(rs, loops, workspaces, out, w)
  {
    WorkspaceKeys(rs, loops, workspaces, byGroup, r, w);
    KeyTotals(rs, byGroup, out, r, ForWorkspace(loops, workspaces, w.id));
  }

  lemma {:induction false} NobodysBucket(rs: seq<Request>, loops: seq<Loop>, workspaces: seq<Workspace>,
                                         byGroup: map<string, Workspace>, out: map<string, Bucket>, r: Request)
    requires Attribution(loops, workspaces, byGroup) && WorkspaceStats(rs, byGroup, out) && NoReservedId(workspaces)
    requires r in rs && OwnedByNone(loops, workspaces, r)
    ensures BucketForNobody(rs, loops, workspaces, out)
  {
    NobodysKeys(rs, loops, workspaces, byGroup, r);
    KeyTotals(rs, byGroup, out, r, ForNobody(loops, workspaces));
  }

  /** A request that is why a report has a bucket under `k`. */
  ghost predicate Causes(loops: seq<Loop>, workspaces: seq<Workspace>, k: string, r: Request) {
    if k == Unattributed then OwnedByNone(loops, workspaces, r) else OwnedBy(loops, workspaces, k, r)
  }

  lemma {:induction false} BucketHasRequest(rs: seq<Request>, loops: seq<Loop>, workspaces: seq<Workspace>,
                                            byGroup: map<string, Workspace>, out: map<string, Bucket>, k: string)
    requires Attribution(loops, workspaces, byGroup) && WorkspaceStats(rs, byGroup, out) && NoReservedId(workspaces)
    requires k in out
    ensures exists r :: r in rs && Causes(loops, workspaces, k, r)
  {
    var r :| r in rs && KeyOf(byGroup, r.runId) == k;
    KeyMeans(loops, workspaces, byGroup, r);
    assert Causes(loops, workspaces, k, r);
  }

  lemma {:induction false} ReportedBy(rs: seq<Request>, loops: seq<Loop>, workspaces: seq<Workspace>,
                                      out: map<string, Bucket>) returns (byGroup: map<string, Workspace>)
    requires Report(rs, loops, workspaces, out)
    ensures Attribution(loops, workspaces, byGroup) && WorkspaceStats(rs, byGroup, out)
  {
    byGroup :| Attribution(loops, workspaces, byGroup) && WorkspaceStats(rs, byGroup, out);
  }

  /** WHAT A REPORT SAYS. The workspace of a request's group has a bucket under its id, with
      its name, whose totals are, field by field, those of exactly the requests whose groups
      belong to it. */
  lemma {:induction false} ReportNamesWorkspace(rs: seq<Request>, loops: seq<Loop>, workspaces: seq<Workspace>,
                                                out: map<string, Bucket>, r: Request, w: Workspace)
    requires Report(rs, loops, workspaces, out) && NoReservedId(workspaces)
    requires r in rs && r.runId.Some? && r.runId.value != "" && OwnsGroup(loops, workspaces, r.runId.value, w)
    ensures w.id in out && out[w.id].workspaceId == Some(w.id) && out[w.id].workspaceName == w.name
    ensures Adds(out[w.id], Filter(rs, ForWorkspace(loops, workspaces, w.id)))
  {
    var byGroup := ReportedBy(rs, loops, workspaces, out);
    WorkspaceBucket(rs, loops, workspaces, byGroup, out, r, w);
  }

  /** The requests without a workspace, and no others, are in the unattributed bucket. */
  lemma {:induction false} ReportNamesNobody(rs: seq<Request>, loops: seq<Loop>, workspaces: seq<Workspace>,
                                             out: map<string, Bucket>, r: Request)
    requires Report(rs, loops, workspaces, out) && NoReservedId(workspaces)
    requires r in rs && OwnedByNone(loops, workspaces, r)
    ensures Unattributed in out
    ensures out[Unattributed].workspaceId == None && out[Unattributed].workspaceName == "Unattributed"
    ensures Adds(out[Unattributed], Filter(rs, ForNobody(loops, workspaces)))
  {
    var byGroup := ReportedBy(rs, loops, workspaces, out);
    NobodysBucket(rs, loops, workspaces, byGroup, out, r);
  }

  /** There is no bucket without a request that belongs in it. */
  lemma {:induction false} ReportNoOthers(rs: seq<Request>, loops: seq<Loop>, workspaces: seq<Workspace>,
                                          out: map<string, Bucket>, k: string)
    requires Report(rs, loops, workspaces, out) && NoReservedId(workspaces) && k in out
    ensures exists r :: r in rs && Causes(loops, workspaces, k, r)
  {
    var byGroup := ReportedBy(rs, loops, workspaces, out);
    BucketHasRequest(rs, loops, workspaces, byGroup, out, k);
  }
}
