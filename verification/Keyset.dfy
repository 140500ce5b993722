/**
 Keyset pagination: the run history (server/storage.ts, listTaskGroupHistory, read
 through the route in server/routes/activity.ts) and the iteration list.

 A client asks for page after page, each time passing the cursor made from the last
 row it saw. The table may change between two requests.
 */
module Keyset {

  import opened Wrappers
  import opened Sorting

  // ----- Walking through pages -----

  /** Rows, last row seen (`None` at first), limit. */
  type Pager<!T> = (seq<T>, Option<T>, nat) -> seq<T>

  /** One request: the rows in the table at that time, and the limit asked for. */
  datatype Request<T> = Request(rows: seq<T>, limit: nat)

  /** Finished (the route returned no cursor), or about to ask for what follows `last`. */
  datatype Client<T> = Done | At(last: Option<T>)

  function Take<T>(s: seq<T>, n: nat): seq<T> {
    if |s| <= n then s else s[..n]
  }

  /** The route hands out a cursor exactly when the page is full. */
  function Next<T>(page: seq<T>, limit: nat): Client<T> {
    if |page| == limit && page != [] then At(Some(page[|page| - 1])) else Done
  }

  function Walk<T>(page: Pager<T>, reqs: seq<Request<T>>, client: Client<T>): (seq<T>, Client<T>) {
    if reqs == [] || client.Done? then ([], client)
    else
      var rows := page(reqs[0].rows, client.last, reqs[0].limit);
      var (more, end) := Walk(page, reqs[1..], Next(rows, reqs[0].limit));
      (rows + more, end)
  }

  predicate Follows<T>(before: (T, T) -> bool, last: Option<T>, x: T) {
    last.None? || before(last.value, x)
  }

  function Following<T>(before: (T, T) -> bool, last: Option<T>): T -> bool {
    (x: T) => Follows(before, last, x)
  }

  /** The page the documentation promises: the first rows that follow the last one. */
  function Page<T>(before: (T, T) -> bool, rows: seq<T>, last: Option<T>, limit: nat): seq<T> {
    Take(Filter(Sort(before, rows), Following(before, last)), limit)
  }

  /** What the client has still to see of the sorted rows. */
  function Remaining<T>(before: (T, T) -> bool, sorted: seq<T>, client: Client<T>): seq<T> {
    if client.Done? then [] else Filter(sorted, Following(before, client.last))
  }

  ghost predicate Ordered<T(!new)>(before: (T, T) -> bool, rows: seq<T>) {
    StrictWeak(before) && NoTies(before, rows) && Distinct(rows)
  }

  ghost function Elements<T>(rows: seq<T>): set<T> { set x | x in rows }

  ghost predicate SameBelow<T(!new)>(before: (T, T) -> bool, last: Option<T>, rows: seq<T>, base: set<T>) {
    forall x :: Follows(before, last, x) ==> (x in rows <==> x in base)
  }

  /** Below the client's position every request finds exactly the rows of `base`: rows
      come and go only above it. */
  ghost predicate ChangesAbove<T(!new)>(before: (T, T) -> bool, page: Pager<T>, base: set<T>, reqs: seq<Request<T>>,
      client: Client<T>) {
    reqs != [] && client.At? ==>
      && SameBelow(before, client.last, reqs[0].rows, base)
      && ChangesAbove(before, page, base, reqs[1..], Next(page(reqs[0].rows, client.last, reqs[0].limit),
          reqs[0].limit))
  }

  /** The pager gives the promised page on a request a client can make. */
  ghost predicate FaithfulOn<T(!new)>(before: (T, T) -> bool, page: Pager<T>, base: set<T>, q: Request<T>) {
    forall last: Option<T> :: (last.Some? ==> last.value in base) && SameBelow(before, last, q.rows, base) ==>
        page(q.rows, last, q.limit) == Page(before, q.rows, last, q.limit)
  }

  lemma {:induction false} SortedRows<T(!new)>(before: (T, T) -> bool, rows: seq<T>)
    requires Ordered(before, rows)
    ensures StrictlySorted(before, Sort(before, rows)) && |Sort(before, rows)| == |rows|
    ensures Elements(Sort(before, rows)) == Elements(rows)
  {
    SortStrict(before, rows);
    SortPermutes(before, rows);
    SameElements(Sort(before, rows), rows);
  }

  lemma {:induction false} SortedSame<T(!new)>(before: (T, T) -> bool, rows: seq<T>)
    requires Ordered(before, rows)
    ensures StrictlySorted(before, Sort(before, rows)) && forall x :: x in Sort(before, rows) <==> x in rows
  {
    SortStrict(before, rows);
    SortPermutes(before, rows);
    SameElements(Sort(before, rows), rows);
  }

  /** In sorted rows, those that follow the one at `p - 1` are the tail from `p`. */
  lemma {:induction false} TailFollows<T(!new)>(before: (T, T) -> bool, s: seq<T>, p: nat, sorted: seq<T>,
      last: Option<T>)
    requires StrictWeak(before) && StrictlySorted(before, s) && p <= |s|
    requires last == if p == 0 then None else Some(s[p - 1])
    requires StrictlySorted(before, sorted) && SameBelow(before, last, sorted, Elements(s))
    ensures Filter(sorted, Following(before, last)) == s[p..]
  {
    var f := Filter(sorted, Following(before, last));
    FilterKeepsStrict(before, sorted, Following(before, last));
    FilterIn(sorted, Following(before, last));
    if p > 0 { assert forall k :: 0 <= k < p - 1 ==> before(s[k], s[p - 1]); }
    forall x ensures x in f <==> x in s[p..] {
      if x in s[p..] {
        var k :| p <= k < |s| && s[k] == x;
        assert x in Elements(s) && Follows(before, last, x);
      }
      if x in Elements(s) && Follows(before, last, x) {
        var k :| 0 <= k < |s| && s[k] == x;
        assert k >= p;
        assert x == s[p..][k - p];
      }
    }
    StrictlySortedUnique(before, f, s[p..]);
  }

  function LastAt<T>(s: seq<T>, p: nat): Option<T>
    requires p <= |s|
  {
    if p == 0 then None else Some(s[p - 1])
  }

  /** From any position the request is answered with the next stretch of the sorted rows. */
  ghost predicate Stretches<T(!new)>(before: (T, T) -> bool, page: Pager<T>, s: seq<T>, q: Request<T>) {
    forall p :: 0 <= p <= |s| && SameBelow(before, LastAt(s, p), q.rows, Elements(s)) ==>
        page(q.rows, LastAt(s, p), q.limit) == Take(s[p..], q.limit)
  }

  lemma {:induction false} FaithfulStretches<T(!new)>(before: (T, T) -> bool, page: Pager<T>, s: seq<T>, q: Request<T>)
    requires Ordered(before, q.rows) && StrictlySorted(before, s) && FaithfulOn(before, page, Elements(s), q)
    ensures Stretches(before, page, s, q)
  {
    SortedRows(before, q.rows);
    assert forall x :: x in Sort(before, q.rows) <==> x in Elements(Sort(before, q.rows));
    assert forall x :: x in q.rows <==> x in Elements(q.rows);
    forall p | 0 <= p <= |s| && SameBelow(before, LastAt(s, p), q.rows, Elements(s))
      ensures page(q.rows, LastAt(s, p), q.limit) == Take(s[p..], q.limit)
    {
      TailFollows(before, s, p, Sort(before, q.rows), LastAt(s, p));
    }
  }

  /** Every request, from position `p` on, is answered with the next stretch. */
  ghost predicate Along<T(!new)>(page: Pager<T>, s: seq<T>, reqs: seq<Request<T>>, p: nat)
    requires p <= |s|
  {
    reqs != [] ==>
      && reqs[0].limit >= 1 && page(reqs[0].rows, LastAt(s, p), reqs[0].limit) == Take(s[p..], reqs[0].limit)
      && (p + reqs[0].limit <= |s| ==> Along(page, s, reqs[1..], p + reqs[0].limit))
  }

  lemma {:induction false} NextAlong<T(!new)>(page: Pager<T>, s: seq<T>, q: Request<T>, p: nat)
    requires p <= |s| && q.limit >= 1 && page(q.rows, LastAt(s, p), q.limit) == Take(s[p..], q.limit)
    ensures Next(page(q.rows, LastAt(s, p), q.limit), q.limit) ==
            if p + q.limit <= |s| then At(LastAt(s, p + q.limit)) else Done
  {
  }

  lemma {:induction false} TakeMore<T>(s: seq<T>, p: nat, limit: nat, q: nat)
    requires p <= |s| && p + limit <= q <= |s|
    ensures Take(s[p..], limit) + s[p + limit..q] == s[p..q]
  {
  }

  lemma {:induction false} RemainingFrom<T(!new)>(before: (T, T) -> bool, s: seq<T>, p: nat)
    requires StrictWeak(before) && StrictlySorted(before, s) && p <= |s|
    ensures Remaining(before, s, At(LastAt(s, p))) == s[p..]
  {
    TailFollows(before, s, p, s, LastAt(s, p));
  }

  ghost predicate Served<T(!new)>(before: (T, T) -> bool, page: Pager<T>, s: seq<T>, reqs: seq<Request<T>>) {
    forall q :: q in reqs ==> q.limit >= 1 && Stretches(before, page, s, q)
  }

  lemma {:induction false} ServedRest<T(!new)>(before: (T, T) -> bool, page: Pager<T>, s: seq<T>, reqs: seq<Request<T>>)
    requires Served(before, page, s, reqs) && reqs != []
    ensures reqs[0].limit >= 1 && Stretches(before, page, s, reqs[0]) && Served(before, page, s, reqs[1..])
  {
    assert reqs[0] in reqs;
  }

  lemma {:induction false} ChangesAlong<T(!new)>(before: (T, T) -> bool, page: Pager<T>, s: seq<T>,
      reqs: seq<Request<T>>,
      p: nat)
    requires p <= |s|
    requires Served(before, page, s, reqs) && ChangesAbove(before, page, Elements(s), reqs, At(LastAt(s, p)))
    ensures Along(page, s, reqs, p)
    decreases |reqs|
  {
    if reqs != [] {
      ServedRest(before, page, s, reqs);
      NextAlong(page, s, reqs[0], p);
      if p + reqs[0].limit <= |s| { ChangesAlong(before, page, s, reqs[1..], p + reqs[0].limit); }
    }
  }

  /** Where a walk from position `p` gets: it showed the rows up to `q`, and is there or
      finished at the end. */
  lemma {:induction false} WalkFrom<T(!new)>(page: Pager<T>, s: seq<T>, reqs: seq<Request<T>>, p: nat) returns (q: nat)
    requires p <= |s| && Along(page, s, reqs, p)
    ensures p <= q <= |s| && Walk(page, reqs, At(LastAt(s, p))).0 == s[p..q]
    ensures var client := Walk(page, reqs, At(LastAt(s, p))).1;
            client == At(LastAt(s, q)) || (client == Done && q == |s|)
    ensures |reqs| > |s| - p ==> Walk(page, reqs, At(LastAt(s, p))).1 == Done
    decreases |reqs|
  {
    q := p;
    if reqs != [] {
      var n := p + reqs[0].limit;
      NextAlong(page, s, reqs[0], p);
      if n <= |s| {
        q := WalkFrom(page, s, reqs[1..], n);
        TakeMore(s, p, reqs[0].limit, q);
      } else {
        q := |s|;
      }
    }
  }

  /** The table only gains rows, and only ahead of all rows of `base`. */
  ghost predicate Gains<T(!new)>(before: (T, T) -> bool, base: set<T>, rows: seq<T>) {
    && (forall x :: x in base ==> x in rows)
    && (forall x, b :: x in rows && x !in base && b in base ==> before(x, b))
  }

  lemma {:induction false} GainsSameBelow<T(!new)>(before: (T, T) -> bool, base: set<T>, rows: seq<T>, last: T)
    requires StrictWeak(before) && Gains(before, base, rows) && last in base
    ensures SameBelow(before, Some(last), rows, base)
  {
    forall x | before(last, x) && x in rows ensures x in base {
      assert x !in base ==> before(x, last);
    }
  }

  lemma {:induction false} SameStart<T(!new)>(before: (T, T) -> bool, base: set<T>, rows: seq<T>)
    requires Elements(rows) == base
    ensures SameBelow(before, None, rows, base)
  {
    assert forall x :: x in rows <==> x in Elements(rows);
  }

  /** Rows that arrive on top, as finished runs and new iterations do, are always above
      the client's position. */
  lemma {:induction false} GainsAreAbove<T(!new)>(before: (T, T) -> bool, page: Pager<T>, s: seq<T>,
      reqs: seq<Request<T>>, p: nat)
    requires StrictWeak(before) && p <= |s| && Served(before, page, s, reqs)
    requires forall q :: q in reqs ==> Gains(before, Elements(s), q.rows)
    requires p == 0 && reqs != [] ==> Elements(reqs[0].rows) == Elements(s)
    ensures ChangesAbove(before, page, Elements(s), reqs, At(LastAt(s, p)))
    decreases |reqs|
  {
    if reqs != [] {
      var q, n := reqs[0], p + reqs[0].limit;
      assert q in reqs;
      ServedRest(before, page, s, reqs);
      if p > 0 {
        GainsSameBelow(before, Elements(s), q.rows, s[p - 1]);
      } else {
        SameStart(before, Elements(s), q.rows);
      }
      NextAlong(page, s, q, p);
      if n <= |s| { GainsAreAbove(before, page, s, reqs[1..], n); }
    }
  }

  /** EXACT PAGING. Whatever the limits, and whatever is inserted or removed above the
      client's position between two requests, the rows shown followed by the rows still
      to show are the sorted rows of the first request: nothing is repeated or skipped.
      The client finishes, after at most one request more than there are rows. */
  lemma {:induction false} PagingExact<T(!new)>(before: (T, T) -> bool, page: Pager<T>, base: seq<T>,
      reqs: seq<Request<T>>)
    requires Ordered(before, base)
    requires forall q :: q in reqs ==>
             q.limit >= 1 && Ordered(before, q.rows) && FaithfulOn(before, page, Elements(base), q)
    requires ChangesAbove(before, page, Elements(base), reqs, At(None))
    ensures var (shown, client) := Walk(page, reqs, At(None));
            && shown + Remaining(before, Sort(before, base), client) == Sort(before, base)
            && (|reqs| > |base| ==> client == Done && shown == Sort(before, base))
  {
    SortedRows(before, base);
    var s := Sort(before, base);
    forall q | q in reqs ensures Stretches(before, page, s, q) { FaithfulStretches(before, page, s, q); }
    ChangesAlong(before, page, s, reqs, 0);
    var q := WalkFrom(page, s, reqs, 0);
    RemainingFrom(before, s, q);
    assert s[0..q] + s[q..] == s;
  }

  /** GROWING TABLES. If rows only arrive ahead of all rows of the first request, following
      the cursors repeats and skips none of those. */
  lemma {:induction false} GrowingPagesExact<T(!new)>(before: (T, T) -> bool, page: Pager<T>, base: seq<T>,
      reqs: seq<Request<T>>)
    requires Ordered(before, base)
    requires forall q :: q in reqs ==>
             q.limit >= 1 && Ordered(before, q.rows) && FaithfulOn(before, page, Elements(base), q)
    requires forall q :: q in reqs ==> Gains(before, Elements(base), q.rows)
    requires reqs != [] ==> Elements(reqs[0].rows) == Elements(base)
    ensures var (shown, client) := Walk(page, reqs, At(None));
            && shown + Remaining(before, Sort(before, base), client) == Sort(before, base)
            && (|reqs| > |base| ==> client == Done && shown == Sort(before, base))
  {
    var s := Sort(before, base);
    SortedRows(before, base);
    forall q | q in reqs ensures Stretches(before, page, s, q) { FaithfulStretches(before, page, s, q); }
    GainsAreAbove(before, page, s, reqs, 0);
    PagingExact(before, page, base, reqs);
  }

  // ----- Any changes between requests -----

  /** Among rows that meet `ok` the request is answered with the promised page, whatever
      the client saw last. */
  ghost predicate AnswersOn<T(!new)>(before: (T, T) -> bool, page: Pager<T>, ok: T -> bool, q: Request<T>) {
    && q.limit >= 1 && Ordered(before, q.rows) && (forall x :: x in q.rows ==> ok(x))
    && forall last: Option<T> :: (last.Some? ==> ok(last.value)) ==>
         page(q.rows, last, q.limit) == Page(before, q.rows, last, q.limit)
  }

  /** One promised page: sorted rows that follow the last one; and each row of the table
      that does is on it or follows the client's next position. */
  lemma {:induction false} PageCovers<T(!new)>(before: (T, T) -> bool, rows: seq<T>, last: Option<T>, limit: nat)
    requires Ordered(before, rows) && limit >= 1
    ensures var page := Page(before, rows, last, limit);
            && StrictlySorted(before, page) && (forall x :: x in page ==> x in rows && Follows(before, last, x))
            && forall x :: x in rows && Follows(before, last, x) ==>
                 x in page || (Next(page, limit).At? && Follows(before, Next(page, limit).last, x))
  {
    var sorted, keep := Sort(before, rows), Following(before, last);
    var all, page := Filter(sorted, keep), Page(before, rows, last, limit);
    SortedSame(before, rows);
    FilterKeepsStrict(before, sorted, keep);
    FilterIn(sorted, keep);
    forall x | x in page ensures x in all && Following(before, last)(x) {
      var k :| 0 <= k < |page| && page[k] == x;
      assert all[k] == x;
    }
    assert forall i :: 0 <= i < |page| ==> all[i] == page[i] && page[i] in page;
    forall x | x in all && x !in page ensures |page| == limit && before(page[limit - 1], x) {
      var k :| 0 <= k < |all| && all[k] == x;
      assert k >= |page|;
    }
  }

  /** A step of the walk. */
  lemma {:induction false} JoinSorted<T(!new)>(before: (T, T) -> bool, page: seq<T>, more: seq<T>)
    requires StrictWeak(before) && StrictlySorted(before, page) && StrictlySorted(before, more)
    requires page != [] ==> forall x :: x in more ==> before(page[|page| - 1], x)
    requires page == [] ==> more == []
    ensures StrictlySorted(before, page + more)
  {
    var all, n := page + more, |page|;
    forall i, j | 0 <= i < j < |all| ensures before(all[i], all[j]) {
      if i < n <= j {
        assert all[j] in more && before(page[n - 1], all[j]);
        assert i < n - 1 ==> before(page[i], page[n - 1]);
      }
    }
  }

  /** What a walk from `last` shows is strictly sorted, and each of the given rows was shown
      or still follows the client's position. */
  ghost predicate Covers<T(!new)>(before: (T, T) -> bool, last: Option<T>, rows: iset<T>, shown: seq<T>,
      client: Client<T>) {
    && StrictlySorted(before, shown) && (forall x :: x in shown ==> Follows(before, last, x))
    && forall x :: x in rows && Follows(before, last, x) ==>
         x in shown || (client.At? && Follows(before, client.last, x))
  }

  /** The rows present in all requests. */
  ghost function InAll<T(!new)>(reqs: seq<Request<T>>): iset<T> {
    iset x | InEach(reqs, x)
  }

  ghost predicate InEach<T(!new)>(reqs: seq<Request<T>>, x: T) {
    forall q :: q in reqs ==> x in q.rows
  }

  lemma {:induction false} InAllRest<T(!new)>(reqs: seq<Request<T>>)
    requires reqs != []
    ensures forall x :: x in InAll(reqs) ==> x in reqs[0].rows && x in InAll(reqs[1..])
  {
    assert reqs[0] in reqs;
  }

  lemma {:induction false} CoverStep<T(!new)>(before: (T, T) -> bool, rows: seq<T>, last: Option<T>, limit: nat,
      here: iset<T>, rest: iset<T>, more: seq<T>, client: Client<T>)
    requires Ordered(before, rows) && limit >= 1
    requires forall x :: x in here ==> x in rows && x in rest
    requires var next := Next(Page(before, rows, last, limit), limit);
             if next.At? then Covers(before, next.last, rest, more, client) else more == [] && client.Done?
    ensures Covers(before, last, here, Page(before, rows, last, limit) + more, client)
  {
    var page := Page(before, rows, last, limit);
    PageCovers(before, rows, last, limit);
    if Next(page, limit).At? {
      JoinSorted(before, page, more);
      forall x | x in more ensures Follows(before, last, x) {
        assert before(page[|page| - 1], x) && page[|page| - 1] in page;
      }
    } else {
      assert page + more == page;
    }
  }

  /** ANY CHANGES. Whatever arrives, leaves or moves between the requests, anywhere: the
      rows shown are strictly sorted, so nothing is shown twice, and every row present in
      all requests was shown or still follows the client's position. */
  lemma {:induction false} AnyChanges<T(!new)>(before: (T, T) -> bool, page: Pager<T>, ok: T -> bool,
      reqs: seq<Request<T>>, last: Option<T>)
    requires StrictWeak(before) && (last.Some? ==> ok(last.value))
    requires forall q :: q in reqs ==> AnswersOn(before, page, ok, q)
    ensures var (shown, client) := Walk(page, reqs, At(last)); Covers(before, last, InAll(reqs), shown, client)
    decreases |reqs|
  {
    if reqs != [] {
      var q, rest := reqs[0], reqs[1..];
      assert q in reqs;
      var rows := Page(before, q.rows, last, q.limit);
      var next := Next(rows, q.limit);
      PageCovers(before, q.rows, last, q.limit);
      InAllRest(reqs);
      if next.At? {
        assert next.last.value in rows;
        AnyChanges(before, page, ok, rest, next.last);
      }
      var (more, client) := Walk(page, rest, next);
      CoverStep(before, q.rows, last, q.limit, InAll(reqs), InAll(rest), more, client);
    }
  }

  // ----- Iterations of a group -----

  const TaskGroupV2MaxLimit := 100

  datatype Iteration = Iteration(id: string, number: int)

  function HigherNumber(): (Iteration, Iteration) -> bool { (a: Iteration, b: Iteration) => a.number > b.number }

  function BelowNumber(cursor: int): Iteration -> bool { (it: Iteration) => it.number < cursor }

  /** getIterations, for the iterations of the group. */
  function GetIterations(rows: seq<Iteration>, limit: nat, cursor: Option<int>): seq<Iteration> {
    var most := if limit < TaskGroupV2MaxLimit then limit else TaskGroupV2MaxLimit;
    var sorted := Sort(HigherNumber(), rows);
    Take(if cursor.Some? then Filter(sorted, BelowNumber(cursor.value)) else sorted, most)
  }

  function IterationPager(): Pager<Iteration> {
    (rows: seq<Iteration>, last: Option<Iteration>, limit: nat) =>
      GetIterations(rows, limit, if last.Some? then Some(last.value.number) else None)
  }

  ghost predicate UniqueNumbers(rows: seq<Iteration>) {
    forall i, j :: 0 <= i < j < |rows| ==> rows[i].number != rows[j].number
  }

  lemma {:induction false} IterationPage(rows: seq<Iteration>, last: Option<Iteration>, limit: nat)
    requires limit <= TaskGroupV2MaxLimit
    ensures IterationPager()(rows, last, limit) == Page(HigherNumber(), rows, last, limit)
  {
    var before, sorted := HigherNumber(), Sort(HigherNumber(), rows);
    match last
    case None =>
      FilterAll(sorted, Following(before, last));
      assert GetIterations(rows, limit, None) == Take(sorted, limit);
    case Some(it) =>
      FilterAgree(sorted, BelowNumber(it.number), Following(before, last));
      assert GetIterations(rows, limit, Some(it.number)) == Take(Filter(sorted, BelowNumber(it.number)), limit);
  }

  lemma {:induction false} IterationPageFaithful(base: set<Iteration>, q: Request<Iteration>)
    requires q.limit <= TaskGroupV2MaxLimit
    ensures FaithfulOn(HigherNumber(), IterationPager(), base, q)
  {
    forall last: Option<Iteration>
        ensures IterationPager()(q.rows, last, q.limit) == Page(HigherNumber(), q.rows, last, q.limit) {
      IterationPage(q.rows, last, q.limit);
    }
  }

  lemma {:induction false} NumbersOrder(rows: seq<Iteration>)
    requires UniqueNumbers(rows)
    ensures Ordered(HigherNumber(), rows)
  {
  }

  /** ITERATION PAGES. With numbers unique in the group, following the cursors shows every
      iteration once, newest first, even when iterations are started meanwhile. */
  lemma {:induction false} IterationPagesExact(base: seq<Iteration>, reqs: seq<Request<Iteration>>)
    requires UniqueNumbers(base)
    requires forall q :: q in reqs ==> 1 <= q.limit <= TaskGroupV2MaxLimit && UniqueNumbers(q.rows)
    requires ChangesAbove(HigherNumber(), IterationPager(), Elements(base), reqs, At(None))
    ensures var (shown, client) := Walk(IterationPager(), reqs, At(None));
            && shown + Remaining(HigherNumber(), Sort(HigherNumber(), base), client) == Sort(HigherNumber(), base)
            && (|reqs| > |base| ==> client == Done && shown == Sort(HigherNumber(), base))
  {
    NumbersOrder(base);
    forall q | q in reqs
      ensures Ordered(HigherNumber(), q.rows) && FaithfulOn(HigherNumber(), IterationPager(), Elements(base), q)
    {
      NumbersOrder(q.rows);
      IterationPageFaithful(Elements(base), q);
    }
    PagingExact(HigherNumber(), IterationPager(), base, reqs);
  }

  /** Iterations started meanwhile have higher numbers: nothing is repeated or skipped. */
  lemma {:induction false} GrowingIterationPages(base: seq<Iteration>, reqs: seq<Request<Iteration>>)
    requires UniqueNumbers(base)
    requires forall q :: q in reqs ==> 1 <= q.limit <= TaskGroupV2MaxLimit && UniqueNumbers(q.rows)
    requires forall q :: q in reqs ==> Gains(HigherNumber(), Elements(base), q.rows)
    requires reqs != [] ==> Elements(reqs[0].rows) == Elements(base)
    ensures var (shown, client) := Walk(IterationPager(), reqs, At(None));
            && shown + Remaining(HigherNumber(), Sort(HigherNumber(), base), client) == Sort(HigherNumber(), base)
            && (|reqs| > |base| ==> client == Done && shown == Sort(HigherNumber(), base))
  {
    NumbersOrder(base);
    forall q | q in reqs
      ensures Ordered(HigherNumber(), q.rows) && FaithfulOn(HigherNumber(), IterationPager(), Elements(base), q)
    {
      NumbersOrder(q.rows);
      IterationPageFaithful(Elements(base), q);
    }
    GrowingPagesExact(HigherNumber(), IterationPager(), base, reqs);
  }

  /** Iteration pages under any changes. */
  lemma {:induction false} IterationPagesAnyChanges(reqs: seq<Request<Iteration>>)
    requires forall q :: q in reqs ==> 1 <= q.limit <= TaskGroupV2MaxLimit && UniqueNumbers(q.rows)
    ensures var (shown, client) := Walk(IterationPager(), reqs, At(None));
            Covers(HigherNumber(), None, InAll(reqs), shown, client)
  {
    var ok := (it: Iteration) => true;
    forall q | q in reqs ensures AnswersOn(HigherNumber(), IterationPager(), ok, q) {
      NumbersOrder(q.rows);
      forall last: Option<Iteration>
        ensures IterationPager()(q.rows, last, q.limit) == Page(HigherNumber(), q.rows, last, q.limit)
      {
        IterationPage(q.rows, last, q.limit);
      }
    }
    AnyChanges(HigherNumber(), IterationPager(), ok, reqs, None);
  }

  // ----- Run history -----

  datatype Row = Row(id: string, completedAt: Option<int>)

  datatype Cursor = Cursor(completedAt: int, id: string)

  datatype Store = Mem | Pg

  /** (completedAt descending, id descending). A missing completedAt is -Infinity in
      memory; descending SQL order puts it first. */
  predicate Ahead(nullsFirst: bool, a: Row, b: Row) {
    if a.completedAt == b.completedAt then LexLess(b.id, a.id)
    else if a.completedAt.None? then nullsFirst
    else if b.completedAt.None? then !nullsFirst
    else a.completedAt.value > b.completedAt.value
  }

  function Order(nullsFirst: bool): (Row, Row) -> bool { (a: Row, b: Row) => Ahead(nullsFirst, a, b) }

  function Newest(): (Row, Row) -> bool { Order(false) }

  /** The filter a cursor stands for. SQL drops the rows without a completedAt. */
  predicate Below(store: Store, cursor: Cursor, r: Row) {
    if r.completedAt.None? then store.Mem?
    else r.completedAt.value < cursor.completedAt ||
         (r.completedAt.value == cursor.completedAt && LexLess(r.id, cursor.id))
  }

  function BelowCursor(store: Store, cursor: Cursor): Row -> bool { (r: Row) => Below(store, cursor, r) }

  /** listTaskGroupHistory (keysetPage in memory). */
  function StorePage(store: Store, rows: seq<Row>, cursor: Option<Cursor>, limit: nat): seq<Row> {
    Take(StoreRows(store, rows, cursor), limit)
  }

  /** The route writes a missing completedAt into the cursor as the epoch. */
  function CursorOf(last: Option<Row>): Option<Cursor> {
    if last.None? then None
    else Some(Cursor(if last.value.completedAt.Some? then last.value.completedAt.value else 0, last.value.id))
  }

  /** The route sorts what the store returned once more. */
  function RoutePage(store: Store, rows: seq<Row>, last: Option<Row>, limit: nat): seq<Row> {
    Take(Sort(Newest(), StorePage(store, rows, CursorOf(last), limit)), limit)
  }

  function HistoryPager(store: Store): Pager<Row> {
    (rows: seq<Row>, last: Option<Row>, limit: nat) => RoutePage(store, rows, last, limit)
  }

  ghost predicate UniqueIds(rows: seq<Row>) {
    forall i, j :: 0 <= i < j < |rows| ==> rows[i].id != rows[j].id
  }

  predicate Dated(r: Row) { r.completedAt.Some? }

  lemma {:induction false} OrderStrictWeak(nullsFirst: bool)
    ensures StrictWeak(Order(nullsFirst))
  {
    LexStrictTotal();
  }

  lemma {:induction false} OrderOrders(nullsFirst: bool, rows: seq<Row>)
    requires UniqueIds(rows)
    ensures Ordered(Order(nullsFirst), rows)
  {
    OrderStrictWeak(nullsFirst);
    forall x, y | x in rows && y in rows && x != y ensures Ahead(nullsFirst, x, y) || Ahead(nullsFirst, y, x) {
      LexTotal(x.id, y.id);
    }
  }

  /** Sorted rows are not moved by sorting. */
  lemma {:induction false} SortIdle<T(!new)>(before: (T, T) -> bool, s: seq<T>)
    requires StrictWeak(before) && StrictlySorted(before, s)
    ensures Sort(before, s) == s
  {
    StrictlySortedDistinct(before, s);
    SortStrict(before, s);
    SortPermutes(before, s);
    SameElements(Sort(before, s), s);
    StrictlySortedUnique(before, Sort(before, s), s);
  }

  /** What the store returns before it cuts the page off. */
  function StoreRows(store: Store, rows: seq<Row>, cursor: Option<Cursor>): seq<Row> {
    var sorted := Sort(Order(store.Pg?), rows);
    if cursor.Some? then Filter(sorted, BelowCursor(store, cursor.value)) else sorted
  }

  /** The cursor of a dated row stands for the rows that follow it, except that SQL
      leaves out the undated ones. */
  lemma {:induction false} StoreRowsIn(store: Store, rows: seq<Row>, last: Option<Row>)
    requires UniqueIds(rows) && (last.Some? ==> Dated(last.value))
    ensures var f := StoreRows(store, rows, CursorOf(last));
            && StrictlySorted(Order(store.Pg?), f)
            && forall x :: x in f <==> x in rows && Follows(Newest(), last, x) && (last.Some? && store.Pg? ==> Dated(x))
  {
    OrderOrders(store.Pg?, rows);
    SortedSame(Order(store.Pg?), rows);
    var sorted := Sort(Order(store.Pg?), rows);
    if last.Some? {
      FilterIn(sorted, BelowCursor(store, CursorOf(last).value));
      FilterKeepsStrict(Order(store.Pg?), sorted, BelowCursor(store, CursorOf(last).value));
    }
  }

  /** Among dated rows the two orders agree. */
  lemma {:induction false} DatedOrder(f: seq<Row>, nullsFirst: bool)
    requires StrictlySorted(Order(nullsFirst), f) && forall x :: x in f ==> Dated(x)
    ensures StrictlySorted(Newest(), f)
  {
    forall i, j | 0 <= i < j < |f| ensures Newest()(f[i], f[j]) {
      assert Order(nullsFirst)(f[i], f[j]) && f[i] in f && f[j] in f;
    }
  }

  /** For a client that saw only dated rows both stores give the promised page, as long
      as SQL meets no undated row. */
  lemma {:induction false} RoutePageFaithful(store: Store, rows: seq<Row>, last: Option<Row>, limit: nat)
    requires UniqueIds(rows) && (last.Some? ==> Dated(last.value))
    requires store.Pg? ==> forall r :: r in rows && Follows(Newest(), last, r) ==> Dated(r)
    ensures RoutePage(store, rows, last, limit) == Page(Newest(), rows, last, limit)
  {
    var f := StoreRows(store, rows, CursorOf(last));
    var want := Filter(Sort(Newest(), rows), Following(Newest(), last));
    StoreRowsIn(store, rows, last);
    if store.Pg? { DatedOrder(f, true); }
    OrderOrders(false, rows);
    PromisedRows(rows, last);
    StrictlySortedUnique(Newest(), f, want);
    SortIdle(Newest(), Take(f, limit));
  }

  lemma {:induction false} PromisedRows(rows: seq<Row>, last: Option<Row>)
    requires UniqueIds(rows)
    ensures var want := Filter(Sort(Newest(), rows), Following(Newest(), last));
            && StrictlySorted(Newest(), want)
            && forall x :: x in want <==> x in rows && Follows(Newest(), last, x)
  {
    var sorted := Sort(Newest(), rows);
    OrderOrders(false, rows);
    SortedSame(Newest(), rows);
    FilterKeepsStrict(Newest(), sorted, Following(Newest(), last));
    FilterIn(sorted, Following(Newest(), last));
  }

  lemma {:induction false} HistoryPageFaithful(store: Store, base: seq<Row>, q: Request<Row>)
    requires UniqueIds(q.rows) && forall r :: r in base ==> Dated(r)
    ensures FaithfulOn(Newest(), HistoryPager(store), Elements(base), q)
  {
    forall last: Option<Row> | (last.Some? ==>
        last.value in Elements(base)) && SameBelow(Newest(), last, q.rows, Elements(base))
      ensures RoutePage(store, q.rows, last, q.limit) == Page(Newest(), q.rows, last, q.limit)
    {
      RoutePageFaithful(store, q.rows, last, q.limit);
    }
  }

  /** RUN HISTORY. When every run has a completedAt, either store shows every run exactly
      once, newest first, whatever finishes above the client's position meanwhile. */
  lemma {:induction false} HistoryPagesExact(store: Store, base: seq<Row>, reqs: seq<Request<Row>>)
    requires UniqueIds(base) && forall r :: r in base ==> Dated(r)
    requires forall q :: q in reqs ==> q.limit >= 1 && UniqueIds(q.rows)
    requires ChangesAbove(Newest(), HistoryPager(store), Elements(base), reqs, At(None))
    ensures var (shown, client) := Walk(HistoryPager(store), reqs, At(None));
            && shown + Remaining(Newest(), Sort(Newest(), base), client) == Sort(Newest(), base)
            && (|reqs| > |base| ==> client == Done && shown == Sort(Newest(), base))
  {
    OrderOrders(false, base);
    forall q | q in reqs
      ensures Ordered(Newest(), q.rows) && FaithfulOn(Newest(), HistoryPager(store), Elements(base), q)
    {
      OrderOrders(false, q.rows);
      HistoryPageFaithful(store, base, q);
    }
    PagingExact(Newest(), HistoryPager(store), base, reqs);
  }

  /** Runs that finish meanwhile are newer than all others: nothing is repeated or skipped. */
  lemma {:induction false} GrowingHistoryPages(store: Store, base: seq<Row>, reqs: seq<Request<Row>>)
    requires UniqueIds(base) && forall r :: r in base ==> Dated(r)
    requires forall q :: q in reqs ==> q.limit >= 1 && UniqueIds(q.rows)
    requires forall q :: q in reqs ==> Gains(Newest(), Elements(base), q.rows)
    requires reqs != [] ==> Elements(reqs[0].rows) == Elements(base)
    ensures var (shown, client) := Walk(HistoryPager(store), reqs, At(None));
            && shown + Remaining(Newest(), Sort(Newest(), base), client) == Sort(Newest(), base)
            && (|reqs| > |base| ==> client == Done && shown == Sort(Newest(), base))
  {
    OrderOrders(false, base);
    forall q | q in reqs
      ensures Ordered(Newest(), q.rows) && FaithfulOn(Newest(), HistoryPager(store), Elements(base), q)
    {
      OrderOrders(false, q.rows);
      HistoryPageFaithful(store, base, q);
    }
    GrowingPagesExact(Newest(), HistoryPager(store), base, reqs);
  }

  /** Run history under any changes: a run stamped earlier and committed later may arrive
      below the client's position. */
  lemma {:induction false} HistoryPagesAnyChanges(store: Store, reqs: seq<Request<Row>>)
    requires forall q :: q in reqs ==> q.limit >= 1 && UniqueIds(q.rows) && forall r :: r in q.rows ==> Dated(r)
    ensures var (shown, client) := Walk(HistoryPager(store), reqs, At(None));
            Covers(Newest(), None, InAll(reqs), shown, client)
  {
    OrderStrictWeak(false);
    forall q | q in reqs ensures AnswersOn(Newest(), HistoryPager(store), IsDated(), q) {
      OrderOrders(false, q.rows);
      forall last: Option<Row> | last.Some? ==> Dated(last.value)
        ensures RoutePage(store, q.rows, last, q.limit) == Page(Newest(), q.rows, last, q.limit)
      {
        RoutePageFaithful(store, q.rows, last, q.limit);
      }
    }
    AnyChanges(Newest(), HistoryPager(store), IsDated(), reqs, None);
  }

  // ----- Runs without a completedAt, in a table that does not change -----

  function IsDated(): Row -> bool { (r: Row) => Dated(r) }

  function DatedCount(rows: seq<Row>): nat { |Filter(rows, IsDated())| }

  /** The walk is finished and showed these rows, in this order. */
  predicate Shows(walk: (seq<Row>, Client<Row>), rows: seq<Row>) { walk.0 == rows && walk.1.Done? }

  /** A page would end behind position `lo` and not behind `hi`, starting from `p`. */
  predicate BreaksIn(reqs: seq<Request<Row>>, p: nat, lo: nat, hi: nat) {
    reqs != [] && (lo < p + reqs[0].limit <= hi || BreaksIn(reqs[1..], p + reqs[0].limit, lo, hi))
  }

  /** The same rows on every request, and at least one row asked for. */
  predicate Static(rows: seq<Row>, reqs: seq<Request<Row>>) {
    forall q :: q in reqs ==> q.rows == rows && q.limit >= 1
  }

  lemma {:induction false} DatedPrefix(s: seq<Row>)
    requires StrictlySorted(Newest(), s)
    ensures DatedCount(s) <= |s| && forall i :: 0 <= i < |s| ==> (Dated(s[i]) <==> i < DatedCount(s))
  {
    if s != [] {
      var n := |s| - 1;
      DatedPrefix(s[..n]);
      assert forall i :: 0 <= i < n ==> Newest()(s[i], s[n]) && s[..n][i] == s[i];
      assert DatedCount(s[..n]) < n ==> !Dated(s[..n][DatedCount(s[..n])]);
    }
  }

  /** In memory the dated runs come first. */
  lemma {:induction false} DatedFirst(rows: seq<Row>)
    requires UniqueIds(rows)
    ensures var s := Sort(Newest(), rows);
            && |s| == |rows| && StrictlySorted(Newest(), s) && DatedCount(rows) <= |s|
            && forall i :: 0 <= i < |s| ==> (Dated(s[i]) <==> i < DatedCount(rows))
  {
    var s := Sort(Newest(), rows);
    OrderOrders(false, rows);
    SortedRows(Newest(), rows);
    SortPermutes(Newest(), rows);
    DatedPrefix(s);
    FilterMultiset(s, IsDated());
    FilterMultiset(rows, IsDated());
    assert multiset(Filter(s, IsDated())) == multiset(Filter(rows, IsDated()));
    SameElements(Filter(s, IsDated()), Filter(rows, IsDated()));
  }

  /** Behind a dated run the next page is the next stretch. */
  lemma {:induction false} MemStretch(rows: seq<Row>, p: nat, limit: nat)
    requires UniqueIds(rows) && p <= |Sort(Newest(), rows)|
    requires p == 0 || Dated(Sort(Newest(), rows)[p - 1])
    ensures var s := Sort(Newest(), rows); RoutePage(Mem, rows, LastAt(s, p), limit) == Take(s[p..], limit)
  {
    var s := Sort(Newest(), rows);
    RoutePageFaithful(Mem, rows, LastAt(s, p), limit);
    OrderOrders(false, rows);
    SortedRows(Newest(), rows);
    TailFollows(Newest(), s, p, s, LastAt(s, p));
  }

  /** Behind an undated run the next page starts with a run already shown. */
  lemma {:induction false} UndatedRepeats(rows: seq<Row>, p: nat, limit: nat)
    requires UniqueIds(rows) && 0 < p <= |Sort(Newest(), rows)| && limit >= 1
    requires !Dated(Sort(Newest(), rows)[p - 1])
    ensures var s := Sort(Newest(), rows);
            var page := RoutePage(Mem, rows, Some(s[p - 1]), limit);
            page != [] && page[0] in s[..p]
  {
    var s, last := Sort(Newest(), rows), Sort(Newest(), rows)[p - 1];
    var keep := BelowCursor(Mem, CursorOf(Some(last)).value);
    var f := Filter(s, keep);
    OrderOrders(false, rows);
    SortedRows(Newest(), rows);
    FilterIn(s, keep);
    FilterKeepsStrict(Newest(), s, keep);
    SortIdle(Newest(), Take(f, limit));
    assert last in f;
    var k :| 0 <= k < |f| && f[k] == last;
    assert f[0] in f;
    var j :| 0 <= j < |s| && s[j] == f[0];
    assert forall i :: p <= i < |s| ==> Newest()(last, s[i]);
    assert k > 0 ==> Newest()(f[0], f[k]);
    assert j < p;
    assert s[..p][j] == f[0];
  }

  /** Up to position `d` a page is the next stretch; beyond it a page starts with a row
      already shown. */
  ghost predicate RepeatsBeyond(page: Pager<Row>, rows: seq<Row>, s: seq<Row>, d: nat) {
    && (forall p, limit: nat ::
          0 <= p <= d && p <= |s| && limit >= 1 ==> page(rows, LastAt(s, p), limit) == Take(s[p..], limit))
    && (forall p, limit: nat :: d < p <= |s| && limit >= 1 ==>
          var shown := page(rows, LastAt(s, p), limit); shown != [] && shown[0] in s[..p])
  }

  lemma {:induction false} MemRepeatsBeyond(rows: seq<Row>)
    requires UniqueIds(rows)
    ensures RepeatsBeyond(HistoryPager(Mem), rows, Sort(Newest(), rows), DatedCount(rows))
  {
    var s, d := Sort(Newest(), rows), DatedCount(rows);
    DatedFirst(rows);
    forall p, limit: nat | 0 <= p <= d && p <= |s| && limit >= 1
      ensures RoutePage(Mem, rows, LastAt(s, p), limit) == Take(s[p..], limit)
    {
      MemStretch(rows, p, limit);
    }
    forall p, limit: nat | d < p <= |s| && limit >= 1
      ensures var shown := RoutePage(Mem, rows, LastAt(s, p), limit); shown != [] && shown[0] in s[..p]
    {
      UndatedRepeats(rows, p, limit);
    }
  }

  lemma {:induction false} StretchShows(page: Pager<Row>, s: seq<Row>, reqs: seq<Request<Row>>, p: nat)
    requires reqs != [] && reqs[0].limit >= 1 && p <= |s|
    requires page(reqs[0].rows, LastAt(s, p), reqs[0].limit) == Take(s[p..], reqs[0].limit)
    ensures var n := p + reqs[0].limit;
            Shows(Walk(page, reqs, At(LastAt(s, p))), s[p..]) <==>
            (n <= |s| ==> Shows(Walk(page, reqs[1..], At(LastAt(s, n))), s[n..]))
  {
    var n := p + reqs[0].limit;
    if n <= |s| {
      TakeMore(s, p, reqs[0].limit, |s|);
      CutFront(Take(s[p..], reqs[0].limit), Walk(page, reqs[1..], At(LastAt(s, n))).0, s[n..]);
    }
  }

  lemma {:induction false} StaticRest(rows: seq<Row>, reqs: seq<Request<Row>>)
    requires Static(rows, reqs) && reqs != []
    ensures reqs[0].rows == rows && reqs[0].limit >= 1 && Static(rows, reqs[1..])
  {
    assert reqs[0] in reqs;
  }

  lemma {:induction false} RepeatingWalk(page: Pager<Row>, rows: seq<Row>, s: seq<Row>, d: nat,
                                         reqs: seq<Request<Row>>, p: nat)
    requires RepeatsBeyond(page, rows, s, d) && Distinct(s) && d <= |s|
    requires Static(rows, reqs) && p <= d && |reqs| > |s| - p
    ensures Shows(Walk(page, reqs, At(LastAt(s, p))), s[p..]) <==> !BreaksIn(reqs, p, d, |s|)
    decreases |reqs|
  {
    var n, rest := p + reqs[0].limit, reqs[1..];
    StaticRest(rows, reqs);
    StretchShows(page, s, reqs, p);
    if n > |s| {
      NoBreak(rest, n, d, |s|);
    } else if n <= d {
      RepeatingWalk(page, rows, s, d, rest, n);
    } else {
      WalkRepeats(page, rows, s, d, rest, n);
    }
  }

  /** Once a page ended beyond `d`, the rest of the walk goes wrong. */
  lemma {:induction false} WalkRepeats(page: Pager<Row>, rows: seq<Row>, s: seq<Row>, d: nat, reqs: seq<Request<Row>>,
                                       p: nat)
    requires RepeatsBeyond(page, rows, s, d) && Distinct(s) && Static(rows, reqs) && reqs != [] && d < p <= |s|
    ensures Walk(page, reqs, At(LastAt(s, p))).0 != s[p..]
  {
    StaticRest(rows, reqs);
    var shown := page(rows, LastAt(s, p), reqs[0].limit);
    var all := Walk(page, reqs, At(LastAt(s, p))).0;
    assert shown != [] && all[0] == shown[0];
    var j :| 0 <= j < p && s[..p][j] == shown[0];
    assert s[p..] != [] ==> s[j] != s[p] && s[p..][0] == s[p];
  }

  lemma {:induction false} NoBreak(reqs: seq<Request<Row>>, p: nat, lo: nat, hi: nat)
    requires p > hi
    ensures !BreaksIn(reqs, p, lo, hi)
  {
    if reqs != [] { NoBreak(reqs[1..], p + reqs[0].limit, lo, hi); }
  }

  lemma {:induction false} CutFront<T>(a: seq<T>, b: seq<T>, c: seq<T>)
    ensures a + b == a + c <==> b == c
  {
    assert (a + b)[|a|..] == b && (a + c)[|a|..] == c;
  }

  /** UNDATED RUNS IN MEMORY. The cursor made from a run without a completedAt points at
      the epoch, and so admits every such run again. Hence paging is exact if and only if
      no page ends on one: no running total of the limits lies behind the dated runs and
      not behind all runs. */
  lemma {:induction false} MemHistoryExactIff(rows: seq<Row>, reqs: seq<Request<Row>>)
    requires UniqueIds(rows) && Static(rows, reqs) && |reqs| > |rows|
    ensures Shows(Walk(HistoryPager(Mem), reqs, At(None)), Sort(Newest(), rows)) <==>
            !BreaksIn(reqs, 0, DatedCount(rows), |rows|)
  {
    DatedFirst(rows);
    var s := Sort(Newest(), rows);
    MemRepeatsBeyond(rows);
    OrderStrictWeak(false);
    StrictlySortedDistinct(Newest(), s);
    RepeatingWalk(HistoryPager(Mem), rows, s, DatedCount(rows), reqs, 0);
    assert s[0..] == s;
  }

  /** With SQL a cursor at the epoch admits nothing, if all stamps are later. */
  lemma {:induction false} EpochAdmitsNothing(rows: seq<Row>, last: Row, limit: nat)
    requires !Dated(last) && forall r :: r in rows && Dated(r) ==> r.completedAt.value > 0
    ensures RoutePage(Pg, rows, Some(last), limit) == []
  {
    var sorted := Sort(Order(true), rows);
    SortPermutes(Order(true), rows);
    SameElements(sorted, rows);
    FilterNone(sorted, BelowCursor(Pg, CursorOf(Some(last)).value));
  }

  lemma {:induction false} EpochEndsWalk(rows: seq<Row>, reqs: seq<Request<Row>>, last: Row)
    requires !Dated(last) && forall r :: r in rows && Dated(r) ==> r.completedAt.value > 0
    requires Static(rows, reqs) && reqs != []
    ensures Shows(Walk(HistoryPager(Pg), reqs, At(Some(last))), [])
  {
    assert reqs[0] in reqs;
    EpochAdmitsNothing(rows, last, reqs[0].limit);
  }

  /** If everything fits on it, the first SQL page is the whole list. */
  lemma {:induction false} FirstPgWhole(rows: seq<Row>, limit: nat)
    requires UniqueIds(rows) && limit >= |rows|
    ensures RoutePage(Pg, rows, None, limit) == Sort(Newest(), rows)
  {
    var sorted := Sort(Order(true), rows);
    SortPermutes(Order(true), rows);
    SameElements(sorted, rows);
    SortPermutes(Newest(), rows);
    SameElements(Sort(Newest(), rows), rows);
    SortOnce(rows, sorted);
  }

  /** Otherwise it is full and, when some run is undated, ends on an undated run. */
  lemma {:induction false} FirstPgCut(rows: seq<Row>, limit: nat, u: Row)
    requires UniqueIds(rows) && 1 <= limit < |rows| && u in rows && !Dated(u)
    ensures var page := RoutePage(Pg, rows, None, limit); |page| == limit && !Dated(page[limit - 1])
  {
    SqlLead(rows, u);
    ResortedEnd(Take(Sort(Order(true), rows), limit));
  }

  lemma {:induction false} SqlLead(rows: seq<Row>, u: Row)
    requires UniqueIds(rows) && u in rows && !Dated(u)
    ensures var sorted := Sort(Order(true), rows); |sorted| == |rows| && !Dated(sorted[0])
  {
    OrderOrders(true, rows);
    SortedRows(Order(true), rows);
    UndatedLead(Sort(Order(true), rows), u);
  }

  lemma {:induction false} ResortedEnd(cut: seq<Row>)
    requires cut != [] && !Dated(cut[0])
    ensures var page := Sort(Newest(), cut); |page| == |cut| && !Dated(page[|page| - 1])
  {
    var page := Sort(Newest(), cut);
    SortPermutes(Newest(), cut);
    SameElements(page, cut);
    OrderStrictWeak(false);
    SortSorted(Newest(), cut);
    UndatedEnd(page, cut[0]);
  }

  lemma {:induction false} UndatedLead(sorted: seq<Row>, u: Row)
    requires StrictlySorted(Order(true), sorted) && u in Elements(sorted) && !Dated(u)
    ensures sorted != [] && !Dated(sorted[0])
  {
    var k :| 0 <= k < |sorted| && sorted[k] == u;
    assert k > 0 ==> Order(true)(sorted[0], sorted[k]);
  }

  lemma {:induction false} UndatedEnd(page: seq<Row>, u: Row)
    requires Sorted(Newest(), page) && u in page && !Dated(u)
    ensures !Dated(page[|page| - 1])
  {
    var i :| 0 <= i < |page| && page[i] == u;
    assert i < |page| - 1 ==> !Newest()(page[|page| - 1], page[i]);
  }

  /** Sorting does not depend on the order of the input. */
  lemma {:induction false} SortOnce(a: seq<Row>, b: seq<Row>)
    requires multiset(a) == multiset(b) && UniqueIds(a)
    ensures Sort(Newest(), a) == Sort(Newest(), b)
  {
    OrderOrders(false, a);
    DistinctPermutes(a, b);
    SameElements(a, b);
    assert NoTies(Newest(), b);
    SortedRows(Newest(), a);
    SortedRows(Newest(), b);
    var sa, sb := Sort(Newest(), a), Sort(Newest(), b);
    assert forall x :: x in sa <==> x in Elements(sa);
    assert forall x :: x in sb <==> x in Elements(sb);
    StrictlySortedUnique(Newest(), sa, sb);
  }

  lemma {:induction false} StaticChangesAbove(store: Store, rows: seq<Row>, reqs: seq<Request<Row>>,
                                              client: Client<Row>)
    requires Static(rows, reqs)
    ensures ChangesAbove(Newest(), HistoryPager(store), Elements(rows), reqs, client)
    decreases |reqs|
  {
    if reqs != [] && client.At? {
      assert reqs[0] in reqs;
      StaticChangesAbove(store, rows, reqs[1..], Next(RoutePage(store, reqs[0].rows, client.last, reqs[0].limit),
          reqs[0].limit));
    }
  }

  /** UNDATED RUNS IN SQL. They sort first, and a full page ends on one of them, whose
      cursor admits nothing more. Paging is exact if and only if every run is dated or the
      first page holds them all. */
  lemma {:induction false} PgHistoryExactIff(rows: seq<Row>, reqs: seq<Request<Row>>)
    requires UniqueIds(rows) && Static(rows, reqs) && |reqs| > |rows|
    requires forall r :: r in rows && Dated(r) ==> r.completedAt.value > 0
    ensures Shows(Walk(HistoryPager(Pg), reqs, At(None)), Sort(Newest(), rows)) <==>
            (forall r :: r in rows ==> Dated(r)) || reqs[0].limit >= |rows|
  {
    if forall r :: r in rows ==> Dated(r) {
      DatedFirst(rows);
      StaticChangesAbove(Pg, rows, reqs, At(None));
      HistoryPagesExact(Pg, rows, reqs);
    } else {
      var u :| u in rows && !Dated(u);
      PgUndated(rows, reqs, u);
    }
  }

  lemma {:induction false} PgUndated(rows: seq<Row>, reqs: seq<Request<Row>>, u: Row)
    requires UniqueIds(rows) && Static(rows, reqs) && |reqs| >= 2 && u in rows && !Dated(u)
    requires forall r :: r in rows && Dated(r) ==> r.completedAt.value > 0
    ensures Shows(Walk(HistoryPager(Pg), reqs, At(None)), Sort(Newest(), rows)) <==> reqs[0].limit >= |rows|
  {
    var limit, page := reqs[0].limit, RoutePage(Pg, rows, None, reqs[0].limit);
    assert reqs[0] in reqs;
    LastUndated(rows, u);
    if limit < |rows| {
      FirstPgCut(rows, limit, u);
      PgFirstStep(rows, reqs, page);
    } else {
      FirstPgWhole(rows, limit);
      PgFirstStep(rows, reqs, page);
    }
  }

  /** A first page that is not full, or ends on an undated run, is all that is shown. */
  lemma {:induction false} PgFirstStep(rows: seq<Row>, reqs: seq<Request<Row>>, page: seq<Row>)
    requires Static(rows, reqs) && |reqs| >= 2 && page == RoutePage(Pg, rows, None, reqs[0].limit)
    requires page != [] && !Dated(page[|page| - 1])
    requires forall r :: r in rows && Dated(r) ==> r.completedAt.value > 0
    ensures Shows(Walk(HistoryPager(Pg), reqs, At(None)), page)
  {
    assert reqs[0] in reqs;
    EpochEndsWalk(rows, reqs[1..], page[|page| - 1]);
  }

  lemma {:induction false} LastUndated(rows: seq<Row>, u: Row)
    requires UniqueIds(rows) && u in rows && !Dated(u)
    ensures var s := Sort(Newest(), rows); |s| == |rows| && s != [] && !Dated(s[|s| - 1])
  {
    var s := Sort(Newest(), rows);
    DatedFirst(rows);
    OrderOrders(false, rows);
    SortedRows(Newest(), rows);
    assert u in Elements(s);
    var k :| 0 <= k < |s| && s[k] == u;
  }

  // ----- What the order means -----

  /** THE ORDER of the history: finished later comes first; at the same time the larger id. */
  lemma {:induction false} HistoryOrder(rows: seq<Row>, i: nat, j: nat)
    requires UniqueIds(rows) && (forall r :: r in rows ==> Dated(r)) && i < j < |Sort(Newest(), rows)|
    ensures var a, b := Sort(Newest(), rows)[i], Sort(Newest(), rows)[j];
            && a in rows && b in rows && a.completedAt.Some? && b.completedAt.Some?
            && (a.completedAt.value > b.completedAt.value || (a.completedAt == b.completedAt && LexLess(b.id, a.id)))
  {
    var s := Sort(Newest(), rows);
    OrderOrders(false, rows);
    SortedSame(Newest(), rows);
    assert s[i] in s && s[j] in s && Newest()(s[i], s[j]);
  }

  /** Iterations come with the highest number first. */
  lemma {:induction false} IterationOrder(rows: seq<Iteration>, i: nat, j: nat)
    requires UniqueNumbers(rows) && i < j < |Sort(HigherNumber(), rows)|
    ensures Sort(HigherNumber(), rows)[i].number > Sort(HigherNumber(), rows)[j].number
  {
    NumbersOrder(rows);
    SortedSame(HigherNumber(), rows);
  }

  /** A STORE'S PAGE in memory, row by row: never more than the limit; only rows older than
      the cursor (or of its time with a smaller id) or undated; and all of those if there is
      room. */
  lemma {:induction false} MemPageHolds(rows: seq<Row>, cursor: Cursor, limit: nat)
    ensures var page := StorePage(Mem, rows, Some(cursor), limit);
            && |page| <= limit
            && (forall r :: r in page ==> r in rows && OlderOrUndated(cursor, r))
            && (|page| < limit ==> forall r :: r in rows && OlderOrUndated(cursor, r) ==> r in page)
  {
    var sorted := Sort(Order(false), rows);
    SortPermutes(Order(false), rows);
    SameElements(sorted, rows);
    FilterIn(sorted, BelowCursor(Mem, cursor));
    var f := Filter(sorted, BelowCursor(Mem, cursor));
    assert StorePage(Mem, rows, Some(cursor), limit) == Take(f, limit);
    assert forall r :: r in Take(f, limit) ==> r in f;
  }

  /** The same with SQL, which leaves out the undated rows below a cursor. */
  lemma {:induction false} PgPageHolds(rows: seq<Row>, cursor: Cursor, limit: nat)
    ensures var page := StorePage(Pg, rows, Some(cursor), limit);
            && |page| <= limit
            && (forall r :: r in page ==> r in rows && OlderOrUndated(cursor, r) && r.completedAt.Some?)
            && (|page| < limit ==>
                forall r :: r in rows && OlderOrUndated(cursor, r) && r.completedAt.Some? ==> r in page)
  {
    var sorted := Sort(Order(true), rows);
    SortPermutes(Order(true), rows);
    SameElements(sorted, rows);
    FilterIn(sorted, BelowCursor(Pg, cursor));
    var f := Filter(sorted, BelowCursor(Pg, cursor));
    assert StorePage(Pg, rows, Some(cursor), limit) == Take(f, limit);
    assert forall r :: r in Take(f, limit) ==> r in f;
  }

  /** A page of iterations: at most the limit and never more than a hundred; only numbers
      below the cursor; all of them if there is room. */
  lemma {:induction false} IterationPageHolds(rows: seq<Iteration>, cursor: int, limit: nat)
    ensures var page := GetIterations(rows, limit, Some(cursor));
            && |page| <= limit && |page| <= 100
            && (forall it :: it in page ==> it in rows && it.number < cursor)
            && (|page| < limit && |page| < 100 ==> forall it :: it in rows && it.number < cursor ==> it in page)
  {
    var sorted := Sort(HigherNumber(), rows);
    SortPermutes(HigherNumber(), rows);
    SameElements(sorted, rows);
    FilterIn(sorted, BelowNumber(cursor));
    var f := Filter(sorted, BelowNumber(cursor));
    var most := if limit < 100 then limit else 100;
    assert GetIterations(rows, limit, Some(cursor)) == Take(f, most);
    assert forall it :: it in Take(f, most) ==> it in f;
  }

  predicate OlderOrUndated(cursor: Cursor, r: Row) {
    match r.completedAt
    case None => true
    case Some(t) => t < cursor.completedAt || (t == cursor.completedAt && LexLess(r.id, cursor.id))
  }

  // ----- Witnesses -----

  /** Two undated runs, one to a page: memory shows a run twice, and SQL stops after it. */
  lemma {:induction false} UndatedWitness()
    ensures var rows := [Row("a", None), Row("b", None)];
            var reqs := [Request(rows, 1), Request(rows, 1), Request(rows, 1)];
            && !Shows(Walk(HistoryPager(Mem), reqs, At(None)), Sort(Newest(), rows))
            && !Shows(Walk(HistoryPager(Pg), reqs, At(None)), Sort(Newest(), rows))
  {
    var rows := [Row("a", None), Row("b", None)];
    var reqs := [Request(rows, 1), Request(rows, 1), Request(rows, 1)];
    assert rows[0] in rows && !Dated(rows[0]);
    FilterNone(rows, IsDated());
    MemHistoryExactIff(rows, reqs);
    PgHistoryExactIff(rows, reqs);
  }
}
