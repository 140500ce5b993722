/**
 The PR review queue (shared/pr-queue.ts): PR-bearing loops clustered by repository,
 the run most likely to be current first.
 */
module PrQueue {

  import opened Wrappers
  import opened Sorting

  /** A timestamp string: its epoch milliseconds, if it parses. */
  datatype Stamp = Unparseable | Ms(ms: int)

  datatype GithubPrStatus = OPEN | DRAFT | MERGED | CLOSED | Unknown

  datatype Item = Item(loopId: string, repoPath: string, createdAt: Stamp, updatedAt: Option<Stamp>,
                       githubStatus: Option<GithubPrStatus>)

  datatype Cluster = Cluster(repoPath: string, items: seq<Item>, duplicate: bool, currentLoopId: string,
                             supersededLoopIds: seq<string>)

  predicate Resolved(it: Item) {
    it.githubStatus == Some(MERGED) || it.githubStatus == Some(CLOSED)
  }

  // ----- Repository keys -----

  function NormalizeRepoPath(p: string): string {
    if p != [] && p[|p| - 1] == '/' then NormalizeRepoPath(p[..|p| - 1]) else p
  }

  /** The key is the longest prefix of the path that does not end in a slash, and only
      slashes were cut off: two paths share a key exactly when they differ in trailing
      slashes only. */
  lemma {:induction false} NormalizedPath(p: string)
    ensures var k := NormalizeRepoPath(p);
            && k <= p && (forall i :: |k| <= i < |p| ==> p[i] == '/')
            && (k != [] ==> k[|k| - 1] != '/')
            && NormalizeRepoPath(k) == k
  {
    if p != [] && p[|p| - 1] == '/' { NormalizedPath(p[..|p| - 1]); }
  }

  lemma {:induction false} TrailingSlashesIgnored(p: string, q: string)
    requires forall i :: 0 <= i < |q| ==> q[i] == '/'
    ensures NormalizeRepoPath(p + q) == NormalizeRepoPath(p)
  {
    if q == [] {
      assert p + q == p;
    } else {
      assert (p + q)[..|p + q| - 1] == p + q[..|q| - 1];
      TrailingSlashesIgnored(p, q[..|q| - 1]);
    }
  }

  // ----- Order within a cluster -----

  function RecencyOf(it: Item): int {
    var raw := if it.updatedAt.Some? then it.updatedAt.value else it.createdAt;
    if raw.Ms? then raw.ms else 0
  }

  function LivenessRank(it: Item): int { if Resolved(it) then 1 else 0 }

  /** byNewest: `a` sorts ahead of `b`. */
  predicate ByNewest(a: Item, b: Item) {
    if LivenessRank(a) != LivenessRank(b) then LivenessRank(a) < LivenessRank(b)
    else if RecencyOf(a) != RecencyOf(b) then RecencyOf(a) > RecencyOf(b)
    else LexLess(a.loopId, b.loopId)
  }

  /** byNewest is a strict order, and total on items with different loopIds. */
  lemma {:induction false} ByNewestStrictTotal()
    ensures StrictWeak(ByNewest)
    ensures forall a: Item, b: Item :: a.loopId != b.loopId ==> ByNewest(a, b) || ByNewest(b, a)
  {
    LexStrictTotal();
  }

  // ----- Clustering -----

  function KeyOf(it: Item): string { NormalizeRepoPath(it.repoPath) }

  function OfRepo(key: string): Item -> bool { (it: Item) => KeyOf(it) == key }

  /** The keys in the order of their first items: a Map's iteration order. */
  function Keys(items: seq<Item>): seq<string> {
    if items == [] then []
    else
      var keys, key := Keys(items[..|items| - 1]), KeyOf(items[|items| - 1]);
      if key in keys then keys else keys + [key]
  }

  function LoopIds(items: seq<Item>): seq<string> {
    seq(|items|, i requires 0 <= i < |items| => items[i].loopId)
  }

  function MakeCluster(key: string, sorted: seq<Item>): Cluster
    requires sorted != []
  {
    Cluster(key, sorted, |sorted| > 1, sorted[0].loopId, LoopIds(sorted[1..]))
  }

  function Group(items: seq<Item>, key: string): seq<Item> { Filter(items, OfRepo(key)) }

  function Groups(items: seq<Item>): map<string, seq<Item>> {
    map key | key in Keys(items) :: Group(items, key)
  }

  lemma {:induction false} KeysOf(items: seq<Item>)
    ensures Distinct(Keys(items))
    ensures forall key :: key in Keys(items) <==> exists it :: it in items && KeyOf(it) == key
  {
    if items != [] {
      var init, last := items[..|items| - 1], items[|items| - 1];
      KeysOf(init);
      assert items == init + [last];
      forall key ensures key in Keys(items) <==> exists it :: it in items && KeyOf(it) == key {
        if key in Keys(init) {
          var it :| it in init && KeyOf(it) == key;
          assert it in items;
        }
        if key == KeyOf(last) { assert last in items; }
      }
    }
  }

  lemma {:induction false} GroupsNonempty(items: seq<Item>)
    ensures forall key :: key in Keys(items) ==> Sort(ByNewest, Group(items, key)) != []
  {
    KeysOf(items);
    forall key | key in Keys(items) ensures Sort(ByNewest, Group(items, key)) != [] {
      var it :| it in items && KeyOf(it) == key;
      FilterIn(items, OfRepo(key));
      assert it in Group(items, key);
      SortPermutes(ByNewest, Group(items, key));
      SameElements(Sort(ByNewest, Group(items, key)), Group(items, key));
    }
  }

  function ClusterOf(items: seq<Item>, key: string): Cluster
    requires key in Keys(items)
  {
    GroupsNonempty(items);
    MakeCluster(key, Sort(ByNewest, Group(items, key)))
  }

  function ClustersFor(items: seq<Item>, keys: seq<string>): seq<Cluster>
    requires forall key :: key in keys ==> key in Keys(items)
  {
    seq(|keys|, i requires 0 <= i < |keys| => ClusterOf(items, keys[i]))
  }

  function Freshness(c: Cluster): int { if c.items == [] then 0 else RecencyOf(c.items[0]) }

  predicate Fresher(a: Cluster, b: Cluster) { Freshness(a) > Freshness(b) }

  function Clusters(items: seq<Item>): seq<Cluster> {
    Sort(Fresher, ClustersFor(items, Keys(items)))
  }

  method ClusterPrQueue(items: seq<Item>) returns (clusters: seq<Cluster>)
    ensures clusters == Clusters(items)
  {
    var order: seq<string> := [];
    var byRepo: map<string, seq<Item>> := map[];
    for i := 0 to |items|
      invariant order == Keys(items[..i])
      invariant byRepo == Groups(items[..i])
    {
      var item := items[i];
      var key := KeyOf(item);
      NextItem(items, i);
      if key in byRepo {
        byRepo := byRepo[key := byRepo[key] + [item]];
      } else {
        byRepo := byRepo[key := [item]];
        order := order + [key];
      }
    }
    assert items[..|items|] == items;
    GroupsNonempty(items);
    clusters := [];
    for j := 0 to |order|
      invariant clusters == ClustersFor(items, order[..j])
    {
      var repoPath := order[j];
      var sorted := Sort(ByNewest, byRepo[repoPath]);
      clusters := clusters + [MakeCluster(repoPath, sorted)];
    }
    assert order[..|order|] == order;
    clusters := Sort(Fresher, clusters);
  }

  lemma {:induction false} NextItem(items: seq<Item>, i: nat)
    requires i < |items|
    ensures var key, byRepo, keys := KeyOf(items[i]), Groups(items[..i]), Keys(items[..i]);
            && Keys(items[..i + 1]) == (if key in byRepo then keys else keys + [key])
            && Groups(items[..i + 1]) == byRepo[key := if key in byRepo then byRepo[key] + [items[i]] else [items[i]]]
  {
    assert items[..i + 1] == items[..i] + [items[i]];
    ItemAdded(items[..i], items[i]);
  }

  lemma {:induction false} ItemAdded(items: seq<Item>, item: Item)
    ensures var key, byRepo, keys := KeyOf(item), Groups(items), Keys(items);
            && Keys(items + [item]) == (if key in byRepo then keys else keys + [key])
            && Groups(items + [item]) == byRepo[key := if key in byRepo then byRepo[key] + [item] else [item]]
  {
    assert (items + [item])[..|items|] == items;
    forall key ensures Group(items + [item], key) == if key == KeyOf(item) then Group(items, key) + [item]
        else Group(items, key) {
      GroupAdded(items, item, key);
    }
    var key := KeyOf(item);
    if key !in Keys(items) {
      NoGroupYet(items);
      assert Group(items + [item], key) == [] + [item] == [item];
    }
  }

  lemma {:induction false} GroupAdded(items: seq<Item>, item: Item, key: string)
    ensures Group(items + [item], key) == if key == KeyOf(item) then Group(items, key) + [item] else Group(items, key)
  {
    assert (items + [item])[..|items|] == items;
  }

  lemma {:induction false} NoGroupYet(items: seq<Item>)
    ensures forall key :: key !in Keys(items) ==> Group(items, key) == []
  {
    KeysOf(items);
    forall key | key !in Keys(items) ensures Group(items, key) == [] {
      FilterNone(items, OfRepo(key));
    }
  }

  // ----- A partition -----

  ghost predicate DistinctLoopIds(items: seq<Item>) {
    forall i, j :: 0 <= i < j < |items| ==> items[i].loopId != items[j].loopId
  }

  ghost predicate DistinctKeys(cs: seq<Cluster>) {
    forall i, j :: 0 <= i < j < |cs| ==> cs[i].repoPath != cs[j].repoPath
  }

  lemma {:induction false} ClustersForKeys(items: seq<Item>)
    ensures DistinctKeys(ClustersFor(items, Keys(items)))
    ensures forall c :: c in ClustersFor(items, Keys(items)) <==>
            c.repoPath in Keys(items) && c == ClusterOf(items, c.repoPath)
  {
    var keys, cs := Keys(items), ClustersFor(items, Keys(items));
    KeysOf(items);
    assert forall i :: 0 <= i < |keys| ==> cs[i] == ClusterOf(items, keys[i]) && cs[i].repoPath == keys[i];
    forall c: Cluster | c.repoPath in keys && c == ClusterOf(items, c.repoPath) ensures c in cs {
      var i :| 0 <= i < |keys| && keys[i] == c.repoPath;
      assert cs[i] == c;
    }
  }

  /** Exactly one cluster for every key of the input, and it is that key's cluster. */
  lemma {:induction false} ClustersByKey(items: seq<Item>)
    ensures DistinctKeys(Clusters(items))
    ensures forall c :: c in Clusters(items) <==> c.repoPath in Keys(items) && c == ClusterOf(items, c.repoPath)
  {
    var cs, sorted := ClustersFor(items, Keys(items)), Clusters(items);
    ClustersForKeys(items);
    SortPermutes(Fresher, cs);
    SameElements(sorted, cs);
    assert Distinct(cs);
    DistinctPermutes(cs, sorted);
    forall i, j | 0 <= i < j < |sorted| ensures sorted[i].repoPath != sorted[j].repoPath {
      assert sorted[i] in sorted && sorted[j] in sorted && sorted[i] != sorted[j];
    }
  }

  /** All items of the clusters together. */
  function Gather(cs: seq<Cluster>): multiset<Item> {
    if cs == [] then multiset{} else Gather(cs[..|cs| - 1]) + multiset(cs[|cs| - 1].items)
  }

  lemma {:induction false} GatherCounts(items: seq<Item>, cs: seq<Cluster>, x: Item)
    requires DistinctKeys(cs)
    requires forall c :: c in cs ==> multiset(c.items) == multiset(Group(items, c.repoPath))
    ensures Gather(cs)[x] == if exists c :: c in cs && c.repoPath == KeyOf(x) then multiset(items)[x] else 0
  {
    if cs != [] {
      var init, last := cs[..|cs| - 1], cs[|cs| - 1];
      assert cs == init + [last];
      GatherCounts(items, init, x);
      FilterMultiset(items, OfRepo(last.repoPath));
      if last.repoPath == KeyOf(x) {
        assert last in cs;
        assert forall c :: c in init ==> c.repoPath != KeyOf(x);
      } else if c :| c in cs && c.repoPath == KeyOf(x) {
        assert c in init;
      }
    }
  }

  /** PARTITION. The clusters carry different keys and together hold the input's items,
      each as often as the input does. */
  lemma {:induction false} ClustersPartition(items: seq<Item>)
    ensures DistinctKeys(Clusters(items))
    ensures Gather(Clusters(items)) == multiset(items)
  {
    var cs := Clusters(items);
    ClustersByKey(items);
    KeysOf(items);
    forall c | c in cs ensures multiset(c.items) == multiset(Group(items, c.repoPath)) {
      SortPermutes(ByNewest, Group(items, c.repoPath));
    }
    forall x ensures Gather(cs)[x] == multiset(items)[x] {
      GatherCounts(items, cs, x);
      if x in items {
        assert KeyOf(x) in Keys(items);
        assert ClusterOf(items, KeyOf(x)) in cs;
      }
    }
  }

  /** CLUSTER CONTENTS. A cluster holds exactly the items of its repository, in strict
      current-first order. */
  lemma {:induction false} ClusterContents(items: seq<Item>, c: Cluster)
    requires DistinctLoopIds(items) && c in Clusters(items)
    ensures c.items != [] && c == MakeCluster(c.repoPath, c.items)
    ensures forall it :: it in c.items <==> it in items && KeyOf(it) == c.repoPath
    ensures StrictlySorted(ByNewest, c.items)
  {
    var group := Group(items, c.repoPath);
    ClustersByKey(items);
    GroupsNonempty(items);
    FilterIn(items, OfRepo(c.repoPath));
    GroupOrdered(items, c.repoPath);
    SortPermutes(ByNewest, group);
    SameElements(c.items, group);
    SortStrict(ByNewest, group);
  }

  /** THE CURRENT LOOP. It is the first item's; it is unresolved whenever any item of the
      repository is, and no item of the same standing is newer. All others are
      superseded. */
  lemma {:induction false} CurrentLoop(items: seq<Item>, c: Cluster)
    requires DistinctLoopIds(items) && c in Clusters(items)
    ensures c.items != [] && c.currentLoopId == c.items[0].loopId
    ensures [c.currentLoopId] + c.supersededLoopIds == LoopIds(c.items)
    ensures (exists it :: it in items && KeyOf(it) == c.repoPath && !Resolved(it)) ==> !Resolved(c.items[0])
    ensures forall it :: it in items && KeyOf(it) == c.repoPath && Resolved(it) == Resolved(c.items[0]) ==>
              RecencyOf(it) <= RecencyOf(c.items[0])
  {
    ClusterContents(items, c);
    LeadsCluster(c.items);
    assert c.items == [c.items[0]] + c.items[1..];
  }

  lemma {:induction false} LeadsCluster(sorted: seq<Item>)
    requires StrictlySorted(ByNewest, sorted)
    ensures forall it :: it in sorted && it != sorted[0] ==> ByNewest(sorted[0], it)
  {
  }

  /** A cluster is a duplicate exactly when two different items share its repository. */
  lemma {:induction false} DuplicateIff(items: seq<Item>, c: Cluster)
    requires DistinctLoopIds(items) && c in Clusters(items)
    ensures c.duplicate <==>
            exists a, b :: a in items && b in items && a != b && KeyOf(a) == c.repoPath && KeyOf(b) == c.repoPath
  {
    ClusterContents(items, c);
    if c.duplicate {
      ByNewestStrictTotal();
      var a, b := c.items[0], c.items[1];
      assert ByNewest(a, b) && a in c.items && b in c.items;
      assert a != b;
    } else {
      assert forall it :: it in c.items ==> it == c.items[0];
    }
  }

  lemma {:induction false} GroupOrdered(items: seq<Item>, key: string)
    requires DistinctLoopIds(items)
    ensures StrictWeak(ByNewest) && NoTies(ByNewest, Group(items, key)) && Distinct(Group(items, key))
  {
    ByNewestStrictTotal();
    FilterIn(items, OfRepo(key));
    FilterMultiset(items, OfRepo(key));
    assert Distinct(items);
    DistinctIffMultiplicity(items);
    DistinctIffMultiplicity(Group(items, key));
    forall x, y | x in items && y in items && x != y ensures x.loopId != y.loopId {
      var i :| 0 <= i < |items| && items[i] == x;
      var j :| 0 <= j < |items| && items[j] == y;
    }
  }

  // ----- Independence of the input's order -----

  lemma {:induction false} SameGroup(a: seq<Item>, b: seq<Item>, key: string)
    requires multiset(a) == multiset(b) && DistinctLoopIds(a) && DistinctLoopIds(b)
    ensures Sort(ByNewest, Group(a, key)) == Sort(ByNewest, Group(b, key))
  {
    var ga, gb := Group(a, key), Group(b, key);
    GroupOrdered(a, key);
    GroupOrdered(b, key);
    FilterMultiset(a, OfRepo(key));
    FilterMultiset(b, OfRepo(key));
    assert multiset(ga) == multiset(gb);
    SortPermutes(ByNewest, ga);
    SortPermutes(ByNewest, gb);
    SameElements(Sort(ByNewest, ga), Sort(ByNewest, gb));
    SortStrict(ByNewest, ga);
    SortStrict(ByNewest, gb);
    StrictlySortedUnique(ByNewest, Sort(ByNewest, ga), Sort(ByNewest, gb));
  }

  lemma {:induction false} SameKeys(a: seq<Item>, b: seq<Item>)
    requires multiset(a) == multiset(b)
    ensures forall key :: key in Keys(a) <==> key in Keys(b)
  {
    KeysOf(a);
    KeysOf(b);
    SameElements(a, b);
  }

  lemma {:induction false} SameClusters(a: seq<Item>, b: seq<Item>)
    requires multiset(a) == multiset(b) && DistinctLoopIds(a) && DistinctLoopIds(b)
    ensures multiset(Clusters(a)) == multiset(Clusters(b))
  {
    var ca, cb := Clusters(a), Clusters(b);
    SameKeys(a, b);
    ClustersByKey(a);
    ClustersByKey(b);
    assert Distinct(ca) && Distinct(cb);
    forall key | key in Keys(a) ensures ClusterOf(a, key) == ClusterOf(b, key) { SameGroup(a, b, key); }
    DistinctIffMultiplicity(ca);
    DistinctIffMultiplicity(cb);
    forall c ensures multiset(ca)[c] == multiset(cb)[c] {
      assert c in ca <==> c in multiset(ca);
      assert c in cb <==> c in multiset(cb);
      assert c in ca <==> c in cb;
    }
  }

  function Beats<T>(before: (T, T) -> bool, y: T): T -> bool { (x: T) => before(x, y) }

  lemma {:induction false} AheadAtLeast<T(!new)>(before: (T, T) -> bool, a: seq<T>, y: T, i: nat)
    requires StrictWeak(before) && Sorted(before, a) && i < |a| && before(a[i], y)
    ensures |Filter(a, Beats(before, y))| > i
  {
    var ahead, front := Beats(before, y), a[..i + 1];
    forall x | x in front ensures ahead(x) {
      var k :| 0 <= k <= i && a[k] == x;
      assert k < i ==> !before(a[i], a[k]);
      assert before(a[i], x) || before(x, y);
    }
    FilterAll(front, ahead);
    FilterAppend(front, a[i + 1..], ahead);
    assert a == front + a[i + 1..];
  }

  lemma {:induction false} AheadAtMost<T(!new)>(before: (T, T) -> bool, b: seq<T>, i: nat)
    requires StrictWeak(before) && Sorted(before, b) && i < |b|
    ensures |Filter(b, Beats(before, b[i]))| <= i
  {
    var ahead := Beats(before, b[i]);
    assert forall k :: i <= k < |b| ==> !ahead(b[k]);
    FilterNone(b[i..], ahead);
    FilterIn(b[..i], ahead);
    FilterAppend(b[..i], b[i..], ahead);
    assert b == b[..i] + b[i..];
  }

  /** Two sorted arrangements of the same elements differ only among ties. */
  lemma {:induction false} SortedTies<T(!new)>(before: (T, T) -> bool, a: seq<T>, b: seq<T>, i: nat)
    requires StrictWeak(before) && Sorted(before, a) && Sorted(before, b) && multiset(a) == multiset(b) && i < |a|
    ensures |a| == |b| && !before(a[i], b[i])
  {
    SameElements(a, b);
    var ahead := Beats(before, b[i]);
    FilterMultiset(a, ahead);
    FilterMultiset(b, ahead);
    assert multiset(Filter(a, ahead)) == multiset(Filter(b, ahead));
    SameElements(Filter(a, ahead), Filter(b, ahead));
    AheadAtMost(before, b, i);
    if before(a[i], b[i]) { AheadAtLeast(before, a, b[i], i); }
  }

  /** CANONICAL. Permuting the queue leaves the same clusters, and every position of the
      result with the same recency: only clusters whose first items are equally recent
      may change places. */
  lemma {:induction false} ClustersCanonical(a: seq<Item>, b: seq<Item>)
    requires multiset(a) == multiset(b) && DistinctLoopIds(a) && DistinctLoopIds(b)
    ensures multiset(Clusters(a)) == multiset(Clusters(b)) && |Clusters(a)| == |Clusters(b)|
    ensures forall i :: 0 <= i < |Clusters(a)| ==> Freshness(Clusters(a)[i]) == Freshness(Clusters(b)[i])
    ensures forall i, j :: 0 <= i < j < |Clusters(a)| ==> Freshness(Clusters(a)[i]) >= Freshness(Clusters(a)[j])
  {
    SameClusters(a, b);
    SameElements(Clusters(a), Clusters(b));
    SortSorted(Fresher, ClustersFor(a, Keys(a)));
    SortSorted(Fresher, ClustersFor(b, Keys(b)));
    forall i | 0 <= i < |Clusters(a)| ensures Freshness(Clusters(a)[i]) == Freshness(Clusters(b)[i]) {
      SortedTies(Fresher, Clusters(a), Clusters(b), i);
      SortedTies(Fresher, Clusters(b), Clusters(a), i);
    }
    forall i, j | 0 <= i < j < |Clusters(a)| ensures Freshness(Clusters(a)[i]) >= Freshness(Clusters(a)[j]) {
      assert !Fresher(Clusters(a)[j], Clusters(a)[i]);
    }
  }

  // ----- What the order and the clusters mean -----

  /** The recency of an item: the time of its update, else of its creation; a text that is
      no time counts as zero. */
  lemma {:induction false} RecencyIs(it: Item)
    ensures it.updatedAt == None ==> RecencyOf(it) == (match it.createdAt case Ms(t) => t case Unparseable => 0)
    ensures forall t :: it.updatedAt == Some(Ms(t)) ==> RecencyOf(it) == t
    ensures it.updatedAt == Some(Unparseable) ==> RecencyOf(it) == 0
  {
  }

  predicate MergedOrClosed(it: Item) { it.githubStatus in {Some(MERGED), Some(CLOSED)} }

  /** ORDER IN A CLUSTER. Merged and closed items come after all others; among items of the
      same standing the more recent ones come first; equally recent ones by loop id. */
  lemma {:induction false} ClusterOrder(items: seq<Item>, c: Cluster, i: nat, j: nat)
    requires DistinctLoopIds(items) && c in Clusters(items) && i < j < |c.items|
    ensures var a, b := c.items[i], c.items[j];
            || (!MergedOrClosed(a) && MergedOrClosed(b))
            || (MergedOrClosed(a) == MergedOrClosed(b) && RecencyOf(a) > RecencyOf(b))
            || (MergedOrClosed(a) == MergedOrClosed(b) && RecencyOf(a) == RecencyOf(b) && LexLess(a.loopId, b.loopId))
  {
    ClusterContents(items, c);
    assert ByNewest(c.items[i], c.items[j]);
  }

  /** A CLUSTER. Its items are those of its repository; it names the first as current and
      the others, in order, as superseded, and is a duplicate if there are any. */
  lemma {:induction false} ClusterSays(items: seq<Item>, c: Cluster)
    requires DistinctLoopIds(items) && c in Clusters(items)
    ensures c.items != [] && c.currentLoopId == c.items[0].loopId
    ensures |c.supersededLoopIds| == |c.items| - 1
    ensures forall k :: 0 <= k < |c.supersededLoopIds| ==> c.supersededLoopIds[k] == c.items[k + 1].loopId
    ensures c.duplicate <==> |c.items| > 1
    ensures (exists it :: it in items && KeyOf(it) == c.repoPath && !MergedOrClosed(it)) ==> !MergedOrClosed(c.items[0])
  {
    ClusterContents(items, c);
    CurrentLoop(items, c);
  }

  /** ORDER OF THE CLUSTERS: by the recency of their first items, most recent first. */
  lemma {:induction false} ClustersOrder(items: seq<Item>, i: nat, j: nat)
    requires DistinctLoopIds(items) && i < j < |Clusters(items)|
    ensures Clusters(items)[i].items != [] && Clusters(items)[j].items != []
    ensures RecencyOf(Clusters(items)[i].items[0]) >= RecencyOf(Clusters(items)[j].items[0])
  {
    var cs := Clusters(items);
    assert cs[i] in cs && cs[j] in cs;
    ClusterContents(items, cs[i]);
    ClusterContents(items, cs[j]);
    ClustersCanonical(items, items);
    assert Freshness(cs[i]) >= Freshness(cs[j]);
  }

}
