/**
 The open remainder of a consilium loop (shared/consilium-remainder.ts) and the two
 summaries of it (there and in shared/loop-status.ts).
 */
module Remainder {

  import opened Wrappers
  import opened Sorting

  /** An action point; only its priority label, untrusted text, matters here. */
  datatype ActionPoint = ActionPoint(title: string, priority: Option<string>)

  datatype Round = Round(round: int, openActionPoints: Option<seq<ActionPoint>>)

  datatype OpenRemainder = OpenRemainder(total: int, byPriority: map<string, int>)

  const P0 := "P0"

  // ----- Counting -----

  /** `norm` trims and upper-cases a label. */
  function Label(ap: ActionPoint, norm: string -> string): string {
    var key := norm(if ap.priority.Some? then ap.priority.value else "");
    if key == "" then "P?" else key
  }

  function Labelled(key: string, norm: string -> string): ActionPoint -> bool {
    (ap: ActionPoint) => Label(ap, norm) == key
  }

  function Count(aps: seq<ActionPoint>, key: string, norm: string -> string): nat {
    |Filter(aps, Labelled(key, norm))|
  }

  function Tallies(aps: seq<ActionPoint>, norm: string -> string): map<string, int> {
    if aps == [] then map[]
    else
      var m, key := Tallies(aps[..|aps| - 1], norm), Label(aps[|aps| - 1], norm);
      m[key := (if key in m then m[key] else 0) + 1]
  }

  /** The tiers of the remainder are the labels that occur, each with its number of
      action points. */
  lemma {:induction false} TalliesCount(aps: seq<ActionPoint>, norm: string -> string)
    ensures forall key :: key in Tallies(aps, norm) <==> Count(aps, key, norm) > 0
    ensures forall key :: key in Tallies(aps, norm) ==> Tallies(aps, norm)[key] == Count(aps, key, norm)
  {
    if aps != [] { TalliesCount(aps[..|aps| - 1], norm); }
  }

  /** The row the remainder is read from: none of a higher round, none later in the list
      of the same round. */
  ghost predicate LastRound(rounds: seq<Round>, i: nat) {
    && i < |rounds|
    && (forall j :: 0 <= j < |rounds| ==> rounds[j].round <= rounds[i].round)
    && (forall j :: i < j < |rounds| ==> rounds[j].round < rounds[i].round)
  }

  function OpenPoints(r: Round): seq<ActionPoint> {
    if r.openActionPoints.Some? then r.openActionPoints.value else []
  }

  function RemainderOf(aps: seq<ActionPoint>, norm: string -> string): Option<OpenRemainder> {
    if aps == [] then None else Some(OpenRemainder(|aps|, Tallies(aps, norm)))
  }

  lemma {:induction false} HighestSoFar(rounds: seq<Round>, b: Round, k: nat)
    requires LastRound(rounds, k)
    ensures LastRound(rounds + [b], if b.round >= rounds[k].round then |rounds| else k)
  {
    var all := rounds + [b];
    if b.round >= rounds[k].round {
      forall j | 0 <= j < |all| ensures all[j].round <= b.round {
        if j < |rounds| { assert rounds[j].round <= rounds[k].round; }
      }
    }
  }

  /** The reduction over the rounds picks a row of the highest round and, among those,
      the last one listed. */
  function LastIndex(rounds: seq<Round>): (i: nat)
    requires rounds != []
    ensures LastRound(rounds, i)
  {
    if |rounds| == 1 then 0
    else
      var init, b := rounds[..|rounds| - 1], rounds[|rounds| - 1];
      var k := LastIndex(init);
      HighestSoFar(init, b, k);
      assert rounds == init + [b];
      if b.round >= init[k].round then |init| else k
  }

  /** One step of the reduction. */
  lemma {:induction false} LastNext(rounds: seq<Round>, b: Round)
    requires rounds != []
    ensures var a := rounds[LastIndex(rounds)]; (rounds + [b])[LastIndex(rounds + [b])] == if b.round >= a.round
            then b else a
  {
    assert (rounds + [b])[..|rounds|] == rounds;
  }

  method PickLast(rounds: seq<Round>) returns (last: Round)
    requires rounds != []
    ensures last == rounds[LastIndex(rounds)]
  {
    last := rounds[0];
    for i := 1 to |rounds|
      invariant last == rounds[..i][LastIndex(rounds[..i])]
    {
      LastNext(rounds[..i], rounds[i]);
      assert rounds[..i + 1] == rounds[..i] + [rounds[i]];
      if rounds[i].round >= last.round { last := rounds[i]; }
    }
    assert rounds[..|rounds|] == rounds;
  }

  method CountByPriority(aps: seq<ActionPoint>, norm: string -> string) returns (byPriority: map<string, int>)
    ensures byPriority == Tallies(aps, norm)
  {
    byPriority := map[];
    for i := 0 to |aps|
      invariant byPriority == Tallies(aps[..i], norm)
    {
      assert aps[..i + 1][..i] == aps[..i];
      var key := Label(aps[i], norm);
      byPriority := byPriority[key := (if key in byPriority then byPriority[key] else 0) + 1];
    }
    assert aps[..|aps|] == aps;
  }

  method ComputeOpenRemainder(rounds: seq<Round>, norm: string -> string) returns (r: Option<OpenRemainder>)
    ensures r == if rounds == [] then None else RemainderOf(OpenPoints(rounds[LastIndex(rounds)]), norm)
  {
    if rounds == [] { return None; }
    var last := PickLast(rounds);
    var aps := OpenPoints(last);
    if aps == [] { return None; }
    var byPriority := CountByPriority(aps, norm);
    r := Some(OpenRemainder(|aps|, byPriority));
  }

  // ----- Tier order -----

  predicate Digit(c: char) { '0' <= c <= '9' }

  /** The value of the leading digits, with what was read before. */
  function Digits(s: string, acc: int): int {
    if s != [] && Digit(s[0]) then Digits(s[1..], 10 * acc + (s[0] as int - '0' as int)) else acc
  }

  /** JavaScript's parseInt in base ten; `None` is NaN. */
  function ParseInt(s: string): Option<int> {
    if s != [] && Blank(s[0]) then ParseInt(s[1..])
    else
      var negative := s != [] && s[0] == '-';
      var t := if s != [] && (s[0] == '-' || s[0] == '+') then s[1..] else s;
      if t == [] || !Digit(t[0]) then None else Some(if negative then -Digits(t, 0) else Digits(t, 0))
  }

  datatype Tier = Finite(n: int) | Infinity

  function TierOf(key: string): Tier {
    var digits := if key != [] && (key[0] == 'P' || key[0] == 'p') then key[1..] else key;
    if ParseInt(digits).Some? then Finite(ParseInt(digits).value) else Infinity
  }

  /** What a subtraction of tiers yields. */
  datatype Number = Num(n: int) | PlusInfinity | MinusInfinity | NaN

  function Minus(a: Tier, b: Tier): Number {
    match (a, b)
    case (Finite(m), Finite(n)) => Num(m - n)
    case (Infinity, Finite(_)) => PlusInfinity
    case (Finite(_), Infinity) => MinusInfinity
    case (Infinity, Infinity) => NaN
  }

  predicate Falsy(x: Number) { x == Num(0) || x == NaN }

  predicate Negative(x: Number) { x.MinusInfinity? || (x.Num? && x.n < 0) }

  type Tally = (string, int)

  /** The comparator of the summaries: the difference of the tiers or, where that is falsy
      (also Infinity - Infinity), the order of the labels. */
  predicate TierFirst(a: Tally, b: Tally) {
    var d := Minus(TierOf(a.0), TierOf(b.0));
    if Falsy(d) then LexLess(a.0, b.0) else Negative(d)
  }

  lemma {:induction false} TierFirstCases(a: Tally, b: Tally)
    ensures TierFirst(a, b) <==>
            var s, t := TierOf(a.0), TierOf(b.0);
            if s == t then LexLess(a.0, b.0) else s.Finite? && (t.Finite? ==> s.n < t.n)
  {
  }

  /** The comparator is a strict order, total on entries of different labels. */
  lemma {:induction false} TierFirstStrictTotal()
    ensures StrictWeak(TierFirst)
    ensures forall a: Tally, b: Tally :: a.0 != b.0 ==> TierFirst(a, b) || TierFirst(b, a)
  {
    LexStrictTotal();
    forall x: Tally, y: Tally ensures !TierFirst(x, x) && (x.0 != y.0 ==> TierFirst(x, y) || TierFirst(y, x)) {
      TierFirstCases(x, y);
      TierFirstCases(y, x);
    }
    forall x: Tally, y: Tally, z: Tally ensures TierFirst(x, y) && TierFirst(y, z) ==> TierFirst(x, z) {
      TierFirstCases(x, y);
      TierFirstCases(y, z);
      TierFirstCases(x, z);
    }
    forall x: Tally, y: Tally, z: Tally ensures TierFirst(x, z) ==> TierFirst(x, y) || TierFirst(y, z) {
      TierFirstCases(x, y);
      TierFirstCases(y, z);
      TierFirstCases(x, z);
    }
  }

  // ----- Summaries -----

  /** `es` is Object.entries of the map, in any order. */
  ghost predicate Enumerates(es: seq<Tally>, m: map<string, int>) {
    && (forall i, j :: 0 <= i < j < |es| ==> es[i].0 != es[j].0)
    && (forall e :: e in es <==> e.0 in m && m[e.0] == e.1)
  }

  /** The total, and the tiers in the order in which the breakdown spells them out. */
  datatype Summary = Summary(total: int, breakdown: seq<Tally>)

  function Sum(es: seq<Tally>): int {
    if es == [] then 0 else Sum(es[..|es| - 1]) + es[|es| - 1].1
  }

  function NonP0(): Tally -> bool { (e: Tally) => e.0 != P0 }
  function NonP0Positive(): Tally -> bool { (e: Tally) => e.0 != P0 && e.1 > 0 }
  function Every(): Tally -> bool { (e: Tally) => true }
  function Positive(): Tally -> bool { (e: Tally) => e.1 > 0 }

  function Summarize(es: seq<Tally>, keep: Tally -> bool): Option<Summary> {
    var entries := Sort(TierFirst, Filter(es, keep));
    if Sum(entries) <= 0 then None else Some(Summary(Sum(entries), entries))
  }

  /** summarizeNonP0Remainder, of the entries of a remainder. */
  function SummarizeNonP0Remainder(es: seq<Tally>): Option<Summary> { Summarize(es, NonP0()) }

  /** summarizeNonP0 of the loop status. */
  function SummarizeNonP0(es: seq<Tally>): Option<Summary> { Summarize(es, NonP0Positive()) }

  /** summarizeAllOpen of the loop status; it trusts the stored total. */
  function SummarizeAllOpen(total: int, es: seq<Tally>): Option<Summary> {
    var entries := Sort(TierFirst, Filter(es, Positive()));
    if total <= 0 || entries == [] then None else Some(Summary(total, entries))
  }

  lemma {:induction false} KeptOrdered(es: seq<Tally>, m: map<string, int>, keep: Tally -> bool)
    requires Enumerates(es, m)
    ensures var entries := Sort(TierFirst, Filter(es, keep));
            && StrictWeak(TierFirst) && StrictlySorted(TierFirst, entries)
            && forall e :: e in entries <==> e in es && keep(e)
  {
    TierFirstStrictTotal();
    FilterIn(es, keep);
    EntriesDistinct(es, m, keep);
    var kept := Filter(es, keep);
    assert NoTies(TierFirst, kept);
    SortStrict(TierFirst, kept);
    SortPermutes(TierFirst, kept);
    SameElements(Sort(TierFirst, kept), kept);
  }

  lemma {:induction false} EntriesDistinct(es: seq<Tally>, m: map<string, int>, keep: Tally -> bool)
    requires Enumerates(es, m)
    ensures Distinct(Filter(es, keep))
  {
    assert Distinct(es);
    DistinctIffMultiplicity(es);
    FilterMultiset(es, keep);
    DistinctIffMultiplicity(Filter(es, keep));
  }

  /** Two filters that keep the same entries of the map give the same sorted list, however
      the entries were enumerated. */
  lemma {:induction false} SameKept(es: seq<Tally>, fs: seq<Tally>, m: map<string, int>, p: Tally -> bool,
                                    q: Tally -> bool)
    requires Enumerates(es, m) && Enumerates(fs, m)
    requires forall e :: e in es ==> p(e) == q(e)
    ensures Sort(TierFirst, Filter(es, p)) == Sort(TierFirst, Filter(fs, q))
  {
    KeptOrdered(es, m, p);
    KeptOrdered(fs, m, q);
    var a, b := Sort(TierFirst, Filter(es, p)), Sort(TierFirst, Filter(fs, q));
    assert forall e :: e in es <==> e in fs;
    StrictlySortedUnique(TierFirst, a, b);
  }

  // ----- Totals -----

  /** The action points whose label is among those of the entries. */
  function InTiers(es: seq<Tally>, norm: string -> string): ActionPoint -> bool {
    (ap: ActionPoint) => exists i :: 0 <= i < |es| && es[i].0 == Label(ap, norm)
  }

  lemma {:induction false} FilterSplit(aps: seq<ActionPoint>, all: ActionPoint -> bool, p: ActionPoint -> bool,
                                       q: ActionPoint -> bool)
    requires forall ap :: all(ap) <==> p(ap) || q(ap)
    requires forall ap :: !(p(ap) && q(ap))
    ensures |Filter(aps, all)| == |Filter(aps, p)| + |Filter(aps, q)|
  {
    if aps != [] { FilterSplit(aps[..|aps| - 1], all, p, q); }
  }

  /** The counts of some tiers add up to the number of action points that carry one of
      their labels. */
  lemma {:induction false} SumCounts(aps: seq<ActionPoint>, es: seq<Tally>, norm: string -> string)
    requires forall i, j :: 0 <= i < j < |es| ==> es[i].0 != es[j].0
    requires forall i :: 0 <= i < |es| ==> es[i].1 == Count(aps, es[i].0, norm)
    ensures Sum(es) == |Filter(aps, InTiers(es, norm))|
  {
    if es == [] {
      FilterNone(aps, InTiers(es, norm));
    } else {
      var init, last := es[..|es| - 1], es[|es| - 1];
      SumCounts(aps, init, norm);
      var all, p, q := InTiers(es, norm), InTiers(init, norm), Labelled(last.0, norm);
      forall ap ensures all(ap) <==> p(ap) || q(ap) {
        if p(ap) {
          var i :| 0 <= i < |init| && init[i].0 == Label(ap, norm);
          assert es[i].0 == Label(ap, norm);
        }
        if q(ap) { assert es[|es| - 1].0 == Label(ap, norm); }
        if all(ap) && !q(ap) {
          var i :| 0 <= i < |es| && es[i].0 == Label(ap, norm);
          assert init[i].0 == Label(ap, norm);
        }
      }
      FilterSplit(aps, all, p, q);
    }
  }

  function NotP0(norm: string -> string): ActionPoint -> bool { (ap: ActionPoint) => Label(ap, norm) != P0 }

  /** Kept tiers of a computed remainder add up to the action points they stand for. */
  lemma {:induction false} KeptTotal(aps: seq<ActionPoint>, norm: string -> string, es: seq<Tally>,
                                     keep: Tally -> bool, wanted: ActionPoint -> bool)
    requires Enumerates(es, Tallies(aps, norm))
    requires forall ap :: ap in aps ==> (wanted(ap) <==> keep((Label(ap, norm), Count(aps, Label(ap, norm), norm))))
    ensures Sum(Sort(TierFirst, Filter(es, keep))) == |Filter(aps, wanted)|
  {
    var entries := Sort(TierFirst, Filter(es, keep));
    TalliesCount(aps, norm);
    KeptOrdered(es, Tallies(aps, norm), keep);
    forall i, j | 0 <= i < j < |entries| ensures entries[i].0 != entries[j].0 {
      assert TierFirst(entries[i], entries[j]) && entries[i] in es && entries[j] in es;
      DifferentLabels(es, entries[i], entries[j]);
    }
    forall i | 0 <= i < |entries| ensures entries[i].1 == Count(aps, entries[i].0, norm) { assert entries[i] in es; }
    SumCounts(aps, entries, norm);
    forall ap | ap in aps ensures InTiers(entries, norm)(ap) == wanted(ap) {
      var e := (Label(ap, norm), Count(aps, Label(ap, norm), norm));
      PointCounted(aps, ap, norm);
      assert e in es;
      if wanted(ap) {
        assert e in entries;
        var i :| 0 <= i < |entries| && entries[i] == e;
      }
      if InTiers(entries, norm)(ap) {
        var i :| 0 <= i < |entries| && entries[i].0 == e.0;
        assert entries[i] in entries;
        assert entries[i] == e;
      }
    }
    FilterAgree(aps, InTiers(entries, norm), wanted);
  }

  lemma {:induction false} DifferentLabels(es: seq<Tally>, a: Tally, b: Tally)
    requires forall i, j :: 0 <= i < j < |es| ==> es[i].0 != es[j].0
    requires a in es && b in es && TierFirst(a, b)
    ensures a.0 != b.0
  {
    LexIrreflexive(a.0);
  }

  lemma {:induction false} PointCounted(aps: seq<ActionPoint>, ap: ActionPoint, norm: string -> string)
    requires ap in aps
    ensures Count(aps, Label(ap, norm), norm) > 0
  {
    FilterIn(aps, Labelled(Label(ap, norm), norm));
    assert ap in Filter(aps, Labelled(Label(ap, norm), norm));
  }

  /** THE TOTAL of a computed remainder is the sum of its tier counts. */
  lemma {:induction false} TotalIsSum(aps: seq<ActionPoint>, norm: string -> string, es: seq<Tally>)
    requires Enumerates(es, Tallies(aps, norm))
    ensures Sum(Sort(TierFirst, Filter(es, Every()))) == |aps|
  {
    var every, all := Every(), (ap: ActionPoint) => true;
    KeptTotal(aps, norm, es, every, all);
    FilterMultiset(aps, all);
    assert multiset(Filter(aps, all)) == multiset(aps);
    SameElements(Filter(aps, all), aps);
  }

  // ----- The two summaries -----

  /** TWO SUMMARIES AGREE. On every computed remainder, and whatever the order of its
      entries, both give the same result: nothing if all points are P0, else the number
      of the other points and the same tiers in the same order. */
  lemma {:induction false} SummariesAgree(aps: seq<ActionPoint>, norm: string -> string, es: seq<Tally>, fs: seq<Tally>)
    requires Enumerates(es, Tallies(aps, norm)) && Enumerates(fs, Tallies(aps, norm))
    ensures SummarizeNonP0Remainder(es) == SummarizeNonP0(fs)
    ensures var s, n := SummarizeNonP0Remainder(es), |aps| - Count(aps, P0, norm);
            if n == 0 then s == None else s.Some? && s.value.total == n
  {
    TalliesCount(aps, norm);
    SameKept(es, fs, Tallies(aps, norm), NonP0(), NonP0Positive());
    KeptTotal(aps, norm, es, NonP0(), NotP0(norm));
    var all := (ap: ActionPoint) => true;
    FilterSplit(aps, all, NotP0(norm), Labelled(P0, norm));
    FilterMultiset(aps, all);
    assert multiset(Filter(aps, all)) == multiset(aps);
    SameElements(Filter(aps, all), aps);
  }

  /** On any remainder without negative counts the two differ only by empty tiers: they
      agree if and only if no tier but P0 is empty, or all those tiers are. */
  lemma {:induction false} SummariesAgreeIff(m: map<string, int>, es: seq<Tally>, fs: seq<Tally>)
    requires Enumerates(es, m) && Enumerates(fs, m) && forall l :: l in m ==> m[l] >= 0
    ensures SummarizeNonP0Remainder(es) == SummarizeNonP0(fs) <==>
            (forall l :: l in m && l != P0 ==> m[l] > 0) || (forall l :: l in m && l != P0 ==> m[l] == 0)
  {
    var a, b := Sort(TierFirst, Filter(es, NonP0())), Sort(TierFirst, Filter(fs, NonP0Positive()));
    KeptOrdered(es, m, NonP0());
    KeptOrdered(fs, m, NonP0Positive());
    SumPositive(a);
    SumPositive(b);
    if forall l :: l in m && l != P0 ==> m[l] > 0 {
      SameKept(es, fs, m, NonP0(), NonP0Positive());
    } else {
      var z :| z in m && z != P0 && m[z] == 0;
      assert (z, 0) in es && (z, 0) in a && (z, 0) !in b;
      if l :| l in m && l != P0 && m[l] != 0 { assert (l, m[l]) in es && (l, m[l]) in a; }
    }
  }

  /** A witness: an empty tier is listed by one summary only. */
  lemma {:induction false} EmptyTierWitness(es: seq<Tally>)
    requires Enumerates(es, map["P1" := 1, "P2" := 0])
    ensures SummarizeNonP0Remainder(es) != SummarizeNonP0(es)
  {
    var m := map["P1" := 1, "P2" := 0];
    assert "P1" in m && "P2" in m && "P1" != P0 && "P2" != P0;
    SummariesAgreeIff(m, es, es);
  }

  lemma {:induction false} SumPositive(es: seq<Tally>)
    requires forall e :: e in es ==> e.1 >= 0
    ensures Sum(es) >= 0
    ensures Sum(es) > 0 <==> exists e :: e in es && e.1 > 0
  {
    if es != [] {
      SumPositive(es[..|es| - 1]);
      assert es == es[..|es| - 1] + [es[|es| - 1]];
      assert es[|es| - 1] in es;
      assert (exists e :: e in es && e.1 > 0) ==> es[|es| - 1].1 > 0 || exists e :: e in es[..|es| - 1] && e.1 > 0;
    }
  }

  lemma {:induction false} AllSorted(aps: seq<ActionPoint>, norm: string -> string, es: seq<Tally>)
    requires Enumerates(es, Tallies(aps, norm))
    ensures Sum(Sort(TierFirst, Filter(es, Positive()))) == |aps|
  {
    TalliesCount(aps, norm);
    SameKept(es, es, Tallies(aps, norm), Positive(), Every());
    TotalIsSum(aps, norm, es);
  }

  lemma {:induction false} AllWithoutP0(m: map<string, int>, es: seq<Tally>, fs: seq<Tally>)
    requires Enumerates(es, m) && Enumerates(fs, m)
    ensures Filter(Sort(TierFirst, Filter(es, Positive())), NonP0()) == Sort(TierFirst, Filter(fs, NonP0Positive()))
  {
    var all, rest := Sort(TierFirst, Filter(es, Positive())), Sort(TierFirst, Filter(fs, NonP0Positive()));
    KeptOrdered(es, m, Positive());
    KeptOrdered(fs, m, NonP0Positive());
    FilterIn(all, NonP0());
    FilterKeepsStrict(TierFirst, all, NonP0());
    assert forall e :: e in es <==> e in fs;
    StrictlySortedUnique(TierFirst, Filter(all, NonP0()), rest);
  }

  lemma {:induction false} NonP0Sum(m: map<string, int>, fs: seq<Tally>)
    requires Enumerates(fs, m)
    ensures var rest := Sort(TierFirst, Filter(fs, NonP0Positive())); Sum(rest) <= 0 <==> rest == []
  {
    var rest := Sort(TierFirst, Filter(fs, NonP0Positive()));
    KeptOrdered(fs, m, NonP0Positive());
    SumPositive(rest);
    if rest != [] { assert rest[0] in rest; }
  }

  /** The full summary of a computed remainder lists all points; without its P0 tier it is
      the non-P0 breakdown, in the same order. */
  lemma {:induction false} AllOpenExtends(aps: seq<ActionPoint>, norm: string -> string, es: seq<Tally>, fs: seq<Tally>)
    requires aps != [] && Enumerates(es, Tallies(aps, norm)) && Enumerates(fs, Tallies(aps, norm))
    ensures var all, rest := SummarizeAllOpen(|aps|, es), SummarizeNonP0(fs);
            && all.Some? && all.value.total == |aps| == Sum(all.value.breakdown)
            && Filter(all.value.breakdown, NonP0()) == (if rest.Some? then rest.value.breakdown else [])
  {
    AllSorted(aps, norm, es);
    AllWithoutP0(Tallies(aps, norm), es, fs);
    NonP0Sum(Tallies(aps, norm), fs);
  }

  // ----- What labels, tiers and breakdowns mean -----

  /** A point is counted under its trimmed, upper-cased label, and under "P?" without one. */
  lemma {:induction false} LabelIs(ap: ActionPoint, norm: string -> string)
    ensures ap.priority == None && norm("") == "" ==> Label(ap, norm) == "P?"
    ensures forall p :: ap.priority == Some(p) ==> Label(ap, norm) == if norm(p) == "" then "P?" else norm(p)
  {
  }

  /** A REMAINDER: none without open points; else their number, and for each label that
      occurs the number of points that carry it, which add up to the total. */
  lemma {:induction false} RemainderSays(aps: seq<ActionPoint>, norm: string -> string, es: seq<Tally>)
    requires Enumerates(es, Tallies(aps, norm))
    ensures RemainderOf(aps, norm) == None <==> aps == []
    ensures aps != [] ==>
              var r := RemainderOf(aps, norm).value;
              && r.total == |aps| && r.total == Sum(Sort(TierFirst, Filter(es, Every())))
              && (forall key :: key in r.byPriority <==> exists ap :: ap in aps && Label(ap, norm) == key)
              && forall key :: key in r.byPriority ==>
                   r.byPriority[key] == |Filter(aps, (ap: ActionPoint) => Label(ap, norm) == key)|
  {
    TalliesCount(aps, norm);
    TotalIsSum(aps, norm, es);
    forall key ensures Count(aps, key, norm) > 0 <==> exists ap :: ap in aps && Label(ap, norm) == key {
      FilterIn(aps, Labelled(key, norm));
      if Count(aps, key, norm) > 0 { assert Filter(aps, Labelled(key, norm))[0] in Filter(aps, Labelled(key, norm)); }
      if ap :| ap in aps && Label(ap, norm) == key { PointCounted(aps, ap, norm); }
    }
    forall key ensures Filter(aps, Labelled(key, norm)) == Filter(aps, (ap: ActionPoint) => Label(ap, norm) == key) {
      FilterAgree(aps, Labelled(key, norm), (ap: ActionPoint) => Label(ap, norm) == key);
    }
  }

  function Decimal(n: nat): string {
    if n < 10 then [(n + '0' as int) as char] else Decimal(n / 10) + [(n % 10 + '0' as int) as char]
  }

  lemma {:induction false} DecimalDigits(n: nat)
    ensures Decimal(n) != "" && forall i :: 0 <= i < |Decimal(n)| ==> Digit(Decimal(n)[i])
  {
    if n >= 10 { DecimalDigits(n / 10); }
  }

  lemma {:induction false} DigitsThen(s: string, d: int, acc: int)
    requires 0 <= d < 10 && forall i :: 0 <= i < |s| ==> Digit(s[i])
    ensures Digits(s + [(d + '0' as int) as char], acc) == 10 * Digits(s, acc) + d
  {
    var c := (d + '0' as int) as char;
    if s == "" {
      assert s + [c] == [c] && [c][1..] == "";
    } else {
      assert (s + [c])[1..] == s[1..] + [c];
      DigitsThen(s[1..], d, 10 * acc + (s[0] as int - '0' as int));
    }
  }

  lemma {:induction false} DecimalReads(n: nat)
    ensures Digits(Decimal(n), 0) == n
  {
    if n < 10 {
      assert "" + Decimal(n) == Decimal(n);
      DigitsThen("", n, 0);
    } else {
      DecimalReads(n / 10);
      DecimalDigits(n / 10);
      DigitsThen(Decimal(n / 10), n % 10, 0);
    }
  }

  /** TIERS. "P" and a number is that tier, in either case and without the letter too; a
      label without a number, such as "P?", is in the last. */
  lemma {:induction false} TierOfNumber(n: nat)
    ensures TierOf("P" + Decimal(n)) == TierOf("p" + Decimal(n)) == TierOf(Decimal(n)) == Finite(n)
    ensures TierOf("-" + Decimal(n)).Finite? && TierOf("-" + Decimal(n)).n + n == 0
    ensures TierOf("P " + Decimal(n)) == Finite(n)
    ensures TierOf("P?") == TierOf("") == TierOf("URGENT") == Infinity
  {
    var d := Decimal(n);
    DecimalDigits(n);
    DecimalReads(n);
    assert ("P " + d)[1..] == " " + d && (" " + d)[1..] == d;
    assert ("P" + d)[1..] == d && ("p" + d)[1..] == d && ("-" + d)[1..] == d && "P?"[1..] == "?";
    assert d[0] != 'P' && d[0] != 'p' && d[0] != '-' && d[0] != '+';
  }

  /** By tier, unnumbered last, and by label within a tier. */
  predicate EarlierTier(a: string, b: string) {
    || (TierOf(a) == TierOf(b) && LexLess(a, b))
    || (TierOf(a) != TierOf(b) && TierOf(a) != Infinity
        && (TierOf(b) == Infinity || TierOf(a).n < TierOf(b).n))
  }

  predicate ByTier(breakdown: seq<Tally>) {
    forall i, j :: 0 <= i < j < |breakdown| ==> EarlierTier(breakdown[i].0, breakdown[j].0)
  }

  lemma {:induction false} SortedByTier(es: seq<Tally>, m: map<string, int>, keep: Tally -> bool)
    requires Enumerates(es, m)
    ensures ByTier(Sort(TierFirst, Filter(es, keep)))
  {
    KeptOrdered(es, m, keep);
    var entries := Sort(TierFirst, Filter(es, keep));
    forall i, j | 0 <= i < j < |entries| ensures EarlierTier(entries[i].0, entries[j].0) {
      TierFirstCases(entries[i], entries[j]);
    }
  }

  lemma {:induction false} PositiveSum(es: seq<Tally>)
    requires forall e :: e in es ==> e.1 > 0
    ensures Sum(es) >= 0 && (Sum(es) == 0 <==> es == [])
    decreases |es|
  {
    if es != [] { PositiveSum(es[..|es| - 1]); }
  }

  /** BREAKDOWN. The summary of the loop status lists exactly the tiers but P0 that count
      something, in order; its total is theirs; it says nothing only if there are none. */
  lemma {:induction false} BreakdownIs(m: map<string, int>, es: seq<Tally>)
    requires Enumerates(es, m)
    ensures match SummarizeNonP0(es)
            case None => forall key :: key in m && key != "P0" ==> m[key] <= 0
            case Some(s) =>
              && (forall e :: e in s.breakdown <==> e.0 in m && e.1 == m[e.0] && e.0 != "P0" && e.1 > 0)
              && ByTier(s.breakdown) && s.total == Sum(s.breakdown) && s.total > 0
  {
    KeptOrdered(es, m, NonP0Positive());
    SortedByTier(es, m, NonP0Positive());
    var entries := Sort(TierFirst, Filter(es, NonP0Positive()));
    PositiveSum(entries);
    forall key | key in m && key != "P0" && m[key] > 0 ensures entries != [] {
      assert (key, m[key]) in entries;
    }
  }

  /** The summary of the remainder lists all tiers but P0, in order, with their sum, and
      says nothing when that is not positive. */
  lemma {:induction false} RemainderBreakdownIs(m: map<string, int>, es: seq<Tally>)
    requires Enumerates(es, m)
    ensures var s := SummarizeNonP0Remainder(es);
            exists entries: seq<Tally> ::
              && (forall e :: e in entries <==> e.0 in m && e.1 == m[e.0] && e.0 != "P0")
              && ByTier(entries) && s == if Sum(entries) > 0 then Some(Summary(Sum(entries), entries)) else None
  {
    KeptOrdered(es, m, NonP0());
    SortedByTier(es, m, NonP0());
    var entries := Sort(TierFirst, Filter(es, NonP0()));
    assert forall e :: e in entries <==> e.0 in m && e.1 == m[e.0] && e.0 != "P0";
  }

  /** The full summary gives the stored total and lists exactly the tiers that count
      something, in order; it says nothing exactly if the total is not positive or there
      are none. */
  lemma {:induction false} AllOpenIs(total: int, m: map<string, int>, es: seq<Tally>)
    requires Enumerates(es, m)
    ensures match SummarizeAllOpen(total, es)
            case None => total <= 0 || forall key :: key in m ==> m[key] <= 0
            case Some(s) =>
              && s.total == total > 0 && s.breakdown != [] && ByTier(s.breakdown)
              && (forall e :: e in s.breakdown <==> e.0 in m && e.1 == m[e.0] && e.1 > 0)
  {
    KeptOrdered(es, m, Positive());
    SortedByTier(es, m, Positive());
    var entries := Sort(TierFirst, Filter(es, Positive()));
    forall key | key in m && m[key] > 0 ensures entries != [] {
      assert (key, m[key]) in entries;
    }
  }

}
