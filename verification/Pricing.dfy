/**
 Model pricing lookup (shared/pricing.ts): an exact-match index in front of a scan for
 the longest name that is a prefix of the slug.
 */
module Pricing {

  import opened Wrappers

  datatype Entry = Entry(provider: string, model: string, inputPer1M: real, outputPer1M: real)

  // ----- Lookup -----

  /** The exact-match index; a later entry of the same name replaces an earlier one. */
  function ExactIndex(table: seq<Entry>): map<string, Entry> {
    if table == [] then map[]
    else
      var e := table[|table| - 1];
      ExactIndex(table[..|table| - 1])[e.model := e]
  }

  /** The best entry of the scan so far; nothing has length 0. */
  function Scan(table: seq<Entry>, slug: string): Option<Entry> {
    if table == [] then None
    else
      var best, e := Scan(table[..|table| - 1], slug), table[|table| - 1];
      if e.model <= slug && |e.model| > (if best.Some? then |best.value.model| else 0) then Some(e) else best
  }

  function Lookup(table: seq<Entry>, slug: string): Option<Entry> {
    var index := ExactIndex(table);
    if slug in index then Some(index[slug]) else Scan(table, slug)
  }

  method LookupPricing(table: seq<Entry>, slug: string) returns (r: Option<Entry>)
    ensures r == Lookup(table, slug)
  {
    var index: map<string, Entry> := map[];
    for i := 0 to |table|
      invariant index == ExactIndex(table[..i])
    {
      assert table[..i + 1][..i] == table[..i];
      index := index[table[i].model := table[i]];
    }
    assert table[..|table|] == table;
    if slug in index { return Some(index[slug]); }
    var best: Option<Entry> := None;
    var bestLen := 0;
    for i := 0 to |table|
      invariant best == Scan(table[..i], slug)
      invariant bestLen == if best.Some? then |best.value.model| else 0
    {
      assert table[..i + 1][..i] == table[..i];
      var entry := table[i];
      if entry.model <= slug && |entry.model| > bestLen {
        best := Some(entry);
        bestLen := |entry.model|;
      }
    }
    return best;
  }

  // ----- What is found -----

  /** An entry prices a slug when its name is a prefix of it; the empty name prices only
      the empty slug. */
  predicate Prices(e: Entry, slug: string) {
    e.model <= slug && (e.model != "" || slug == "")
  }

  ghost predicate LongestPrefix(table: seq<Entry>, slug: string, e: Entry) {
    && e in table && Prices(e, slug)
    && forall f :: f in table && Prices(f, slug) ==> |f.model| <= |e.model|
  }

  lemma {:induction false} IndexHolds(table: seq<Entry>)
    ensures forall slug :: slug in ExactIndex(table) <==> exists e :: e in table && e.model == slug
    ensures forall slug :: slug in ExactIndex(table) ==>
            ExactIndex(table)[slug] in table && ExactIndex(table)[slug].model == slug
  {
    if table != [] {
      var init, last := table[..|table| - 1], table[|table| - 1];
      IndexHolds(init);
      assert table == init + [last];
      forall slug ensures slug in ExactIndex(table) <==> exists e :: e in table && e.model == slug {
        if slug in ExactIndex(init) { assert ExactIndex(init)[slug] in table; }
        if slug == last.model { assert last in table; }
      }
    }
  }

  lemma {:induction false} ScanFinds(table: seq<Entry>, slug: string)
    ensures match Scan(table, slug)
            case None => forall e :: e in table && e.model <= slug ==> e.model == ""
            case Some(e) => e.model != "" && LongestPrefix(table, slug, e)
  {
    if table != [] {
      ScanFinds(table[..|table| - 1], slug);
      assert table == table[..|table| - 1] + [table[|table| - 1]];
    }
  }

  /** LONGEST PREFIX. For any table and slug, the lookup finds an entry whose name is a
      longest prefix of the slug, and finds nothing only if no entry prices the slug. */
  lemma {:induction false} LookupFinds(table: seq<Entry>, slug: string)
    ensures match Lookup(table, slug)
            case None => forall e :: e in table ==> !Prices(e, slug)
            case Some(e) => LongestPrefix(table, slug, e)
  {
    IndexHolds(table);
    ScanFinds(table, slug);
  }

  ghost predicate DistinctNames(table: seq<Entry>) {
    forall i, j :: 0 <= i < j < |table| ==> table[i].model != table[j].model
  }

  lemma {:induction false} SameName(table: seq<Entry>, a: Entry, b: Entry)
    requires DistinctNames(table) && a in table && b in table && a.model == b.model
    ensures a == b
  {
    var i :| 0 <= i < |table| && table[i] == a;
    var j :| 0 <= j < |table| && table[j] == b;
  }

  /** With distinct names the longest-prefix entry is unique, so the lookup returns exactly
      the entries that qualify. */
  lemma {:induction false} LookupIsLongestPrefix(table: seq<Entry>, slug: string, e: Entry)
    requires DistinctNames(table)
    ensures Lookup(table, slug) == Some(e) <==> LongestPrefix(table, slug, e)
  {
    LookupFinds(table, slug);
    if LongestPrefix(table, slug, e) {
      var found := Lookup(table, slug).value;
      assert found.model == slug[..|found.model|] && e.model == slug[..|e.model|];
      SameName(table, found, e);
    }
  }

  /** ORDER INDEPENDENCE. Two tables with the same entries and distinct names price every
      slug alike. */
  lemma {:induction false} OrderIrrelevant(a: seq<Entry>, b: seq<Entry>, slug: string)
    requires DistinctNames(a) && DistinctNames(b) && forall e :: e in a <==> e in b
    ensures Lookup(a, slug) == Lookup(b, slug)
  {
    LookupFinds(a, slug);
    LookupFinds(b, slug);
    if Lookup(a, slug).Some? { LookupIsLongestPrefix(b, slug, Lookup(a, slug).value); }
  }

  // ----- The index against the scan -----

  function FirstNamed(table: seq<Entry>, name: string): Option<Entry> {
    if table == [] then None else if table[0].model == name then Some(table[0]) else FirstNamed(table[1..], name)
  }

  lemma {:induction false} FirstNamedNext(table: seq<Entry>, last: Entry, name: string)
    ensures FirstNamed(table + [last], name) ==
            if FirstNamed(table, name).Some? then FirstNamed(table, name)
                else if last.model == name then Some(last) else None
  {
    if table != [] {
      assert (table + [last])[1..] == table[1..] + [last];
      FirstNamedNext(table[1..], last, name);
    }
  }

  /** The scan returns the first of the entries that are named like the slug. */
  lemma {:induction false} ScanNamed(table: seq<Entry>, slug: string)
    requires slug != ""
    ensures FirstNamed(table, slug).Some? ==> Scan(table, slug) == FirstNamed(table, slug)
    ensures FirstNamed(table, slug).None? ==> forall e :: e in table ==> e.model != slug
  {
    if table != [] {
      var init, last := table[..|table| - 1], table[|table| - 1];
      assert table == init + [last];
      ScanNamed(init, slug);
      FirstNamedNext(init, last, slug);
      ScanFinds(init, slug);
      FirstNamedIn(init, slug);
      if Scan(init, slug).Some? {
        var best := Scan(init, slug).value;
        assert best in init && best.model == slug[..|best.model|];
        assert |best.model| == |slug| ==> best.model == slug;
      }
      assert last.model <= slug ==> |last.model| <= |slug|;
    }
  }

  /** FAST PATH. The exact-match index changes the scan's answer for a slug if and only if
      some entry bears that name and either the name is empty or the last such entry is
      not the first. With distinct non-empty names it never does. */
  lemma {:induction false} IndexAgreesIff(table: seq<Entry>, slug: string)
    ensures Lookup(table, slug) == Scan(table, slug) <==>
            (slug in ExactIndex(table) ==> slug != "" && FirstNamed(table, slug) == Some(ExactIndex(table)[slug]))
  {
    IndexHolds(table);
    ScanFinds(table, slug);
    if slug != "" { ScanNamed(table, slug); }
  }

  lemma {:induction false} IndexAgrees(table: seq<Entry>, slug: string)
    requires DistinctNames(table) && forall e :: e in table ==> e.model != ""
    ensures Lookup(table, slug) == Scan(table, slug)
  {
    IndexHolds(table);
    IndexAgreesIff(table, slug);
    if slug in ExactIndex(table) {
      FirstNamedIn(table, slug);
      ScanNamed(table, slug);
      SameName(table, FirstNamed(table, slug).value, ExactIndex(table)[slug]);
    }
  }

  lemma {:induction false} FirstNamedIn(table: seq<Entry>, name: string)
    ensures FirstNamed(table, name).Some? ==>
            FirstNamed(table, name).value in table && FirstNamed(table, name).value.model == name
    ensures FirstNamed(table, name).None? ==> forall e :: e in table ==> e.model != name
  {
    if table != [] {
      FirstNamedIn(table[1..], name);
      assert table == [table[0]] + table[1..];
    }
  }

  // ----- The rule in the comment -----

  function FirstPrefix(table: seq<Entry>, slug: string): Option<Entry> {
    if table == [] then None else if table[0].model <= slug then Some(table[0]) else FirstPrefix(table[1..], slug)
  }

  /** The comment above the lookup: an exact match, else the first entry whose name is a
      prefix. */
  function Documented(table: seq<Entry>, slug: string): Option<Entry> {
    var index := ExactIndex(table);
    if slug in index then Some(index[slug]) else FirstPrefix(table, slug)
  }

  lemma {:induction false} NoFirstPrefix(table: seq<Entry>, slug: string)
    requires FirstPrefix(table, slug).None?
    ensures forall e :: e in table ==> !(e.model <= slug)
  {
    if table != [] { NoFirstPrefix(table[1..], slug); }
  }

  /** The code follows the comment for a slug if and only if the first entry whose name is
      a prefix is the one with the longest such name. */
  lemma {:induction false} CommentHoldsIff(table: seq<Entry>, slug: string)
    requires DistinctNames(table)
    ensures Lookup(table, slug) == Documented(table, slug) <==>
            (Documented(table, slug).Some? ==> LongestPrefix(table, slug, Documented(table, slug).value))
  {
    LookupFinds(table, slug);
    if Documented(table, slug).Some? {
      LookupIsLongestPrefix(table, slug, Documented(table, slug).value);
    } else {
      NoFirstPrefix(table, slug);
    }
  }

  /** A witness: an 8b model is not priced like the model listed before it. */
  lemma {:induction false} LongestNotFirst()
    ensures var flash := Entry("google", "gemini-1.5-flash", 0.075, 0.3);
            var small := Entry("google", "gemini-1.5-flash-8b", 0.0375, 0.15);
            var slug := "gemini-1.5-flash-8b-001";
            flash.model <= slug && Lookup([flash, small], slug) == Some(small)
  {
    var flash := Entry("google", "gemini-1.5-flash", 0.075, 0.3);
    var small := Entry("google", "gemini-1.5-flash-8b", 0.0375, 0.15);
    var table, slug := [flash, small], "gemini-1.5-flash-8b-001";
    assert slug[..19] == small.model && slug[..16] == flash.model;
    assert table[0] == flash && table[1] == small;
    assert |flash.model| == 16 && |small.model| == 19;
    assert LongestPrefix(table, slug, small);
    LookupIsLongestPrefix(table, slug, small);
  }
}
