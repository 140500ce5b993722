/**
 Layered configuration (server/config/loader.ts): schema defaults, then config.yaml,
 then environment variables, merged object by object. The results say, for every
 path, which layer supplies the value there.
 */
module ConfigMerge {

  import opened Wrappers

  datatype Value = Null | Str(s: string) | Num(n: real) | Bool(b: bool) | Arr(items: seq<string>)

  /** A JavaScript value as the merge sees it: `undefined`, a plain object, or
      anything else. */
  datatype Json = Undef | Leaf(v: Value) | Obj(fields: map<string, Json>)

  type Path = seq<string>

  // ----- Reading a tree -----

  function LeafAt(j: Json, p: Path): Option<Value>
    decreases |p|
  {
    if p == [] then (if j.Leaf? then Some(j.v) else None)
    else if j.Obj? && p[0] in j.fields then LeafAt(j.fields[p[0]], p[1..])
    else None
  }

  /** The tree has a leaf on a proper prefix of the path, or an object at the path: it
      hides what a lower layer has there. */
  predicate Hides(j: Json, p: Path)
    decreases |p|
  {
    if p == [] then j.Obj?
    else j.Leaf? || (j.Obj? && p[0] in j.fields && Hides(j.fields[p[0]], p[1..]))
  }

  // ----- deepMerge -----

  function MergeKey(t: Json, s: Json, k: string): Json
    requires t.Obj? && s.Obj? && (k in t.fields || k in s.fields)
    decreases s, 0
  {
    if k !in s.fields then t.fields[k]
    else if s.fields[k].Obj? && k in t.fields && t.fields[k].Obj? then Merge(t.fields[k], s.fields[k])
    else if s.fields[k].Undef? && k in t.fields then t.fields[k]
    else s.fields[k]
  }

  /** `s` over `t`: objects merge key by key, anything else in `s` replaces. */
  function Merge(t: Json, s: Json): (r: Json)
    requires t.Obj? && s.Obj?
    ensures r.Obj?
    decreases s, 1
  {
    Obj(map k | k in t.fields.Keys + s.fields.Keys && (k in t.fields || !s.fields[k].Undef?) :: MergeKey(t, s, k))
  }

  method DeepMerge(t: Json, s: Json) returns (r: Json)
    requires t.Obj? && s.Obj?
    ensures r == Merge(t, s)
    decreases s
  {
    var result := t.fields;
    var todo := s.fields.Keys;
    while todo != {}
      invariant todo <= s.fields.Keys
      invariant forall k :: k in result <==> k in t.fields || (k in s.fields && k !in todo && !s.fields[k].Undef?)
      invariant forall k :: k in result ==>
                  result[k] == if k in todo then t.fields[k] else MergeKey(t, s, k)
      decreases todo
    {
      var k :| k in todo;
      var srcVal := s.fields[k];
      if srcVal.Obj? && k in t.fields && t.fields[k].Obj? {
        var merged := DeepMerge(t.fields[k], srcVal);
        result := result[k := merged];
      } else if !srcVal.Undef? {
        result := result[k := srcVal];
      }
      todo := todo - {k};
    }
    r := Obj(result);
  }

  /** A path is hidden or supplied by at most one of the two reasons. */
  lemma {:induction false} LeafOrHidden(j: Json, p: Path)
    ensures !(LeafAt(j, p).Some? && Hides(j, p))
    decreases |p|
  {
    if p != [] && j.Obj? && p[0] in j.fields { LeafOrHidden(j.fields[p[0]], p[1..]); }
  }

  /** LAYERING. At every path the merged value is the upper layer's leaf if it has one;
      nothing if the upper layer hides the path; else the lower layer's leaf. The three
      cases exclude each other. */
  lemma {:induction false} MergeAt(t: Json, s: Json, p: Path)
    requires t.Obj? && s.Obj?
    ensures LeafAt(Merge(t, s), p) ==
            if LeafAt(s, p).Some? then LeafAt(s, p) else if Hides(s, p) then None else LeafAt(t, p)
    ensures !(LeafAt(s, p).Some? && Hides(s, p))
    decreases |p|
  {
    LeafOrHidden(s, p);
    if p != [] {
      var k := p[0];
      if k in s.fields && s.fields[k].Obj? && k in t.fields && t.fields[k].Obj? {
        MergeAt(t.fields[k], s.fields[k], p[1..]);
      } else if k in s.fields && s.fields[k].Obj? && k in t.fields {
        assert LeafAt(t, p) == LeafAt(t.fields[k], p[1..]);
      } else if k in s.fields && s.fields[k].Undef? {
        assert LeafAt(s.fields[k], p[1..]) == None && !Hides(s.fields[k], p[1..]);
      }
    }
  }

  // ----- Environment overrides -----

  datatype Kind = KString | KNumber | KBoolean | KCsv

  datatype Mapping = Mapping(envKey: string, path: Path, kind: Kind)

  function TrimLeft(s: string): string {
    if s != [] && Blank(s[0]) then TrimLeft(s[1..]) else s
  }

  function TrimRight(s: string): string {
    if s != [] && Blank(s[|s| - 1]) then TrimRight(s[..|s| - 1]) else s
  }

  function Trim(s: string): string { TrimRight(TrimLeft(s)) }

  /** The pieces between commas; always at least one. */
  function Split(s: string): (r: seq<string>)
    ensures r != []
  {
    if s == [] then [""]
    else
      var rest := Split(s[1..]);
      if s[0] == ',' then [""] + rest else [[s[0]] + rest[0]] + rest[1..]
  }

  function KeepTrimmed(pieces: seq<string>): seq<string> {
    if pieces == [] then []
    else (if Trim(pieces[0]) != "" then [Trim(pieces[0])] else []) + KeepTrimmed(pieces[1..])
  }

  function ParseCsv(s: string): seq<string> { KeepTrimmed(Split(s)) }

  /** parseEnvValue; `toNumber` is JavaScript's `Number`, which gives nothing for NaN. */
  function ParseEnvValue(value: string, kind: Kind, toNumber: string -> Option<real>): Option<Value> {
    match kind
    case KBoolean => Some(Bool(value == "true" || value == "1"))
    case KNumber => if toNumber(value).Some? then Some(Num(toNumber(value).value)) else None
    case KCsv => Some(Arr(ParseCsv(value)))
    case KString => Some(Str(value))
  }

  function Join(items: seq<string>): string {
    if items == [] then "" else if |items| == 1 then items[0] else items[0] + "," + Join(items[1..])
  }

  /** An item a list can hold: non-empty, without commas or blanks at its ends. */
  predicate Clean(s: string) {
    s != "" && !Blank(s[0]) && !Blank(s[|s| - 1]) && ',' !in s
  }

  lemma {:induction false} SplitItem(a: string)
    requires ',' !in a
    ensures Split(a) == [a]
  {
    if a != [] {
      SplitItem(a[1..]);
      assert [a[0]] + a[1..] == a;
      assert [a] + [] == [a];
    }
  }

  lemma {:induction false} SplitComma(a: string, rest: string)
    requires ',' !in a
    ensures Split(a + "," + rest) == [a] + Split(rest)
  {
    var w := a + "," + rest;
    if a == [] {
      assert w[1..] == rest;
    } else {
      SplitComma(a[1..], rest);
      assert w[1..] == a[1..] + "," + rest;
      var tail := [a[1..]] + Split(rest);
      assert tail[1..] == Split(rest) && [a[0]] + tail[0] == a;
    }
  }

  lemma {:induction false} TrimClean(s: string)
    requires Clean(s)
    ensures Trim(s) == s
  {
  }

  /** Writing a list with commas and parsing it back gives the list. */
  lemma {:induction false} CsvRoundTrip(items: seq<string>)
    requires forall s :: s in items ==> Clean(s)
    ensures ParseCsv(Join(items)) == items
  {
    if items == [] {
      assert Split("") == [""];
    } else {
      TrimClean(items[0]);
      if |items| == 1 {
        SplitItem(items[0]);
        assert KeepTrimmed([items[0]]) == [items[0]] + KeepTrimmed([]);
      } else {
        CsvRoundTrip(items[1..]);
        SplitComma(items[0], Join(items[1..]));
        var rest := Split(Join(items[1..]));
        assert ([items[0]] + rest)[1..] == rest;
      }
    }
  }

  lemma {:induction false} TrimmedEnds(s: string)
    ensures Trim(s) == "" || (!Blank(Trim(s)[0]) && !Blank(Trim(s)[|Trim(s)| - 1]))
    ensures forall c :: c in Trim(s) ==> c in s
  {
    LeftTrimmed(s);
    RightTrimmed(TrimLeft(s));
  }

  lemma {:induction false} LeftTrimmed(s: string)
    ensures TrimLeft(s) == "" || !Blank(TrimLeft(s)[0])
    ensures forall c :: c in TrimLeft(s) ==> c in s
  {
    if s != [] && Blank(s[0]) { LeftTrimmed(s[1..]); }
  }

  lemma {:induction false} RightTrimmed(s: string)
    ensures TrimRight(s) == "" || (TrimRight(s)[0] == s[0] && !Blank(TrimRight(s)[|TrimRight(s)| - 1]))
    ensures forall c :: c in TrimRight(s) ==> c in s
  {
    if s != [] && Blank(s[|s| - 1]) { RightTrimmed(s[..|s| - 1]); }
  }

  lemma {:induction false} PiecesCommaFree(s: string, i: nat)
    requires i < |Split(s)|
    ensures ',' !in Split(s)[i]
  {
    if s != [] {
      if s[0] == ',' {
        if i > 0 { PiecesCommaFree(s[1..], i - 1); }
      } else {
        PiecesCommaFree(s[1..], i);
      }
    }
  }

  lemma {:induction false} KeptAreTrimmed(pieces: seq<string>)
    requires forall q :: q in pieces ==> ',' !in q
    ensures forall q :: q in KeepTrimmed(pieces) ==> Clean(q)
  {
    if pieces != [] {
      TrimmedEnds(pieces[0]);
      KeptAreTrimmed(pieces[1..]);
    }
  }

  /** Whatever the variable holds, every parsed item is clean. */
  lemma {:induction false} CsvItemsClean(s: string)
    ensures forall q :: q in ParseCsv(s) ==> Clean(q)
  {
    forall i | 0 <= i < |Split(s)| ensures ',' !in Split(s)[i] { PiecesCommaFree(s, i); }
    KeptAreTrimmed(Split(s));
  }

  /** What a variable's text means: "true" and "1" are true and all else false; a number is
      what JavaScript reads, or nothing; a string is itself; a list holds the trimmed,
      non-empty pieces between the commas. */
  lemma {:induction false} ParseMeans(value: string, toNumber: string -> Option<real>)
    ensures ParseEnvValue(value, KBoolean, toNumber) == Some(Bool(value in {"true", "1"}))
    ensures ParseEnvValue(value, KNumber, toNumber) ==
            (match toNumber(value) case None => None case Some(n) => Some(Num(n)))
    ensures ParseEnvValue(value, KString, toNumber) == Some(Str(value))
    ensures ParseEnvValue(value, KCsv, toNumber) == Some(Arr(ParseCsv(value)))
  {
  }

  predicate Blanks(s: string) { forall i :: 0 <= i < |s| ==> Blank(s[i]) }

  lemma {:induction false} TrimLeftBlanks(l: string, s: string)
    requires Blanks(l) && (s == "" || !Blank(s[0]))
    ensures TrimLeft(l + s) == s
  {
    if l == "" {
      assert l + s == s;
    } else {
      TrimLeftBlanks(l[1..], s);
      assert (l + s)[1..] == l[1..] + s;
    }
  }

  lemma {:induction false} TrimRightBlanks(s: string, r: string)
    requires Blanks(r) && (s == "" || !Blank(s[|s| - 1]))
    ensures TrimRight(s + r) == s
  {
    if r == "" {
      assert s + r == s;
    } else {
      TrimRightBlanks(s, r[..|r| - 1]);
      assert (s + r)[..|s + r| - 1] == s + r[..|r| - 1];
    }
  }

  /** An item with blanks around it. */
  datatype Padded = Padded(left: string, item: string, right: string) {
    predicate Valid() { Blanks(left) && Clean(item) && Blanks(right) && ',' !in left && ',' !in right }

    function Text(): string { left + item + right }
  }

  lemma {:induction false} TrimPadded(p: Padded)
    requires p.Valid()
    ensures Trim(p.Text()) == p.item && ',' !in p.Text()
  {
    assert p.Text() == p.left + (p.item + p.right);
    TrimLeftBlanks(p.left, p.item + p.right);
    TrimRightBlanks(p.item, p.right);
  }

  function Texts(ps: seq<Padded>): seq<string> {
    if ps == [] then [] else [ps[0].Text()] + Texts(ps[1..])
  }

  function Items(ps: seq<Padded>): seq<string> {
    if ps == [] then [] else [ps[0].item] + Items(ps[1..])
  }

  /** A list written with blanks around its items parses to the items. */
  lemma {:induction false} CsvPadded(ps: seq<Padded>)
    requires forall p :: p in ps ==> p.Valid()
    ensures ParseCsv(Join(Texts(ps))) == Items(ps)
  {
    if ps == [] {
      assert Split("") == [""];
    } else {
      TrimPadded(ps[0]);
      var text := ps[0].Text();
      if |ps| == 1 {
        assert ps[1..] == [] && Texts(ps) == [text];
        SplitItem(text);
        assert KeepTrimmed([text]) == [ps[0].item] + KeepTrimmed([]);
      } else {
        CsvPadded(ps[1..]);
        assert Texts(ps)[1..] == Texts(ps[1..]);
        SplitComma(text, Join(Texts(ps[1..])));
        var rest := Split(Join(Texts(ps[1..])));
        assert ([text] + rest)[1..] == rest;
      }
    }
  }

  /** setNested: missing and non-object steps become objects. An array on the way
      keeps its contents (the value becomes a property no merge ever reads). */
  function SetNested(j: Json, p: Path, v: Value): (r: Json)
    requires j.Obj? && p != []
    ensures r.Obj?
    decreases |p|
  {
    if |p| == 1 then Obj(j.fields[p[0] := Leaf(v)])
    else if p[0] in j.fields && j.fields[p[0]].Leaf? && j.fields[p[0]].v.Arr? then j
    else
      var child := if p[0] in j.fields && j.fields[p[0]].Obj? then j.fields[p[0]] else Obj(map[]);
      Obj(j.fields[p[0] := SetNested(child, p[1..], v)])
  }

  predicate IsPrefix(a: Path, b: Path) { a <= b }

  lemma {:induction false} PrefixTail(a: Path, b: Path)
    requires a != [] && b != [] && a[0] == b[0]
    ensures a <= b <==> a[1..] <= b[1..]
    ensures a == b <==> a[1..] == b[1..]
  {
    assert a == [a[0]] + a[1..] && b == [b[0]] + b[1..];
  }

  /** Setting one path changes that path alone, when no leaf stands on the way to it. */
  lemma {:induction false} SetNestedAt(j: Json, q: Path, v: Value, p: Path)
    requires j.Obj? && q != []
    requires forall k :: 0 < k < |q| ==> LeafAt(j, q[..k]) == None
    ensures LeafAt(SetNested(j, q, v), p) == if p == q then Some(v) else if IsPrefix(q, p) then None else LeafAt(j, p)
    decreases |q|
  {
    if p != [] && p[0] == q[0] {
      PrefixTail(q, p);
      if |q| == 1 {
        assert q[1..] == [];
      } else {
        assert q[..1] == [q[0]] && q[..1][1..] == [];
        assert q[0] in j.fields ==> LeafAt(j, q[..1]) == LeafAt(j.fields[q[0]], []);
        assert q[0] in j.fields ==> !j.fields[q[0]].Leaf?;
        var child := if q[0] in j.fields && j.fields[q[0]].Obj? then j.fields[q[0]] else Obj(map[]);
        forall k | 0 < k < |q[1..]| ensures LeafAt(child, q[1..][..k]) == None {
          assert q[..k + 1][1..] == q[1..][..k];
          assert LeafAt(j, q[..k + 1]) == None;
        }
        SetNestedAt(child, q[1..], v, p[1..]);
      }
    } else if p != [] {
      assert !(q <= p);
    }
  }

  function Parsed(m: Mapping, env: map<string, string>, toNumber: string -> Option<real>): Option<Value> {
    if m.envKey in env then ParseEnvValue(env[m.envKey], m.kind, toNumber) else None
  }

  /** The overrides of the first mappings, in table order. */
  function Overrides(ms: seq<Mapping>, env: map<string, string>, toNumber: string -> Option<real>): (r: Json)
    requires forall m :: m in ms ==> m.path != []
    ensures r.Obj?
  {
    if ms == [] then Obj(map[])
    else
      var rest := Overrides(ms[..|ms| - 1], env, toNumber);
      var m := ms[|ms| - 1];
      if Parsed(m, env, toNumber).Some? then SetNested(rest, m.path, Parsed(m, env, toNumber).value) else rest
  }

  method BuildEnvOverrides(ms: seq<Mapping>, env: map<string, string>,
                           toNumber: string -> Option<real>) returns (r: Json)
    requires forall m :: m in ms ==> m.path != []
    ensures r == Overrides(ms, env, toNumber)
  {
    r := Obj(map[]);
    for i := 0 to |ms|
      invariant r == Overrides(ms[..i], env, toNumber)
    {
      assert ms[..i + 1][..i] == ms[..i];
      var m := ms[i];
      if m.envKey !in env { continue; }
      var parsed := ParseEnvValue(env[m.envKey], m.kind, toNumber);
      if parsed.None? { continue; }
      r := SetNested(r, m.path, parsed.value);
    }
    assert ms[..|ms|] == ms;
  }

  /** No path of the table lies strictly below another one. */
  ghost predicate PrefixFree(ms: seq<Mapping>) {
    && (forall m :: m in ms ==> m.path != [])
    && (forall m, n :: m in ms && n in ms && IsPrefix(m.path, n.path) ==> m.path == n.path)
  }

  /** The parse of the last mapping of a path whose variable is set and parses. */
  function LastSet(ms: seq<Mapping>, env: map<string, string>, toNumber: string -> Option<real>,
                   p: Path): Option<Value> {
    if ms == [] then None
    else
      var m := ms[|ms| - 1];
      if m.path == p && Parsed(m, env, toNumber).Some? then Parsed(m, env, toNumber)
      else LastSet(ms[..|ms| - 1], env, toNumber, p)
  }

  /** Mapping `i` supplies the path: its variable is set and its text means this value. */
  predicate Supplies(ms: seq<Mapping>, env: map<string, string>, toNumber: string -> Option<real>, p: Path,
                     i: nat, v: Value)
    requires i < |ms|
  {
    ms[i].path == p && ms[i].envKey in env && ParseEnvValue(env[ms[i].envKey], ms[i].kind, toNumber) == Some(v)
  }

  /** It is the last mapping that supplies the path, or there is none. */
  lemma {:induction false} LastSetIs(ms: seq<Mapping>, env: map<string, string>, toNumber: string -> Option<real>,
                                     p: Path)
    ensures LastSet(ms, env, toNumber, p) == None <==>
            forall i, v :: 0 <= i < |ms| ==> !Supplies(ms, env, toNumber, p, i, v)
    ensures forall i, v :: 0 <= i < |ms| && Supplies(ms, env, toNumber, p, i, v)
                           && (forall j, x :: i < j < |ms| ==> !Supplies(ms, env, toNumber, p, j, x))
              ==> LastSet(ms, env, toNumber, p) == Some(v)
  {
    if ms != [] {
      var n := |ms| - 1;
      LastSetIs(ms[..n], env, toNumber, p);
      assert forall i, v :: 0 <= i < n ==>
               (Supplies(ms, env, toNumber, p, i, v) <==> Supplies(ms[..n], env, toNumber, p, i, v));
      if Parsed(ms[n], env, toNumber).Some? && ms[n].path == p {
        assert Supplies(ms, env, toNumber, p, n, Parsed(ms[n], env, toNumber).value);
      }
    }
  }

  lemma {:induction false} LastSetMapped(ms: seq<Mapping>, env: map<string, string>, toNumber: string -> Option<real>,
                                         p: Path)
    requires LastSet(ms, env, toNumber, p).Some?
    ensures exists m :: m in ms && m.path == p
  {
    if ms[|ms| - 1].path != p || Parsed(ms[|ms| - 1], env, toNumber).None? {
      LastSetMapped(ms[..|ms| - 1], env, toNumber, p);
    }
  }

  /** ENVIRONMENT. For a prefix-free table the overrides hold, at every path, the parse
      of the last mapping of that path whose variable is set and parses, and nothing
      anywhere else. */
  lemma {:induction false} OverridesAt(ms: seq<Mapping>, env: map<string, string>, toNumber: string -> Option<real>,
                                       p: Path)
    requires PrefixFree(ms)
    ensures LeafAt(Overrides(ms, env, toNumber), p) == LastSet(ms, env, toNumber, p)
    decreases |ms|
  {
    if ms != [] {
      var rest, m := ms[..|ms| - 1], ms[|ms| - 1];
      assert m in ms;
      OverridesAt(rest, env, toNumber, p);
      if Parsed(m, env, toNumber).Some? {
        var j := Overrides(rest, env, toNumber);
        forall k | 0 < k < |m.path| ensures LeafAt(j, m.path[..k]) == None {
          OverridesAt(rest, env, toNumber, m.path[..k]);
          if LeafAt(j, m.path[..k]).Some? {
            LastSetMapped(rest, env, toNumber, m.path[..k]);
            var n :| n in rest && n.path == m.path[..k];
            assert n in ms && IsPrefix(n.path, m.path);
          }
        }
        SetNestedAt(j, m.path, Parsed(m, env, toNumber).value, p);
        if LastSet(rest, env, toNumber, p).Some? {
          LastSetMapped(rest, env, toNumber, p);
          var n :| n in rest && n.path == p;
          assert n in ms;
        }
      }
    }
  }

  // ----- load -----

  /** The three layers merged, before validation. */
  method Load(defaults: Json, yaml: Json, ms: seq<Mapping>, env: map<string, string>, toNumber: string -> Option<real>)
    returns (merged: Json)
    requires defaults.Obj? && yaml.Obj? && forall m :: m in ms ==> m.path != []
    ensures merged == Merge(Merge(defaults, yaml), Overrides(ms, env, toNumber))
    ensures PrefixFree(ms) ==> forall p ::
              LeafAt(merged, p) ==
              if LastSet(ms, env, toNumber, p).Some? then LastSet(ms, env, toNumber, p)
              else if Hides(Overrides(ms, env, toNumber), p) then None
              else if LeafAt(yaml, p).Some? then LeafAt(yaml, p)
              else if Hides(yaml, p) then None
              else LeafAt(defaults, p)
  {
    var afterYaml := DeepMerge(defaults, yaml);
    var overrides := BuildEnvOverrides(ms, env, toNumber);
    merged := DeepMerge(afterYaml, overrides);
    if PrefixFree(ms) {
      forall p { LayeredAt(defaults, yaml, ms, env, toNumber, p); }
    }
  }

  /** LAYERED CONFIGURATION. At every path: the last environment variable that is set
      and parses; else nothing if the environment hides the path; else config.yaml's
      value; else nothing if config.yaml hides it; else the default. */
  lemma {:induction false} LayeredAt(defaults: Json, yaml: Json, ms: seq<Mapping>, env: map<string, string>,
                                     toNumber: string -> Option<real>, p: Path)
    requires defaults.Obj? && yaml.Obj? && PrefixFree(ms)
    ensures var overrides := Overrides(ms, env, toNumber);
            LeafAt(Merge(Merge(defaults, yaml), overrides), p) ==
              if LastSet(ms, env, toNumber, p).Some? then LastSet(ms, env, toNumber, p)
              else if Hides(overrides, p) then None
              else if LeafAt(yaml, p).Some? then LeafAt(yaml, p)
              else if Hides(yaml, p) then None
              else LeafAt(defaults, p)
    ensures !(LastSet(ms, env, toNumber, p).Some? && Hides(Overrides(ms, env, toNumber), p))
    ensures !(LeafAt(yaml, p).Some? && Hides(yaml, p))
  {
    var overrides := Overrides(ms, env, toNumber);
    OverridesAt(ms, env, toNumber, p);
    MergeAt(Merge(defaults, yaml), overrides, p);
    MergeAt(defaults, yaml, p);
  }
}
