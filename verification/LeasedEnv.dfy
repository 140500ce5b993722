/**
 Exec-time secret delivery (server/credentials/deliver-leased-env.ts): one lease per
 bound secret, possibly a temp directory for a kubeconfig, and an undo path when any
 awaited step fails. How every awaited step turns out is an input (`Attempt`), so
 the results hold whichever step fails; the outside world keeps ledgers of what it
 was asked to do.
 */
module LeasedEnv {

  import opened Wrappers

  datatype Metadata = Metadata(id: string, name: string)

  datatype Shaped = Shaped(env: map<string, string>, scrubExtra: seq<string>, kubeconfig: Option<string>)

  /** How the steps for one bound secret turn out: the lease issued or refused, the
      secret read or not, its payload shaped or malformed, the temp directory made or
      not, the kubeconfig written or not. */
  datatype Attempt = Attempt(lease: Option<string>, secretRead: bool, shaped: Option<Shaped>, dir: Option<string>,
                             written: bool)
  {
    /** A kubeconfig has to be materialised. */
    predicate NeedsDir() { lease.Some? && secretRead && shaped.Some? && shaped.value.kubeconfig.Some? }

    predicate Fails() { lease.None? || !secretRead || (NeedsDir() && (dir.None? || !written)) }

    function Issues(): seq<string> { if lease.Some? then [lease.value] else [] }

    function Makes(): seq<string> { if NeedsDir() && dir.Some? then [dir.value] else [] }

    function Writes(): seq<string> { if NeedsDir() && dir.Some? && written then [ConfigPath(dir.value)] else [] }
  }

  function ConfigPath(dir: string): string { dir + "/config" }

  datatype Delivery = Delivery(env: map<string, string>, values: seq<string>, leaseIds: seq<string>,
      tempDirs: seq<string>)

  datatype Result = Delivered(d: Delivery) | Threw

  /** The bound credential ids, the names known for them, and how each attempt goes. */
  datatype Job = Job(bound: seq<string>, names: map<string, string>, attempts: seq<Attempt>) {
    predicate Valid() { |attempts| == |bound| }

    /** A credential removed since it was bound has no name and is skipped. */
    predicate Named(i: nat)
      requires i < |bound|
    {
      bound[i] in names
    }

    predicate FailsAt(i: nat)
      requires Valid() && i < |bound|
    {
      Named(i) && attempts[i].Fails()
    }

    predicate NoneFailed(n: nat)
      requires Valid() && n <= |bound|
    {
      forall i :: 0 <= i < n ==> !FailsAt(i)
    }
  }

  // ----- What the first n bound secrets come to -----

  /** Leases issued, in bound order. */
  function Issued(job: Job, n: nat): seq<string>
    requires job.Valid() && n <= |job.bound|
  {
    if n == 0 then [] else Issued(job, n - 1) + if job.Named(n - 1) then job.attempts[n - 1].Issues() else []
  }

  /** Temp directories made. */
  function Made(job: Job, n: nat): seq<string>
    requires job.Valid() && n <= |job.bound|
  {
    if n == 0 then [] else Made(job, n - 1) + if job.Named(n - 1) then job.attempts[n - 1].Makes() else []
  }

  /** Kubeconfig paths written. */
  function Written(job: Job, n: nat): seq<string>
    requires job.Valid() && n <= |job.bound|
  {
    if n == 0 then [] else Written(job, n - 1) + if job.Named(n - 1) then job.attempts[n - 1].Writes() else []
  }

  function AddEnv(env: map<string, string>, a: Attempt): map<string, string> {
    var e := if a.shaped.Some? then env + a.shaped.value.env else env;
    if a.Writes() != [] then e["KUBECONFIG" := a.Writes()[0]] else e
  }

  function AddValues(a: Attempt): seq<string> {
    (if a.shaped.Some? then a.shaped.value.scrubExtra else []) + a.Writes()
  }

  function Env(job: Job, n: nat): map<string, string>
    requires job.Valid() && n <= |job.bound|
  {
    if n == 0 then map[] else if job.Named(n - 1) then AddEnv(Env(job, n - 1), job.attempts[n - 1]) else Env(job, n - 1)
  }

  function Values(job: Job, n: nat): seq<string>
    requires job.Valid() && n <= |job.bound|
  {
    if n == 0 then [] else Values(job, n - 1) + if job.Named(n - 1) then AddValues(job.attempts[n - 1]) else []
  }

  /** The positions of the bound secrets that still have a name. */
  function NamedAt(job: Job, n: nat): seq<nat>
    requires job.Valid() && n <= |job.bound|
  {
    if n == 0 then [] else NamedAt(job, n - 1) + if job.Named(n - 1) then [n - 1] else []
  }

  /** Without a failure there is exactly one lease per named secret, in bound order,
      malformed payloads included. */
  lemma {:induction false} OneLeasePerNamedSecret(job: Job, n: nat)
    requires job.Valid() && n <= |job.bound| && job.NoneFailed(n)
    ensures |Issued(job, n)| == |NamedAt(job, n)|
    ensures forall k :: 0 <= k < |NamedAt(job, n)| ==>
              var i := NamedAt(job, n)[k];
              i < n && job.Named(i) && job.attempts[i].lease == Some(Issued(job, n)[k])
  {
    if n > 0 {
      OneLeasePerNamedSecret(job, n - 1);
      assert !job.FailsAt(n - 1);
    }
  }

  lemma {:induction false} PathRedacted(job: Job, n: nat, p: string)
    requires job.Valid() && n <= |job.bound| && p in Written(job, n)
    ensures p in Values(job, n)
  {
    if p in Written(job, n - 1) {
      PathRedacted(job, n - 1, p);
    } else {
      assert p in AddValues(job.attempts[n - 1]);
    }
  }

  lemma {:induction false} ExtraRedacted(job: Job, n: nat, i: nat, v: string)
    requires job.Valid() && i < n <= |job.bound| && job.Named(i)
    requires job.attempts[i].shaped.Some? && v in job.attempts[i].shaped.value.scrubExtra
    ensures v in Values(job, n)
  {
    if i < n - 1 {
      ExtraRedacted(job, n - 1, i, v);
    } else {
      assert v in AddValues(job.attempts[i]);
    }
  }

  /** Everything to redact is in the values: every kubeconfig path written and every
      extra value of a delivered secret. */
  lemma {:induction false} EverythingRedacted(job: Job, n: nat)
    requires job.Valid() && n <= |job.bound|
    ensures forall p :: p in Written(job, n) ==> p in Values(job, n)
    ensures forall i :: 0 <= i < n && job.Named(i) && job.attempts[i].shaped.Some? ==>
              forall v :: v in job.attempts[i].shaped.value.scrubExtra ==> v in Values(job, n)
  {
    forall p | p in Written(job, n) ensures p in Values(job, n) { PathRedacted(job, n, p); }
    forall i, v | 0 <= i < n && job.Named(i) && job.attempts[i].shaped.Some? &&
        v in job.attempts[i].shaped.value.scrubExtra
      ensures v in Values(job, n)
    {
      ExtraRedacted(job, n, i, v);
    }
  }

  /** After the last kubeconfig was written, and while no later secret sets the
      variable itself, KUBECONFIG names that file. */
  lemma {:induction false} KubeconfigNamesLastFile(job: Job, n: nat, i: nat)
    requires job.Valid() && i < n <= |job.bound|
    requires job.Named(i) && job.attempts[i].Writes() != []
    requires forall j :: i < j < n && job.Named(j) ==>
               job.attempts[j].Writes() == [] && (job.attempts[j].shaped.Some? ==>
                   "KUBECONFIG" !in job.attempts[j].shaped.value.env)
    ensures "KUBECONFIG" in Env(job, n) && Env(job, n)["KUBECONFIG"] == job.attempts[i].Writes()[0]
  {
    if i < n - 1 { KubeconfigNamesLastFile(job, n - 1, i); }
  }

  // ----- What a delivery holds -----

  /** The steps for a secret fail: no lease, an unreadable secret, or a kubeconfig that
      gets no directory or is not written. A malformed payload is no failure. */
  lemma {:induction false} FailsIff(a: Attempt)
    ensures a.Fails() <==>
            || a.lease == None
            || !a.secretRead
            || (a.shaped.Some? && a.shaped.value.kubeconfig.Some? && (a.dir == None || !a.written))
  {
  }

  /** A secret whose payload was shaped sets the variable. */
  predicate Sets(job: Job, i: nat, key: string)
    requires job.Valid() && i < |job.bound|
  {
    job.bound[i] in job.names && job.attempts[i].shaped.Some? && key in job.attempts[i].shaped.value.env
  }

  /** A secret whose kubeconfig was written to a directory. */
  predicate WritesFile(job: Job, i: nat)
    requires job.Valid() && i < |job.bound|
  {
    && job.bound[i] in job.names && job.attempts[i].lease.Some? && job.attempts[i].secretRead
    && job.attempts[i].shaped.Some? && job.attempts[i].shaped.value.kubeconfig.Some?
    && job.attempts[i].dir.Some? && job.attempts[i].written
  }

  /** Whether a secret gives the variable a value: its payload sets it, or it writes the
      file that KUBECONFIG names. */
  predicate Gives(job: Job, i: nat, key: string)
    requires job.Valid() && i < |job.bound|
  {
    Sets(job, i, key) || (key == "KUBECONFIG" && WritesFile(job, i))
  }

  /** The value it gives; for KUBECONFIG the file goes before the payload. */
  function Given(job: Job, i: nat, key: string): string
    requires job.Valid() && i < |job.bound| && Gives(job, i, key)
  {
    if key == "KUBECONFIG" && WritesFile(job, i) then job.attempts[i].dir.value + "/config"
    else job.attempts[i].shaped.value.env[key]
  }

  /** The last of the first `n` secrets that gives the variable a value. */
  ghost predicate Decides(job: Job, n: nat, i: nat, key: string)
    requires job.Valid() && i < n <= |job.bound|
  {
    Gives(job, i, key) && forall j :: i < j < n ==> !Gives(job, j, key)
  }

  lemma {:induction false} EnvNext(job: Job, n: nat, key: string)
    requires job.Valid() && n < |job.bound|
    ensures key in Env(job, n + 1) <==> key in Env(job, n) || Gives(job, n, key)
    ensures key in Env(job, n + 1) ==>
            Env(job, n + 1)[key] == if Gives(job, n, key) then Given(job, n, key) else Env(job, n)[key]
  {
  }

  /** ENVIRONMENT. A variable is set exactly when some named secret gives it a value. */
  lemma {:induction false} EnvHolds(job: Job, n: nat, key: string)
    requires job.Valid() && n <= |job.bound|
    ensures key in Env(job, n) <==> exists i :: 0 <= i < n && Gives(job, i, key)
  {
    if n > 0 {
      EnvHolds(job, n - 1, key);
      EnvNext(job, n - 1, key);
    }
  }

  /** Its value is that of the last one. */
  lemma {:induction false} EnvValue(job: Job, n: nat, i: nat, key: string)
    requires job.Valid() && i < n <= |job.bound| && Decides(job, n, i, key)
    ensures key in Env(job, n) && Env(job, n)[key] == Given(job, i, key)
  {
    EnvNext(job, n - 1, key);
    if i < n - 1 { EnvValue(job, n - 1, i, key); }
  }

  /** VALUES to redact: exactly the extra values of named secrets with a shaped payload, and
      the paths of the files written. */
  lemma {:induction false} ValuesHold(job: Job, n: nat, v: string)
    requires job.Valid() && n <= |job.bound|
    ensures v in Values(job, n) <==>
            exists i :: 0 <= i < n && AddsValue(job, i, v)
  {
    if n > 0 {
      ValuesHold(job, n - 1, v);
      assert v in Values(job, n) <==> v in Values(job, n - 1) || AddsValue(job, n - 1, v);
    }
  }

  predicate AddsValue(job: Job, i: nat, v: string)
    requires job.Valid() && i < |job.bound|
  {
    || (job.bound[i] in job.names && job.attempts[i].shaped.Some? && v in job.attempts[i].shaped.value.scrubExtra)
    || (WritesFile(job, i) && v == job.attempts[i].dir.value + "/config")
  }

  /** DIRECTORIES: without a failure, exactly one for each named secret with a kubeconfig. */
  lemma {:induction false} DirectoriesHold(job: Job, n: nat, d: string)
    requires job.Valid() && n <= |job.bound| && job.NoneFailed(n)
    ensures d in Made(job, n) <==> exists i :: 0 <= i < n && MakesDir(job, i, d)
  {
    if n > 0 {
      DirectoriesHold(job, n - 1, d);
      assert !job.FailsAt(n - 1);
      assert d in Made(job, n) <==> d in Made(job, n - 1) || MakesDir(job, n - 1, d);
    }
  }

  predicate MakesDir(job: Job, i: nat, d: string)
    requires job.Valid() && i < |job.bound|
  {
    WritesFile(job, i) && job.attempts[i].dir == Some(d)
  }

  /** What a whole delivery holds: variables, values to redact, and directories. */
  ghost predicate Holds(job: Job, d: Delivery)
    requires job.Valid()
  {
    var n := |job.bound|;
    && (forall key :: key in d.env <==> exists i :: 0 <= i < n && Gives(job, i, key))
    && (forall key, i :: 0 <= i < n && Decides(job, n, i, key) ==> key in d.env && d.env[key] == Given(job, i, key))
    && (forall v :: v in d.values <==> exists i :: 0 <= i < n && AddsValue(job, i, v))
    && (forall dir :: dir in d.tempDirs <==> exists i :: 0 <= i < n && MakesDir(job, i, dir))
  }

  lemma {:induction false} DeliveryHolds(job: Job, d: Delivery)
    requires job.Valid() && job.NoneFailed(|job.bound|)
    requires d.env == Env(job, |job.bound|) && d.values == Values(job, |job.bound|)
    requires d.tempDirs == Made(job, |job.bound|)
    ensures Holds(job, d)
  {
    var n := |job.bound|;
    forall key ensures key in d.env <==> exists i :: 0 <= i < n && Gives(job, i, key) { EnvHolds(job, n, key); }
    forall key, i | 0 <= i < n && Decides(job, n, i, key) ensures key in d.env && d.env[key] == Given(job, i, key) {
      EnvValue(job, n, i, key);
    }
    forall v ensures v in d.values <==> exists i :: 0 <= i < n && AddsValue(job, i, v) { ValuesHold(job, n, v); }
    forall dir ensures dir in d.tempDirs <==> exists i :: 0 <= i < n && MakesDir(job, i, dir) {
      DirectoriesHold(job, n, dir);
    }
  }

  // ----- The procedure -----

  /** The credential provider and the file system. Failed revocations and removals are
      swallowed by the caller, so only that they were asked for matters. */
  class World {
    var issued: seq<string>
    var revoked: seq<string>
    var made: seq<string>
    var removed: seq<string>
    var written: seq<string>

    constructor ()
      ensures issued == revoked == made == removed == written == []
    {
      issued, revoked, made, removed, written := [], [], [], [], [];
    }

    /** Exactly the leases issued and the directories made in between were undone, each
        once and in the order in which it came to be. */
    twostate predicate Undid()
      reads this
    {
      && old(issued) <= issued && old(revoked) <= revoked && old(made) <= made && old(removed) <= removed
      && revoked[|old(revoked)|..] == issued[|old(issued)|..]
      && removed[|old(removed)|..] == made[|old(made)|..]
    }

    /** Nothing was undone, and these were issued and made. */
    twostate predicate Owes(leaseIds: seq<string>, tempDirs: seq<string>)
      reads this
    {
      && issued == old(issued) + leaseIds && made == old(made) + tempDirs
      && revoked == old(revoked) && removed == old(removed)
    }
  }

  method Cleanup(world: World, tempDirs: seq<string>)
    modifies world`removed
    ensures world.removed == old(world.removed) + tempDirs
  {
    for i := 0 to |tempDirs|
      invariant world.removed == old(world.removed) + tempDirs[..i]
    {
      world.removed := world.removed + [tempDirs[i]];
    }
  }

  method RevokeAll(world: World, leaseIds: seq<string>)
    modifies world`revoked
    ensures world.revoked == old(world.revoked) + leaseIds
  {
    for i := 0 to |leaseIds|
      invariant world.revoked == old(world.revoked) + leaseIds[..i]
    {
      world.revoked := world.revoked + [leaseIds[i]];
    }
  }

  /** The loop body: issue, read, shape, and materialise one bound secret. */
  method DeliverOne(world: World, a: Attempt, before: Delivery) returns (failed: bool, after: Delivery)
    modifies world`issued, world`made, world`written
    ensures failed <==> a.Fails()
    ensures world.issued == old(world.issued) + a.Issues() && after.leaseIds == before.leaseIds + a.Issues()
    ensures world.made == old(world.made) + a.Makes() && after.tempDirs == before.tempDirs + a.Makes()
    ensures world.written == old(world.written) + a.Writes()
    ensures !failed ==> after.env == AddEnv(before.env, a) && after.values == before.values + AddValues(a)
  {
    after := before;
    if a.lease.None? { return true, after; }
    world.issued := world.issued + [a.lease.value];
    after := after.(leaseIds := after.leaseIds + [a.lease.value]);
    if !a.secretRead { return true, after; }
    if a.shaped.None? { return false, after; }
    var shaped := a.shaped.value;
    after := after.(env := after.env + shaped.env, values := after.values + shaped.scrubExtra);
    if shaped.kubeconfig.Some? {
      if a.dir.None? { return true, after; }
      world.made := world.made + [a.dir.value];
      after := after.(tempDirs := after.tempDirs + [a.dir.value]);
      if !a.written { return true, after; }
      var path := ConfigPath(a.dir.value);
      world.written := world.written + [path];
      after := after.(env := after.env["KUBECONFIG" := path], values := after.values + [path]);
    }
    failed := false;
  }

  /** deliverLeasedEnv once bindings and metadata are known; other deliveries may be
      outstanding. It throws exactly when a named secret's attempt fails, and then
      everything it issued and made was undone; on a normal return nothing was undone and
      the delivery holds exactly what was issued, made and shaped. */
  method DeliverLeasedEnv(world: World, job: Job) returns (r: Result)
    requires job.Valid()
    modifies world
    ensures old(world.written) <= world.written
    ensures r.Threw? <==> !job.NoneFailed(|job.bound|)
    ensures r.Threw? ==>
              && world.Undid()
              && (exists k :: 0 <= k < |job.bound| && job.NoneFailed(k) && job.FailsAt(k)
                    && world.issued == old(world.issued) + Issued(job, k + 1)
                    && world.revoked == old(world.revoked) + Issued(job, k + 1)
                    && world.made == old(world.made) + Made(job, k + 1)
                    && world.removed == old(world.removed) + Made(job, k + 1))
    ensures r.Delivered? ==>
              var n := |job.bound|;
              && world.Owes(r.d.leaseIds, r.d.tempDirs) && r.d.leaseIds == Issued(job, n) &&
                  r.d.tempDirs == Made(job, n)
              && world.written == old(world.written) + Written(job, n)
              && r.d.env == Env(job, n) && r.d.values == Values(job, n)
  {
    var d := Delivery(map[], [], [], []);
    for i := 0 to |job.bound|
      invariant job.NoneFailed(i)
      invariant world.revoked == old(world.revoked) && world.removed == old(world.removed)
      invariant d.leaseIds == Issued(job, i) && world.issued == old(world.issued) + Issued(job, i)
      invariant d.tempDirs == Made(job, i) && world.made == old(world.made) + Made(job, i)
      invariant world.written == old(world.written) + Written(job, i)
      invariant d.env == Env(job, i) && d.values == Values(job, i)
    {
      if job.Named(i) {
        var a := job.attempts[i];
        Assoc(old(world.issued), Issued(job, i), a.Issues());
        Assoc(old(world.made), Made(job, i), a.Makes());
        Assoc(old(world.written), Written(job, i), a.Writes());
        var failed;
        failed, d := DeliverOne(world, a, d);
        if failed {
          assert job.FailsAt(i);
          assert d.leaseIds == Issued(job, i + 1) && d.tempDirs == Made(job, i + 1);
          Cleanup(world, d.tempDirs);
          RevokeAll(world, d.leaseIds);
          assert world.issued == old(world.issued) + Issued(job, i + 1);
          assert world.made == old(world.made) + Made(job, i + 1);
          return Threw;
        }
      }
    }
    r := Delivered(d);
  }

  /** The credentials that still have a name; the last entry for an id wins. */
  function NamesOf(metadata: seq<Metadata>): map<string, string> {
    if metadata == [] then map[]
    else
      var m := metadata[|metadata| - 1];
      var rest := NamesOf(metadata[..|metadata| - 1]);
      if m.name != "" then rest[m.id := m.name] else rest
  }

  /** Exactly the credentials listed with a name are known. */
  lemma {:induction false} NamesHold(metadata: seq<Metadata>, id: string)
    ensures id in NamesOf(metadata) <==> exists m :: m in metadata && m.id == id && m.name != ""
  {
    if metadata != [] {
      var init, last := metadata[..|metadata| - 1], metadata[|metadata| - 1];
      NamesHold(init, id);
      assert forall m :: m in metadata <==> m in init || m == last;
    }
  }

  /** A credential is known under the last name listed for it. */
  lemma {:induction false} NameIsLast(metadata: seq<Metadata>, i: nat)
    requires i < |metadata| && LastNamed(metadata, i)
    ensures metadata[i].id in NamesOf(metadata) && NamesOf(metadata)[metadata[i].id] == metadata[i].name
  {
    var init := metadata[..|metadata| - 1];
    if i < |init| {
      assert LastNamed(init, i);
      NameIsLast(init, i);
    }
  }

  ghost predicate LastNamed(metadata: seq<Metadata>, i: nat)
    requires i < |metadata|
  {
    && metadata[i].name != ""
    && forall j :: i < j < |metadata| ==> metadata[j].id != metadata[i].id || metadata[j].name == ""
  }

  /** LEASE CONSERVATION. A whole call: reading the bindings or the metadata may throw
      before anything was issued, and no bound secret means an empty delivery. Whatever
      fails, a call that throws undid all its leases and directories; a call that returns
      undid none and lists them all. */
  method Deliver(world: World, bound: Option<seq<string>>, metadata: Option<seq<Metadata>>, attempts: seq<Attempt>)
    returns (r: Result)
    requires bound.Some? ==> |attempts| == |bound.value|
    modifies world
    ensures old(world.written) <= world.written
    ensures r.Threw? ==> world.Undid()
    ensures r.Delivered? ==>
              && world.Owes(r.d.leaseIds, r.d.tempDirs)
              && (forall p :: p in world.written[|old(world.written)|..] ==> p in r.d.values)
    ensures var refused := bound.Some? && bound.value != [] &&
              (metadata.None? || !Job(bound.value, NamesOf(metadata.value), attempts).NoneFailed(|bound.value|));
            r.Threw? <==> bound.None? || refused
    ensures r.Delivered? ==> bound.Some? && (bound.value == [] ==> r.d == Delivery(map[], [], [], []))
    ensures r.Delivered? && bound.value != [] ==>
              metadata.Some? && Holds(Job(bound.value, NamesOf(metadata.value), attempts), r.d)
  {
    if bound.None? { return Threw; }
    if bound.value == [] { return Delivered(Delivery(map[], [], [], [])); }
    if metadata.None? { return Threw; }
    var names: map<string, string> := map[];
    for i := 0 to |metadata.value|
      invariant names == NamesOf(metadata.value[..i])
    {
      assert metadata.value[..i + 1][..i] == metadata.value[..i];
      if metadata.value[i].name != "" { names := names[metadata.value[i].id := metadata.value[i].name]; }
    }
    assert metadata.value[..|metadata.value|] == metadata.value;
    var job := Job(bound.value, names, attempts);
    r := DeliverLeasedEnv(world, job);
    EverythingRedacted(job, |job.bound|);
    if r.Delivered? { DeliveryHolds(job, r.d); }
  }

  /** The caller's side: after a normal return, revoking the returned leases and cleaning
      up undoes everything, so no lease or directory outlives the run. */
  method RunWithSecrets(world: World, job: Job) returns (r: Result)
    requires job.Valid()
    modifies world
    ensures world.Undid()
  {
    r := DeliverLeasedEnv(world, job);
    if r.Delivered? {
      RevokeAll(world, r.d.leaseIds);
      Cleanup(world, r.d.tempDirs);
    }
  }
}
