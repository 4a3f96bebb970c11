/**
 The build queue of the worker: rows of `service_builds` in creation order, the
 `depends_on` column cached on each service, one worker that claims the oldest
 queued row, and the cascade that queues every dependent of a successful build.

 What the outside world answers to one build (git, the kaiad.yaml at that commit,
 the build stages) and which database statements fail is a `BuildEnv`, so every
 result below is for all such answers.
 */
module BuildQueue {
  import opened Wrappers

  datatype Status = Queued | Running | Success | Failed | NoPipeline

  datatype Trigger = Poll | Manual

  datatype Service = Service(id: string, tenant: string, name: string)

  /** One `dep: name -> build` line of a build log; `build` indexes the rows. */
  datatype ResolvedDep = ResolvedDep(name: string, build: nat)

  datatype Build = Build(
    service: string, trigger: Trigger, gitSha: string, status: Status, resolved: seq<ResolvedDep>)

  datatype Db = Db(services: seq<Service>, dependsOn: map<string, seq<string>>, builds: seq<Build>)

  datatype KaiadYaml = Missing | Unusable | Usable(dependsOn: seq<string>)

  /**
   The answers one build gets. `metaWritten`, `finishWritten`, `failureWritten`,
   `dependentsListed` and `enqueueFails` say which database statements go through.
   */
  datatype BuildEnv = BuildEnv(
    head: Option<string>, cloned: bool, yaml: KaiadYaml, metaWritten: bool,
    substituted: bool, staged: bool, finishWritten: bool, failureWritten: bool,
    dependentsListed: bool, enqueueFails: set<string>)

  // ---------------------------------------------------------------- queries

  function FindService(services: seq<Service>, id: string): (r: Option<Service>)
    ensures r.Some? ==> r.value in services && r.value.id == id
    ensures r.None? ==> forall s | s in services :: s.id != id
  {
    if services == [] then None
    else if services[0].id == id then Some(services[0])
    else FindService(services[1..], id)
  }

  predicate Named(services: seq<Service>, id: string, tenant: string, name: string) {
    exists s | s in services :: s.id == id && s.tenant == tenant && s.name == name
  }

  predicate SuccessOf(services: seq<Service>, b: Build, tenant: string, name: string) {
    b.status == Success && Named(services, b.service, tenant, name)
  }

  /** getLatestSuccessfulBuildByServiceName: the newest row, or none. */
  function LatestSuccess(services: seq<Service>, builds: seq<Build>, tenant: string, name: string)
    : (r: Option<nat>)
    ensures r.Some? ==> r.value < |builds| && SuccessOf(services, builds[r.value], tenant, name)
    ensures forall j | 0 <= j < |builds| && (r.Some? ==> r.value < j) ::
              !SuccessOf(services, builds[j], tenant, name)
  {
    if builds == [] then None
    else
      var k := |builds| - 1;
      if SuccessOf(services, builds[k], tenant, name) then Some(k)
      else LatestSuccess(services, builds[..k], tenant, name)
  }

  /** The row is a success of a service of the tenant with that name. */
  predicate SucceededFor(services: seq<Service>, b: Build, tenant: string, name: string) {
    b.status == Success && exists s | s in services :: s.id == b.service && s.tenant == tenant && s.name == name
  }

  /** A dependency's newest success is the last row of that kind, of the same tenant and of that name. */
  lemma NewestSuccess(services: seq<Service>, builds: seq<Build>, tenant: string, name: string)
    ensures var r := LatestSuccess(services, builds, tenant, name);
            && (r.None? <==> forall b | b in builds :: !SucceededFor(services, b, tenant, name))
            && (r.Some? ==> && r.value < |builds| && SucceededFor(services, builds[r.value], tenant, name)
                            && forall j | r.value < j < |builds| :: !SucceededFor(services, builds[j], tenant, name))
  {
    forall b
      ensures SucceededFor(services, b, tenant, name) <==> SuccessOf(services, b, tenant, name)
    {
    }
  }

  predicate Finished(b: Build) {
    b.status in {Success, Failed, NoPipeline}
  }

  function LastFinished(builds: seq<Build>, id: string): (r: Option<nat>)
    ensures r.Some? ==> r.value < |builds| && builds[r.value].service == id && Finished(builds[r.value])
    ensures forall j | 0 <= j < |builds| && (r.Some? ==> r.value < j) ::
              !(builds[j].service == id && Finished(builds[j]))
  {
    if builds == [] then None
    else
      var k := |builds| - 1;
      if builds[k].service == id && Finished(builds[k]) then Some(k)
      else LastFinished(builds[..k], id)
  }

  /** The row `claimNextBuild` takes: the oldest queued one. */
  function FirstQueued(builds: seq<Build>): (r: Option<nat>)
    ensures r.Some? ==> r.value < |builds| && builds[r.value].status == Queued
    ensures forall j | 0 <= j < |builds| && (r.Some? ==> j < r.value) :: builds[j].status != Queued
  {
    if builds == [] then None
    else
      var init := FirstQueued(builds[..|builds| - 1]);
      if init.Some? then init
      else if builds[|builds| - 1].status == Queued then Some(|builds| - 1)
      else None
  }

  predicate HasQueued(builds: seq<Build>, id: string) {
    exists j | 0 <= j < |builds| :: builds[j].service == id && builds[j].status == Queued
  }

  function CachedDeps(dependsOn: map<string, seq<string>>, id: string): seq<string> {
    if id in dependsOn then dependsOn[id] else []
  }

  predicate DependsOn(dependsOn: map<string, seq<string>>, u: Service, tenant: string, name: string) {
    u.tenant == tenant && name in CachedDeps(dependsOn, u.id)
  }

  /** listServicesDependingOn: the services whose cached array contains `name`. */
  function Dependents(services: seq<Service>, dependsOn: map<string, seq<string>>, tenant: string, name: string)
    : (r: seq<Service>)
    ensures forall u :: u in r <==> u in services && DependsOn(dependsOn, u, tenant, name)
  {
    if services == [] then []
    else
      var k := |services| - 1;
      Dependents(services[..k], dependsOn, tenant, name)
      + (if DependsOn(dependsOn, services[k], tenant, name) then [services[k]] else [])
  }

  /** resolveDeps: each name to its latest success, or none if one has no success. */
  function Resolve(services: seq<Service>, builds: seq<Build>, tenant: string, names: seq<string>)
    : (r: Option<seq<ResolvedDep>>)
    ensures r.Some? ==> |r.value| == |names| && forall k | 0 <= k < |names| ::
              r.value[k].name == names[k] && Some(r.value[k].build) == LatestSuccess(services, builds, tenant, names[k])
    ensures r.None? <==> exists k | 0 <= k < |names| :: LatestSuccess(services, builds, tenant, names[k]).None?
  {
    if names == [] then Some([])
    else
      var k := |names| - 1;
      assert forall j | 0 <= j < k :: names[..k][j] == names[j];
      var init := Resolve(services, builds, tenant, names[..k]);
      var last := LatestSuccess(services, builds, tenant, names[k]);
      if init.None? || last.None? then None
      else Some(init.value + [ResolvedDep(names[k], last.value)])
  }

  // ------------------------------------------------------- one build, one drain

  function QueuedRow(id: string, trigger: Trigger, gitSha: string): Build {
    Build(id, trigger, gitSha, Queued, [])
  }

  /** The rows the cascade inserts, one for each dependent whose insert succeeds. */
  function QueuedRows(ds: seq<Service>, fails: set<string>): (r: seq<Build>)
    ensures forall b | b in r :: b.status == Queued && b.trigger == Manual
  {
    if ds == [] then []
    else
      var k := |ds| - 1;
      QueuedRows(ds[..k], fails) + (if ds[k].id in fails then [] else [QueuedRow(ds[k].id, Manual, "")])
  }

  lemma QueuedRowsNext(ds: seq<Service>, k: nat, fails: set<string>)
    requires k < |ds|
    ensures QueuedRows(ds[..k + 1], fails)
            == if ds[k].id in fails then QueuedRows(ds[..k], fails)
               else QueuedRows(ds[..k], fails) + [QueuedRow(ds[k].id, Manual, "")]
  {
    assert ds[..k + 1][..k] == ds[..k];
    assert QueuedRows(ds[..k], fails) + [] == QueuedRows(ds[..k], fails);
  }

  function SetStatus(db: Db, i: nat, status: Status): (r: Db)
    requires i < |db.builds|
    ensures |db.builds| <= |r.builds|
  {
    db.(builds := db.builds[i := db.builds[i].(status := status)])
  }

  /** safelyFailBuild: mark the row failed if that write goes through. */
  function Fail(db: Db, i: nat, env: BuildEnv): (r: Db)
    requires i < |db.builds|
    ensures |db.builds| <= |r.builds|
  {
    if env.failureWritten then SetStatus(db, i, Failed) else db
  }

  /** finishBuild with a non-success status; when it throws, the crash handler fails the build. */
  function Finish(db: Db, i: nat, status: Status, env: BuildEnv): (r: Db)
    requires i < |db.builds|
    ensures |db.builds| <= |r.builds|
  {
    if env.finishWritten then SetStatus(db, i, status) else Fail(db, i, env)
  }

  function Succeed(db: Db, i: nat, svc: Service, env: BuildEnv): (r: Db)
    requires i < |db.builds|
    ensures |db.builds| <= |r.builds|
  {
    if !env.finishWritten then Fail(db, i, env)
    else
      var done := SetStatus(db, i, Success);
      if !env.dependentsListed then done
      else
        done.(builds := done.builds
                        + QueuedRows(Dependents(db.services, db.dependsOn, svc.tenant, svc.name), env.enqueueFails))
  }

  /** The part of runBuild that follows the snapshot of `depends_on`. */
  function BuildUsable(db: Db, i: nat, svc: Service, names: seq<string>, env: BuildEnv): (r: Db)
    requires i < |db.builds|
    ensures |db.builds| <= |r.builds|
  {
    match Resolve(db.services, db.builds, svc.tenant, names)
    case None => Finish(db, i, Failed, env)
    case Some(resolved) =>
      var recorded := db.(builds := db.builds[i := db.builds[i].(resolved := resolved)]);
      if !env.substituted || !env.staged then Finish(recorded, i, Failed, env)
      else Succeed(recorded, i, svc, env)
  }

  function RunBuild(db: Db, i: nat, env: BuildEnv): (r: Db)
    requires i < |db.builds|
    ensures |db.builds| <= |r.builds|
  {
    var b := db.builds[i];
    match FindService(db.services, b.service)
    case None => Fail(db, i, env)
    case Some(svc) =>
      if b.gitSha == "" && env.head.None? then Fail(db, i, env)
      else
        var db1 := if b.gitSha == "" then db.(builds := db.builds[i := b.(gitSha := env.head.value)]) else db;
        if !env.cloned then Fail(db1, i, env)
        else
          match env.yaml
          case Missing => Finish(db1, i, NoPipeline, env)
          case Unusable => Finish(db1, i, Failed, env)
          case Usable(names) =>
            var db2 := if env.metaWritten then db1.(dependsOn := db1.dependsOn[svc.id := names]) else db1;
            BuildUsable(db2, i, svc, names, env)
  }

  function DrainOnce(db: Db, env: BuildEnv): (r: Db)
    ensures |db.builds| <= |r.builds|
  {
    match FirstQueued(db.builds)
    case None => db
    case Some(i) => RunBuild(SetStatus(db, i, Running), i, env)
  }

  // ------------------------------------------------------------------ poller

  /** getLatestBuildSha: the newest non-empty SHA the poller queued for the service. */
  function LatestPollSha(builds: seq<Build>, id: string): (r: Option<string>)
    ensures r.None? <==> forall b | b in builds :: !(b.service == id && b.trigger == Poll && b.gitSha != "")
  {
    if builds == [] then None
    else
      var b := builds[|builds| - 1];
      assert builds == builds[..|builds| - 1] + [b];
      if b.service == id && b.trigger == Poll && b.gitSha != "" then Some(b.gitSha)
      else LatestPollSha(builds[..|builds| - 1], id)
  }

  /** One poll pass over a prefix of the services; `heads` has the remote SHA where `git ls-remote` found one. */
  function PollServices(services: seq<Service>, builds: seq<Build>, heads: map<string, string>): seq<Build> {
    if services == [] then builds
    else
      var k := |services| - 1;
      var before := PollServices(services[..k], builds, heads);
      var id := services[k].id;
      if id !in heads || LatestPollSha(before, id) == Some(heads[id]) then before
      else before + [QueuedRow(id, Poll, heads[id])]
  }

  // ------------------------------------------------------------------- runs

  datatype Event = PollOnce(heads: map<string, string>) | StartManual(service: string) | Drain(env: BuildEnv)

  function Step(db: Db, e: Event): Db {
    match e
    case PollOnce(heads) => db.(builds := PollServices(db.services, db.builds, heads))
    case StartManual(id) => db.(builds := db.builds + [QueuedRow(id, Manual, "")])
    case Drain(env) => DrainOnce(db, env)
  }

  function Run(db: Db, events: seq<Event>): Db
  {
    if events == [] then db else Step(Run(db, events[..|events| - 1]), events[|events| - 1])
  }
}
