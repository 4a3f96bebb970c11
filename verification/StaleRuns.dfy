/** Runs from the empty queue that end stale, one for each kind of statement that may be lost. */
module StaleRuns {
  import opened Wrappers
  import opened BuildQueue
  import opened CascadeFreshness

  const LIB := Service("l", "t", "lib")
  const APP := Service("a", "t", "app")
  const EMPTY := Db([LIB, APP], map[], [])

  /** A build that succeeds; only its snapshot and the insert for some dependents may be lost. */
  function Works(deps: seq<string>, metaWritten: bool, fails: set<string>): BuildEnv {
    BuildEnv(Some("sha"), true, Usable(deps), metaWritten, true, true, true, true, true, fails)
  }

  /** A build whose terminal status cannot be written, though everything before it went well. */
  const CRASHES := Works(["lib"], true, {}).(finishWritten := false, failureWritten := false)

  /** A build started by hand and drained. */
  function Rebuilt(db: Db, svc: Service, env: BuildEnv): Db {
    Step(Step(db, StartManual(svc.id)), Drain(env))
  }

  function SuccessRow(svc: Service, resolved: seq<ResolvedDep>): Build {
    Build(svc.id, Manual, "sha", Success, resolved)
  }

  function RunningRow(svc: Service): Build {
    Build(svc.id, Manual, "sha", Running, [])
  }

  lemma {:induction false} NoneQueued(builds: seq<Build>)
    requires forall b | b in builds :: b.status != Queued
    ensures FirstQueued(builds).None?
  {
    if builds != [] {
      assert builds[|builds| - 1] in builds;
      NoneQueued(builds[..|builds| - 1]);
    }
  }

  lemma Found(svc: Service)
    requires svc == LIB || svc == APP
    ensures FindService([LIB, APP], svc.id) == Some(svc)
  {
    assert [LIB, APP][1..] == [APP];
  }

  /** A started build reaches resolution as a running row. */
  lemma StartedRuns(db: Db, svc: Service, env: BuildEnv)
    requires db.services == [LIB, APP] && (svc == LIB || svc == APP) && env.yaml.Usable?
    requires env.cloned && env.head == Some("sha") && forall b | b in db.builds :: b.status != Queued
    ensures var started := Step(db, StartManual(svc.id));
            && FirstQueued(started.builds) == Some(|db.builds|)
            && AtResolution(started, |db.builds|, svc, env)
               == Db(db.services, CacheAfter(db, svc, env), db.builds + [RunningRow(svc)])
            && Step(started, Drain(env))
               == BuildUsable(Db(db.services, CacheAfter(db, svc, env), db.builds + [RunningRow(svc)]),
                              |db.builds|, svc, env.yaml.dependsOn, env)
  {
    var started := Step(db, StartManual(svc.id));
    NoneQueued(db.builds);
    Found(svc);
    assert started.builds[..|db.builds|] == db.builds;
    DrainSplits(started, |db.builds|, env);
  }

  /** A row that is no success changes no resolution. */
  lemma {:induction false} SameResolution(db: Db, row: Build, names: seq<string>, resolved: seq<ResolvedDep>)
    requires row.status != Success && Resolve(db.services, db.builds, "t", names) == Some(resolved)
    ensures Resolve(db.services, db.builds + [row], "t", names) == Some(resolved)
  {
    if names != [] {
      SameResolution(db, row, names[..|names| - 1], resolved[..|resolved| - 1]);
      assert (db.builds + [row])[..|db.builds|] == db.builds;
    }
  }

  /** One success computed: the row, the cache and the rows of the dependents. */
  lemma SuccessComputed(db: Db, svc: Service, env: BuildEnv, resolved: seq<ResolvedDep>)
    requires db.services == [LIB, APP] && (svc == LIB || svc == APP) && env.yaml.Usable?
    requires env == Works(env.yaml.dependsOn, env.metaWritten, env.enqueueFails)
    requires forall b | b in db.builds :: b.status != Queued
    requires Resolve(db.services, db.builds, "t", env.yaml.dependsOn) == Some(resolved)
    ensures var cache := CacheAfter(db, svc, env);
            Step(Step(db, StartManual(svc.id)), Drain(env))
            == Db(db.services, cache, db.builds + [SuccessRow(svc, resolved)]
                                      + QueuedRows(Dependents(db.services, cache, "t", svc.name), env.enqueueFails))
  {
    StartedRuns(db, svc, env);
    BuildComputed(db, svc, env, resolved);
  }

  lemma BuildComputed(db: Db, svc: Service, env: BuildEnv, resolved: seq<ResolvedDep>)
    requires svc.tenant == "t" && env.yaml.Usable?
    requires env == Works(env.yaml.dependsOn, env.metaWritten, env.enqueueFails)
    requires Resolve(db.services, db.builds, "t", env.yaml.dependsOn) == Some(resolved)
    ensures var cache := CacheAfter(db, svc, env);
            BuildUsable(Db(db.services, cache, db.builds + [RunningRow(svc)]), |db.builds|, svc, env.yaml.dependsOn, env)
            == Db(db.services, cache, db.builds + [SuccessRow(svc, resolved)]
                                      + QueuedRows(Dependents(db.services, cache, "t", svc.name), env.enqueueFails))
  {
    SameResolution(db, RunningRow(svc), env.yaml.dependsOn, resolved);
    var mid := Db(db.services, CacheAfter(db, svc, env), db.builds + [RunningRow(svc)]);
    UsableComputed(mid, |db.builds|, svc, env, resolved);
    assert mid.builds[|db.builds| := SuccessRow(svc, resolved)] == db.builds + [SuccessRow(svc, resolved)];
  }

  lemma UsableComputed(mid: Db, p: nat, svc: Service, env: BuildEnv, resolved: seq<ResolvedDep>)
    requires p < |mid.builds| && mid.builds[p] == RunningRow(svc) && svc.tenant == "t" && env.yaml.Usable?
    requires env == Works(env.yaml.dependsOn, env.metaWritten, env.enqueueFails)
    requires Resolve(mid.services, mid.builds, "t", env.yaml.dependsOn) == Some(resolved)
    ensures BuildUsable(mid, p, svc, env.yaml.dependsOn, env)
            == mid.(builds := mid.builds[p := SuccessRow(svc, resolved)]
                              + QueuedRows(Dependents(mid.services, mid.dependsOn, "t", svc.name), env.enqueueFails))
  {
    var recorded := mid.builds[p].(resolved := resolved);
    assert mid.builds[p := recorded][p := SuccessRow(svc, resolved)] == mid.builds[p := SuccessRow(svc, resolved)];
  }

  // -------------------------------------------------------------- lib, then app on lib

  const FIRST := SuccessRow(LIB, [])
  const SECOND := SuccessRow(APP, [ResolvedDep("lib", 0)])

  function AfterLib(): Db {
    Rebuilt(EMPTY, LIB, Works([], true, {}))
  }

  function AfterApp(metaWritten: bool): Db {
    Rebuilt(AfterLib(), APP, Works(["lib"], metaWritten, {}))
  }

  /** The second build of lib, and whose insert it loses. */
  function AfterLibAgain(metaWritten: bool, fails: set<string>): Db {
    Rebuilt(AfterApp(metaWritten), LIB, Works([], true, fails))
  }

  lemma DependentsOf(cache: map<string, seq<string>>, name: string)
    ensures Dependents([LIB, APP], cache, "t", name)
            == (if name in CachedDeps(cache, "l") then [LIB] else []) + (if name in CachedDeps(cache, "a") then [APP] else [])
  {
    assert [LIB, APP][..1] == [LIB] && [LIB][..0] == [];
    assert Dependents([], cache, "t", name) == [];
    assert Dependents([LIB], cache, "t", name) == if name in CachedDeps(cache, "l") then [LIB] else [];
  }

  lemma LibIs(builds: seq<Build>, k: nat)
    requires k < |builds| && builds[k].service == "l" && builds[k].status == Success
    requires forall j | k < j < |builds| :: builds[j].service != "l"
    ensures LatestSuccess([LIB, APP], builds, "t", "lib") == Some(k)
  {
    assert LIB in [LIB, APP];
    LatestSuccessIs([LIB, APP], builds, "t", "lib", Some(k));
  }

  lemma LibResolves(builds: seq<Build>)
    requires LatestSuccess([LIB, APP], builds, "t", "lib") == Some(0)
    ensures Resolve([LIB, APP], builds, "t", ["lib"]) == Some([ResolvedDep("lib", 0)])
  {
    assert ["lib"][..0] == [];
    assert Resolve([LIB, APP], builds, "t", []) == Some([]);
    assert [] + [ResolvedDep("lib", 0)] == [ResolvedDep("lib", 0)];
  }

  lemma LibBuilt()
    ensures AfterLib() == Db([LIB, APP], map["l" := []], [FIRST])
  {
    SuccessComputed(EMPTY, LIB, Works([], true, {}), []);
    DependentsOf(map["l" := []], "lib");
  }

  /** The cache once app's snapshot was written, or lost. */
  function CacheOfRun(metaWritten: bool): map<string, seq<string>> {
    if metaWritten then map["l" := [], "a" := ["lib"]] else map["l" := []]
  }

  lemma BuildsTo(db: Db, svc: Service, env: BuildEnv, resolved: seq<ResolvedDep>, cache: map<string, seq<string>>,
                 queued: seq<Build>)
    requires db.services == [LIB, APP] && (svc == LIB || svc == APP) && env.yaml.Usable?
    requires env == Works(env.yaml.dependsOn, env.metaWritten, env.enqueueFails)
    requires forall b | b in db.builds :: b.status != Queued
    requires Resolve(db.services, db.builds, "t", env.yaml.dependsOn) == Some(resolved)
    requires CacheAfter(db, svc, env) == cache
    requires QueuedRows(Dependents([LIB, APP], cache, "t", svc.name), env.enqueueFails) == queued
    ensures Rebuilt(db, svc, env) == Db([LIB, APP], cache, db.builds + [SuccessRow(svc, resolved)] + queued)
  {
    SuccessComputed(db, svc, env, resolved);
  }

  lemma AppBuiltFrom(db: Db, env: BuildEnv, metaWritten: bool)
    requires db == Db([LIB, APP], map["l" := []], [FIRST]) && env == Works(["lib"], metaWritten, {})
    ensures Rebuilt(db, APP, env) == Db([LIB, APP], CacheOfRun(metaWritten), [FIRST] + [SECOND] + [])
  {
    LibIs(db.builds, 0);
    LibResolves(db.builds);
    NoneOnApp(metaWritten);
    assert CacheAfter(db, APP, env) == CacheOfRun(metaWritten);
    BuildsTo(db, APP, env, [ResolvedDep("lib", 0)], CacheOfRun(metaWritten), []);
  }

  lemma AppBuilt(metaWritten: bool)
    ensures AfterApp(metaWritten) == Db([LIB, APP], CacheOfRun(metaWritten), [FIRST, SECOND])
  {
    LibBuilt();
    AppBuiltFrom(AfterLib(), Works(["lib"], metaWritten, {}), metaWritten);
    assert [FIRST] + [SECOND] + [] == [FIRST, SECOND];
  }

  lemma NoneOnApp(metaWritten: bool)
    ensures QueuedRows(Dependents([LIB, APP], CacheOfRun(metaWritten), "t", "app"), {}) == []
  {
    DependentsOf(CacheOfRun(metaWritten), "app");
    assert QueuedRows([], {}) == [];
  }

  lemma AppRows(fails: set<string>)
    ensures QueuedRows([APP], fails) == if "a" in fails then [] else [QueuedRow("a", Manual, "")]
  {
    assert [APP][..0] == [];
    assert QueuedRows([], fails) == [];
  }

  /** The row of app, if its insert was tried and went through. */
  function AppRow(metaWritten: bool, fails: set<string>): seq<Build> {
    if metaWritten && "a" !in fails then [QueuedRow("a", Manual, "")] else []
  }

  lemma RowsOnLib(metaWritten: bool, fails: set<string>)
    ensures QueuedRows(Dependents([LIB, APP], CacheOfRun(metaWritten), "t", "lib"), fails) == AppRow(metaWritten, fails)
  {
    DependentsOf(CacheOfRun(metaWritten), "lib");
    AppRows(fails);
    assert QueuedRows([], fails) == [];
  }

  lemma CacheKept(db: Db, env: BuildEnv, metaWritten: bool)
    requires db.dependsOn == CacheOfRun(metaWritten) && env.yaml == Works([], true, {}).yaml && env.metaWritten
    ensures CacheAfter(db, LIB, env) == CacheOfRun(metaWritten)
  {
  }

  lemma LibBuiltAgainFrom(db: Db, env: BuildEnv, metaWritten: bool, fails: set<string>)
    requires db == Db([LIB, APP], CacheOfRun(metaWritten), [FIRST, SECOND]) && env == Works([], true, fails)
    ensures Rebuilt(db, LIB, env)
            == Db([LIB, APP], CacheOfRun(metaWritten), [FIRST, SECOND] + [FIRST] + AppRow(metaWritten, fails))
  {
    RowsOnLib(metaWritten, fails);
    CacheKept(db, env, metaWritten);
    BuildsTo(db, LIB, env, [], CacheOfRun(metaWritten), AppRow(metaWritten, fails));
  }

  lemma LibBuiltAgain(metaWritten: bool, fails: set<string>)
    ensures AfterLibAgain(metaWritten, fails)
            == Db([LIB, APP], CacheOfRun(metaWritten), [FIRST, SECOND, FIRST] + AppRow(metaWritten, fails))
  {
    AppBuilt(metaWritten);
    LibBuiltAgainFrom(AfterApp(metaWritten), Works([], true, fails), metaWritten, fails);
    assert [FIRST, SECOND] + [FIRST] == [FIRST, SECOND, FIRST];
  }

  /** The last finished build of app used the first lib, and lib has moved on. */
  lemma AppIsStale(db: Db, more: seq<Build>)
    requires db.services == [LIB, APP] && db.builds == [FIRST, SECOND, FIRST] + more
    requires forall b | b in more :: b.status == Running
    ensures !Fresh(db)
  {
    var builds := db.builds;
    forall j | 3 <= j < |builds| ensures builds[j].status == Running {
      assert builds[j] in more;
    }
    LastFinishedIs(builds, "a", Some(1));
    assert LIB in db.services && APP in db.services;
    LatestSuccessIs(db.services, builds, "t", "lib", Some(2));
    assert !HasQueued(builds, "a");
    assert ResolvedDep("lib", 0) in builds[1].resolved;
    assert !FreshFor(db, APP);
  }

  /** A snapshot that was not written: the next success of the dependency queues nothing. */
  lemma LostSnapshotGoesStale()
    ensures Fresh(AfterApp(false)) && !Fresh(AfterLibAgain(false, {}))
  {
    AppBuilt(false);
    BothFresh(AfterApp(false));
    LibBuiltAgain(false, {});
    AppIsStale(AfterLibAgain(false, {}), []);
  }

  /** An insert that failed: every other statement of the run went through. */
  lemma LostInsertGoesStale()
    ensures Fresh(AfterApp(true)) && !Fresh(AfterLibAgain(true, {"a"}))
  {
    AppBuilt(true);
    BothFresh(AfterApp(true));
    LibBuiltAgain(true, {"a"});
    AppIsStale(AfterLibAgain(true, {"a"}), []);
  }

  lemma BothFresh(db: Db)
    requires db.services == [LIB, APP] && db.builds == [FIRST, SECOND]
    ensures Fresh(db)
  {
    LastFinishedIs(db.builds, "l", Some(0));
    LastFinishedIs(db.builds, "a", Some(1));
    LibIs(db.builds, 0);
    assert UpToDate(db, APP, ResolvedDep("lib", 0));
  }

  lemma AppWaits(db: Db)
    requires db.services == [LIB, APP] && db.builds == [FIRST, SECOND, FIRST, QueuedRow("a", Manual, "")]
    ensures Fresh(db) && FirstQueued(db.builds) == Some(3)
  {
    LastFinishedIs(db.builds, "l", Some(2));
    assert db.builds[3].service == "a" && db.builds[3].status == Queued;
    assert HasQueued(db.builds, "a");
    assert db.builds[..3] == [FIRST, SECOND, FIRST];
    NoneQueued([FIRST, SECOND, FIRST]);
  }

  /** A crash after the snapshot: the queued build is used up and nothing rebuilds the service. */
  lemma CrashGoesStale()
    ensures Fresh(AfterLibAgain(true, {})) && !Fresh(DrainOnce(AfterLibAgain(true, {}), CRASHES))
  {
    LibBuiltAgain(true, {});
    var db := AfterLibAgain(true, {});
    assert db.builds == [FIRST, SECOND, FIRST, QueuedRow("a", Manual, "")];
    AppWaits(db);
    CrashUsesUp(db);
  }

  lemma LastRow(builds: seq<Build>, was: seq<Build>)
    requires |was| == 4 && |builds| == 4 && builds == was[3 := builds[3]]
    ensures builds == was[..3] + [builds[3]]
  {
  }

  lemma CrashUsesUp(db: Db)
    requires db.services == [LIB, APP] && db.builds == [FIRST, SECOND, FIRST, QueuedRow("a", Manual, "")]
    requires FirstQueued(db.builds) == Some(3)
    ensures !Fresh(DrainOnce(db, CRASHES))
  {
    var after := DrainOnce(db, CRASHES);
    CrashLeavesRunning(db, 3, CRASHES);
    UnsuccessfulRows(db, 3, CRASHES);
    LastRow(after.builds, db.builds);
    AppIsStale(after, [after.builds[3]]);
  }
}
