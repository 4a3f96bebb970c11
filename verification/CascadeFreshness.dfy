/**
 What the cascade keeps: over every run of polls, manual starts and drains, a
 service whose last finished build succeeded was built from the newest success of
 each dependency it recorded, or has a build of its own waiting.
 */
module CascadeFreshness {
  import opened Wrappers
  import opened BuildQueue

  /** The statements the protocol cannot lose: the dependency snapshot, the terminal status, the cascade. */
  predicate Reliable(e: Event) {
    e.Drain? ==> e.env.metaWritten && e.env.failureWritten && e.env.dependentsListed && e.env.enqueueFails == {}
  }

  ghost predicate UniqueIds(services: seq<Service>) {
    forall s, t | s in services && t in services && s.id == t.id :: s == t
  }

  /** The recorded dependency build is the one a new build would resolve to. */
  predicate UpToDate(db: Db, s: Service, d: ResolvedDep) {
    LatestSuccess(db.services, db.builds, s.tenant, d.name) == Some(d.build)
  }

  ghost predicate FreshFor(db: Db, s: Service) {
    var last := LastFinished(db.builds, s.id);
    last.Some? && db.builds[last.value].status == Success ==>
      HasQueued(db.builds, s.id)
      || forall d | d in db.builds[last.value].resolved :: UpToDate(db, s, d)
  }

  ghost predicate Fresh(db: Db) {
    forall s | s in db.services :: FreshFor(db, s)
  }

  /** The cached `depends_on` of a service is what its last finished build recorded, when that succeeded. */
  ghost predicate CacheMatches(db: Db) {
    forall s | s in db.services ::
      var last := LastFinished(db.builds, s.id);
      last.Some? && db.builds[last.value].status == Success ==>
        forall d | d in db.builds[last.value].resolved :: d.name in CachedDeps(db.dependsOn, s.id)
  }

  /** One worker draining in order leaves every queued row after every claimed one. */
  ghost predicate InOrder(builds: seq<Build>) {
    forall i, j | 0 <= i < j < |builds| && builds[i].status == Queued :: builds[j].status == Queued
  }

  ghost predicate Inv(db: Db) {
    UniqueIds(db.services) && InOrder(db.builds) && CacheMatches(db) && Fresh(db)
  }

  // ------------------------------------------------ what appending and draining change

  lemma LastFinishedIs(builds: seq<Build>, id: string, r: Option<nat>)
    requires r.Some? ==> r.value < |builds| && builds[r.value].service == id && Finished(builds[r.value])
    requires forall j | 0 <= j < |builds| && (r.Some? ==> r.value < j) ::
               !(builds[j].service == id && Finished(builds[j]))
    ensures LastFinished(builds, id) == r
  {
  }

  lemma LatestSuccessIs(services: seq<Service>, builds: seq<Build>, tenant: string, name: string, r: Option<nat>)
    requires r.Some? ==> r.value < |builds| && SuccessOf(services, builds[r.value], tenant, name)
    requires forall j | 0 <= j < |builds| && (r.Some? ==> r.value < j) ::
               !SuccessOf(services, builds[j], tenant, name)
    ensures LatestSuccess(services, builds, tenant, name) == r
  {
  }

  lemma AppendQueued(services: seq<Service>, builds: seq<Build>, more: seq<Build>)
    requires forall b | b in more :: b.status == Queued
    ensures InOrder(builds) ==> InOrder(builds + more)
    ensures forall u {:trigger LastFinished(builds + more, u)} :: LastFinished(builds + more, u) == LastFinished(builds, u)
    ensures forall t, n {:trigger LatestSuccess(services, builds + more, t, n)} ::
              LatestSuccess(services, builds + more, t, n) == LatestSuccess(services, builds, t, n)
    ensures forall u | HasQueued(builds, u) || HasQueued(more, u) :: HasQueued(builds + more, u)
  {
    var all := builds + more;
    forall j | |builds| <= j < |all| ensures all[j].status == Queued {
      assert all[j] in more;
    }
    forall u {
      LastFinishedIs(all, u, LastFinished(builds, u));
    }
    forall t, n {
      LatestSuccessIs(services, all, t, n, LatestSuccess(services, builds, t, n));
    }
    forall u | HasQueued(builds, u) || HasQueued(more, u) ensures HasQueued(all, u) {
      if HasQueued(more, u) {
        var j :| 0 <= j < |more| && more[j].service == u && more[j].status == Queued;
        assert all[|builds| + j] == more[j];
      } else {
        var j :| 0 <= j < |builds| && builds[j].service == u && builds[j].status == Queued;
        assert all[j] == builds[j];
      }
    }
  }

  /** The claimed row settles to `row`; nothing else about the rows changes. */
  lemma Settled(services: seq<Service>, builds: seq<Build>, p: nat, row: Build)
    requires InOrder(builds) && FirstQueued(builds) == Some(p)
    requires row.service == builds[p].service && row.status != Queued
    ensures InOrder(builds[p := row])
    ensures forall u {:trigger LastFinished(builds[p := row], u)} ::
              LastFinished(builds[p := row], u)
              == if u == row.service && Finished(row) then Some(p) else LastFinished(builds, u)
    ensures forall t, n {:trigger LatestSuccess(services, builds[p := row], t, n)} ::
              LatestSuccess(services, builds[p := row], t, n)
              == if SuccessOf(services, row, t, n) then Some(p) else LatestSuccess(services, builds, t, n)
    ensures forall u | u != row.service && HasQueued(builds, u) :: HasQueued(builds[p := row], u)
  {
    var after := builds[p := row];
    forall u {
      LastFinishedIs(after, u,
                     if u == row.service && Finished(row) then Some(p) else LastFinished(builds, u));
    }
    forall t, n {
      LatestSuccessIs(services, after, t, n,
                      if SuccessOf(services, row, t, n) then Some(p) else LatestSuccess(services, builds, t, n));
    }
    forall u | u != row.service && HasQueued(builds, u) ensures HasQueued(after, u) {
      var j :| 0 <= j < |builds| && builds[j].service == u && builds[j].status == Queued;
      assert after[j] == builds[j];
    }
  }

  /** The cached `depends_on` once the build of `svc` has written its snapshot, or failed to. */
  function CacheAfter(db: Db, svc: Service, env: BuildEnv): map<string, seq<string>> {
    if env.metaWritten && env.yaml.Usable? then db.dependsOn[svc.id := env.yaml.dependsOn] else db.dependsOn
  }

  predicate NamesDep(resolved: seq<ResolvedDep>, name: string) {
    exists d :: d in resolved && d.name == name
  }

  /** What a successful build leaves behind: its dependencies as they resolved, and the queued dependents. */
  ghost predicate SuccessLeaves(db: Db, p: nat, env: BuildEnv, svc: Service, after: Db)
    requires p < |db.builds| && |db.builds| <= |after.builds|
  {
    var row := after.builds[p];
    && svc in db.services && svc.id == row.service
    && env.yaml.Usable?
    && after.dependsOn == CacheAfter(db, svc, env)
    && (forall d | d in row.resolved :: UpToDate(db, svc, d) && d.name in env.yaml.dependsOn)
    && (forall n | n in env.yaml.dependsOn :: NamesDep(row.resolved, n))
    && after.builds[|db.builds|..]
       == (if env.dependentsListed
           then QueuedRows(Dependents(db.services, after.dependsOn, svc.tenant, svc.name), env.enqueueFails)
           else [])
  }

  /** A drain keeps who and what queued a row; only an empty SHA is ever filled in. */
  predicate SameOrigin(was: Build, now: Build) {
    now.service == was.service && now.trigger == was.trigger && (was.gitSha != "" ==> now.gitSha == was.gitSha)
  }

  /** Only the built service's snapshot moves, and only to what its kaiad.yaml declares. */
  ghost predicate CacheMoves(was: map<string, seq<string>>, now: map<string, seq<string>>, id: string, env: BuildEnv) {
    forall u :: CachedDeps(now, u) == CachedDeps(was, u)
                || (u == id && env.yaml.Usable? && CachedDeps(now, u) == env.yaml.dependsOn)
  }

  /** `after` is `db` with row `p` rewritten, queued rows appended and only that service's cache touched. */
  ghost predicate Frame(db: Db, p: nat, env: BuildEnv, after: Db)
    requires p < |db.builds|
  {
    && after.services == db.services
    && |db.builds| <= |after.builds|
    && after.builds == db.builds[p := after.builds[p]] + after.builds[|db.builds|..]
    && SameOrigin(db.builds[p], after.builds[p])
    && after.builds[p].status != Queued
    && (env.failureWritten ==> Finished(after.builds[p]))
    && (after.builds[p].status != Success ==> |after.builds| == |db.builds|)
    && (forall b | b in after.builds[|db.builds|..] :: b.status == Queued && b.trigger == Manual)
    && CacheMoves(db.dependsOn, after.dependsOn, db.builds[p].service, env)
  }

  lemma SucceedFrame(db: Db, i: nat, svc: Service, env: BuildEnv)
    requires i < |db.builds| && db.builds[i].status == Running
    ensures Frame(db, i, env, Succeed(db, i, svc, env))
  {
    var after := Succeed(db, i, svc, env);
    assert after.builds[..|db.builds|] == db.builds[i := after.builds[i]];
  }

  lemma StatusFrame(db: Db, i: nat, status: Status, env: BuildEnv)
    requires i < |db.builds| && status in {Failed, NoPipeline}
    ensures Frame(db, i, env, SetStatus(db, i, status)) && SetStatus(db, i, status).builds[i].status == status
  {
    var after := SetStatus(db, i, status);
    assert after.builds == db.builds[i := after.builds[i]] + after.builds[|db.builds|..];
  }

  lemma UnwrittenFrame(db: Db, i: nat, env: BuildEnv)
    requires i < |db.builds| && db.builds[i].status == Running && !env.failureWritten
    ensures Frame(db, i, env, db)
  {
    assert db.builds == db.builds[i := db.builds[i]] + db.builds[|db.builds|..];
  }

  lemma FinishFrame(db: Db, i: nat, status: Status, env: BuildEnv)
    requires i < |db.builds| && db.builds[i].status == Running && status in {Failed, NoPipeline}
    ensures Frame(db, i, env, Finish(db, i, status, env)) && Frame(db, i, env, Fail(db, i, env))
    ensures Finish(db, i, status, env).builds[i].status != Success && Fail(db, i, env).builds[i].status != Success
  {
    StatusFrame(db, i, status, env);
    StatusFrame(db, i, Failed, env);
    if !env.failureWritten {
      UnwrittenFrame(db, i, env);
    }
  }

  lemma FrameFrom(db: Db, mid: Db, i: nat, env: BuildEnv, after: Db)
    requires i < |db.builds| && |mid.builds| == |db.builds| && Frame(mid, i, env, after)
    requires mid.services == db.services
    requires mid.builds == db.builds[i := mid.builds[i]] && SameOrigin(db.builds[i], mid.builds[i])
    requires CacheMoves(db.dependsOn, mid.dependsOn, db.builds[i].service, env)
    ensures Frame(db, i, env, after)
  {
    assert db.builds[i := mid.builds[i]][i := after.builds[i]] == db.builds[i := after.builds[i]];
  }

  lemma UsableFrame(db: Db, i: nat, svc: Service, names: seq<string>, env: BuildEnv)
    requires i < |db.builds| && db.builds[i].status == Running
    ensures Frame(db, i, env, BuildUsable(db, i, svc, names, env))
  {
    FinishFrame(db, i, Failed, env);
    var resolved := Resolve(db.services, db.builds, svc.tenant, names);
    if resolved.Some? {
      var recorded := db.(builds := db.builds[i := db.builds[i].(resolved := resolved.value)]);
      FinishFrame(recorded, i, Failed, env);
      SucceedFrame(recorded, i, svc, env);
      FrameFrom(db, recorded, i, env, BuildUsable(db, i, svc, names, env));
    }
  }

  /** The row as it stands when the build reaches the snapshot of `depends_on`. */
  function Claimed(b: Build, env: BuildEnv): Build {
    if b.gitSha == "" && env.head.Some? then b.(status := Running, gitSha := env.head.value)
    else b.(status := Running)
  }

  /** The database when the build of `svc` reaches dependency resolution. */
  function AtResolution(db: Db, p: nat, svc: Service, env: BuildEnv): Db
    requires p < |db.builds| && env.yaml.Usable?
  {
    db.(builds := db.builds[p := Claimed(db.builds[p], env)],
        dependsOn := if env.metaWritten then db.dependsOn[svc.id := env.yaml.dependsOn] else db.dependsOn)
  }

  /** The state every early exit of a drain leaves. */
  ghost predicate Stopped(db: Db, p: nat, env: BuildEnv, after: Db)
    requires p < |db.builds|
  {
    && Frame(db, p, env, after) && after.builds[p].status != Success
    && after.dependsOn == db.dependsOn
  }

  lemma EarlyExits(db: Db, p: nat, row: Build, status: Status, env: BuildEnv)
    requires p < |db.builds| && SameOrigin(db.builds[p], row) && row.status == Running
    requires status in {Failed, NoPipeline}
    ensures var claimed := db.(builds := db.builds[p := row]);
            Stopped(db, p, env, Fail(claimed, p, env)) && Stopped(db, p, env, Finish(claimed, p, status, env))
  {
    var claimed := db.(builds := db.builds[p := row]);
    FinishFrame(claimed, p, status, env);
    FrameFrom(db, claimed, p, env, Fail(claimed, p, env));
    FrameFrom(db, claimed, p, env, Finish(claimed, p, status, env));
  }

  predicate Resolves(db: Db, p: nat, env: BuildEnv)
    requires p < |db.builds|
  {
    && FindService(db.services, db.builds[p].service).Some? && env.cloned && env.yaml.Usable?
    && (db.builds[p].gitSha == "" ==> env.head.Some?)
  }

  /** A drain either stops before resolution, or is `BuildUsable` from there. */
  lemma DrainSplits(db: Db, p: nat, env: BuildEnv)
    requires FirstQueued(db.builds) == Some(p)
    ensures Resolves(db, p, env) ==>
              var svc := FindService(db.services, db.builds[p].service).value;
              DrainOnce(db, env) == BuildUsable(AtResolution(db, p, svc, env), p, svc, env.yaml.dependsOn, env)
    ensures !Resolves(db, p, env) ==> Stopped(db, p, env, DrainOnce(db, env))
  {
    var running := SetStatus(db, p, Running);
    var claimed := db.(builds := db.builds[p := Claimed(db.builds[p], env)]);
    assert db.builds[p := running.builds[p]][p := claimed.builds[p]] == claimed.builds;
    if Resolves(db, p, env) {
    } else if FindService(db.services, db.builds[p].service).None? || (db.builds[p].gitSha == "" && env.head.None?) {
      EarlyExits(db, p, running.builds[p], Failed, env);
    } else if !env.cloned || env.yaml.Unusable? {
      EarlyExits(db, p, claimed.builds[p], Failed, env);
    } else {
      EarlyExits(db, p, claimed.builds[p], NoPipeline, env);
    }
  }

  /** A drain rewrites one row, appends only queued rows, and touches only the cache of the service it built. */
  lemma DrainFrame(db: Db, p: nat, env: BuildEnv)
    requires FirstQueued(db.builds) == Some(p)
    ensures Frame(db, p, env, DrainOnce(db, env))
  {
    DrainSplits(db, p, env);
    if Resolves(db, p, env) {
      var svc := FindService(db.services, db.builds[p].service).value;
      var mid := AtResolution(db, p, svc, env);
      UsableFrame(mid, p, svc, env.yaml.dependsOn, env);
      FrameFrom(db, mid, p, env, DrainOnce(db, env));
    }
  }

  lemma UsableSuccess(mid: Db, p: nat, svc: Service, names: seq<string>, env: BuildEnv)
    requires p < |mid.builds| && mid.builds[p].status == Running
    requires BuildUsable(mid, p, svc, names, env).builds[p].status == Success
    ensures var after := BuildUsable(mid, p, svc, names, env);
            && Resolve(mid.services, mid.builds, svc.tenant, names) == Some(after.builds[p].resolved)
            && after.dependsOn == mid.dependsOn
            && |mid.builds| <= |after.builds|
            && after.builds[|mid.builds|..]
               == (if env.dependentsListed
                   then QueuedRows(Dependents(mid.services, mid.dependsOn, svc.tenant, svc.name), env.enqueueFails)
                   else [])
  {
    FinishFrame(mid, p, Failed, env);
    var resolved := Resolve(mid.services, mid.builds, svc.tenant, names).value;
    var recorded := mid.(builds := mid.builds[p := mid.builds[p].(resolved := resolved)]);
    FinishFrame(recorded, p, Failed, env);
  }

  /** What a successful drain recorded and queued. */
  lemma DrainSuccess(db: Db, p: nat, env: BuildEnv)
    requires InOrder(db.builds) && FirstQueued(db.builds) == Some(p)
    requires DrainOnce(db, env).builds[p].status == Success
    ensures |db.builds| <= |DrainOnce(db, env).builds|
    ensures exists svc :: SuccessLeaves(db, p, env, svc, DrainOnce(db, env))
  {
    var after := DrainOnce(db, env);
    DrainSplits(db, p, env);
    var svc := FindService(db.services, db.builds[p].service).value;
    var mid := AtResolution(db, p, svc, env);
    UsableSuccess(mid, p, svc, env.yaml.dependsOn, env);
    DrainFrame(db, p, env);
    Settled(db.services, db.builds, p, mid.builds[p]);
    var resolved := after.builds[p].resolved;
    forall d | d in resolved ensures UpToDate(db, svc, d) && d.name in env.yaml.dependsOn {
      assert LatestSuccess(mid.services, mid.builds, svc.tenant, d.name) == Some(d.build);
    }
    forall n | n in env.yaml.dependsOn ensures NamesDep(resolved, n) {
      var k :| 0 <= k < |env.yaml.dependsOn| && env.yaml.dependsOn[k] == n;
      assert resolved[k] in resolved;
    }
    assert SuccessLeaves(db, p, env, svc, after);
  }

  // ------------------------------------------------------------------ appended rows

  lemma PollAppends(services: seq<Service>, builds: seq<Build>, heads: map<string, string>) returns (more: seq<Build>)
    ensures PollServices(services, builds, heads) == builds + more
    ensures forall b | b in more :: b.status == Queued
  {
    if services == [] {
      more := [];
    } else {
      var k := |services| - 1;
      more := PollAppends(services[..k], builds, heads);
      var id := services[k].id;
      if !(id !in heads || LatestPollSha(builds + more, id) == Some(heads[id])) {
        var row := QueuedRow(id, Poll, heads[id]);
        assert builds + more + [row] == builds + (more + [row]);
        more := more + [row];
      }
    }
  }

  // ------------------------------------------------------------ how a drain will end

  ghost predicate Sound(db: Db) {
    UniqueIds(db.services) && InOrder(db.builds)
  }

  /** Everything the build needs is there, and its success can be written. */
  predicate WillSucceed(db: Db, p: nat, env: BuildEnv)
    requires p < |db.builds|
  {
    && Resolves(db, p, env)
    && Resolve(db.services, db.builds, FindService(db.services, db.builds[p].service).value.tenant,
               env.yaml.dependsOn).Some?
    && env.substituted && env.staged && env.finishWritten
  }

  /** No terminal status can be written: not the failure, and no other either. */
  predicate Hangs(db: Db, p: nat, env: BuildEnv)
    requires p < |db.builds|
  {
    && !env.failureWritten
    && !(env.finishWritten && env.cloned && FindService(db.services, db.builds[p].service).Some?
         && (db.builds[p].gitSha == "" ==> env.head.Some?))
  }

  /** What can be read off before the drain: whether it succeeds, or leaves its build `running`. */
  lemma CrashLeavesRunning(db: Db, p: nat, env: BuildEnv)
    requires InOrder(db.builds) && FirstQueued(db.builds) == Some(p)
    ensures DrainOnce(db, env).builds[p].status == Success <==> WillSucceed(db, p, env)
    ensures DrainOnce(db, env).builds[p].status == Running <==> Hangs(db, p, env)
  {
    DrainFrame(db, p, env);
    DrainSplits(db, p, env);
    if Resolves(db, p, env) {
      var svc := FindService(db.services, db.builds[p].service).value;
      var mid := AtResolution(db, p, svc, env);
      Settled(db.services, db.builds, p, mid.builds[p]);
      assert Resolve(mid.services, mid.builds, svc.tenant, env.yaml.dependsOn).Some?
             <==> Resolve(db.services, db.builds, svc.tenant, env.yaml.dependsOn).Some?;
    } else {
      EarlyStatus(db, p, env);
    }
  }

  lemma EarlyStatus(db: Db, p: nat, env: BuildEnv)
    requires FirstQueued(db.builds) == Some(p) && !Resolves(db, p, env)
    ensures DrainOnce(db, env).builds[p].status == Running <==> Hangs(db, p, env)
  {
  }

  /** The commit a drain builds: the row's own, or the head of the branch when the service is found and git answers. */
  predicate CommitKnown(db: Db, p: nat, env: BuildEnv)
    requires p < |db.builds|
  {
    && (exists s | s in db.services :: s.id == db.builds[p].service)
    && (db.builds[p].gitSha != "" || env.head.Some?)
  }

  /**
   The status a drain leaves: success and running as above; no_pipeline exactly when the commit
   was cloned, has no kaiad.yaml and that could be recorded; failed in every other case, among
   them an unusable kaiad.yaml, an unresolved dependency, and a stage that fails.
   */
  lemma TerminalStatus(db: Db, p: nat, env: BuildEnv)
    requires InOrder(db.builds) && FirstQueued(db.builds) == Some(p)
    ensures var status := DrainOnce(db, env).builds[p].status;
            && (status == NoPipeline <==> CommitKnown(db, p, env) && env.cloned && env.yaml.Missing? && env.finishWritten)
            && (status == Success
                <==> && CommitKnown(db, p, env) && env.cloned && env.yaml.Usable?
                     && (forall n | n in env.yaml.dependsOn ::
                           LatestSuccess(db.services, db.builds, FindService(db.services, db.builds[p].service).value.tenant, n).Some?)
                     && env.substituted && env.staged && env.finishWritten)
            && (status == Running
                <==> !env.failureWritten && !(CommitKnown(db, p, env) && env.cloned && env.finishWritten))
            && status in {Success, NoPipeline, Running, Failed}
  {
    CrashLeavesRunning(db, p, env);
    if Resolves(db, p, env) {
      DrainSplits(db, p, env);
      UsableStatus(AtResolution(db, p, FindService(db.services, db.builds[p].service).value, env), p,
                   FindService(db.services, db.builds[p].service).value, env.yaml.dependsOn, env);
      AllResolved(db, FindService(db.services, db.builds[p].service).value.tenant, env.yaml.dependsOn);
    } else {
      EarlyOutcome(db, p, env);
    }
  }

  lemma AllResolved(db: Db, tenant: string, names: seq<string>)
    ensures Resolve(db.services, db.builds, tenant, names).Some?
            <==> forall n | n in names :: LatestSuccess(db.services, db.builds, tenant, n).Some?
  {
    if k :| 0 <= k < |names| && LatestSuccess(db.services, db.builds, tenant, names[k]).None? {
      assert names[k] in names;
    }
  }

  /**
   The rest of the row a drain leaves: an empty commit is filled in with the head it found, and
   once the dependencies resolve each is recorded with its newest success, whatever comes after.
   */
  lemma DrainedRow(db: Db, p: nat, env: BuildEnv)
    requires InOrder(db.builds) && FirstQueued(db.builds) == Some(p)
    ensures var was, now := db.builds[p], DrainOnce(db, env).builds[p];
            && now.service == was.service && now.trigger == was.trigger
            && now.gitSha == (if was.gitSha != "" || !CommitKnown(db, p, env) then was.gitSha else env.head.value)
            && (if Resolves(db, p, env) && AllHaveSuccess(db, p, env.yaml.dependsOn)
                then RecordsNewest(db, p, env.yaml.dependsOn, now.resolved)
                else now.resolved == was.resolved)
  {
    if Resolves(db, p, env) {
      var svc := FindService(db.services, db.builds[p].service).value;
      var mid := AtResolution(db, p, svc, env);
      DrainSplits(db, p, env);
      Settled(db.services, db.builds, p, mid.builds[p]);
      AllResolved(mid, svc.tenant, env.yaml.dependsOn);
      UsableRow(mid, p, svc, env.yaml.dependsOn, env);
    } else {
      EarlyRow(db, p, env);
    }
  }

  predicate AllHaveSuccess(db: Db, p: nat, names: seq<string>)
    requires p < |db.builds| && FindService(db.services, db.builds[p].service).Some?
  {
    var tenant := FindService(db.services, db.builds[p].service).value.tenant;
    forall n | n in names :: LatestSuccess(db.services, db.builds, tenant, n).Some?
  }

  predicate RecordsNewest(db: Db, p: nat, names: seq<string>, resolved: seq<ResolvedDep>)
    requires p < |db.builds| && FindService(db.services, db.builds[p].service).Some?
  {
    var tenant := FindService(db.services, db.builds[p].service).value.tenant;
    && |resolved| == |names|
    && forall k | 0 <= k < |names| ::
         resolved[k].name == names[k] && LatestSuccess(db.services, db.builds, tenant, names[k]) == Some(resolved[k].build)
  }

  lemma UsableRow(mid: Db, p: nat, svc: Service, names: seq<string>, env: BuildEnv)
    requires p < |mid.builds|
    ensures var row, now := mid.builds[p], BuildUsable(mid, p, svc, names, env).builds[p];
            var resolved := Resolve(mid.services, mid.builds, svc.tenant, names);
            && now.service == row.service && now.trigger == row.trigger && now.gitSha == row.gitSha
            && now.resolved == if resolved.Some? then resolved.value else row.resolved
  {
  }

  lemma EarlyRow(db: Db, p: nat, env: BuildEnv)
    requires FirstQueued(db.builds) == Some(p) && !Resolves(db, p, env)
    ensures var was, now := db.builds[p], DrainOnce(db, env).builds[p];
            && now.service == was.service && now.trigger == was.trigger && now.resolved == was.resolved
            && now.gitSha == if was.gitSha != "" || !CommitKnown(db, p, env) then was.gitSha else env.head.value
  {
  }

  lemma UsableStatus(mid: Db, p: nat, svc: Service, names: seq<string>, env: BuildEnv)
    requires p < |mid.builds| && mid.builds[p].status == Running
    ensures BuildUsable(mid, p, svc, names, env).builds[p].status in {Success, Failed, Running}
  {
  }

  lemma EarlyOutcome(db: Db, p: nat, env: BuildEnv)
    requires FirstQueued(db.builds) == Some(p) && !Resolves(db, p, env)
    ensures var status := DrainOnce(db, env).builds[p].status;
            && status in {Failed, NoPipeline, Running}
            && (status == NoPipeline <==> CommitKnown(db, p, env) && env.cloned && env.yaml.Missing? && env.finishWritten)
  {
  }

  lemma CacheOf(db: Db, p: nat, env: BuildEnv)
    requires FirstQueued(db.builds) == Some(p)
    ensures DrainOnce(db, env).dependsOn
            == if Resolves(db, p, env) then CacheAfter(db, FindService(db.services, db.builds[p].service).value, env)
               else db.dependsOn
  {
    DrainSplits(db, p, env);
  }

  /**
   A drain writes the snapshot exactly when it got a usable kaiad.yaml and the statement works, and
   touches no other entry.
   */
  lemma SnapshotMeans(db: Db, p: nat, env: BuildEnv)
    requires FirstQueued(db.builds) == Some(p)
    ensures DrainOnce(db, env).dependsOn
            == if CommitKnown(db, p, env) && env.cloned && env.yaml.Usable? && env.metaWritten
               then db.dependsOn[db.builds[p].service := env.yaml.dependsOn] else db.dependsOn
  {
    CacheOf(db, p, env);
  }

  /** Another row of the service is queued. */
  predicate Waits(db: Db, p: nat, id: string) {
    exists j | 0 <= j < |db.builds| :: j != p && db.builds[j].service == id && db.builds[j].status == Queued
  }

  lemma QueuedAfter(db: Db, p: nat, env: BuildEnv, after: Db, id: string)
    requires p < |db.builds| && Frame(db, p, env, after)
    ensures HasQueued(after.builds, id) <==> Waits(db, p, id) || HasQueued(after.builds[|db.builds|..], id)
  {
    var n, more := |db.builds|, after.builds[|db.builds|..];
    assert forall j | 0 <= j < n && j != p :: after.builds[j] == db.builds[j];
    if HasQueued(after.builds, id) {
      var j :| 0 <= j < |after.builds| && after.builds[j].service == id && after.builds[j].status == Queued;
      assert j >= n ==> more[j - n] == after.builds[j];
    }
    if HasQueued(more, id) {
      var j :| 0 <= j < |more| && more[j].service == id && more[j].status == Queued;
      assert after.builds[n + j] == more[j];
    }
  }

  lemma OneMoreQueued(builds: seq<Build>, row: Build, id: string)
    ensures HasQueued(builds + [row], id) <==> HasQueued(builds, id) || (row.service == id && row.status == Queued)
  {
    var all := builds + [row];
    assert all[|builds|] == row;
    if HasQueued(builds, id) {
      var j :| 0 <= j < |builds| && builds[j].service == id && builds[j].status == Queued;
      assert all[j] == builds[j];
    }
  }

  lemma {:induction false} QueuedRowsHave(ds: seq<Service>, fails: set<string>, id: string)
    ensures HasQueued(QueuedRows(ds, fails), id) <==> id !in fails && exists d :: d in ds && d.id == id
  {
    if ds != [] {
      var k := |ds| - 1;
      QueuedRowsHave(ds[..k], fails, id);
      OneMoreQueued(QueuedRows(ds[..k], fails), QueuedRow(ds[k].id, Manual, ""), id);
      assert forall d :: d in ds <==> d in ds[..k] || d == ds[k];
      assert QueuedRows(ds[..k], fails) + [] == QueuedRows(ds[..k], fails);
    }
  }

  ghost predicate Recorded(db: Db, u: Service, d: ResolvedDep) {
    var last := LastFinished(db.builds, u.id);
    last.Some? && db.builds[last.value].status == Success && d in db.builds[last.value].resolved
  }

  /** `u` names `svc` in what it recorded, which for `svc` itself is what this build declares. */
  ghost predicate Names(db: Db, env: BuildEnv, svc: Service, u: Service) {
    && u.tenant == svc.tenant
    && if u.id == svc.id then env.yaml.Usable? && svc.name in env.yaml.dependsOn
       else exists d :: Recorded(db, u, d) && d.name == svc.name
  }

  /** Every service that names `svc` waits already, or is listed by the cache and its insert goes through. */
  ghost predicate CascadeReaches(db: Db, p: nat, env: BuildEnv, svc: Service) {
    forall u | u in db.services && Names(db, env, svc, u) ::
      || Waits(db, p, u.id)
      || (env.dependentsListed && u.id !in env.enqueueFails && svc.name in CachedDeps(CacheAfter(db, svc, env), u.id))
  }

  lemma RecordedAfterSuccess(db: Db, p: nat, env: BuildEnv, svc: Service, after: Db, u: Service)
    requires Sound(db) && Fresh(db) && FirstQueued(db.builds) == Some(p) && u in db.services
    requires Frame(db, p, env, after) && after.builds[p].status == Success && SuccessLeaves(db, p, env, svc, after)
    requires !HasQueued(after.builds, u.id)
    ensures FreshFor(after, u) <==> !Names(db, env, svc, u)
  {
    var row, more := after.builds[p], after.builds[|db.builds|..];
    Settled(db.services, db.builds, p, row);
    AppendQueued(db.services, db.builds[p := row], more);
    QueuedAfter(db, p, env, after, u.id);
    assert LatestSuccess(db.services, after.builds, u.tenant, svc.name)
           == if u.tenant == svc.tenant then Some(p) else LatestSuccess(db.services, db.builds, u.tenant, svc.name);
    forall d | Recorded(after, u, d)
      ensures UpToDate(after, u, d) <==> !(u.tenant == svc.tenant && d.name == svc.name)
    {
      assert u.id != svc.id ==> FreshFor(db, u) && Recorded(db, u, d);
      assert u.id != svc.id ==> !HasQueued(db.builds, u.id);
      assert UpToDate(db, u, d) && d.build < |db.builds|;
      assert SuccessOf(db.services, row, u.tenant, d.name) <==> u.tenant == svc.tenant && d.name == svc.name;
      assert db.builds[p].status == Queued;
    }
    if u.id == svc.id {
      assert u == svc;
      assert forall d :: Recorded(after, u, d) <==> d in row.resolved;
      assert svc.name in env.yaml.dependsOn <==> NamesDep(row.resolved, svc.name);
    } else {
      assert forall d :: Recorded(after, u, d) <==> Recorded(db, u, d);
    }
  }

  /**
   A drain that will succeed keeps the state fresh exactly when its cascade reaches every
   service that names the built one: each lost insert, lost listing or name missing from the
   cache is a stale service, unless that service waits already.
   */
  lemma SuccessFreshIff(db: Db, p: nat, env: BuildEnv)
    requires Sound(db) && Fresh(db) && FirstQueued(db.builds) == Some(p) && WillSucceed(db, p, env)
    ensures Fresh(DrainOnce(db, env))
            <==> CascadeReaches(db, p, env, FindService(db.services, db.builds[p].service).value)
  {
    var svc := FindService(db.services, db.builds[p].service).value;
    var after := DrainOnce(db, env);
    CrashLeavesRunning(db, p, env);
    DrainFrame(db, p, env);
    DrainSuccess(db, p, env);
    var leaves :| SuccessLeaves(db, p, env, leaves, after);
    assert leaves == svc;
    forall u | u in db.services
      ensures HasQueued(after.builds, u.id)
              <==> Waits(db, p, u.id)
                   || (env.dependentsListed && u.id !in env.enqueueFails && u.tenant == svc.tenant
                       && svc.name in CachedDeps(CacheAfter(db, svc, env), u.id))
    {
      QueuedAfter(db, p, env, after, u.id);
      var ds := Dependents(db.services, after.dependsOn, svc.tenant, svc.name);
      QueuedRowsHave(ds, env.enqueueFails, u.id);
      assert (exists d :: d in ds && d.id == u.id) <==> u in ds;
    }
    forall u | u in db.services && !HasQueued(after.builds, u.id)
      ensures FreshFor(after, u) <==> !Names(db, env, svc, u)
    {
      RecordedAfterSuccess(db, p, env, svc, after, u);
    }
    assert forall u | u in db.services && HasQueued(after.builds, u.id) :: FreshFor(after, u);
  }

  /**
   With a cache that matches, and a snapshot that is written or says nothing new, what counts
   is that the dependents are listed and each insert goes through.
   */
  lemma MatchingCacheReachesIff(db: Db, p: nat, env: BuildEnv, svc: Service)
    requires Sound(db) && CacheMatches(db) && svc in db.services && env.yaml.Usable?
    requires env.metaWritten || forall n | n in env.yaml.dependsOn :: n in CachedDeps(db.dependsOn, svc.id)
    ensures CascadeReaches(db, p, env, svc)
            <==> forall u | u in db.services && Names(db, env, svc, u) ::
                   Waits(db, p, u.id) || (env.dependentsListed && u.id !in env.enqueueFails)
  {
    forall u | u in db.services && Names(db, env, svc, u)
      ensures svc.name in CachedDeps(CacheAfter(db, svc, env), u.id)
    {
      if u.id != svc.id {
        var d :| Recorded(db, u, d) && d.name == svc.name;
        assert CachedDeps(CacheAfter(db, svc, env), u.id) == CachedDeps(db.dependsOn, u.id);
      }
    }
  }

  /** The service of the claimed row waits anyway, or nothing it recorded has moved on. */
  ghost predicate NothingMissed(db: Db, p: nat)
    requires p < |db.builds|
  {
    forall u, d | u in db.services && Recorded(db, u, d) && u.id == db.builds[p].service ::
      Waits(db, p, u.id) || UpToDate(db, u, d)
  }

  lemma UnsuccessfulRows(db: Db, p: nat, env: BuildEnv)
    requires FirstQueued(db.builds) == Some(p) && DrainOnce(db, env).builds[p].status != Success
    ensures var after := DrainOnce(db, env);
            && Frame(db, p, env, after) && after.builds == db.builds[p := after.builds[p]]
  {
    DrainFrame(db, p, env);
  }

  lemma UnsuccessfulFrame(db: Db, p: nat, env: BuildEnv, after: Db, u: Service)
    requires Sound(db) && FirstQueued(db.builds) == Some(p) && u in db.services
    requires Frame(db, p, env, after) && after.builds == db.builds[p := after.builds[p]]
    requires after.builds[p].status != Success
    ensures HasQueued(after.builds, u.id) <==> Waits(db, p, u.id)
    ensures forall d :: UpToDate(after, u, d) <==> UpToDate(db, u, d)
    ensures LastFinished(after.builds, u.id)
            == (if u.id == db.builds[p].service && Finished(after.builds[p]) then Some(p) else LastFinished(db.builds, u.id))
  {
    Settled(db.services, db.builds, p, after.builds[p]);
    QueuedAfter(db, p, env, after, u.id);
  }

  /**
   A drain that leaves its build `running`, before or after it wrote the snapshot, keeps the
   state fresh exactly when the service waits anyway or nothing it recorded has moved on.
   */
  lemma CrashFreshIff(db: Db, p: nat, env: BuildEnv)
    requires Sound(db) && Fresh(db) && FirstQueued(db.builds) == Some(p) && Hangs(db, p, env)
    ensures Fresh(DrainOnce(db, env)) <==> NothingMissed(db, p)
  {
    var after := DrainOnce(db, env);
    CrashLeavesRunning(db, p, env);
    UnsuccessfulRows(db, p, env);
    forall u | u in db.services
      ensures FreshFor(after, u) <==> u.id != db.builds[p].service || Waits(db, p, u.id)
                                      || forall d | Recorded(db, u, d) :: UpToDate(db, u, d)
    {
      CrashOfOne(db, p, env, after, u);
    }
  }

  lemma CrashOfOne(db: Db, p: nat, env: BuildEnv, after: Db, u: Service)
    requires Sound(db) && FreshFor(db, u) && FirstQueued(db.builds) == Some(p) && u in db.services
    requires Frame(db, p, env, after) && after.builds == db.builds[p := after.builds[p]]
    requires after.builds[p].status == Running
    ensures FreshFor(after, u) <==> u.id != db.builds[p].service || Waits(db, p, u.id)
                                    || forall d | Recorded(db, u, d) :: UpToDate(db, u, d)
  {
    UnsuccessfulFrame(db, p, env, after, u);
    assert LastFinished(db.builds, u.id) != Some(p);
    assert forall d :: Recorded(after, u, d) <==> Recorded(db, u, d);
    assert u.id != db.builds[p].service ==> (HasQueued(db.builds, u.id) <==> Waits(db, p, u.id));
  }

  /** A drain that ends in a written failure costs nothing. */
  lemma FailureStaysFresh(db: Db, p: nat, env: BuildEnv)
    requires Sound(db) && Fresh(db) && FirstQueued(db.builds) == Some(p)
    requires !WillSucceed(db, p, env) && !Hangs(db, p, env)
    ensures Fresh(DrainOnce(db, env))
  {
    var after := DrainOnce(db, env);
    CrashLeavesRunning(db, p, env);
    UnsuccessfulRows(db, p, env);
    forall u | u in db.services
      ensures FreshFor(after, u)
    {
      FailureKeepsFresh(db, p, env, after, u);
    }
  }

  lemma FailureKeepsFresh(db: Db, p: nat, env: BuildEnv, after: Db, u: Service)
    requires Sound(db) && FreshFor(db, u) && FirstQueued(db.builds) == Some(p) && u in db.services
    requires Frame(db, p, env, after) && after.builds == db.builds[p := after.builds[p]]
    requires after.builds[p].status in {Failed, NoPipeline}
    ensures FreshFor(after, u)
  {
    UnsuccessfulFrame(db, p, env, after, u);
    assert u.id != db.builds[p].service ==> (HasQueued(db.builds, u.id) <==> Waits(db, p, u.id));
  }

  // --------------------------------------------------- every run, with any write lost

  /** What can be checked before an event: that it keeps the state fresh. */
  ghost predicate Keeps(db: Db, e: Event) {
    e.Drain? && FirstQueued(db.builds).Some? ==>
      var p := FirstQueued(db.builds).value;
      && (WillSucceed(db, p, e.env) ==> CascadeReaches(db, p, e.env, FindService(db.services, db.builds[p].service).value))
      && (Hangs(db, p, e.env) ==> NothingMissed(db, p))
  }

  lemma StepFreshIff(db: Db, e: Event)
    requires Sound(db) && Fresh(db)
    ensures Sound(Step(db, e))
    ensures Fresh(Step(db, e)) <==> Keeps(db, e)
  {
    match e
    case PollOnce(heads) =>
      var more := PollAppends(db.services, db.builds, heads);
      AppendStaysFresh(db, more);
    case StartManual(id) => AppendStaysFresh(db, [QueuedRow(id, Manual, "")]);
    case Drain(env) =>
      if FirstQueued(db.builds).Some? {
        var p := FirstQueued(db.builds).value;
        DrainStaysSound(db, p, env);
        if WillSucceed(db, p, env) {
          SuccessFreshIff(db, p, env);
        } else if Hangs(db, p, env) {
          CrashFreshIff(db, p, env);
        } else {
          FailureStaysFresh(db, p, env);
        }
      }
  }

  lemma DrainStaysSound(db: Db, p: nat, env: BuildEnv)
    requires Sound(db) && FirstQueued(db.builds) == Some(p)
    ensures Sound(DrainOnce(db, env))
    ensures WillSucceed(db, p, env) ==> !Hangs(db, p, env)
  {
    var after := DrainOnce(db, env);
    DrainFrame(db, p, env);
    Settled(db.services, db.builds, p, after.builds[p]);
    AppendQueued(db.services, db.builds[p := after.builds[p]], after.builds[|db.builds|..]);
  }

  lemma AppendStaysFresh(db: Db, more: seq<Build>)
    requires Sound(db) && Fresh(db) && forall b | b in more :: b.status == Queued
    ensures Sound(db.(builds := db.builds + more)) && Fresh(db.(builds := db.builds + more))
  {
    AppendQueued(db.services, db.builds, more);
    var after := db.(builds := db.builds + more);
    forall s | s in db.services ensures FreshFor(after, s) {
      assert FreshFor(db, s);
    }
  }

  /** No state of the run is stale. */
  ghost predicate AlwaysFresh(db: Db, events: seq<Event>) {
    Fresh(Run(db, events)) && (events == [] || AlwaysFresh(db, events[..|events| - 1]))
  }

  ghost predicate AlwaysKeeps(db: Db, events: seq<Event>) {
    events == []
    || (AlwaysKeeps(db, events[..|events| - 1]) && Keeps(Run(db, events[..|events| - 1]), events[|events| - 1]))
  }

  /**
   Over every run, whatever statements fail in it, no state is stale exactly when each drain
   met the condition that could be checked before it.
   */
  lemma {:induction false} RunsStayFresh(db: Db, events: seq<Event>)
    requires UniqueIds(db.services) && db.builds == []
    ensures AlwaysFresh(db, events) <==> AlwaysKeeps(db, events)
    ensures AlwaysFresh(db, events) ==> Sound(Run(db, events))
  {
    if events != [] {
      var front := events[..|events| - 1];
      RunsStayFresh(db, front);
      if AlwaysFresh(db, front) {
        assert Fresh(Run(db, front));
        StepFreshIff(Run(db, front), events[|events| - 1]);
      }
    }
  }

  /** Once nothing is queued, every last success used the newest success of each dependency it recorded. */
  lemma QuietMeansUpToDate(db: Db, events: seq<Event>, s: Service, last: nat, d: ResolvedDep)
    requires UniqueIds(db.services) && db.builds == [] && AlwaysKeeps(db, events)
    requires FirstQueued(Run(db, events).builds).None? && s in Run(db, events).services
    requires LastFinished(Run(db, events).builds, s.id) == Some(last)
    requires Run(db, events).builds[last].status == Success && d in Run(db, events).builds[last].resolved
    ensures UpToDate(Run(db, events), s, d)
  {
    RunsStayFresh(db, events);
    assert Fresh(Run(db, events));
    assert FreshFor(Run(db, events), s);
  }

  // --------------------------------------------------------- when the cache stops matching

  /**
   A lost snapshot is harmless when the cache already lists what is declared, and a written one
   is harmful when the build then hangs with an older success that recorded something else.
   */
  ghost predicate SnapshotHarmless(db: Db, p: nat, env: BuildEnv)
    requires p < |db.builds|
  {
    Resolves(db, p, env) ==>
      var svc := FindService(db.services, db.builds[p].service).value;
      && (WillSucceed(db, p, env) ==>
            env.metaWritten || forall n | n in env.yaml.dependsOn :: n in CachedDeps(db.dependsOn, svc.id))
      && (Hangs(db, p, env) && env.metaWritten ==> forall d | Recorded(db, svc, d) :: d.name in env.yaml.dependsOn)
  }

  /** The cache keeps listing what was recorded exactly when the drain's snapshot is harmless. */
  lemma CacheMatchesIff(db: Db, p: nat, env: BuildEnv)
    requires Sound(db) && CacheMatches(db) && FirstQueued(db.builds) == Some(p)
    ensures CacheMatches(DrainOnce(db, env)) <==> SnapshotHarmless(db, p, env)
  {
    var after := DrainOnce(db, env);
    CrashLeavesRunning(db, p, env);
    CacheOf(db, p, env);
    DrainFrame(db, p, env);
    if WillSucceed(db, p, env) {
      CacheAfterSuccess(db, p, env);
    } else {
      UnsuccessfulRows(db, p, env);
      forall u | u in db.services
        ensures Listed(after, u) <==> u.id != db.builds[p].service || SnapshotHarmless(db, p, env)
      {
        UnsuccessfulFrame(db, p, env, after, u);
        assert Listed(db, u) && LastFinished(db.builds, u.id) != Some(p);
      }
      assert CacheMatches(after) <==> forall u | u in db.services :: Listed(after, u);
      if Resolves(db, p, env) {
        assert FindService(db.services, db.builds[p].service).value in db.services;
      }
    }
  }

  ghost predicate Listed(db: Db, u: Service) {
    forall d | Recorded(db, u, d) :: d.name in CachedDeps(db.dependsOn, u.id)
  }

  /** A success records what it resolved for its own service, and nothing for the others. */
  lemma SuccessRecords(db: Db, p: nat, env: BuildEnv, svc: Service, after: Db, u: Service)
    requires Sound(db) && FirstQueued(db.builds) == Some(p) && u in db.services
    requires Frame(db, p, env, after) && after.builds[p].status == Success && SuccessLeaves(db, p, env, svc, after)
    ensures u.id != svc.id ==> forall d :: Recorded(after, u, d) <==> Recorded(db, u, d)
    ensures u.id == svc.id ==> forall d :: Recorded(after, u, d) <==> d in after.builds[p].resolved
  {
    var row := after.builds[p];
    Settled(db.services, db.builds, p, row);
    AppendQueued(db.services, db.builds[p := row], after.builds[|db.builds|..]);
  }

  lemma CacheAfterSuccess(db: Db, p: nat, env: BuildEnv)
    requires Sound(db) && CacheMatches(db) && FirstQueued(db.builds) == Some(p) && WillSucceed(db, p, env)
    ensures CacheMatches(DrainOnce(db, env))
            <==> (env.metaWritten || forall n | n in env.yaml.dependsOn ::
                    n in CachedDeps(db.dependsOn, db.builds[p].service))
  {
    var after := DrainOnce(db, env);
    CrashLeavesRunning(db, p, env);
    DrainFrame(db, p, env);
    DrainSuccess(db, p, env);
    var svc :| SuccessLeaves(db, p, env, svc, after);
    forall u | u in db.services && u.id != svc.id
      ensures Listed(after, u)
    {
      assert Listed(db, u);
      SuccessRecords(db, p, env, svc, after, u);
    }
    SuccessRecords(db, p, env, svc, after, svc);
    assert CacheMatches(after) <==> forall u | u in db.services :: Listed(after, u);
  }

  // ------------------------------------------------------------ runs that lose no statement

  lemma ReliableKeeps(db: Db, e: Event)
    requires Inv(db) && Reliable(e)
    ensures Keeps(db, e)
  {
    if e.Drain? && FirstQueued(db.builds).Some? {
      var p := FirstQueued(db.builds).value;
      if WillSucceed(db, p, e.env) {
        MatchingCacheReachesIff(db, p, e.env, FindService(db.services, db.builds[p].service).value);
      }
    }
  }

  lemma AppendKeepsCache(db: Db, more: seq<Build>)
    requires CacheMatches(db) && forall b | b in more :: b.status == Queued
    ensures CacheMatches(db.(builds := db.builds + more))
  {
    AppendQueued(db.services, db.builds, more);
  }

  lemma StepKeepsInv(db: Db, e: Event)
    requires Inv(db) && Reliable(e)
    ensures Inv(Step(db, e))
  {
    ReliableKeeps(db, e);
    StepFreshIff(db, e);
    match e
    case PollOnce(heads) =>
      var more := PollAppends(db.services, db.builds, heads);
      AppendKeepsCache(db, more);
    case StartManual(id) => AppendKeepsCache(db, [QueuedRow(id, Manual, "")]);
    case Drain(env) =>
      if FirstQueued(db.builds).Some? {
        CacheMatchesIff(db, FirstQueued(db.builds).value, env);
      }
  }

  /** Order, cache and freshness survive a drain that loses no statement. */
  lemma DrainKeepsInv(db: Db, env: BuildEnv)
    requires Inv(db) && Reliable(Drain(env))
    ensures Inv(DrainOnce(db, env))
  {
    StepKeepsInv(db, Drain(env));
  }

  /** Every state that reliable events reach is fresh. */
  lemma {:induction false} ReliableRunsStayFresh(db: Db, events: seq<Event>)
    requires UniqueIds(db.services) && db.builds == []
    requires forall e | e in events :: Reliable(e)
    ensures Inv(Run(db, events))
  {
    if events != [] {
      ReliableRunsStayFresh(db, events[..|events| - 1]);
      StepKeepsInv(Run(db, events[..|events| - 1]), events[|events| - 1]);
    }
  }
}
