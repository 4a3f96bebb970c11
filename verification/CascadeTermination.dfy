/**
 When the cascade stops. On an acyclic `dependsOn` graph every drain spends at least
 one unit of a potential that starts at the weight of the triggered service; on a
 cyclic one a cascade whose builds succeed never empties the queue.
 */
module CascadeTermination {
  import opened Wrappers
  import opened BuildQueue
  import opened CascadeFreshness

  type Graph = map<string, seq<string>>

  /** Every dependent ranks below what it depends on: the graph is acyclic. */
  ghost predicate Ranked(services: seq<Service>, deps: Graph, rank: map<Service, nat>) {
    && (forall s | s in services :: s in rank)
    && forall s, u | s in services && u in services && DependsOn(deps, u, s.tenant, s.name) :: rank[u] < rank[s]
  }

  ghost predicate HasDependentIn(deps: Graph, c: set<Service>, s: Service) {
    exists u :: u in c && DependsOn(deps, u, s.tenant, s.name)
  }

  /** A set whose every member has a dependent in the set: a cascade can go round in it. */
  ghost predicate SelfFeeding(deps: Graph, c: set<Service>) {
    c != {} && forall s {:trigger HasDependentIn(deps, c, s)} | s in c :: HasDependentIn(deps, c, s)
  }

  /** W(s) = 1 + the weights of the services that depend on s. */
  ghost function Weight(services: seq<Service>, deps: Graph, rank: map<Service, nat>, s: Service): nat
    requires Ranked(services, deps, rank) && s in services
    decreases rank[s], |services| + 1
  {
    1 + DependentsWeight(services, deps, rank, s, |services|)
  }

  ghost function DependentsWeight(services: seq<Service>, deps: Graph, rank: map<Service, nat>, s: Service, k: nat): nat
    requires Ranked(services, deps, rank) && s in services && k <= |services|
    decreases rank[s], k
  {
    if k == 0 then 0
    else
      DependentsWeight(services, deps, rank, s, k - 1)
      + (if DependsOn(deps, services[k - 1], s.tenant, s.name) then Weight(services, deps, rank, services[k - 1]) else 0)
  }

  ghost function BuildWeight(services: seq<Service>, deps: Graph, rank: map<Service, nat>, b: Build): nat
    requires Ranked(services, deps, rank)
  {
    if b.status != Queued then 0
    else
      var s := FindService(services, b.service);
      if s.Some? then Weight(services, deps, rank, s.value) else 1
  }

  /** The builds the queue can still cause. */
  ghost function Potential(services: seq<Service>, deps: Graph, rank: map<Service, nat>, builds: seq<Build>): nat
    requires Ranked(services, deps, rank)
  {
    if builds == [] then 0
    else
      Potential(services, deps, rank, builds[..|builds| - 1])
      + BuildWeight(services, deps, rank, builds[|builds| - 1])
  }

  // -------------------------------------------------------- acyclic, both ways

  lemma {:induction false} LeastRanked(c: set<Service>, rank: map<Service, nat>) returns (least: Service)
    requires c != {} && forall s | s in c :: s in rank
    ensures least in c && forall s | s in c :: rank[least] <= rank[s]
  {
    least :| least in c;
    if c != {least} {
      var other := LeastRanked(c - {least}, rank);
      if rank[other] < rank[least] {
        least := other;
      }
    }
  }

  lemma RankedHasNoCycle(services: seq<Service>, deps: Graph, rank: map<Service, nat>, c: set<Service>)
    requires Ranked(services, deps, rank) && forall s | s in c :: s in services
    ensures !SelfFeeding(deps, c)
  {
    if c != {} {
      var least := LeastRanked(c, rank);
      assert !HasDependentIn(deps, c, least);
    }
  }

  lemma {:induction false} RankOf(deps: Graph, all: set<Service>) returns (rank: map<Service, nat>)
    requires forall c | c <= all :: !SelfFeeding(deps, c)
    ensures rank.Keys == all
    ensures forall s, u | s in all && u in all && DependsOn(deps, u, s.tenant, s.name) :: rank[u] < rank[s]
    decreases |all|
  {
    if all == {} {
      rank := map[];
    } else {
      assert !SelfFeeding(deps, all);
      var top :| top in all && !HasDependentIn(deps, all, top);
      var rest := RankOf(deps, all - {top});
      rank := map s | s in all :: if s == top then 0 else rest[s] + 1;
    }
  }

  /** A rank exists exactly when no set of services feeds itself. */
  lemma AcyclicIffRanked(services: seq<Service>, deps: Graph)
    ensures (exists rank :: Ranked(services, deps, rank))
            <==> forall c | (forall s | s in c :: s in services) :: !SelfFeeding(deps, c)
  {
    if rank :| Ranked(services, deps, rank) {
      forall c | (forall s | s in c :: s in services) ensures !SelfFeeding(deps, c) {
        RankedHasNoCycle(services, deps, rank, c);
      }
    } else if forall c | (forall s | s in c :: s in services) :: !SelfFeeding(deps, c) {
      var rank := RankOf(deps, set s | s in services);
      assert Ranked(services, deps, rank);
    }
  }

  // ----------------------------------------------------------- one drain

  lemma {:induction false} PotentialSplits(services: seq<Service>, deps: Graph, rank: map<Service, nat>,
                                           a: seq<Build>, b: seq<Build>)
    requires Ranked(services, deps, rank)
    ensures Potential(services, deps, rank, a + b) == Potential(services, deps, rank, a) + Potential(services, deps, rank, b)
  {
    if b == [] {
      assert a + b == a;
    } else {
      assert (a + b)[..|a + b| - 1] == a + b[..|b| - 1];
      PotentialSplits(services, deps, rank, a, b[..|b| - 1]);
    }
  }

  lemma PotentialOfSettled(services: seq<Service>, deps: Graph, rank: map<Service, nat>, builds: seq<Build>,
                           p: nat, row: Build)
    requires Ranked(services, deps, rank) && p < |builds| && row.status != Queued
    ensures Potential(services, deps, rank, builds)
            == Potential(services, deps, rank, builds[p := row]) + BuildWeight(services, deps, rank, builds[p])
  {
    var before, behind := builds[..p], builds[p + 1..];
    assert builds == before + [builds[p]] + behind && builds[p := row] == before + [row] + behind;
    PotentialSplits(services, deps, rank, before + [builds[p]], behind);
    PotentialSplits(services, deps, rank, before, [builds[p]]);
    PotentialSplits(services, deps, rank, before + [row], behind);
    PotentialSplits(services, deps, rank, before, [row]);
    assert [builds[p]][..0] == [] && [row][..0] == [];
  }

  /** The snapshot never names a dependency the graph does not have. */
  ghost predicate Within(services: seq<Service>, snapshot: Graph, deps: Graph) {
    forall s, n | s in services && n in CachedDeps(snapshot, s.id) :: n in CachedDeps(deps, s.id)
  }

  ghost predicate Declares(deps: Graph, id: string, env: BuildEnv) {
    env.yaml.Usable? ==> forall n :: n in env.yaml.dependsOn <==> n in CachedDeps(deps, id)
  }

  /** The rows a cascade of `s` inserts for the first `k` services. */
  function CascadeRows(services: seq<Service>, snapshot: Graph, s: Service, k: nat, fails: set<string>): seq<Build>
    requires k <= |services|
  {
    QueuedRows(Dependents(services[..k], snapshot, s.tenant, s.name), fails)
  }

  lemma CascadeRowsStep(services: seq<Service>, snapshot: Graph, s: Service, k: nat, fails: set<string>)
    requires 0 < k <= |services|
    ensures var u := services[k - 1];
            CascadeRows(services, snapshot, s, k, fails)
            == CascadeRows(services, snapshot, s, k - 1, fails)
               + (if DependsOn(snapshot, u, s.tenant, s.name) && u.id !in fails then [QueuedRow(u.id, Manual, "")] else [])
  {
    assert services[..k][..k - 1] == services[..k - 1];
    var before := Dependents(services[..k - 1], snapshot, s.tenant, s.name);
    assert (before + [services[k - 1]])[..|before|] == before;
    assert before + [] == before;
  }

  lemma PotentialAppend(services: seq<Service>, deps: Graph, rank: map<Service, nat>, builds: seq<Build>, u: Service)
    requires Ranked(services, deps, rank) && UniqueIds(services) && u in services
    ensures Potential(services, deps, rank, builds + [QueuedRow(u.id, Manual, "")])
            == Potential(services, deps, rank, builds) + Weight(services, deps, rank, u)
  {
    var row := QueuedRow(u.id, Manual, "");
    assert (builds + [row])[..|builds|] == builds;
    assert FindService(services, u.id) == Some(u);
  }

  /** What the cascade of `s` adds to the potential by its row for `u`, if it inserts one. */
  ghost function RowWeight(
    services: seq<Service>, snapshot: Graph, deps: Graph, rank: map<Service, nat>, s: Service, u: Service, fails: set<string>): nat
    requires Ranked(services, deps, rank) && u in services
  {
    if DependsOn(snapshot, u, s.tenant, s.name) && u.id !in fails then Weight(services, deps, rank, u) else 0
  }

  lemma CascadeWeightStep(
    services: seq<Service>, snapshot: Graph, deps: Graph, rank: map<Service, nat>, s: Service, k: nat, fails: set<string>)
    requires Ranked(services, deps, rank) && 0 < k <= |services| && UniqueIds(services)
    ensures var u := services[k - 1];
            Potential(services, deps, rank, CascadeRows(services, snapshot, s, k, fails))
            == Potential(services, deps, rank, CascadeRows(services, snapshot, s, k - 1, fails))
               + RowWeight(services, snapshot, deps, rank, s, u, fails)
  {
    CascadeRowsStep(services, snapshot, s, k, fails);
    var before := CascadeRows(services, snapshot, s, k - 1, fails);
    PotentialAppend(services, deps, rank, before, services[k - 1]);
    assert before + [] == before;
  }

  /** What the inserts for the first `k` services add to the potential. */
  ghost function RowsWeight(
    services: seq<Service>, snapshot: Graph, deps: Graph, rank: map<Service, nat>, s: Service, k: nat, fails: set<string>): nat
    requires Ranked(services, deps, rank) && k <= |services|
  {
    if k == 0 then 0
    else
      RowsWeight(services, snapshot, deps, rank, s, k - 1, fails)
      + RowWeight(services, snapshot, deps, rank, s, services[k - 1], fails)
  }

  lemma RowsWeightStep(
    services: seq<Service>, snapshot: Graph, deps: Graph, rank: map<Service, nat>, s: Service, k: nat, fails: set<string>)
    requires Ranked(services, deps, rank) && 0 < k <= |services|
    ensures RowsWeight(services, snapshot, deps, rank, s, k, fails)
            == RowsWeight(services, snapshot, deps, rank, s, k - 1, fails)
               + RowWeight(services, snapshot, deps, rank, s, services[k - 1], fails)
  {
  }

  lemma NoCascadeRows(services: seq<Service>, snapshot: Graph, s: Service, fails: set<string>)
    ensures CascadeRows(services, snapshot, s, 0, fails) == []
  {
    assert services[..0] == [];
  }

  lemma {:induction false} CascadeWeight(
    services: seq<Service>, snapshot: Graph, deps: Graph, rank: map<Service, nat>, s: Service, k: nat, fails: set<string>)
    requires Ranked(services, deps, rank) && k <= |services| && UniqueIds(services)
    ensures Potential(services, deps, rank, CascadeRows(services, snapshot, s, k, fails))
            == RowsWeight(services, snapshot, deps, rank, s, k, fails)
  {
    if k == 0 {
      NoCascadeRows(services, snapshot, s, fails);
    } else {
      CascadeWeight(services, snapshot, deps, rank, s, k - 1, fails);
      CascadeWeightStep(services, snapshot, deps, rank, s, k, fails);
      RowsWeightStep(services, snapshot, deps, rank, s, k, fails);
    }
  }

  lemma {:induction false} RowsWeightBound(
    services: seq<Service>, snapshot: Graph, deps: Graph, rank: map<Service, nat>, s: Service, k: nat, fails: set<string>)
    requires Ranked(services, deps, rank) && s in services && k <= |services| && Within(services, snapshot, deps)
    ensures RowsWeight(services, snapshot, deps, rank, s, k, fails) <= DependentsWeight(services, deps, rank, s, k)
    ensures Within(services, deps, snapshot) && fails == {} ==>
              RowsWeight(services, snapshot, deps, rank, s, k, fails) == DependentsWeight(services, deps, rank, s, k)
  {
    if k > 0 {
      RowsWeightBound(services, snapshot, deps, rank, s, k - 1, fails);
      assert DependsOn(snapshot, services[k - 1], s.tenant, s.name) ==> DependsOn(deps, services[k - 1], s.tenant, s.name);
    }
  }

  /** A drain trades the weight of the row it claims for that of the rows its cascade inserts. */
  lemma DrainBalance(db: Db, deps: Graph, rank: map<Service, nat>, p: nat, env: BuildEnv)
    requires Ranked(db.services, deps, rank) && FirstQueued(db.builds) == Some(p)
    ensures var after := DrainOnce(db, env);
            && |db.builds| <= |after.builds|
            && Potential(db.services, deps, rank, after.builds) + BuildWeight(db.services, deps, rank, db.builds[p])
               == Potential(db.services, deps, rank, db.builds)
                  + Potential(db.services, deps, rank, after.builds[|db.builds|..])
  {
    var after := DrainOnce(db, env);
    DrainFrame(db, p, env);
    var row, more := after.builds[p], after.builds[|db.builds|..];
    PotentialOfSettled(db.services, deps, rank, db.builds, p, row);
    PotentialSplits(db.services, deps, rank, db.builds[p := row], more);
  }

  lemma DrainKeepsOrder(db: Db, p: nat, env: BuildEnv)
    requires InOrder(db.builds) && FirstQueued(db.builds) == Some(p)
    ensures InOrder(DrainOnce(db, env).builds)
  {
    var after := DrainOnce(db, env);
    DrainFrame(db, p, env);
    Settled(db.services, db.builds, p, after.builds[p]);
    AppendQueued(db.services, db.builds[p := after.builds[p]], after.builds[|db.builds|..]);
  }

  /** The rows a successful build inserts weigh one less than the build did, or less still. */
  lemma InsertedWeight(db: Db, deps: Graph, rank: map<Service, nat>, p: nat, env: BuildEnv, svc: Service, after: Db)
    requires Ranked(db.services, deps, rank) && UniqueIds(db.services) && Within(db.services, after.dependsOn, deps)
    requires p < |db.builds| <= |after.builds| && SuccessLeaves(db, p, env, svc, after)
    ensures var weight := Potential(db.services, deps, rank, after.builds[|db.builds|..]);
            && weight < Weight(db.services, deps, rank, svc)
            && (env.dependentsListed && env.enqueueFails == {} && Within(db.services, deps, after.dependsOn) ==>
                  weight + 1 == Weight(db.services, deps, rank, svc))
  {
    var n := |db.services|;
    assert db.services[..n] == db.services;
    CascadeWeight(db.services, after.dependsOn, deps, rank, svc, n, env.enqueueFails);
    RowsWeightBound(db.services, after.dependsOn, deps, rank, svc, n, env.enqueueFails);
  }

  lemma ClaimedWeight(services: seq<Service>, deps: Graph, rank: map<Service, nat>, b: Build, svc: Service)
    requires Ranked(services, deps, rank) && UniqueIds(services) && svc in services
    requires b.status == Queued && b.service == svc.id
    ensures BuildWeight(services, deps, rank, b) == Weight(services, deps, rank, svc)
  {
    assert FindService(services, b.service) == Some(svc);
  }

  /** Every drain that claims a build lowers the potential, by exactly one when the build and its cascade succeed. */
  lemma DrainSpends(db: Db, deps: Graph, rank: map<Service, nat>, p: nat, env: BuildEnv)
    requires Ranked(db.services, deps, rank) && UniqueIds(db.services) && Within(db.services, db.dependsOn, deps)
    requires InOrder(db.builds) && FirstQueued(db.builds) == Some(p) && Declares(deps, db.builds[p].service, env)
    ensures var after := DrainOnce(db, env);
            && after.services == db.services && Within(after.services, after.dependsOn, deps) && InOrder(after.builds)
            && Potential(db.services, deps, rank, after.builds) + 1 <= Potential(db.services, deps, rank, db.builds)
            && p < |after.builds|
            && (after.builds[p].status == Success && Reliable(Drain(env)) && Within(db.services, deps, db.dependsOn) ==>
                  && Potential(db.services, deps, rank, after.builds) + 1 == Potential(db.services, deps, rank, db.builds)
                  && Within(after.services, deps, after.dependsOn))
  {
    var after := DrainOnce(db, env);
    DrainKeepsOrder(db, p, env);
    DrainBalance(db, deps, rank, p, env);
    DrainFrame(db, p, env);
    SnapshotStaysWithin(db, deps, p, env, after);
    if after.builds[p].status == Success {
      DrainSuccess(db, p, env);
      var svc :| SuccessLeaves(db, p, env, svc, after);
      ClaimedWeight(db.services, deps, rank, db.builds[p], svc);
      InsertedWeight(db, deps, rank, p, env, svc, after);
    }
  }

  lemma SnapshotStaysWithin(db: Db, deps: Graph, p: nat, env: BuildEnv, after: Db)
    requires p < |db.builds| && Frame(db, p, env, after) && Declares(deps, db.builds[p].service, env)
    requires Within(db.services, db.dependsOn, deps)
    ensures Within(after.services, after.dependsOn, deps)
    ensures Within(db.services, deps, db.dependsOn) ==> Within(after.services, deps, after.dependsOn)
  {
  }

  // ----------------------------------------------------------- whole cascades

  function Drains(db: Db, envs: seq<BuildEnv>): Db {
    if envs == [] then db else DrainOnce(Drains(db, envs[..|envs| - 1]), envs[|envs| - 1])
  }

  /** The drain finds a build, and its kaiad.yaml, if it gets that far, declares the graph. */
  ghost predicate Claims(db: Db, deps: Graph, env: BuildEnv) {
    FirstQueued(db.builds).Some? && Declares(deps, db.builds[FirstQueued(db.builds).value].service, env)
  }

  ghost predicate Succeeds(db: Db, env: BuildEnv) {
    var p := FirstQueued(db.builds);
    && p.Some? && Reliable(Drain(env))
    && p.value < |DrainOnce(db, env).builds| && DrainOnce(db, env).builds[p.value].status == Success
  }

  ghost predicate AllClaim(db: Db, deps: Graph, envs: seq<BuildEnv>) {
    envs == [] || (AllClaim(db, deps, envs[..|envs| - 1])
                   && Claims(Drains(db, envs[..|envs| - 1]), deps, envs[|envs| - 1]))
  }

  ghost predicate AllSucceed(db: Db, envs: seq<BuildEnv>) {
    envs == [] || (AllSucceed(db, envs[..|envs| - 1]) && Succeeds(Drains(db, envs[..|envs| - 1]), envs[|envs| - 1]))
  }

  /** The hypotheses on the database that every drain hands on. */
  ghost predicate Shaped(db: Db, services: seq<Service>, deps: Graph) {
    && db.services == services && UniqueIds(services)
    && Within(services, db.dependsOn, deps) && InOrder(db.builds)
  }

  lemma {:induction false} CascadeSpends(db: Db, services: seq<Service>, deps: Graph, rank: map<Service, nat>,
                                         envs: seq<BuildEnv>)
    requires Ranked(services, deps, rank) && Shaped(db, services, deps) && AllClaim(db, deps, envs)
    ensures Shaped(Drains(db, envs), services, deps)
    ensures Potential(services, deps, rank, Drains(db, envs).builds) + |envs| <= Potential(services, deps, rank, db.builds)
    ensures AllSucceed(db, envs) && Within(services, deps, db.dependsOn) ==>
              && Potential(services, deps, rank, Drains(db, envs).builds) + |envs| == Potential(services, deps, rank, db.builds)
              && Within(services, deps, Drains(db, envs).dependsOn)
  {
    if envs != [] {
      var k := |envs| - 1;
      CascadeSpends(db, services, deps, rank, envs[..k]);
      var at := Drains(db, envs[..k]);
      DrainSpends(at, deps, rank, FirstQueued(at.builds).value, envs[k]);
    }
  }

  ghost predicate Quiet(builds: seq<Build>) {
    FirstQueued(builds).None?
  }

  lemma {:induction false} QuietIffSpent(services: seq<Service>, deps: Graph, rank: map<Service, nat>,
                                         builds: seq<Build>)
    requires Ranked(services, deps, rank)
    ensures Quiet(builds) <==> Potential(services, deps, rank, builds) == 0
  {
    if builds != [] {
      QuietIffSpent(services, deps, rank, builds[..|builds| - 1]);
    }
  }

  /**
   One trigger of `s` on a quiet queue causes at most W(s) builds, and exactly W(s) if
   it runs to quiet with every build succeeding.
   */
  lemma OneTriggerCosts(db: Db, deps: Graph, rank: map<Service, nat>, s: Service, envs: seq<BuildEnv>)
    requires Ranked(db.services, deps, rank) && Shaped(db, db.services, deps)
    requires Quiet(db.builds) && s in db.services
    requires AllClaim(Step(db, StartManual(s.id)), deps, envs)
    ensures |envs| <= Weight(db.services, deps, rank, s)
    ensures |envs| == Weight(db.services, deps, rank, s) ==> Quiet(Drains(Step(db, StartManual(s.id)), envs).builds)
    ensures AllSucceed(Step(db, StartManual(s.id)), envs) && Within(db.services, deps, db.dependsOn) ==>
              (Quiet(Drains(Step(db, StartManual(s.id)), envs).builds) <==> |envs| == Weight(db.services, deps, rank, s))
  {
    var row := QueuedRow(s.id, Manual, "");
    var started := Step(db, StartManual(s.id));
    PotentialAppend(db.services, deps, rank, db.builds, s);
    QuietIffSpent(db.services, deps, rank, db.builds);
    AppendQueued(db.services, db.builds, [row]);
    CascadeSpends(started, db.services, deps, rank, envs);
    QuietIffSpent(db.services, deps, rank, Drains(started, envs).builds);
  }

  // ----------------------------------------------------------- cycles never stop

  ghost predicate SomeQueued(builds: seq<Build>, c: set<Service>) {
    exists s :: s in c && HasQueued(builds, s.id)
  }

  lemma SuccessFeedsCycle(db: Db, deps: Graph, c: set<Service>, p: nat, env: BuildEnv, svc: Service, after: Db)
    requires Shaped(db, db.services, deps) && FirstQueued(db.builds) == Some(p)
    requires (forall s | s in c :: s in db.services) && SelfFeeding(deps, c) && SomeQueued(db.builds, c)
    requires Frame(db, p, env, after) && SuccessLeaves(db, p, env, svc, after) && Reliable(Drain(env))
    requires Within(db.services, deps, after.dependsOn)
    ensures SomeQueued(after.builds, c)
  {
    if svc in c {
      assert HasDependentIn(deps, c, svc);
      var u :| u in c && DependsOn(deps, u, svc.tenant, svc.name);
      var dependents := Dependents(db.services, after.dependsOn, svc.tenant, svc.name);
      assert u in dependents;
      QueuedRowsHave(dependents, env.enqueueFails, u.id);
      QueuedAfter(db, p, env, after, u.id);
    } else {
      var s :| s in c && HasQueued(db.builds, s.id);
      assert s.id != db.builds[p].service;
      QueuedAfter(db, p, env, after, s.id);
    }
  }

  /** With a build of a self-feeding set queued and every build succeeding, the queue never empties. */
  lemma {:induction false} CycleNeverQuiet(db: Db, services: seq<Service>, deps: Graph, c: set<Service>,
                                           envs: seq<BuildEnv>)
    requires Shaped(db, services, deps) && Within(services, deps, db.dependsOn)
    requires (forall s | s in c :: s in services) && SelfFeeding(deps, c) && SomeQueued(db.builds, c)
    requires AllClaim(db, deps, envs) && AllSucceed(db, envs)
    ensures Shaped(Drains(db, envs), services, deps) && Within(services, deps, Drains(db, envs).dependsOn)
    ensures SomeQueued(Drains(db, envs).builds, c) && !Quiet(Drains(db, envs).builds)
  {
    if envs != [] {
      var k := |envs| - 1;
      CycleNeverQuiet(db, services, deps, c, envs[..k]);
      CycleDrain(Drains(db, envs[..k]), services, deps, c, envs[k]);
    }
  }

  lemma CycleDrain(db: Db, services: seq<Service>, deps: Graph, c: set<Service>, env: BuildEnv)
    requires Shaped(db, services, deps) && Within(services, deps, db.dependsOn)
    requires (forall s | s in c :: s in services) && SelfFeeding(deps, c) && SomeQueued(db.builds, c)
    requires Claims(db, deps, env) && Succeeds(db, env)
    ensures Shaped(DrainOnce(db, env), services, deps) && Within(services, deps, DrainOnce(db, env).dependsOn)
    ensures SomeQueued(DrainOnce(db, env).builds, c) && !Quiet(DrainOnce(db, env).builds)
  {
    var p := FirstQueued(db.builds).value;
    var after := DrainOnce(db, env);
    DrainFrame(db, p, env);
    DrainSuccess(db, p, env);
    SnapshotStaysWithin(db, deps, p, env, after);
    Settled(services, db.builds, p, after.builds[p]);
    AppendQueued(services, db.builds[p := after.builds[p]], after.builds[|db.builds|..]);
    var svc :| SuccessLeaves(db, p, env, svc, after);
    SuccessFeedsCycle(db, deps, c, p, env, svc, after);
  }
}
