/**
 The worker process over its two tables: each method is the statement-by-statement
 form of a query or loop body, proved to act on the tables as `BuildQueue` says.
 */
module BuildWorker {
  import opened Wrappers
  import opened BuildQueue
  import opened CascadeFreshness

  class Worker {
    const services: seq<Service>
    var dependsOn: map<string, seq<string>>
    var builds: seq<Build>

    constructor (services: seq<Service>)
      ensures Tables() == Db(services, map[], [])
    {
      this.services := services;
      dependsOn := map[];
      builds := [];
    }

    ghost function Tables(): Db
      reads this
    {
      Db(services, dependsOn, builds)
    }

    /** The oldest queued row becomes running in the statement that picks it. */
    method ClaimNextBuild() returns (claimed: Option<nat>)
      modifies this
      ensures claimed == FirstQueued(old(builds))
      ensures dependsOn == old(dependsOn)
      ensures builds == if claimed.Some? then old(SetStatus(Tables(), claimed.value, Running).builds) else old(builds)
    {
      var i := 0;
      while i < |builds| && builds[i].status != Queued
        invariant i <= |builds|
        invariant forall j | 0 <= j < i :: builds[j].status != Queued
      {
        i := i + 1;
      }
      if i == |builds| {
        claimed := None;
      } else {
        claimed := Some(i);
        builds := builds[i := builds[i].(status := Running)];
      }
    }

    method SafelyFailBuild(i: nat, env: BuildEnv)
      requires i < |builds|
      modifies this
      ensures Tables() == Fail(old(Tables()), i, env)
    {
      if env.failureWritten {
        builds := builds[i := builds[i].(status := Failed)];
      }
    }

    method FinishBuild(i: nat, status: Status, env: BuildEnv) returns (written: bool)
      requires i < |builds|
      modifies this
      ensures written == env.finishWritten
      ensures Tables() == if written then SetStatus(old(Tables()), i, status) else old(Tables())
    {
      written := env.finishWritten;
      if written {
        builds := builds[i := builds[i].(status := status)];
      }
    }

    /** One pass over `dependsOn`; stops at the first name without a successful build. */
    method ResolveDeps(tenant: string, names: seq<string>) returns (resolved: Option<seq<ResolvedDep>>)
      ensures resolved == Resolve(services, builds, tenant, names)
    {
      var found: seq<ResolvedDep> := [];
      for k := 0 to |names|
        invariant Resolve(services, builds, tenant, names[..k]) == Some(found)
      {
        assert names[..k + 1][..k] == names[..k];
        var dep := LatestSuccess(services, builds, tenant, names[k]);
        if dep.None? {
          assert Resolve(services, builds, tenant, names).None?;
          return None;
        }
        found := found + [ResolvedDep(names[k], dep.value)];
      }
      assert names[..|names|] == names;
      return Some(found);
    }

    /** One insert for each dependent; a failed insert is logged and skipped. */
    method TriggerDependentBuilds(svc: Service, env: BuildEnv)
      modifies this
      ensures dependsOn == old(dependsOn)
      ensures builds == old(builds)
                        + (if env.dependentsListed
                           then QueuedRows(Dependents(services, dependsOn, svc.tenant, svc.name), env.enqueueFails)
                           else [])
    {
      if !env.dependentsListed {
        return;
      }
      var dependents := Dependents(services, dependsOn, svc.tenant, svc.name);
      for k := 0 to |dependents|
        invariant dependsOn == old(dependsOn)
        invariant builds == old(builds) + QueuedRows(dependents[..k], env.enqueueFails)
      {
        QueuedRowsNext(dependents, k, env.enqueueFails);
        if dependents[k].id !in env.enqueueFails {
          builds := builds + [QueuedRow(dependents[k].id, Manual, "")];
        }
      }
      assert dependents[..|dependents|] == dependents;
    }

    /** From the snapshot of `depends_on` to the terminal status. */
    method BuildWith(i: nat, svc: Service, names: seq<string>, env: BuildEnv)
      requires i < |builds|
      modifies this
      ensures Tables() == BuildUsable(old(Tables()), i, svc, names, env)
    {
      var resolved := ResolveDeps(svc.tenant, names);
      var status := Failed;
      if resolved.Some? {
        builds := builds[i := builds[i].(resolved := resolved.value)];
        if env.substituted && env.staged {
          status := Success;
        }
      }
      var written := FinishBuild(i, status, env);
      if !written {
        SafelyFailBuild(i, env);
      } else if status == Success {
        TriggerDependentBuilds(svc, env);
      }
    }

    method RunClaimed(i: nat, env: BuildEnv)
      requires i < |builds|
      modifies this
      ensures Tables() == RunBuild(old(Tables()), i, env)
    {
      var found := FindService(services, builds[i].service);
      if found.None? || (builds[i].gitSha == "" && env.head.None?) {
        SafelyFailBuild(i, env);
        return;
      }
      if builds[i].gitSha == "" {
        builds := builds[i := builds[i].(gitSha := env.head.value)];
      }
      if !env.cloned {
        SafelyFailBuild(i, env);
        return;
      }
      match env.yaml
      case Usable(names) =>
        if env.metaWritten {
          dependsOn := dependsOn[found.value.id := names];
        }
        BuildWith(i, found.value, names, env);
      case _ =>
        var written := FinishBuild(i, if env.yaml.Missing? then NoPipeline else Failed, env);
        if !written {
          SafelyFailBuild(i, env);
        }
    }

    /** One tick of the drain timer; the `drainBusy` flag keeps ticks from overlapping. */
    method RunDrainOnce(env: BuildEnv)
      modifies this
      ensures Tables() == DrainOnce(old(Tables()), env)
      ensures old(Inv(Tables())) && Reliable(Drain(env)) ==> Inv(Tables())
    {
      ghost var before := Tables();
      var claimed := ClaimNextBuild();
      if claimed.Some? {
        RunClaimed(claimed.value, env);
      }
      if Inv(before) && Reliable(Drain(env)) {
        DrainKeepsInv(before, env);
      }
    }

    /** One pass over every service; queues a build where the remote head is new to the poller. */
    method RunPollOnce(heads: map<string, string>)
      modifies this
      ensures Tables() == Step(old(Tables()), PollOnce(heads))
    {
      for k := 0 to |services|
        invariant dependsOn == old(dependsOn)
        invariant builds == PollServices(services[..k], old(builds), heads)
      {
        assert services[..k + 1][..k] == services[..k];
        var id := services[k].id;
        if id in heads && LatestPollSha(builds, id) != Some(heads[id]) {
          builds := builds + [QueuedRow(id, Poll, heads[id])];
        }
      }
      assert services[..|services|] == services;
    }
  }
}
