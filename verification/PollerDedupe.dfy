/** The poller queues each remote head once, whatever is drained or started by hand in between. */
module PollerDedupe {
  import opened Wrappers
  import opened BuildQueue
  import opened CascadeFreshness

  ghost predicate CaughtUp(db: Db, heads: map<string, string>) {
    && UniqueIds(db.services)
    && (forall b | b in db.builds && b.trigger == Poll :: b.gitSha != "")
    && forall s | s in db.services && s.id in heads :: LatestPollSha(db.builds, s.id) == Some(heads[s.id])
  }

  lemma LatestPollShaAppend(builds: seq<Build>, row: Build, id: string)
    ensures LatestPollSha(builds + [row], id)
            == if row.service == id && row.trigger == Poll && row.gitSha != "" then Some(row.gitSha)
               else LatestPollSha(builds, id)
  {
    assert (builds + [row])[..|builds|] == builds;
  }

  lemma {:induction false} ManualRowsDoNotCount(builds: seq<Build>, more: seq<Build>, id: string)
    requires forall b | b in more :: b.trigger == Manual
    ensures LatestPollSha(builds + more, id) == LatestPollSha(builds, id)
  {
    if more == [] {
      assert builds + more == builds;
    } else {
      var k := |more| - 1;
      assert builds + more == builds + more[..k] + [more[k]];
      assert more[k] in more;
      ManualRowsDoNotCount(builds, more[..k], id);
      LatestPollShaAppend(builds + more[..k], more[k], id);
    }
  }

  lemma {:induction false} SettlingDoesNotCount(builds: seq<Build>, p: nat, row: Build, id: string)
    requires p < |builds| && SameOrigin(builds[p], row) && (row.trigger == Poll ==> builds[p].gitSha != "")
    ensures LatestPollSha(builds[p := row], id) == LatestPollSha(builds, id)
  {
    var k := |builds| - 1;
    if p == k {
      assert builds[p := row][..k] == builds[..k];
    } else {
      assert builds[p := row][..k] == builds[..k][p := row];
      SettlingDoesNotCount(builds[..k], p, row, id);
    }
  }

  /** Polling one service more catches it up, and leaves those behind it caught up. */
  lemma PollOneMore(before: seq<Build>, id: string, head: string, other: string)
    requires head != ""
    ensures var now := LatestPollSha(before, id);
            var after := if now == Some(head) then before else before + [QueuedRow(id, Poll, head)];
            LatestPollSha(after, other) == if other == id then Some(head) else LatestPollSha(before, other)
  {
    LatestPollShaAppend(before, QueuedRow(id, Poll, head), other);
  }

  lemma {:induction false} PollCatchesUp(services: seq<Service>, builds: seq<Build>, heads: map<string, string>)
    requires UniqueIds(services) && forall id | id in heads :: heads[id] != ""
    requires forall b | b in builds && b.trigger == Poll :: b.gitSha != ""
    ensures var after := PollServices(services, builds, heads);
            && (forall b | b in after && b.trigger == Poll :: b.gitSha != "")
            && forall s | s in services && s.id in heads :: LatestPollSha(after, s.id) == Some(heads[s.id])
  {
    if services != [] {
      var k := |services| - 1;
      PollCatchesUp(services[..k], builds, heads);
      var before := PollServices(services[..k], builds, heads);
      var id := services[k].id;
      forall s | s in services && s.id in heads
        ensures LatestPollSha(PollServices(services, builds, heads), s.id) == Some(heads[s.id])
      {
        assert s == services[k] || s in services[..k];
        if id in heads {
          PollOneMore(before, id, heads[id], s.id);
        }
      }
    }
  }

  /** How many rows the list has for the service. */
  function RowsFor(builds: seq<Build>, id: string): nat {
    if builds == [] then 0
    else RowsFor(builds[..|builds| - 1], id) + if builds[|builds| - 1].service == id then 1 else 0
  }

  predicate HeadIsNew(builds: seq<Build>, id: string, heads: map<string, string>) {
    id in heads && LatestPollSha(builds, id) != Some(heads[id])
  }

  /** The poll of other services does not touch what is known of this one's head. */
  lemma {:induction false} PolledSoFar(services: seq<Service>, builds: seq<Build>, heads: map<string, string>,
                                       id: string)
    requires forall s | s in services :: s.id != id
    ensures LatestPollSha(PollServices(services, builds, heads), id) == LatestPollSha(builds, id)
  {
    if services != [] {
      var k := |services| - 1;
      PolledSoFar(services[..k], builds, heads, id);
      var before, other := PollServices(services[..k], builds, heads), services[k].id;
      if other in heads {
        LatestPollShaAppend(before, QueuedRow(other, Poll, heads[other]), id);
      }
    }
  }

  predicate Watches(services: seq<Service>, id: string) {
    exists s | s in services :: s.id == id
  }

  lemma WatchesLast(services: seq<Service>, id: string)
    requires services != []
    ensures Watches(services, id) <==> Watches(services[..|services| - 1], id) || services[|services| - 1].id == id
  {
    if s :| s in services && s.id == id {
      assert s in services[..|services| - 1] || s == services[|services| - 1];
    }
    assert services[|services| - 1] in services;
  }

  /** A row a poll may append: queued by the poller with a head that is new. */
  predicate PolledRow(builds: seq<Build>, heads: map<string, string>, b: Build) {
    && HeadIsNew(builds, b.service, heads)
    && b.trigger == Poll && b.gitSha == heads[b.service] && b.status == Queued && b.resolved == []
  }

  lemma OneMoreRow(builds: seq<Build>, row: Build, id: string)
    ensures RowsFor(builds + [row], id) == RowsFor(builds, id) + if row.service == id then 1 else 0
  {
    assert (builds + [row])[..|builds|] == builds;
  }

  /** A poll keeps the rows there are, and each row it appends is queued with a new head. */
  lemma {:induction false} PollAppendsNewHeads(services: seq<Service>, builds: seq<Build>, heads: map<string, string>)
    requires forall i, j | 0 <= i < j < |services| :: services[i].id != services[j].id
    ensures builds <= PollServices(services, builds, heads)
    ensures forall j | |builds| <= j < |PollServices(services, builds, heads)| ::
              PolledRow(builds, heads, PollServices(services, builds, heads)[j])
  {
    if services != [] {
      var k := |services| - 1;
      PollAppendsNewHeads(services[..k], builds, heads);
      PolledSoFar(services[..k], builds, heads, services[k].id);
    }
  }

  /** Exactly one row for each service whose head differs from the newest the poller queued, and none for the others. */
  lemma {:induction false} OneRowPerNewHead(services: seq<Service>, builds: seq<Build>, heads: map<string,
                                            string>, id: string)
    requires forall i, j | 0 <= i < j < |services| :: services[i].id != services[j].id
    ensures RowsFor(PollServices(services, builds, heads), id)
            == RowsFor(builds, id) + if Watches(services, id) && HeadIsNew(builds, id, heads) then 1 else 0
  {
    if services != [] {
      var k := |services| - 1;
      var front, s := services[..k], services[k];
      OneRowPerNewHead(front, builds, heads, id);
      PolledSoFar(front, builds, heads, s.id);
      WatchesLast(services, id);
      if s.id in heads {
        OneMoreRow(PollServices(front, builds, heads), QueuedRow(s.id, Poll, heads[s.id]), id);
      }
    }
  }

  lemma {:induction false} CaughtUpPollIsNoOp(services: seq<Service>, builds: seq<Build>, heads: map<string, string>)
    requires forall s | s in services && s.id in heads :: LatestPollSha(builds, s.id) == Some(heads[s.id])
    ensures PollServices(services, builds, heads) == builds
  {
    if services != [] {
      CaughtUpPollIsNoOp(services[..|services| - 1], builds, heads);
    }
  }

  lemma DrainKeepsPolls(db: Db, p: nat, env: BuildEnv, after: Db, id: string)
    requires p < |db.builds| && Frame(db, p, env, after)
    requires forall b | b in db.builds && b.trigger == Poll :: b.gitSha != ""
    ensures LatestPollSha(after.builds, id) == LatestPollSha(db.builds, id)
    ensures forall b | b in after.builds && b.trigger == Poll :: b.gitSha != ""
  {
    var row, more := after.builds[p], after.builds[|db.builds|..];
    assert db.builds[p] in db.builds;
    SettlingDoesNotCount(db.builds, p, row, id);
    ManualRowsDoNotCount(db.builds[p := row], more, id);
    assert forall b | b in db.builds[p := row] :: b == row || b in db.builds;
  }

  lemma StepKeepsCaughtUp(db: Db, e: Event, heads: map<string, string>)
    requires CaughtUp(db, heads) && !e.PollOnce?
    ensures CaughtUp(Step(db, e), heads)
  {
    if e.StartManual? {
      forall s | s in db.services
        ensures LatestPollSha(Step(db, e).builds, s.id) == LatestPollSha(db.builds, s.id)
      {
        LatestPollShaAppend(db.builds, QueuedRow(e.service, Manual, ""), s.id);
      }
    } else if FirstQueued(db.builds).Some? {
      var p := FirstQueued(db.builds).value;
      var after := DrainOnce(db, e.env);
      DrainFrame(db, p, e.env);
      DrainKeepsPolls(db, p, e.env, after, "");
      forall s | s in db.services
        ensures LatestPollSha(after.builds, s.id) == LatestPollSha(db.builds, s.id)
      {
        DrainKeepsPolls(db, p, e.env, after, s.id);
      }
    }
  }

  /** After a poll, and any drains and manual starts, a poll that sees the same heads queues nothing. */
  lemma {:induction false} SameHeadsQueueNothing(db: Db, heads: map<string, string>, between: seq<Event>)
    requires UniqueIds(db.services) && (forall id | id in heads :: heads[id] != "")
    requires forall b | b in db.builds && b.trigger == Poll :: b.gitSha != ""
    requires forall e | e in between :: !e.PollOnce?
    ensures var later := Run(Step(db, PollOnce(heads)), between);
            CaughtUp(later, heads) && Step(later, PollOnce(heads)) == later
  {
    if between == [] {
      PollCatchesUp(db.services, db.builds, heads);
    } else {
      var k := |between| - 1;
      SameHeadsQueueNothing(db, heads, between[..k]);
      StepKeepsCaughtUp(Run(Step(db, PollOnce(heads)), between[..k]), between[k], heads);
    }
    var later := Run(Step(db, PollOnce(heads)), between);
    CaughtUpPollIsNoOp(later.services, later.builds, heads);
  }
}
