/** Repeated collections without failures: what is left in the end, manifests and blobs. */
module GcConvergence {
  import opened Wrappers
  import opened Registry
  import opened GcFixpoint
  import opened RegistryGc

  /** One collection after the other, at the given times. */
  function Collections(t: Tables, times: seq<int>): Tables
    decreases |times|
  {
    if times == [] then t else Collections(CollectAll(t, times[0], NO_FAULTS), times[1..])
  }

  lemma CollectKeepsCommitted(t: Tables, now: int)
    requires OwnOids(t) && Committed(t)
    ensures OwnOids(CollectAll(t, now, NO_FAULTS)) && Committed(CollectAll(t, now, NO_FAULTS))
  {
    var after := CollectAll(t, now, NO_FAULTS);
    assert forall u | u in after.uploads :: u in t.uploads && after.uploads[u] == t.uploads[u];
    forall d | d in after.blobs
      ensures d in t.blobs && after.blobs[d] == t.blobs[d] && after.blobs[d].oid in after.objects
    {
      CleanBlobs(t, now, d);
    }
  }

  /** The passes look at tags and manifests only. */
  lemma {:induction false} PassesOfSame(t: Tables, u: Tables, n: nat)
    requires t.tags == u.tags && t.manifests == u.manifests
    ensures Passes(t, n).manifests == Passes(u, n).manifests
    decreases n
  {
    if n > 0 {
      OrphansOfSame(t, u);
      PassesOfSame(Pass(t, {}), Pass(u, {}), n - 1);
    }
  }

  lemma {:induction false} CollectionsArePasses(t: Tables, times: seq<int>)
    ensures Collections(t, times).manifests == Passes(t, |times|).manifests
    decreases |times|
  {
    if times != [] {
      var after := CollectAll(t, times[0], NO_FAULTS);
      CleanManifests(t, times[0]);
      CollectionsArePasses(after, times[1..]);
      PassesOfSame(after, Pass(t, {}), |times| - 1);
    }
  }

  lemma {:induction false} PassesShrink(t: Tables, n: nat, p: Digest)
    requires p in Passes(t, n).manifests
    ensures p in t.manifests && Passes(t, n).manifests[p] == t.manifests[p]
    decreases n
  {
    if n > 0 {
      PassesShrink(Pass(t, {}), n - 1, p);
    }
  }

  lemma UsedBefore(t: Tables, times: seq<int>, d: Digest)
    requires Used(Collections(t, times), d)
    ensures Used(t, d)
  {
    CollectionsArePasses(t, times);
    var p :| p in Collections(t, times).manifests && (Collections(t, times).manifests[p].config == Some(d)
                                                                      || d in Collections(t, times).manifests[p].layers);
    PassesShrink(t, |times|, p);
  }

  lemma {:induction false} CollectionsBlobs(t: Tables, times: seq<int>, d: Digest)
    requires OwnOids(t) && Committed(t) && times != []
    ensures d in Collections(t, times).blobs <==> d in t.blobs && Used(Collections(t, times), d)
    decreases |times|
  {
    var after := CollectAll(t, times[0], NO_FAULTS);
    CleanBlobs(t, times[0], d);
    if |times| > 1 {
      CollectKeepsCommitted(t, times[0]);
      CollectionsBlobs(after, times[1..], d);
      if Used(Collections(t, times), d) {
        UsedBefore(after, times[1..], d);
      }
    } else {
      assert times[1..] == [];
    }
  }

  /** Some manifest that a tag leads to uses the blob. */
  ghost predicate UsedByReachable(t: Tables, d: Digest) {
    exists p :: Reachable(t, p) && p in t.manifests && (t.manifests[p].config == Some(d) || d in t.manifests[p].layers)
  }

  lemma StillUsed(t: Tables, times: seq<int>, longest: nat, d: Digest)
    requires LongestUnreachable(t, longest) && |times| == longest + 1 && UsedByReachable(t, d)
    ensures Used(Collections(t, times), d)
  {
    var after := Collections(t, times);
    var p :| Reachable(t, p) && p in t.manifests && (t.manifests[p].config == Some(d) || d in t.manifests[p].layers);
    CollectionsArePasses(t, times);
    ConvergesWithinLongest(t, longest, p);
    PassesShrink(t, longest + 1, p);
    assert after.manifests[p] == t.manifests[p];
  }

  /**
   One collection more than the longest unreachable chain leaves exactly the manifests a tag
   leads to, and exactly the blobs those use.
   */
  lemma CollectionsConverge(t: Tables, times: seq<int>, longest: nat, d: Digest)
    requires OwnOids(t) && Committed(t) && LongestUnreachable(t, longest) && |times| == longest + 1
    ensures d in Collections(t, times).manifests <==> Reachable(t, d)
    ensures d in Collections(t, times).blobs <==> d in t.blobs && UsedByReachable(t, d)
  {
    var after := Collections(t, times);
    CollectionsArePasses(t, times);
    ConvergesWithinLongest(t, longest, d);
    CollectionsBlobs(t, times, d);
    forall p | p in after.manifests
      ensures Reachable(t, p) && p in t.manifests && after.manifests[p] == t.manifests[p]
    {
      ConvergesWithinLongest(t, longest, p);
      PassesShrink(t, longest + 1, p);
    }
    if UsedByReachable(t, d) {
      StillUsed(t, times, longest, d);
    }
  }
}
