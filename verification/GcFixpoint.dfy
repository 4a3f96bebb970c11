/**
 What repeated collections keep and reclaim. A pass only sees the manifests that are
 orphans when it lists them, so an unreachable list frees its children one pass later.
 */
module GcFixpoint {
  import opened Wrappers
  import opened Registry

  /** A chain of at most `n` references from a tagged manifest leads to `d`. */
  ghost predicate ReachedWithin(t: Tables, n: nat, d: Digest) {
    d in t.manifests
    && (Tagged(t, d) || (n > 0 && exists p :: Lists(t, p, d) && ReachedWithin(t, n - 1, p)))
  }

  /** Some tag leads to `d` through manifest lists. */
  ghost predicate Reachable(t: Tables, d: Digest) {
    exists n: nat :: ReachedWithin(t, n, d)
  }

  /** `n` manifests stand above `d` in a chain of references. */
  ghost predicate Chain(t: Tables, n: nat, d: Digest) {
    d in t.manifests && (n == 0 || exists p :: Lists(t, p, d) && Chain(t, n - 1, p))
  }

  /** One pass over the manifests; `kept` are orphans whose delete failed. */
  function Pass(t: Tables, kept: set<Digest>): Tables {
    DeleteManifests(t, OrphanManifests(t) - kept)
  }

  /** A pass deletes exactly the manifests that no tag and no list names and whose delete does not fail. */
  lemma PassMeans(t: Tables, kept: set<Digest>, d: Digest)
    requires d in t.manifests
    ensures d !in Pass(t, kept).manifests
            <==> && d !in kept
                 && (forall k | k in t.tags :: t.tags[k] != d)
                 && forall p | p in t.manifests :: d !in t.manifests[p].refs
    ensures Pass(t, kept) == t.(manifests := Pass(t, kept).manifests)
    ensures d in Pass(t, kept).manifests ==> Pass(t, kept).manifests[d] == t.manifests[d]
  {
    if p :| p in t.manifests && d in t.manifests[p].refs {
      assert Lists(t, p, d);
    }
  }

  function Passes(t: Tables, n: nat): Tables
    decreases n
  {
    if n == 0 then t else Passes(Pass(t, {}), n - 1)
  }

  // ------------------------------------------------------------------ safety

  lemma ReachableByParent(t: Tables, p: Digest, d: Digest)
    requires d in t.manifests && Lists(t, p, d) && Reachable(t, p)
    ensures Reachable(t, d)
  {
    var n: nat :| ReachedWithin(t, n, p);
    assert ReachedWithin(t, n + 1, d);
  }

  lemma {:induction false} ReachedSurvives(t: Tables, kept: set<Digest>, n: nat, d: Digest)
    requires ReachedWithin(t, n, d)
    ensures ReachedWithin(Pass(t, kept), n, d)
  {
    if Tagged(t, d) {
      assert Tagged(Pass(t, kept), d);
    } else {
      var p :| Lists(t, p, d) && ReachedWithin(t, n - 1, p);
      ReachedSurvives(t, kept, n - 1, p);
      assert Referenced(t, d) && d in Pass(t, kept).manifests;
      assert Lists(Pass(t, kept), p, d);
    }
  }

  /** No pass, whichever of its deletes fail, removes a manifest a tag leads to. */
  lemma PassKeepsReachable(t: Tables, kept: set<Digest>, d: Digest)
    requires Reachable(t, d)
    ensures d in Pass(t, kept).manifests && Reachable(Pass(t, kept), d)
  {
    var n: nat :| ReachedWithin(t, n, d);
    ReachedSurvives(t, kept, n, d);
  }

  // ----------------------------------------------------------- exact survivors

  lemma ReachableBefore(t: Tables, n: nat, d: Digest)
    requires ReachedWithin(Pass(t, {}), n, d)
    ensures ReachedWithin(t, n, d)
  {
    if Tagged(Pass(t, {}), d) {
      assert Tagged(t, d);
    } else {
      var p :| Lists(Pass(t, {}), p, d) && ReachedWithin(Pass(t, {}), n - 1, p);
      ReachableBefore(t, n - 1, p);
      assert Lists(t, p, d);
    }
  }

  lemma SameReachable(t: Tables, d: Digest)
    ensures Reachable(Pass(t, {}), d) <==> Reachable(t, d)
  {
    if Reachable(t, d) {
      PassKeepsReachable(t, {}, d);
    } else if n: nat :| ReachedWithin(Pass(t, {}), n, d) {
      ReachableBefore(t, n, d);
    }
  }

  lemma UnreachableParent(t: Tables, p: Digest, d: Digest)
    requires d in t.manifests && Lists(t, p, d) && !Reachable(t, d)
    ensures !Reachable(t, p)
  {
    if Reachable(t, p) {
      ReachableByParent(t, p, d);
    }
  }

  lemma UnreachableKeptHasParent(t: Tables, d: Digest) returns (p: Digest)
    requires d in Pass(t, {}).manifests && !Reachable(t, d)
    ensures Lists(t, p, d) && !Reachable(t, p)
  {
    assert Tagged(t, d) ==> ReachedWithin(t, 0, d);
    assert d !in OrphanManifests(t);
    p :| Lists(t, p, d);
    UnreachableParent(t, p, d);
  }

  lemma ChainLink(t: Tables, n: nat, p: Digest, d: Digest)
    requires d in t.manifests && Lists(t, p, d) && Chain(t, n, p)
    ensures Chain(t, n + 1, d)
  {
  }

  lemma ParentAfterPass(t: Tables, n: nat, d: Digest) returns (p: Digest)
    requires n > 0 && Chain(Pass(t, {}), n, d)
    ensures d in t.manifests && Lists(t, p, d) && Chain(Pass(t, {}), n - 1, p)
  {
    p :| Lists(Pass(t, {}), p, d) && Chain(Pass(t, {}), n - 1, p);
  }

  /** What stands above an unreachable manifest after a pass stood one higher before it. */
  lemma {:induction false} ChainWasLonger(t: Tables, n: nat, d: Digest)
    requires Chain(Pass(t, {}), n, d) && !Reachable(t, d)
    ensures Chain(t, n + 1, d)
  {
    if n == 0 {
      var p := UnreachableKeptHasParent(t, d);
      ChainLink(t, 0, p, d);
    } else {
      var p := ParentAfterPass(t, n, d);
      UnreachableParent(t, p, d);
      ChainWasLonger(t, n - 1, p);
      ChainLink(t, n, p, d);
    }
  }

  lemma {:induction false} ChainShortens(t: Tables, n: nat, d: Digest)
    requires Chain(t, n + 1, d)
    ensures Chain(Pass(t, {}), n, d)
  {
    var p :| Lists(t, p, d) && Chain(t, n, p);
    assert Referenced(t, d);
    if n > 0 {
      ChainShortens(t, n - 1, p);
      assert Lists(Pass(t, {}), p, d);
    }
  }

  /** After `n` passes a manifest is left exactly when a tag leads to it or `n` manifests stood above it. */
  lemma {:induction false} Survivors(t: Tables, n: nat, d: Digest)
    ensures d in Passes(t, n).manifests <==> Reachable(t, d) || Chain(t, n, d)
    decreases n
  {
    if n == 0 {
      if Reachable(t, d) {
        var k: nat :| ReachedWithin(t, k, d);
      }
    } else {
      Survivors(Pass(t, {}), n - 1, d);
      SameReachable(t, d);
      if !Reachable(t, d) {
        if Chain(t, n, d) {
          ChainShortens(t, n - 1, d);
        }
        if Chain(Pass(t, {}), n - 1, d) {
          ChainWasLonger(t, n - 1, d);
        }
      }
    }
  }

  // --------------------------------------------------------------- convergence

  /** References go down in rank: no manifest reaches itself (a digest cannot contain itself). */
  ghost predicate Acyclic(t: Tables, rank: map<Digest, nat>) {
    && (forall d | d in t.manifests :: d in rank)
    && forall p, d | Lists(t, p, d) && d in t.manifests :: rank[d] < rank[p]
  }

  /** No unreachable manifest has more than `longest` manifests above it. */
  ghost predicate LongestUnreachable(t: Tables, longest: nat) {
    forall d | d in t.manifests && !Reachable(t, d) :: !Chain(t, longest + 1, d)
  }

  /** Within (longest unreachable chain + 1) passes exactly the reachable manifests are left. */
  lemma ConvergesWithinLongest(t: Tables, longest: nat, d: Digest)
    requires LongestUnreachable(t, longest)
    ensures d in Passes(t, longest + 1).manifests <==> Reachable(t, d)
  {
    Survivors(t, longest + 1, d);
    assert Chain(t, longest + 1, d) ==> d in t.manifests;
  }

  /** And no sooner, while some unreachable manifest has `n` above it. */
  lemma NoSooner(t: Tables, n: nat, d: Digest)
    requires d in t.manifests && !Reachable(t, d) && Chain(t, n, d)
    ensures d in Passes(t, n).manifests
  {
    Survivors(t, n, d);
  }

  lemma {:induction false} ChainClimbs(t: Tables, rank: map<Digest, nat>, top: nat, n: nat, d: Digest)
    requires Acyclic(t, rank) && Chain(t, n, d) && forall m | m in t.manifests :: rank[m] <= top
    ensures rank[d] + n <= top
  {
    if n > 0 {
      var p :| Lists(t, p, d) && Chain(t, n - 1, p);
      ChainClimbs(t, rank, top, n - 1, p);
    }
  }

  lemma {:induction false} TopRank(rank: map<Digest, nat>, ds: set<Digest>) returns (top: nat)
    requires ds <= rank.Keys
    ensures forall d | d in ds :: rank[d] <= top
  {
    if ds == {} {
      top := 0;
    } else {
      var d :| d in ds;
      top := TopRank(rank, ds - {d});
      top := if rank[d] > top then rank[d] else top;
    }
  }

  /** On an acyclic graph the passes converge. */
  lemma AcyclicConverges(t: Tables, rank: map<Digest, nat>) returns (n: nat)
    requires Acyclic(t, rank)
    ensures forall d :: d in Passes(t, n).manifests <==> Reachable(t, d)
  {
    var top := TopRank(rank, t.manifests.Keys);
    forall d | d in t.manifests ensures !Chain(t, top + 1, d) {
      if Chain(t, top + 1, d) {
        ChainClimbs(t, rank, top, top + 1, d);
      }
    }
    n := top + 1;
    forall d ensures d in Passes(t, n).manifests <==> Reachable(t, d) {
      ConvergesWithinLongest(t, top, d);
    }
  }

  lemma {:induction false} UnreachableHasOrphan(t: Tables, rank: map<Digest, nat>, top: nat, d: Digest)
    requires Acyclic(t, rank) && (forall m | m in t.manifests :: rank[m] <= top)
    requires d in t.manifests && !Reachable(t, d)
    ensures OrphanManifests(t) != {}
    decreases top - rank[d]
  {
    assert Tagged(t, d) ==> ReachedWithin(t, 0, d);
    if Referenced(t, d) {
      var p :| Lists(t, p, d);
      if Reachable(t, p) {
        ReachableByParent(t, p, d);
      }
      UnreachableHasOrphan(t, rank, top, p);
    } else {
      assert d in OrphanManifests(t);
    }
  }

  /** A pass that reclaims nothing means everything left is reachable, and the other way round. */
  lemma IdlePassIffClean(t: Tables, rank: map<Digest, nat>)
    requires Acyclic(t, rank)
    ensures OrphanManifests(t) == {} <==> forall d | d in t.manifests :: Reachable(t, d)
  {
    var top := TopRank(rank, t.manifests.Keys);
    forall d | d in t.manifests ensures OrphanManifests(t) == {} ==> Reachable(t, d) {
      if !Reachable(t, d) {
        UnreachableHasOrphan(t, rank, top, d);
      }
    }
    forall d | d in OrphanManifests(t) ensures !Reachable(t, d) {
      OrphansAreUnreachable(t, d);
    }
  }

  lemma OrphansAreUnreachable(t: Tables, d: Digest)
    requires d in OrphanManifests(t)
    ensures !Reachable(t, d)
  {
    forall n: nat ensures !ReachedWithin(t, n, d) {
      assert forall p :: !Lists(t, p, d);
    }
  }

  ghost predicate HasParentIn(t: Tables, c: set<Digest>, d: Digest) {
    exists p :: p in c && Lists(t, p, d)
  }

  /** Garbage that refers to itself is never collected: acyclicity is needed. */
  lemma {:induction false} CyclesAreNeverCollected(t: Tables, c: set<Digest>, n: nat, d: Digest)
    requires d in c && c <= t.manifests.Keys
    requires forall m {:trigger HasParentIn(t, c, m)} | m in c :: HasParentIn(t, c, m)
    ensures Chain(t, n, d) && d in Passes(t, n).manifests
  {
    if n > 0 {
      assert HasParentIn(t, c, d);
      var p :| p in c && Lists(t, p, d);
      CyclesAreNeverCollected(t, c, n - 1, p);
    }
    Survivors(t, n, d);
  }
}
