/**
 One garbage collection over uploads, manifests and blobs, with a failure possible at
 every unlink and every row delete, including one that took effect but was reported as
 an error. The row goes after its large object, so that nothing leaks.
 */
module RegistryGc {
  import opened Wrappers
  import opened Registry

  /** What happens to one item: which of its two statements fails, and whether it took effect anyway. */
  datatype Fault = Clean | UnlinkFails | UnlinkLost | DeleteFails | DeleteLost

  datatype Faults = Faults(uploads: map<string, Fault>, manifests: map<Digest, Fault>, blobs: map<Digest, Fault>)

  function FaultOf(faults: map<string, Fault>, key: string): Fault {
    if key in faults then faults[key] else Clean
  }

  predicate Unlinks(f: Fault) {
    f != UnlinkFails
  }

  predicate Deletes(f: Fault) {
    f == Clean || f == DeleteLost
  }

  // ------------------------------------------------------------- the three sweeps

  function Expired(t: Tables, now: int): set<string> {
    set u | u in t.uploads && t.uploads[u].expiresAt < now
  }

  /** The uploads in `done` after the first loop has visited them; `lo_unlink` fails on a missing object. */
  function SweepUploads(t: Tables, done: set<string>, faults: map<string, Fault>): Tables {
    t.(uploads := t.uploads - (set u | u in done && u in t.uploads && t.uploads[u].oid in t.objects
                                       && Deletes(FaultOf(faults, u))),
       objects := t.objects - (set u | u in done && u in t.uploads && Unlinks(FaultOf(faults, u)) :: t.uploads[u].oid))
  }

  function SweepManifests(t: Tables, done: set<Digest>, faults: map<Digest, Fault>): Tables {
    DeleteManifests(t, set d | d in done && Deletes(FaultOf(faults, d)))
  }

  /** The blob rows of `done` that the third loop deletes. */
  function Removed(t: Tables, done: set<Digest>, faults: map<Digest, Fault>): set<Digest> {
    set d | d in done && d in t.blobs && t.blobs[d].oid in t.objects && Deletes(FaultOf(faults, d))
  }

  /** Those of them whose deletion is counted in the statistics. */
  function Counted(t: Tables, done: set<Digest>, faults: map<Digest, Fault>): set<Digest> {
    set d | d in Removed(t, done, faults) && FaultOf(faults, d) == Clean
  }

  function SweepBlobs(t: Tables, done: set<Digest>, faults: map<Digest, Fault>): Tables {
    t.(blobs := t.blobs - Removed(t, done, faults),
       objects := t.objects - (set d | d in done && d in t.blobs && Unlinks(FaultOf(faults, d)) :: t.blobs[d].oid))
  }

  /** The tables when the third loop starts. */
  function BeforeBlobs(t: Tables, now: int, faults: Faults): Tables {
    var t1 := SweepUploads(t, Expired(t, now), faults.uploads);
    SweepManifests(t1, OrphanManifests(t1), faults.manifests)
  }

  function CollectAll(t: Tables, now: int, faults: Faults): Tables {
    var t2 := BeforeBlobs(t, now, faults);
    SweepBlobs(t2, OrphanBlobs(t2), faults.blobs)
  }

  // ------------------------------------------------------------------ results

  /** Every live large object is named by an upload or a blob row. */
  ghost predicate NoLeak(t: Tables) {
    forall o | o in t.objects ::
      (exists u :: u in t.uploads && t.uploads[u].oid == o) || (exists d :: d in t.blobs && t.blobs[d].oid == o)
  }

  /** Large objects are allocated one to a row. */
  ghost predicate OwnOids(t: Tables) {
    && (forall u, v | u in t.uploads && v in t.uploads && u != v :: t.uploads[u].oid != t.uploads[v].oid)
    && (forall d, e | d in t.blobs && e in t.blobs && d != e :: t.blobs[d].oid != t.blobs[e].oid)
  }

  lemma UploadSweepKeepsNoLeak(t: Tables, done: set<string>, faults: map<string, Fault>)
    requires NoLeak(t)
    ensures NoLeak(SweepUploads(t, done, faults))
  {
    var after := SweepUploads(t, done, faults);
    forall o | o in after.objects
      ensures (exists u :: u in after.uploads && after.uploads[u].oid == o) || (exists d :: d in after.blobs && after.blobs[d].oid == o)
    {
      if u :| u in t.uploads && t.uploads[u].oid == o {
        assert u in done && Unlinks(FaultOf(faults, u)) ==> o !in after.objects;
        assert u in after.uploads;
      }
    }
  }

  lemma BlobSweepKeepsNoLeak(t: Tables, done: set<Digest>, faults: map<Digest, Fault>)
    requires NoLeak(t)
    ensures NoLeak(SweepBlobs(t, done, faults))
  {
    var after := SweepBlobs(t, done, faults);
    forall o | o in after.objects
      ensures (exists u :: u in after.uploads && after.uploads[u].oid == o) || (exists d :: d in after.blobs && after.blobs[d].oid == o)
    {
      if d :| d in t.blobs && t.blobs[d].oid == o {
        assert d in done && Unlinks(FaultOf(faults, d)) ==> o !in after.objects;
        assert d in after.blobs;
      }
    }
  }

  /** No collection leaks a large object, whatever fails in it. */
  lemma CollectKeepsNoLeak(t: Tables, now: int, faults: Faults)
    requires NoLeak(t)
    ensures NoLeak(CollectAll(t, now, faults))
  {
    UploadSweepKeepsNoLeak(t, Expired(t, now), faults.uploads);
    var t2 := BeforeBlobs(t, now, faults);
    assert NoLeak(t2);
    BlobSweepKeepsNoLeak(t2, OrphanBlobs(t2), faults.blobs);
  }

  /** A row without its object: what a delete that fails after its unlink leaves behind. */
  predicate Dangling(t: Tables, d: Digest) {
    d in t.blobs && t.blobs[d].oid !in t.objects
  }

  /** A dangling row outlives every later collection, because its unlink fails each time. */
  lemma DanglingStays(t: Tables, now: int, faults: Faults, d: Digest)
    requires Dangling(t, d)
    ensures Dangling(CollectAll(t, now, faults), d) && CollectAll(t, now, faults).blobs[d] == t.blobs[d]
  {
  }

  /** Neither statement failed for this key: the unlink worked, and so did the delete, reported or not. */
  predicate BothWorked(faults: map<string, Fault>, key: string) {
    key in faults ==> faults[key] in {Clean, DeleteLost}
  }

  /** And no error was reported for it. */
  predicate Reported(faults: map<string, Fault>, key: string) {
    key in faults ==> faults[key] == Clean
  }

  /** Some manifest has the blob as its config or as one of its layers. */
  ghost predicate Used(t: Tables, d: Digest) {
    exists p :: p in t.manifests && (t.manifests[p].config == Some(d) || d in t.manifests[p].layers)
  }

  lemma OrphansOfSame(t: Tables, u: Tables)
    requires t.tags == u.tags && t.manifests == u.manifests
    ensures OrphanManifests(t) == OrphanManifests(u)
  {
    forall d
      ensures Tagged(t, d) == Tagged(u, d) && Referenced(t, d) == Referenced(u, d)
    {
      if p :| Lists(t, p, d) {
        assert Lists(u, p, d);
      }
      if p :| Lists(u, p, d) {
        assert Lists(t, p, d);
      }
    }
  }

  /** A manifest's row is gone after a collection exactly when no tag and no list named it and its delete worked. */
  lemma ManifestGoneIff(t: Tables, now: int, faults: Faults, m: Digest)
    requires m in t.manifests
    ensures var after := CollectAll(t, now, faults);
            && (m !in after.manifests
                <==> && (forall k | k in t.tags :: t.tags[k] != m)
                     && (forall p | p in t.manifests :: m !in t.manifests[p].refs)
                     && BothWorked(faults.manifests, m))
            && (m in after.manifests ==> after.manifests[m] == t.manifests[m])
            && after.tags == t.tags && after.manifests.Keys <= t.manifests.Keys
  {
    var t1 := SweepUploads(t, Expired(t, now), faults.uploads);
    OrphansOfSame(t1, t);
  }

  /** No expired session that is unlinked names the blob's object. */
  predicate SparedBySessions(t: Tables, now: int, faults: Faults, d: Digest)
    requires d in t.blobs
  {
    forall u | u in t.uploads && t.uploads[u].expiresAt < now && t.uploads[u].oid == t.blobs[d].oid ::
      u in faults.uploads && faults.uploads[u] == UnlinkFails
  }

  lemma OrphanIffUnused(t: Tables, now: int, faults: Faults, d: Digest)
    ensures var t2 := BeforeBlobs(t, now, faults);
            && t2.manifests == CollectAll(t, now, faults).manifests && t2.blobs == t.blobs
            && (d in OrphanBlobs(t2) <==> d in t.blobs && !Used(CollectAll(t, now, faults), d))
  {
    var t2 := BeforeBlobs(t, now, faults);
    if p :| p in t2.manifests && Uses(t2.manifests[p], d) {
      assert t2.manifests[p].config == Some(d) || d in t2.manifests[p].layers;
    }
    if p :| p in t2.manifests && (t2.manifests[p].config == Some(d) || d in t2.manifests[p].layers) {
      assert Uses(t2.manifests[p], d);
    }
  }

  /**
   A blob's row is gone after a collection exactly when no manifest left uses the blob, its
   object was live and no expired session took it first, and both statements worked.
   */
  lemma OrphanBlobGoneIff(t: Tables, now: int, faults: Faults, d: Digest)
    requires d in t.blobs
    ensures var after := CollectAll(t, now, faults);
            && (d !in after.blobs
                <==> && !Used(after, d) && t.blobs[d].oid in t.objects && SparedBySessions(t, now, faults, d)
                     && BothWorked(faults.blobs, d))
            && (d in after.blobs ==> after.blobs[d] == t.blobs[d])
            && after.blobs.Keys <= t.blobs.Keys
  {
    OrphanIffUnused(t, now, faults, d);
  }

  /**
   A blob that a manifest left uses keeps its row, and keeps its bytes exactly when no expired
   upload session still names its object: a commit that died between its two statements leaves
   such a session behind.
   */
  lemma ReferencedBlobKeepsBytesIff(t: Tables, now: int, faults: Faults, d: Digest)
    requires OwnOids(t) && d in t.blobs && t.blobs[d].oid in t.objects && Used(CollectAll(t, now, faults), d)
    ensures d in CollectAll(t, now, faults).blobs && CollectAll(t, now, faults).blobs[d] == t.blobs[d]
    ensures t.blobs[d].oid in CollectAll(t, now, faults).objects <==> SparedBySessions(t, now, faults, d)
  {
    OrphanIffUnused(t, now, faults, d);
  }

  /** No other row names the session's object. */
  ghost predicate OnlyNamedBy(t: Tables, u: string)
    requires u in t.uploads
  {
    && (forall v | v in t.uploads && v != u :: t.uploads[v].oid != t.uploads[u].oid)
    && forall d | d in t.blobs :: t.blobs[d].oid != t.uploads[u].oid
  }

  /** A session that has not expired survives a collection with its row and, if no other row names it, its object. */
  lemma RunningSessionKept(t: Tables, now: int, faults: Faults, u: string)
    requires u in t.uploads && t.uploads[u].expiresAt >= now
    ensures var after := CollectAll(t, now, faults);
            && u in after.uploads && after.uploads[u] == t.uploads[u]
            && (OnlyNamedBy(t, u) ==> (t.uploads[u].oid in after.objects <==> t.uploads[u].oid in t.objects))
  {
  }

  /**
   An expired one loses its row exactly when its object was live and both statements worked, and its
   object when the unlink did.
   */
  lemma ExpiredSessionGoneIff(t: Tables, now: int, faults: Faults, u: string)
    requires u in t.uploads && t.uploads[u].expiresAt < now
    ensures var after := CollectAll(t, now, faults);
            && (u !in after.uploads <==> t.uploads[u].oid in t.objects && BothWorked(faults.uploads, u))
            && (u in after.uploads ==> after.uploads[u] == t.uploads[u])
            && (OnlyNamedBy(t, u) ==>
                  (t.uploads[u].oid in after.objects
                   <==> t.uploads[u].oid in t.objects && u in faults.uploads && faults.uploads[u] == UnlinkFails))
  {
    assert u in Expired(t, now);
  }

  const NO_FAULTS := Faults(map[], map[], map[])

  /**
   A committed blob of a tagged manifest, and the session its commit left behind: the session expires and
   takes the bytes.
   */
  lemma SessionTakesBytes()
    ensures var t := Tables(map[("a", "v1") := "image"], map["image" := Manifest("a", None, ["layer"], [])],
                            map["layer" := Blob(10, 1)], map["session" := Upload(1, 0)], {1});
            var after := CollectAll(t, 1, NO_FAULTS);
            && NoLeak(t) && !Dangling(t, "layer")
            && ManifestForRepo(after, "a", ByTag("v1")).Some? && "layer" in after.blobs && Dangling(after, "layer")
  {
    var t := Tables(map[("a", "v1") := "image"], map["image" := Manifest("a", None, ["layer"], [])],
                    map["layer" := Blob(10, 1)], map["session" := Upload(1, 0)], {1});
    assert "session" in Expired(t, 1) && t.uploads["session"].oid == 1;
    var t1 := SweepUploads(t, Expired(t, 1), NO_FAULTS.uploads);
    assert 1 !in t1.objects;
    assert ("a", "v1") in t1.tags && Tagged(t1, "image");
    var t2 := BeforeBlobs(t, 1, NO_FAULTS);
    assert "image" in t2.manifests && Uses(t2.manifests["image"], "layer");
  }

  /** No upload session names a committed blob's object, and every committed blob's object is there. */
  ghost predicate Committed(t: Tables) {
    && (forall u, d | u in t.uploads && d in t.blobs :: t.uploads[u].oid != t.blobs[d].oid)
    && forall d | d in t.blobs :: t.blobs[d].oid in t.objects
  }

  /** Without failures a collection drops exactly the orphan manifests. */
  lemma CleanManifests(t: Tables, now: int)
    ensures CollectAll(t, now, NO_FAULTS).tags == t.tags
    ensures CollectAll(t, now, NO_FAULTS).manifests == t.manifests - OrphanManifests(t)
  {
    var t1 := SweepUploads(t, Expired(t, now), map[]);
    OrphansOfSame(t1, t);
    assert (set m | m in OrphanManifests(t1) && Deletes(FaultOf(map[], m))) == OrphanManifests(t1);
  }

  lemma CommittedBeforeBlobs(t: Tables, now: int)
    requires Committed(t)
    ensures Committed(BeforeBlobs(t, now, NO_FAULTS))
    ensures BeforeBlobs(t, now, NO_FAULTS).blobs == t.blobs
  {
  }

  /** And it leaves, with their objects, exactly the blobs that a manifest left uses. */
  lemma CleanBlobs(t: Tables, now: int, d: Digest)
    requires OwnOids(t) && Committed(t)
    ensures var after := CollectAll(t, now, NO_FAULTS);
            && (d in after.blobs <==> d in t.blobs && Used(after, d))
            && (d in after.blobs ==> after.blobs[d] == t.blobs[d] && !Dangling(after, d))
  {
    CommittedBeforeBlobs(t, now);
    var t2 := BeforeBlobs(t, now, NO_FAULTS);
    assert CollectAll(t, now, NO_FAULTS).manifests == t2.manifests;
    assert d in t2.blobs ==> (d in OrphanBlobs(t2) <==> !Used(t2, d));
  }

  // -------------------------------------------------------------- conservation

  ghost function Bytes(blobs: map<Digest, Blob>): nat {
    if blobs == map[] then 0
    else
      var d :| d in blobs;
      blobs[d].size + Bytes(blobs - {d})
  }

  lemma {:induction false} BytesWithout(blobs: map<Digest, Blob>, d: Digest)
    requires d in blobs
    ensures Bytes(blobs) == blobs[d].size + Bytes(blobs - {d})
    decreases |blobs|
  {
    var e :| e in blobs && Bytes(blobs) == blobs[e].size + Bytes(blobs - {e});
    if e != d {
      BytesWithout(blobs - {e}, d);
      BytesWithout(blobs - {d}, e);
      assert blobs - {e} - {d} == blobs - {d} - {e};
    }
  }

  function Only(blobs: map<Digest, Blob>, ds: set<Digest>): map<Digest, Blob> {
    map d | d in blobs && d in ds :: blobs[d]
  }

  lemma {:induction false} BytesSplit(blobs: map<Digest, Blob>, ds: set<Digest>)
    ensures Bytes(blobs) == Bytes(blobs - ds) + Bytes(Only(blobs, ds))
    decreases |ds|
  {
    if ds == {} {
      assert blobs - ds == blobs && Only(blobs, ds) == map[];
    } else {
      var d :| d in ds;
      var rest := ds - {d};
      BytesSplit(blobs, rest);
      if d in blobs {
        BytesWithout(blobs - rest, d);
        BytesWithout(Only(blobs, ds), d);
        assert blobs - rest - {d} == blobs - ds;
        assert Only(blobs, ds) - {d} == Only(blobs, rest);
      } else {
        assert blobs - rest == blobs - ds && Only(blobs, ds) == Only(blobs, rest);
      }
    }
  }

  lemma OnlyWithin(blobs: map<Digest, Blob>, outer: set<Digest>, inner: set<Digest>)
    requires inner <= outer
    ensures Only(Only(blobs, outer), inner) == Only(blobs, inner)
    ensures Only(blobs, outer) - inner == Only(blobs, outer - inner)
  {
  }

  /** The blobs whose rows a collection deletes, without and with a reported error. */
  function CountedBlobs(was: map<Digest, Blob>, now: map<Digest, Blob>, faults: map<Digest, Fault>): set<Digest> {
    set d | d in was && d !in now && Reported(faults, d)
  }

  function UncountedBlobs(was: map<Digest, Blob>, now: map<Digest, Blob>, faults: map<Digest, Fault>): set<Digest> {
    set d | d in was && d !in now && !Reported(faults, d)
  }

  /**
   Blob bytes before are the bytes after, plus `bytesReclaimed`, plus those of rows whose
   delete took effect but was reported as an error.
   */
  lemma CollectConservesBytes(t: Tables, now: int, faults: Faults)
    ensures var after := CollectAll(t, now, faults).blobs;
            && Bytes(t.blobs) == Bytes(after) + Bytes(Only(t.blobs, CountedBlobs(t.blobs, after, faults.blobs)))
                                 + Bytes(Only(t.blobs, UncountedBlobs(t.blobs, after, faults.blobs)))
            && forall d | d in UncountedBlobs(t.blobs, after, faults.blobs) :: d in faults.blobs && faults.blobs[d] == DeleteLost
  {
    var t2 := BeforeBlobs(t, now, faults);
    var after := CollectAll(t, now, faults).blobs;
    var removed := Removed(t2, OrphanBlobs(t2), faults.blobs);
    var counted := CountedBlobs(t.blobs, after, faults.blobs);
    BytesSplit(t.blobs, removed);
    BytesSplit(Only(t.blobs, removed), counted);
    assert counted <= removed && removed - counted == UncountedBlobs(t.blobs, after, faults.blobs);
    OnlyWithin(t.blobs, removed, counted);
  }

  // ------------------------------------------------ one more item of each sweep

  function VisitUpload(t: Tables, u: string, f: Fault): Tables
    requires u in t.uploads
  {
    t.(uploads := if t.uploads[u].oid in t.objects && Deletes(f) then t.uploads - {u} else t.uploads,
       objects := if Unlinks(f) then t.objects - {t.uploads[u].oid} else t.objects)
  }

  function VisitBlob(t: Tables, d: Digest, f: Fault): Tables
    requires d in t.blobs
  {
    t.(blobs := if t.blobs[d].oid in t.objects && Deletes(f) then t.blobs - {d} else t.blobs,
       objects := if Unlinks(f) then t.objects - {t.blobs[d].oid} else t.objects)
  }

  lemma SweptUploads(t: Tables, done: set<string>, u: string, faults: map<string, Fault>)
    requires u in t.uploads && u !in done
    ensures SweepUploads(t, done + {u}, faults).uploads
            == if t.uploads[u].oid in t.objects && Deletes(FaultOf(faults, u))
               then SweepUploads(t, done, faults).uploads - {u}
               else SweepUploads(t, done, faults).uploads
  {
  }

  lemma UnlinkedByUploads(t: Tables, done: set<string>, u: string, faults: map<string, Fault>)
    requires OwnOids(t) && u in t.uploads && u !in done
    ensures t.uploads[u].oid in SweepUploads(t, done, faults).objects <==> t.uploads[u].oid in t.objects
    ensures SweepUploads(t, done + {u}, faults).objects
            == if Unlinks(FaultOf(faults, u))
               then SweepUploads(t, done, faults).objects - {t.uploads[u].oid}
               else SweepUploads(t, done, faults).objects
  {
  }

  lemma SweepUploadsNext(t: Tables, done: set<string>, u: string, faults: map<string, Fault>)
    requires OwnOids(t) && u in t.uploads && u !in done
    ensures u in SweepUploads(t, done, faults).uploads
    ensures SweepUploads(t, done, faults).uploads[u] == t.uploads[u]
    ensures SweepUploads(t, done + {u}, faults) == VisitUpload(SweepUploads(t, done, faults), u, FaultOf(faults, u))
  {
    SweptUploads(t, done, u, faults);
    UnlinkedByUploads(t, done, u, faults);
  }

  /** The sessions in `done` that the first loop counts as reclaimed. */
  function Reclaimable(t: Tables, done: set<string>, faults: map<string, Fault>): set<string> {
    set u | u in done && u in t.uploads && t.uploads[u].oid in t.objects && Reported(faults, u)
  }

  lemma NotYetUnlinked(t: Tables, done: set<string>, u: string, faults: map<string, Fault>)
    requires OwnOids(t) && u in t.uploads && u !in done
    ensures t.uploads[u].oid in SweepUploads(t, done, faults).objects <==> t.uploads[u].oid in t.objects
  {
  }

  lemma ReclaimableNext(t: Tables, done: set<string>, u: string, faults: map<string, Fault>)
    requires u in t.uploads && u !in done
    ensures FaultOf(faults, u) == Clean <==> Reported(faults, u)
    ensures |Reclaimable(t, done + {u}, faults)|
            == |Reclaimable(t, done, faults)| + if t.uploads[u].oid in t.objects && Reported(faults, u) then 1 else 0
  {
    assert Reclaimable(t, done + {u}, faults)
           == Reclaimable(t, done, faults) + if t.uploads[u].oid in t.objects && Reported(faults, u) then {u} else {};
  }

  lemma UploadsNext(t: Tables, all: set<string>, left: set<string>, u: string, faults: map<string, Fault>)
    requires OwnOids(t) && left <= all <= t.uploads.Keys && u in left
    ensures |left - {u}| == |left| - 1
    ensures var here := SweepUploads(t, all - left, faults);
            && u in here.uploads
            && SweepUploads(t, all - (left - {u}), faults) == VisitUpload(here, u, FaultOf(faults, u))
            && var counts := here.uploads[u].oid in here.objects && FaultOf(faults, u) == Clean;
               |Reclaimable(t, all - (left - {u}), faults)|
               == |Reclaimable(t, all - left, faults)| + if counts then 1 else 0
  {
    OneFewer(all, left, u);
    SweepUploadsNext(t, all - left, u, faults);
    NotYetUnlinked(t, all - left, u, faults);
    ReclaimableNext(t, all - left, u, faults);
  }

  function ReportedOf(done: set<Digest>, faults: map<Digest, Fault>): set<Digest> {
    set d | d in done && Reported(faults, d)
  }

  lemma ReportedNext(done: set<Digest>, d: Digest, faults: map<Digest, Fault>)
    requires d !in done
    ensures FaultOf(faults, d) == Clean <==> Reported(faults, d)
    ensures |ReportedOf(done + {d}, faults)| == |ReportedOf(done, faults)| + if Reported(faults, d) then 1 else 0
  {
    assert ReportedOf(done + {d}, faults) == ReportedOf(done, faults) + if Reported(faults, d) then {d} else {};
  }

  lemma SweepManifestsNext(t: Tables, done: set<Digest>, d: Digest, faults: map<Digest, Fault>)
    ensures SweepManifests(t, done + {d}, faults)
            == DeleteManifests(SweepManifests(t, done, faults), if Deletes(FaultOf(faults, d)) then {d} else {})
  {
    assert (set e | e in done + {d} && Deletes(FaultOf(faults, e)))
           == (set e | e in done && Deletes(FaultOf(faults, e))) + if Deletes(FaultOf(faults, d)) then {d} else {};
  }

  lemma OneFewer<T>(all: set<T>, left: set<T>, x: T)
    requires left <= all && x in left
    ensures all - (left - {x}) == all - left + {x}
    ensures |left - {x}| == |left| - 1
  {
  }

  lemma RemovedNext(t: Tables, done: set<Digest>, d: Digest, faults: map<Digest, Fault>)
    requires OwnOids(t) && d in t.blobs && d !in done
    ensures Removed(t, done + {d}, faults)
            == Removed(t, done, faults) + if t.blobs[d].oid in t.objects && Deletes(FaultOf(faults, d)) then {d} else {}
  {
  }

  lemma UnlinkedByBlobs(t: Tables, done: set<Digest>, d: Digest, faults: map<Digest, Fault>)
    requires OwnOids(t) && d in t.blobs && d !in done
    ensures t.blobs[d].oid in SweepBlobs(t, done, faults).objects <==> t.blobs[d].oid in t.objects
    ensures SweepBlobs(t, done + {d}, faults).objects
            == if Unlinks(FaultOf(faults, d))
               then SweepBlobs(t, done, faults).objects - {t.blobs[d].oid}
               else SweepBlobs(t, done, faults).objects
  {
  }

  lemma SweepBlobsNext(t: Tables, done: set<Digest>, d: Digest, faults: map<Digest, Fault>)
    requires OwnOids(t) && d in t.blobs && d !in done
    ensures d in SweepBlobs(t, done, faults).blobs
    ensures SweepBlobs(t, done, faults).blobs[d] == t.blobs[d]
    ensures t.blobs[d].oid in SweepBlobs(t, done, faults).objects <==> t.blobs[d].oid in t.objects
    ensures SweepBlobs(t, done + {d}, faults) == VisitBlob(SweepBlobs(t, done, faults), d, FaultOf(faults, d))
  {
    RemovedNext(t, done, d, faults);
    UnlinkedByBlobs(t, done, d, faults);
  }

  /** What `bytesReclaimed` adds up to. */
  ghost function Reclaimed(t: Tables, done: set<Digest>, faults: map<Digest, Fault>): nat {
    Bytes(Only(t.blobs, Counted(t, done, faults)))
  }

  lemma NothingReclaimed(t: Tables, faults: map<Digest, Fault>)
    ensures Reclaimed(t, {}, faults) == 0
  {
    assert Only(t.blobs, Counted(t, {}, faults)) == map[];
  }

  lemma NothingSwept(t: Tables, faults: map<Digest, Fault>)
    ensures SweepBlobs(t, {}, faults) == t
  {
    assert Removed(t, {}, faults) == {};
  }

  lemma CountedNext(t: Tables, done: set<Digest>, d: Digest, faults: map<Digest, Fault>)
    requires d in t.blobs && d !in done
    ensures var counts := t.blobs[d].oid in t.objects && FaultOf(faults, d) == Clean;
            && Reclaimed(t, done + {d}, faults) == Reclaimed(t, done, faults) + (if counts then t.blobs[d].size else 0)
            && |Counted(t, done + {d}, faults)| == |Counted(t, done, faults)| + if counts then 1 else 0
  {
    var counted := Counted(t, done, faults);
    if t.blobs[d].oid in t.objects && FaultOf(faults, d) == Clean {
      assert Counted(t, done + {d}, faults) == counted + {d};
      BytesWithout(Only(t.blobs, counted + {d}), d);
      assert Only(t.blobs, counted + {d}) - {d} == Only(t.blobs, counted);
    } else {
      assert Counted(t, done + {d}, faults) == counted;
    }
  }

  lemma BlobsNext(t: Tables, all: set<Digest>, left: set<Digest>, d: Digest, faults: map<Digest, Fault>)
    requires OwnOids(t) && left <= all <= t.blobs.Keys && d in left
    ensures |left - {d}| == |left| - 1
    ensures var here := SweepBlobs(t, all - left, faults);
            && d in here.blobs
            && SweepBlobs(t, all - (left - {d}), faults) == VisitBlob(here, d, FaultOf(faults, d))
            && var counts := here.blobs[d].oid in here.objects && FaultOf(faults, d) == Clean;
               && Reclaimed(t, all - (left - {d}), faults)
                  == Reclaimed(t, all - left, faults) + (if counts then here.blobs[d].size else 0)
               && |Counted(t, all - (left - {d}), faults)| == |Counted(t, all - left, faults)| + if counts then 1 else 0
  {
    OneFewer(all, left, d);
    SweepBlobsNext(t, all - left, d, faults);
    CountedNext(t, all - left, d, faults);
  }

  /** What each loop counts, in terms of the tables before and after the whole collection. */
  lemma CountersAre(t: Tables, now: int, faults: Faults)
    ensures var t1 := SweepUploads(t, Expired(t, now), faults.uploads);
            var t2 := BeforeBlobs(t, now, faults);
            var after := CollectAll(t, now, faults);
            && Expired(t, now) == (set u | u in t.uploads && t.uploads[u].expiresAt < now)
            && Reclaimable(t, Expired(t, now), faults.uploads)
               == (set u | u in Expired(t, now) && t.uploads[u].oid in t.objects && Reported(faults.uploads, u))
            && OrphanManifests(t1) == (set m | m in t.manifests && (forall k | k in t.tags :: t.tags[k] != m)
                                               && forall p | p in t.manifests :: m !in t.manifests[p].refs)
            && OrphanBlobs(t2) == (set d | d in t.blobs && !Used(after, d))
            && t2.blobs == t.blobs
            && Counted(t2, OrphanBlobs(t2), faults.blobs) == CountedBlobs(t.blobs, after.blobs, faults.blobs)
  {
    forall d {
      OrphanIffUnused(t, now, faults, d);
    }
  }

  // ---------------------------------------------------------------- collector

  datatype GcStats = GcStats(uploads: nat, manifests: nat, blobs: nat, bytes: nat, errors: nat)

  /** The counters of a collection from what it found and what it left. */
  ghost predicate StatsOf(stats: GcStats, was: Tables, now: int, left: Tables, faults: Faults) {
    var counted := CountedBlobs(was.blobs, left.blobs, faults.blobs);
    var expired := set u | u in was.uploads && was.uploads[u].expiresAt < now;
    var orphans := set m | m in was.manifests && (forall k | k in was.tags :: was.tags[k] != m)
                           && forall p | p in was.manifests :: m !in was.manifests[p].refs;
    var unused := set d | d in was.blobs && !Used(left, d);
    && stats.uploads == |set u | u in expired && was.uploads[u].oid in was.objects && Reported(faults.uploads, u)|
    && stats.manifests == |set m | m in orphans && Reported(faults.manifests, m)|
    && stats.blobs == |counted| && stats.bytes == Bytes(Only(was.blobs, counted))
    && stats.uploads + stats.manifests + stats.blobs + stats.errors == |expired| + |orphans| + |unused|
  }

  class Collector {
    var tags: map<(string, string), Digest>
    var manifests: map<Digest, Manifest>
    var blobs: map<Digest, Blob>
    var uploads: map<string, Upload>
    var objects: set<nat>

    constructor (t: Tables)
      ensures State() == t
    {
      tags, manifests, blobs, uploads, objects := t.tags, t.manifests, t.blobs, t.uploads, t.objects;
    }

    function State(): Tables
      reads this
    {
      Tables(tags, manifests, blobs, uploads, objects)
    }

    /** lo_unlink: an error when the object is missing or the statement fails. */
    method Unlink(oid: nat, f: Fault) returns (ok: bool)
      modifies this`objects
      ensures ok <==> oid in old(objects) && f != UnlinkFails && f != UnlinkLost
      ensures objects == if Unlinks(f) then old(objects) - {oid} else old(objects)
    {
      ok := oid in objects && f != UnlinkFails && f != UnlinkLost;
      if Unlinks(f) {
        objects := objects - {oid};
      }
    }

    /** The first loop, over the listed upload sessions. */
    method ReclaimUploads(expired: set<string>, faults: map<string, Fault>) returns (reclaimed: nat, errors: nat)
      requires OwnOids(State()) && expired <= uploads.Keys
      modifies this
      ensures State() == SweepUploads(old(State()), expired, faults)
      ensures reclaimed == |Reclaimable(old(State()), expired, faults)|
      ensures reclaimed + errors == |expired|
    {
      ghost var start := State();
      var left := expired;
      reclaimed, errors := 0, 0;
      assert SweepUploads(start, expired - left, faults) == start;
      while left != {}
        invariant left <= expired
        invariant State() == SweepUploads(start, expired - left, faults)
        invariant reclaimed == |Reclaimable(start, expired - left, faults)|
        invariant reclaimed + errors == |expired| - |left|
        decreases |left|
      {
        var u :| u in left;
        UploadsNext(start, expired, left, u, faults);
        var ok := ReclaimUpload(u, FaultOf(faults, u));
        if ok {
          reclaimed := reclaimed + 1;
        } else {
          errors := errors + 1;
        }
        left := left - {u};
      }
      assert expired - left == expired;
    }

    method ReclaimUpload(u: string, f: Fault) returns (ok: bool)
      requires u in uploads
      modifies this
      ensures State() == VisitUpload(old(State()), u, f)
      ensures ok <==> old(uploads[u].oid in objects) && f == Clean
    {
      ok := Unlink(uploads[u].oid, f);
      if ok {
        if Deletes(f) {
          uploads := uploads - {u};
        }
        ok := f == Clean;
      }
    }

    /** The second loop, over the listed manifests. */
    method ReclaimManifests(orphans: set<Digest>, faults: map<Digest, Fault>) returns (reclaimed: nat, errors: nat)
      modifies this
      ensures State() == SweepManifests(old(State()), orphans, faults)
      ensures reclaimed == |set d | d in orphans && Reported(faults, d)|
      ensures reclaimed + errors == |orphans|
    {
      ghost var start := State();
      var left := orphans;
      reclaimed, errors := 0, 0;
      assert SweepManifests(start, orphans - left, faults) == start;
      while left != {}
        invariant left <= orphans
        invariant State() == SweepManifests(start, orphans - left, faults)
        invariant reclaimed == |ReportedOf(orphans - left, faults)|
        invariant reclaimed + errors == |orphans| - |left|
        decreases |left|
      {
        var d :| d in left;
        SweepManifestsNext(start, orphans - left, d, faults);
        ReportedNext(orphans - left, d, faults);
        var ok := ReclaimManifest(d, FaultOf(faults, d));
        if ok {
          reclaimed := reclaimed + 1;
        } else {
          errors := errors + 1;
        }
        OneFewer(orphans, left, d);
        left := left - {d};
      }
      assert orphans - left == orphans;
    }

    method ReclaimManifest(d: Digest, f: Fault) returns (ok: bool)
      modifies this
      ensures State() == DeleteManifests(old(State()), if Deletes(f) then {d} else {})
      ensures ok <==> f == Clean
    {
      if Deletes(f) {
        manifests := manifests - {d};
      }
      ok := f == Clean;
    }

    method ReclaimBlob(d: Digest, f: Fault) returns (ok: bool, size: nat)
      requires d in blobs
      modifies this
      ensures State() == VisitBlob(old(State()), d, f)
      ensures ok <==> old(blobs[d].oid in objects) && f == Clean
      ensures size == old(blobs[d].size)
    {
      size := blobs[d].size;
      ok := Unlink(blobs[d].oid, f);
      if ok {
        if Deletes(f) {
          blobs := blobs - {d};
        }
        ok := f == Clean;
      }
    }

    /** The third loop, over the listed blobs. */
    method ReclaimBlobs(orphans: set<Digest>, faults: map<Digest, Fault>)
      returns (reclaimed: nat, bytes: nat, errors: nat)
      requires OwnOids(State()) && orphans <= blobs.Keys
      modifies this
      ensures State() == SweepBlobs(old(State()), orphans, faults)
      ensures bytes == Reclaimed(old(State()), orphans, faults)
      ensures reclaimed == |Counted(old(State()), orphans, faults)|
      ensures reclaimed + errors == |orphans|
    {
      ghost var start := State();
      var left := orphans;
      reclaimed, bytes, errors := 0, 0, 0;
      NothingReclaimed(start, faults);
      assert orphans - left == {};
      NothingSwept(start, faults);
      while left != {}
        invariant left <= orphans
        invariant State() == SweepBlobs(start, orphans - left, faults)
        invariant bytes == Reclaimed(start, orphans - left, faults)
        invariant reclaimed == |Counted(start, orphans - left, faults)|
        invariant reclaimed + errors == |orphans| - |left|
        decreases |left|
      {
        var d :| d in left;
        BlobsNext(start, orphans, left, d, faults);
        var ok, size := ReclaimBlob(d, FaultOf(faults, d));
        if ok {
          reclaimed, bytes := reclaimed + 1, bytes + size;
        } else {
          errors := errors + 1;
        }
        left := left - {d};
      }
      assert orphans - left == orphans;
    }

    method RunGarbageCollection(now: int, faults: Faults) returns (stats: GcStats)
      requires OwnOids(State())
      modifies this
      ensures State() == CollectAll(old(State()), now, faults)
      ensures old(NoLeak(State())) ==> NoLeak(State())
      ensures StatsOf(stats, old(State()), now, State(), faults)
      ensures (forall d :: FaultOf(faults.blobs, d) != DeleteLost) ==> Bytes(old(blobs)) == Bytes(blobs) + stats.bytes
    {
      ghost var start := State();
      var u, e1 := ReclaimUploads(Expired(State(), now), faults.uploads);
      var m, e2 := ReclaimManifests(OrphanManifests(State()), faults.manifests);
      ghost var t2 := State();
      var b, bytes, e3 := ReclaimBlobs(OrphanBlobs(State()), faults.blobs);
      stats := GcStats(u, m, b, bytes, e1 + e2 + e3);
      CountersAre(start, now, faults);
      CollectConservesBytes(start, now, faults);
      if forall d :: FaultOf(faults.blobs, d) != DeleteLost {
        assert UncountedBlobs(start.blobs, blobs, faults.blobs) == {};
        assert Only(start.blobs, {}) == map[];
      }
      if NoLeak(start) {
        CollectKeepsNoLeak(start, now, faults);
      }
    }
  }
}
