/**
 The tables of the OCI registry: tags point at manifests shared by every repository,
 manifest lists point at other manifests, manifests point at blobs, and blobs and upload
 sessions own large objects. What one repository can read, and what may delete.
 */
module Registry {
  import opened Wrappers

  type Digest = string

  datatype Manifest = Manifest(repo: string, config: Option<Digest>, layers: seq<Digest>, refs: seq<Digest>)

  datatype Blob = Blob(size: nat, oid: nat)

  datatype Upload = Upload(oid: nat, expiresAt: int)

  /** `tags` is keyed by (repo, tag); `objects` are the oids of the live large objects. */
  datatype Tables = Tables(
    tags: map<(string, string), Digest>, manifests: map<Digest, Manifest>,
    blobs: map<Digest, Blob>, uploads: map<string, Upload>, objects: set<nat>)

  // ----------------------------------------------------------------- queries

  predicate Tagged(t: Tables, d: Digest) {
    exists k | k in t.tags :: t.tags[k] == d
  }

  predicate TaggedIn(t: Tables, repo: string, d: Digest) {
    exists k | k in t.tags :: k.0 == repo && t.tags[k] == d
  }

  /** The manifest list `p` has `d` as a child. */
  predicate Lists(t: Tables, p: Digest, d: Digest) {
    p in t.manifests && d in t.manifests[p].refs
  }

  predicate Referenced(t: Tables, d: Digest) {
    exists p | p in t.manifests :: Lists(t, p, d)
  }

  /** isManifestReachableInRepo: tagged in the repo, or a child of a list tagged in it. */
  predicate ReachableIn(t: Tables, repo: string, d: Digest) {
    TaggedIn(t, repo, d) || exists p | p in t.manifests :: Lists(t, p, d) && TaggedIn(t, repo, p)
  }

  datatype Reference = ByTag(tag: string) | ByDigest(digest: Digest)

  /** getRegistryManifestForRepo. */
  function ManifestForRepo(t: Tables, repo: string, ref: Reference): Option<(Digest, Manifest)> {
    match ref
    case ByTag(tag) =>
      if (repo, tag) in t.tags && t.tags[(repo, tag)] in t.manifests
      then Some((t.tags[(repo, tag)], t.manifests[t.tags[(repo, tag)]]))
      else None
    case ByDigest(d) =>
      if d in t.manifests && ReachableIn(t, repo, d) then Some((d, t.manifests[d])) else None
  }

  /** listOrphanRegistryManifests. */
  function OrphanManifests(t: Tables): set<Digest> {
    set d | d in t.manifests && !Tagged(t, d) && !Referenced(t, d)
  }

  predicate Uses(m: Manifest, d: Digest) {
    m.config == Some(d) || d in m.layers
  }

  /** listOrphanRegistryBlobs. */
  function OrphanBlobs(t: Tables): set<Digest> {
    set d | d in t.blobs && !exists p | p in t.manifests :: Uses(t.manifests[p], d)
  }

  /** The foreign key: a tag's manifest exists. */
  ghost predicate TagsResolve(t: Tables) {
    forall k | k in t.tags :: t.tags[k] in t.manifests
  }

  /**
   What a repository reads, on the rows: by tag the manifest its tag names, and by digest a
   manifest that a tag of the repository names or that is listed by one so named.
   */
  lemma ReadsMean(t: Tables, repo: string, tag: string, d: Digest)
    ensures ManifestForRepo(t, repo, ByTag(tag)).Some? <==> (repo, tag) in t.tags && t.tags[(repo, tag)] in t.manifests
    ensures ManifestForRepo(t, repo, ByTag(tag)).Some? ==>
              ManifestForRepo(t, repo, ByTag(tag)) == Some((t.tags[(repo, tag)], t.manifests[t.tags[(repo, tag)]]))
    ensures ManifestForRepo(t, repo, ByDigest(d)).Some?
            <==> && d in t.manifests
                 && exists k | k in t.tags ::
                      && k.0 == repo
                      && (t.tags[k] == d || (t.tags[k] in t.manifests && d in t.manifests[t.tags[k]].refs))
    ensures ManifestForRepo(t, repo, ByDigest(d)).Some? ==> ManifestForRepo(t, repo, ByDigest(d)) == Some((d, t.manifests[d]))
  {
    if p :| Lists(t, p, d) && TaggedIn(t, repo, p) {
      var k :| k in t.tags && k.0 == repo && t.tags[k] == p;
      assert d in t.manifests[t.tags[k]].refs;
    }
    if k :| k in t.tags && k.0 == repo && t.tags[k] in t.manifests && d in t.manifests[t.tags[k]].refs {
      assert Lists(t, t.tags[k], d) && TaggedIn(t, repo, t.tags[k]);
    }
  }

  // ----------------------------------------------------------------- deletes

  function DeleteTagRow(t: Tables, repo: string, tag: string): Tables {
    t.(tags := t.tags - {(repo, tag)})
  }

  function DeleteManifests(t: Tables, ds: set<Digest>): Tables {
    t.(manifests := t.manifests - ds)
  }

  function DeleteIfUnreferenced(t: Tables, d: Digest): Tables {
    if d in OrphanManifests(t) then DeleteManifests(t, {d}) else t
  }

  /** It deletes the manifest exactly when no tag and no list names it, and nothing else. */
  lemma UnreferencedGoes(t: Tables, d: Digest)
    requires d in t.manifests
    ensures var after := DeleteIfUnreferenced(t, d);
            && (d !in after.manifests
                <==> (forall k | k in t.tags :: t.tags[k] != d) && forall p | p in t.manifests :: d !in t.manifests[p].refs)
            && (forall m | m in t.manifests && m != d :: m in after.manifests)
            && (forall m | m in after.manifests :: m in t.manifests && after.manifests[m] == t.manifests[m])
            && after == t.(manifests := after.manifests)
  {
    if p :| p in t.manifests && d in t.manifests[p].refs {
      assert Lists(t, p, d);
    }
  }

  /** deleteTag of the panel: drops the manifest when no tag is left, without looking for list parents. */
  function DeleteTag(t: Tables, repo: string, tag: string): Tables {
    if (repo, tag) !in t.tags then t
    else
      var after := DeleteTagRow(t, repo, tag);
      var d := t.tags[(repo, tag)];
      if Tagged(after, d) then after else DeleteManifests(after, {d})
  }

  // -------------------------------------------------- other repositories' reads

  ghost predicate OthersRead(t: Tables, after: Tables, repo: string) {
    forall other, ref | other != repo :: ManifestForRepo(after, other, ref) == ManifestForRepo(t, other, ref)
  }

  /** Deleting orphans changes no repository's reads, one tag only its own repository's. */
  lemma DeletingOrphansIsInvisible(t: Tables, ds: set<Digest>, repo: string, ref: Reference)
    requires ds <= OrphanManifests(t)
    ensures ManifestForRepo(DeleteManifests(t, ds), repo, ref) == ManifestForRepo(t, repo, ref)
  {
    var after := DeleteManifests(t, ds);
    forall d ensures TaggedIn(after, repo, d) == TaggedIn(t, repo, d) {
    }
    if ref.ByDigest? {
      var d := ref.digest;
      if p :| Lists(t, p, d) && TaggedIn(t, repo, p) {
        assert Tagged(t, p) && Lists(after, p, d);
      }
      assert d in ds ==> !Tagged(t, d) && !Referenced(t, d);
    }
  }

  lemma DeletingTagsElsewhereIsInvisible(t: Tables, repo: string, tag: string, other: string, ref: Reference)
    requires other != repo
    ensures ManifestForRepo(DeleteTagRow(t, repo, tag), other, ref) == ManifestForRepo(t, other, ref)
  {
    var after := DeleteTagRow(t, repo, tag);
    forall d ensures TaggedIn(after, other, d) == TaggedIn(t, other, d) {
      if k :| k in t.tags && k.0 == other && t.tags[k] == d {
        assert k in after.tags;
      }
    }
  }

  /** What repository owners and the collector may do; `kept` are orphans whose delete failed. */
  datatype Event = RemoveTag(tag: string) | RemoveUnreferenced(digest: Digest) | Collect(kept: set<Digest>)

  function Step(t: Tables, repo: string, e: Event): Tables {
    match e
    case RemoveTag(tag) => DeleteTagRow(t, repo, tag)
    case RemoveUnreferenced(d) => DeleteIfUnreferenced(t, d)
    case Collect(kept) => DeleteManifests(t, OrphanManifests(t) - kept)
  }

  function Run(t: Tables, repo: string, events: seq<Event>): Tables {
    if events == [] then t else Step(Run(t, repo, events[..|events| - 1]), repo, events[|events| - 1])
  }

  /** No sequence of tag deletions in one repository and collections changes what another one reads. */
  lemma {:induction false} RunsAreInvisibleElsewhere(t: Tables, repo: string, events: seq<Event>)
    ensures OthersRead(t, Run(t, repo, events), repo)
  {
    if events != [] {
      RunsAreInvisibleElsewhere(t, repo, events[..|events| - 1]);
      var mid := Run(t, repo, events[..|events| - 1]);
      var e := events[|events| - 1];
      forall other, ref | other != repo
        ensures ManifestForRepo(Step(mid, repo, e), other, ref) == ManifestForRepo(mid, other, ref)
      {
        match e
        case RemoveTag(tag) => DeletingTagsElsewhereIsInvisible(mid, repo, tag, other, ref);
        case RemoveUnreferenced(d) =>
          if d in OrphanManifests(mid) {
            DeletingOrphansIsInvisible(mid, {d}, other, ref);
          }
        case Collect(kept) => DeletingOrphansIsInvisible(mid, OrphanManifests(mid) - kept, other, ref);
      }
    }
  }

  lemma {:induction false} RunsKeepTagsResolving(t: Tables, repo: string, events: seq<Event>)
    requires TagsResolve(t)
    ensures TagsResolve(Run(t, repo, events))
  {
    if events != [] {
      RunsKeepTagsResolving(t, repo, events[..|events| - 1]);
      var mid := Run(t, repo, events[..|events| - 1]);
      forall k | k in mid.tags ensures Tagged(mid, mid.tags[k]) {
      }
    }
  }

  /** Another repository serves a list that has `d` as a child. */
  ghost predicate ChildElsewhere(t: Tables, repo: string, d: Digest) {
    exists other, p :: other != repo && Lists(t, p, d) && TaggedIn(t, other, p)
  }

  /**
   The panel's deleteTag is invisible to other repositories exactly when the manifest stays
   tagged somewhere or no other repository serves it as the child of a list.
   */
  lemma DeleteTagInvisibleIff(t: Tables, repo: string, tag: string)
    requires TagsResolve(t) && (repo, tag) in t.tags
    ensures OthersRead(t, DeleteTag(t, repo, tag), repo)
            <==> Tagged(DeleteTagRow(t, repo, tag), t.tags[(repo, tag)])
                 || !ChildElsewhere(t, repo, t.tags[(repo, tag)])
  {
    var d := t.tags[(repo, tag)];
    var untagged := DeleteTagRow(t, repo, tag);
    var after := DeleteTag(t, repo, tag);
    forall other, ref | other != repo ensures ManifestForRepo(untagged, other, ref) == ManifestForRepo(t, other, ref) {
      DeletingTagsElsewhereIsInvisible(t, repo, tag, other, ref);
    }
    if !Tagged(untagged, d) {
      forall other, p | other != repo && TaggedIn(t, other, p) ensures p != d {
        var k :| k in t.tags && k.0 == other && t.tags[k] == p;
        assert k in untagged.tags;
      }
      if ChildElsewhere(t, repo, d) {
        var other, p :| other != repo && Lists(t, p, d) && TaggedIn(t, other, p);
        assert ManifestForRepo(t, other, ByDigest(d)).Some? && ManifestForRepo(after, other, ByDigest(d)).None?;
      } else {
        forall other, ref | other != repo ensures ManifestForRepo(after, other, ref) == ManifestForRepo(untagged, other, ref) {
          ManifestGoneElsewhere(t, repo, untagged, d, other, ref);
        }
      }
    }
  }

  /**
   In its own repository the deletion takes the one tag, if it is there, and no other; the manifest
   it named goes exactly when no tag of any repository is left on it, and every other one stays.
   */
  lemma DeleteTagResult(t: Tables, repo: string, tag: string)
    requires TagsResolve(t)
    ensures var after := DeleteTag(t, repo, tag);
            && after.tags == (map k | k in t.tags && k != (repo, tag) :: t.tags[k])
            && (forall m | m in t.manifests ::
                  m !in after.manifests
                  <==> && (repo, tag) in t.tags && t.tags[(repo, tag)] == m
                       && forall k | k in t.tags && k != (repo, tag) :: t.tags[k] != m)
            && (forall m | m in after.manifests :: m in t.manifests && after.manifests[m] == t.manifests[m])
            && after.blobs == t.blobs && after.uploads == t.uploads && after.objects == t.objects
  {
    var untagged := DeleteTagRow(t, repo, tag);
    if (repo, tag) in t.tags {
      if k :| k in t.tags && k != (repo, tag) && t.tags[k] == t.tags[(repo, tag)] {
        assert k in untagged.tags;
      }
    }
  }

  /** A list in one repository whose child another repository tags: dropping that tag breaks the list. */
  lemma DeleteTagBreaksList()
    ensures var child, parent := Manifest("a", None, [], []), Manifest("b", None, [], ["child"]);
            var t := Tables(map[("a", "v1") := "child", ("b", "v1") := "list"],
                            map["child" := child, "list" := parent], map[], map[], {});
            && TagsResolve(t)
            && ManifestForRepo(t, "b", ByDigest("child")) == Some(("child", child))
            && ManifestForRepo(DeleteTag(t, "a", "v1"), "b", ByTag("v1")) == Some(("list", parent))
            && ManifestForRepo(DeleteTag(t, "a", "v1"), "b", ByDigest("child")) == None
  {
    var child, parent := Manifest("a", None, [], []), Manifest("b", None, [], ["child"]);
    var t := Tables(map[("a", "v1") := "child", ("b", "v1") := "list"],
                    map["child" := child, "list" := parent], map[], map[], {});
    assert Lists(t, "list", "child") && t.tags[("b", "v1")] == "list";
    assert TaggedIn(t, "b", "list");
    assert forall k | k in DeleteTagRow(t, "a", "v1").tags :: k == ("b", "v1");
  }

  lemma ManifestGoneElsewhere(t: Tables, repo: string, untagged: Tables, d: Digest, other: string, ref: Reference)
    requires untagged.manifests == t.manifests && !Tagged(untagged, d) && other != repo
    requires forall p | TaggedIn(untagged, other, p) :: TaggedIn(t, other, p)
    requires !ChildElsewhere(t, repo, d)
    ensures ManifestForRepo(DeleteManifests(untagged, {d}), other, ref) == ManifestForRepo(untagged, other, ref)
  {
    var after := DeleteManifests(untagged, {d});
    forall p ensures TaggedIn(after, other, p) == TaggedIn(untagged, other, p) {
    }
    if ref.ByDigest? {
      if p :| Lists(untagged, p, ref.digest) && TaggedIn(untagged, other, p) {
        assert Tagged(untagged, p) && Lists(after, p, ref.digest);
      }
    } else if (other, ref.tag) in untagged.tags {
      assert Tagged(untagged, untagged.tags[(other, ref.tag)]);
    }
  }

  // ------------------------------------------------------------- the panel's delete

  class Panel {
    var tables: Tables

    constructor (tables: Tables)
      ensures this.tables == tables
    {
      this.tables := tables;
    }

    /** deleteRegistryManifestIfUnreferenced, in one statement. */
    method DeleteManifestIfUnreferenced(d: Digest) returns (deleted: bool)
      modifies this
      ensures tables == DeleteIfUnreferenced(old(tables), d)
      ensures deleted <==> d in OrphanManifests(old(tables))
    {
      deleted := d in tables.manifests && !Tagged(tables, d) && !Referenced(tables, d);
      if deleted {
        tables := tables.(manifests := tables.manifests - {d});
      }
    }

    /** deleteTag: look the tag up, delete it, check for other tags, delete the manifest. */
    method DeletePanelTag(repo: string, tag: string) returns (digest: Option<Digest>)
      modifies this
      ensures tables == DeleteTag(old(tables), repo, tag)
      ensures digest == if (repo, tag) in old(tables).tags then Some(old(tables).tags[(repo, tag)]) else None
    {
      if (repo, tag) !in tables.tags {
        return None;
      }
      var target := tables.tags[(repo, tag)];
      tables := tables.(tags := tables.tags - {(repo, tag)});
      if !Tagged(tables, target) {
        tables := tables.(manifests := tables.manifests - {target});
      }
      digest := Some(target);
    }
  }
}
