/** The template variables a build gets from its dependencies' latest successful builds. */
module BuildVars {
  import opened Wrappers
  import opened Template

  datatype DepBuild = DepBuild(gitSha: string, buildId: string, imageRef: string)

  function Lower(c: char): char {
    if 'A' <= c <= 'Z' then (c as int + 32) as char else c
  }

  /** Lower case, and an underscore for whatever is no letter, digit or underscore. */
  function VarKey(service: string): (key: string)
    ensures |key| == |service| && forall i | 0 <= i < |key| :: IsNameChar(key[i])
  {
    seq(|service|, i requires 0 <= i < |service| => if IsNameChar(service[i]) then Lower(service[i]) else '_')
  }

  function ShortSha(sha: string): string {
    if |sha| > 12 then sha[..12] else sha
  }

  function LastColon(s: string): (r: Option<nat>)
    ensures r.Some? ==> r.value < |s| && s[r.value] == ':' && ':' !in s[r.value + 1..]
    ensures r.None? ==> ':' !in s
  {
    if s == "" then None
    else if s[|s| - 1] == ':' then Some(|s| - 1)
    else LastColon(s[..|s| - 1])
  }

  function ImageStem(ref: string): string {
    var colon := LastColon(ref);
    if colon.Some? then ref[..colon.value] else ref
  }

  /** What a dependency's variable is set to; an empty image reference sets none. */
  function Writes(key: string, b: DepBuild, name: string): Option<string> {
    if name == key + "_version" then Some(b.gitSha)
    else if name == key + "_short_version" then Some(ShortSha(b.gitSha))
    else if name == key + "_git_sha" then Some(b.gitSha)
    else if name == key + "_build_id" then Some(b.buildId)
    else if name == key + "_image_ref" && b.imageRef != "" then Some(b.imageRef)
    else if name == key + "_image" && b.imageRef != "" then Some(ImageStem(b.imageRef))
    else None
  }

  function Assign(vars: Vars, key: string, b: DepBuild): Vars {
    var named := vars[key + "_version" := b.gitSha][key + "_short_version" := ShortSha(b.gitSha)]
                     [key + "_git_sha" := b.gitSha][key + "_build_id" := b.buildId];
    if b.imageRef != "" then named[key + "_image_ref" := b.imageRef][key + "_image" := ImageStem(b.imageRef)]
    else named
  }

  function AssignAll(vars: Vars, deps: seq<string>, latest: map<string, DepBuild>): Vars
    requires forall d | d in deps :: d in latest
  {
    if deps == [] then vars
    else Assign(AssignAll(vars, deps[..|deps| - 1], latest), VarKey(deps[|deps| - 1]), latest[deps[|deps| - 1]])
  }

  datatype Resolution = Resolved(vars: Vars, builds: seq<DepBuild>) | NoBuildOf(dep: string)

  /** Resolution stops at the first dependency without a successful build, and otherwise takes them in order. */
  method ResolveDeps(deps: seq<string>, latest: map<string, DepBuild>, system: Vars) returns (r: Resolution)
    ensures r.Resolved? <==> forall d | d in deps :: d in latest
    ensures r.Resolved? ==> r.vars == AssignAll(system, deps, latest)
                            && |r.builds| == |deps| && forall i | 0 <= i < |deps| :: r.builds[i] == latest[deps[i]]
    ensures r.NoBuildOf? ==> exists i | 0 <= i < |deps| ::
                               deps[i] == r.dep && r.dep !in latest && forall j | 0 <= j < i :: deps[j] in latest
  {
    var vars := system;
    var builds := [];
    for i := 0 to |deps|
      invariant forall j | 0 <= j < i :: deps[j] in latest
      invariant vars == AssignAll(system, deps[..i], latest)
      invariant |builds| == i && forall j | 0 <= j < i :: builds[j] == latest[deps[j]]
    {
      var dep := deps[i];
      if dep !in latest {
        return NoBuildOf(dep);
      }
      assert deps[..i + 1][..i] == deps[..i];
      vars := Assign(vars, VarKey(dep), latest[dep]);
      builds := builds + [latest[dep]];
    }
    assert deps[..|deps|] == deps;
    r := Resolved(vars, builds);
  }

  lemma {:induction false} LastColonIs(s: string, k: nat)
    requires k < |s| && s[k] == ':' && ':' !in s[k + 1..]
    ensures LastColon(s) == Some(k)
  {
    var n := |s| - 1;
    if k < n {
      assert s[n] == s[k + 1..][n - k - 1];
      assert s[..n][k + 1..] == s[k + 1..][..n - k - 1];
      LastColonIs(s[..n], k);
    }
  }

  /** The image without its tag, also where the registry has a port. */
  lemma StemOf(stem: string, tag: string)
    requires ':' !in tag
    ensures ImageStem(stem + ":" + tag) == stem
  {
    var ref := stem + ":" + tag;
    assert ref[|stem|] == ':' && ref[|stem| + 1..] == tag && ref[..|stem|] == stem;
    LastColonIs(ref, |stem|);
  }

  /** A service's name in variables, character by character, and the short commit. */
  lemma NamesInVariables(service: string, i: nat, sha: string)
    requires i < |service|
    ensures var c, k := service[i], VarKey(service)[i];
            && |VarKey(service)| == |service|
            && ('a' <= c <= 'z' || '0' <= c <= '9' || c == '_' ==> k == c)
            && ('A' <= c <= 'Z' ==> 'a' <= k <= 'z' && k as int - 'a' as int == c as int - 'A' as int)
            && (!('A' <= c <= 'Z' || 'a' <= c <= 'z' || '0' <= c <= '9') ==> k == '_')
    ensures ShortSha(sha) <= sha && |ShortSha(sha)| == if |sha| < 12 then |sha| else 12
  {
  }

  /**
   What one dependency sets: the full and the short commit, the build, and where the build has
   an image, the image with its tag and without. Nothing else changes.
   */
  lemma DependencySets(vars: Vars, key: string, b: DepBuild, name: string)
    ensures var after := Assign(vars, key, b);
            && key + "_version" in after && after[key + "_version"] == b.gitSha
            && key + "_short_version" in after && after[key + "_short_version"] == ShortSha(b.gitSha)
            && key + "_git_sha" in after && after[key + "_git_sha"] == b.gitSha
            && key + "_build_id" in after && after[key + "_build_id"] == b.buildId
            && (b.imageRef != "" ==>
                  && key + "_image_ref" in after && after[key + "_image_ref"] == b.imageRef
                  && key + "_image" in after && after[key + "_image"] == ImageStem(b.imageRef))
            && (name !in [key + "_version", key + "_short_version", key + "_git_sha", key + "_build_id"]
                && (b.imageRef == "" || name !in [key + "_image_ref", key + "_image"]) ==>
                  (name in after <==> name in vars) && (name in vars ==> after[name] == vars[name]))
  {
    AssignLookup(vars, key, b, key + "_version");
    AssignLookup(vars, key, b, key + "_short_version");
    AssignLookup(vars, key, b, key + "_git_sha");
    AssignLookup(vars, key, b, key + "_build_id");
    AssignLookup(vars, key, b, key + "_image_ref");
    AssignLookup(vars, key, b, key + "_image");
    AssignLookup(vars, key, b, name);
    SuffixEnds(key);
  }

  lemma SuffixEnds(key: string)
    ensures (key + "_version")[|key|..] == "_version" && (key + "_short_version")[|key|..] == "_short_version"
    ensures (key + "_git_sha")[|key|..] == "_git_sha" && (key + "_build_id")[|key|..] == "_build_id"
    ensures (key + "_image_ref")[|key|..] == "_image_ref" && (key + "_image")[|key|..] == "_image"
  {
  }

  // ------------------------------------------------------------- no name written twice

  lemma AssignLookup(vars: Vars, key: string, b: DepBuild, name: string)
    ensures var w := Writes(key, b, name);
            && (w.Some? ==> name in Assign(vars, key, b) && Assign(vars, key, b)[name] == w.value)
            && (w.None? ==> (name in Assign(vars, key, b) <==> name in vars)
                            && (name in vars ==> Assign(vars, key, b)[name] == vars[name]))
  {
    SuffixesApart(key);
  }

  lemma SuffixesApart(key: string)
    ensures key + "_version" != key + "_short_version" && key + "_image_ref" != key + "_image"
    ensures key + "_git_sha" != key + "_build_id"
  {
    assert |key + "_version"| < |key + "_short_version"| && |key + "_image"| < |key + "_image_ref"|;
    assert |key + "_git_sha"| < |key + "_build_id"|;
  }

  predicate Clash(k: string, l: string) {
    k == l || k == l + "_short" || l == k + "_short"
  }

  lemma SharedSuffix(k: string, s: string, l: string, t: string)
    requires k + s == l + t && |s| <= |t|
    ensures t[|t| - |s|..] == s && k == l + t[..|t| - |s|]
  {
    var name := k + s;
    assert name[|k|..] == s && name[..|k|] == k;
    assert name[|l| + (|t| - |s|)..] == t[|t| - |s|..];
    assert name[..|l| + (|t| - |s|)] == l + t[..|t| - |s|];
  }

  predicate IsSuffix(s: string) {
    s == "_version" || s == "_short_version" || s == "_git_sha" || s == "_build_id" || s == "_image_ref" || s == "_image"
  }

  lemma SharedNameClashes(k: string, s: string, l: string, t: string)
    requires IsSuffix(s) && IsSuffix(t) && k + s == l + t
    ensures Clash(k, l)
  {
    var name := k + s;
    assert name[|name| - 1] == s[|s| - 1] && name[|name| - 1] == t[|t| - 1];
    if |s| <= |t| {
      SharedSuffix(k, s, l, t);
      if s != t {
        assert s == "_version" && t == "_short_version";
        assert t[..|t| - |s|] == "_short";
      }
    } else {
      SharedSuffix(l, t, k, s);
      assert t == "_version" && s == "_short_version";
      assert s[..|s| - |t|] == "_short";
    }
  }

  /** The last dependency that sets the variable. */
  function LastWriter(deps: seq<string>, latest: map<string, DepBuild>, name: string): (r: Option<nat>)
    requires forall d | d in deps :: d in latest
    ensures r.Some? ==> r.value < |deps| && Writes(VarKey(deps[r.value]), latest[deps[r.value]], name).Some?
  {
    if deps == [] then None
    else
      var k := |deps| - 1;
      if Writes(VarKey(deps[k]), latest[deps[k]], name).Some? then Some(k) else LastWriter(deps[..k], latest, name)
  }

  lemma {:induction false} NoneWritesLater(deps: seq<string>, latest: map<string, DepBuild>, name: string, i: nat)
    requires (forall d | d in deps :: d in latest) && i < |deps|
    requires Writes(VarKey(deps[i]), latest[deps[i]], name).Some?
    ensures LastWriter(deps, latest, name).Some? && i <= LastWriter(deps, latest, name).value
  {
    if i < |deps| - 1 {
      NoneWritesLater(deps[..|deps| - 1], latest, name, i);
    }
  }

  /** A variable has the value its last writer gives it, and without a writer the one it had. */
  lemma {:induction false} LastWriterWins(vars: Vars, deps: seq<string>, latest: map<string, DepBuild>, name: string)
    requires forall d | d in deps :: d in latest
    ensures var w, after := LastWriter(deps, latest, name), AssignAll(vars, deps, latest);
            && (w.Some? ==> name in after
                            && after[name] == Writes(VarKey(deps[w.value]), latest[deps[w.value]], name).value)
            && (w.None? ==> (name in after <==> name in vars) && (name in vars ==> after[name] == vars[name]))
    decreases |deps|
  {
    if deps != [] {
      var front, d := deps[..|deps| - 1], deps[|deps| - 1];
      LastWriterWins(vars, front, latest, name);
      AssignLookup(AssignAll(vars, front, latest), VarKey(d), latest[d], name);
    }
  }

  /** A dependency's variable keeps its own build's value exactly when the last writer of that name writes the same. */
  lemma VariableKeptIff(vars: Vars, deps: seq<string>, latest: map<string, DepBuild>, i: nat, name: string)
    requires (forall d | d in deps :: d in latest) && i < |deps|
    requires Writes(VarKey(deps[i]), latest[deps[i]], name).Some?
    ensures name in AssignAll(vars, deps, latest)
    ensures AssignAll(vars, deps, latest)[name] == Writes(VarKey(deps[i]), latest[deps[i]], name).value
            <==> forall j | i < j < |deps| && LastWriter(deps, latest, name) == Some(j) ::
                   Writes(VarKey(deps[j]), latest[deps[j]], name) == Writes(VarKey(deps[i]), latest[deps[i]], name)
  {
    LastWriterWins(vars, deps, latest, name);
    NoneWritesLater(deps, latest, name, i);
  }

  /** In particular when the key of no later dependency clashes, since only such ones write the same name. */
  lemma VariablesKept(vars: Vars, deps: seq<string>, latest: map<string, DepBuild>, i: nat, name: string)
    requires (forall d | d in deps :: d in latest) && i < |deps|
    requires forall j | i < j < |deps| :: !Clash(VarKey(deps[j]), VarKey(deps[i]))
    requires Writes(VarKey(deps[i]), latest[deps[i]], name).Some?
    ensures name in AssignAll(vars, deps, latest)
    ensures AssignAll(vars, deps, latest)[name] == Writes(VarKey(deps[i]), latest[deps[i]], name).value
  {
    VariableKeptIff(vars, deps, latest, i, name);
    forall j | i < j < |deps|
      ensures Writes(VarKey(deps[j]), latest[deps[j]], name).None?
    {
      if Writes(VarKey(deps[j]), latest[deps[j]], name).Some? {
        WritersClash(VarKey(deps[j]), latest[deps[j]], VarKey(deps[i]), latest[deps[i]], name);
      }
    }
  }

  lemma SuffixOf(key: string, b: DepBuild, name: string) returns (s: string)
    requires Writes(key, b, name).Some?
    ensures IsSuffix(s) && name == key + s
  {
    s := if name == key + "_version" then "_version"
         else if name == key + "_short_version" then "_short_version"
         else if name == key + "_git_sha" then "_git_sha"
         else if name == key + "_build_id" then "_build_id"
         else if name == key + "_image_ref" then "_image_ref" else "_image";
  }

  lemma WritersClash(k: string, b: DepBuild, l: string, c: DepBuild, name: string)
    requires Writes(k, b, name).Some? && Writes(l, c, name).Some?
    ensures Clash(k, l)
  {
    var s := SuffixOf(k, b, name);
    var t := SuffixOf(l, c, name);
    SharedNameClashes(k, s, l, t);
  }

  lemma ShortName(k: string)
    ensures k + "_short" + "_version" == k + "_short_version"
  {
  }

  /**
   Two dependencies can set the same variable exactly when their keys are the same or one is the other
   with "_short".
   */
  lemma KeysShareIff(k: string, b: DepBuild, l: string, c: DepBuild)
    ensures (exists name :: Writes(k, b, name).Some? && Writes(l, c, name).Some?) <==> Clash(k, l)
  {
    if name :| Writes(k, b, name).Some? && Writes(l, c, name).Some? {
      WritersClash(k, b, l, c, name);
    }
    if Clash(k, l) {
      var name := if k == l + "_short" then k + "_version" else l + "_version";
      ShortName(k);
      ShortName(l);
      assert Writes(k, b, name).Some? && Writes(l, c, name).Some?;
    }
  }

  /**
   A dependency listed after one named like it with "_short", as foo after foo-short, takes over the
   other's version.
   */
  lemma ShortClash(vars: Vars, front: seq<string>, d: string, e: string, latest: map<string, DepBuild>)
    requires (forall x | x in front :: x in latest) && d in latest && e in front
    requires VarKey(e) == VarKey(d) + "_short"
    ensures var name := VarKey(e) + "_version";
            var after := AssignAll(vars, front + [d], latest);
            && Writes(VarKey(e), latest[e], name) == Some(latest[e].gitSha)
            && name in after && after[name] == ShortSha(latest[d].gitSha)
    ensures VarKey("foo-short") == VarKey("foo") + "_short"
  {
    assert (front + [d])[..|front|] == front;
    var name := VarKey(e) + "_version";
    assert name == VarKey(d) + "_short_version";
    AssignLookup(AssignAll(vars, front, latest), VarKey(d), latest[d], name);
    SuffixesApart(VarKey(d));
  }
}
