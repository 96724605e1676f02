/** The files of one package, version by version (packvault/ui/packages.py, `build_package_detail`). */
module PackageDetails {
  import opened Basics
  import opened Packages
  import opened Segments
  import opened Strings
  import opened Text

  datatype VersionSummary = VersionSummary(version: string, path: string, files: seq<string>)

  datatype PackageDetail = PackageDetail(repository: string, groupId: string, groupPath: string, artifactId: string,
                                         latestVersion: string, versions: seq<VersionSummary>)

  predicate At(path: string, groupPath: string, artifactId: string) {
    var c := InferPackage(path);
    c.Some? && c.value.groupPath == groupPath && c.value.artifactId == artifactId
  }

  predicate AtVersion(path: string, groupPath: string, artifactId: string, version: string) {
    At(path, groupPath, artifactId) && InferPackage(path).value.version == version
  }

  /** The file names of a version; empty when there is no such version. */
  function FilesAt(paths: seq<string>, groupPath: string, artifactId: string, version: string): set<string> {
    set path | path in paths && AtVersion(path, groupPath, artifactId, version) :: FileName(path)
  }

  function VersionsAt(paths: seq<string>, groupPath: string, artifactId: string): set<string> {
    set path | path in paths && At(path, groupPath, artifactId) :: InferPackage(path).value.version
  }

  /** Version names in ascending order; the view lists them the other way round. */
  function Ascending(versions: seq<VersionSummary>): seq<string> {
    if versions == [] then [] else Ascending(versions[1..]) + [versions[0].version]
  }

  /** The group and artifact that an artifact path names. */
  datatype Target = Target(groupId: string, groupPath: string, artifactId: string)

  function TargetOf(artifactPath: string): Option<Target> {
    var parts := PathParts(StripSlashes(artifactPath));
    var n := |parts|;
    if n < 2 then None else Some(Target(Join(parts[..n - 1], '.'), Join(parts[..n - 1], '/'), parts[n - 1]))
  }

  ghost predicate VersionOk(artifactPath: string, paths: seq<string>, t: Target, v: VersionSummary) {
    && v.path == StripSlashes(artifactPath) + "/" + v.version
    && v.files == SortedOf(FilesAt(paths, t.groupPath, t.artifactId, v.version))
  }

  /** A detail says what the paths of its group and artifact say. */
  ghost predicate DetailOk(repository: string, artifactPath: string, paths: seq<string>, d: PackageDetail) {
    && TargetOf(artifactPath) == Some(Target(d.groupId, d.groupPath, d.artifactId)) && d.repository == repository
    && SortedVersions(Ascending(d.versions), VersionsAt(paths, d.groupPath, d.artifactId))
    && d.versions != [] && d.latestVersion == d.versions[0].version
    && forall v :: v in d.versions ==> VersionOk(artifactPath, paths, Target(d.groupId, d.groupPath, d.artifactId), v)
  }

  /** The dictionary after the paths so far. */
  ghost predicate Collected(paths: seq<string>, t: Target, files: map<string, set<string>>) {
    && files.Keys == VersionsAt(paths, t.groupPath, t.artifactId)
    && forall v :: v in files ==> files[v] == FilesAt(paths, t.groupPath, t.artifactId, v)
  }

  function Collect(t: Target, path: string, files: map<string, set<string>>): map<string, set<string>> {
    if At(path, t.groupPath, t.artifactId) then
      var version := InferPackage(path).value.version;
      files[version := (if version in files then files[version] else {}) + {FileName(path)}]
    else files
  }

  lemma VersionsStep(paths: seq<string>, i: nat, t: Target)
    requires i < |paths|
    ensures VersionsAt(paths[..i + 1], t.groupPath, t.artifactId) ==
            VersionsAt(paths[..i], t.groupPath, t.artifactId) +
            if At(paths[i], t.groupPath, t.artifactId) then {InferPackage(paths[i]).value.version} else {}
  {
    assert paths[..i + 1] == paths[..i] + [paths[i]];
    assert paths[i] in paths[..i + 1];
  }

  lemma FilesStep(paths: seq<string>, i: nat, t: Target, v: string)
    requires i < |paths|
    ensures FilesAt(paths[..i + 1], t.groupPath, t.artifactId, v) ==
            FilesAt(paths[..i], t.groupPath, t.artifactId, v) +
            if AtVersion(paths[i], t.groupPath, t.artifactId, v) then {FileName(paths[i])} else {}
  {
    assert paths[..i + 1] == paths[..i] + [paths[i]];
    assert paths[i] in paths[..i + 1];
  }

  lemma NoVersionNoFiles(paths: seq<string>, t: Target, v: string)
    requires v !in VersionsAt(paths, t.groupPath, t.artifactId)
    ensures FilesAt(paths, t.groupPath, t.artifactId, v) == {}
  {
    forall path | path in paths ensures !AtVersion(path, t.groupPath, t.artifactId, v) {}
  }

  lemma CollectElsewhere(paths: seq<string>, i: nat, t: Target, files: map<string, set<string>>)
    requires i < |paths| && Collected(paths[..i], t, files) && !At(paths[i], t.groupPath, t.artifactId)
    ensures Collected(paths[..i + 1], t, files)
  {
    VersionsStep(paths, i, t);
    forall v | v in files ensures files[v] == FilesAt(paths[..i + 1], t.groupPath, t.artifactId, v) {
      FilesStep(paths, i, t, v);
    }
  }

  /** The files of one version after one more path of the package. */
  lemma CollectOne(paths: seq<string>, i: nat, t: Target, files: map<string, set<string>>, v: string)
    requires i < |paths| && Collected(paths[..i], t, files) && At(paths[i], t.groupPath, t.artifactId)
    requires v in files || v == InferPackage(paths[i]).value.version
    ensures v in Collect(t, paths[i], files)
    ensures Collect(t, paths[i], files)[v] == FilesAt(paths[..i + 1], t.groupPath, t.artifactId, v)
  {
    FilesStep(paths, i, t, v);
    if v !in files { NoVersionNoFiles(paths[..i], t, v); }
  }

  lemma CollectHere(paths: seq<string>, i: nat, t: Target, files: map<string, set<string>>)
    requires i < |paths| && Collected(paths[..i], t, files) && At(paths[i], t.groupPath, t.artifactId)
    ensures Collected(paths[..i + 1], t, Collect(t, paths[i], files))
  {
    VersionsStep(paths, i, t);
    var version, next := InferPackage(paths[i]).value.version, Collect(t, paths[i], files);
    assert next.Keys == files.Keys + {version};
    forall v | v in next ensures next[v] == FilesAt(paths[..i + 1], t.groupPath, t.artifactId, v) {
      CollectOne(paths, i, t, files, v);
    }
  }

  lemma CollectStep(paths: seq<string>, i: nat, t: Target, files: map<string, set<string>>)
    requires i < |paths| && Collected(paths[..i], t, files)
    ensures Collected(paths[..i + 1], t, Collect(t, paths[i], files))
  {
    if At(paths[i], t.groupPath, t.artifactId) {
      CollectHere(paths, i, t, files);
    } else {
      CollectElsewhere(paths, i, t, files);
    }
  }

  method CollectFiles(paths: seq<string>, t: Target) returns (files: map<string, set<string>>)
    ensures Collected(paths, t, files)
  {
    files := map[];
    var i := 0;
    while i < |paths|
      invariant 0 <= i <= |paths| && Collected(paths[..i], t, files)
    {
      CollectStep(paths, i, t, files);
      files := Collect(t, paths[i], files);
      i := i + 1;
    }
    assert paths[..|paths|] == paths;
  }

  lemma {:induction false} AscendingAppend(versions: seq<VersionSummary>, v: VersionSummary)
    ensures Ascending(versions + [v]) == [v.version] + Ascending(versions)
  {
    if versions != [] {
      assert (versions + [v])[1..] == versions[1..] + [v];
      AscendingAppend(versions[1..], v);
    }
  }

  method DescribeVersions(artifactPath: string, ghost paths: seq<string>, t: Target, sorted: seq<string>,
                          files: map<string, set<string>>)
    returns (versions: seq<VersionSummary>)
    requires Collected(paths, t, files) && forall v :: v in sorted ==> v in files
    ensures Ascending(versions) == sorted
    ensures forall v :: v in versions ==> VersionOk(artifactPath, paths, t, v)
  {
    versions := [];
    var i := |sorted|;
    while i > 0
      invariant 0 <= i <= |sorted| && Ascending(versions) == sorted[i..]
      invariant forall v :: v in versions ==> VersionOk(artifactPath, paths, t, v)
    {
      i := i - 1;
      var names := SortSet(files[sorted[i]]);
      var v := VersionSummary(sorted[i], StripSlashes(artifactPath) + "/" + sorted[i], names);
      AscendingAppend(versions, v);
      versions := versions + [v];
    }
  }

  lemma {:induction false} AscendingEnds(versions: seq<VersionSummary>)
    ensures |Ascending(versions)| == |versions|
    ensures versions != [] ==> Ascending(versions)[|versions| - 1] == versions[0].version
    ensures forall i :: 0 <= i < |versions| ==> Ascending(versions)[|versions| - 1 - i] == versions[i].version
  {
    if versions != [] {
      AscendingEnds(versions[1..]);
      var n := |versions|;
      forall i | 0 < i < n ensures Ascending(versions)[n - 1 - i] == versions[i].version {
        assert versions[1..][i - 1] == versions[i];
      }
    }
  }

  method BuildPackageDetail(repository: string, artifactPath: string, paths: seq<string>)
    returns (detail: Option<PackageDetail>)
    ensures detail.Some? <==>
            TargetOf(artifactPath).Some? &&
            VersionsAt(paths, TargetOf(artifactPath).value.groupPath, TargetOf(artifactPath).value.artifactId) != {}
    ensures detail.Some? ==> DetailOk(repository, artifactPath, paths, detail.value)
  {
    var target := TargetOf(artifactPath);
    if target.None? { return None; }
    var t := target.value;
    var files := CollectFiles(paths, t);
    if files.Keys == {} { return None; }
    var sorted := SortNonempty(files.Keys);
    var versions := DescribeVersions(artifactPath, paths, t, sorted, files);
    AscendingEnds(versions);
    detail := Some(PackageDetail(repository, t.groupId, t.groupPath, t.artifactId, versions[0].version, versions));
  }
}
