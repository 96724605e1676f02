/** Summaries and details agree, and between them show every visible file once (packvault/ui/packages.py). */
module PackageAgreement {
  import opened Basics
  import Breadcrumbs
  import opened PackageDetails
  import opened Packages
  import opened PathValidation
  import opened Segments
  import opened Text
  import UiListing
  import opened VersionOrder

  // ---------------------------------------------------------------------------------------------
  // What a canonical path says about its package.

  lemma {:induction false} KeepsGood(segments: seq<string>)
    requires forall i :: 0 <= i < |segments| ==> GoodSegment(segments[i])
    ensures KeptSegments(segments) == segments
  {
    if segments != [] {
      KeepsGood(segments[1..]);
      assert segments == [segments[0]] + segments[1..];
    }
  }

  lemma CanonicalParts(path: string)
    requires Canonical(path)
    ensures path != "" && StripSlashes(path) == path && PathParts(path) == Split(path, '/')
  {
    CanonicalChars(path);
    StripRightClean(path);
    KeepsGood(Split(path, '/'));
  }

  /** The segments of a file of a package. */
  function FileSegments(groupPath: string, artifactId: string, version: string, file: string): seq<string> {
    Split(groupPath, '/') + [artifactId, version, file]
  }

  function FilePath(groupPath: string, artifactId: string, version: string, file: string): string {
    groupPath + "/" + artifactId + "/" + version + "/" + file
  }

  predicate Flat(s: string) {
    '/' !in s
  }

  lemma FilePathSegments(groupPath: string, artifactId: string, version: string, file: string)
    requires Flat(artifactId) && Flat(version) && Flat(file)
    ensures Split(FilePath(groupPath, artifactId, version, file), '/') ==
        FileSegments(groupPath, artifactId, version, file)
  {
    SplitConcat(groupPath, artifactId, '/');
    SplitConcat(groupPath + "/" + artifactId, version, '/');
    SplitConcat(groupPath + "/" + artifactId + "/" + version, file, '/');
    SplitWhole(artifactId, '/');
    SplitWhole(version, '/');
    SplitWhole(file, '/');
  }

  /** The first `n` segments of a canonical path, joined and split again. */
  lemma LeadingSegments(path: string, n: nat)
    requires Canonical(path) && 0 < n <= |Split(path, '/')|
    ensures Split(Join(Split(path, '/')[..n], '/'), '/') == Split(path, '/')[..n]
  {
    SplitHasNoSeparator(path, '/');
    SplitJoin(Split(path, '/')[..n], '/');
  }

  lemma SameSegments(a: string, b: string)
    requires Split(a, '/') == Split(b, '/')
    ensures a == b
  {
    JoinSplit(a, '/');
    JoinSplit(b, '/');
  }

  lemma VisibleSegments(path: string)
    requires Canonical(path) && InferPackage(path).Some?
    ensures var s, n := Split(path, '/'), |Split(path, '/')|;
      && n >= 4 && FileName(path) == s[n - 1] && IsPrimary(s[n - 1])
      && InferPackage(path) == Some(Coordinates(Join(s[..n - 3], '.'), Join(s[..n - 3], '/'), s[n - 3], s[n - 2]))
      && Flat(s[n - 3]) && Flat(s[n - 2]) && Flat(s[n - 1])
  {
    CanonicalParts(path);
    SplitHasNoSeparator(path, '/');
  }

  lemma FromSegments(path: string, groupPath: string, artifactId: string, version: string, file: string)
    requires Flat(artifactId) && Flat(version) && Flat(file)
    requires var s, n := Split(path, '/'), |Split(path, '/')|;
      n > 3 && Split(groupPath, '/') == s[..n - 3] && artifactId == s[n - 3] && version == s[n - 2] && file == s[n - 1]
    ensures path == FilePath(groupPath, artifactId, version, file)
  {
    var s, n := Split(path, '/'), |Split(path, '/')|;
    FilePathSegments(groupPath, artifactId, version, file);
    assert s == s[..n - 3] + [s[n - 3], s[n - 2], s[n - 1]];
    SameSegments(path, FilePath(groupPath, artifactId, version, file));
  }

  lemma OtherEnd(name: string, suffix: string)
    requires suffix != "" && name != "" && name[|name| - 1] != suffix[|suffix| - 1]
    ensures !EndsWith(name, suffix)
  {
  }

  lemma SuffixesExclude(name: string)
    requires EndsWith(name, ".jar") || EndsWith(name, ".pom")
    ensures name != "maven-metadata.xml" && !IsSidecar(name)
  {
    assert name[|name| - 1] == name[|name| - 4..][3];
    OtherEnd(name, ".asc");
    OtherEnd(name, ".md5");
    OtherEnd(name, ".sha1");
    OtherEnd(name, ".sha256");
    OtherEnd(name, ".sha512");
  }

  /**
    A canonical path is a package file exactly when it has four segments or more and its last one ends in .jar or
    .pom; the segments before that are the version and the artifact, and those in front of them the group.
  */
  lemma VisibleIff(path: string)
    requires Canonical(path)
    ensures var s, n := Split(path, '/'), |Split(path, '/')|;
      var f := s[n - 1];
      && (InferPackage(path).Some? <==> n >= 4 && |f| >= 4 && (f[|f| - 4..] == ".jar" || f[|f| - 4..] == ".pom"))
      && (InferPackage(path).Some? ==>
            var c := InferPackage(path).value;
            && FileName(path) == f && c.version == s[n - 2] && c.artifactId == s[n - 3]
            && c.groupPath == Join(s[..n - 3], '/') && c.groupId == Join(s[..n - 3], '.'))
  {
    CanonicalParts(path);
    if EndsWith(FileName(path), ".jar") || EndsWith(FileName(path), ".pom") { SuffixesExclude(FileName(path)); }
  }

  /** An artifact path names a package when it has two segments: the last is the artifact, those before the group. */
  lemma TargetIff(path: string)
    requires Canonical(path)
    ensures var s, n := Split(path, '/'), |Split(path, '/')|;
      TargetOf(path) ==
        if n < 2 then None else Some(Target(Join(s[..n - 1], '.'), Join(s[..n - 1], '/'), s[n - 1]))
  {
    CanonicalParts(path);
  }

  predicate EndsInRM(name: string) {
    name != "" && (name[|name| - 1] == 'r' || name[|name| - 1] == 'm')
  }

  lemma OtherEndReading(name: string, word: string)
    requires word != "" && EndsInRM(name) && !EndsInRM(word)
    ensures !UiListing.EndsReading(name, word) && !ReadsAs(name, word)
  {
    if |word| <= |name| {
      var tail := name[|name| - |word|..];
      assert tail[|word| - 1] == name[|name| - 1];
    }
  }

  lemma EndKeepsShown(path: string)
    requires EndsInRM(path) && EndsInRM(Split(path, '/')[|Split(path, '/')| - 1])
    ensures !UiListing.IsHiddenArtifactPath(path)
  {
    UiListing.HiddenIff(path);
    OtherEndReading(Split(path, '/')[|Split(path, '/')| - 1], "maven-metadata.xml");
    OtherEndReading(path, ".asc");
    OtherEndReading(path, ".md5");
    OtherEndReading(path, ".sha1");
    OtherEndReading(path, ".sha256");
    OtherEndReading(path, ".sha512");
  }

  lemma SuffixEnds(f: string)
    requires |f| >= 4 && (f[|f| - 4..] == ".jar" || f[|f| - 4..] == ".pom")
    ensures EndsInRM(f)
  {
    assert f[|f| - 1] == f[|f| - 4..][3];
  }

  /** The flat listing never hides a file of a package. */
  lemma PackageFilesAreListed(path: string)
    requires Canonical(path) && InferPackage(path).Some?
    ensures !UiListing.IsHiddenArtifactPath(path)
  {
    VisibleIff(path);
    var c, f := InferPackage(path).value, FileName(path);
    SuffixEnds(f);
    assert path[|path| - 1] == f[|f| - 1] by { VisiblePath(path); }
    EndKeepsShown(path);
  }

  lemma CanonicalArtifactPath(path: string, n: nat)
    requires Canonical(path) && 0 < n < |Split(path, '/')|
    ensures Canonical(Join(Split(path, '/')[..n], '/') + "/" + Split(path, '/')[n])
  {
    Breadcrumbs.LeadingCanonical(path, n + 1);
    Breadcrumbs.LeadingStep(path, n);
  }

  /** A visible path is the path of its file in its version of its package. */
  lemma VisiblePath(path: string)
    requires Canonical(path) && InferPackage(path).Some?
    ensures var c, f := InferPackage(path).value, FileName(path);
      && Flat(c.artifactId) && Flat(c.version) && Flat(f) && IsPrimary(f)
      && path == FilePath(c.groupPath, c.artifactId, c.version, f)
      && c.groupId == Join(Split(c.groupPath, '/'), '.')
      && Canonical(c.groupPath + "/" + c.artifactId)
  {
    VisibleSegments(path);
    var c, f, n := InferPackage(path).value, FileName(path), |Split(path, '/')|;
    LeadingSegments(path, n - 3);
    FromSegments(path, c.groupPath, c.artifactId, c.version, f);
    CanonicalArtifactPath(path, n - 3);
  }

  /** Two file paths are equal only if they are the same file of the same version of the same package. */
  lemma FilePathInjective(g1: string, a1: string, v1: string, f1: string, g2: string, a2: string, v2: string,
                          f2: string)
    requires Flat(a1) && Flat(v1) && Flat(f1) && Flat(a2) && Flat(v2) && Flat(f2)
    requires FilePath(g1, a1, v1, f1) == FilePath(g2, a2, v2, f2)
    ensures g1 == g2 && a1 == a2 && v1 == v2 && f1 == f2
  {
    FilePathSegments(g1, a1, v1, f1);
    FilePathSegments(g2, a2, v2, f2);
    var s, n := FileSegments(g1, a1, v1, f1), |Split(g1, '/')|;
    assert s[n] == a1 && s[n + 1] == v1 && s[n + 2] == f1 && s[..n] == Split(g1, '/');
    var t := FileSegments(g2, a2, v2, f2);
    assert t[n] == a2 && t[n + 1] == v2 && t[n + 2] == f2 && t[..n] == Split(g2, '/');
    SameSegments(g1, g2);
  }

  // ---------------------------------------------------------------------------------------------
  // When group identifiers stand for group paths.

  predicate AllCanonical(paths: seq<string>) {
    forall path :: path in paths ==> Canonical(path)
  }

  predicate Visible(paths: seq<string>, path: string) {
    path in paths && InferPackage(path).Some?
  }

  /** The two visible paths have the same group identifier and artifact but different group paths. */
  predicate Clash(paths: seq<string>, p: string, q: string) {
    && Visible(paths, p) && Visible(paths, q) && KeyOf(InferPackage(p).value) == KeyOf(InferPackage(q).value)
    && InferPackage(p).value.groupPath != InferPackage(q).value.groupPath
  }

  predicate NoClash(paths: seq<string>) {
    forall p, q :: p in paths && q in paths ==> !Clash(paths, p, q)
  }

  predicate DotFree(path: string) {
    InferPackage(path).Some? ==>
      var segments := Split(InferPackage(path).value.groupPath, '/');
      forall i :: 0 <= i < |segments| ==> '.' !in segments[i]
  }

  lemma DotFreeGroup(p: string, q: string)
    requires Canonical(p) && Canonical(q) && InferPackage(p).Some? && InferPackage(q).Some? && DotFree(p) && DotFree(q)
    requires InferPackage(p).value.groupId == InferPackage(q).value.groupId
    ensures InferPackage(p).value.groupPath == InferPackage(q).value.groupPath
  {
    VisiblePath(p);
    VisiblePath(q);
    var g, h := InferPackage(p).value.groupPath, InferPackage(q).value.groupPath;
    SplitJoin(Split(g, '/'), '.');
    SplitJoin(Split(h, '/'), '.');
    SameSegments(g, h);
  }

  /** Without dots in the group segments there is no clash. */
  lemma DotFreeNoClash(paths: seq<string>)
    requires AllCanonical(paths) && forall path :: path in paths ==> DotFree(path)
    ensures NoClash(paths)
  {
    forall p, q | p in paths && q in paths ensures !Clash(paths, p, q) {
      if Visible(paths, p) && Visible(paths, q) && KeyOf(InferPackage(p).value) == KeyOf(InferPackage(q).value) {
        DotFreeGroup(p, q);
      }
    }
  }

  lemma {:induction false} GroupPathFrom(paths: seq<string>, key: Key) returns (path: string)
    requires GroupPathOf(paths, key).Some?
    ensures path in paths && HasKey(path, key) && InferPackage(path).value.groupPath == GroupPathOf(paths, key).value
  {
    path := paths[|paths| - 1];
    if !HasKey(path, key) { path := GroupPathFrom(paths[..|paths| - 1], key); }
  }

  /** The group path of a package is that of the last of its paths. */
  lemma {:induction false} GroupPathIsLast(paths: seq<string>, key: Key, i: nat)
    requires i < |paths| && HasKey(paths[i], key) && forall j :: i < j < |paths| ==> !HasKey(paths[j], key)
    ensures GroupPathOf(paths, key) == Some(InferPackage(paths[i]).value.groupPath)
  {
    if i < |paths| - 1 { GroupPathIsLast(paths[..|paths| - 1], key, i); }
  }

  lemma {:induction false} VersionsOfHas(paths: seq<string>, key: Key, version: string)
    ensures version in VersionsOf(paths, key) <==>
            exists path :: path in paths && HasKey(path, key) && InferPackage(path).value.version == version
  {
    if paths != [] {
      var init, last := paths[..|paths| - 1], paths[|paths| - 1];
      VersionsOfHas(init, key, version);
      assert paths == init + [last];
    }
  }

  /** The group path of a summary, and the group identifier that belongs to it. */
  lemma SummaryGroup(repository: string, paths: seq<string>, s: PackageSummary) returns (path: string)
    requires AllCanonical(paths) && SummaryOk(repository, paths, s)
    ensures Visible(paths, path) && HasKey(path, s.Package()) && At(path, s.groupPath, s.artifactId)
    ensures s.groupId == Join(Split(s.groupPath, '/'), '.') && Canonical(s.ArtifactPath()) && Flat(s.artifactId)
  {
    path := GroupPathFrom(paths, s.Package());
    VisiblePath(path);
  }

  /** The paths at the place of a summary are paths of its package; without clash, all of them. */
  lemma PlaceOfSummary(repository: string, paths: seq<string>, s: PackageSummary, p: string)
    requires AllCanonical(paths) && SummaryOk(repository, paths, s) && p in paths
    ensures At(p, s.groupPath, s.artifactId) ==> HasKey(p, s.Package())
    ensures NoClash(paths) && HasKey(p, s.Package()) ==> At(p, s.groupPath, s.artifactId)
  {
    var path := SummaryGroup(repository, paths, s);
    if At(p, s.groupPath, s.artifactId) { VisiblePath(p); }
    if NoClash(paths) { assert !Clash(paths, p, path); }
  }

  lemma SameVersions(repository: string, paths: seq<string>, s: PackageSummary)
    requires AllCanonical(paths) && NoClash(paths) && SummaryOk(repository, paths, s)
    ensures VersionsAt(paths, s.groupPath, s.artifactId) == VersionsOf(paths, s.Package())
  {
    forall v ensures v in VersionsAt(paths, s.groupPath, s.artifactId) <==> v in VersionsOf(paths, s.Package()) {
      VersionsOfHas(paths, s.Package(), v);
      forall p | p in paths ensures At(p, s.groupPath, s.artifactId) <==> HasKey(p, s.Package()) {
        PlaceOfSummary(repository, paths, s, p);
      }
    }
  }

  /** The artifact path of a summary names the package of the summary. */
  lemma TargetOfSummary(repository: string, paths: seq<string>, s: PackageSummary)
    requires AllCanonical(paths) && SummaryOk(repository, paths, s)
    ensures TargetOf(s.ArtifactPath()) == Some(Target(s.groupId, s.groupPath, s.artifactId))
    ensures StripSlashes(s.ArtifactPath()) == s.ArtifactPath()
  {
    var path := SummaryGroup(repository, paths, s);
    CanonicalParts(s.ArtifactPath());
    SplitConcat(s.groupPath, s.artifactId, '/');
    SplitWhole(s.artifactId, '/');
    var parts := PathParts(s.ArtifactPath());
    assert parts[..|parts| - 1] == Split(s.groupPath, '/');
    JoinSplit(s.groupPath, '/');
  }

  /**
    For each summary there is a detail at its artifact path, with the same package, the same versions and
    the same count; and with the same list of versions and the same latest one if these are tame and no
    two of them compare equal.
  */
  lemma SummaryAndDetailAgree(repository: string, paths: seq<string>, s: PackageSummary, d: PackageDetail)
    requires AllCanonical(paths) && NoClash(paths) && SummaryOk(repository, paths, s)
    requires DetailOk(repository, s.ArtifactPath(), paths, d)
    ensures d.groupId == s.groupId && d.groupPath == s.groupPath && d.artifactId == s.artifactId
    ensures |d.versions| == s.versionCount && forall v :: v in Ascending(d.versions) <==> v in s.versions
    ensures Comparable(s.versions) && NoTies(VersionsOf(paths, s.Package())) ==>
              Ascending(d.versions) == s.versions && d.latestVersion == s.latestVersion
  {
    TargetOfSummary(repository, paths, s);
    SameVersions(repository, paths, s);
    var versions := VersionsOf(paths, s.Package());
    EnumerationLength(Ascending(d.versions), versions);
    EnumerationLength(s.versions, versions);
    AscendingEnds(d.versions);
    if Comparable(s.versions) && NoTies(versions) {
      SortedIsUnique(Ascending(d.versions), s.versions, versions);
    }
  }

  lemma {:induction false} EnumerationLength(s: seq<string>, versions: set<string>)
    requires Enumerates(s, versions)
    ensures |s| == |versions|
  {
    if s == [] {
      Nonempty(s, versions);
    } else {
      var init, last := s[..|s| - 1], s[|s| - 1];
      assert s == init + [last];
      EnumerationLength(init, versions - {last});
      assert last in s;
    }
  }

  /** The detail that a summary leads to exists. */
  lemma DetailExists(repository: string, paths: seq<string>, s: PackageSummary)
    requires AllCanonical(paths) && SummaryOk(repository, paths, s)
    ensures TargetOf(s.ArtifactPath()).Some?
    ensures var t := TargetOf(s.ArtifactPath()).value; VersionsAt(paths, t.groupPath, t.artifactId) != {}
  {
    TargetOfSummary(repository, paths, s);
    var path := SummaryGroup(repository, paths, s);
    assert InferPackage(path).value.version in VersionsAt(paths, s.groupPath, s.artifactId);
  }

  // ---------------------------------------------------------------------------------------------
  // Conservation of files.

  /** The detail has the slot: a version with a file. */
  predicate Slot(d: PackageDetail, v: VersionSummary, file: string) {
    v in d.versions && file in v.files
  }

  /** A slot holds exactly one path, which is one of the visible paths of the package. */
  lemma SlotIsFile(repository: string, paths: seq<string>, s: PackageSummary, d: PackageDetail, v: VersionSummary,
                   file: string)
    requires AllCanonical(paths) && SummaryOk(repository, paths, s) && DetailOk(repository, s.ArtifactPath(), paths, d)
    requires Slot(d, v, file)
    ensures v.path + "/" + file == FilePath(s.groupPath, s.artifactId, v.version, file)
    ensures Visible(paths, v.path + "/" + file) && At(v.path + "/" + file, s.groupPath, s.artifactId)
    ensures Flat(s.artifactId) && Flat(v.version) && Flat(file)
  {
    TargetOfSummary(repository, paths, s);
    assert VersionOk(s.ArtifactPath(), paths, Target(d.groupId, d.groupPath, d.artifactId), v);
    assert file in FilesAt(paths, s.groupPath, s.artifactId, v.version);
    var path :| path in paths && AtVersion(path, s.groupPath, s.artifactId, v.version) && FileName(path) == file;
    VisiblePath(path);
  }

  /** A visible path of the package is in the slot of its version and file name. */
  lemma FileHasSlot(repository: string, paths: seq<string>, s: PackageSummary, d: PackageDetail, path: string)
    returns (v: VersionSummary)
    requires AllCanonical(paths) && SummaryOk(repository, paths, s) && DetailOk(repository, s.ArtifactPath(), paths, d)
    requires path in paths && At(path, s.groupPath, s.artifactId)
    ensures v.version == InferPackage(path).value.version && Slot(d, v, FileName(path))
    ensures path == v.path + "/" + FileName(path)
  {
    TargetOfSummary(repository, paths, s);
    VisiblePath(path);
    var version := InferPackage(path).value.version;
    assert version in VersionsAt(paths, s.groupPath, s.artifactId);
    assert version in Ascending(d.versions);
    v := VersionNamed(d.versions, version);
    assert VersionOk(s.ArtifactPath(), paths, Target(d.groupId, d.groupPath, d.artifactId), v);
    assert FileName(path) in FilesAt(paths, s.groupPath, s.artifactId, version);
  }

  lemma {:induction false} VersionNamed(versions: seq<VersionSummary>, version: string) returns (v: VersionSummary)
    requires version in Ascending(versions)
    ensures v in versions && v.version == version
  {
    if versions[0].version == version {
      v := versions[0];
    } else {
      v := VersionNamed(versions[1..], version);
    }
  }

  /** A path stands in at most one slot of all the details that the summaries lead to. */
  lemma OneSlotPerFile(repository: string, paths: seq<string>, s1: PackageSummary, d1: PackageDetail,
                       v1: VersionSummary, f1: string,
                       s2: PackageSummary, d2: PackageDetail, v2: VersionSummary, f2: string)
    requires AllCanonical(paths) && SummaryOk(repository, paths, s1) && SummaryOk(repository, paths, s2)
    requires DetailOk(repository, s1.ArtifactPath(), paths, d1) && DetailOk(repository, s2.ArtifactPath(), paths, d2)
    requires Slot(d1, v1, f1) && Slot(d2, v2, f2) && v1.path + "/" + f1 == v2.path + "/" + f2
    ensures s1.Package() == s2.Package() && v1.version == v2.version && f1 == f2
  {
    SlotIsFile(repository, paths, s1, d1, v1, f1);
    SlotIsFile(repository, paths, s2, d2, v2, f2);
    FilePathInjective(s1.groupPath, s1.artifactId, v1.version, f1, s2.groupPath, s2.artifactId, v2.version, f2);
    var p1 := SummaryGroup(repository, paths, s1);
    var p2 := SummaryGroup(repository, paths, s2);
  }

  /** The path is at the place of one of the summaries, so it is in the detail that this summary leads to. */
  predicate Reached(summaries: seq<PackageSummary>, path: string) {
    exists i :: 0 <= i < |summaries| && At(path, summaries[i].groupPath, summaries[i].artifactId)
  }

  lemma ReachedWithoutClash(repository: string, paths: seq<string>, summaries: seq<PackageSummary>, p: string)
    requires AllCanonical(paths) && AreSummaries(repository, paths, summaries) && NoClash(paths) && Visible(paths, p)
    ensures Reached(summaries, p)
  {
    var c := InferPackage(p).value;
    VersionsOfHas(paths, KeyOf(c), c.version);
    assert HasKey(p, KeyOf(c));
    assert Summarised(summaries, KeyOf(c));
    var i :| 0 <= i < |summaries| && summaries[i].Package() == KeyOf(c);
    assert summaries[i] in summaries;
    PlaceOfSummary(repository, paths, summaries[i], p);
  }

  lemma ReachedAgree(repository: string, paths: seq<string>, summaries: seq<PackageSummary>, p: string, q: string)
    requires AllCanonical(paths) && AreSummaries(repository, paths, summaries) && Visible(paths, p) && Visible(paths, q)
    requires Reached(summaries, p) && Reached(summaries, q)
    requires KeyOf(InferPackage(p).value) == KeyOf(InferPackage(q).value)
    ensures InferPackage(p).value.groupPath == InferPackage(q).value.groupPath
  {
    var i :| 0 <= i < |summaries| && At(p, summaries[i].groupPath, summaries[i].artifactId);
    var j :| 0 <= j < |summaries| && At(q, summaries[j].groupPath, summaries[j].artifactId);
    assert summaries[i] in summaries && summaries[j] in summaries;
    PlaceOfSummary(repository, paths, summaries[i], p);
    PlaceOfSummary(repository, paths, summaries[j], q);
    assert summaries[i].Package() == summaries[j].Package();
  }

  /**
    Every visible file is in a detail that some summary leads to exactly when there is no clash. With
    `FileHasSlot`, `SlotIsFile` and `OneSlotPerFile`, it is then in exactly one package, version and file slot.
  */
  lemma FilesConservedIff(repository: string, paths: seq<string>, summaries: seq<PackageSummary>)
    requires AllCanonical(paths) && AreSummaries(repository, paths, summaries)
    ensures (forall p :: p in paths && Visible(paths, p) ==> Reached(summaries, p)) <==> NoClash(paths)
  {
    if NoClash(paths) {
      forall p | p in paths && Visible(paths, p) ensures Reached(summaries, p) {
        ReachedWithoutClash(repository, paths, summaries, p);
      }
    } else {
      var p, q :| p in paths && q in paths && Clash(paths, p, q);
      if Reached(summaries, p) && Reached(summaries, q) {
        ReachedAgree(repository, paths, summaries, p, q);
      }
    }
  }

  /** The details that the summaries lead to, in the order of the summaries. */
  ghost predicate AreDetails(repository: string, paths: seq<string>, summaries: seq<PackageSummary>,
                             details: seq<PackageDetail>) {
    && |details| == |summaries|
    && forall i :: 0 <= i < |details| ==> DetailOk(repository, summaries[i].ArtifactPath(), paths, details[i])
  }

  /** Detail number `i` shows the path in the slot of version `v` and `file`. */
  predicate Shows(details: seq<PackageDetail>, i: nat, v: VersionSummary, file: string, path: string) {
    i < |details| && Slot(details[i], v, file) && path == v.path + "/" + file
  }

  ghost predicate Shown(details: seq<PackageDetail>, path: string) {
    exists i: nat, v, file :: Shows(details, i, v, file, path)
  }

  /** No other slot of any detail shows the path. */
  ghost predicate ShownOnlyIn(details: seq<PackageDetail>, i: nat, v: VersionSummary, file: string, path: string) {
    forall j: nat, w, other :: Shows(details, j, w, other, path) ==> j == i && w == v && other == file
  }

  ghost predicate ShownOnce(details: seq<PackageDetail>, path: string) {
    exists i: nat, v, file :: Shows(details, i, v, file, path) && ShownOnlyIn(details, i, v, file, path)
  }

  lemma SameSlot(repository: string, paths: seq<string>, summaries: seq<PackageSummary>, details: seq<PackageDetail>,
                 i: nat, v: VersionSummary, f: string, j: nat, w: VersionSummary, g: string, path: string)
    requires AllCanonical(paths) && AreSummaries(repository, paths, summaries)
    requires AreDetails(repository, paths, summaries, details)
    requires Shows(details, i, v, f, path) && Shows(details, j, w, g, path)
    ensures j == i && w == v && g == f
  {
    var s1, s2 := summaries[i], summaries[j];
    assert s1 in summaries && s2 in summaries;
    OneSlotPerFile(repository, paths, s1, details[i], v, f, s2, details[j], w, g);
    assert i == j;
    var t := Target(details[i].groupId, details[i].groupPath, details[i].artifactId);
    assert VersionOk(s1.ArtifactPath(), paths, t, v) && VersionOk(s1.ArtifactPath(), paths, t, w);
  }

  /** A path is shown exactly when it is a visible path at the place of one of the summaries. */
  lemma ShownIff(repository: string, paths: seq<string>, summaries: seq<PackageSummary>,
                 details: seq<PackageDetail>, path: string)
    requires AllCanonical(paths) && AreSummaries(repository, paths, summaries)
    requires AreDetails(repository, paths, summaries, details)
    ensures Shown(details, path) <==> Visible(paths, path) && Reached(summaries, path)
  {
    if Shown(details, path) {
      var i: nat, v, file :| Shows(details, i, v, file, path);
      assert summaries[i] in summaries;
      SlotIsFile(repository, paths, summaries[i], details[i], v, file);
    }
    if Visible(paths, path) && Reached(summaries, path) {
      var i :| 0 <= i < |summaries| && At(path, summaries[i].groupPath, summaries[i].artifactId);
      assert summaries[i] in summaries;
      var v := FileHasSlot(repository, paths, summaries[i], details[i], path);
      assert Shows(details, i, v, FileName(path), path);
    }
  }

  lemma ShownIsOnce(repository: string, paths: seq<string>, summaries: seq<PackageSummary>,
                    details: seq<PackageDetail>, path: string)
    requires AllCanonical(paths) && AreSummaries(repository, paths, summaries)
    requires AreDetails(repository, paths, summaries, details) && Shown(details, path)
    ensures ShownOnce(details, path)
  {
    var i: nat, v, file :| Shows(details, i, v, file, path);
    forall j: nat, w, other | Shows(details, j, w, other, path) ensures j == i && w == v && other == file {
      SameSlot(repository, paths, summaries, details, i, v, file, j, w, other, path);
    }
    assert ShownOnlyIn(details, i, v, file, path);
  }

  /**
    Conservation of files: the details show nothing but visible paths, and they show each of them in exactly
    one package, version and file slot just when no two group paths clash.
  */
  lemma EveryFileOnceIff(repository: string, paths: seq<string>, summaries: seq<PackageSummary>,
                         details: seq<PackageDetail>)
    requires AllCanonical(paths) && AreSummaries(repository, paths, summaries)
    requires AreDetails(repository, paths, summaries, details)
    ensures forall path :: Shown(details, path) ==> Visible(paths, path)
    ensures (forall path :: path in paths && Visible(paths, path) ==> ShownOnce(details, path)) <==> NoClash(paths)
  {
    forall path ensures Shown(details, path) <==> Visible(paths, path) && Reached(summaries, path) {
      ShownIff(repository, paths, summaries, details, path);
    }
    forall path ensures Shown(details, path) <==> ShownOnce(details, path) {
      if Shown(details, path) { ShownIsOnce(repository, paths, summaries, details, path); }
    }
    FilesConservedIff(repository, paths, summaries);
  }
}
