/** Grouping artifact paths into packages (packvault/ui/packages.py). */
module Packages {
  import opened Basics
  import opened Segments
  import opened Strings
  import opened Text
  import opened VersionOrder

  // ---------------------------------------------------------------------------------------------
  // One path.

  datatype Coordinates = Coordinates(groupId: string, groupPath: string, artifactId: string, version: string)

  function KeptSegments(segments: seq<string>): seq<string> {
    if segments == [] then []
    else (if segments[0] == "" || segments[0] == "." then [] else [segments[0]]) + KeptSegments(segments[1..])
  }

  /** The parts of a `PurePosixPath` below its root. */
  function PathParts(path: string): seq<string> {
    KeptSegments(Split(path, '/'))
  }

  function FileName(path: string): string {
    var parts := PathParts(path);
    if parts == [] then "" else parts[|parts| - 1]
  }

  predicate IsSidecar(name: string) {
    || EndsWith(name, ".asc") || EndsWith(name, ".md5") || EndsWith(name, ".sha1")
    || EndsWith(name, ".sha256") || EndsWith(name, ".sha512")
  }

  predicate IsPrimary(name: string) {
    name != "maven-metadata.xml" && !IsSidecar(name) && (EndsWith(name, ".jar") || EndsWith(name, ".pom"))
  }

  function InferPackage(path: string): Option<Coordinates> {
    var normalized := StripSlashes(path);
    var parts := PathParts(normalized);
    if normalized == "" || !IsPrimary(FileName(normalized)) || |parts| < 4 then None
    else
      var n := |parts|;
      Some(Coordinates(Join(parts[..n - 3], '.'), Join(parts[..n - 3], '/'), parts[n - 3], parts[n - 2]))
  }

  // ---------------------------------------------------------------------------------------------
  // Summaries: grouped by group identifier and artifact.

  datatype Key = Key(groupId: string, artifactId: string)

  function KeyOf(c: Coordinates): Key {
    Key(c.groupId, c.artifactId)
  }

  predicate HasKey(path: string, key: Key) {
    InferPackage(path).Some? && KeyOf(InferPackage(path).value) == key
  }

  /** The versions of a package; empty when there is no such package. */
  function VersionsOf(paths: seq<string>, key: Key): set<string> {
    if paths == [] then {}
    else
      var last := paths[|paths| - 1];
      VersionsOf(paths[..|paths| - 1], key) + if HasKey(last, key) then {InferPackage(last).value.version} else {}
  }

  /** The group path of the last path of the package. */
  function GroupPathOf(paths: seq<string>, key: Key): Option<string> {
    if paths == [] then None
    else
      var last := paths[|paths| - 1];
      if HasKey(last, key) then Some(InferPackage(last).value.groupPath) else GroupPathOf(paths[..|paths| - 1], key)
  }

  datatype PackageSummary = PackageSummary(repository: string, groupId: string, groupPath: string, artifactId: string,
                                           latestVersion: string, versionCount: nat, versions: seq<string>)
  {
    function Package(): Key { Key(groupId, artifactId) }

    function Name(): string { groupId + ":" + artifactId }

    function ArtifactPath(): string { groupPath + "/" + artifactId }
  }

  /** A summary says what the paths of its package say. */
  ghost predicate SummaryOk(repository: string, paths: seq<string>, s: PackageSummary) {
    && s.repository == repository && GroupPathOf(paths, s.Package()) == Some(s.groupPath)
    && SortedVersions(s.versions, VersionsOf(paths, s.Package()))
    && s.latestVersion == s.versions[|s.versions| - 1] && s.versionCount == |s.versions|
  }

  /** Some versions, each once, and in order when they are tame. */
  ghost predicate SortedVersions(sorted: seq<string>, versions: set<string>) {
    && sorted != [] && Enumerates(sorted, versions)
    && (Comparable(sorted) ==> Ordered(sorted))
  }

  predicate OnePerPackage(summaries: seq<PackageSummary>) {
    forall i, j :: 0 <= i < j < |summaries| ==> summaries[i].Package() != summaries[j].Package()
  }

  predicate ByName(summaries: seq<PackageSummary>) {
    forall i, j :: 0 <= i < j < |summaries| ==> !Less(summaries[j].Name(), summaries[i].Name())
  }

  predicate Summarised(summaries: seq<PackageSummary>, key: Key) {
    exists i :: 0 <= i < |summaries| && summaries[i].Package() == key
  }

  /** One correct summary per package, in the order of their names. */
  ghost predicate AreSummaries(repository: string, paths: seq<string>, summaries: seq<PackageSummary>) {
    && (forall s :: s in summaries ==> SummaryOk(repository, paths, s))
    && OnePerPackage(summaries) && ByName(summaries)
    && forall key :: VersionsOf(paths, key) != {} ==> Summarised(summaries, key)
  }

  /** Stable insertion by name. */
  function InsertByName(summaries: seq<PackageSummary>, s: PackageSummary): seq<PackageSummary> {
    if summaries == [] || !Less(s.Name(), summaries[|summaries| - 1].Name()) then summaries + [s]
    else InsertByName(summaries[..|summaries| - 1], s) + [summaries[|summaries| - 1]]
  }

  function SortByName(summaries: seq<PackageSummary>): seq<PackageSummary> {
    if summaries == [] then [] else InsertByName(SortByName(summaries[..|summaries| - 1]), summaries[|summaries| - 1])
  }

  lemma {:induction false} InsertMembers(summaries: seq<PackageSummary>, s: PackageSummary)
    ensures forall x :: x in InsertByName(summaries, s) <==> x == s || x in summaries
  {
    if summaries != [] && Less(s.Name(), summaries[|summaries| - 1].Name()) {
      assert summaries == summaries[..|summaries| - 1] + [summaries[|summaries| - 1]];
      InsertMembers(summaries[..|summaries| - 1], s);
    }
  }

  /** `x` belongs behind every summary of the list, and is about another package. */
  predicate Behind(summaries: seq<PackageSummary>, x: PackageSummary) {
    forall y :: y in summaries ==> !Less(x.Name(), y.Name()) && y.Package() != x.Package()
  }

  lemma AppendBehind(summaries: seq<PackageSummary>, x: PackageSummary)
    requires OnePerPackage(summaries) && ByName(summaries) && Behind(summaries, x)
    ensures OnePerPackage(summaries + [x]) && ByName(summaries + [x])
  {
  }

  lemma LastIsBehind(summaries: seq<PackageSummary>)
    requires OnePerPackage(summaries) && ByName(summaries) && summaries != []
    ensures Behind(summaries[..|summaries| - 1], summaries[|summaries| - 1])
  {
  }

  lemma NotLess(a: string, b: string, c: string)
    requires !Less(b, a) && !Less(c, b)
    ensures !Less(c, a)
  {
    LessTotal(a, b);
    if Less(c, a) && a != b { LessTransitive(c, a, b); }
  }

  lemma {:induction false} InsertKeepsOrder(summaries: seq<PackageSummary>, s: PackageSummary)
    requires OnePerPackage(summaries) && ByName(summaries) && forall y :: y in summaries ==> y.Package() != s.Package()
    ensures OnePerPackage(InsertByName(summaries, s)) && ByName(InsertByName(summaries, s))
  {
    if summaries == [] {
    } else if !Less(s.Name(), summaries[|summaries| - 1].Name()) {
      var last := summaries[|summaries| - 1];
      LastIsBehind(summaries);
      assert summaries == summaries[..|summaries| - 1] + [last];
      LessIrreflexive(last.Name());
      forall y | y in summaries ensures !Less(s.Name(), y.Name()) { NotLess(y.Name(), last.Name(), s.Name()); }
      AppendBehind(summaries, s);
    } else {
      var init, last := summaries[..|summaries| - 1], summaries[|summaries| - 1];
      assert forall y :: y in init ==> y in summaries;
      InsertKeepsOrder(init, s);
      InsertMembers(init, s);
      LastIsBehind(summaries);
      LessAsymmetric(s.Name(), last.Name());
      AppendBehind(InsertByName(init, s), last);
    }
  }

  lemma {:induction false} SortMembers(summaries: seq<PackageSummary>)
    ensures forall x :: x in SortByName(summaries) <==> x in summaries
  {
    if summaries != [] {
      assert summaries == summaries[..|summaries| - 1] + [summaries[|summaries| - 1]];
      SortMembers(summaries[..|summaries| - 1]);
      InsertMembers(SortByName(summaries[..|summaries| - 1]), summaries[|summaries| - 1]);
    }
  }

  lemma {:induction false} SortKeepsOrder(summaries: seq<PackageSummary>)
    requires OnePerPackage(summaries)
    ensures OnePerPackage(SortByName(summaries)) && ByName(SortByName(summaries))
  {
    if summaries != [] {
      var init := summaries[..|summaries| - 1];
      SortKeepsOrder(init);
      SortMembers(init);
      InsertKeepsOrder(SortByName(init), summaries[|summaries| - 1]);
    }
  }

  datatype Grouped = Grouped(versions: map<Key, set<string>>, groupPaths: map<Key, string>)

  /** The two dictionaries after the paths so far. */
  ghost predicate GroupedOk(paths: seq<string>, g: Grouped) {
    && g.versions.Keys == g.groupPaths.Keys
    && (forall key :: key in g.versions <==> VersionsOf(paths, key) != {})
    && forall key :: key in g.versions ==>
         g.versions[key] == VersionsOf(paths, key) && GroupPathOf(paths, key) == Some(g.groupPaths[key])
  }

  function GroupPath(g: Grouped, path: string): Grouped {
    match InferPackage(path)
    case None => g
    case Some(c) =>
      var key := KeyOf(c);
      var versions := if key in g.versions then g.versions[key] else {};
      Grouped(g.versions[key := versions + {c.version}], g.groupPaths[key := c.groupPath])
  }

  lemma GroupStep(paths: seq<string>, i: nat, g: Grouped)
    requires i < |paths| && GroupedOk(paths[..i], g)
    ensures GroupedOk(paths[..i + 1], GroupPath(g, paths[i]))
  {
    var more := paths[..i + 1];
    assert more[..|more| - 1] == paths[..i] && more[|more| - 1] == paths[i];
    var next := GroupPath(g, paths[i]);
    forall key
      ensures key in next.versions <==> VersionsOf(more, key) != {}
      ensures key in next.versions ==>
        next.versions[key] == VersionsOf(more, key) && GroupPathOf(more, key) == Some(next.groupPaths[key])
    {
      if HasKey(paths[i], key) {
        assert InferPackage(paths[i]).value.version in VersionsOf(more, key);
      }
    }
  }

  method GroupPaths(paths: seq<string>) returns (g: Grouped)
    ensures GroupedOk(paths, g)
  {
    g := Grouped(map[], map[]);
    var i := 0;
    while i < |paths|
      invariant 0 <= i <= |paths| && GroupedOk(paths[..i], g)
    {
      GroupStep(paths, i, g);
      g := GroupPath(g, paths[i]);
      i := i + 1;
    }
    assert paths[..|paths|] == paths;
  }

  lemma LookUp(paths: seq<string>, g: Grouped, key: Key)
    requires GroupedOk(paths, g) && key in g.versions
    ensures key in g.groupPaths && g.versions[key] == VersionsOf(paths, key) != {}
    ensures GroupPathOf(paths, key) == Some(g.groupPaths[key])
  {
  }

  function SummaryOf(repository: string, key: Key, groupPath: string, sorted: seq<string>): PackageSummary
    requires sorted != []
  {
    PackageSummary(repository, key.groupId, groupPath, key.artifactId, sorted[|sorted| - 1], |sorted|, sorted)
  }

  lemma SummaryFits(repository: string, paths: seq<string>, s: PackageSummary)
    requires s.repository == repository && GroupPathOf(paths, s.Package()) == Some(s.groupPath)
    requires SortedVersions(s.versions, VersionsOf(paths, s.Package()))
    requires s.latestVersion == s.versions[|s.versions| - 1] && s.versionCount == |s.versions|
    ensures SummaryOk(repository, paths, s)
  {
  }

  method SortNonempty(versions: set<string>) returns (sorted: seq<string>)
    requires versions != {}
    ensures SortedVersions(sorted, versions)
  {
    sorted := SortMavenVersions(versions);
    Nonempty(sorted, versions);
  }

  method Summarise(repository: string, ghost paths: seq<string>, g: Grouped, key: Key) returns (s: PackageSummary)
    requires GroupedOk(paths, g) && key in g.versions
    ensures SummaryOk(repository, paths, s) && s.Package() == key
  {
    LookUp(paths, g, key);
    var sorted := SortNonempty(g.versions[key]);
    s := SummaryOf(repository, key, g.groupPaths[key], sorted);
    assert s.Package() == key;
    SummaryFits(repository, paths, s);
  }

  method BuildPackageSummaries(repository: string, paths: seq<string>) returns (summaries: seq<PackageSummary>)
    ensures AreSummaries(repository, paths, summaries)
    ensures forall i, j :: 0 <= i < j < |summaries| ==>
              !Less(summaries[j].groupId + ":" + summaries[j].artifactId,
                    summaries[i].groupId + ":" + summaries[i].artifactId)
  {
    var g := GroupPaths(paths);
    var listed: seq<PackageSummary> := [];
    var rest := g.versions.Keys;
    while rest != {}
      invariant rest <= g.versions.Keys && OnePerPackage(listed)
      invariant forall s :: s in listed ==> SummaryOk(repository, paths, s) && s.Package() !in rest
      invariant forall key :: key in g.versions && key !in rest ==> Summarised(listed, key)
      decreases rest
    {
      var key :| key in rest;
      var s := Summarise(repository, paths, g, key);
      ListOneMore(listed, s);
      rest, listed := rest - {key}, listed + [s];
    }
    SortMembers(listed);
    SortKeepsOrder(listed);
    summaries := SortByName(listed);
    forall key | VersionsOf(paths, key) != {} ensures Summarised(summaries, key) {
      SameSummarised(listed, summaries, key);
    }
  }

  lemma ListOneMore(listed: seq<PackageSummary>, s: PackageSummary)
    requires OnePerPackage(listed) && forall y :: y in listed ==> y.Package() != s.Package()
    ensures OnePerPackage(listed + [s]) && Summarised(listed + [s], s.Package())
    ensures forall key :: Summarised(listed, key) ==> Summarised(listed + [s], key)
  {
    assert (listed + [s])[|listed|] == s;
    forall key | Summarised(listed, key) ensures Summarised(listed + [s], key) {
      var i :| 0 <= i < |listed| && listed[i].Package() == key;
      assert (listed + [s])[i] == listed[i];
    }
  }

  lemma SameSummarised(a: seq<PackageSummary>, b: seq<PackageSummary>, key: Key)
    requires Summarised(a, key) && forall x :: x in a ==> x in b
    ensures Summarised(b, key)
  {
    var i :| 0 <= i < |a| && a[i].Package() == key;
    assert a[i] in b;
    var j :| 0 <= j < |b| && b[j] == a[i];
  }
}
