/** The cumulative paths of the browse view (packvault/ui/artifacts.py, `breadcrumb_segments`). */
module Breadcrumbs {
  import opened Basics
  import opened Segments
  import opened PathValidation

  function JoinArtifactPath(prefix: string, segment: string): Result<string, PathError> {
    ValidateMavenPath(if prefix != "" then prefix + "/" + segment else segment)
  }

  /** Everything before the last slash; nothing when there is none. */
  function ParentArtifactPrefix(path: string): string {
    if path == "" then ""
    else if path[|path| - 1] == '/' then path[..|path| - 1]
    else ParentArtifactPrefix(path[..|path| - 1])
  }

  datatype Crumb = Crumb(name: string, prefix: string)

  /** The first `n` segments of a path. */
  function Leading(path: string, n: nat): string
    requires n <= |Split(path, '/')|
  {
    Join(Split(path, '/')[..n], '/')
  }

  lemma {:induction false} ParentOfJoined(a: string, b: string)
    requires '/' !in b
    ensures ParentArtifactPrefix(a + ['/'] + b) == a
  {
    var s := a + ['/'] + b;
    if b == "" {
      assert s[..|s| - 1] == a;
    } else {
      ParentOfJoined(a, b[..|b| - 1]);
      assert s[..|s| - 1] == a + ['/'] + b[..|b| - 1];
    }
  }

  lemma {:induction false} ParentOfSegment(s: string)
    requires '/' !in s
    ensures ParentArtifactPrefix(s) == ""
  {
    if s != "" { ParentOfSegment(s[..|s| - 1]); }
  }

  lemma {:induction false} JoinGrows(parts: seq<string>)
    ensures |Join(parts[..|parts|], '/')| == |Join(parts, '/')|
    ensures forall n :: 0 < n <= |parts| ==> |Join(parts[..n], '/')| <= |Join(parts, '/')|
  {
    assert parts[..|parts|] == parts;
    forall n | 0 < n < |parts| ensures |Join(parts[..n], '/')| <= |Join(parts, '/')| {
      assert parts == parts[..n] + parts[n..];
      JoinConcat(parts[..n], parts[n..], '/');
    }
  }

  /** The leading segments of a canonical path make a canonical path. */
  lemma LeadingCanonical(path: string, n: nat)
    requires Canonical(path) && 0 < n <= |Split(path, '/')|
    ensures Canonical(Leading(path, n)) && Split(Leading(path, n), '/') == Split(path, '/')[..n]
  {
    var parts := Split(path, '/');
    SplitHasNoSeparator(path, '/');
    SplitJoin(parts[..n], '/');
    JoinSplit(path, '/');
    JoinGrows(parts);
  }

  /** One more segment: the joined path is accepted as it is, and its parent is the path before. */
  lemma LeadingStep(path: string, n: nat)
    requires Canonical(path) && 0 < n < |Split(path, '/')|
    ensures Leading(path, n + 1) == Leading(path, n) + "/" + Split(path, '/')[n]
    ensures Leading(path, n) != "" && JoinArtifactPath(Leading(path, n), Split(path, '/')[n]) ==
        Ok(Leading(path, n + 1))
    ensures ParentArtifactPrefix(Leading(path, n + 1)) == Leading(path, n)
  {
    var parts := Split(path, '/');
    SplitHasNoSeparator(path, '/');
    assert parts[..n + 1] == parts[..n] + [parts[n]];
    JoinConcat(parts[..n], [parts[n]], '/');
    LeadingCanonical(path, n);
    LeadingCanonical(path, n + 1);
    CanonicalChars(Leading(path, n));
    CanonicalAccepted(Leading(path, n + 1));
    ParentOfJoined(Leading(path, n), parts[n]);
  }

  /**
    The breadcrumbs of a canonical path are its leading paths in order: each is canonical, each is
    the parent of the next, the first has no parent, and the last is the path itself.
  */
  lemma BreadcrumbsFormChain(path: string, n: nat)
    requires Canonical(path) && 0 < n <= |Split(path, '/')|
    ensures Canonical(Leading(path, n))
    ensures ParentArtifactPrefix(Leading(path, n)) == if n == 1 then "" else Leading(path, n - 1)
    ensures Leading(path, |Split(path, '/')|) == path
  {
    var parts := Split(path, '/');
    LeadingCanonical(path, n);
    JoinSplit(path, '/');
    assert parts[..|parts|] == parts;
    if n == 1 {
      SplitHasNoSeparator(path, '/');
      assert Leading(path, 1) == parts[0];
      ParentOfSegment(parts[0]);
    } else {
      LeadingStep(path, n - 1);
    }
  }

  function NextPath(current: string, part: string): Result<string, PathError> {
    if current != "" then JoinArtifactPath(current, part) else Ok(part)
  }

  function PathBefore(path: string, i: nat): string
    requires i <= |Split(path, '/')|
  {
    if i == 0 then "" else Leading(path, i)
  }

  lemma NextPathLeads(path: string, i: nat)
    requires Canonical(path) && i < |Split(path, '/')|
    ensures NextPath(PathBefore(path, i), Split(path, '/')[i]) == Ok(PathBefore(path, i + 1))
  {
    if i == 0 {
      assert Split(path, '/')[..1] == [Split(path, '/')[0]];
    } else {
      LeadingStep(path, i);
    }
  }

  ghost predicate Leads(path: string, current: string, i: nat) {
    Canonical(path) ==> i <= |Split(path, '/')| && current == PathBefore(path, i)
  }

  method NextCrumb(ghost path: string, current: string, part: string, ghost i: nat)
    returns (next: Result<string, PathError>)
    requires i < |Split(path, '/')| && part == Split(path, '/')[i] && Leads(path, current, i)
    ensures Canonical(path) ==> next.Ok?
    ensures next.Ok? ==> Leads(path, next.value, i + 1) && (current != "" ==> Canonical(next.value))
  {
    if Canonical(path) { NextPathLeads(path, i); }
    next := NextPath(current, part);
    if current != "" && next.Ok? { ValidateIdempotent(current + "/" + part); }
  }

  method BreadcrumbSegments(path: string) returns (crumbs: Result<seq<Crumb>, PathError>)
    ensures path == "" ==> crumbs == Ok([])
    ensures Canonical(path) ==> crumbs.Ok? && |crumbs.value| == |Split(path, '/')|
    ensures Canonical(path) ==> forall i :: 0 <= i < |crumbs.value| ==>
              crumbs.value[i] == Crumb(Split(path, '/')[i], PathBefore(path, i + 1))
    ensures crumbs.Ok? ==> forall i :: 0 < i < |crumbs.value| && crumbs.value[i - 1].prefix != "" ==>
              Canonical(crumbs.value[i].prefix)
  {
    if path == "" {
      assert !GoodSegment(Split(path, '/')[0]);
      return Ok([]);
    }
    var parts := Split(path, '/');
    var segments: seq<Crumb> := [];
    var current := "";
    var i := 0;
    while i < |parts|
      invariant 0 <= i <= |parts| && |segments| == i
      invariant Leads(path, current, i)
      invariant forall k :: 0 <= k < i ==> segments[k].name == parts[k] && Leads(path, segments[k].prefix, k + 1)
      invariant current == if i == 0 then "" else segments[i - 1].prefix
      invariant forall k :: 0 < k < i && segments[k - 1].prefix != "" ==> Canonical(segments[k].prefix)
    {
      var next := NextCrumb(path, current, parts[i], i);
      if next.Err? { return Err(next.error); }
      current := next.value;
      segments, i := segments + [Crumb(parts[i], current)], i + 1;
    }
    crumbs := Ok(segments);
  }
}
