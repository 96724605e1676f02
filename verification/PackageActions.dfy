/** Deleting a package or its versions by prefix (packvault/ui/package_actions.py and packvault/ui/artifacts.py). */
module PackageActions {
  import opened Basics
  import opened Text
  import opened FileTree
  import opened KeyWalk
  import opened LocalStore
  import opened PathValidation
  import opened Segments
  import opened Strings

  function TrimLeft(s: string): string {
    if s != "" && Space(s[0]) then TrimLeft(s[1..]) else s
  }

  function TrimRight(s: string): string {
    if s != "" && Space(s[|s| - 1]) then TrimRight(s[..|s| - 1]) else s
  }

  function NormalizeSearchPrefix(value: string): Result<string, PathError> {
    var normalized := StripSlashes(TrimRight(TrimLeft(value)));
    if normalized == "" then Ok("") else ValidateMavenPath(normalized)
  }

  lemma NormalizedIsCanonical(value: string)
    requires NormalizeSearchPrefix(value).Ok? && NormalizeSearchPrefix(value).value != ""
    ensures Canonical(NormalizeSearchPrefix(value).value)
  {
    ValidateIdempotent(StripSlashes(TrimRight(TrimLeft(value))));
  }

  lemma CanonicalEnds(path: string)
    requires Canonical(path)
    ensures path != "" && path[0] != '/' && path[|path| - 1] != '/' && !Space(path[0]) && !Space(path[|path| - 1])
    ensures ValidateMavenPath(path) == Ok(path) && StripRight(path) == path && StripLeft(path) == path
  {
    CanonicalChars(path);
    CanonicalAccepted(path);
    StripRightClean(path);
    PlainChar(path[0]);
    PlainChar(path[|path| - 1]);
  }

  lemma StripBehind(path: string)
    requires path != "" && path[0] != '/' && StripRight(path) == path
    ensures StripSlashes(path + "/") == path
  {
    assert (path + "/")[..|path|] == path;
  }

  lemma StripBefore(path: string)
    requires path != "" && StripLeft(path) == path && StripRight(path) == path
    ensures StripSlashes("/" + path) == path
  {
    assert ("/" + path)[1..] == path;
  }

  lemma TrimPlain(s: string)
    requires s != "" && !Space(s[0]) && !Space(s[|s| - 1])
    ensures TrimRight(TrimLeft(s)) == s
  {
  }

  /** A canonical path with a slash at neither, one or the other end is normalised to itself. */
  lemma NormalizeCanonical(path: string)
    requires Canonical(path)
    ensures NormalizeSearchPrefix(path) == Ok(path)
    ensures NormalizeSearchPrefix(path + "/") == Ok(path)
    ensures NormalizeSearchPrefix("/" + path) == Ok(path)
  {
    CanonicalEnds(path);
    PlainChar('/');
    TrimPlain(path);
    TrimPlain(path + "/");
    TrimPlain("/" + path);
    StripBehind(path);
    StripBefore(path);
  }

  lemma {:induction false} TrimLeftOf(front: string, rest: string)
    requires Blank(front) && (rest == "" || !Space(rest[0]))
    ensures TrimLeft(front + rest) == rest
  {
    if front == "" {
      assert front + rest == rest;
    } else {
      assert Space(front[0]);
      TrimLeftOf(front[1..], rest);
      assert (front + rest)[1..] == front[1..] + rest;
    }
  }

  lemma {:induction false} TrimRightOf(rest: string, back: string)
    requires Blank(back) && (rest == "" || !Space(rest[|rest| - 1]))
    ensures TrimRight(rest + back) == rest
  {
    if back == "" {
      assert rest + back == rest;
    } else {
      TrimRightOf(rest, back[..|back| - 1]);
      assert (rest + back)[..|rest + back| - 1] == rest + back[..|back| - 1];
    }
  }

  /** Trimming takes all white space at both ends and nothing else. */
  lemma TrimOf(front: string, core: string, back: string)
    requires Blank(front) && Blank(back) && (core == "" || (!Space(core[0]) && !Space(core[|core| - 1])))
    ensures TrimRight(TrimLeft(front + core + back)) == core
  {
    if core == "" {
      assert front + core + back == (front + back) + "";
      TrimLeftOf(front + back, "");
    } else {
      assert front + core + back == front + (core + back);
      TrimLeftOf(front, core + back);
      TrimRightOf(core, back);
    }
  }

  /** Blanks, tabs and line ends. */
  predicate Whitespace(s: string) {
    forall i :: 0 <= i < |s| ==> s[i] == ' ' || s[i] == '\t' || s[i] == '\n' || s[i] == '\r'
  }

  /** White space around a plain path, and slashes at its ends, do not count; and without a path nothing is left. */
  lemma NormalizeAround(front: string, before: string, path: string, behind: string, back: string)
    requires Whitespace(front) && Whitespace(back) && Slashes(before) && Slashes(behind)
    requires path == "" || PlainPath(path)
    ensures NormalizeSearchPrefix(front + (before + path + behind) + back) == Ok(path)
  {
    var core := before + path + behind;
    PlainChar('/');
    if path != "" {
      CanonicalIff(path);
      CanonicalEnds(path);
    }
    if core != "" { assert core[0] in before || core[0] == '/' || core[0] == path[0]; }
    CoreEnds(before, path, behind);
    TrimOf(front, core, back);
    StripSlashesOf(before, path, behind);
  }

  lemma CoreEnds(before: string, path: string, behind: string)
    requires Slashes(before) && Slashes(behind)
    requires path == "" || (!Space(path[0]) && !Space(path[|path| - 1]))
    ensures var core := before + path + behind; core == "" || (!Space(core[0]) && !Space(core[|core| - 1]))
  {
  }

  lemma {:induction false} TrimLeftFrom(s: string) returns (i: nat)
    ensures i <= |s| && Blank(s[..i]) && TrimLeft(s) == s[i..]
  {
    i := 0;
    if s != "" && Space(s[0]) {
      i := TrimLeftFrom(s[1..]);
      assert s[..i + 1] == [s[0]] + s[1..][..i] && s[i + 1..] == s[1..][i..];
      i := i + 1;
    }
  }

  lemma {:induction false} TrimRightTo(s: string) returns (j: nat)
    ensures j <= |s| && Blank(s[j..]) && TrimRight(s) == s[..j]
  {
    j := |s|;
    if s != "" && Space(s[|s| - 1]) {
      var init := s[..|s| - 1];
      j := TrimRightTo(init);
      assert s[j..] == init[j..] + [s[|s| - 1]] && s[..j] == init[..j];
    }
  }

  /** The text is white space around slashes. */
  ghost predicate IsNothing(value: string) {
    exists i, j :: 0 <= i <= j <= |value| && Blank(value[..i]) && Slashes(value[i..j]) && Blank(value[j..])
  }

  /** Exactly what normalises to nothing. */
  lemma NothingIff(value: string)
    ensures NormalizeSearchPrefix(value) == Ok("") <==> IsNothing(value)
  {
    if NormalizeSearchPrefix(value) == Ok("") {
      if ValidateMavenPath(StripSlashes(TrimRight(TrimLeft(value)))).Ok? {
        ValidateIdempotent(StripSlashes(TrimRight(TrimLeft(value))));
        CanonicalIff(ValidateMavenPath(StripSlashes(TrimRight(TrimLeft(value)))).value);
      }
      NothingParts(value);
    }
    if IsNothing(value) {
      var i, j :| 0 <= i <= j <= |value| && Blank(value[..i]) && Slashes(value[i..j]) && Blank(value[j..]);
      assert value == value[..i] + value[i..j] + value[j..];
      PlainChar('/');
      TrimOf(value[..i], value[i..j], value[j..]);
      assert value[i..j] == value[i..j] + "" + "";
      StripSlashesOf(value[i..j], "", "");
    }
  }

  lemma NothingParts(value: string)
    requires StripSlashes(TrimRight(TrimLeft(value))) == ""
    ensures IsNothing(value)
  {
    var i := TrimLeftFrom(value);
    var n := TrimRightTo(value[i..]);
    var core := value[i..][..n];
    StripRightPrefix(StripLeft(core));
    StrippedAllSlashes(core);
    assert value[i..i + n] == core && value[i + n..] == value[i..][n..];
  }

  lemma {:induction false} StrippedAllSlashes(s: string)
    requires StripSlashes(s) == ""
    ensures Slashes(s)
  {
    if s != "" && s[0] == '/' {
      StrippedAllSlashes(s[1..]);
    } else {
      StripRightPrefix(s);
    }
  }

  lemma JoinedCanonical(a: string, b: string)
    requires Canonical(a) && Canonical(b) && |a| + 1 + |b| <= MAX_LENGTH
    ensures Canonical(a + "/" + b)
  {
    SplitConcat(a, b, '/');
  }

  // ---------------------------------------------------------------------------------------------
  // What a deletion does to the tree.

  const MAX_DELETED: nat := MAX_DELETE_PAGES * FETCH_SIZE

  datatype Outcome = BadRequest | NothingFound | RemovalFailed | Removed(keys: seq<string>, prefix: string)

  datatype Deletion = Deletion(outcome: Outcome, tree: Tree)

  function Without(t: Tree, keys: seq<string>): Tree {
    t.(files := t.files - Elements(keys))
  }

  /** The keys that one walk collects: the first 50000 in order. */
  ghost function FirstKeys(t: Tree, prefix: string): seq<string> {
    SortedUnder(t, prefix)[..Smaller(|SortedUnder(t, prefix)|, MAX_DELETED)]
  }

  ghost function PrefixDeletion(t: Tree, repository: string, pathPrefix: string): Deletion {
    match NormalizeSearchPrefix(pathPrefix)
    case Err(_) => Deletion(BadRequest, t)
    case Ok(path) =>
      if path == "" then Deletion(BadRequest, t)
      else
        var keys := FirstKeys(t, BuildStorageKey(repository, path));
        if keys == [] then Deletion(NothingFound, t) else Deletion(Removed(keys, path), Without(t, keys))
  }

  ghost function VersionDeletion(t: Tree, repository: string, artifactPath: string, version: string): Deletion {
    match NormalizeSearchPrefix(artifactPath)
    case Err(_) => Deletion(BadRequest, t)
    case Ok(path) =>
      match NormalizeSearchPrefix(version)
      case Err(_) => Deletion(BadRequest, t)
      case Ok(name) =>
        if '/' in name then Deletion(BadRequest, t) else PrefixDeletion(t, repository, path + "/" + name)
  }

  /** The deletion when removing the file of key number `failAt` raises: the files before it are gone. */
  function Interrupted(t: Tree, d: Deletion, failAt: Option<nat>): Deletion {
    if failAt.Some? && d.outcome.Removed? && failAt.value < |d.outcome.keys|
    then Deletion(RemovalFailed, Without(t, d.outcome.keys[..failAt.value]))
    else d
  }

  /** Where the loop over the versions is: it stops at the first one that raises anything but not-found. */
  datatype Progress = Progress(tree: Tree, keys: seq<string>, stopped: Option<Outcome>)

  function AfterDeletion(before: Progress, d: Deletion): Progress {
    match d.outcome
    case NothingFound => before
    case Removed(keys, _) => Progress(d.tree, before.keys + keys, None)
    case _ => Progress(d.tree, before.keys, Some(d.outcome))
  }

  ghost function AfterVersion(before: Progress, repository: string, artifactPath: string, version: string,
                              failAt: Option<nat>): Progress {
    if before.stopped.Some? then before
    else
      var d := VersionDeletion(before.tree, repository, artifactPath, version);
      AfterDeletion(before, Interrupted(before.tree, d, failAt))
  }

  /** A removal that raises, by the number of the version and of its key. */
  type Fault = Option<(nat, nat)>

  function FaultIn(fault: Fault, version: nat): Option<nat> {
    if fault.Some? && fault.value.0 == version then Some(fault.value.1) else None
  }

  ghost function DeleteEach(t: Tree, repository: string, artifactPath: string, versions: seq<string>,
                            fault: Fault): Progress {
    if versions == [] then Progress(t, [], None)
    else
      var init, last := versions[..|versions| - 1], versions[|versions| - 1];
      var before := DeleteEach(t, repository, artifactPath, init, fault);
      AfterVersion(before, repository, artifactPath, last, FaultIn(fault, |init|))
  }

  ghost function VersionsDeletion(t: Tree, repository: string, artifactPath: string, versions: seq<string>,
                                  fault: Fault): Deletion {
    if versions == [] then Deletion(BadRequest, t)
    else
      match NormalizeSearchPrefix(artifactPath)
      case Err(_) => Deletion(BadRequest, t)
      case Ok(path) =>
        var p := DeleteEach(t, repository, path, versions, fault);
        if p.stopped.Some? then Deletion(p.stopped.value, p.tree)
        else Deletion(if p.keys == [] then NothingFound else Removed(p.keys, path), p.tree)
  }

  // ---------------------------------------------------------------------------------------------
  // What is refused, and where everything that is removed lies.

  /** A prefix that is no path, or nothing, is refused. */
  predicate NoPrefix(pathPrefix: string) {
    NormalizeSearchPrefix(pathPrefix).Err? || NormalizeSearchPrefix(pathPrefix) == Ok("")
  }

  lemma NoPrefixRefused(t: Tree, repository: string, pathPrefix: string)
    requires NoPrefix(pathPrefix)
    ensures PrefixDeletion(t, repository, pathPrefix) == Deletion(BadRequest, t)
  {
  }

  /** Nothing is added or changed, and what is gone was below the repository. */
  ghost predicate TakenBelow(before: Tree, after: Tree, repository: string) {
    && after.dirs == before.dirs
    && (forall key :: key in after.files ==> key in before.files && after.files[key] == before.files[key])
    && forall key :: key in before.files && key !in after.files ==> Ancestor(repository, key)
  }

  lemma KeyBelow(repository: string, path: string, key: string)
    requires Under(key, BuildStorageKey(repository, path))
    ensures Ancestor(repository, key)
  {
    var prefix := BuildStorageKey(repository, path);
    assert key[..|prefix|] == prefix;
    assert prefix[..|repository|] == repository;
    assert key[..|repository|] == key[..|prefix|][..|repository|];
  }

  lemma KeysBelow(t: Tree, repository: string, path: string, n: nat)
    requires n <= |FirstKeys(t, BuildStorageKey(repository, path))|
    ensures var keys := FirstKeys(t, BuildStorageKey(repository, path));
      TakenBelow(t, Without(t, keys[..n]), repository)
  {
    var keys := FirstKeys(t, BuildStorageKey(repository, path));
    FirstKeysStored(t, BuildStorageKey(repository, path));
    forall key | key in keys[..n] ensures Ancestor(repository, key) { KeyBelow(repository, path, key); }
  }

  lemma DeletionBelow(t: Tree, repository: string, pathPrefix: string, failAt: Option<nat>)
    ensures TakenBelow(t, Interrupted(t, PrefixDeletion(t, repository, pathPrefix), failAt).tree, repository)
  {
    var d := PrefixDeletion(t, repository, pathPrefix);
    if d.outcome.Removed? {
      var path, n := d.outcome.prefix, |d.outcome.keys|;
      assert d.outcome.keys[..n] == d.outcome.keys;
      KeysBelow(t, repository, path, n);
      if failAt.Some? && failAt.value < n { KeysBelow(t, repository, path, failAt.value); }
    }
  }

  lemma VersionBelow(t: Tree, repository: string, artifactPath: string, version: string, failAt: Option<nat>)
    ensures var d := VersionDeletion(t, repository, artifactPath, version);
      TakenBelow(t, Interrupted(t, d, failAt).tree, repository)
  {
    if NormalizeSearchPrefix(artifactPath).Ok? && NormalizeSearchPrefix(version).Ok? {
      var path, name := NormalizeSearchPrefix(artifactPath).value, NormalizeSearchPrefix(version).value;
      DeletionBelow(t, repository, path + "/" + name, failAt);
    }
  }

  lemma BelowTransitive(a: Tree, b: Tree, c: Tree, repository: string)
    requires TakenBelow(a, b, repository) && TakenBelow(b, c, repository)
    ensures TakenBelow(a, c, repository)
  {
  }

  /** Whether the loop goes on or stops, the tree is that of the deletion, or as before. */
  lemma AfterBelow(before: Progress, d: Deletion, repository: string)
    requires TakenBelow(before.tree, d.tree, repository)
    ensures TakenBelow(before.tree, AfterDeletion(before, d).tree, repository)
  {
  }

  lemma {:induction false} EachBelow(t: Tree, repository: string, artifactPath: string, versions: seq<string>,
                                     fault: Fault)
    ensures TakenBelow(t, DeleteEach(t, repository, artifactPath, versions, fault).tree, repository)
  {
    if versions != [] {
      var init, last := versions[..|versions| - 1], versions[|versions| - 1];
      EachBelow(t, repository, artifactPath, init, fault);
      var before := DeleteEach(t, repository, artifactPath, init, fault);
      var failAt := FaultIn(fault, |init|);
      var d := Interrupted(before.tree, VersionDeletion(before.tree, repository, artifactPath, last), failAt);
      VersionBelow(before.tree, repository, artifactPath, last, failAt);
      AfterBelow(before, d, repository);
      BelowTransitive(t, before.tree, DeleteEach(t, repository, artifactPath, versions, fault).tree, repository);
    }
  }

  lemma AllBelow(t: Tree, repository: string, artifactPath: string, versions: seq<string>, fault: Fault)
    ensures TakenBelow(t, VersionsDeletion(t, repository, artifactPath, versions, fault).tree, repository)
  {
    if NormalizeSearchPrefix(artifactPath).Ok? {
      EachBelow(t, repository, NormalizeSearchPrefix(artifactPath).value, versions, fault);
    }
  }

  // ---------------------------------------------------------------------------------------------
  // The operations.

  lemma NormalizedKeyIsClean(repository: string, pathPrefix: string)
    requires Clean(repository) && NormalizeSearchPrefix(pathPrefix).Ok? && NormalizeSearchPrefix(pathPrefix).value != ""
    ensures Clean(BuildStorageKey(repository, NormalizeSearchPrefix(pathPrefix).value))
  {
    NormalizedIsCanonical(pathPrefix);
    CanonicalChars(NormalizeSearchPrefix(pathPrefix).value);
    CleanJoined(repository, NormalizeSearchPrefix(pathPrefix).value);
  }

  /** All keys under a prefix of a store that stays as it is during the walk. */
  method CollectKeys(store: LocalStore, prefix: string) returns (keys: seq<string>)
    requires store.Valid() && Clean(prefix)
    ensures keys == FirstKeys(store.Contents(), prefix)
  {
    var views := seq(MAX_DELETE_PAGES, _ => store);
    keys := ListKeysUnderPrefix(views, prefix);
    PagingFixedStore(ContentsOf(views), store.Contents(), prefix);
  }

  lemma KeysStored(t: Tree, prefix: string, failAt: Option<nat>)
    ensures var keys := FirstKeys(t, prefix);
      failAt.Some? && failAt.value < |keys| ==>
        keys[failAt.value] in t.files && keys[failAt.value] !in keys[..failAt.value]
  {
    FirstKeysFacts(t, prefix);
    FirstKeysStored(t, prefix);
  }

  /** Removing the file of key number `failAt` raises, if there is one. */
  method DeleteArtifactPrefix(store: LocalStore, repository: string, pathPrefix: string, failAt: Option<nat>)
    returns (outcome: Outcome)
    requires store.Valid() && Clean(repository)
    modifies store
    ensures store.Valid()
    ensures var before := old(store.Contents());
      Deletion(outcome, store.Contents()) == Interrupted(before, PrefixDeletion(before, repository, pathPrefix), failAt)
    ensures NoPrefix(pathPrefix) ==> outcome == BadRequest && store.Contents() == old(store.Contents())
    ensures TakenBelow(old(store.Contents()), store.Contents(), repository)
  {
    ghost var before := store.Contents();
    DeletionBelow(before, repository, pathPrefix, failAt);
    var normalized := NormalizeSearchPrefix(pathPrefix);
    if normalized.Err? || normalized.value == "" { return BadRequest; }
    var prefix := BuildStorageKey(repository, normalized.value);
    NormalizedKeyIsClean(repository, pathPrefix);
    var keys := CollectKeys(store, prefix);
    if keys == [] { return NothingFound; }
    KeysStored(before, prefix, failAt);
    var ok, done := store.DeleteMany(keys, failAt);
    assert keys[..|keys|] == keys;
    assert store.Contents() == Without(before, keys[..done]);
    outcome := if ok then Removed(keys, normalized.value) else RemovalFailed;
  }

  /** The count that the view reports is the drop in stored files. */
  method DeleteUnderPrefix(store: LocalStore, repository: string, pathPrefix: string, failAt: Option<nat>)
    returns (outcome: Outcome, count: nat)
    requires store.Valid() && Clean(repository)
    modifies store
    ensures store.Valid()
    ensures var before := old(store.Contents());
      Deletion(outcome, store.Contents()) == Interrupted(before, PrefixDeletion(before, repository, pathPrefix), failAt)
    ensures NoPrefix(pathPrefix) ==> outcome == BadRequest && store.Contents() == old(store.Contents())
    ensures TakenBelow(old(store.Contents()), store.Contents(), repository)
    ensures outcome.Removed? ==> count == |old(store.files)| - |store.files|
  {
    ghost var before := store.Contents();
    outcome := DeleteArtifactPrefix(store, repository, pathPrefix, failAt);
    count := if outcome.Removed? then |outcome.keys| else 0;
    if outcome.Removed? {
      var prefix := BuildStorageKey(repository, NormalizeSearchPrefix(pathPrefix).value);
      FirstKeysFacts(before, prefix);
      FirstKeysStored(before, prefix);
      RemovedCount(before, outcome.keys);
    }
  }

  method DeleteArtifactVersion(store: LocalStore, repository: string, artifactPath: string, version: string,
                               failAt: Option<nat>)
    returns (outcome: Outcome)
    requires store.Valid() && Clean(repository)
    modifies store
    ensures store.Valid()
    ensures var before := old(store.Contents());
      Deletion(outcome, store.Contents()) ==
        Interrupted(before, VersionDeletion(before, repository, artifactPath, version), failAt)
    ensures NormalizeSearchPrefix(artifactPath).Err? || NormalizeSearchPrefix(version).Err? ||
            (NormalizeSearchPrefix(artifactPath) == Ok("") && NormalizeSearchPrefix(version) == Ok("")) ==>
              outcome == BadRequest && store.Contents() == old(store.Contents())
    ensures TakenBelow(old(store.Contents()), store.Contents(), repository)
  {
    NothingIsNothing();
    var path, name := NormalizeSearchPrefix(artifactPath), NormalizeSearchPrefix(version);
    if path.Err? || name.Err? || '/' in name.value { return BadRequest; }
    outcome := DeleteArtifactPrefix(store, repository, path.value + "/" + name.value, failAt);
  }

  method DeleteArtifactVersions(store: LocalStore, repository: string, artifactPath: string, versions: seq<string>,
                                fault: Fault)
    returns (outcome: Outcome)
    requires store.Valid() && Clean(repository)
    modifies store
    ensures store.Valid()
    ensures Deletion(outcome, store.Contents()) ==
            VersionsDeletion(old(store.Contents()), repository, artifactPath, versions, fault)
    ensures versions == [] || NormalizeSearchPrefix(artifactPath).Err? ==>
              outcome == BadRequest && store.Contents() == old(store.Contents())
    ensures TakenBelow(old(store.Contents()), store.Contents(), repository)
  {
    AllBelow(store.Contents(), repository, artifactPath, versions, fault);
    if versions == [] { return BadRequest; }
    var path := NormalizeSearchPrefix(artifactPath);
    if path.Err? { return BadRequest; }
    var deleted: seq<string> := [];
    var i: nat, stopped: Option<Outcome> := 0, None;
    while i < |versions| && stopped.None?
      invariant i <= |versions| && store.Valid()
      invariant Progress(store.Contents(), deleted, stopped) ==
                DeleteEach(old(store.Contents()), repository, path.value, versions[..i], fault)
    {
      assert versions[..i + 1][..i] == versions[..i];
      var result := DeleteArtifactVersion(store, repository, path.value, versions[i], FaultIn(fault, i));
      match result {
        case NothingFound =>
        case Removed(keys, _) => deleted := deleted + keys;
        case _ => stopped := Some(result);
      }
      i := i + 1;
    }
    StoppedStays(old(store.Contents()), repository, path.value, versions, i, fault);
    if stopped.Some? { return stopped.value; }
    if deleted == [] { return NothingFound; }
    outcome := Removed(deleted, path.value);
  }

  /** Once the loop has stopped, the rest of the list is not looked at. */
  lemma {:induction false} StoppedStays(t: Tree, repository: string, artifactPath: string, versions: seq<string>,
                                        i: nat, fault: Fault)
    requires i <= |versions|
    requires i == |versions| || DeleteEach(t, repository, artifactPath, versions[..i], fault).stopped.Some?
    ensures DeleteEach(t, repository, artifactPath, versions, fault) ==
            DeleteEach(t, repository, artifactPath, versions[..i], fault)
  {
    if i == |versions| {
      assert versions[..i] == versions;
    } else {
      assert versions[..|versions| - 1][..i] == versions[..i];
      StoppedStays(t, repository, artifactPath, versions[..|versions| - 1], i, fault);
    }
  }

  // ---------------------------------------------------------------------------------------------
  // What a prefix deletion removes.

  lemma TakenFirst(s: seq<string>, n: nat)
    requires StrictlySorted(s) && n <= |s|
    ensures Distinct(s[..n])
    ensures forall x, y :: x in s[..n] && y in s && y !in s[..n] ==> Less(x, y)
  {
    forall i, j | 0 <= i < j < |s| ensures s[i] != s[j] { LessIrreflexive(s[i]); }
    assert s == s[..n] + s[n..];
    forall x, y | x in s[..n] && y in s[n..] ensures Less(x, y) {
      var i :| 0 <= i < n && s[i] == x;
      var j :| 0 <= j < |s[n..]| && s[n..][j] == y;
      assert s[n + j] == y;
    }
  }

  lemma {:induction false} DistinctCount(keys: seq<string>)
    requires Distinct(keys)
    ensures |Elements(keys)| == |keys|
  {
    if keys != [] {
      var init, last := keys[..|keys| - 1], keys[|keys| - 1];
      DistinctCount(init);
      assert Elements(keys) == Elements(init) + {last};
    }
  }

  /** The keys of one walk: stored, under the prefix, each once, and before every key that is left out. */
  lemma FirstKeysFacts(t: Tree, prefix: string)
    ensures var keys := FirstKeys(t, prefix);
      && Distinct(keys) && |keys| == Smaller(|KeysUnder(t, prefix)|, 50000)
      && Elements(keys) <= KeysUnder(t, prefix)
      && forall x, y :: x in keys && y in KeysUnder(t, prefix) && y !in keys ==> Less(x, y)
  {
    TakenFirst(SortedUnder(t, prefix), |FirstKeys(t, prefix)|);
  }

  lemma SubsetOfSameSize<T>(a: set<T>, b: set<T>)
    requires a <= b && |a| == |b|
    ensures a == b
  {
    assert b == a + (b - a);
  }

  /** With at most 50000 keys under the prefix the walk collects them all, and only then. */
  lemma FirstKeysAll(t: Tree, prefix: string)
    ensures Elements(FirstKeys(t, prefix)) == KeysUnder(t, prefix) <==> |KeysUnder(t, prefix)| <= 50000
  {
    FirstKeysFacts(t, prefix);
    var keys := FirstKeys(t, prefix);
    DistinctCount(keys);
    if |keys| == |KeysUnder(t, prefix)| { SubsetOfSameSize(Elements(keys), KeysUnder(t, prefix)); }
  }

  lemma RemovedCount(t: Tree, keys: seq<string>)
    requires Distinct(keys) && forall key :: key in keys ==> key in t.files
    ensures |t.files| - |Without(t, keys).files| == |keys|
  {
    DistinctCount(keys);
    var gone := Elements(keys);
    assert Without(t, keys).files.Keys == t.files.Keys - gone;
    assert t.files.Keys == (t.files.Keys - gone) + gone;
    assert |t.files.Keys| == |t.files| && |Without(t, keys).files.Keys| == |Without(t, keys).files|;
  }

  /** For a canonical path, the deletion is about the keys under it. */
  lemma PrefixDeletionOf(t: Tree, repository: string, path: string)
    requires Canonical(path)
    ensures var keys := FirstKeys(t, BuildStorageKey(repository, path));
      PrefixDeletion(t, repository, path) ==
        if keys == [] then Deletion(NothingFound, t) else Deletion(Removed(keys, path), Without(t, keys))
  {
    NormalizeCanonical(path);
    CanonicalChars(path);
  }

  lemma NothingLeftIff(t: Tree, prefix: string)
    ensures KeysUnder(Without(t, FirstKeys(t, prefix)), prefix) == {} <==> |KeysUnder(t, prefix)| <= 50000
  {
    FirstKeysAll(t, prefix);
    FirstKeysFacts(t, prefix);
    assert KeysUnder(Without(t, FirstKeys(t, prefix)), prefix) == KeysUnder(t, prefix) - Elements(FirstKeys(t, prefix));
  }

  /**
    A prefix deletion that answers with keys removed exactly those: the first 50000 keys at or below the
    prefix, each counted once. It leaves nothing under the prefix exactly when there were no more.
  */
  lemma PrefixDeletionIsExact(t: Tree, repository: string, path: string)
    requires Canonical(path)
    ensures var d, prefix := PrefixDeletion(t, repository, path), BuildStorageKey(repository, path);
      if KeysUnder(t, prefix) == {} then d == Deletion(NothingFound, t)
      else
        && d.outcome == Removed(FirstKeys(t, prefix), path)
        && d.tree.dirs == t.dirs
        && |t.files| - |d.tree.files| == |d.outcome.keys| == Smaller(|KeysUnder(t, prefix)|, 50000)
        && (forall key :: key in t.files && !Under(key, prefix) ==>
              key in d.tree.files && d.tree.files[key] == t.files[key])
        && (KeysUnder(d.tree, prefix) == {} <==> |KeysUnder(t, prefix)| <= 50000)
  {
    var prefix := BuildStorageKey(repository, path);
    PrefixDeletionOf(t, repository, path);
    FirstKeysFacts(t, prefix);
    NothingLeftIff(t, prefix);
    FirstKeysStored(t, prefix);
    RemovedCount(t, FirstKeys(t, prefix));
  }

  lemma FirstKeysStored(t: Tree, prefix: string)
    ensures forall key :: key in FirstKeys(t, prefix) ==> key in t.files && Under(key, prefix)
  {
    FirstKeysFacts(t, prefix);
    forall key | key in FirstKeys(t, prefix) ensures key in t.files && Under(key, prefix) {
      assert key in Elements(FirstKeys(t, prefix));
    }
  }

  // ---------------------------------------------------------------------------------------------
  // What deleting versions removes.

  /** The path that the deletion of one version is about. */
  function Scope(path: string, name: string): string {
    if name == "" then path else if path == "" then name else path + "/" + name
  }

  /**
    Exactly what deleting one version deletes. A version that normalises to nothing stands for the whole
    artifact, and an artifact path that normalises to nothing makes the version a directory of the repository.
  */
  lemma VersionScope(t: Tree, repository: string, artifactPath: string, version: string, path: string, name: string)
    requires NormalizeSearchPrefix(artifactPath) == Ok(path) && NormalizeSearchPrefix(version) == Ok(name)
    ensures VersionDeletion(t, repository, artifactPath, version) ==
            if '/' in name then Deletion(BadRequest, t) else PrefixDeletion(t, repository, Scope(path, name))
  {
    if path != "" { NormalizedIsCanonical(artifactPath); }
    if name != "" { NormalizedIsCanonical(version); }
    ScopeNormalized(path, name);
    SamePrefixDeletion(t, repository, path + "/" + name, Scope(path, name));
  }

  lemma SamePrefixDeletion(t: Tree, repository: string, a: string, b: string)
    requires NormalizeSearchPrefix(a) == NormalizeSearchPrefix(b)
    ensures PrefixDeletion(t, repository, a) == PrefixDeletion(t, repository, b)
  {
  }

  lemma ScopeNormalized(path: string, name: string)
    requires (path == "" || Canonical(path)) && (name == "" || Canonical(name))
    ensures NormalizeSearchPrefix(path + "/" + name) == NormalizeSearchPrefix(Scope(path, name))
  {
    if path == "" && name == "" {
      NothingIsNothing();
    } else if name == "" {
      SlashBehind(path, path + "/" + name);
    } else if path == "" {
      SlashBefore(name, path + "/" + name);
    }
  }

  lemma SlashBehind(path: string, joined: string)
    requires Canonical(path) && joined == path + "/"
    ensures NormalizeSearchPrefix(joined) == NormalizeSearchPrefix(path)
  {
    NormalizeCanonical(path);
  }

  lemma SlashBefore(name: string, joined: string)
    requires Canonical(name) && joined == "/" + name
    ensures NormalizeSearchPrefix(joined) == NormalizeSearchPrefix(name)
  {
    NormalizeCanonical(name);
  }

  /** A version whose path is too long to be a path is refused. */
  lemma TooLongIsRefused(t: Tree, repository: string, artifactPath: string, version: string, path: string, name: string)
    requires NormalizeSearchPrefix(artifactPath) == Ok(path) && NormalizeSearchPrefix(version) == Ok(name)
    requires path != "" && name != "" && |path| + 1 + |name| > MAX_LENGTH
    ensures VersionDeletion(t, repository, artifactPath, version) == Deletion(BadRequest, t)
  {
    NormalizedIsCanonical(artifactPath);
    NormalizedIsCanonical(version);
    CanonicalEnds(path);
    CanonicalEnds(name);
    JoinedEnds(path, name);
    TrimPlain(path + "/" + name);
  }

  lemma JoinedEnds(a: string, b: string)
    requires a != "" && a[0] != '/' && b != "" && b[|b| - 1] != '/'
    ensures StripSlashes(a + "/" + b) == a + "/" + b
  {
    StripRightClean(a + "/" + b);
  }

  /** Selecting the empty version deletes the whole artifact. */
  lemma EmptyVersionTakesArtifact(t: Tree, repository: string, path: string)
    requires Canonical(path)
    ensures VersionDeletion(t, repository, path, "") == PrefixDeletion(t, repository, path)
  {
    NormalizeCanonical(path);
    NothingIsNothing();
    VersionScope(t, repository, path, "", path, "");
  }

  lemma NothingIsNothing()
    ensures NormalizeSearchPrefix("/") == Ok("") && NormalizeSearchPrefix("") == Ok("")
  {
    assert "/"[1..] == "";
  }

  /** The version is one segment, and its path is short enough to be a path. */
  predicate Selects(path: string, version: string) {
    var name := NormalizeSearchPrefix(version);
    name.Ok? && name.value != "" && '/' !in name.value && |path| + 1 + |name.value| <= MAX_LENGTH
  }

  function VersionPrefix(repository: string, path: string, version: string): string
    requires Selects(path, version)
  {
    BuildStorageKey(repository, path + "/" + NormalizeSearchPrefix(version).value)
  }

  predicate AllSelect(path: string, versions: seq<string>) {
    forall i :: 0 <= i < |versions| ==> Selects(path, versions[i])
  }

  /** The stored keys under the selected versions. */
  function Chosen(t: Tree, repository: string, path: string, versions: seq<string>): set<string>
    requires AllSelect(path, versions)
  {
    if versions == [] then {}
    else
      var init, last := versions[..|versions| - 1], versions[|versions| - 1];
      Chosen(t, repository, path, init) + KeysUnder(t, VersionPrefix(repository, path, last))
  }

  lemma {:induction false} ChosenHas(t: Tree, repository: string, path: string, versions: seq<string>, i: nat)
    requires AllSelect(path, versions) && i < |versions|
    ensures KeysUnder(t, VersionPrefix(repository, path, versions[i])) <= Chosen(t, repository, path, versions)
  {
    var init := versions[..|versions| - 1];
    if i < |init| {
      assert init[i] == versions[i];
      ChosenHas(t, repository, path, init, i);
    }
  }

  lemma {:induction false} ChosenFrom(t: Tree, repository: string, path: string, versions: seq<string>, key: string)
      returns (i: nat)
    requires AllSelect(path, versions) && key in Chosen(t, repository, path, versions)
    ensures i < |versions| && key in KeysUnder(t, VersionPrefix(repository, path, versions[i]))
  {
    var init := versions[..|versions| - 1];
    i := |init|;
    if key in Chosen(t, repository, path, init) {
      i := ChosenFrom(t, repository, path, init, key);
      assert init[i] == versions[i];
    }
  }

  /** A key is chosen exactly when it is stored under one of the versions. */
  lemma ChosenIff(t: Tree, repository: string, path: string, versions: seq<string>, key: string)
    requires AllSelect(path, versions)
    ensures key in Chosen(t, repository, path, versions) <==>
            exists i :: 0 <= i < |versions| && key in KeysUnder(t, VersionPrefix(repository, path, versions[i]))
  {
    if key in Chosen(t, repository, path, versions) {
      var i := ChosenFrom(t, repository, path, versions, key);
    }
    if i :| 0 <= i < |versions| && key in KeysUnder(t, VersionPrefix(repository, path, versions[i])) {
      ChosenHas(t, repository, path, versions, i);
    }
  }

  /** No version has more keys than one walk collects. */
  predicate WithinLimit(t: Tree, repository: string, path: string, versions: seq<string>)
    requires AllSelect(path, versions)
  {
    forall i :: 0 <= i < |versions| ==> |KeysUnder(t, VersionPrefix(repository, path, versions[i]))| <= 50000
  }

  /** The loop removed exactly the chosen keys and collected each once. */
  ghost predicate Cleared(t: Tree, chosen: set<string>, p: Progress) {
    && p.stopped.None? && p.tree.dirs == t.dirs && p.tree.files == t.files - chosen
    && Distinct(p.keys) && Elements(p.keys) == chosen && chosen <= t.files.Keys
  }

  lemma ConcatDistinct(a: seq<string>, b: seq<string>)
    requires Distinct(a) && Distinct(b) && forall x :: x in a ==> x !in b
    ensures Distinct(a + b)
    ensures Elements(a + b) == Elements(a) + Elements(b)
  {
    forall i, j | 0 <= i < j < |a + b| ensures (a + b)[i] != (a + b)[j] {
      if i < |a| <= j { assert a[i] in a && b[j - |a|] in b; }
    }
  }

  /** Deleting one selected version takes what is left under it. */
  lemma VersionDeletionOf(t: Tree, repository: string, path: string, version: string)
    requires Canonical(path) && Selects(path, version)
    ensures var keys := FirstKeys(t, VersionPrefix(repository, path, version));
      VersionDeletion(t, repository, path, version) ==
        if keys == [] then Deletion(NothingFound, t)
        else Deletion(Removed(keys, path + "/" + NormalizeSearchPrefix(version).value), Without(t, keys))
  {
    var name := NormalizeSearchPrefix(version).value;
    NormalizeCanonical(path);
    CanonicalChars(path);
    VersionScope(t, repository, path, version, path, name);
    NormalizedIsCanonical(version);
    JoinedCanonical(path, name);
    PrefixDeletionOf(t, repository, path + "/" + name);
  }

  /** What is left under a prefix after other keys are gone. */
  lemma FirstKeysLeft(t: Tree, rest: Tree, chosen: set<string>, prefix: string)
    requires rest.files == t.files - chosen && |KeysUnder(t, prefix)| <= 50000
    ensures Distinct(FirstKeys(rest, prefix)) && Elements(FirstKeys(rest, prefix)) == KeysUnder(t, prefix) - chosen
  {
    assert KeysUnder(rest, prefix) == KeysUnder(t, prefix) - chosen;
    SubsetCount(KeysUnder(rest, prefix), KeysUnder(t, prefix));
    FirstKeysAll(rest, prefix);
    FirstKeysFacts(rest, prefix);
  }

  lemma ClearedWith(t: Tree, chosen: set<string>, p: Progress, under: set<string>, keys: seq<string>)
    requires Cleared(t, chosen, p) && under <= t.files.Keys
    requires Distinct(keys) && Elements(keys) == under - chosen
    ensures Cleared(t, chosen + under, Progress(Without(p.tree, keys), p.keys + keys, None))
  {
    forall x | x in p.keys ensures x !in keys {
      assert x in Elements(p.keys);
      assert x in keys ==> x in Elements(keys);
    }
    ConcatDistinct(p.keys, keys);
    assert Elements(p.keys + keys) == chosen + under;
    assert t.files - chosen - (under - chosen) == t.files - (chosen + under);
  }

  lemma WithoutNothing(p: Progress)
    ensures p.keys + [] == p.keys && Without(p.tree, []) == p.tree
  {
    assert p.tree.files - Elements([]) == p.tree.files;
  }

  /** One turn of the loop for a selected version, with a removal that may raise. */
  lemma AfterSelected(p: Progress, repository: string, path: string, version: string, failAt: Option<nat>)
    requires p.stopped.None? && Canonical(path) && Selects(path, version)
    ensures var keys := FirstKeys(p.tree, VersionPrefix(repository, path, version));
      AfterVersion(p, repository, path, version, failAt) ==
        if failAt.Some? && failAt.value < |keys|
        then Progress(Without(p.tree, keys[..failAt.value]), p.keys, Some(RemovalFailed))
        else if keys == [] then p
        else Progress(Without(p.tree, keys), p.keys + keys, None)
  {
    VersionDeletionOf(p.tree, repository, path, version);
    AfterKeys(p, VersionDeletion(p.tree, repository, path, version),
              FirstKeys(p.tree, VersionPrefix(repository, path, version)), failAt);
  }

  lemma AfterKeys(p: Progress, d: Deletion, keys: seq<string>, failAt: Option<nat>)
    requires keys == [] ==> d == Deletion(NothingFound, p.tree)
    requires keys != [] ==> d.outcome.Removed? && d == Deletion(Removed(keys, d.outcome.prefix), Without(p.tree, keys))
    ensures AfterDeletion(p, Interrupted(p.tree, d, failAt)) ==
            if failAt.Some? && failAt.value < |keys|
            then Progress(Without(p.tree, keys[..failAt.value]), p.keys, Some(RemovalFailed))
            else if keys == [] then p
            else Progress(Without(p.tree, keys), p.keys + keys, None)
  {
  }

  /** One more version: the keys under it that are still there go. */
  lemma ClearedMore(t: Tree, chosen: set<string>, p: Progress, repository: string, path: string, version: string)
    requires Cleared(t, chosen, p) && Canonical(path) && Selects(path, version)
    requires |KeysUnder(t, VersionPrefix(repository, path, version))| <= 50000
    ensures Cleared(t, chosen + KeysUnder(t, VersionPrefix(repository, path, version)),
                    AfterVersion(p, repository, path, version, None))
  {
    var prefix := VersionPrefix(repository, path, version);
    AfterSelected(p, repository, path, version, None);
    FirstKeysLeft(t, p.tree, chosen, prefix);
    ClearedWith(t, chosen, p, KeysUnder(t, prefix), FirstKeys(p.tree, prefix));
    WithoutNothing(p);
  }

  lemma SubsetCount<T>(a: set<T>, b: set<T>)
    requires a <= b
    ensures |a| <= |b|
  {
    assert b == a + (b - a);
  }

  lemma {:induction false} EachIsCleared(t: Tree, repository: string, path: string, versions: seq<string>)
    requires Canonical(path) && AllSelect(path, versions) && WithinLimit(t, repository, path, versions)
    ensures Cleared(t, Chosen(t, repository, path, versions), DeleteEach(t, repository, path, versions, None))
  {
    if versions == [] {
      assert Chosen(t, repository, path, versions) == {};
      assert t.files - {} == t.files;
    } else {
      var init, last := versions[..|versions| - 1], versions[|versions| - 1];
      EachIsCleared(t, repository, path, init);
      var before := DeleteEach(t, repository, path, init, None);
      ClearedMore(t, Chosen(t, repository, path, init), before, repository, path, last);
    }
  }

  /**
    Deleting a list of versions removes precisely the keys under the selected versions, no others, and
    reports each of them once, so that the count is the drop in stored keys.
  */
  lemma DeleteVersionsIsExact(t: Tree, repository: string, artifactPath: string, path: string, versions: seq<string>)
    requires versions != [] && NormalizeSearchPrefix(artifactPath) == Ok(path) && path != ""
    requires AllSelect(path, versions) && WithinLimit(t, repository, path, versions)
    ensures var d := VersionsDeletion(t, repository, artifactPath, versions, None);
      var chosen := Chosen(t, repository, path, versions);
      && d.tree.dirs == t.dirs && d.tree.files == t.files - chosen
      && (if chosen == {} then d.outcome == NothingFound
          else d.outcome.Removed? && d.outcome.prefix == path && Distinct(d.outcome.keys)
               && Elements(d.outcome.keys) == chosen && |d.outcome.keys| == |t.files| - |d.tree.files|)
  {
    NormalizedIsCanonical(artifactPath);
    EachIsCleared(t, repository, path, versions);
    var p := DeleteEach(t, repository, path, versions, None);
    RemovedCount(t, p.keys);
    assert p.keys != [] ==> p.keys[0] in Elements(p.keys);
    assert Without(t, p.keys).files == p.tree.files;
  }

  /** Repeating, reordering or adding versions without files does not change what is deleted. */
  lemma SelectionIsASet(t: Tree, repository: string, path: string, some: seq<string>, others: seq<string>)
    requires AllSelect(path, some) && AllSelect(path, others)
    requires forall v :: v in some && KeysUnder(t, VersionPrefix(repository, path, v)) != {} ==> v in others
    requires forall v :: v in others && KeysUnder(t, VersionPrefix(repository, path, v)) != {} ==> v in some
    ensures Chosen(t, repository, path, some) == Chosen(t, repository, path, others)
  {
    ChosenWithin(t, repository, path, some, others);
    ChosenWithin(t, repository, path, others, some);
  }

  lemma ChosenWithin(t: Tree, repository: string, path: string, some: seq<string>, others: seq<string>)
    requires AllSelect(path, some) && AllSelect(path, others)
    requires forall v :: v in some && KeysUnder(t, VersionPrefix(repository, path, v)) != {} ==> v in others
    ensures Chosen(t, repository, path, some) <= Chosen(t, repository, path, others)
  {
    forall key | key in Chosen(t, repository, path, some) ensures key in Chosen(t, repository, path, others) {
      var i := ChosenFrom(t, repository, path, some, key);
      assert some[i] in some;
      var j :| 0 <= j < |others| && others[j] == some[i];
      ChosenHas(t, repository, path, others, j);
    }
  }

  /** The keys under a version are those with the segments of repository, artifact and version in front. */
  lemma VersionKeysSegmentwise(t: Tree, repository: string, path: string, version: string, key: string)
    requires ValidRepositoryName(repository) && Canonical(path) && Selects(path, version)
    ensures key in KeysUnder(t, VersionPrefix(repository, path, version)) <==>
            && key in t.files
            && [repository] + Split(path, '/') + [NormalizeSearchPrefix(version).value] <= Split(key, '/')
  {
    var name := NormalizeSearchPrefix(version).value;
    KeySegments(repository, path + "/" + name);
    SplitConcat(path, name, '/');
    SplitWhole(name, '/');
    UnderIsSegmentwise(key, VersionPrefix(repository, path, version));
    assert [repository] + (Split(path, '/') + [name]) == [repository] + Split(path, '/') + [name];
  }

  /** A refused version is reported only after the versions before it are gone. */
  lemma RefusedAfterDeleting(t: Tree, repository: string, path: string, before: seq<string>, bad: string,
                             rest: seq<string>)
    requires Canonical(path) && AllSelect(path, before) && WithinLimit(t, repository, path, before)
    requires NormalizeSearchPrefix(bad).Err? || '/' in NormalizeSearchPrefix(bad).value
    ensures var d := VersionsDeletion(t, repository, path, before + [bad] + rest, None);
      d.outcome == BadRequest && d.tree.files == t.files - Chosen(t, repository, path, before)
  {
    var versions, n := before + [bad] + rest, |before|;
    NormalizeCanonical(path);
    EachIsCleared(t, repository, path, before);
    assert versions[..n + 1] == before + [bad];
    assert versions[..n + 1][..n] == before;
    StoppedStays(t, repository, path, versions, n + 1, None);
  }

  // ---------------------------------------------------------------------------------------------
  // A removal that raises.

  /** Up to the version in which a removal raises, the loop runs as without the fault. */
  lemma {:induction false} NoFaultYet(t: Tree, repository: string, path: string, versions: seq<string>, i: nat, j: nat)
    requires |versions| <= i
    ensures DeleteEach(t, repository, path, versions, Some((i, j))) == DeleteEach(t, repository, path, versions, None)
  {
    if versions != [] { NoFaultYet(t, repository, path, versions[..|versions| - 1], i, j); }
  }

  /** The keys of the version that are still there when the loop comes to it, in the order in which they are removed. */
  ghost function Remaining(t: Tree, repository: string, path: string, versions: seq<string>, i: nat): seq<string>
    requires i < |versions| && AllSelect(path, versions)
  {
    FirstKeys(DeleteEach(t, repository, path, versions[..i], None).tree, VersionPrefix(repository, path, versions[i]))
  }

  /** The loop at the version whose removal raises. */
  lemma FaultReached(t: Tree, repository: string, path: string, versions: seq<string>, i: nat, j: nat)
    requires Canonical(path) && AllSelect(path, versions) && WithinLimit(t, repository, path, versions)
    requires i < |versions| && j < |Remaining(t, repository, path, versions, i)|
    ensures var before := DeleteEach(t, repository, path, versions[..i], None);
      var gone := Remaining(t, repository, path, versions, i)[..j];
      DeleteEach(t, repository, path, versions[..i + 1], Some((i, j))) ==
        Progress(Without(before.tree, gone), before.keys, Some(RemovalFailed))
  {
    var before := DeleteEach(t, repository, path, versions[..i], None);
    EachIsCleared(t, repository, path, versions[..i]);
    NoFaultYet(t, repository, path, versions[..i], i, j);
    assert versions[..i + 1][..i] == versions[..i];
    AfterSelected(before, repository, path, versions[i], Some(j));
  }

  /** The loop when the removal raises. */
  lemma StopsAtFault(t: Tree, repository: string, path: string, versions: seq<string>, i: nat, j: nat)
    requires Canonical(path) && AllSelect(path, versions) && WithinLimit(t, repository, path, versions)
    requires i < |versions| && j < |Remaining(t, repository, path, versions, i)|
    ensures var before := DeleteEach(t, repository, path, versions[..i], None);
      var gone := Remaining(t, repository, path, versions, i)[..j];
      DeleteEach(t, repository, path, versions, Some((i, j))) ==
        Progress(Without(before.tree, gone), before.keys, Some(RemovalFailed))
  {
    FaultReached(t, repository, path, versions, i, j);
    StoppedStays(t, repository, path, versions, i + 1, Some((i, j)));
  }

  lemma StoppedDeletion(t: Tree, repository: string, path: string, versions: seq<string>, fault: Fault)
    requires Canonical(path) && versions != [] && DeleteEach(t, repository, path, versions, fault).stopped.Some?
    ensures var p := DeleteEach(t, repository, path, versions, fault);
      VersionsDeletion(t, repository, path, versions, fault) == Deletion(p.stopped.value, p.tree)
  {
    NormalizeCanonical(path);
  }

  /**
    A removal that raises is answered as unavailable: exactly the keys of the versions before it are gone, and of
    its own version exactly the remaining keys before it.
  */
  lemma InterruptedVersions(t: Tree, repository: string, path: string, versions: seq<string>, i: nat, j: nat)
    requires Canonical(path) && AllSelect(path, versions) && WithinLimit(t, repository, path, versions)
    requires i < |versions| && j < |Remaining(t, repository, path, versions, i)|
    ensures var d := VersionsDeletion(t, repository, path, versions, Some((i, j)));
      var keys := Remaining(t, repository, path, versions, i);
      && d.outcome == RemovalFailed
      && d.tree.files == t.files - Chosen(t, repository, path, versions[..i]) - Elements(keys[..j])
      && Distinct(keys)
      && Elements(keys) ==
           KeysUnder(t, VersionPrefix(repository, path, versions[i])) - Chosen(t, repository, path, versions[..i])
  {
    StopsAtFault(t, repository, path, versions, i, j);
    StoppedDeletion(t, repository, path, versions, Some((i, j)));
    EachIsCleared(t, repository, path, versions[..i]);
    FirstKeysLeft(t, DeleteEach(t, repository, path, versions[..i], None).tree,
                  Chosen(t, repository, path, versions[..i]), VersionPrefix(repository, path, versions[i]));
  }
}
