/**
  The flat listing that filters hidden files and resumes mid-page (packvault/ui/artifacts.py,
  `list_artifacts_for_ui`).
*/
module UiListing {
  import opened Basics
  import opened CachePolicy
  import opened Segments
  import opened Text
  import opened Strings
  import opened FileTree
  import opened LocalStore
  import opened PathValidation
  import KeyWalk

  const MAX_STORAGE_PAGES: nat := 20

  predicate IsChecksumPath(path: string) {
    var lower := Lower(path);
    EndsWith(lower, ".md5") || EndsWith(lower, ".sha1") || EndsWith(lower, ".sha256") || EndsWith(lower, ".sha512")
  }

  predicate IsHiddenArtifactPath(path: string) {
    Lower(LastSegment(path)) == "maven-metadata.xml" || EndsWith(Lower(path), ".asc") || IsChecksumPath(path)
  }

  /** The text ends in the lower-case word, in any case. */
  predicate EndsReading(s: string, word: string) {
    |word| <= |s| && ReadsAs(s[|s| - |word|..], word)
  }

  lemma EndsLower(s: string, word: string)
    requires forall i :: 0 <= i < |word| ==> !('A' <= word[i] <= 'Z')
    ensures EndsWith(Lower(s), word) <==> EndsReading(s, word)
  {
    LowerAt(s);
    if |word| <= |s| {
      var n := |s| - |word|;
      LowerTail(s, n);
      LowerIs(s[n..], word);
    }
  }

  /** Exactly what is hidden: the metadata file, signatures and checksums, in any case. */
  lemma HiddenIff(path: string)
    ensures var parts := Split(path, '/');
      IsHiddenArtifactPath(path) <==>
        || ReadsAs(parts[|parts| - 1], "maven-metadata.xml") || EndsReading(path, ".asc")
        || EndsReading(path, ".md5") || EndsReading(path, ".sha1")
        || EndsReading(path, ".sha256") || EndsReading(path, ".sha512")
  {
    LastSegmentIsLast(path);
    LowerIs(LastSegment(path), "maven-metadata.xml");
    EndsLower(path, ".asc");
    EndsLower(path, ".md5");
    EndsLower(path, ".sha1");
    EndsLower(path, ".sha256");
    EndsLower(path, ".sha512");
  }

  /** The path of a key without its repository. */
  function PathIn(repository: string, key: string): string {
    if |repository| < |key| then key[|repository| + 1..] else ""
  }

  /** Whether a stored key is listed; `repository` is the part of the key that the view leaves out. */
  predicate Shown(repository: string, showAll: bool, key: string) {
    showAll || !IsHiddenArtifactPath(PathIn(repository, key))
  }

  function Visible(s: seq<string>, shown: string -> bool): seq<string> {
    if s == [] then []
    else Visible(s[..|s| - 1], shown) + (if shown(s[|s| - 1]) then [s[|s| - 1]] else [])
  }

  // ---------------------------------------------------------------------------------------------
  // One call, over the sorted keys.

  /** The items of one call, the position behind the last key it looked at, and whether the page is full. */
  datatype Scanned = Scanned(items: seq<string>, end: nat, full: bool)

  /** Looks at up to `budget` keys from a position on, until it has `need` visible ones. */
  function Scan(s: seq<string>, from: nat, budget: nat, need: int, shown: string -> bool): Scanned
    requires from <= |s|
    decreases |s| - from
  {
    if from == |s| || budget == 0 then Scanned([], from, false)
    else if !shown(s[from]) then Scan(s, from + 1, budget - 1, need, shown)
    else if need <= 1 then Scanned([s[from]], from + 1, true)
    else
      var rest := Scan(s, from + 1, budget - 1, need - 1, shown);
      rest.(items := [s[from]] + rest.items)
  }

  const BUDGET: nat := MAX_STORAGE_PAGES * KeyWalk.FETCH_SIZE

  /** The call leads on to another one; its cursor is the last key that it looked at. */
  predicate HasNext(s: seq<string>, page: Scanned) {
    page.full && page.end < |s|
  }

  lemma {:induction false} VisibleSplit(a: seq<string>, b: seq<string>, shown: string -> bool)
    ensures Visible(a + b, shown) == Visible(a, shown) + Visible(b, shown)
  {
    if b == [] {
      assert a + b == a;
    } else {
      assert (a + b)[..|a + b| - 1] == a + b[..|b| - 1];
      VisibleSplit(a, b[..|b| - 1], shown);
    }
  }

  lemma VisibleFirst(s: seq<string>, from: nat, to: nat, shown: string -> bool)
    requires from < to <= |s|
    ensures Visible(s[from..to], shown) == (if shown(s[from]) then [s[from]] else []) + Visible(s[from + 1..to], shown)
  {
    assert s[from..to] == [s[from]] + s[from + 1..to];
    VisibleSplit([s[from]], s[from + 1..to], shown);
    assert [s[from]][..0] == [];
  }

  /** A call shows exactly the visible keys it looked at, and advances. */
  lemma {:induction false} ScanItems(s: seq<string>, from: nat, budget: nat, need: int, shown: string -> bool)
    requires from <= |s|
    ensures var page := Scan(s, from, budget, need, shown);
      && from <= page.end <= |s| && page.end <= from + budget
      && page.items == Visible(s[from..page.end], shown)
      && (page.full ==> from < page.end && |page.items| == if need <= 1 then 1 else need)
      && (!page.full ==> page.end == Smaller(|s|, from + budget))
      && (!page.full ==> |page.items| < if need <= 1 then 1 else need)
    decreases budget
  {
    if from < |s| && budget > 0 {
      var page := Scan(s, from, budget, need, shown);
      if shown(s[from]) && need <= 1 {
        VisibleFirst(s, from, from + 1, shown);
      } else {
        ScanItems(s, from + 1, budget - 1, if shown(s[from]) then need - 1 else need, shown);
        VisibleFirst(s, from, page.end, shown);
      }
    } else {
      assert s[from..from] == [];
    }
  }

  /** A full page ends with the last key that was looked at. */
  lemma {:induction false} ScanStops(s: seq<string>, from: nat, budget: nat, need: int, shown: string -> bool)
    requires from <= |s| && Scan(s, from, budget, need, shown).full
    ensures var page := Scan(s, from, budget, need, shown);
      0 < page.end <= |s| && page.items != [] && page.items[|page.items| - 1] == s[page.end - 1]
    decreases budget
  {
    if !shown(s[from]) {
      ScanStops(s, from + 1, budget - 1, need, shown);
    } else if need > 1 {
      ScanStops(s, from + 1, budget - 1, need - 1, shown);
    }
  }

  // ---------------------------------------------------------------------------------------------
  // Following the cursors on a store that does not change.

  /** All items of the calls that follow each other's cursors, and the position at which they stop. */
  function Chain(s: seq<string>, from: nat, pageSize: int, shown: string -> bool): (r: (seq<string>, nat))
    requires from <= |s|
    decreases |s| - from
  {
    var page := Scan(s, from, BUDGET, pageSize, shown);
    ScanItems(s, from, BUDGET, pageSize, shown);
    if HasNext(s, page) then
      var rest := Chain(s, page.end, pageSize, shown);
      (page.items + rest.0, rest.1)
    else (page.items, page.end)
  }

  lemma {:induction false} ChainItems(s: seq<string>, from: nat, pageSize: int, shown: string -> bool)
    requires from <= |s|
    ensures var (items, stop) := Chain(s, from, pageSize, shown);
      from <= stop <= |s| && items == Visible(s[from..stop], shown)
    decreases |s| - from
  {
    var page := Scan(s, from, BUDGET, pageSize, shown);
    ScanItems(s, from, BUDGET, pageSize, shown);
    if HasNext(s, page) {
      var stop := Chain(s, page.end, pageSize, shown).1;
      ChainItems(s, page.end, pageSize, shown);
      assert s[from..stop] == s[from..page.end] + s[page.end..stop];
      VisibleSplit(s[from..page.end], s[page.end..stop], shown);
    }
  }

  lemma {:induction false} VisibleSorted(s: seq<string>, shown: string -> bool)
    requires StrictlySorted(s)
    ensures StrictlySorted(Visible(s, shown)) && forall key :: key in Visible(s, shown) <==> key in s && shown(key)
  {
    if s != [] {
      var init := s[..|s| - 1];
      VisibleSorted(init, shown);
      var before := Visible(init, shown);
      forall i | 0 <= i < |before| ensures Less(before[i], s[|s| - 1]) {
        assert before[i] in before;
        var j :| 0 <= j < |init| && init[j] == before[i];
        assert s[j] == before[i];
      }
    }
  }

  /**
    The calls together list an ordered part of the visible keys without repetition, from the
    first on, and they list all of them exactly when no visible key is left where they stop.
  */
  lemma ChainIsOrderedPrefix(s: seq<string>, pageSize: int, shown: string -> bool)
    requires StrictlySorted(s)
    ensures var (items, stop) := Chain(s, 0, pageSize, shown);
      && stop <= |s| && StrictlySorted(items) && items <= Visible(s, shown)
      && items == Visible(s[..stop], shown)
      && (items == Visible(s, shown) <==> forall i :: stop <= i < |s| ==> !shown(s[i]))
  {
    ChainItems(s, 0, pageSize, shown);
    var stop := Chain(s, 0, pageSize, shown).1;
    assert s[0..stop] == s[..stop] && s == s[..stop] + s[stop..];
    VisibleSplit(s[..stop], s[stop..], shown);
    VisibleSorted(s[..stop], shown);
    VisibleSorted(s[stop..], shown);
    if Visible(s[stop..], shown) == [] {
      forall i | stop <= i < |s| ensures !shown(s[i]) { assert s[i] in s[stop..]; }
    } else {
      var key := Visible(s[stop..], shown)[0];
      assert key in Visible(s[stop..], shown);
    }
  }

  /** From a position, a call can finish or fill its page within its budget. */
  predicate Fits(s: seq<string>, from: nat, pageSize: int, shown: string -> bool)
    requires from <= |s|
  {
    || |s| - from <= BUDGET
    || |Visible(s[from..from + BUDGET], shown)| >= if pageSize <= 1 then 1 else pageSize
  }

  /** Every call of the chain can finish or fill its page. */
  predicate AllFit(s: seq<string>, from: nat, pageSize: int, shown: string -> bool)
    requires from <= |s|
    decreases |s| - from
  {
    var page := Scan(s, from, BUDGET, pageSize, shown);
    ScanItems(s, from, BUDGET, pageSize, shown);
    Fits(s, from, pageSize, shown) && (HasNext(s, page) ==> AllFit(s, page.end, pageSize, shown))
  }

  /** A call that looked at its whole budget without filling its page ends the chain early. */
  lemma FitsIff(s: seq<string>, from: nat, pageSize: int, shown: string -> bool)
    requires from <= |s|
    ensures var page := Scan(s, from, BUDGET, pageSize, shown);
      Fits(s, from, pageSize, shown) <==> page.full || page.end == |s|
  {
    var page := Scan(s, from, BUDGET, pageSize, shown);
    ScanItems(s, from, BUDGET, pageSize, shown);
    if page.full && |s| - from > BUDGET {
      assert s[from..from + BUDGET] == s[from..page.end] + s[page.end..from + BUDGET];
      VisibleSplit(s[from..page.end], s[page.end..from + BUDGET], shown);
    }
  }

  /** The calls go on to the end of the keys exactly when from every cursor the call can finish or fill its page. */
  lemma {:induction false} ChainReachesEndIff(s: seq<string>, from: nat, pageSize: int, shown: string -> bool)
    requires from <= |s|
    ensures Chain(s, from, pageSize, shown).1 == |s| <==> AllFit(s, from, pageSize, shown)
    decreases |s| - from
  {
    var page := Scan(s, from, BUDGET, pageSize, shown);
    ScanItems(s, from, BUDGET, pageSize, shown);
    FitsIff(s, from, pageSize, shown);
    if HasNext(s, page) { ChainReachesEndIff(s, page.end, pageSize, shown); }
  }

  /** Then nothing is missed. */
  lemma ChainComplete(s: seq<string>, pageSize: int, shown: string -> bool)
    requires AllFit(s, 0, pageSize, shown)
    ensures Chain(s, 0, pageSize, shown).0 == Visible(s, shown)
  {
    ChainReachesEndIff(s, 0, pageSize, shown);
    ChainItems(s, 0, pageSize, shown);
    assert s[0..|s|] == s;
  }

  // ---------------------------------------------------------------------------------------------
  // The loop over storage pages.

  datatype ArtifactListItem = ArtifactListItem(path: string, storageKey: string)

  /** A cursor names a storage token or a key to start after; both mean the same to the local store. */
  datatype Cursor = Cursor(storageToken: Option<string>, startAfter: Option<string>)

  datatype ArtifactList = ArtifactList(items: seq<ArtifactListItem>, cursor: Option<Cursor>, hasMore: bool)

  function BuildListPrefix(repository: string, pathPrefix: string): Result<string, PathError> {
    if pathPrefix != "" then Ok(BuildStorageKey(repository, pathPrefix)) else ValidateRepositoryName(repository)
  }

  function ResumeOf(cursor: Option<Cursor>): Option<string> {
    if cursor.None? then None
    else if cursor.value.storageToken.Some? then cursor.value.storageToken
    else cursor.value.startAfter
  }

  function KeysOf(items: seq<ArtifactListItem>): (keys: seq<string>)
    ensures |keys| == |items|
  {
    if items == [] then [] else KeysOf(items[..|items| - 1]) + [items[|items| - 1].storageKey]
  }

  lemma KeysOfMore(items: seq<ArtifactListItem>, item: ArtifactListItem)
    ensures KeysOf(items + [item]) == KeysOf(items) + [item.storageKey]
  {
    assert (items + [item])[..|items|] == items;
  }

  /** The filter as a value, for one repository view. */
  function ShownIn(repository: string, showAll: bool): string -> bool {
    key => Shown(repository, showAll, key)
  }

  function Prepend(items: seq<string>, page: Scanned): Scanned {
    page.(items := items + page.items)
  }

  /** A scan goes through the keys chunk by chunk: first one chunk, then the rest if it did not fill the page. */
  lemma {:induction false} ScanByChunk(s: seq<string>, from: nat, k: nat, n: nat, budget: nat, need: int,
                                       shown: string -> bool)
    requires from + k + n <= |s| && n <= budget
    ensures var chunk := Scan(s[from..from + k + n], k, n, need, shown);
      Scan(s, from + k, budget, need, shown) ==
        if chunk.full then Scanned(chunk.items, from + chunk.end, true)
        else Prepend(chunk.items, Scan(s, from + k + n, budget - n, need - |chunk.items|, shown))
    decreases n
  {
    var keys := s[from..from + k + n];
    if n > 0 {
      assert keys[k] == s[from + k];
      assert s[from..from + (k + 1) + (n - 1)] == keys;
      if !shown(s[from + k]) {
        ScanByChunk(s, from, k + 1, n - 1, budget - 1, need, shown);
      } else if need > 1 {
        ScanByChunk(s, from, k + 1, n - 1, budget - 1, need - 1, shown);
      }
    }
  }

  lemma ShownMeans(repository: string, showAll: bool, key: string, path: string)
    requires ArtifactPathFromKey(key, repository) == Ok(path)
    ensures ShownIn(repository, showAll)(key) <==> showAll || !IsHiddenArtifactPath(path)
  {
  }

  lemma ItemsOkMore(repository: string, items: seq<ArtifactListItem>, path: string, key: string)
    requires ItemsOk(repository, items) && ArtifactPathFromKey(key, repository) == Ok(path)
    ensures ItemsOk(repository, items + [ArtifactListItem(path, key)])
  {
  }

  /** One more key of a scan that has some items already. */
  lemma ScanStep(s: seq<string>, from: nat, budget: nat, need: int, shown: string -> bool, before: seq<string>)
    requires from < |s| && budget > 0
    ensures Prepend(before, Scan(s, from, budget, need, shown)) ==
      if !shown(s[from]) then Prepend(before, Scan(s, from + 1, budget - 1, need, shown))
      else if need <= 1 then Scanned(before + [s[from]], from + 1, true)
      else Prepend(before + [s[from]], Scan(s, from + 1, budget - 1, need - 1, shown))
  {
    if shown(s[from]) && need > 1 {
      var rest := Scan(s, from + 1, budget - 1, need - 1, shown);
      assert before + ([s[from]] + rest.items) == before + [s[from]] + rest.items;
    }
  }

  /** The scan of one page, when `items` are listed and the first `stop` keys are done. */
  ghost predicate PageSoFar(whole: Scanned, repository: string, showAll: bool, keys: seq<string>, pageSize: int,
                            items: seq<ArtifactListItem>, stop: nat, full: bool) {
    && stop <= |keys| && ItemsOk(repository, items)
    && (forall i :: 0 <= i < stop ==> ArtifactPathFromKey(keys[i], repository).Ok?)
    && whole == if full then Scanned(KeysOf(items), stop, true)
                else
                  var rest := Scan(keys, stop, |keys| - stop, pageSize - |items|, ShownIn(repository, showAll));
                  Prepend(KeysOf(items), rest)
  }

  lemma TakeKey(whole: Scanned, repository: string, showAll: bool, keys: seq<string>, pageSize: int,
                items: seq<ArtifactListItem>, stop: nat, path: string)
    requires PageSoFar(whole, repository, showAll, keys, pageSize, items, stop, false)
    requires stop < |keys| && ArtifactPathFromKey(keys[stop], repository) == Ok(path)
    ensures var more := items + [ArtifactListItem(path, keys[stop])];
      if showAll || !IsHiddenArtifactPath(path)
      then PageSoFar(whole, repository, showAll, keys, pageSize, more, stop + 1, |more| >= pageSize)
      else PageSoFar(whole, repository, showAll, keys, pageSize, items, stop + 1, false)
  {
    ShownMeans(repository, showAll, keys[stop], path);
    ScanStep(keys, stop, |keys| - stop, pageSize - |items|, ShownIn(repository, showAll), KeysOf(items));
    KeysOfMore(items, ArtifactListItem(path, keys[stop]));
    ItemsOkMore(repository, items, path, keys[stop]);
  }

  /** The inner loop: takes the visible keys of one storage page until the list is full. */
  method TakePage(repository: string, showAll: bool, keys: seq<string>, start: seq<ArtifactListItem>, pageSize: int)
    returns (items: seq<ArtifactListItem>, stop: nat, full: bool, failed: bool)
    requires ItemsOk(repository, start)
    ensures failed ==> exists key :: key in keys && ArtifactPathFromKey(key, repository).Err?
    ensures !failed ==>
      PageSoFar(Prepend(KeysOf(start), Scan(keys, 0, |keys|, pageSize - |start|, ShownIn(repository, showAll))),
                repository, showAll, keys, pageSize, items, stop, full)
    ensures !failed ==> if full then 0 < stop else stop == |keys|
  {
    ghost var whole := Prepend(KeysOf(start), Scan(keys, 0, |keys|, pageSize - |start|, ShownIn(repository, showAll)));
    items, stop, full, failed := start, 0, false, false;
    while stop < |keys| && !full
      invariant PageSoFar(whole, repository, showAll, keys, pageSize, items, stop, full)
      invariant full ==> 0 < stop
    {
      var path := ArtifactPathFromKey(keys[stop], repository);
      if path.Err? { failed := true; return; }
      TakeKey(whole, repository, showAll, keys, pageSize, items, stop, path.value);
      if showAll || !IsHiddenArtifactPath(path.value) {
        items := items + [ArtifactListItem(path.value, keys[stop])];
        full := |items| >= pageSize;
      }
      stop := stop + 1;
    }
  }

  predicate ItemsOk(repository: string, items: seq<ArtifactListItem>) {
    forall i :: 0 <= i < |items| ==> items[i].path == PathIn(repository, items[i].storageKey)
  }

  /** The only listed key that is not below its repository is a file in the place of the repository. */
  lemma ListedInRepository(t: Tree, repository: string, pathPrefix: string, prefix: string, key: string)
    requires TreeOk(t) && BuildListPrefix(repository, pathPrefix) == Ok(prefix) && key in KeysUnder(t, prefix)
    ensures ArtifactPathFromKey(key, repository).Err? <==> pathPrefix == "" && prefix in t.files
  {
    if prefix in t.files { FileHasNothingBelow(t, prefix); }
    if Ancestor(prefix, key) {
      assert key == prefix + "/" + key[|prefix| + 1..];
      assert repository + "/" <= prefix + "/";
    }
  }

  /** The list that a call makes of the sorted keys from a position on. */
  ghost predicate Lists(s: seq<string>, from: nat, repository: string, showAll: bool, pageSize: int, list: ArtifactList)
    requires from <= |s|
  {
    var page := Scan(s, from, BUDGET, pageSize, ShownIn(repository, showAll));
    && ItemsOk(repository, list.items)
    && KeysOf(list.items) == page.items
    && list.hasMore == HasNext(s, page)
    && ResumeOf(list.cursor) == if HasNext(s, page) && page.end > 0 then Some(s[page.end - 1]) else None
  }

  /** A scan shows visible keys in order, and stops when it is full, at the end, or after 2000 keys. */
  lemma ScanMeans(s: seq<string>, from: nat, pageSize: int, shown: string -> bool)
    requires from <= |s|
    ensures var page, n := Scan(s, from, BUDGET, pageSize, shown), if pageSize <= 1 then 1 else pageSize;
      && page.items <= Visible(s[from..], shown) && |page.items| <= n
      && (page.full ==> |page.items| == n && 0 < page.end <= |s| && page.items[n - 1] == s[page.end - 1])
      && (page.full && page.end == |s| ==> page.items == Visible(s[from..], shown))
      && (!page.full && |s| - from <= 2000 ==> page.items == Visible(s[from..], shown))
      && (!page.full && |s| - from > 2000 ==> |page.items| < n && page.items == Visible(s[from..from + 2000], shown))
  {
    var page := Scan(s, from, BUDGET, pageSize, shown);
    ScanItems(s, from, BUDGET, pageSize, shown);
    assert s[from..] == s[from..page.end] + s[page.end..];
    VisibleSplit(s[from..page.end], s[page.end..], shown);
    if page.full { ScanStops(s, from, BUDGET, pageSize, shown); }
    if page.end == |s| { assert s[page.end..] == [] && s[from..page.end] == s[from..]; }
  }

  /**
    One list in terms of the sorted keys: visible keys from its position on, in order. It promises more exactly when
    it has a cursor; then it is full, the cursor is its last key, and there are keys beyond. Otherwise it has all
    visible keys from its position on, or the visible ones of the next 2000 keys, too few to fill it.
  */
  lemma ListMeans(s: seq<string>, from: nat, repository: string, showAll: bool, pageSize: int, list: ArtifactList)
    requires StrictlySorted(s) && from <= |s| && Lists(s, from, repository, showAll, pageSize, list)
    ensures var keys, shown := KeysOf(list.items), ShownIn(repository, showAll);
      var n := if pageSize <= 1 then 1 else pageSize;
      && keys <= Visible(s[from..], shown) && |keys| <= n
      && (list.hasMore <==> ResumeOf(list.cursor).Some?)
      && (list.hasMore ==>
            |keys| == n && ResumeOf(list.cursor) == Some(keys[n - 1]) && Less(keys[n - 1], s[|s| - 1]))
      && (!list.hasMore ==>
            || keys == Visible(s[from..], shown)
            || (|keys| < n && |s| - from > 2000 && keys == Visible(s[from..from + 2000], shown)))
  {
    ScanMeans(s, from, pageSize, ShownIn(repository, showAll));
  }

  /** What one call answers: the error cases, or the list from its resume point on. */
  ghost predicate Answers(t: Tree, repository: string, pathPrefix: string, showAll: bool, resume: Option<string>,
                          pageSize: int, answer: Result<ArtifactList, PathError>) {
    match BuildListPrefix(repository, pathPrefix)
    case Err(_) => answer.Err?
    case Ok(prefix) =>
      if pathPrefix == "" && prefix in t.files && resume.None? then answer.Err?
      else
        var s, from := SortedUnder(t, prefix), Position(t, prefix, resume);
        answer.Ok? && Lists(s, from, repository, showAll, pageSize, answer.value)
  }

  /**
    What an answer lists, and when there is an error, in plain terms: every item is a stored key of the repository at
    or under the path, with its path in the repository, and is not hidden unless everything is asked for.
  */
  lemma AnswerMeans(t: Tree, repository: string, pathPrefix: string, showAll: bool, resume: Option<string>,
                    pageSize: int, answer: Result<ArtifactList, PathError>)
    requires TreeOk(t) && Answers(t, repository, pathPrefix, showAll, resume, pageSize, answer)
    ensures answer.Err? <==>
            pathPrefix == "" && (!PlainName(repository) || (repository in t.files && resume.None?))
    ensures answer.Ok? ==> forall item :: item in answer.value.items ==>
              && item.storageKey in t.files && item.storageKey == repository + "/" + item.path
              && (pathPrefix == "" || Under(item.storageKey, repository + "/" + pathPrefix))
              && (showAll || !IsHiddenArtifactPath(item.path))
  {
    PlainNameIff(repository);
    if answer.Ok? {
      var prefix := BuildListPrefix(repository, pathPrefix).value;
      var s, from := SortedUnder(t, prefix), Position(t, prefix, resume);
      forall item | item in answer.value.items
        ensures item.storageKey in KeysUnder(t, prefix) && Shown(repository, showAll, item.storageKey)
        ensures ArtifactPathFromKey(item.storageKey, repository) == Ok(item.path)
      {
        ListedItem(t, repository, pathPrefix, prefix, showAll, resume, pageSize, answer.value, item);
        FromKeyIff(item.storageKey, repository, item.path);
      }
      forall item | item in answer.value.items ensures item.storageKey == repository + "/" + item.path {
        FromKeyIff(item.storageKey, repository, item.path);
      }
    }
  }

  lemma ListedItem(t: Tree, repository: string, pathPrefix: string, prefix: string, showAll: bool,
                   resume: Option<string>, pageSize: int, list: ArtifactList, item: ArtifactListItem)
    requires TreeOk(t) && BuildListPrefix(repository, pathPrefix) == Ok(prefix) && item in list.items
    requires Lists(SortedUnder(t, prefix), Position(t, prefix, resume), repository, showAll, pageSize, list)
    requires !(pathPrefix == "" && prefix in t.files && resume.None?)
    ensures item.storageKey in KeysUnder(t, prefix) && Shown(repository, showAll, item.storageKey)
    ensures ArtifactPathFromKey(item.storageKey, repository) == Ok(item.path)
  {
    var s, from, shown := SortedUnder(t, prefix), Position(t, prefix, resume), ShownIn(repository, showAll);
    var i :| 0 <= i < |list.items| && list.items[i] == item;
    KeyOfItem(list.items, i);
    ScanMeans(s, from, pageSize, shown);
    assert s[from..] <= s[from..];
    VisibleOf(s[from..], shown, item.storageKey);
    assert item.storageKey in s[from..];
    if prefix in t.files { FileHasNothingBelow(t, prefix); }
    ListedInRepository(t, repository, pathPrefix, prefix, item.storageKey);
  }

  lemma {:induction false} KeyOfItem(items: seq<ArtifactListItem>, i: nat)
    requires i < |items|
    ensures KeysOf(items)[i] == items[i].storageKey
  {
    if i < |items| - 1 { KeyOfItem(items[..|items| - 1], i); }
  }

  lemma {:induction false} VisibleOf(s: seq<string>, shown: string -> bool, key: string)
    ensures key in Visible(s, shown) ==> key in s && shown(key)
  {
    if s != [] { VisibleOf(s[..|s| - 1], shown, key); }
  }

  /** A cursor resumes just behind the key that it names. */
  lemma CursorResumes(t: Tree, prefix: string, end: nat)
    requires TreeOk(t) && 0 < end < |SortedUnder(t, prefix)|
    ensures Position(t, prefix, Some(SortedUnder(t, prefix)[end - 1])) == end
  {
    if prefix in t.files { FileHasNothingBelow(t, prefix); }
    CountUpToMember(SortedUnder(t, prefix), end - 1);
  }

  /** One storage page is the next chunk of the scan. */
  lemma PageIsChunk(s: seq<string>, from: nat, budget: nat, need: int, shown: string -> bool)
    requires from <= |s| && budget >= KeyWalk.FETCH_SIZE
    ensures var page := PageAt(s, from, KeyWalk.FETCH_SIZE);
      var n := |page.keys|;
      var chunk := Scan(page.keys, 0, n, need, shown);
      Scan(s, from, budget, need, shown) ==
        if chunk.full then Scanned(chunk.items, from + chunk.end, true)
        else if page.token.None? then Scanned(chunk.items, |s|, false)
        else Prepend(chunk.items, Scan(s, from + n, budget - n, need - |chunk.items|, shown))
  {
    var page := PageAt(s, from, KeyWalk.FETCH_SIZE);
    var n := |page.keys|;
    assert page.keys == s[from..from + 0 + n];
    ScanByChunk(s, from, 0, n, budget, need, shown);
    if page.token.None? {
      var chunk := Scan(page.keys, 0, n, need, shown);
      assert chunk.items + [] == chunk.items;
    }
  }

  /** A full list, with the cursor that says where to go on. */
  method FullAnswer(items: seq<ArtifactListItem>, page: Page, stop: nat) returns (list: ArtifactList)
    requires 0 < stop <= |page.keys|
    ensures list.items == items
    ensures list.hasMore <==> stop < |page.keys| || page.token.Some?
    ensures ResumeOf(list.cursor) == if stop < |page.keys| then Some(page.keys[stop - 1]) else page.token
  {
    if stop < |page.keys| {
      list := ArtifactList(items, Some(Cursor(None, Some(page.keys[stop - 1]))), true);
    } else if page.token.Some? {
      list := ArtifactList(items, Some(Cursor(page.token, None)), true);
    } else {
      list := ArtifactList(items, None, false);
    }
  }

  /** The scan so far, when `items` are listed and the next page starts at `at`. */
  ghost predicate ScanSoFar(s: seq<string>, from: nat, at: nat, read: nat, items: seq<ArtifactListItem>,
                            pageSize: int, shown: string -> bool)
    requires from <= |s|
  {
    && at <= |s| && read <= MAX_STORAGE_PAGES && at == from + read * KeyWalk.FETCH_SIZE
    && Scan(s, from, BUDGET, pageSize, shown) ==
         Prepend(KeysOf(items), Scan(s, at, BUDGET - read * KeyWalk.FETCH_SIZE, pageSize - |items|, shown))
  }

  /** One turn of the outer loop: the list is done, or the scan goes on behind the page. */
  lemma OneTurn(s: seq<string>, from: nat, at: nat, read: nat, items: seq<ArtifactListItem>, pageSize: int,
                shown: string -> bool, more: seq<ArtifactListItem>, stop: nat, full: bool)
    requires from <= |s| && ScanSoFar(s, from, at, read, items, pageSize, shown) && read < MAX_STORAGE_PAGES
    requires var keys := PageAt(s, at, KeyWalk.FETCH_SIZE).keys;
      Prepend(KeysOf(items), Scan(keys, 0, |keys|, pageSize - |items|, shown)) == Scanned(KeysOf(more), stop, full)
    ensures var page := PageAt(s, at, KeyWalk.FETCH_SIZE);
      && (full ==> Scan(s, from, BUDGET, pageSize, shown) == Scanned(KeysOf(more), at + stop, true))
      && (!full && page.token.None? ==> Scan(s, from, BUDGET, pageSize, shown) == Scanned(KeysOf(more), |s|, false))
      && (!full && page.token.Some? ==> ScanSoFar(s, from, at + KeyWalk.FETCH_SIZE, read + 1, more, pageSize, shown))
  {
    var page := PageAt(s, at, KeyWalk.FETCH_SIZE);
    var n := |page.keys|;
    PageIsChunk(s, at, BUDGET - read * KeyWalk.FETCH_SIZE, pageSize - |items|, shown);
    var chunk := Scan(page.keys, 0, n, pageSize - |items|, shown);
    assert |KeysOf(more)| == |items| + |chunk.items|;
    if !full && page.token.Some? {
      var rest := Scan(s, at + n, BUDGET - read * KeyWalk.FETCH_SIZE - n, pageSize - |more|, shown);
      assert KeysOf(items) + (chunk.items + rest.items) == KeysOf(more) + rest.items;
    }
  }

  /** The list is full: its cursor is the last key that was looked at. */
  lemma FullAnswerLists(s: seq<string>, from: nat, at: nat, stop: nat, repository: string, showAll: bool, pageSize: int,
                        page: Page, list: ArtifactList)
    requires from <= |s| && at <= |s| && page == PageAt(s, at, KeyWalk.FETCH_SIZE) && 0 < stop <= |page.keys|
    requires Scan(s, from, BUDGET, pageSize, ShownIn(repository, showAll)) ==
        Scanned(KeysOf(list.items), at + stop, true)
    requires ItemsOk(repository, list.items)
    requires list.hasMore <==> stop < |page.keys| || page.token.Some?
    requires ResumeOf(list.cursor) == if stop < |page.keys| then Some(page.keys[stop - 1]) else page.token
    ensures Lists(s, from, repository, showAll, pageSize, list)
  {
    assert page.keys[stop - 1] == s[at + stop - 1];
  }

  /** Either no key of the listing is below its repository, or every key is. */
  ghost predicate Uniform(s: seq<string>, repository: string, foreign: bool) {
    forall key :: key in s ==> (ArtifactPathFromKey(key, repository).Err? <==> foreign)
  }

  datatype Turn = Broken | Finished(list: ArtifactList) | Onward(items: seq<ArtifactListItem>, token: string)

  ghost predicate TurnOk(s: seq<string>, from: nat, at: nat, next: nat, read: nat, repository: string, showAll: bool,
                         pageSize: int, foreign: bool, turn: Turn)
    requires from <= |s| && at <= |s|
  {
    match turn
    case Broken => foreign && at < |s|
    case Finished(list) => Lists(s, from, repository, showAll, pageSize, list) && !(foreign && at < |s|)
    case Onward(more, token) =>
      && !foreign && ItemsOk(repository, more)
      && ScanSoFar(s, from, next, read + 1, more, pageSize, ShownIn(repository, showAll))
  }

  lemma PageFromList(s: seq<string>, at: nat, page: Page)
    requires at <= |s| && page == PageAt(s, at, KeyWalk.FETCH_SIZE) && page.keys != []
    ensures at < |s| && page.keys[0] == s[at] && forall key :: key in page.keys ==> key in s
  {
  }

  lemma NothingFollows(items: seq<ArtifactListItem>)
    ensures KeysOf(items) + [] == KeysOf(items)
  {
  }

  /** One turn of the outer loop over a storage page: takes its visible keys. */
  method TakeTurn(repository: string, showAll: bool, pageSize: int, page: Page, items: seq<ArtifactListItem>,
                  ghost s: seq<string>, ghost from: nat, ghost at: nat, ghost read: nat, ghost foreign: bool)
    returns (turn: Turn)
    requires Uniform(s, repository, foreign)
    requires from <= |s| && at <= |s| && page == PageAt(s, at, KeyWalk.FETCH_SIZE)
    requires ItemsOk(repository, items) && read < MAX_STORAGE_PAGES
    requires ScanSoFar(s, from, at, read, items, pageSize, ShownIn(repository, showAll))
    ensures TurnOk(s, from, at, at + KeyWalk.FETCH_SIZE, read, repository, showAll, pageSize, foreign, turn)
    ensures turn.Onward? ==> page.token == Some(turn.token)
  {
    if page.keys == [] {
      OneTurn(s, from, at, read, items, pageSize, ShownIn(repository, showAll), items, 0, false);
      return Finished(ArtifactList(items, None, false));
    }
    PageFromList(s, at, page);
    var more, stop, full, failed := TakePage(repository, showAll, page.keys, items, pageSize);
    if failed { return Broken; }
    NothingFollows(more);
    OneTurn(s, from, at, read, items, pageSize, ShownIn(repository, showAll), more, stop, full);
    if full {
      var list := FullAnswer(more, page, stop);
      FullAnswerLists(s, from, at, stop, repository, showAll, pageSize, page, list);
      return Finished(list);
    }
    turn := if page.token.None? then Finished(ArtifactList(more, None, false)) else Onward(more, page.token.value);
  }

  /** Where the outer loop is after `read` pages, the last of which ended with `turn`. */
  ghost predicate Progress(s: seq<string>, from: nat, at: nat, read: nat, repository: string, showAll: bool,
                           pageSize: int,
                           foreign: bool, items: seq<ArtifactListItem>, turn: Turn)
    requires from <= |s|
  {
    match turn
    case Broken => foreign && from < |s|
    case Finished(list) => Lists(s, from, repository, showAll, pageSize, list) && !(foreign && from < |s|)
    case Onward(_, _) =>
      && ItemsOk(repository, items) && ScanSoFar(s, from, at, read, items, pageSize, ShownIn(repository, showAll))
      && (read > 0 ==> !foreign)
  }

  lemma ProgressEnds(s: seq<string>, from: nat, at: nat, read: nat, repository: string, showAll: bool, pageSize: int,
                     foreign: bool, items: seq<ArtifactListItem>, turn: Turn)
    requires from <= |s| && turn.Onward? && read == MAX_STORAGE_PAGES
    requires Progress(s, from, at, read, repository, showAll, pageSize, foreign, items, turn)
    ensures Lists(s, from, repository, showAll, pageSize, ArtifactList(items, None, false)) && !foreign
  {
    OutOfPages(s, from, at, items, pageSize, ShownIn(repository, showAll));
  }

  method ReadTurn(store: LocalStore, repository: string, prefix: string, showAll: bool, pageSize: int,
                  resume: Option<string>,
                  items: seq<ArtifactListItem>, before: Turn,
                  ghost s: seq<string>, ghost from: nat, ghost at: nat, ghost read: nat, ghost foreign: bool)
    returns (turn: Turn, more: seq<ArtifactListItem>, token: Option<string>)
    requires prefix == "" || Clean(prefix)
    requires store.Valid() && s == SortedUnder(store.Contents(), prefix)
    requires from <= |s| && Uniform(s, repository, foreign)
    requires at == Position(store.Contents(), prefix, resume) && before.Onward? && read < MAX_STORAGE_PAGES
    requires Progress(s, from, at, read, repository, showAll, pageSize, foreign, items, before)
    ensures Progress(s, from, at + KeyWalk.FETCH_SIZE, read + 1, repository, showAll, pageSize, foreign, more, turn)
    ensures turn.Onward? ==> at + KeyWalk.FETCH_SIZE == Position(store.Contents(), prefix, token)
  {
    var page := store.ListPrefix(prefix, KeyWalk.FETCH_SIZE, resume);
    turn := TakeTurn(repository, showAll, pageSize, page, items, s, from, at, read, foreign);
    more, token := items, page.token;
    if turn.Onward? {
      more := turn.items;
      KeyWalk.NextPosition(store.Contents(), prefix, resume);
    }
  }

  /** The outer loop: up to `MAX_STORAGE_PAGES` storage pages. */
  method ListPages(store: LocalStore, repository: string, prefix: string, showAll: bool, resumeAfter: Option<string>,
                   pageSize: int,
                   ghost foreign: bool)
    returns (list: ArtifactList, failed: bool)
    requires prefix == "" || Clean(prefix)
    requires store.Valid() && Uniform(SortedUnder(store.Contents(), prefix), repository, foreign)
    ensures var s, from := SortedUnder(store.Contents(), prefix), Position(store.Contents(), prefix, resumeAfter);
      && (failed <==> foreign && from < |s|)
      && (!failed ==> Lists(s, from, repository, showAll, pageSize, list))
  {
    ghost var t := store.Contents();
    ghost var s: seq<string>, from: nat := SortedUnder(t, prefix), Position(t, prefix, resumeAfter);
    var items: seq<ArtifactListItem> := [];
    var resume := resumeAfter;
    ghost var at: nat := from;
    var read: nat := 0;
    var turn := Onward([], "");
    StartScan(s, from, pageSize, ShownIn(repository, showAll));
    while read < MAX_STORAGE_PAGES && turn.Onward?
      invariant read <= MAX_STORAGE_PAGES
      invariant Progress(s, from, at, read, repository, showAll, pageSize, foreign, items, turn)
      invariant turn.Onward? ==> at == Position(t, prefix, resume)
    {
      turn, items, resume :=
        ReadTurn(store, repository, prefix, showAll, pageSize, resume, items, turn, s, from, at, read, foreign);
      read, at := read + 1, at + KeyWalk.FETCH_SIZE;
    }
    match turn {
      case Broken => list, failed := ArtifactList([], None, false), true;
      case Finished(done) => list, failed := done, false;
      case Onward(_, _) =>
        ProgressEnds(s, from, at, read, repository, showAll, pageSize, foreign, items, turn);
        list, failed := ArtifactList(items, None, false), false;
    }
  }

  lemma StartScan(s: seq<string>, from: nat, pageSize: int, shown: string -> bool)
    requires from <= |s|
    ensures ScanSoFar(s, from, from, 0, [], pageSize, shown)
  {
    var page := Scan(s, from, BUDGET, pageSize, shown);
    assert [] + page.items == page.items;
  }

  lemma OutOfPages(s: seq<string>, from: nat, at: nat, items: seq<ArtifactListItem>, pageSize: int,
                   shown: string -> bool)
    requires from <= |s| && ScanSoFar(s, from, at, MAX_STORAGE_PAGES, items, pageSize, shown)
    ensures Scan(s, from, BUDGET, pageSize, shown) == Scanned(KeysOf(items), at, false)
  {
    assert KeysOf(items) + [] == KeysOf(items);
  }

  lemma RepositoryIsClean(repository: string)
    requires ValidRepositoryName(repository)
    ensures Clean(repository)
  {
    forall i | 0 <= i < |repository| ensures repository[i] != '/' { assert SegmentChar(repository[i]); }
  }

  method ListArtifactsForUi(store: LocalStore, repository: string, pathPrefix: string, showAll: bool,
                            cursor: Option<Cursor>, pageSize: int)
    returns (answer: Result<ArtifactList, PathError>)
    requires store.Valid() && (pathPrefix == "" || Clean(BuildStorageKey(repository, pathPrefix)))
    ensures Answers(store.Contents(), repository, pathPrefix, showAll, ResumeOf(cursor), pageSize, answer)
  {
    var built := BuildListPrefix(repository, pathPrefix);
    if built.Err? { return Err(built.error); }
    var prefix := built.value;
    if pathPrefix == "" { RepositoryIsClean(repository); }
    ghost var t, s := store.Contents(), SortedUnder(store.Contents(), prefix);
    ghost var foreign := pathPrefix == "" && prefix in t.files;
    forall key | key in s
      ensures ArtifactPathFromKey(key, repository).Err? <==> foreign
    {
      ListedInRepository(t, repository, pathPrefix, prefix, key);
    }
    if prefix in t.files { FileHasNothingBelow(t, prefix); }
    var list, failed := ListPages(store, repository, prefix, showAll, ResumeOf(cursor), pageSize, foreign);
    answer := if failed then Err(NotInRepository) else Ok(list);
  }

  // ---------------------------------------------------------------------------------------------
  // Calling again with the cursor, until there is none.

  /** Lists that were answered one after the other, each but the first with the cursor of the one before. */
  ghost predicate Follows(t: Tree, repository: string, prefix: string, showAll: bool, pageSize: int, from: nat,
                          lists: seq<ArtifactList>)
    decreases |lists|
  {
    && lists != [] && from <= |SortedUnder(t, prefix)|
    && Lists(SortedUnder(t, prefix), from, repository, showAll, pageSize, lists[0])
    && var resume := ResumeOf(lists[0].cursor);
       if resume.None? then |lists| == 1
       else Follows(t, repository, prefix, showAll, pageSize, Position(t, prefix, resume), lists[1..])
  }

  function AllKeys(lists: seq<ArtifactList>): seq<string> {
    if lists == [] then [] else KeysOf(lists[0].items) + AllKeys(lists[1..])
  }

  /** A list has a cursor exactly when its scan leads on, and the cursor leads to where the scan ended. */
  lemma NextList(t: Tree, repository: string, prefix: string, showAll: bool, pageSize: int, from: nat,
                 list: ArtifactList)
    requires TreeOk(t) && from <= |SortedUnder(t, prefix)|
    requires Lists(SortedUnder(t, prefix), from, repository, showAll, pageSize, list)
    ensures var s := SortedUnder(t, prefix);
      var page := Scan(s, from, BUDGET, pageSize, ShownIn(repository, showAll));
      && (ResumeOf(list.cursor).Some? <==> HasNext(s, page)) && KeysOf(list.items) == page.items && from <= page.end
      && (HasNext(s, page) ==> from < page.end && Position(t, prefix, ResumeOf(list.cursor)) == page.end)
  {
    var s := SortedUnder(t, prefix);
    var page := Scan(s, from, BUDGET, pageSize, ShownIn(repository, showAll));
    ScanItems(s, from, BUDGET, pageSize, ShownIn(repository, showAll));
    if HasNext(s, page) { CursorResumes(t, prefix, page.end); }
  }

  lemma {:induction false} FollowedListsAreChain(t: Tree, repository: string, prefix: string, showAll: bool,
                                                 pageSize: int,
                                                 from: nat, lists: seq<ArtifactList>)
    requires TreeOk(t) && Follows(t, repository, prefix, showAll, pageSize, from, lists)
    ensures AllKeys(lists) == Chain(SortedUnder(t, prefix), from, pageSize, ShownIn(repository, showAll)).0
    decreases |lists|
  {
    NextList(t, repository, prefix, showAll, pageSize, from, lists[0]);
    var resume := ResumeOf(lists[0].cursor);
    if resume.Some? {
      FollowedListsAreChain(t, repository, prefix, showAll, pageSize, Position(t, prefix, resume), lists[1..]);
    } else {
      assert lists[1..] == [];
    }
  }

  /**
    Following the cursors on a store that does not change lists visible keys in order, from the first on,
    without repetition and without gap; and all of them when every call can finish or fill its page.
  */
  lemma CursorsListVisibleKeys(t: Tree, repository: string, prefix: string, showAll: bool, pageSize: int,
                               lists: seq<ArtifactList>)
    requires TreeOk(t) && Follows(t, repository, prefix, showAll, pageSize, 0, lists)
    ensures var s, shown, keys := SortedUnder(t, prefix), ShownIn(repository, showAll), AllKeys(lists);
      && StrictlySorted(keys) && keys <= Visible(s, shown)
      && (AllFit(s, 0, pageSize, shown) ==> keys == Visible(s, shown))
      && forall key :: key in Visible(s, shown) <==> key in KeysUnder(t, prefix) && Shown(repository, showAll, key)
  {
    var s, shown := SortedUnder(t, prefix), ShownIn(repository, showAll);
    FollowedListsAreChain(t, repository, prefix, showAll, pageSize, 0, lists);
    ChainIsOrderedPrefix(s, pageSize, shown);
    VisibleSorted(s, shown);
    if AllFit(s, 0, pageSize, shown) { ChainComplete(s, pageSize, shown); }
  }
}
