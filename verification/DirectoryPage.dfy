/** Pages of one directory level, directories first (packvault/storage/prefix_listing.py, `merge_directory_page`). */
module DirectoryPage {
  import opened Basics
  import opened Strings

  /** A line of a directory listing: kind 'd' or 'f', and a name or a key. */
  datatype Entry = Entry(kind: char, value: string)

  datatype DirPage = DirPage(directories: seq<string>, files: seq<string>, cursor: Option<string>, hasMore: bool)

  function Tagged(kind: char, names: seq<string>): (r: seq<Entry>)
    ensures |r| == |names| && forall i :: 0 <= i < |r| ==> r[i] == Entry(kind, names[i])
  {
    if names == [] then [] else Tagged(kind, names[..|names| - 1]) + [Entry(kind, names[|names| - 1])]
  }

  function Entries(directories: seq<string>, files: seq<string>): (r: seq<Entry>)
    ensures |r| == |directories| + |files|
  {
    Tagged('d', directories) + Tagged('f', files)
  }

  function Token(e: Entry): string {
    [e.kind] + ":" + e.value
  }

  function Tokens(entries: seq<Entry>): (r: seq<string>)
    ensures |r| == |entries| && forall i :: 0 <= i < |r| ==> r[i] == Token(entries[i])
  {
    if entries == [] then [] else [Token(entries[0])] + Tokens(entries[1..])
  }

  function ValuesOf(kind: char, entries: seq<Entry>): seq<string> {
    if entries == [] then []
    else
      var last := entries[|entries| - 1];
      ValuesOf(kind, entries[..|entries| - 1]) + if last.kind == kind then [last.value] else []
  }

  /** Python's `entries[:n]`; a negative `n` counts from the end. */
  function Take(entries: seq<Entry>, n: int): seq<Entry> {
    if n >= |entries| then entries
    else if n >= 0 then entries[..n]
    else if |entries| + n >= 0 then entries[..|entries| + n]
    else []
  }

  function PageOf(rest: seq<Entry>, maxEntries: int): DirPage {
    var page, more := Take(rest, maxEntries), |rest| > maxEntries;
    DirPage(ValuesOf('d', page), ValuesOf('f', page),
            if more && page != [] then Some(Token(page[|page| - 1])) else None, more)
  }

  /** The first entry whose token is beyond the cursor; an empty cursor is no cursor. */
  function Resume(entries: seq<Entry>, startAfter: Option<string>): (n: nat)
    ensures n <= |entries|
  {
    if startAfter.None? || startAfter.value == "" then 0 else CountUpTo(Tokens(entries), startAfter.value)
  }

  predicate Exhausted(entries: seq<Entry>, startAfter: Option<string>) {
    startAfter.Some? && startAfter.value != "" && Resume(entries, startAfter) == |entries|
  }

  function PageAfter(entries: seq<Entry>, maxEntries: int, startAfter: Option<string>): DirPage {
    if Exhausted(entries, startAfter) then DirPage([], [], None, false)
    else PageOf(entries[Resume(entries, startAfter)..], maxEntries)
  }

  predicate NoneBeyond(s: seq<string>, n: nat, token: string) {
    n <= |s| && forall k :: 0 <= k < n ==> !Less(token, s[k])
  }

  lemma {:induction false} CountUpToFirst(s: seq<string>, token: string, i: nat)
    requires NoneBeyond(s, i, token) && (i < |s| ==> Less(token, s[i]))
    ensures CountUpTo(s, token) == i
  {
    if i > 0 { CountUpToFirst(s[1..], token, i - 1); }
  }

  /** The search loop: the first entry beyond the cursor. */
  method StartIndex(entries: seq<Entry>, startAfter: string) returns (start: nat)
    ensures start == CountUpTo(Tokens(entries), startAfter)
  {
    start := 0;
    ghost var tokens := Tokens(entries);
    while start < |entries| && !Less(startAfter, Token(entries[start]))
      invariant start <= |entries| == |tokens| && NoneBeyond(tokens, start, startAfter)
    {
      assert tokens[start] == Token(entries[start]);
      start := start + 1;
    }
    CountUpToFirst(tokens, startAfter, start);
  }

  method CutLevel(rest: seq<Entry>, maxEntries: int) returns (page: DirPage)
    ensures page == PageOf(rest, maxEntries)
  {
    var cut := Take(rest, maxEntries);
    var directories: seq<string>, files: seq<string> := [], [];
    var i := 0;
    while i < |cut|
      invariant 0 <= i <= |cut|
      invariant directories == ValuesOf('d', cut[..i]) && files == ValuesOf('f', cut[..i])
    {
      assert cut[..i + 1][..i] == cut[..i];
      if cut[i].kind == 'd' {
        directories := directories + [cut[i].value];
      } else if cut[i].kind == 'f' {
        files := files + [cut[i].value];
      }
      i := i + 1;
    }
    assert cut[..|cut|] == cut;
    var more := |rest| > maxEntries;
    page := DirPage(directories, files, if more && cut != [] then Some(Token(cut[|cut| - 1])) else None, more);
  }

  method MergeDirectoryPage(directories: seq<string>, files: seq<string>, maxEntries: int, startAfter: Option<string>)
    returns (page: DirPage)
    ensures page == PageAfter(Entries(directories, files), maxEntries, startAfter)
  {
    var entries := Entries(directories, files);
    var start := 0;
    if startAfter.Some? && startAfter.value != "" {
      start := StartIndex(entries, startAfter.value);
      if start == |entries| { return DirPage([], [], None, false); }
    }
    page := CutLevel(entries[start..], maxEntries);
  }

  // ---------------------------------------------------------------------------------------------
  // Walking a level page by page.

  /** A level as it is paged: directories before files, in the order of their tokens. */
  predicate Level(entries: seq<Entry>) {
    Stretch(entries) && Kinds(entries) && StrictlySorted(Tokens(entries))
  }

  /** Directories before files. */
  predicate Stretch(entries: seq<Entry>) {
    forall i, j :: 0 <= i < j < |entries| ==> entries[j].kind == 'd' ==> entries[i].kind == 'd'
  }

  predicate Kinds(entries: seq<Entry>) {
    forall i :: 0 <= i < |entries| ==> entries[i].kind == 'd' || entries[i].kind == 'f'
  }

  lemma TokenOrder(a: Entry, b: Entry)
    requires a.kind < b.kind || (a.kind == b.kind && Less(a.value, b.value))
    ensures Less(Token(a), Token(b))
  {
    if a.kind == b.kind {
      LessCommonPrefix([a.kind] + ":", a.value, b.value);
    }
  }

  lemma SortedLevel(directories: seq<string>, files: seq<string>)
    requires StrictlySorted(directories) && StrictlySorted(files)
    ensures Level(Entries(directories, files))
  {
    var entries := Entries(directories, files);
    forall i, j | 0 <= i < j < |entries| ensures Less(Tokens(entries)[i], Tokens(entries)[j]) {
      TokenOrder(entries[i], entries[j]);
    }
  }

  /** The cursor of an entry leads to the entry behind it. */
  lemma ResumeBehind(entries: seq<Entry>, i: nat, e: Entry, next: nat)
    requires Level(entries) && i < |entries| && e == entries[i] && next == i + 1
    ensures Resume(entries, Some(Token(e))) == next
  {
    CountUpToMember(Tokens(entries), i);
  }

  lemma {:induction false} OnlyDirectories(entries: seq<Entry>)
    requires forall i :: 0 <= i < |entries| ==> entries[i].kind == 'd'
    ensures ValuesOf('f', entries) == [] && Tagged('d', ValuesOf('d', entries)) == entries
  {
    if entries != [] { OnlyDirectories(entries[..|entries| - 1]); }
  }

  lemma OneMoreFile(directories: seq<string>, files: seq<string>, file: string)
    ensures Entries(directories, files + [file]) == Entries(directories, files) + [Entry('f', file)]
  {
    assert (files + [file])[..|files|] == files;
  }

  /** Putting the two lists of a page back together gives its stretch of the level. */
  lemma {:induction false} Reassembled(entries: seq<Entry>)
    requires Stretch(entries) && Kinds(entries)
    ensures Entries(ValuesOf('d', entries), ValuesOf('f', entries)) == entries
  {
    if entries != [] {
      var last := entries[|entries| - 1];
      if last.kind == 'd' {
        OnlyDirectories(entries);
      } else {
        var init := entries[..|entries| - 1];
        Reassembled(init);
        OneMoreFile(ValuesOf('d', init), ValuesOf('f', init), last.value);
      }
    }
  }

  lemma FullPage(rest: seq<Entry>, maxEntries: nat)
    requires Stretch(rest) && Kinds(rest) && 0 < maxEntries < |rest|
    ensures var page := PageOf(rest, maxEntries);
      && page.hasMore && page.cursor == Some(Token(rest[maxEntries - 1]))
      && Entries(page.directories, page.files) == rest[..maxEntries]
  {
    Reassembled(rest[..maxEntries]);
  }

  lemma LastPage(rest: seq<Entry>, maxEntries: nat)
    requires Stretch(rest) && Kinds(rest) && |rest| <= maxEntries
    ensures var page := PageOf(rest, maxEntries);
      !page.hasMore && page.cursor == None && Entries(page.directories, page.files) == rest
  {
    Reassembled(rest);
  }

  /** The page holds the next `maxEntries` entries, and has a cursor to what is left, if anything is. */
  predicate Continues(entries: seq<Entry>, from: nat, maxEntries: nat, page: DirPage)
    requires from <= |entries|
  {
    if from + maxEntries < |entries| then
      && page.hasMore && page.cursor.Some? && Resume(entries, page.cursor) == from + maxEntries
      && Entries(page.directories, page.files) == entries[from..][..maxEntries]
    else
      !page.hasMore && page.cursor.None? && Entries(page.directories, page.files) == entries[from..]
  }

  lemma NotExhausted(entries: seq<Entry>, maxEntries: int, startAfter: Option<string>, from: nat)
    requires from == Resume(entries, startAfter) < |entries|
    ensures PageAfter(entries, maxEntries, startAfter) == PageOf(entries[from..], maxEntries)
  {
  }

  /** What is behind a position of a level is a level, but for the order of its texts. */
  lemma RestOfLevel(entries: seq<Entry>, from: nat)
    requires Stretch(entries) && Kinds(entries) && from <= |entries|
    ensures Stretch(entries[from..]) && Kinds(entries[from..])
  {
  }

  /** The cursor of a page with more behind it is its last entry. */
  lemma PageCursor(entries: seq<Entry>, from: nat, maxEntries: nat, startAfter: Option<string>, to: nat)
    requires Stretch(entries) && Kinds(entries) && from == Resume(entries, startAfter)
    requires 0 < maxEntries && to == from + maxEntries < |entries|
    ensures var page := PageAfter(entries, maxEntries, startAfter);
      && page.hasMore && page.cursor == Some(Token(entries[to - 1]))
      && Entries(page.directories, page.files) == entries[from..][..maxEntries]
  {
    NotExhausted(entries, maxEntries, startAfter, from);
    RestOfLevel(entries, from);
    FullPage(entries[from..], maxEntries);
    assert entries[from..][maxEntries - 1] == entries[to - 1];
  }

  lemma PageAtEnd(entries: seq<Entry>, from: nat, maxEntries: nat, startAfter: Option<string>)
    requires Stretch(entries) && Kinds(entries) && from == Resume(entries, startAfter) && |entries| <= from + maxEntries
    ensures var page := PageAfter(entries, maxEntries, startAfter);
      !page.hasMore && page.cursor.None? && Entries(page.directories, page.files) == entries[from..]
  {
    if from < |entries| { NotExhausted(entries, maxEntries, startAfter, from); }
    RestOfLevel(entries, from);
    LastPage(entries[from..], maxEntries);
    assert from == |entries| ==> entries[from..] == [];
  }

  lemma PageWithMore(entries: seq<Entry>, from: nat, maxEntries: nat, startAfter: Option<string>)
    requires Level(entries) && 0 < maxEntries && from == Resume(entries, startAfter) && from + maxEntries < |entries|
    ensures Continues(entries, from, maxEntries, PageAfter(entries, maxEntries, startAfter))
  {
    PageCursor(entries, from, maxEntries, startAfter, from + maxEntries);
    ResumeBehind(entries, from + maxEntries - 1, entries[from + maxEntries - 1], from + maxEntries);
  }

  lemma PageWithoutMore(entries: seq<Entry>, from: nat, maxEntries: nat, startAfter: Option<string>)
    requires Level(entries) && 0 < maxEntries && from == Resume(entries, startAfter) && from + maxEntries >= |entries|
    ensures Continues(entries, from, maxEntries, PageAfter(entries, maxEntries, startAfter))
  {
    PageAtEnd(entries, from, maxEntries, startAfter);
  }

  lemma OnePage(entries: seq<Entry>, maxEntries: nat, startAfter: Option<string>)
    requires Level(entries) && 0 < maxEntries
    ensures Continues(entries, Resume(entries, startAfter), maxEntries, PageAfter(entries, maxEntries, startAfter))
  {
    var from := Resume(entries, startAfter);
    if from + maxEntries < |entries| {
      PageWithMore(entries, from, maxEntries, startAfter);
    } else {
      PageWithoutMore(entries, from, maxEntries, startAfter);
    }
  }

  /** Python's slice keeps the first `n` entries, or leaves out the last `-n`. */
  lemma TakeMeans(entries: seq<Entry>, n: int)
    ensures Take(entries, n) <= entries
    ensures |Take(entries, n)| ==
            if n >= 0 then Smaller(n, |entries|) else |entries| - Smaller(-n, |entries|)
  {
  }

  /** All pages of a level, each read with the cursor of the one before. */
  function Pages(entries: seq<Entry>, maxEntries: nat, startAfter: Option<string>): seq<DirPage>
    requires Level(entries) && maxEntries > 0
    decreases |entries| - Resume(entries, startAfter)
  {
    var page := PageAfter(entries, maxEntries, startAfter);
    OnePage(entries, maxEntries, startAfter);
    if page.cursor.None? then [page] else [page] + Pages(entries, maxEntries, page.cursor)
  }

  function Gathered(pages: seq<DirPage>): seq<Entry> {
    if pages == [] then [] else Entries(pages[0].directories, pages[0].files) + Gathered(pages[1..])
  }

  function Size(page: DirPage): nat {
    |page.directories| + |page.files|
  }

  /** Full pages that promise more, and a last one that does not. */
  predicate WellPaged(pages: seq<DirPage>, maxEntries: nat) {
    && pages != []
    && forall i :: 0 <= i < |pages| ==>
         && (pages[i].hasMore <==> i < |pages| - 1)
         && (if pages[i].hasMore then Size(pages[i]) == maxEntries else Size(pages[i]) <= maxEntries)
  }

  lemma MoreWellPaged(page: DirPage, rest: seq<DirPage>, maxEntries: nat)
    requires WellPaged(rest, maxEntries) && page.hasMore && Size(page) == maxEntries
    ensures WellPaged([page] + rest, maxEntries)
  {
    var pages := [page] + rest;
    forall i | 0 <= i < |pages|
      ensures (pages[i].hasMore <==> i < |pages| - 1)
      ensures if pages[i].hasMore then Size(pages[i]) == maxEntries else Size(pages[i]) <= maxEntries
    {
      if i > 0 { assert pages[i] == rest[i - 1]; }
    }
  }

  lemma MoreGathered(entries: seq<Entry>, from: nat, to: nat, page: DirPage, rest: seq<DirPage>)
    requires from <= to <= |entries| && Entries(page.directories, page.files) == entries[from..to]
    requires Gathered(rest) == entries[to..]
    ensures Gathered([page] + rest) == entries[from..]
  {
    assert ([page] + rest)[1..] == rest;
    assert entries[from..] == entries[from..to] + entries[to..];
  }

  /** The pages together are the level from some entry on. */
  predicate Covers(entries: seq<Entry>, from: nat, maxEntries: nat, pages: seq<DirPage>) {
    from <= |entries| && Gathered(pages) == entries[from..] && WellPaged(pages, maxEntries)
  }

  lemma MorePages(entries: seq<Entry>, from: nat, next: nat, maxEntries: nat, page: DirPage, rest: seq<DirPage>)
    requires next == from + maxEntries < |entries| && Continues(entries, from, maxEntries, page)
    requires Covers(entries, next, maxEntries, rest)
    ensures Covers(entries, from, maxEntries, [page] + rest)
  {
    assert Size(page) == |Entries(page.directories, page.files)|;
    assert entries[from..][..maxEntries] == entries[from..next];
    MoreWellPaged(page, rest, maxEntries);
    MoreGathered(entries, from, next, page, rest);
  }

  lemma NoMorePages(entries: seq<Entry>, from: nat, maxEntries: nat, page: DirPage)
    requires from <= |entries| <= from + maxEntries && Continues(entries, from, maxEntries, page)
    ensures Covers(entries, from, maxEntries, [page])
  {
    assert [page][1..] == [];
  }

  lemma {:induction false} PagesFrom(entries: seq<Entry>, from: nat, maxEntries: nat, startAfter: Option<string>)
    requires Level(entries) && maxEntries > 0 && from == Resume(entries, startAfter)
    ensures Covers(entries, from, maxEntries, Pages(entries, maxEntries, startAfter))
    decreases |entries| - from
  {
    var page := PageAfter(entries, maxEntries, startAfter);
    if from + maxEntries < |entries| {
      var next := from + maxEntries;
      PageWithMore(entries, from, maxEntries, startAfter);
      PagesFrom(entries, next, maxEntries, page.cursor);
      MorePages(entries, from, next, maxEntries, page, Pages(entries, maxEntries, page.cursor));
    } else {
      PageWithoutMore(entries, from, maxEntries, startAfter);
      NoMorePages(entries, from, maxEntries, page);
    }
  }

  /**
    Following the cursors ends, and returns every entry exactly once, directories before files:
    the pages together are the level, every page but the last is full, and exactly the last has no more.
  */
  lemma CursorPagingIsExact(directories: seq<string>, files: seq<string>, maxEntries: nat)
    requires StrictlySorted(directories) && StrictlySorted(files) && maxEntries > 0
    ensures Level(Entries(directories, files))
    ensures var pages := Pages(Entries(directories, files), maxEntries, None);
      Gathered(pages) == Entries(directories, files) && WellPaged(pages, maxEntries)
  {
    SortedLevel(directories, files);
    PagesFrom(Entries(directories, files), 0, maxEntries, None);
  }
}
