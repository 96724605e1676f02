/**
  One level of a directory, seen as a part of the file tree (packvault/storage/local.py,
  `list_prefix_level`) and as a grouping of flat keys (packvault/storage/prefix_listing.py).
*/
module DirectoryLevel {
  import opened Basics
  import opened Strings
  import opened Text
  import opened FileTree
  import opened Segments
  import opened DirectoryPage

  function DirectoryBoundary(prefix: string): string {
    if prefix == "" then "" else if prefix[|prefix| - 1] == '/' then prefix else prefix + "/"
  }

  /** Everything before the first slash. */
  function FirstSegment(s: string): (r: string)
    ensures |r| <= |s|
  {
    if s == "" || s[0] == '/' then "" else [s[0]] + FirstSegment(s[1..])
  }

  /** Where a flat key belongs when one looks at the level of a prefix. */
  datatype Place = Elsewhere | InDirectory(name: string) | AtLevel

  function PlaceBelow(remainder: string): Place {
    if remainder == "" then Elsewhere
    else
      var segment := FirstSegment(remainder);
      if |segment| + 1 < |remainder| then InDirectory(segment) else AtLevel
  }

  function PlaceOf(key: string, prefix: string): Place {
    var boundary := DirectoryBoundary(prefix);
    if boundary <= key then PlaceBelow(key[|boundary|..])
    else if key == StripRight(prefix) then AtLevel
    else Elsewhere
  }

  function KeysAtLevel(keys: seq<string>, prefix: string): seq<string> {
    if keys == [] then []
    else
      var last := keys[|keys| - 1];
      KeysAtLevel(keys[..|keys| - 1], prefix) + if PlaceOf(last, prefix).AtLevel? then [last] else []
  }

  function DirectoriesAmong(keys: seq<string>, prefix: string): set<string> {
    set key | key in keys && PlaceOf(key, prefix).InDirectory? :: PlaceOf(key, prefix).name
  }

  lemma OneMoreKey(keys: seq<string>, i: nat, prefix: string)
    requires i < |keys|
    ensures var place := PlaceOf(keys[i], prefix);
      && DirectoriesAmong(keys[..i + 1], prefix) ==
           DirectoriesAmong(keys[..i], prefix) + (if place.InDirectory? then {place.name} else {})
      && KeysAtLevel(keys[..i + 1], prefix) ==
          KeysAtLevel(keys[..i], prefix) + (if place.AtLevel? then [keys[i]] else [])
  {
    assert keys[..i + 1] == keys[..i] + [keys[i]];
    assert keys[i] in keys[..i + 1];
  }

  method SplitImmediateChildren(keys: seq<string>, prefix: string)
    returns (directories: seq<string>, files: seq<string>)
    ensures directories == SortedOf(DirectoriesAmong(keys, prefix))
    ensures files == Sort(KeysAtLevel(keys, prefix))
  {
    var found: set<string> := {};
    var atLevel: seq<string> := [];
    var i := 0;
    while i < |keys|
      invariant 0 <= i <= |keys|
      invariant found == DirectoriesAmong(keys[..i], prefix) && atLevel == KeysAtLevel(keys[..i], prefix)
    {
      OneMoreKey(keys, i, prefix);
      var place := PlaceOf(keys[i], prefix);
      if place.InDirectory? {
        found := found + {place.name};
      } else if place.AtLevel? {
        atLevel := atLevel + [keys[i]];
      }
      i := i + 1;
    }
    assert keys[..|keys|] == keys;
    directories := SortSet(found);
    files := Sort(atLevel);
  }

  // ---------------------------------------------------------------------------------------------
  // The same level in the tree.

  /** `path` lies directly in the directory `prefix`. */
  predicate IsChild(path: string, prefix: string) {
    if prefix == "" then '/' !in path else Ancestor(prefix, path) && '/' !in path[|prefix| + 1..]
  }

  lemma ChildSegments(prefix: string, name: string)
    requires '/' !in name
    ensures Split(prefix + ['/'] + name, '/') == Split(prefix, '/') + [name]
  {
    SplitConcat(prefix, name, '/');
    SplitWhole(name, '/');
  }

  /** A child has the segments of its directory and one more. */
  lemma ChildIsSegmentwise(path: string, prefix: string)
    ensures var s := Split(path, '/');
      IsChild(path, prefix) <==> if prefix == "" then |s| == 1 else s[..|s| - 1] == Split(prefix, '/')
  {
    var s := Split(path, '/');
    SplitHasNoSeparator(path, '/');
    JoinSplit(path, '/');
    if prefix == "" {
      if '/' !in path { SplitWhole(path, '/'); }
    } else if IsChild(path, prefix) {
      assert path == prefix + ['/'] + path[|prefix| + 1..];
      ChildSegments(prefix, path[|prefix| + 1..]);
    } else if s[..|s| - 1] == Split(prefix, '/') {
      LastChild(path, prefix);
    }
  }

  lemma LastChild(path: string, prefix: string)
    requires prefix != "" && Split(path, '/')[..|Split(path, '/')| - 1] == Split(prefix, '/')
    ensures IsChild(path, prefix)
  {
    var s := Split(path, '/');
    var last := s[|s| - 1];
    SplitHasNoSeparator(path, '/');
    JoinSplit(path, '/');
    JoinSplit(prefix, '/');
    assert s == Split(prefix, '/') + [last];
    JoinConcat(Split(prefix, '/'), [last], '/');
    assert path == prefix + ['/'] + last && path[|prefix| + 1..] == last;
  }

  function ChildPath(prefix: string, name: string): string {
    DirectoryBoundary(prefix) + name
  }

  function NameIn(path: string, prefix: string): string
    requires IsChild(path, prefix)
  {
    if prefix == "" then path else path[|prefix| + 1..]
  }

  function ChildDirectories(t: Tree, prefix: string): set<string> {
    set path | path in t.dirs && IsChild(path, prefix) :: NameIn(path, prefix)
  }

  function ChildFiles(t: Tree, prefix: string): set<string> {
    set path | path in t.files && IsChild(path, prefix)
  }

  ghost function LevelEntries(t: Tree, prefix: string): seq<Entry> {
    Entries(SortedOf(ChildDirectories(t, prefix)), SortedOf(ChildFiles(t, prefix)))
  }

  function ChildNames(t: Tree, prefix: string): set<string> {
    set path | path in t.files.Keys + t.dirs && IsChild(path, prefix) :: NameIn(path, prefix)
  }

  const NOTHING: DirPage := DirPage([], [], None, false)

  ghost function LevelListing(t: Tree, prefix: string, maxEntries: int, token: Option<string>): DirPage {
    if prefix in t.files then if token.Some? then NOTHING else DirPage([], [prefix], None, false)
    else if prefix != "" && prefix !in t.dirs then NOTHING
    else PageAfter(LevelEntries(t, prefix), maxEntries, token)
  }

  /** The level of a prefix that is a file is one page with the file; of one that is missing there is nothing. */
  lemma LevelOfFile(t: Tree, prefix: string, maxEntries: int, token: string)
    requires TreeOk(t) && prefix != "" && prefix !in t.dirs
    ensures LevelListing(t, prefix, maxEntries, Some(token)) == DirPage([], [], None, false)
    ensures LevelListing(t, prefix, maxEntries, None) ==
            DirPage([], if prefix in t.files then [prefix] else [], None, false)
  {
  }

  lemma LevelSorted(t: Tree, prefix: string)
    ensures Level(LevelEntries(t, prefix))
  {
    SortedLevel(SortedOf(ChildDirectories(t, prefix)), SortedOf(ChildFiles(t, prefix)));
  }

  /** All pages of a level, each requested with the cursor of the one before. */
  ghost function LevelPages(t: Tree, prefix: string, maxEntries: nat, token: Option<string>): seq<DirPage>
    requires maxEntries > 0
    decreases |LevelEntries(t, prefix)| - Resume(LevelEntries(t, prefix), token)
  {
    var page := LevelListing(t, prefix, maxEntries, token);
    LevelSorted(t, prefix);
    OnePage(LevelEntries(t, prefix), maxEntries, token);
    if page.cursor.None? then [page] else [page] + LevelPages(t, prefix, maxEntries, page.cursor)
  }

  lemma {:induction false} DirectoryPages(t: Tree, prefix: string, maxEntries: nat, token: Option<string>)
    requires maxEntries > 0 && prefix !in t.files && (prefix == "" || prefix in t.dirs)
    ensures Level(LevelEntries(t, prefix))
    ensures LevelPages(t, prefix, maxEntries, token) == Pages(LevelEntries(t, prefix), maxEntries, token)
    decreases |LevelEntries(t, prefix)| - Resume(LevelEntries(t, prefix), token)
  {
    var page := LevelListing(t, prefix, maxEntries, token);
    LevelSorted(t, prefix);
    OnePage(LevelEntries(t, prefix), maxEntries, token);
    if page.cursor.Some? { DirectoryPages(t, prefix, maxEntries, page.cursor); }
  }

  // ---------------------------------------------------------------------------------------------
  // Flat keys and tree agree.

  lemma {:induction false} FirstSegmentFacts(s: string)
    ensures var n := |FirstSegment(s)|;
      FirstSegment(s) == s[..n] && '/' !in s[..n] && (n < |s| ==> s[n] == '/')
  {
    if s != "" && s[0] != '/' {
      FirstSegmentFacts(s[1..]);
      var n := |FirstSegment(s[1..])|;
      assert s[..n + 1] == [s[0]] + s[1..][..n];
    }
  }

  predicate Name(s: string) {
    s != "" && '/' !in s
  }

  /** The directory `name` in `prefix` is above the key. */
  predicate Holds(prefix: string, name: string, key: string) {
    Name(name) && Ancestor(ChildPath(prefix, name), key)
  }

  lemma {:induction false} SegmentUnique(s: string, name: string)
    requires '/' !in name && Ancestor(name, s)
    ensures FirstSegment(s) == name
  {
    if name != "" {
      assert s[1..][..|name| - 1] == name[1..];
      SegmentUnique(s[1..], name[1..]);
    }
  }

  lemma PlaceBelowFacts(s: string, name: string)
    requires s != "" && s[0] != '/' && s[|s| - 1] != '/'
    ensures PlaceBelow(s).AtLevel? <==> '/' !in s
    ensures PlaceBelow(s) == InDirectory(name) <==> Name(name) && Ancestor(name, s)
  {
    FirstSegmentFacts(s);
    var n := |FirstSegment(s)|;
    if n == |s| { assert s[..n] == s; }
    if n < |s| { assert s[n] in s; }
    if Name(name) && Ancestor(name, s) { SegmentUnique(s, name); }
  }

  lemma NoDoubleSlash(key: string, i: nat)
    requires Clean(key) && 0 < i < |key| && key[i - 1] == '/'
    ensures key[i] != '/'
  {
  }

  lemma CleanRemainder(key: string, prefix: string)
    requires Clean(key) && Ancestor(prefix, key)
    ensures var r := key[|prefix| + 1..]; r != "" && r[0] != '/' && r[|r| - 1] != '/'
  {
    assert key[|key| - 1] != '/';
    NoDoubleSlash(key, |prefix| + 1);
  }

  lemma BoundaryIsAncestor(key: string, prefix: string)
    requires Clean(key) && Clean(prefix)
    ensures DirectoryBoundary(prefix) <= key <==> Ancestor(prefix, key)
    ensures StripRight(prefix) == prefix
  {
    var b := prefix + "/";
    assert key[|key| - 1] != '/';
    if b <= key {
      assert key[..|prefix|] == b[..|prefix|] == prefix;
      assert key[|prefix|] == b[|prefix|];
    }
    if Ancestor(prefix, key) { assert key[..|b|] == key[..|prefix|] + [key[|prefix|]]; }
  }

  lemma AncestorBelow(prefix: string, name: string, key: string)
    requires prefix != "" && Ancestor(prefix, key)
    ensures Ancestor(prefix + "/" + name, key) <==> Ancestor(name, key[|prefix| + 1..])
  {
    var p, r := prefix + "/", key[|prefix| + 1..];
    assert key == p + r;
    var c := p + name;
    if Ancestor(c, key) {
      assert key[..|c|] == c;
      assert r[..|name|] == c[|p|..] == name;
    }
    if Ancestor(name, r) {
      assert key[..|c|] == p + r[..|name|];
    }
  }

  /** The place of a stored key: at the level when it is the prefix or a child, else in the child directory above it. */
  lemma PlaceFacts(key: string, prefix: string, name: string)
    requires Clean(key) && (prefix == "" || Clean(prefix))
    ensures PlaceOf(key, prefix).AtLevel? <==> key == prefix || IsChild(key, prefix)
    ensures PlaceOf(key, prefix) == InDirectory(name) <==> Holds(prefix, name, key)
  {
    if prefix == "" {
      assert key[0..] == key && "" + name == name;
      PlaceBelowFacts(key, name);
    } else {
      BoundaryIsAncestor(key, prefix);
      if Ancestor(prefix, key) {
        CleanRemainder(key, prefix);
        PlaceBelowFacts(key[|prefix| + 1..], name);
        AncestorBelow(prefix, name, key);
      } else if Holds(prefix, name, key) {
        HeldBelow(prefix, name, key);
      }
    }
  }

  lemma HeldBelow(prefix: string, name: string, key: string)
    requires Clean(prefix) && Holds(prefix, name, key)
    ensures Ancestor(prefix, key)
  {
    var c := prefix + "/" + name;
    assert key[..|c|] == c;
    assert key[..|prefix|] == c[..|prefix|] == prefix && key[|prefix|] == c[|prefix|];
  }

  lemma ChildPathFacts(prefix: string, name: string)
    requires (prefix == "" || Clean(prefix)) && Name(name)
    ensures IsChild(ChildPath(prefix, name), prefix) && NameIn(ChildPath(prefix, name), prefix) == name
  {
    if prefix != "" {
      var c := prefix + "/" + name;
      assert c[|prefix| + 1..] == name && c[..|prefix|] == prefix;
    }
  }

  lemma ChildIsChildPath(path: string, prefix: string)
    requires (prefix == "" || Clean(prefix)) && Clean(path) && IsChild(path, prefix)
    ensures Name(NameIn(path, prefix)) && ChildPath(prefix, NameIn(path, prefix)) == path
  {
    if prefix != "" { CleanRemainder(path, prefix); }
  }

  lemma ChildDirectoryIff(t: Tree, prefix: string, name: string)
    requires TreeOk(t) && (prefix == "" || Clean(prefix))
    ensures name in ChildDirectories(t, prefix) <==> Name(name) && ChildPath(prefix, name) in t.dirs
  {
    if name in ChildDirectories(t, prefix) {
      var path :| path in t.dirs && IsChild(path, prefix) && NameIn(path, prefix) == name;
      assert Exists(t, path);
      ChildIsChildPath(path, prefix);
    }
    if Name(name) { ChildPathFacts(prefix, name); }
  }

  /** `keys` lists the stored keys, each once. */
  ghost predicate Lists(keys: seq<string>, t: Tree) {
    Distinct(keys) && forall key :: key in keys <==> key in t.files
  }

  /** The directory has a file somewhere below it. */
  predicate HasFiles(t: Tree, directory: string) {
    exists key :: key in t.files && Ancestor(directory, key)
  }

  /** Flat grouping finds exactly the child directories that have files. */
  lemma FlatDirectories(t: Tree, keys: seq<string>, prefix: string, name: string)
    requires TreeOk(t) && Lists(keys, t) && (prefix == "" || Clean(prefix))
    ensures name in DirectoriesAmong(keys, prefix) <==>
            name in ChildDirectories(t, prefix) && HasFiles(t, ChildPath(prefix, name))
  {
    ChildDirectoryIff(t, prefix, name);
    if name in DirectoriesAmong(keys, prefix) {
      var key :| key in keys && PlaceOf(key, prefix) == InDirectory(name);
      assert Exists(t, key);
      PlaceFacts(key, prefix, name);
    }
    if name in ChildDirectories(t, prefix) && HasFiles(t, ChildPath(prefix, name)) {
      var key :| key in t.files && Ancestor(ChildPath(prefix, name), key);
      assert Exists(t, key);
      PlaceFacts(key, prefix, name);
      assert key in keys && PlaceOf(key, prefix).name == name;
    }
  }

  lemma {:induction false} KeysAtLevelFacts(keys: seq<string>, prefix: string)
    requires Distinct(keys)
    ensures Distinct(KeysAtLevel(keys, prefix))
    ensures forall key :: key in KeysAtLevel(keys, prefix) <==> key in keys && PlaceOf(key, prefix).AtLevel?
  {
    if keys != [] {
      KeysAtLevelFacts(keys[..|keys| - 1], prefix);
      assert keys == keys[..|keys| - 1] + [keys[|keys| - 1]];
    }
  }

  /** The files of a level: those directly in the directory, or the prefix itself when it is a file. */
  ghost function LevelFiles(t: Tree, prefix: string): set<string> {
    ChildFiles(t, prefix) + if prefix in t.files then {prefix} else {}
  }

  lemma FlatFiles(t: Tree, keys: seq<string>, prefix: string)
    requires TreeOk(t) && Lists(keys, t) && (prefix == "" || Clean(prefix))
    ensures Sort(KeysAtLevel(keys, prefix)) == SortedOf(LevelFiles(t, prefix))
  {
    KeysAtLevelFacts(keys, prefix);
    SortDistinct(KeysAtLevel(keys, prefix));
    forall key | key in t.files
      ensures PlaceOf(key, prefix).AtLevel? <==> key == prefix || IsChild(key, prefix)
    {
      assert Exists(t, key);
      PlaceFacts(key, prefix, "");
    }
    SortedOfUnique(Sort(KeysAtLevel(keys, prefix)), LevelFiles(t, prefix));
  }

  /** Nothing lies in a file or in a directory that is not there. */
  lemma NoDirectoryNoChildren(t: Tree, prefix: string)
    requires TreeOk(t) && prefix != "" && prefix !in t.dirs
    ensures ChildDirectories(t, prefix) == {} && ChildFiles(t, prefix) == {}
  {
    forall path | Exists(t, path) ensures !IsChild(path, prefix) {}
  }

  lemma LevelIsGathered(t: Tree, prefix: string, maxEntries: nat)
    requires TreeOk(t) && maxEntries > 0
    ensures Gathered(LevelPages(t, prefix, maxEntries, None)) ==
            Entries(SortedOf(ChildDirectories(t, prefix)), SortedOf(LevelFiles(t, prefix)))
  {
    if prefix in t.files || (prefix != "" && prefix !in t.dirs) {
      assert prefix in t.files ==> Exists(t, prefix);
      NoDirectoryNoChildren(t, prefix);
      SortedOfUnique(if prefix in t.files then [prefix] else [], LevelFiles(t, prefix));
      var page := LevelListing(t, prefix, maxEntries, None);
      assert [page][1..] == [];
    } else {
      DirectoryPages(t, prefix, maxEntries, None);
      CursorPagingIsExact(SortedOf(ChildDirectories(t, prefix)), SortedOf(ChildFiles(t, prefix)), maxEntries);
    }
  }

  /**
    All pages of a level together are the grouping of the flat keys. The files always agree, also when
    the prefix is a file or is missing; the directories agree exactly when every child directory has a
    file below it, and else the tree shows more of them.
  */
  lemma TreeViewAgreesWithKeys(t: Tree, keys: seq<string>, prefix: string, maxEntries: nat)
    requires TreeOk(t) && Lists(keys, t) && (prefix == "" || Clean(prefix)) && maxEntries > 0
    ensures Gathered(LevelPages(t, prefix, maxEntries, None)) ==
            Entries(SortedOf(ChildDirectories(t, prefix)), Sort(KeysAtLevel(keys, prefix)))
    ensures DirectoriesAmong(keys, prefix) <= ChildDirectories(t, prefix)
    ensures Gathered(LevelPages(t, prefix, maxEntries, None)) ==
              Entries(SortedOf(DirectoriesAmong(keys, prefix)), Sort(KeysAtLevel(keys, prefix)))
            <==> forall name :: name in ChildDirectories(t, prefix) ==> HasFiles(t, ChildPath(prefix, name))
  {
    LevelIsGathered(t, prefix, maxEntries);
    FlatFiles(t, keys, prefix);
    forall name
      ensures name in DirectoriesAmong(keys, prefix) <==>
              name in ChildDirectories(t, prefix) && HasFiles(t, ChildPath(prefix, name))
    {
      FlatDirectories(t, keys, prefix, name);
    }
    SameDirectoriesIff(ChildDirectories(t, prefix), DirectoriesAmong(keys, prefix), Sort(KeysAtLevel(keys, prefix)));
  }

  lemma SameDirectoriesIff(tree: set<string>, flat: set<string>, files: seq<string>)
    ensures Entries(SortedOf(tree), files) == Entries(SortedOf(flat), files) <==> tree == flat
  {
    if tree != flat {
      assert SortedOf(tree) != SortedOf(flat) by {
        if SortedOf(tree) == SortedOf(flat) {
          forall name ensures name in tree <==> name in flat {
            assert name in SortedOf(tree) <==> name in tree;
          }
        }
      }
      EntriesInjective(SortedOf(tree), SortedOf(flat), files);
    }
  }

  lemma EntriesInjective(d1: seq<string>, d2: seq<string>, files: seq<string>)
    requires d1 != d2
    ensures Entries(d1, files) != Entries(d2, files)
  {
    if |d1| == |d2| {
      var i :| 0 <= i < |d1| && d1[i] != d2[i];
      assert Entries(d1, files)[i].value == d1[i];
    }
  }

  // ---------------------------------------------------------------------------------------------
  // Dividing the children of a directory into directories and files.

  lemma ChildNameIff(t: Tree, prefix: string, name: string)
    requires TreeOk(t) && (prefix == "" || Clean(prefix))
    ensures name in ChildNames(t, prefix) <==> Name(name) && Exists(t, ChildPath(prefix, name))
  {
    if name in ChildNames(t, prefix) {
      var path :| path in t.files.Keys + t.dirs && IsChild(path, prefix) && NameIn(path, prefix) == name;
      assert Exists(t, path);
      ChildIsChildPath(path, prefix);
    }
    if Name(name) { ChildPathFacts(prefix, name); }
  }

  lemma ChildFileIff(t: Tree, prefix: string, name: string)
    requires TreeOk(t) && (prefix == "" || Clean(prefix)) && Name(name)
    ensures ChildPath(prefix, name) in ChildFiles(t, prefix) <==> ChildPath(prefix, name) in t.files
  {
    ChildPathFacts(prefix, name);
  }

  /** The first `i` names are divided: directories by name, files by path, both in order. */
  ghost predicate Divided(t: Tree, prefix: string, names: seq<string>, i: nat, directories: seq<string>,
                          files: seq<string>)
    requires i <= |names|
  {
    && directories == Directories(t, prefix, names[..i])
    && files == Files(t, prefix, names[..i])
  }

  function Directories(t: Tree, prefix: string, names: seq<string>): seq<string> {
    if names == [] then []
    else
      var last := names[|names| - 1];
      Directories(t, prefix, names[..|names| - 1]) + if ChildPath(prefix, last) in t.dirs then [last] else []
  }

  function Files(t: Tree, prefix: string, names: seq<string>): seq<string> {
    if names == [] then []
    else
      var path := ChildPath(prefix, names[|names| - 1]);
      Files(t, prefix, names[..|names| - 1]) + if path in t.dirs then [] else [path]
  }

  lemma DividedStep(t: Tree, prefix: string, names: seq<string>, i: nat, directories: seq<string>, files: seq<string>)
    requires i < |names| && Divided(t, prefix, names, i, directories, files)
    ensures var path := ChildPath(prefix, names[i]);
      if path in t.dirs then Divided(t, prefix, names, i + 1, directories + [names[i]], files)
      else Divided(t, prefix, names, i + 1, directories, files + [path])
  {
    assert names[..i + 1][..i] == names[..i];
  }

  lemma SortedAppend(s: seq<string>, x: string)
    requires StrictlySorted(s) && forall y :: y in s ==> Less(y, x)
    ensures StrictlySorted(s + [x])
  {
  }

  lemma {:induction false} DirectoriesSorted(t: Tree, prefix: string, names: seq<string>)
    requires StrictlySorted(names)
    ensures var d := Directories(t, prefix, names);
      && StrictlySorted(d)
      && (forall x :: x in d <==> x in names && ChildPath(prefix, x) in t.dirs)
  {
    if names != [] {
      var init, last := names[..|names| - 1], names[|names| - 1];
      DirectoriesSorted(t, prefix, init);
      assert names == init + [last];
      SortedAppend(Directories(t, prefix, init), last);
    }
  }

  lemma {:induction false} FilesSorted(t: Tree, prefix: string, names: seq<string>)
    requires StrictlySorted(names)
    ensures var f := Files(t, prefix, names);
      && StrictlySorted(f)
      && (forall y :: y in f ==> exists x :: x in names && y == ChildPath(prefix, x) && y !in t.dirs)
      && (forall x :: x in names && ChildPath(prefix, x) !in t.dirs ==> ChildPath(prefix, x) in f)
  {
    if names != [] {
      var init, last := names[..|names| - 1], names[|names| - 1];
      FilesSorted(t, prefix, init);
      assert names == init + [last];
      forall x | x in init ensures Less(ChildPath(prefix, x), ChildPath(prefix, last)) {
        LessCommonPrefix(DirectoryBoundary(prefix), x, last);
      }
      SortedAppend(Files(t, prefix, init), ChildPath(prefix, last));
    }
  }

  lemma DividedAll(t: Tree, prefix: string, names: seq<string>, directories: seq<string>, files: seq<string>)
    requires TreeOk(t) && (prefix == "" || Clean(prefix)) && names == SortedOf(ChildNames(t, prefix))
    requires Divided(t, prefix, names, |names|, directories, files)
    ensures directories == SortedOf(ChildDirectories(t, prefix)) && files == SortedOf(ChildFiles(t, prefix))
  {
    assert names[..|names|] == names;
    DirectoriesSorted(t, prefix, names);
    FilesSorted(t, prefix, names);
    forall x ensures x in directories <==> x in ChildDirectories(t, prefix) {
      ChildDirectoryIff(t, prefix, x);
      ChildNameIff(t, prefix, x);
    }
    SortedOfUnique(directories, ChildDirectories(t, prefix));
    forall y ensures y in files <==> y in ChildFiles(t, prefix) {
      ListedFile(t, prefix, names, y);
    }
    SortedOfUnique(files, ChildFiles(t, prefix));
  }

  lemma ListedFile(t: Tree, prefix: string, names: seq<string>, y: string)
    requires TreeOk(t) && (prefix == "" || Clean(prefix)) && names == SortedOf(ChildNames(t, prefix))
    ensures y in Files(t, prefix, names) <==> y in ChildFiles(t, prefix)
  {
    FilesSorted(t, prefix, names);
    if y in Files(t, prefix, names) {
      var x :| x in names && y == ChildPath(prefix, x) && y !in t.dirs;
      ChildNameIff(t, prefix, x);
      ChildFileIff(t, prefix, x);
    }
    if y in ChildFiles(t, prefix) {
      assert Exists(t, y);
      ChildIsChildPath(y, prefix);
      ChildNameIff(t, prefix, NameIn(y, prefix));
    }
  }
}
