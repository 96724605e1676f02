/** The local artifact store as an object that changes its tree (packvault/storage/local.py). */
module LocalStore {
  import opened Basics
  import opened Strings
  import opened FileTree
  import opened DirectoryPage
  import opened DirectoryLevel

  /** `Unconfirmed` is a storage error that is raised after the object is in place. */
  datatype PutAnswer = Stored | Unconfirmed | Conflict | StorageError | BodyError | RawOsError

  datatype DeleteAnswer = Deleted | NotFound | DeleteFailed

  datatype HeadAnswer = Size(size: nat) | Missing | Unavailable

  function HeadOf(t: Tree, key: string): HeadAnswer {
    if exists a :: a in Ancestors(key) && a in t.files then Unavailable
    else if key in t.files then Size(|t.files[key]|)
    else Missing
  }

  /** A page of keys, and the token to continue with if there is one. */
  datatype Page = Page(keys: seq<string>, token: Option<string>)

  /** The page of `maxKeys` keys that starts at a position of a sorted list. */
  function PageAt(sorted: seq<string>, from: nat, maxKeys: nat): Page
    requires maxKeys > 0 && from <= |sorted|
  {
    if |sorted| - from > maxKeys then Page(sorted[from..from + maxKeys], Some(sorted[from + maxKeys - 1]))
    else Page(sorted[from..], None)
  }

  /** All keys at or below the prefix, sorted. */
  ghost function SortedUnder(t: Tree, prefix: string): seq<string> {
    SortedOf(KeysUnder(t, prefix))
  }

  /** Where a listing resumes; a prefix that is itself a file has only a first page. */
  ghost function Position(t: Tree, prefix: string, resume: Option<string>): (n: nat)
    ensures n <= |SortedUnder(t, prefix)|
  {
    if resume.None? then 0
    else if prefix in t.files then |SortedUnder(t, prefix)|
    else CountUpTo(SortedUnder(t, prefix), resume.value)
  }

  ghost function Listing(t: Tree, prefix: string, maxKeys: nat, resume: Option<string>): Page
    requires maxKeys > 0
  {
    PageAt(SortedUnder(t, prefix), Position(t, prefix, resume), maxKeys)
  }

  /** How a put ends: `stop` is the failure that ends the copy of the body, if one does. */
  ghost function PutResult(t: Tree, key: string, exclusive: bool, stop: Option<PutAnswer>): PutAnswer {
    if SysReturn(t, MakeDirs(key)) != Done then RawOsError
    else if exclusive && Exists(t, key) then Conflict
    else if stop.Some? then stop.value
    else if key in t.dirs then StorageError
    else Stored
  }

  ghost function PutTree(t: Tree, key: string, content: Bytes, answer: PutAnswer): Tree {
    var made := Effect(t, MakeDirs(key));
    if answer.Stored? then made.(files := made.files[key := content]) else made
  }

  lemma PutKeepsTree(t: Tree, key: string, content: Bytes, exclusive: bool, stop: Option<PutAnswer>)
    requires TreeOk(t) && Clean(key) && (stop.Some? ==> !stop.value.Stored?)
    ensures TreeOk(PutTree(t, key, content, PutResult(t, key, exclusive, stop)))
  {
    var made := Effect(t, MakeDirs(key));
    CallKeepsTree(t, MakeDirs(key));
    CallKeepsTree(made, Replace(key, content));
  }

  /**
    In terms of the tree alone: a put is stored exactly when no file stands above the key, no directory in its
    place, no file either if the put is exclusive, and nothing stops the copy. Then the content is under the key,
    and else every file is as it was; the directories above the key are there unless a file is in their way.
  */
  lemma PutMeans(t: Tree, key: string, content: Bytes, exclusive: bool, stop: Option<PutAnswer>)
    requires TreeOk(t) && (stop.Some? ==> stop.value.StorageError? || stop.value.BodyError?)
    ensures var answer := PutResult(t, key, exclusive, stop);
      var u := PutTree(t, key, content, answer);
      var below := exists a :: a in t.files && Ancestor(a, key);
      && (answer.Stored? <==> !below && key !in t.dirs && !(exclusive && key in t.files) && stop.None?)
      && (answer.Conflict? <==> !below && exclusive && (key in t.files || key in t.dirs))
      && (answer.BodyError? <==> !below && !answer.Conflict? && stop == Some(BodyError))
      && (answer.RawOsError? <==> below) && !answer.Unconfirmed?
      && u.files == (if answer.Stored? then t.files[key := content] else t.files)
      && (forall d :: d in u.dirs <==> d in t.dirs || (!below && Ancestor(d, key)))
  {
  }

  /** A key is looked up in terms of the tree alone. */
  lemma HeadMeans(t: Tree, key: string, size: nat)
    ensures HeadOf(t, key) == Unavailable <==> exists a :: a in t.files && Ancestor(a, key)
    ensures TreeOk(t) ==> (HeadOf(t, key) == Size(size) <==> key in t.files && |t.files[key]| == size)
    ensures TreeOk(t) && key in t.files ==> HeadOf(t, key) == Size(|t.files[key]|)
  {
    if TreeOk(t) && key in t.files { assert Exists(t, key); }
  }

  lemma TwoCalls(t: Tree, first: SysCall, second: SysCall)
    ensures RunCalls(t, [first, second]) == Effect(Effect(t, first), second)
  {
    var calls := [first, second];
    assert calls[..1] == [first];
    assert [first][..0] == [];
    assert RunCalls(t, [first]) == Effect(t, first);
  }

  /** A put that is not interrupted is its two system calls, and is stored exactly when both succeed. */
  lemma PutIsItsCalls(t: Tree, key: string, content: Bytes, exclusive: bool)
    requires TreeOk(t) && Clean(key)
    ensures var place := if exclusive then Link(key, content) else Replace(key, content);
      var answer := PutResult(t, key, exclusive, None);
      && PutTree(t, key, content, answer) == RunCalls(t, [MakeDirs(key), place])
      && (answer.Stored? <==> SysReturn(t, MakeDirs(key)) == Done && SysReturn(Effect(t, MakeDirs(key)), place) == Done)
  {
    var place := if exclusive then Link(key, content) else Replace(key, content);
    TwoCalls(t, MakeDirs(key), place);
    if SysReturn(t, MakeDirs(key)) != Done {
      var a :| a in Ancestors(key) && a in t.files;
      assert a !in t.dirs;
    }
  }

  class LocalStore {
    var files: map<string, Bytes>
    var dirs: set<string>

    ghost function Contents(): Tree
      reads this
    {
      Tree(files, dirs)
    }

    ghost predicate Valid()
      reads this
    {
      TreeOk(Contents())
    }

    /** Opens a root directory with what it holds already. */
    constructor (existing: Tree)
      requires TreeOk(existing)
      ensures Valid() && Contents() == existing
    {
      files, dirs := existing.files, existing.dirs;
    }

    /** Fails when something above the key is a file: the path cannot even be examined. */
    method Head(key: string) returns (size: HeadAnswer)
      ensures size == HeadOf(Contents(), key)
    {
      if exists a :: a in Ancestors(key) && a in files { return Unavailable; }
      size := if key in files then Size(|files[key]|) else Missing;
    }

    /** The chunks that a reader of the file gets; `None` when there is no such file. */
    method Get(key: string) returns (chunks: Option<seq<Bytes>>)
      ensures chunks.Some? <==> key in files
      ensures chunks.Some? ==> chunks.value == Chunks(files[key]) && Concat(chunks.value) == files[key]
    {
      if key !in files { return None; }
      var read := ReadChunks(files[key]);
      chunks := Some(read);
    }

    /**
      Stores the chunks. The copy into the temp file stops with `stop.value.1` once
      `stop.value.0` chunks are written; that is a full disk or a body that raises. An exclusive put
      links its temp file and then removes it; `unlinkFails` makes the removal raise.
    */
    method Put(key: string, chunks: seq<Bytes>, exclusive: bool, stop: Option<(nat, PutAnswer)>, unlinkFails: bool)
      returns (answer: PutAnswer)
      requires Valid() && Clean(key)
      requires stop.Some? ==> stop.value.0 <= |chunks| && (stop.value.1.StorageError? || stop.value.1.BodyError?)
      modifies this
      ensures Valid()
      ensures var result := PutResult(old(Contents()), key, exclusive, if stop.Some? then Some(stop.value.1) else None);
        && Contents() == PutTree(old(Contents()), key, Concat(chunks), result)
        && answer == if result.Stored? && exclusive && unlinkFails then Unconfirmed else result
    {
      ghost var before := Contents();
      if exists a :: a in Ancestors(key) && a in files {
        return RawOsError;
      }
      dirs := dirs + Ancestors(key);
      CallKeepsTree(before, MakeDirs(key));
      ghost var made := Contents();
      assert made == Effect(before, MakeDirs(key));
      if exclusive && (key in files || key in dirs) {
        return Conflict;
      }
      var temp: Bytes := [];
      var written := 0;
      while written < |chunks| && !(stop.Some? && stop.value.0 == written)
        invariant 0 <= written <= |chunks| && temp == Concat(chunks[..written])
        invariant stop.Some? ==> written <= stop.value.0
        invariant Contents() == made
      {
        ConcatStep(chunks, written);
        temp := temp + chunks[written];
        written := written + 1;
      }
      if stop.Some? { return stop.value.1; }
      ConcatAll(chunks);
      if key in dirs { return StorageError; }
      CallKeepsTree(made, Replace(key, temp));
      files := files[key := temp];
      assert Contents() == Effect(made, Replace(key, temp));
      answer := if exclusive && unlinkFails then Unconfirmed else Stored;
    }

    /** Removes the file; `fault` makes the removal raise. */
    method Delete(key: string, fault: bool) returns (answer: DeleteAnswer)
      requires Valid()
      modifies this
      ensures Valid() && dirs == old(dirs)
      ensures answer == if key !in old(files) then NotFound else if fault then DeleteFailed else Deleted
      ensures files == if answer.DeleteFailed? then old(files) else old(files) - {key}
      ensures !fault ==> (answer.Deleted? <==> SysReturn(old(Contents()), Remove(key)) == Done)
      ensures !fault ==> Contents() == Effect(old(Contents()), Remove(key))
    {
      if key !in files {
        assert files - {key} == files;
        return NotFound;
      }
      if fault { return DeleteFailed; }
      files := files - {key};
      answer := Deleted;
    }

    /**
      Removes the files among the keys, in order. Removing the file of key number `failAt`, if there is
      one, raises: then the files before it are gone and the others are still there.
    */
    method DeleteMany(keys: seq<string>, failAt: Option<nat>) returns (ok: bool, done: nat)
      requires Valid()
      modifies this
      ensures Valid() && dirs == old(dirs)
      ensures ok <==> !(failAt.Some? && failAt.value < |keys|
                        && keys[failAt.value] in old(files) && keys[failAt.value] !in keys[..failAt.value])
      ensures done == if ok then |keys| else failAt.value
      ensures files == old(files) - (set key | key in keys[..done])
    {
      done, ok := 0, true;
      while done < |keys| && ok
        invariant done <= |keys| && Valid() && dirs == old(dirs)
        invariant files == old(files) - (set key | key in keys[..done])
        invariant ok ==> !(failAt.Some? && failAt.value < done
                           && keys[failAt.value] in old(files) && keys[failAt.value] !in keys[..failAt.value])
        invariant !ok ==> failAt == Some(done) && done < |keys|
        invariant !ok ==> keys[done] in old(files) && keys[done] !in keys[..done]
        decreases |keys| - done, ok
      {
        assert keys[..done + 1] == keys[..done] + [keys[done]];
        if keys[done] in files && failAt == Some(done) {
          ok := false;
        } else {
          files := files - {keys[done]};
          done := done + 1;
        }
      }
    }

    method ListPrefix(prefix: string, maxKeys: nat, resume: Option<string>) returns (page: Page)
      requires Valid() && maxKeys > 0 && (prefix == "" || Clean(prefix))
      ensures page == Listing(Contents(), prefix, maxKeys, resume)
    {
      if prefix != "" && prefix !in files && prefix !in dirs {
        MissingHasNothingBelow(Contents(), prefix);
        return Page([], None);
      }
      if prefix in files {
        FileHasNothingBelow(Contents(), prefix);
        SortedOfUnique([prefix], {prefix});
        return Page(if resume.Some? then [] else [prefix], None);
      }
      var sorted := SortedBelow(prefix);
      page := CutPage(sorted, maxKeys, resume);
    }

    method SortedBelow(base: string) returns (sorted: seq<string>)
      requires base !in files
      ensures sorted == SortedUnder(Contents(), base)
    {
      var keys := FilesBelow(base);
      SortDistinct(keys);
      sorted := Sort(keys);
      SortedOfUnique(sorted, KeysUnder(Contents(), base));
    }

    /** All files below a directory, in the order in which the walk meets them. */
    method FilesBelow(base: string) returns (keys: seq<string>)
      requires base !in files
      ensures Distinct(keys) && forall key :: key in keys <==> key in KeysUnder(Contents(), base)
    {
      keys := [];
      var rest := files.Keys;
      while rest != {}
        invariant rest <= files.Keys && Distinct(keys)
        invariant forall key :: key in keys <==> key in KeysUnder(Contents(), base) && key !in rest
        decreases rest
      {
        var key :| key in rest;
        rest := rest - {key};
        if Under(key, base) { keys := keys + [key]; }
      }
    }

    /** The names of the children of a directory, in order. */
    method SortedChildren(base: string) returns (names: seq<string>)
      ensures names == SortedOf(ChildNames(Contents(), base))
    {
      names := SortSet(set path | path in files.Keys + dirs && IsChild(path, base) :: NameIn(path, base));
    }

    method ListPrefixLevel(prefix: string, maxEntries: int, token: Option<string>) returns (page: DirPage)
      requires Valid() && (prefix == "" || Clean(prefix))
      ensures page == LevelListing(Contents(), prefix, maxEntries, token)
    {
      if prefix in files {
        return if token.Some? then NOTHING else DirPage([], [prefix], None, false);
      }
      if prefix != "" && prefix !in dirs { return NOTHING; }
      var names := SortedChildren(prefix);
      var childDirs: seq<string>, childFiles: seq<string> := [], [];
      var i := 0;
      while i < |names|
        invariant 0 <= i <= |names|
        invariant Divided(Contents(), prefix, names, i, childDirs, childFiles)
      {
        DividedStep(Contents(), prefix, names, i, childDirs, childFiles);
        if ChildPath(prefix, names[i]) in dirs {
          childDirs := childDirs + [names[i]];
        } else {
          childFiles := childFiles + [ChildPath(prefix, names[i])];
        }
        i := i + 1;
      }
      DividedAll(Contents(), prefix, names, childDirs, childFiles);
      page := MergeDirectoryPage(childDirs, childFiles, maxEntries, token);
    }
  }

  /** The page of a sorted list behind the resume point. */
  method CutPage(sorted: seq<string>, maxKeys: nat, resume: Option<string>) returns (page: Page)
    requires StrictlySorted(sorted) && maxKeys > 0
    ensures page == PageAt(sorted, if resume.Some? then CountUpTo(sorted, resume.value) else 0, maxKeys)
  {
    var rest := sorted;
    if resume.Some? { rest := DropUpTo(sorted, resume.value); }
    if |rest| > maxKeys {
      page := Page(rest[..maxKeys], Some(rest[maxKeys - 1]));
    } else {
      page := Page(rest, None);
    }
  }

  /** Python's `[key for key in keys if key > token]`. */
  method DropUpTo(keys: seq<string>, token: string) returns (kept: seq<string>)
    requires StrictlySorted(keys)
    ensures kept == keys[CountUpTo(keys, token)..]
  {
    kept := [];
    var i := 0;
    CountUpToSplits(keys, token);
    while i < |keys|
      invariant 0 <= i <= |keys|
      invariant i <= CountUpTo(keys, token) ==> kept == []
      invariant i >= CountUpTo(keys, token) ==> kept == keys[CountUpTo(keys, token)..i]
    {
      if Less(token, keys[i]) { kept := kept + [keys[i]]; }
      i := i + 1;
    }
  }
}
