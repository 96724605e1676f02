/** The temp files of running uploads lie beside the objects and can be seen there (packvault/storage/local.py). */
module TempFiles {
  import opened Basics
  import opened CachePolicy
  import opened FileTree
  import opened LocalStore
  import opened PathValidation
  import opened Segments
  import opened Text

  /** Everything up to and with the last slash. */
  function Front(key: string): string
    requires |LastSegment(key)| <= |key|
  {
    key[..|key| - |LastSegment(key)|]
  }

  lemma {:induction false} LastSegmentFits(key: string)
    ensures |LastSegment(key)| <= |key| && '/' !in LastSegment(key)
    ensures key == Front(key) + LastSegment(key)
    ensures Front(key) == "" || Front(key)[|Front(key)| - 1] == '/'
  {
    if key != "" && key[|key| - 1] != '/' { LastSegmentFits(key[..|key| - 1]); }
  }

  /** The name of a temp file in its directory; `id` is its random part. */
  function TempSegment(segment: string, id: string): string {
    "." + segment + "." + id + ".tmp"
  }

  function TempName(key: string, id: string): string {
    LastSegmentFits(key);
    Front(key) + TempSegment(LastSegment(key), id)
  }

  lemma SameFront(front: string, x: string, y: string, a: string)
    requires '/' !in x && '/' !in y && Ancestor(a, front + x)
    ensures Ancestor(a, front + y)
  {
    var s := front + x;
    forall i | |front| <= i < |s| ensures s[i] != '/' { assert s[i] == x[i - |front|]; }
    assert (front + y)[..|a|] == front[..|a|] == s[..|a|];
  }

  /** The temp file lies in the directory of its object. */
  lemma TempHasSameAncestors(key: string, id: string, a: string)
    requires '/' !in id
    ensures Ancestor(a, TempName(key, id)) <==> Ancestor(a, key)
  {
    LastSegmentFits(key);
    var last := LastSegment(key);
    if Ancestor(a, TempName(key, id)) { SameFront(Front(key), TempSegment(last, id), last, a); }
    if Ancestor(a, key) { SameFront(Front(key), last, TempSegment(last, id), a); }
  }

  function WithTemp(t: Tree, key: string, id: string, part: Bytes): Tree {
    t.(files := t.files[TempName(key, id) := part])
  }

  /**
    While an upload of `key` runs, its partial temp file is a stored file like any other: a listing shows it
    exactly under the prefixes above the key (and under its own name), and looking it up by its own name gives
    the part that is there. What is stored under every other name, and shown of it, is as without the temp file.
  */
  lemma TempFileIsSeen(t: Tree, key: string, id: string, part: Bytes, prefix: string, other: string)
    requires TreeOk(t) && HasParent(t, key) && '/' !in id && !Exists(t, TempName(key, id)) && other != TempName(key, id)
    ensures var temp, u := TempName(key, id), WithTemp(t, key, id, part);
      && (temp in KeysUnder(u, prefix) <==> prefix == "" || prefix == temp || Ancestor(prefix, key))
      && HeadOf(u, temp) == Size(|part|)
      && (other in u.files <==> other in t.files) && (other in u.files ==> u.files[other] == t.files[other])
      && (other in KeysUnder(u, prefix) <==> other in KeysUnder(t, prefix))
  {
    TempHasSameAncestors(key, id, prefix);
    forall a | a in Ancestors(TempName(key, id)) ensures a in t.dirs {
      TempHasSameAncestors(key, id, a);
    }
  }

  lemma OtherLast(front: string, last: string, other: string)
    requires (front == "" || front[|front| - 1] == '/') && '/' !in last && '/' !in other
    ensures var s, n := Split(front + last, '/'), |Split(front + last, '/')|;
      s[n - 1] == last && Split(front + other, '/') == s[..n - 1] + [other]
  {
    SplitWhole(last, '/');
    SplitWhole(other, '/');
    if front == "" {
      assert front + last == last && front + other == other;
    } else {
      var dir := front[..|front| - 1];
      assert front + last == dir + ['/'] + last && front + other == dir + ['/'] + other;
      SplitConcat(dir, last, '/');
      SplitConcat(dir, other, '/');
    }
  }

  /** A temp file differs from its object in the last segment alone. */
  lemma TempSegments(key: string, id: string)
    requires '/' !in id
    ensures var s, n := Split(key, '/'), |Split(key, '/')|;
      Split(TempName(key, id), '/') == s[..n - 1] + ["." + s[n - 1] + "." + id + ".tmp"]
  {
    LastSegmentFits(key);
    OtherLast(Front(key), LastSegment(key), TempSegment(LastSegment(key), id));
  }

  /** Such a name is even a valid artifact path, so a client can ask for it. */
  lemma TempNameIsPath(path: string, id: string)
    requires Canonical(path) && |path| + |id| + 6 <= MAX_LENGTH
    requires id != "" && forall i :: 0 <= i < |id| ==> Alphanumeric(id[i])
    requires var last := LastSegment(path); last != "" && last[0] != '.' && last[|last| - 1] != '.'
    ensures Canonical(TempName(path, id))
  {
    LastSegmentFits(path);
    LastSegmentIsLast(path);
    GoodTempSegment(LastSegment(path), id);
    OtherFile(Front(path), LastSegment(path), TempSegment(LastSegment(path), id), path, TempName(path, id));
  }

  /** Another file in the same directory has the same segments in front. */
  lemma OtherSegments(dir: string, file: string, other: string, path: string, result: string)
    requires '/' !in other && path == dir + ['/'] + file && result == dir + ['/'] + other
    ensures Split(result, '/') == Split(dir, '/') + [other] && Split(dir, '/') <= Split(path, '/')
  {
    SplitConcat(dir, file, '/');
    SplitConcat(dir, other, '/');
    SplitWhole(other, '/');
  }

  lemma OtherFile(front: string, file: string, other: string, path: string, result: string)
    requires front == "" || front[|front| - 1] == '/'
    requires Canonical(path) && '/' !in other && GoodSegment(other) && |result| <= MAX_LENGTH
    requires path == front + file && result == front + other
    ensures Canonical(result)
  {
    if front == "" {
      assert result == other;
      SplitWhole(other, '/');
    } else {
      var dir := front[..|front| - 1];
      OtherSegments(dir, file, other, path, result);
    }
  }

  lemma GoodTempSegment(segment: string, id: string)
    requires GoodSegment(segment) && segment[0] != '.' && segment[|segment| - 1] != '.'
    requires id != "" && forall i :: 0 <= i < |id| ==> Alphanumeric(id[i])
    ensures GoodSegment(TempSegment(segment, id)) && '/' !in TempSegment(segment, id)
  {
    var s, n := TempSegment(segment, id), |segment|;
    assert s == "." + segment + "." + id + ".tmp";
    forall i | 0 <= i < |s|
      ensures SegmentChar(s[i]) && (s[i] == '.' ==> i == 0 || s[i - 1] != '.')
    {
      if 0 < i <= n {
        assert s[i] == segment[i - 1];
      } else if n + 1 < i <= n + 1 + |id| {
        assert s[i] == id[i - n - 2];
      }
      if 1 < i <= n + 1 { assert s[i - 1] == segment[i - 2]; }
      if i == n + 2 + |id| { assert s[i - 1] == id[|id| - 1]; }
    }
  }
}
