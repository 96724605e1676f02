/** Python's `split` and `join`, and what they say about names in a file tree. */
module Segments {
  import opened FileTree

  function Split(s: string, c: char): (parts: seq<string>)
    ensures |parts| > 0
  {
    if s == "" then [""]
    else
      var rest := Split(s[1..], c);
      if s[0] == c then [""] + rest else [[s[0]] + rest[0]] + rest[1..]
  }

  function Join(parts: seq<string>, c: char): string {
    if parts == [] then ""
    else if |parts| == 1 then parts[0]
    else parts[0] + [c] + Join(parts[1..], c)
  }

  lemma {:induction false} JoinSplit(s: string, c: char)
    ensures Join(Split(s, c), c) == s
  {
    if s != "" {
      JoinSplit(s[1..], c);
      var rest := Split(s[1..], c);
      if s[0] == c {
        assert ([""] + rest)[1..] == rest;
        assert s == "" + [c] + s[1..];
      } else {
        assert Split(s, c)[1..] == rest[1..];
        assert s == [s[0]] + s[1..];
      }
    }
  }

  lemma {:induction false} SplitHasNoSeparator(s: string, c: char)
    ensures forall i :: 0 <= i < |Split(s, c)| ==> c !in Split(s, c)[i]
  {
    if s != "" { SplitHasNoSeparator(s[1..], c); }
  }

  /** Splitting what was joined around a separator. */
  lemma {:induction false} SplitAround(a: string, b: string, c: char)
    requires c !in a
    ensures Split(a + [c] + b, c) == [a] + Split(b, c)
  {
    if a == "" {
      assert a + [c] + b == [c] + b;
    } else {
      assert (a + [c] + b)[1..] == a[1..] + [c] + b;
      SplitAround(a[1..], b, c);
      assert a == [a[0]] + a[1..];
    }
  }

  lemma {:induction false} SplitWhole(a: string, c: char)
    requires c !in a
    ensures Split(a, c) == [a]
  {
    if a != "" {
      SplitWhole(a[1..], c);
      assert a == [a[0]] + a[1..];
    }
  }

  lemma {:induction false} SplitJoin(parts: seq<string>, c: char)
    requires parts != [] && forall i :: 0 <= i < |parts| ==> c !in parts[i]
    ensures Split(Join(parts, c), c) == parts
  {
    if |parts| == 1 {
      SplitWhole(parts[0], c);
    } else {
      SplitJoin(parts[1..], c);
      SplitAround(parts[0], Join(parts[1..], c), c);
    }
  }

  /** Joining two lists of segments. */
  lemma {:induction false} JoinConcat(a: seq<string>, b: seq<string>, c: char)
    requires a != [] && b != []
    ensures Join(a + b, c) == Join(a, c) + [c] + Join(b, c)
  {
    if |a| == 1 {
      assert (a + b)[1..] == b;
    } else {
      assert (a + b)[1..] == a[1..] + b;
      JoinConcat(a[1..], b, c);
    }
  }

  /** Splitting distributes over a separator between two texts. */
  lemma SplitConcat(a: string, b: string, c: char)
    ensures Split(a + [c] + b, c) == Split(a, c) + Split(b, c)
  {
    var x, y := Split(a, c), Split(b, c);
    SplitHasNoSeparator(a, c);
    SplitHasNoSeparator(b, c);
    JoinSplit(a, c);
    JoinSplit(b, c);
    JoinConcat(x, y, c);
    SplitJoin(x + y, c);
  }

  /** A name is clean exactly when none of its segments is empty. */
  predicate NoEmptySegment(s: string) {
    forall i :: 0 <= i < |Split(s, '/')| ==> Split(s, '/')[i] != ""
  }

  lemma {:induction false} SplitShape(s: string)
    requires s != ""
    ensures s[0] == '/' <==> Split(s, '/')[0] == ""
    ensures s[|s| - 1] == '/' ==> Split(s, '/')[|Split(s, '/')| - 1] == ""
  {
    if |s| > 1 {
      SplitShape(s[1..]);
    }
  }

  lemma DoubleSlash(s: string, i: nat)
    requires 0 < i < |s| && s[i - 1] == '/' && s[i] == '/'
    ensures !NoEmptySegment(s)
  {
    var a, b := s[..i - 1], s[i..];
    assert s == a + ['/'] + b;
    SplitConcat(a, b, '/');
    SplitShape(b);
    assert Split(s, '/')[|Split(a, '/')|] == Split(b, '/')[0];
  }

  lemma CleanSegments(s: string)
    requires NoEmptySegment(s)
    ensures Clean(s)
  {
    SplitShape(if s == "" then "x" else s);
    forall i | 0 < i < |s| && s[i] == '/' ensures s[i - 1] != '/' {
      if s[i - 1] == '/' { DoubleSlash(s, i); }
    }
  }

  /** Exactly the clean names have no empty segment. */
  lemma CleanIff(s: string)
    ensures Clean(s) <==> NoEmptySegment(s)
  {
    if NoEmptySegment(s) { CleanSegments(s); }
    if Clean(s) && !NoEmptySegment(s) {
      var i := EmptySegment(s);
      EmptyIsNotClean(s, i);
    }
  }

  lemma EmptySegment(s: string) returns (i: nat)
    requires !NoEmptySegment(s)
    ensures i < |Split(s, '/')| && Split(s, '/')[i] == ""
  {
    i :| 0 <= i < |Split(s, '/')| && Split(s, '/')[i] == "";
  }

  /** An empty segment leaves a slash at an end, or two in a row. */
  lemma EmptyIsNotClean(s: string, i: nat)
    requires i < |Split(s, '/')| && Split(s, '/')[i] == ""
    ensures !Clean(s)
  {
    var parts := Split(s, '/');
    var before, behind := parts[..i], parts[i + 1..];
    assert parts == before + [""] + behind;
    JoinSplit(s, '/');
    if before != [] && behind != [] {
      assert parts == before + ([""] + behind);
      JoinConcat(before, [""] + behind, '/');
      JoinConcat([""], behind, '/');
      var n := |Join(before, '/')|;
      assert s == Join(before, '/') + ['/'] + (['/'] + Join(behind, '/'));
      assert s[n] == '/' && s[n + 1] == '/';
    } else if before != [] {
      assert parts == before + [""];
      JoinConcat(before, [""], '/');
    } else if behind != [] {
      assert parts == [""] + behind;
      JoinConcat([""], behind, '/');
    }
  }

  /** Lying under a prefix means having its segments in front; everything lies under the root. */
  lemma UnderIsSegmentwise(key: string, prefix: string)
    ensures Under(key, prefix) <==> prefix == "" || Split(prefix, '/') <= Split(key, '/')
  {
    if prefix != "" { UnderPrefix(key, prefix); }
  }

  lemma UnderPrefix(key: string, prefix: string)
    requires prefix != ""
    ensures Under(key, prefix) <==> Split(prefix, '/') <= Split(key, '/')
  {
    JoinSplit(key, '/');
    JoinSplit(prefix, '/');
    var p, k := Split(prefix, '/'), Split(key, '/');
    if Ancestor(prefix, key) {
      assert key == prefix + ['/'] + key[|prefix| + 1..];
      SplitConcat(prefix, key[|prefix| + 1..], '/');
    }
    if p <= k && p != k {
      assert k == p + k[|p|..];
      JoinConcat(p, k[|p|..], '/');
    }
  }
}
