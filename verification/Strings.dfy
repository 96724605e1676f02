/** Python's string order, and strictly sorted lists of strings. */
module Strings {
  /** `a < b` for Python strings: lexicographic by code point. */
  predicate Less(a: string, b: string) {
    b != "" && (a == "" || a[0] < b[0] || (a[0] == b[0] && Less(a[1..], b[1..])))
  }

  lemma {:induction false} LessIrreflexive(a: string)
    ensures !Less(a, a)
  {
    if a != "" { LessIrreflexive(a[1..]); }
  }

  lemma {:induction false} LessTransitive(a: string, b: string, c: string)
    requires Less(a, b) && Less(b, c)
    ensures Less(a, c)
  {
    if a != "" && a[0] == b[0] == c[0] { LessTransitive(a[1..], b[1..], c[1..]); }
  }

  lemma {:induction false} LessTotal(a: string, b: string)
    ensures a == b || Less(a, b) || Less(b, a)
  {
    if a != "" && b != "" && a[0] == b[0] {
      LessTotal(a[1..], b[1..]);
      assert a == [a[0]] + a[1..] && b == [b[0]] + b[1..];
    }
  }

  lemma LessAsymmetric(a: string, b: string)
    requires Less(a, b)
    ensures !Less(b, a) && a != b
  {
    LessIrreflexive(a);
    if Less(b, a) { LessTransitive(a, b, a); }
  }

  /** A common prefix does not change the order. */
  lemma {:induction false} LessCommonPrefix(p: string, a: string, b: string)
    ensures Less(p + a, p + b) <==> Less(a, b)
  {
    if p == "" {
      assert p + a == a && p + b == b;
    } else {
      LessCommonPrefix(p[1..], a, b);
      assert (p + a)[1..] == p[1..] + a && (p + b)[1..] == p[1..] + b;
    }
  }

  /** The texts agree up to position `i`, where `a` has ended or has the smaller character. */
  predicate SmallerAt(a: string, b: string, i: nat) {
    i <= |a| && i < |b| && (forall k :: 0 <= k < i ==> a[k] == b[k]) && (i == |a| || a[i] < b[i])
  }

  lemma {:induction false} LessPosition(a: string, b: string) returns (i: nat)
    requires Less(a, b)
    ensures SmallerAt(a, b, i)
  {
    if a == "" || a[0] < b[0] {
      i := 0;
    } else {
      var n := LessPosition(a[1..], b[1..]);
      i := n + 1;
      forall k | 0 <= k < i ensures a[k] == b[k] {
        if k > 0 { assert a[1..][k - 1] == b[1..][k - 1]; }
      }
    }
  }

  lemma {:induction false} SmallerIsLess(a: string, b: string, i: nat)
    requires SmallerAt(a, b, i)
    ensures Less(a, b)
  {
    if i > 0 { SmallerIsLess(a[1..], b[1..], i - 1); }
  }

  /** The order is the one of the first position at which the texts differ; a beginning of a text is smaller. */
  lemma LessIff(a: string, b: string)
    ensures Less(a, b) <==> exists i: nat :: SmallerAt(a, b, i)
  {
    if Less(a, b) { var i := LessPosition(a, b); }
    if i: nat :| SmallerAt(a, b, i) { SmallerIsLess(a, b, i); }
  }

  predicate StrictlySorted(s: seq<string>) {
    forall i, j :: 0 <= i < j < |s| ==> Less(s[i], s[j])
  }

  /** How many entries of a sorted list are at most `token`: the resume point of a keyset cursor. */
  function CountUpTo(s: seq<string>, token: string): (n: nat)
    ensures n <= |s|
  {
    if s == [] || Less(token, s[0]) then 0 else 1 + CountUpTo(s[1..], token)
  }

  lemma {:induction false} CountUpToSplits(s: seq<string>, token: string)
    requires StrictlySorted(s)
    ensures forall i :: 0 <= i < |s| ==> (Less(token, s[i]) <==> CountUpTo(s, token) <= i)
  {
    if s != [] {
      if Less(token, s[0]) {
        forall i | 0 < i < |s| ensures Less(token, s[i]) { LessTransitive(token, s[0], s[i]); }
      } else {
        CountUpToSplits(s[1..], token);
        forall i | 0 < i < |s| ensures s[1..][i - 1] == s[i] {}
      }
    }
  }

  /** Cutting a sorted list at a token: what is before the cut is at most the token, the rest is beyond it. */
  lemma CutAtToken(s: seq<string>, token: string, key: string)
    requires StrictlySorted(s)
    ensures key in s[CountUpTo(s, token)..] ==> Less(token, key)
    ensures key in s[..CountUpTo(s, token)] ==> !Less(token, key)
  {
    CountUpToSplits(s, token);
  }

  lemma InOnePart(s: seq<string>, from: nat, to: nat, key: string)
    requires from <= to <= |s| && key in s
    ensures key in s[..from] || key in s[from..to] || key in s[to..]
  {
    assert s == s[..from] + s[from..to] + s[to..];
  }

  lemma BehindCut(s: seq<string>, to: nat, key: string)
    requires StrictlySorted(s) && 0 < to <= |s| && key in s[to..]
    ensures Less(s[to - 1], key)
  {
    var i :| 0 <= i < |s[to..]| && s[to..][i] == key;
    assert s[to + i] == key;
  }

  lemma CountUpToMember(s: seq<string>, i: nat)
    requires StrictlySorted(s) && i < |s|
    ensures CountUpTo(s, s[i]) == i + 1
  {
    CountUpToSplits(s, s[i]);
    LessIrreflexive(s[i]);
  }

  lemma SameEmptiness(s: seq<string>, t: seq<string>)
    requires forall x :: x in s <==> x in t
    ensures s == [] <==> t == []
  {
    if s != [] { assert s[0] in t; }
    if t != [] { assert t[0] in s; }
  }

  /** A strictly sorted list is determined by its elements. */
  lemma {:induction false} SortedUnique(s: seq<string>, t: seq<string>)
    requires StrictlySorted(s) && StrictlySorted(t)
    requires forall x :: x in s <==> x in t
    ensures s == t
  {
    SameEmptiness(s, t);
    if s != [] {
      assert s[0] in t;
      assert t[0] in s;
      var i :| 0 <= i < |t| && t[i] == s[0];
      var j :| 0 <= j < |s| && s[j] == t[0];
      if i > 0 && j > 0 { LessAsymmetric(t[0], t[i]); }
      assert s[0] == t[0];
      forall x ensures x in s[1..] <==> x in t[1..] {
        TailMembers(s, x);
        TailMembers(t, x);
      }
      SortedUnique(s[1..], t[1..]);
      assert s == [s[0]] + s[1..] && t == [t[0]] + t[1..];
    }
  }

  lemma TailMembers(s: seq<string>, x: string)
    requires StrictlySorted(s) && s != []
    ensures x in s[1..] <==> x in s && x != s[0]
  {
    LessIrreflexive(s[0]);
    if x in s && x != s[0] {
      var i :| 0 <= i < |s| && s[i] == x;
      assert s[1..][i - 1] == x;
    }
  }

  /** Insertion into a sorted list; sorting is repeated insertion. */
  function Insert(x: string, s: seq<string>): seq<string> {
    if s == [] || Less(x, s[0]) then [x] + s else [s[0]] + Insert(x, s[1..])
  }

  lemma {:induction false} InsertSorted(x: string, s: seq<string>)
    requires StrictlySorted(s) && x !in s
    ensures StrictlySorted(Insert(x, s))
    ensures forall y :: y in Insert(x, s) <==> y == x || y in s
  {
    if s == [] {
    } else if Less(x, s[0]) {
      forall i | 0 <= i < |s| ensures Less(x, s[i]) {
        if i > 0 { LessTransitive(x, s[0], s[i]); }
      }
    } else {
      InsertSorted(x, s[1..]);
      LessTotal(x, s[0]);
      var r := Insert(x, s[1..]);
      forall y | y in r ensures Less(s[0], y) {
        if y != x { var i :| 0 <= i < |s[1..]| && s[1..][i] == y; assert s[i + 1] == y; }
      }
    }
  }

  function Sort(s: seq<string>): seq<string> {
    if s == [] then [] else Insert(s[|s| - 1], Sort(s[..|s| - 1]))
  }

  predicate Distinct<T(==)>(s: seq<T>) {
    forall i, j :: 0 <= i < j < |s| ==> s[i] != s[j]
  }

  /** Python's `sorted` on a list without repetitions. */
  lemma {:induction false} SortDistinct(s: seq<string>)
    requires Distinct(s)
    ensures StrictlySorted(Sort(s))
    ensures forall y :: y in Sort(s) <==> y in s
  {
    if s != [] {
      var init := s[..|s| - 1];
      SortDistinct(init);
      InsertSorted(s[|s| - 1], Sort(init));
    }
  }

  /** The one strictly sorted list of a set of strings. */
  ghost function SortedOf(xs: set<string>): (s: seq<string>)
    ensures StrictlySorted(s)
    ensures forall y :: y in s <==> y in xs
    ensures |s| == |xs|
  {
    if xs == {} then [] else
      var x :| x in xs;
      var rest := SortedOf(xs - {x});
      InsertSorted(x, rest);
      InsertLength(x, rest);
      Insert(x, rest)
  }

  lemma {:induction false} InsertLength(x: string, s: seq<string>)
    ensures |Insert(x, s)| == |s| + 1
  {
    if s != [] { InsertLength(x, s[1..]); }
  }

  lemma SortedOfUnique(s: seq<string>, xs: set<string>)
    requires StrictlySorted(s) && forall y :: y in s <==> y in xs
    ensures s == SortedOf(xs)
  {
    SortedUnique(s, SortedOf(xs));
  }

  /** Python's `sorted` of a set. */
  method SortSet(names: set<string>) returns (sorted: seq<string>)
    ensures sorted == SortedOf(names)
  {
    var listed: seq<string> := [];
    var rest := names;
    while rest != {}
      invariant rest <= names && Distinct(listed)
      invariant forall name :: name in listed <==> name in names && name !in rest
      decreases rest
    {
      var name :| name in rest;
      rest, listed := rest - {name}, listed + [name];
    }
    SortDistinct(listed);
    sorted := Sort(listed);
    SortedOfUnique(sorted, names);
  }
}
