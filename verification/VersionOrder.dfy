/** Sorting version strings (packvault/ui/packages.py, `sort_maven_versions`). */
module VersionOrder {
  import opened Strings
  import opened Versions

  /** Stable insertion into a sorted list: behind everything that does not compare greater. */
  function InsertVersion(s: seq<string>, v: string): seq<string> {
    if s == [] || InOrder(s[|s| - 1], v) then s + [v]
    else InsertVersion(s[..|s| - 1], v) + [s[|s| - 1]]
  }

  predicate Ordered(s: seq<string>) {
    forall i, j :: 0 <= i < j < |s| ==> InOrder(s[i], s[j])
  }

  predicate TameAll(versions: set<string>) {
    forall v :: v in versions ==> TameVersion(v)
  }

  /** The versions of the list, each once. */
  ghost predicate Enumerates(s: seq<string>, versions: set<string>) {
    Distinct(s) && forall v :: v in s <==> v in versions
  }

  lemma {:induction false} InsertElements(s: seq<string>, v: string)
    ensures |InsertVersion(s, v)| == |s| + 1
    ensures forall x :: x in InsertVersion(s, v) <==> x == v || x in s
  {
    if s != [] && !InOrder(s[|s| - 1], v) {
      assert s == s[..|s| - 1] + [s[|s| - 1]];
      InsertElements(s[..|s| - 1], v);
    }
  }

  lemma DistinctAppend(s: seq<string>, x: string)
    requires Distinct(s) && x !in s
    ensures Distinct(s + [x])
  {
  }

  lemma {:induction false} InsertDistinct(s: seq<string>, v: string)
    requires Distinct(s) && v !in s
    ensures Distinct(InsertVersion(s, v))
  {
    if s == [] || InOrder(s[|s| - 1], v) {
      DistinctAppend(s, v);
    } else {
      var init, last := s[..|s| - 1], s[|s| - 1];
      InsertDistinct(init, v);
      InsertElements(init, v);
      assert last !in init;
      DistinctAppend(InsertVersion(init, v), last);
    }
  }

  lemma OrderedAppend(s: seq<string>, x: string)
    requires Ordered(s) && forall y :: y in s ==> InOrder(y, x)
    ensures Ordered(s + [x])
  {
  }

  /** The last version of a sorted list is a maximum. */
  lemma LastIsMaximum(s: seq<string>, v: string)
    requires Ordered(s) && v in s
    ensures InOrder(v, s[|s| - 1])
  {
    var i :| 0 <= i < |s| && s[i] == v;
    if i == |s| - 1 { CompareAntisymmetric(v, v); }
  }

  predicate Comparable(s: seq<string>) {
    forall x :: x in s ==> TameVersion(x)
  }

  lemma AppendOrdered(s: seq<string>, v: string)
    requires Ordered(s) && Comparable(s) && TameVersion(v) && s != [] && InOrder(s[|s| - 1], v)
    ensures Ordered(s + [v])
  {
    forall x | x in s ensures InOrder(x, v) {
      LastIsMaximum(s, x);
      CompareTransitive(x, s[|s| - 1], v);
    }
    OrderedAppend(s, v);
  }

  lemma InsertedBefore(s: seq<string>, v: string, inserted: seq<string>)
    requires Ordered(s) && s != [] && !InOrder(s[|s| - 1], v) && Ordered(inserted)
    requires forall x :: x in inserted ==> x == v || x in s
    ensures Ordered(inserted + [s[|s| - 1]])
  {
    var last := s[|s| - 1];
    CompareAntisymmetric(last, v);
    forall x | x in inserted ensures InOrder(x, last) {
      if x != v { LastIsMaximum(s, x); }
    }
    OrderedAppend(inserted, last);
  }

  lemma {:induction false} InsertOrdered(s: seq<string>, v: string)
    requires Ordered(s) && Comparable(s) && TameVersion(v)
    ensures Ordered(InsertVersion(s, v))
  {
    if s == [] {
    } else if InOrder(s[|s| - 1], v) {
      AppendOrdered(s, v);
    } else {
      var init := s[..|s| - 1];
      assert forall x :: x in init ==> x in s;
      InsertOrdered(init, v);
      InsertElements(init, v);
      InsertedBefore(s, v, InsertVersion(init, v));
    }
  }

  /** A set is listed in an order of its own, and sorted. */
  method SortMavenVersions(versions: set<string>) returns (sorted: seq<string>)
    ensures Enumerates(sorted, versions) && |sorted| == |versions|
    ensures TameAll(versions) ==> Ordered(sorted)
  {
    sorted := [];
    var rest := versions;
    while rest != {}
      invariant rest <= versions && |sorted| + |rest| == |versions|
      invariant Enumerates(sorted, versions - rest)
      invariant TameAll(versions) ==> Ordered(sorted)
      decreases rest
    {
      var v :| v in rest;
      InsertElements(sorted, v);
      InsertDistinct(sorted, v);
      if TameAll(versions) { InsertOrdered(sorted, v); }
      sorted, rest := InsertVersion(sorted, v), rest - {v};
    }
  }

  /** Different versions never compare equal. */
  predicate NoTies(versions: set<string>) {
    forall a, b :: a in versions && b in versions && a != b ==> CompareVersions(a, b) != 0
  }

  lemma Nonempty(s: seq<string>, versions: set<string>)
    requires Enumerates(s, versions)
    ensures s == [] <==> versions == {}
  {
    if s != [] { assert s[0] in versions; }
  }

  lemma InitEnumerates(s: seq<string>, versions: set<string>)
    requires Enumerates(s, versions) && Ordered(s) && s != []
    ensures Enumerates(s[..|s| - 1], versions - {s[|s| - 1]}) && Ordered(s[..|s| - 1])
  {
    assert s == s[..|s| - 1] + [s[|s| - 1]];
  }

  lemma FewerNoTies(versions: set<string>, v: string)
    requires NoTies(versions)
    ensures NoTies(versions - {v})
  {
  }

  lemma SameEnds(s: seq<string>, t: seq<string>)
    requires s != [] && t != [] && s[|s| - 1] == t[|t| - 1] && s[..|s| - 1] == t[..|t| - 1]
    ensures s == t
  {
    assert s == s[..|s| - 1] + [s[|s| - 1]];
  }

  lemma SameLast(s: seq<string>, t: seq<string>, versions: set<string>)
    requires Enumerates(s, versions) && Enumerates(t, versions) && Ordered(s) && Ordered(t) && NoTies(versions)
    requires s != [] && t != []
    ensures s[|s| - 1] == t[|t| - 1]
  {
    var x, y := s[|s| - 1], t[|t| - 1];
    assert x in s && y in t;
    LastIsMaximum(s, y);
    LastIsMaximum(t, x);
    CompareAntisymmetric(x, y);
  }

  /** Without ties the sorted list does not depend on how it was sorted, nor on the order it came in. */
  lemma {:induction false} SortedIsUnique(s: seq<string>, t: seq<string>, versions: set<string>)
    requires Enumerates(s, versions) && Enumerates(t, versions) && Ordered(s) && Ordered(t) && NoTies(versions)
    ensures s == t
    decreases |s|
  {
    Nonempty(s, versions);
    Nonempty(t, versions);
    if s != [] {
      SameLast(s, t, versions);
      InitEnumerates(s, versions);
      InitEnumerates(t, versions);
      FewerNoTies(versions, s[|s| - 1]);
      SortedIsUnique(s[..|s| - 1], t[..|t| - 1], versions - {s[|s| - 1]});
      SameEnds(s, t);
    }
  }
}
