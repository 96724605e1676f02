/** Which keys the read-through cache may hold (packvault/storage/cached.py). */
module CachePolicy {
  import opened Basics
  import opened FileTree
  import opened Segments
  import opened Text

  predicate IsCacheable(key: string) {
    var normalized := StripSlashes(key);
    && normalized != ""
    && LastSegment(normalized) != "maven-metadata.xml"
    && !Contains(Upper(normalized), "SNAPSHOT")
  }

  /** `age` is the age of the cached file; `None` when it has none. */
  predicate IsCacheFresh(key: string, age: Option<real>, metadataTtl: real, snapshotTtl: real) {
    var normalized := StripSlashes(key);
    if LastSegment(normalized) == "maven-metadata.xml" then age.Some? && age.value <= metadataTtl
    else if Contains(Upper(normalized), "SNAPSHOT") then age.Some? && age.value <= snapshotTtl
    else true
  }

  /** The age limits never reject a key that may be cached, so a cached file of such a key is always used. */
  lemma CacheableIsFresh(key: string, age: Option<real>, metadataTtl: real, snapshotTtl: real)
    requires IsCacheable(key)
    ensures IsCacheFresh(key, age, metadataTtl, snapshotTtl)
  {
  }

  // ---------------------------------------------------------------------------------------------
  // The policy in terms of segments.

  lemma LastSegmentIsLast(s: string)
    ensures LastSegment(s) == Split(s, '/')[|Split(s, '/')| - 1]
  {
    var parts := Split(s, '/');
    SplitHasNoSeparator(s, '/');
    JoinSplit(s, '/');
    if |parts| == 1 {
      LastOfPlain(s);
    } else {
      var front, last := parts[..|parts| - 1], parts[|parts| - 1];
      assert parts == front + [last];
      JoinConcat(front, [last], '/');
      LastBehindSlash(Join(front, '/'), last);
    }
  }

  lemma {:induction false} LastOfPlain(s: string)
    requires '/' !in s
    ensures LastSegment(s) == s
  {
    if s != "" { LastOfPlain(s[..|s| - 1]); }
  }

  lemma {:induction false} LastBehindSlash(a: string, b: string)
    requires '/' !in b
    ensures LastSegment(a + ['/'] + b) == b
  {
    if b != "" {
      LastBehindSlash(a, b[..|b| - 1]);
      assert (a + ['/'] + b)[..|a| + |b|] == a + ['/'] + b[..|b| - 1];
    }
  }

  predicate OccursAt(s: string, part: string, i: nat) {
    i + |part| <= |s| && s[i..i + |part|] == part
  }

  lemma {:induction false} ContainsAt(s: string, part: string, i: nat)
    requires OccursAt(s, part, i)
    ensures Contains(s, part)
  {
    if i > 0 { ContainsAt(s[1..], part, i - 1); }
  }

  lemma {:induction false} Occurrence(s: string, part: string) returns (i: nat)
    requires Contains(s, part)
    ensures OccursAt(s, part, i)
  {
    i := 0;
    if !(part <= s) {
      i := Occurrence(s[1..], part);
      i := i + 1;
    }
  }

  ghost predicate Occurs(s: string, part: string) {
    exists i: nat :: OccursAt(s, part, i)
  }

  lemma ContainsIff(s: string, part: string)
    ensures Contains(s, part) <==> Occurs(s, part)
  {
    if Contains(s, part) { var i := Occurrence(s, part); }
    if Occurs(s, part) {
      var i: nat :| OccursAt(s, part, i);
      ContainsAt(s, part, i);
    }
  }

  /** The letters from position `i` on are those of a word, each in upper or in lower case. */
  predicate WordAt(key: string, upper: string, lower: string, i: nat)
    requires |upper| == |lower|
  {
    i + |upper| <= |key| && forall j :: 0 <= j < |upper| ==> key[i + j] == upper[j] || key[i + j] == lower[j]
  }

  predicate TwoCases(upper: string, lower: string) {
    && |upper| == |lower|
    && forall j :: 0 <= j < |upper| ==> 'A' <= upper[j] <= 'Z' && lower[j] as int == upper[j] as int + 32
  }

  lemma OccursInAnyCase(key: string, upper: string, lower: string, i: nat)
    requires TwoCases(upper, lower)
    ensures OccursAt(Upper(key), upper, i) <==> WordAt(key, upper, lower, i)
  {
    UpperAt(key);
    if i + |upper| <= |key| {
      var part := Upper(key)[i..i + |upper|];
      forall j | 0 <= j < |upper| ensures part[j] == upper[j] <==> key[i + j] == upper[j] || key[i + j] == lower[j] {
        assert part[j] == Upper(key)[i + j];
      }
    }
  }

  lemma SnapshotCases()
    ensures TwoCases("SNAPSHOT", "snapshot")
  {
  }

  /**
    A key may be cached exactly when its file is not the metadata file and nothing in it reads "snapshot" in
    any case.
  */
  lemma CacheableIff(key: string)
    requires Clean(key)
    ensures IsCacheable(key) <==>
            && Split(key, '/')[|Split(key, '/')| - 1] != "maven-metadata.xml"
            && !exists i: nat :: WordAt(key, "SNAPSHOT", "snapshot", i)
  {
    StripRightClean(key);
    LastSegmentIsLast(key);
    ContainsIff(Upper(key), "SNAPSHOT");
    SnapshotCases();
    forall i: nat ensures OccursAt(Upper(key), "SNAPSHOT", i) <==> WordAt(key, "SNAPSHOT", "snapshot", i) {
      OccursInAnyCase(key, "SNAPSHOT", "snapshot", i);
    }
  }

  /** A cached file is too old only if its key may not be cached anyway, and is older than the limit for its kind. */
  lemma FreshIff(key: string, age: Option<real>, metadataTtl: real, snapshotTtl: real)
    requires Clean(key)
    ensures var metadata := Split(key, '/')[|Split(key, '/')| - 1] == "maven-metadata.xml";
      IsCacheFresh(key, age, metadataTtl, snapshotTtl) <==>
        || IsCacheable(key) || (age.Some? && age.value <= if metadata then metadataTtl else snapshotTtl)
  {
    StripRightClean(key);
    LastSegmentIsLast(key);
  }
}
