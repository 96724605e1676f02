/** Python's string methods, on ASCII text. */
module Text {
  function StripLeft(s: string): string {
    if s != "" && s[0] == '/' then StripLeft(s[1..]) else s
  }

  function StripRight(s: string): string {
    if s != "" && s[|s| - 1] == '/' then StripRight(s[..|s| - 1]) else s
  }

  /** Python's `s.strip("/")`. */
  function StripSlashes(s: string): string {
    StripRight(StripLeft(s))
  }

  /** Python's `s.rsplit("/", 1)[-1]`. */
  function LastSegment(s: string): string {
    if s == "" || s[|s| - 1] == '/' then "" else LastSegment(s[..|s| - 1]) + [s[|s| - 1]]
  }

  function Upper(s: string): string {
    if s == "" then "" else
      [if 'a' <= s[0] <= 'z' then (s[0] as int - 32) as char else s[0]] + Upper(s[1..])
  }

  function Lower(s: string): string {
    if s == "" then "" else
      [if 'A' <= s[0] <= 'Z' then (s[0] as int + 32) as char else s[0]] + Lower(s[1..])
  }

  /** Python's `part in s`. */
  predicate Contains(s: string, part: string) {
    part <= s || (s != "" && Contains(s[1..], part))
  }

  predicate EndsWith(s: string, suffix: string) {
    |suffix| <= |s| && s[|s| - |suffix|..] == suffix
  }

  lemma {:induction false} StripRightPrefix(s: string)
    ensures StripRight(s) <= s && (StripRight(s) != "" ==> StripRight(s)[|StripRight(s)| - 1] != '/')
    ensures forall i :: |StripRight(s)| <= i < |s| ==> s[i] == '/'
  {
    if s != "" && s[|s| - 1] == '/' { StripRightPrefix(s[..|s| - 1]); }
  }

  predicate Slashes(s: string) {
    forall i :: 0 <= i < |s| ==> s[i] == '/'
  }

  lemma {:induction false} StripLeftOf(slashes: string, rest: string)
    requires Slashes(slashes) && (rest == "" || rest[0] != '/')
    ensures StripLeft(slashes + rest) == rest
  {
    if slashes == "" {
      assert slashes + rest == rest;
    } else {
      StripLeftOf(slashes[1..], rest);
      assert (slashes + rest)[1..] == slashes[1..] + rest;
    }
  }

  lemma {:induction false} StripRightOf(rest: string, slashes: string)
    requires Slashes(slashes) && (rest == "" || rest[|rest| - 1] != '/')
    ensures StripRight(rest + slashes) == rest
  {
    if slashes == "" {
      assert rest + slashes == rest;
    } else {
      StripRightOf(rest, slashes[..|slashes| - 1]);
      assert (rest + slashes)[..|rest + slashes| - 1] == rest + slashes[..|slashes| - 1];
    }
  }

  /** Stripping takes all slashes at both ends and nothing else. */
  lemma StripSlashesOf(before: string, core: string, behind: string)
    requires Slashes(before) && Slashes(behind)
    requires core == "" || (core[0] != '/' && core[|core| - 1] != '/')
    ensures StripSlashes(before + core + behind) == core
  {
    if core == "" {
      assert before + core + behind == (before + behind) + "";
      StripLeftOf(before + behind, "");
    } else {
      assert before + core + behind == before + (core + behind);
      StripLeftOf(before, core + behind);
      StripRightOf(core, behind);
    }
  }

  lemma {:induction false} StrippedIsSlashes(s: string)
    requires StripLeft(s) == ""
    ensures Slashes(s)
  {
    if s != "" { StrippedIsSlashes(s[1..]); }
  }

  lemma {:induction false} UpperAt(s: string)
    ensures |Upper(s)| == |s|
    ensures forall i :: 0 <= i < |s| ==>
              Upper(s)[i] as int == if 'a' <= s[i] <= 'z' then s[i] as int - 32 else s[i] as int
  {
    if s != "" {
      UpperAt(s[1..]);
      assert s == [s[0]] + s[1..];
    }
  }

  lemma {:induction false} LowerAt(s: string)
    ensures |Lower(s)| == |s|
    ensures forall i :: 0 <= i < |s| ==>
              Lower(s)[i] as int == if 'A' <= s[i] <= 'Z' then s[i] as int + 32 else s[i] as int
  {
    if s != "" {
      LowerAt(s[1..]);
      assert s == [s[0]] + s[1..];
    }
  }

  lemma {:induction false} LowerTail(s: string, n: nat)
    requires n <= |s|
    ensures |Lower(s)| == |s| && Lower(s)[n..] == Lower(s[n..])
  {
    LowerAt(s);
    if n > 0 {
      LowerTail(s[1..], n - 1);
      assert s[1..][n - 1..] == s[n..];
      assert Lower(s)[n..] == Lower(s[1..])[n - 1..];
    }
  }

  /** The text is the lower-case word in any case. */
  predicate ReadsAs(s: string, word: string) {
    && |s| == |word|
    && forall i :: 0 <= i < |s| ==> s[i] == word[i] || ('A' <= s[i] <= 'Z' && s[i] as int + 32 == word[i] as int)
  }

  lemma LowerIs(s: string, word: string)
    requires forall i :: 0 <= i < |word| ==> !('A' <= word[i] <= 'Z')
    ensures Lower(s) == word <==> ReadsAs(s, word)
  {
    LowerAt(s);
  }

  lemma StripRightClean(s: string)
    requires s == "" || s[|s| - 1] != '/'
    ensures StripRight(s) == s
  {
  }
}
