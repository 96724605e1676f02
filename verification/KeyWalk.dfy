/** Walking all keys under a prefix, page by page (packvault/ui/artifacts.py, `list_keys_under_prefix`). */
module KeyWalk {
  import opened Basics
  import opened Strings
  import opened FileTree
  import opened LocalStore

  const FETCH_SIZE: nat := 100
  const MAX_DELETE_PAGES: nat := 500

  /** The keys that a walk collected, the pages it read, and whether it ended without a token. */
  datatype Walked = Walked(keys: seq<string>, pages: nat, complete: bool)

  /** A walk that reads its pages from the trees in turn, each possibly different from the last. */
  ghost function Walk(trees: seq<Tree>, prefix: string, resume: Option<string>): Walked {
    if trees == [] then Walked([], 0, false)
    else
      var page := Listing(trees[0], prefix, FETCH_SIZE, resume);
      if page.token.None? then Walked(page.keys, 1, true)
      else
        var rest := Walk(trees[1..], prefix, page.token);
        Walked(page.keys + rest.keys, 1 + rest.pages, rest.complete)
  }

  predicate Beyond(resume: Option<string>, key: string) {
    resume.Some? ==> Less(resume.value, key)
  }

  /** A page of a sorted list: consecutive, and its token is its last key. */
  lemma PageAtFacts(sorted: seq<string>, from: nat, key: string)
    requires StrictlySorted(sorted) && from <= |sorted|
    ensures var page := PageAt(sorted, from, FETCH_SIZE);
      && StrictlySorted(page.keys)
      && (page.token.Some? ==> page.keys != [] && page.token.value == page.keys[|page.keys| - 1])
      && (key in page.keys ==> key in sorted)
      && (key in sorted && key !in page.keys && key !in sorted[..from] ==>
            page.token.Some? && Less(page.token.value, key))
  {
    var to := from + |PageAt(sorted, from, FETCH_SIZE).keys|;
    if key in sorted {
      InOnePart(sorted, from, to, key);
      if key in sorted[to..] && to > from { BehindCut(sorted, to, key); }
    }
  }

  /** The resume point cuts the list between the keys up to it and the keys beyond it. */
  lemma PositionFacts(t: Tree, prefix: string, resume: Option<string>, key: string)
    requires prefix !in t.files
    ensures var s, from := SortedUnder(t, prefix), Position(t, prefix, resume);
      && (key in s[from..] ==> Beyond(resume, key))
      && (key in s[..from] ==> !Beyond(resume, key))
  {
    if resume.Some? { CutAtToken(SortedUnder(t, prefix), resume.value, key); }
  }

  lemma FilePage(t: Tree, prefix: string, resume: Option<string>)
    requires TreeOk(t) && prefix in t.files
    ensures Listing(t, prefix, FETCH_SIZE, resume) == Page(if resume.Some? then [] else [prefix], None)
  {
    FileHasNothingBelow(t, prefix);
    SortedOfUnique([prefix], {prefix});
  }

  /** One page: sorted, beyond the resume point, and the token is its last key. */
  lemma PageSound(t: Tree, prefix: string, resume: Option<string>, key: string)
    requires TreeOk(t)
    ensures var page := Listing(t, prefix, FETCH_SIZE, resume);
      && StrictlySorted(page.keys)
      && (key in page.keys ==> Beyond(resume, key) && key in KeysUnder(t, prefix))
      && (page.token.Some? ==> prefix !in t.files && page.keys != [] && page.token.value == page.keys[|page.keys| - 1])
  {
    if prefix in t.files {
      FilePage(t, prefix, resume);
    } else {
      PageAtFacts(SortedUnder(t, prefix), Position(t, prefix, resume), key);
      PositionFacts(t, prefix, resume, key);
    }
  }

  /** One page skips no key between its resume point and its token. */
  lemma PageComplete(t: Tree, prefix: string, resume: Option<string>, key: string)
    requires TreeOk(t) && key in KeysUnder(t, prefix) && Beyond(resume, key) && (resume.Some? ==> key != prefix)
    ensures var page := Listing(t, prefix, FETCH_SIZE, resume);
      key in page.keys || (page.token.Some? && Less(page.token.value, key))
  {
    if prefix in t.files {
      FilePage(t, prefix, resume);
      FileHasNothingBelow(t, prefix);
    } else {
      PageAtFacts(SortedUnder(t, prefix), Position(t, prefix, resume), key);
      PositionFacts(t, prefix, resume, key);
    }
  }

  ghost predicate TreesOk(trees: seq<Tree>) {
    forall i :: 0 <= i < |trees| ==> TreeOk(trees[i])
  }

  /** The key was stored under the prefix when each of the first `pages` pages was read. */
  ghost predicate PresentThroughout(trees: seq<Tree>, prefix: string, key: string, pages: nat)
    requires pages <= |trees|
  {
    forall i :: 0 <= i < pages ==> key in KeysUnder(trees[i], prefix)
  }

  lemma {:induction false} WalkPages(trees: seq<Tree>, prefix: string, resume: Option<string>)
    ensures Walk(trees, prefix, resume).pages <= |trees|
    ensures !Walk(trees, prefix, resume).complete ==> Walk(trees, prefix, resume).pages == |trees|
    decreases |trees|
  {
    if trees != [] { WalkPages(trees[1..], prefix, Listing(trees[0], prefix, FETCH_SIZE, resume).token); }
  }

  lemma ConcatSorted(a: seq<string>, b: seq<string>)
    requires StrictlySorted(a) && StrictlySorted(b)
    requires a != [] ==> forall y :: y in b ==> Less(a[|a| - 1], y)
    ensures StrictlySorted(a + b)
  {
    forall i, j | 0 <= i < j < |a + b| ensures Less((a + b)[i], (a + b)[j]) {
      if i < |a| <= j {
        assert (a + b)[j] == b[j - |a|] && b[j - |a|] in b;
        if i < |a| - 1 { LessTransitive(a[i], a[|a| - 1], b[j - |a|]); }
      }
    }
  }

  /** Whatever happens to the store between pages, what a walk collects lies beyond its resume point. */
  lemma {:induction false} WalkBeyond(trees: seq<Tree>, prefix: string, resume: Option<string>, key: string)
    requires TreesOk(trees) && key in Walk(trees, prefix, resume).keys
    ensures Beyond(resume, key)
    decreases |trees|
  {
    PageSound(trees[0], prefix, resume, key);
    var page := Listing(trees[0], prefix, FETCH_SIZE, resume);
    if key !in page.keys {
      WalkBeyond(trees[1..], prefix, page.token, key);
      if resume.Some? {
        PageSound(trees[0], prefix, resume, page.token.value);
        LessTransitive(resume.value, page.token.value, key);
      }
    }
  }

  /** Whatever happens to the store between pages, a walk never repeats or reorders a key. */
  lemma {:induction false} WalkSorted(trees: seq<Tree>, prefix: string, resume: Option<string>)
    requires TreesOk(trees)
    ensures StrictlySorted(Walk(trees, prefix, resume).keys)
    decreases |trees|
  {
    if trees != [] {
      var page := Listing(trees[0], prefix, FETCH_SIZE, resume);
      PageSound(trees[0], prefix, resume, "");
      if page.token.Some? {
        var rest := Walk(trees[1..], prefix, page.token);
        WalkSorted(trees[1..], prefix, page.token);
        forall key | key in rest.keys ensures Less(page.token.value, key) {
          WalkBeyond(trees[1..], prefix, page.token, key);
        }
        ConcatSorted(page.keys, rest.keys);
      }
    }
  }

  /** Every collected key was stored under the prefix when some page was read. */
  lemma {:induction false} WalkSound(trees: seq<Tree>, prefix: string, resume: Option<string>, key: string)
    requires TreesOk(trees) && key in Walk(trees, prefix, resume).keys
    ensures exists i :: 0 <= i < |trees| && i < Walk(trees, prefix, resume).pages && key in KeysUnder(trees[i], prefix)
    decreases |trees|
  {
    PageSound(trees[0], prefix, resume, key);
    var page := Listing(trees[0], prefix, FETCH_SIZE, resume);
    if key !in page.keys {
      WalkSound(trees[1..], prefix, page.token, key);
      var i :| 0 <= i < |trees[1..]| && i < Walk(trees[1..], prefix, page.token).pages
        && key in KeysUnder(trees[1..][i], prefix);
      assert trees[1..][i] == trees[i + 1];
    }
  }

  /** A walk that ends on a missing token collected every key that was there throughout. */
  lemma {:induction false} WalkMissesNothing(trees: seq<Tree>, prefix: string, resume: Option<string>, key: string)
    requires TreesOk(trees) && Walk(trees, prefix, resume).complete
    requires Walk(trees, prefix, resume).pages <= |trees|
    requires PresentThroughout(trees, prefix, key, Walk(trees, prefix, resume).pages)
    requires Beyond(resume, key) && (resume.Some? ==> key != prefix)
    ensures key in Walk(trees, prefix, resume).keys
    decreases |trees|
  {
    assert key in KeysUnder(trees[0], prefix);
    PageComplete(trees[0], prefix, resume, key);
    PageSound(trees[0], prefix, resume, key);
    var page := Listing(trees[0], prefix, FETCH_SIZE, resume);
    if key !in page.keys {
      var rest := Walk(trees[1..], prefix, page.token);
      WalkPages(trees[1..], prefix, page.token);
      forall i | 0 <= i < rest.pages ensures key in KeysUnder(trees[1..][i], prefix) {
        assert trees[1..][i] == trees[i + 1];
      }
      WalkMissesNothing(trees[1..], prefix, page.token, key);
    }
  }

  /**
    Keyset paging over a changing store: the collected keys are strictly increasing, and a walk
    that ended by itself has every key that was stored at all of its page reads.
  */
  lemma PagingOverChangingStore(trees: seq<Tree>, prefix: string)
    requires TreesOk(trees)
    ensures var w := Walk(trees, prefix, None);
      && StrictlySorted(w.keys) && w.pages <= |trees|
      && (w.complete ==> forall key :: PresentThroughout(trees, prefix, key, w.pages) ==> key in w.keys)
  {
    WalkSorted(trees, prefix, None);
    WalkPages(trees, prefix, None);
    var w := Walk(trees, prefix, None);
    if w.complete {
      forall key | PresentThroughout(trees, prefix, key, w.pages) ensures key in w.keys {
        WalkMissesNothing(trees, prefix, None, key);
      }
    }
  }

  /** A token leads to the position behind its page. */
  lemma NextPosition(t: Tree, prefix: string, resume: Option<string>)
    requires TreeOk(t) && Listing(t, prefix, FETCH_SIZE, resume).token.Some?
    ensures Position(t, prefix, Listing(t, prefix, FETCH_SIZE, resume).token) ==
        Position(t, prefix, resume) + FETCH_SIZE
  {
    PageSound(t, prefix, resume, "");
    CountUpToMember(SortedUnder(t, prefix), Position(t, prefix, resume) + FETCH_SIZE - 1);
  }

  /** The first `n` keys from a position on. */
  function Consecutive(s: seq<string>, from: nat, n: nat): seq<string>
    requires from <= |s|
  {
    s[from..Smaller(|s|, from + n)]
  }

  lemma ConsecutiveLast(s: seq<string>, from: nat, n: nat)
    requires from <= |s| <= from + FETCH_SIZE
    ensures Consecutive(s, from, FETCH_SIZE + n) == PageAt(s, from, FETCH_SIZE).keys
  {
  }

  lemma ConsecutiveStep(s: seq<string>, from: nat, n: nat)
    requires from + FETCH_SIZE < |s|
    ensures Consecutive(s, from, FETCH_SIZE + n) ==
        PageAt(s, from, FETCH_SIZE).keys + Consecutive(s, from + FETCH_SIZE, n)
  {
  }

  /** One page of a fixed store, followed by the `n` keys behind it. */
  lemma FixedPage(t: Tree, prefix: string, resume: Option<string>, n: nat)
    requires TreeOk(t)
    ensures var s, from := SortedUnder(t, prefix), Position(t, prefix, resume);
      var page := Listing(t, prefix, FETCH_SIZE, resume);
      && (page.token.None? <==> |s| <= from + FETCH_SIZE)
      && Consecutive(s, from, FETCH_SIZE + n) ==
           (if page.token.None? then page.keys else page.keys + Consecutive(s, Position(t, prefix, page.token), n))
      && (page.token.Some? ==> Position(t, prefix, page.token) == from + FETCH_SIZE)
  {
    var s: seq<string>, from: nat := SortedUnder(t, prefix), Position(t, prefix, resume);
    if Listing(t, prefix, FETCH_SIZE, resume).token.Some? {
      NextPosition(t, prefix, resume);
      ConsecutiveStep(s, from, n);
    } else {
      ConsecutiveLast(s, from, n);
    }
  }

  /** The store did not change while the pages were read. */
  ghost predicate Fixed(trees: seq<Tree>, t: Tree) {
    forall i :: 0 <= i < |trees| ==> trees[i] == t
  }

  /** The first page of a walk, when the rest of the walk collects the next `n` keys. */
  lemma FirstPage(trees: seq<Tree>, t: Tree, prefix: string, resume: Option<string>, n: nat)
      returns (token: Option<string>)
    requires TreeOk(t) && trees != [] && trees[0] == t
    ensures var s, from, w := SortedUnder(t, prefix), Position(t, prefix, resume), Walk(trees, prefix, resume);
      if |s| <= from + FETCH_SIZE
      then token.None? && w == Walked(Consecutive(s, from, FETCH_SIZE + n), 1, true)
      else
        var rest := Walk(trees[1..], prefix, token);
        && token.Some? && Position(t, prefix, token) == from + FETCH_SIZE && w.complete == rest.complete
        && (rest.keys == Consecutive(s, from + FETCH_SIZE, n) ==> w.keys == Consecutive(s, from, FETCH_SIZE + n))
  {
    token := Listing(t, prefix, FETCH_SIZE, resume).token;
    FixedPage(t, prefix, resume, n);
  }

  lemma FixedTail(trees: seq<Tree>, t: Tree)
    requires trees != [] && Fixed(trees, t)
    ensures trees[0] == t && Fixed(trees[1..], t)
  {
  }

  /** The keys that a walk over a fixed store collects, and when it is complete. */
  ghost predicate Collects(t: Tree, prefix: string, resume: Option<string>, budget: nat, w: Walked) {
    var s, from := SortedUnder(t, prefix), Position(t, prefix, resume);
    && w.keys == Consecutive(s, from, budget)
    && (budget > 0 ==> (w.complete <==> |s| <= from + budget))
  }

  /** On a store that does not change, the walk collects consecutive keys. */
  lemma {:induction false} WalkFixed(trees: seq<Tree>, t: Tree, prefix: string, resume: Option<string>, budget: nat)
    requires TreeOk(t) && Fixed(trees, t) && budget == FETCH_SIZE * |trees|
    ensures Collects(t, prefix, resume, budget, Walk(trees, prefix, resume))
    decreases |trees|
  {
    if trees != [] {
      FixedTail(trees, t);
      var less := budget - FETCH_SIZE;
      var token := FirstPage(trees, t, prefix, resume, less);
      if token.Some? {
        WalkFixed(trees[1..], t, prefix, token, less);
        WalkPages(trees[1..], prefix, token);
      }
    }
  }

  /** On a fixed store the walk returns the first 50000 keys, and all of them if there are no more. */
  lemma PagingFixedStore(trees: seq<Tree>, t: Tree, prefix: string)
    requires TreeOk(t) && |trees| == 500 && Fixed(trees, t)
    ensures var w, s := Walk(trees, prefix, None), SortedUnder(t, prefix);
      && w.keys == s[..Smaller(|s|, 50000)]
      && (w.complete <==> |s| <= 50000)
      && (w.complete ==> forall key :: key in w.keys <==> key in KeysUnder(t, prefix))
  {
    WalkFixed(trees, t, prefix, None, 50000);
  }

  ghost function ContentsOf(views: seq<LocalStore>): (trees: seq<Tree>)
    reads views
    ensures |trees| == |views| && forall i :: 0 <= i < |views| ==> trees[i] == views[i].Contents()
  {
    seq(|views|, i requires 0 <= i < |views| reads views => views[i].Contents())
  }

  /** One page of a walk, and the walk that goes on behind it. */
  lemma WalkStep(trees: seq<Tree>, read: nat, prefix: string, token: Option<string>, keys: seq<string>)
    requires read < |trees|
    ensures var page := Listing(trees[read], prefix, FETCH_SIZE, token);
      keys + Walk(trees[read..], prefix, token).keys ==
        keys + page.keys + if page.token.None? then [] else Walk(trees[read + 1..], prefix, page.token).keys
  {
    assert trees[read..][1..] == trees[read + 1..];
  }

  /** The loop itself. `views[i]` is the store as it is when page number `i` is read. */
  method ListKeysUnderPrefix(views: seq<LocalStore>, prefix: string) returns (keys: seq<string>)
    requires |views| == MAX_DELETE_PAGES && forall v :: v in views ==> v.Valid()
    requires prefix == "" || Clean(prefix)
    ensures keys == Walk(ContentsOf(views), prefix, None).keys
  {
    keys := [];
    var token: Option<string> := None;
    var read := 0;
    var more := true;
    ghost var trees := ContentsOf(views);
    ghost var all := Walk(trees, prefix, None).keys;
    while read < MAX_DELETE_PAGES && more
      invariant 0 <= read <= MAX_DELETE_PAGES
      invariant more ==> keys + Walk(trees[read..], prefix, token).keys == all
      invariant !more ==> keys == all
    {
      var page := views[read].ListPrefix(prefix, FETCH_SIZE, token);
      WalkStep(trees, read, prefix, token, keys);
      keys := keys + page.keys;
      more, token := page.token.Some?, page.token;
      read := read + 1;
    }
  }
}
