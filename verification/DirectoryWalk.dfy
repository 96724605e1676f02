/**
  Following the cursors of a directory listing while the directory changes between the pages
  (packvault/storage/prefix_listing.py, `merge_directory_page`).
*/
module DirectoryWalk {
  import opened Basics
  import opened DirectoryPage
  import opened Strings

  /** The order of a level: that of the texts that name its entries in cursors. */
  predicate Precedes(a: Entry, b: Entry) {
    Less(Token(a), Token(b))
  }

  predicate InOrder(entries: seq<Entry>) {
    forall i, j :: 0 <= i < j < |entries| ==> Precedes(entries[i], entries[j])
  }

  lemma LevelInOrder(entries: seq<Entry>)
    requires Level(entries)
    ensures InOrder(entries)
  {
    forall i, j | 0 <= i < j < |entries| ensures Precedes(entries[i], entries[j]) {
      assert Less(Tokens(entries)[i], Tokens(entries)[j]);
    }
  }

  /** The entry is behind the cursor, whether or not the cursor's own entry is still there. */
  predicate Behind(cursor: Option<string>, e: Entry) {
    cursor.Some? && cursor.value != "" ==> Less(cursor.value, [e.kind] + ":" + e.value)
  }

  lemma BehindEntry(a: Entry, e: Entry)
    ensures Behind(Some(Token(a)), e) <==> Precedes(a, e)
  {
    assert Token(a) != "";
  }

  lemma BehindMore(cursor: Option<string>, a: Entry, e: Entry)
    requires Behind(cursor, a) && Precedes(a, e)
    ensures Behind(cursor, e)
  {
    if cursor.Some? && cursor.value != "" { LessTransitive(cursor.value, Token(a), Token(e)); }
  }

  /** A cursor leads to the first entry behind it, also when its own entry is gone. */
  lemma ResumeMeans(entries: seq<Entry>, cursor: Option<string>, i: nat)
    requires Level(entries) && i < |entries|
    ensures Behind(cursor, entries[i]) <==> Resume(entries, cursor) <= i
  {
    if cursor.Some? {
      CountUpToSplits(Tokens(entries), cursor.value);
      assert Tokens(entries)[i] == Token(entries[i]);
    }
  }

  function ListedOn(page: DirPage): seq<Entry> {
    Entries(page.directories, page.files)
  }

  /**
    The page is a stretch of its level that begins with the first entry behind the cursor; unless it is at the end of
    the level, it has entries, and its own cursor is the last of them.
  */
  ghost predicate IsStretch(entries: seq<Entry>, cursor: Option<string>, listed: seq<Entry>, next: Option<string>,
                            from: nat, to: nat) {
    && from <= to <= |entries| && listed == entries[from..to]
    && (forall i :: 0 <= i < |entries| ==> (Behind(cursor, entries[i]) <==> from <= i))
    && if to < |entries| then from < to && next == Some(Token(entries[to - 1])) else next == None
  }

  lemma PageInside(entries: seq<Entry>, maxEntries: nat, cursor: Option<string>, from: nat, to: nat)
    requires Stretch(entries) && Kinds(entries) && from == Resume(entries, cursor)
    requires 0 < maxEntries && to == from + maxEntries < |entries|
    ensures var page := PageAfter(entries, maxEntries, cursor);
      ListedOn(page) == entries[from..to] && page.cursor == Some(Token(entries[to - 1]))
  {
    PageCursor(entries, from, maxEntries, cursor, to);
    assert entries[from..][..maxEntries] == entries[from..to];
  }

  lemma PageIsStretch(entries: seq<Entry>, maxEntries: nat, cursor: Option<string>) returns (from: nat, to: nat)
    requires Level(entries) && maxEntries > 0
    ensures var page := PageAfter(entries, maxEntries, cursor);
      IsStretch(entries, cursor, ListedOn(page), page.cursor, from, to)
  {
    from := Resume(entries, cursor);
    to := Smaller(from + maxEntries, |entries|);
    forall i | 0 <= i < |entries| ensures Behind(cursor, entries[i]) <==> from <= i {
      ResumeMeans(entries, cursor, i);
    }
    if to < |entries| {
      PageInside(entries, maxEntries, cursor, from, to);
    } else {
      PageAtEnd(entries, from, maxEntries, cursor);
      assert entries[from..to] == entries[from..];
    }
  }

  /** Such a page lists entries behind the cursor, in order. */
  lemma StretchSound(entries: seq<Entry>, cursor: Option<string>, listed: seq<Entry>, next: Option<string>,
                     from: nat, to: nat)
    requires InOrder(entries) && IsStretch(entries, cursor, listed, next, from, to)
    ensures InOrder(listed) && forall e :: e in listed ==> e in entries && Behind(cursor, e)
    ensures next.Some? ==> listed != [] && next.value == Token(listed[|listed| - 1])
  {
    forall e | e in listed ensures e in entries && Behind(cursor, e) {
      var i :| 0 <= i < |listed| && listed[i] == e;
      assert entries[from + i] == e;
    }
  }

  /** And it skips none of them. */
  lemma StretchComplete(entries: seq<Entry>, cursor: Option<string>, listed: seq<Entry>, next: Option<string>,
                        from: nat, to: nat, e: Entry)
    requires InOrder(entries) && IsStretch(entries, cursor, listed, next, from, to)
    requires e in entries && Behind(cursor, e) && e !in listed
    ensures next.Some? && listed != [] && next.value == Token(listed[|listed| - 1]) && Precedes(listed[|listed| - 1], e)
  {
    var i :| 0 <= i < |entries| && entries[i] == e;
    assert forall k :: from <= k < to ==> listed[k - from] == entries[k];
  }

  /** The entries that a walk listed, the pages it read, and whether it ended without a cursor. */
  datatype LevelWalk = LevelWalk(entries: seq<Entry>, pages: nat, complete: bool)

  /** A walk that reads its pages from the levels in turn, each possibly different from the last. */
  function WalkLevels(levels: seq<seq<Entry>>, maxEntries: nat, cursor: Option<string>): LevelWalk {
    if levels == [] then LevelWalk([], 0, false)
    else
      var page := PageAfter(levels[0], maxEntries, cursor);
      if page.cursor.None? then LevelWalk(ListedOn(page), 1, true)
      else
        var rest := WalkLevels(levels[1..], maxEntries, page.cursor);
        LevelWalk(ListedOn(page) + rest.entries, 1 + rest.pages, rest.complete)
  }

  predicate Levels(levels: seq<seq<Entry>>) {
    forall i :: 0 <= i < |levels| ==> Level(levels[i])
  }

  lemma PrecedesTransitive(a: Entry, b: Entry, c: Entry)
    requires Precedes(a, b) && Precedes(b, c)
    ensures Precedes(a, c)
  {
    LessTransitive(Token(a), Token(b), Token(c));
  }

  lemma JoinedInOrder(a: seq<Entry>, b: seq<Entry>)
    requires InOrder(a) && InOrder(b)
    requires a != [] ==> forall e :: e in b ==> Precedes(a[|a| - 1], e)
    ensures InOrder(a + b)
  {
    forall i, j | 0 <= i < |a| && 0 <= j < |b| ensures Precedes(a[i], b[j]) {
      assert b[j] in b;
      if i < |a| - 1 { PrecedesTransitive(a[i], a[|a| - 1], b[j]); }
    }
  }

  /** The first page in front of the rest of the walk. */
  lemma FirstPage(cursor: Option<string>, listed: seq<Entry>, rest: seq<Entry>)
    requires InOrder(listed) && (forall e :: e in listed ==> Behind(cursor, e)) && listed != []
    requires InOrder(rest) && forall e :: e in rest ==> Behind(Some(Token(listed[|listed| - 1])), e)
    ensures InOrder(listed + rest) && forall e :: e in listed + rest ==> Behind(cursor, e)
  {
    var last := listed[|listed| - 1];
    assert last in listed;
    forall e | e in rest ensures Behind(cursor, e) && Precedes(last, e) {
      BehindEntry(last, e);
      BehindMore(cursor, last, e);
    }
    JoinedInOrder(listed, rest);
  }

  lemma {:induction false} WalkInOrder(levels: seq<seq<Entry>>, maxEntries: nat, cursor: Option<string>)
    requires Levels(levels) && maxEntries > 0
    ensures var w := WalkLevels(levels, maxEntries, cursor);
      InOrder(w.entries) && w.pages <= |levels| && forall e :: e in w.entries ==> Behind(cursor, e)
    decreases |levels|
  {
    if levels != [] {
      var page := PageAfter(levels[0], maxEntries, cursor);
      var from, to := PageIsStretch(levels[0], maxEntries, cursor);
      LevelInOrder(levels[0]);
      StretchSound(levels[0], cursor, ListedOn(page), page.cursor, from, to);
      if page.cursor.Some? {
        WalkInOrder(levels[1..], maxEntries, page.cursor);
        FirstPage(cursor, ListedOn(page), WalkLevels(levels[1..], maxEntries, page.cursor).entries);
      }
    }
  }

  /** What a page does not list although it is behind the cursor is behind the next one. */
  lemma SkippedIsLater(entries: seq<Entry>, maxEntries: nat, cursor: Option<string>, e: Entry)
    requires Level(entries) && maxEntries > 0 && e in entries && Behind(cursor, e)
    requires e !in ListedOn(PageAfter(entries, maxEntries, cursor))
    ensures var next := PageAfter(entries, maxEntries, cursor).cursor; next.Some? && Behind(next, e)
  {
    var page := PageAfter(entries, maxEntries, cursor);
    var from, to := PageIsStretch(entries, maxEntries, cursor);
    LevelInOrder(entries);
    StretchComplete(entries, cursor, ListedOn(page), page.cursor, from, to, e);
    BehindEntry(ListedOn(page)[|ListedOn(page)| - 1], e);
  }

  lemma {:induction false} WalkMissesNothing(levels: seq<seq<Entry>>, maxEntries: nat, cursor: Option<string>, e: Entry)
    requires Levels(levels) && maxEntries > 0 && Behind(cursor, e)
    requires var w := WalkLevels(levels, maxEntries, cursor);
      w.complete && w.pages <= |levels| && forall i :: 0 <= i < w.pages ==> e in levels[i]
    ensures e in WalkLevels(levels, maxEntries, cursor).entries
    decreases |levels|
  {
    var page := PageAfter(levels[0], maxEntries, cursor);
    assert e in levels[0];
    if e !in ListedOn(page) {
      SkippedIsLater(levels[0], maxEntries, cursor, e);
      var rest := WalkLevels(levels[1..], maxEntries, page.cursor);
      forall i | 0 <= i < rest.pages ensures e in levels[1..][i] { assert levels[1..][i] == levels[i + 1]; }
      WalkMissesNothing(levels[1..], maxEntries, page.cursor, e);
    }
  }

  /**
    Following the cursors while the directory changes between the pages: no entry is listed twice, directories come
    before files and each kind in order, and a walk that ended by itself has every entry that was there at all of
    its page reads.
  */
  lemma PagingOverChangingLevel(levels: seq<seq<Entry>>, maxEntries: nat)
    requires Levels(levels) && maxEntries > 0
    ensures var w := WalkLevels(levels, maxEntries, None);
      && InOrder(w.entries) && w.pages <= |levels|
      && (w.complete ==> forall e :: (forall i :: 0 <= i < w.pages ==> e in levels[i]) ==> e in w.entries)
  {
    WalkInOrder(levels, maxEntries, None);
    var w := WalkLevels(levels, maxEntries, None);
    if w.complete {
      forall e | forall i :: 0 <= i < w.pages ==> e in levels[i] ensures e in w.entries {
        WalkMissesNothing(levels, maxEntries, None, e);
      }
    }
  }
}
