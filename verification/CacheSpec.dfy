/**
  The read-through cache as a function from state to state, for calls that run one after another,
  and its agreement with the primary alone, which is a plain map.
*/
module CacheSpec {
  import opened Basics
  import opened CachePolicy
  import opened Text
  import opened FileTree
  import opened LocalStore

  datatype CState = CState(primary: map<string, Bytes>, cache: Tree)

  /**
    `take` is how many chunks the caller reads before it abandons the stream; `None` drains it.
    `fails` makes the primary raise before it does anything, `cacheFault` makes the cache raise.
  */
  datatype Call =
    | Head(key: string)
    | Get(key: string, take: Option<nat>)
    | Put(key: string, content: Bytes, exclusive: bool, fails: bool, cacheFault: bool)
    | Delete(key: string, fails: bool, cacheFault: bool)
    | DeleteMany(keys: seq<string>, fails: bool, cacheFault: bool)

  /** How a stream ends for its reader: after all chunks, because the reader goes away, or with an exception. */
  datatype StreamEnd = Finished | Gone | Raised

  datatype Answer =
    | Headed(head: HeadAnswer)
    | Content(bytes: Bytes, end: StreamEnd)
    | Absent
    | Refused
    | Uploaded(put: PutAnswer)
    | Removed(delete: DeleteAnswer)

  /** The bytes a caller has read after `take` chunks. */
  function Sent(content: Bytes, take: Option<nat>): Bytes {
    if take.None? || take.value >= |Chunks(content)| then content else Concat(Chunks(content)[..take.value])
  }

  /** The caller reads on until the stream ends by itself. */
  predicate Drained(content: Bytes, take: Option<nat>) {
    take.None? || take.value > |Chunks(content)|
  }

  /** A stream without faults. */
  function Streamed(content: Bytes, take: Option<nat>): Answer {
    Content(Sent(content, take), if Drained(content, take) then Finished else Gone)
  }

  /** The primary alone. */
  function MapStep(m: map<string, Bytes>, call: Call): (map<string, Bytes>, Answer) {
    match call
    case Head(key) => (m, Headed(if key in m then Size(|m[key]|) else Missing))
    case Get(key, take) =>
      (m, if key in m then Streamed(m[key], take) else if take == Some(0) then Content([], Gone) else Absent)
    case Put(key, content, exclusive, fails, _) =>
      if fails then (m, Uploaded(StorageError))
      else if exclusive && key in m then (m, Uploaded(Conflict))
      else (m[key := content], Uploaded(Stored))
    case Delete(key, fails, _) =>
      if fails then (m, Removed(DeleteFailed))
      else if key in m then (m - {key}, Removed(Deleted))
      else (m, Removed(NotFound))
    case DeleteMany(keys, fails, _) =>
      if fails then (m, Removed(DeleteFailed)) else (m - (set k | k in keys), Removed(Deleted))
  }

  /** The cache directory after a miss that was streamed from the primary. */
  ghost function Filled(s: CState, key: string, take: Option<nat>): Tree {
    var made := Effect(s.cache, MakeDirs(key));
    if key in s.primary && Drained(s.primary[key], take) && key !in made.dirs
    then made.(files := made.files[key := s.primary[key]])
    else made
  }

  /** All bytes were read, and then the temp file cannot be moved onto a directory. */
  predicate CannotPlace(s: CState, key: string, take: Option<nat>) {
    IsCacheable(key) && key in s.primary && Drained(s.primary[key], take) && key in s.cache.dirs
  }

  /** The primary behind its cache. */
  ghost function CacheStep(s: CState, call: Call): (CState, Answer) {
    var (primary, plain) := MapStep(s.primary, call);
    match call
    case Head(key) =>
      var cached := HeadOf(s.cache, key);
      (s, if IsCacheable(key) && !cached.Missing? then Headed(cached) else plain)
    case Get(key, take) =>
      var cached := HeadOf(s.cache, key);
      if !IsCacheable(key) then (s, plain)
      else if cached.Unavailable? then (s, Refused)
      else if cached.Size? then (s, Streamed(s.cache.files[key], take))
      else
        (s.(cache := Filled(s, key, take)),
         if CannotPlace(s, key, take) then Content(s.primary[key], Raised) else plain)
    case Put(key, content, _, _, cacheFault) =>
      var stored := CState(primary, s.cache);
      if plain != Uploaded(Stored) || !IsCacheable(key) then (stored, plain)
      else
        var answer := PutResult(s.cache, key, false, if cacheFault then Some(StorageError) else None);
        (stored.(cache := PutTree(s.cache, key, content, answer)), plain)
    case Delete(key, _, cacheFault) =>
      var evicts := plain == Removed(Deleted) && !cacheFault;
      (CState(primary, if evicts then s.cache.(files := s.cache.files - {key}) else s.cache), plain)
    case DeleteMany(keys, _, cacheFault) =>
      var evicts := plain == Removed(Deleted) && !cacheFault;
      (CState(primary, if evicts then s.cache.(files := s.cache.files - (set k | k in keys)) else s.cache), plain)
  }

  /** Every cached file is the primary's object, and may be cached. */
  ghost predicate Coherent(s: CState) {
    && TreeOk(s.cache)
    && forall key :: key in s.cache.files ==>
         IsCacheable(key) && key in s.primary && s.cache.files[key] == s.primary[key]
  }

  /** A cached file stands where the key needs a directory, so the cache cannot even look the key up. */
  predicate Shadowed(s: CState, key: string) {
    IsCacheable(key) && exists a :: a in Ancestors(key) && a in s.cache.files
  }

  ghost predicate WellFormed(call: Call) {
    match call
    case DeleteMany(keys, _, _) => forall key :: key in keys ==> Clean(key)
    case _ => Clean(call.key)
  }

  predicate NoCacheFault(call: Call) {
    match call
    case Put(_, _, _, _, fault) => !fault
    case Delete(_, _, fault) => !fault
    case DeleteMany(_, _, fault) => !fault
    case _ => true
  }

  /**
    The call looks its key up in the cache and a cached file is in the way, or it reads a stored key to
    the end and a directory of the cache is in the way.
  */
  predicate Blocked(s: CState, call: Call) {
    match call
    case Head(key) => Shadowed(s, key)
    case Get(key, take) => Shadowed(s, key) || CannotPlace(s, key, take)
    case _ => false
  }

  lemma GetCoherent(s: CState, key: string, take: Option<nat>)
    requires Coherent(s) && Clean(key)
    ensures Coherent(CacheStep(s, Get(key, take)).0)
  {
    CallKeepsTree(s.cache, MakeDirs(key));
    var made := Effect(s.cache, MakeDirs(key));
    if IsCacheable(key) && key in s.primary && key !in made.dirs {
      CallKeepsTree(made, Replace(key, s.primary[key]));
    }
  }

  lemma PutCoherent(s: CState, call: Call)
    requires Coherent(s) && call.Put? && Clean(call.key) && NoCacheFault(call)
    ensures Coherent(CacheStep(s, call).0)
  {
    PutKeepsTree(s.cache, call.key, call.content, false, None);
    if SysReturn(s.cache, MakeDirs(call.key)) != Done {
      assert call.key !in s.cache.files by { assert Exists(s.cache, call.key) || call.key !in s.cache.files; }
    }
  }

  lemma StepCoherent(s: CState, call: Call)
    requires Coherent(s) && WellFormed(call) && NoCacheFault(call)
    ensures Coherent(CacheStep(s, call).0)
  {
    match call
    case Get(key, take) => GetCoherent(s, key, take);
    case Put(_, _, _, _, _) => PutCoherent(s, call);
    case _ =>
  }

  lemma HeadRefines(s: CState, key: string)
    requires Coherent(s)
    ensures CacheStep(s, Head(key)).1 == MapStep(s.primary, Head(key)).1 <==> !Shadowed(s, key)
  {
  }

  lemma GetRefines(s: CState, key: string, take: Option<nat>)
    requires Coherent(s)
    ensures CacheStep(s, Get(key, take)).1 == MapStep(s.primary, Get(key, take)).1 <==> !Blocked(s, Get(key, take))
  {
    var cached := HeadOf(s.cache, key);
    if cached.Size? && IsCacheable(key) { assert s.cache.files[key] == s.primary[key]; }
  }

  /** One call: the same effect on the primary, and the same answer exactly unless it is blocked. */
  lemma StepRefines(s: CState, call: Call)
    requires Coherent(s)
    ensures CacheStep(s, call).0.primary == MapStep(s.primary, call).0
    ensures CacheStep(s, call).1 == MapStep(s.primary, call).1 <==> !Blocked(s, call)
  {
    match call
    case Head(key) => HeadRefines(s, key);
    case Get(key, take) => GetRefines(s, key, take);
    case _ =>
  }

  /** The bytes of a stream that is abandoned after some chunks of 65536 bytes, and whether it was read to its end. */
  lemma ReadMeans(content: Bytes, take: nat)
    ensures Streamed(content, None) == Content(content, Finished)
    ensures Streamed(content, Some(take)) ==
            if take > 0 && 65536 * (take - 1) >= |content| then Content(content, Finished)
            else Content(content[..Smaller(65536 * take, |content|)], Gone)
  {
    ChunkCount(content);
    ConcatChunks(content);
    if take < |Chunks(content)| { FirstChunks(content, take); }
  }

  lemma {:induction false} ChunkCount(content: Bytes)
    ensures var n := |Chunks(content)|; 65536 * n >= |content| && (n > 0 ==> 65536 * (n - 1) < |content|)
  {
    if |content| > CHUNK_SIZE { ChunkCount(content[CHUNK_SIZE..]); }
  }

  lemma {:induction false} FirstChunks(content: Bytes, take: nat)
    requires take < |Chunks(content)|
    ensures 65536 * take < |content| && Concat(Chunks(content)[..take]) == content[..65536 * take]
  {
    if take > 0 {
      var rest := content[CHUNK_SIZE..];
      FirstChunks(rest, take - 1);
      assert Chunks(content)[..take] == [content[..CHUNK_SIZE]] + Chunks(rest)[..take - 1];
      ConcatFront(content[..CHUNK_SIZE], Chunks(rest)[..take - 1]);
      assert content[..65536 * take] == content[..CHUNK_SIZE] + rest[..65536 * (take - 1)];
    }
  }

  /**
    The size that a lookup announces is the number of bytes that a read to the end returns in the same state,
    whether they come from the cache or not; and what the lookup misses, the read misses too.
  */
  lemma AnnouncedIsRead(s: CState, key: string)
    requires Coherent(s) && !Blocked(s, Get(key, None))
    ensures var head, read := CacheStep(s, Head(key)).1, CacheStep(s, Get(key, None)).1;
      if key in s.primary
      then read == Content(s.primary[key], Finished) && head == Headed(Size(|s.primary[key]|))
      else read == Absent && head == Headed(Missing)
  {
    HeadRefines(s, key);
    GetRefines(s, key, None);
  }

  /** A read that nothing in the cache is in the way of: what it returns, and what is cached then. */
  lemma ReadFills(s: CState, key: string, take: Option<nat>)
    requires Coherent(s) && !Blocked(s, Get(key, take))
    ensures var (t, read) := CacheStep(s, Get(key, take));
      if key in s.primary then
        && read == Streamed(s.primary[key], take)
        && t.cache.files == if IsCacheable(key) && Drained(s.primary[key], take)
                            then s.cache.files[key := s.primary[key]] else s.cache.files
      else read == (if take == Some(0) then Content([], Gone) else Absent) && t.cache.files == s.cache.files
  {
    GetRefines(s, key, take);
    if key in s.cache.files { assert s.cache.files[key := s.primary[key]] == s.cache.files; }
  }

  /** An upload is stored unless it fails or must not overwrite, and then it is cached if it may be and fits there. */
  lemma UploadMeans(s: CState, key: string, content: Bytes, exclusive: bool, fails: bool, cacheFault: bool)
    requires TreeOk(s.cache)
    ensures var (t, answer) := CacheStep(s, Put(key, content, exclusive, fails, cacheFault));
      var stored := !fails && !(exclusive && key in s.primary);
      var fits := key !in s.cache.dirs && forall a :: Ancestor(a, key) ==> a !in s.cache.files;
      && answer == Uploaded(if fails then StorageError else if stored then Stored else Conflict)
      && t.primary == (if stored then s.primary[key := content] else s.primary)
      && t.cache.files == if stored && IsCacheable(key) && !cacheFault && fits
                          then s.cache.files[key := content] else s.cache.files
  {
    PutMeans(s.cache, key, content, false, if cacheFault then Some(StorageError) else None);
  }

  /** A deletion takes the key from the primary, and from the cache unless that fails. */
  lemma DeletionMeans(s: CState, key: string, fails: bool, cacheFault: bool)
    ensures var (t, answer) := CacheStep(s, Delete(key, fails, cacheFault));
      var gone := !fails && key in s.primary;
      && answer == Removed(if fails then DeleteFailed else if gone then Deleted else NotFound)
      && t.primary == s.primary - (if gone then {key} else {})
      && t.cache == Tree(s.cache.files - (if gone && !cacheFault then {key} else {}), s.cache.dirs)
  {
    assert s.primary - {} == s.primary && s.cache.files - {} == s.cache.files;
  }

  function MapRun(m: map<string, Bytes>, calls: seq<Call>): map<string, Bytes> {
    if calls == [] then m else MapStep(MapRun(m, calls[..|calls| - 1]), calls[|calls| - 1]).0
  }

  ghost function CacheRun(s: CState, calls: seq<Call>): CState {
    if calls == [] then s else CacheStep(CacheRun(s, calls[..|calls| - 1]), calls[|calls| - 1]).0
  }

  lemma {:induction false} RunCoherent(s: CState, calls: seq<Call>)
    requires Coherent(s) && forall i :: 0 <= i < |calls| ==> WellFormed(calls[i]) && NoCacheFault(calls[i])
    ensures Coherent(CacheRun(s, calls)) && CacheRun(s, calls).primary == MapRun(s.primary, calls)
  {
    if calls != [] {
      RunCoherent(s, calls[..|calls| - 1]);
      StepCoherent(CacheRun(s, calls[..|calls| - 1]), calls[|calls| - 1]);
    }
  }

  /**
    The cached store refines the primary alone: after any calls, the next call is answered as a plain map
    with the same history answers it, exactly unless a cached file or a directory of the cache blocks it.
  */
  lemma CachedStoreRefinesMap(s: CState, calls: seq<Call>, next: Call)
    requires Coherent(s) && forall i :: 0 <= i < |calls| ==> WellFormed(calls[i]) && NoCacheFault(calls[i])
    requires WellFormed(next) && NoCacheFault(next)
    ensures var t, m := CacheRun(s, calls), MapRun(s.primary, calls);
      && CacheStep(t, next).0.primary == MapStep(m, next).0
      && (CacheStep(t, next).1 == MapStep(m, next).1 <==> !Blocked(t, next))
  {
    RunCoherent(s, calls);
    StepRefines(CacheRun(s, calls), next);
  }

  ghost predicate PrefixFree(m: map<string, Bytes>) {
    forall a, b :: a in m && b in m ==> !Ancestor(a, b)
  }

  /** No cached file is in the way of a stored key as long as no stored key is an ancestor of another. */
  lemma PrefixFreeNeverShadows(s: CState, key: string)
    requires Coherent(s) && PrefixFree(s.primary) && key in s.primary
    ensures !Shadowed(s, key)
  {
  }

  /** Without that, a stored key can be unreadable: "a" is cached, so "a/b" is refused. */
  lemma StoredKeyRefused()
    ensures var m: map<string, Bytes> := map["a" := [1], "a/b" := [2]];
      var s := CState(m, Tree(map[], {}));
      && Coherent(s)
      && CacheStep(CacheRun(s, [Get("a", None)]), Get("a/b", None)).1 == Refused
      && MapStep(m, Get("a/b", None)).1 == Content([2], Finished)
  {
    var m: map<string, Bytes> := map["a" := [1], "a/b" := [2]];
    var s := CState(m, Tree(map[], {}));
    assert IsCacheable("a") && Ancestors("a") == {};
    assert [Get("a", None)][..0] == [];
    var t := CacheRun(s, [Get("a", None)]);
    assert t == CacheStep(s, Get("a", None)).0;
    assert t.cache.files == map["a" := [1]];
    ShadowedExample(t);
    ConcatChunks([2]);
  }

  lemma ShadowedExample(t: CState)
    requires "a" in t.cache.files
    ensures Shadowed(t, "a/b")
  {
    assert "a/b"[..1] == "a";
    assert Ancestor("a", "a/b");
    assert StripLeft("a/b") == "a/b" && StripRight("a/b") == "a/b";
    assert "a/b"[..2] == "a/";
    assert LastSegment("a/") == "";
    assert LastSegment("a/b") == "b";
    assert |Upper("a/b")| == 3;
  }

  // ---------------------------------------------------------------------------------------------
  // Directories of the cache are never removed.

  lemma StepKeepsDirectories(s: CState, call: Call)
    ensures s.cache.dirs <= CacheStep(s, call).0.cache.dirs
  {
  }

  /**
    A key that once became a directory of the cache stays one, so from then on every read of it to the
    end is blocked whenever it is stored.
  */
  lemma {:induction false} DirectoryBlocksForever(s: CState, calls: seq<Call>, key: string)
    requires key in s.cache.dirs && IsCacheable(key)
    ensures var t := CacheRun(s, calls);
      key in t.cache.dirs && (key in t.primary ==> Blocked(t, Get(key, None)))
  {
    if calls != [] {
      DirectoryBlocksForever(s, calls[..|calls| - 1], key);
      StepKeepsDirectories(CacheRun(s, calls[..|calls| - 1]), calls[|calls| - 1]);
    }
  }

  /** A failed read of "a/b" leaves the directory "a", and then reading the stored key "a" ends in an error. */
  lemma LeftoverDirectory()
    ensures var m: map<string, Bytes> := map["a" := [1]];
      var s := CState(m, Tree(map[], {}));
      var t := CacheRun(s, [Get("a/b", None)]);
      && Coherent(t) && PrefixFree(t.primary)
      && CacheStep(s, Get("a/b", None)).1 == Absent
      && CacheStep(t, Get("a", None)).1 == Content([1], Raised)
      && MapStep(m, Get("a", None)).1 == Content([1], Finished)
  {
    var m: map<string, Bytes> := map["a" := [1]];
    var s := CState(m, Tree(map[], {}));
    ShadowFreeExample();
    assert [Get("a/b", None)][..0] == [];
    var t := CacheRun(s, [Get("a/b", None)]);
    assert t == CacheStep(s, Get("a/b", None)).0;
    GetCoherent(s, "a/b", None);
    assert t.cache == Tree(map[], {"a"});
    assert Ancestors("a") == {} && IsCacheable("a");
  }

  lemma ShadowFreeExample()
    ensures IsCacheable("a/b") && Ancestors("a/b") == {"a"} && Clean("a/b")
  {
    assert "a/b"[..1] == "a" && Ancestor("a", "a/b");
    forall a | a in Ancestors("a/b") ensures a == "a" { assert "a/b"[|a|] == '/'; }
    assert StripLeft("a/b") == "a/b" && StripRight("a/b") == "a/b";
    assert "a/b"[..2] == "a/";
    assert LastSegment("a/") == "";
    assert LastSegment("a/b") == "b";
    assert |Upper("a/b")| == 3;
  }

  // ---------------------------------------------------------------------------------------------
  // Which keys can be used together without any call being blocked.

  function KeysIn(call: Call): set<string> {
    match call
    case DeleteMany(keys, _, _) => set key | key in keys
    case _ => {call.key}
  }

  /** The calls use only keys of the set. */
  predicate Within(calls: seq<Call>, keys: set<string>) {
    forall i :: 0 <= i < |calls| ==> KeysIn(calls[i]) <= keys
  }

  /** The cache holds only cacheable keys of the set, and directories above them. */
  ghost predicate Confined(s: CState, keys: set<string>) {
    && (forall f :: f in s.cache.files ==> f in keys && IsCacheable(f))
    && forall d :: d in s.cache.dirs ==> exists key :: key in keys && IsCacheable(key) && Ancestor(d, key)
  }

  lemma MadeConfined(t: Tree, key: string, keys: set<string>, primary: map<string, Bytes>)
    requires Confined(CState(primary, t), keys) && key in keys && IsCacheable(key)
    ensures Confined(CState(primary, Effect(t, MakeDirs(key))), keys)
  {
    var made := Effect(t, MakeDirs(key));
    forall d | d in made.dirs ensures exists k :: k in keys && IsCacheable(k) && Ancestor(d, k) {
      if d !in t.dirs { assert Ancestor(d, key); }
    }
  }

  lemma StepConfined(s: CState, call: Call, keys: set<string>)
    requires Confined(s, keys) && KeysIn(call) <= keys
    ensures Confined(CacheStep(s, call).0, keys)
  {
    match call
    case Get(key, take) => if IsCacheable(key) { MadeConfined(s.cache, key, keys, s.primary); }
    case Put(key, _, _, _, _) => if IsCacheable(key) { MadeConfined(s.cache, key, keys, s.primary); }
    case _ =>
  }

  lemma {:induction false} RunConfined(s: CState, calls: seq<Call>, keys: set<string>)
    requires Confined(s, keys) && Within(calls, keys)
    ensures Confined(CacheRun(s, calls), keys)
  {
    if calls != [] {
      RunConfined(s, calls[..|calls| - 1], keys);
      StepConfined(CacheRun(s, calls[..|calls| - 1]), calls[|calls| - 1], keys);
    }
  }

  /** No cacheable key of the set is an ancestor of another. */
  ghost predicate Independent(keys: set<string>) {
    forall a, b :: a in keys && b in keys && IsCacheable(a) && IsCacheable(b) ==> !Ancestor(a, b)
  }

  /** Whatever the primary holds, no calls on the keys, with any faults, lead to a call on them that is blocked. */
  ghost predicate NeverBlocked(keys: set<string>) {
    forall m, calls, next :: Within(calls, keys) && KeysIn(next) <= keys ==>
      !Blocked(CacheRun(CState(m, Tree(map[], {})), calls), next)
  }

  lemma ConfinedNotBlocked(s: CState, next: Call, keys: set<string>)
    requires Confined(s, keys) && Independent(keys) && KeysIn(next) <= keys
    ensures !Blocked(s, next)
  {
    assert next.DeleteMany? || next.key in KeysIn(next);
  }

  /** Once "a" is uploaded, looking up a key below it is blocked. */
  lemma AncestorBlocks(a: string, b: string, keys: set<string>)
    requires a in keys && b in keys && IsCacheable(a) && IsCacheable(b) && Ancestor(a, b)
    ensures !NeverBlocked(keys)
  {
    var s := CState(map[], Tree(map[], {}));
    var upload := Put(a, [], false, false, false);
    var calls := [upload];
    assert calls[..0] == [];
    assert CacheRun(s, calls) == CacheStep(s, upload).0;
    assert a in CacheRun(s, calls).cache.files;
    assert Blocked(CacheRun(s, calls), Head(b));
    assert Within(calls, keys) && KeysIn(Head(b)) <= keys;
  }

  /**
    Exactly the key sets that can be used together: no call on them is ever blocked, from an empty cache
    and over any primary, just when no cacheable key among them is an ancestor of another.
  */
  lemma NeverBlockedIff(keys: set<string>)
    ensures NeverBlocked(keys) <==> Independent(keys)
  {
    if Independent(keys) {
      forall m, calls, next | Within(calls, keys) && KeysIn(next) <= keys
        ensures !Blocked(CacheRun(CState(m, Tree(map[], {})), calls), next)
      {
        RunConfined(CState(m, Tree(map[], {})), calls, keys);
        ConfinedNotBlocked(CacheRun(CState(m, Tree(map[], {})), calls), next, keys);
      }
    } else {
      var a, b :| a in keys && b in keys && IsCacheable(a) && IsCacheable(b) && Ancestor(a, b);
      AncestorBlocks(a, b, keys);
    }
  }

  // ---------------------------------------------------------------------------------------------
  // What a swallowed cache fault costs.

  /** The primary got new content for a key, and the cached files stayed as they were. */
  lemma CacheLeftBehind(s: CState, t: CState, key: string, content: Bytes)
    requires Coherent(s) && TreeOk(t.cache) && t.cache.files == s.cache.files && t.primary == s.primary[key := content]
    ensures Coherent(t) <==> !(key in s.cache.files && s.cache.files[key] != content)
  {
  }

  lemma FaultLeavesFiles(s: CState, key: string, content: Bytes, exclusive: bool)
    requires TreeOk(s.cache) && Clean(key)
    requires MapStep(s.primary, Put(key, content, exclusive, false, true)).1 == Uploaded(Stored)
    ensures var t := CacheStep(s, Put(key, content, exclusive, false, true)).0;
      TreeOk(t.cache) && t.cache.files == s.cache.files && t.primary == s.primary[key := content]
  {
    PutKeepsTree(s.cache, key, content, false, Some(StorageError));
  }

  /** After an upload whose cache population failed, the cache is right exactly unless it kept another version. */
  lemma PopulationFaultCost(s: CState, key: string, content: Bytes, exclusive: bool)
    requires Coherent(s) && Clean(key)
    requires MapStep(s.primary, Put(key, content, exclusive, false, true)).1 == Uploaded(Stored)
    ensures Coherent(CacheStep(s, Put(key, content, exclusive, false, true)).0) <==>
            !(key in s.cache.files && s.cache.files[key] != content)
  {
    FaultLeavesFiles(s, key, content, exclusive);
    CacheLeftBehind(s, CacheStep(s, Put(key, content, exclusive, false, true)).0, key, content);
  }

  /** After a deletion whose eviction failed, the cache is right exactly unless the key was cached. */
  lemma EvictionFaultCost(s: CState, key: string)
    requires Coherent(s) && key in s.primary
    ensures Coherent(CacheStep(s, Delete(key, false, true)).0) <==> key !in s.cache.files
  {
  }

  /** After a bulk deletion neither side holds a listed key, and every other key is as it was. */
  lemma DeleteManyIsExact(s: CState, keys: seq<string>, key: string)
    requires Coherent(s)
    ensures var t := CacheStep(s, DeleteMany(keys, false, false)).0;
      && (key in keys ==> key !in t.primary && key !in t.cache.files)
      && (key !in keys ==>
            && (key in t.primary <==> key in s.primary) && (key in t.primary ==> t.primary[key] == s.primary[key])
            && (key in t.cache.files <==> key in s.cache.files)
            && (key in t.cache.files ==> t.cache.files[key] == s.cache.files[key]))
  {
  }
}
