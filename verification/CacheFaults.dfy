/**
  What swallowed cache faults cost over a whole run: exactly which keys the cache then serves stale
  (packvault/storage/cached.py).
*/
module CacheFaults {
  import opened Basics
  import opened CachePolicy
  import opened FileTree
  import opened LocalStore
  import opened CacheSpec

  /** What every run keeps, faults included: the cache is a tree, and holds only cacheable keys. */
  ghost predicate CacheOk(s: CState) {
    TreeOk(s.cache) && forall key :: key in s.cache.files ==> IsCacheable(key)
  }

  /** The cache would serve something else than the primary stores. */
  predicate Stale(s: CState, key: string) {
    key in s.cache.files && !(key in s.primary && s.primary[key] == s.cache.files[key])
  }

  /** The call changes the primary's object, and the cache does not follow because of a fault. */
  predicate Missed(s: CState, call: Call, key: string) {
    Touches(s, call, key) && !NoCacheFault(call)
  }

  /** The call changes the primary's object, and the cache follows. */
  predicate Followed(s: CState, call: Call, key: string) {
    Touches(s, call, key) && NoCacheFault(call)
  }

  predicate Touches(s: CState, call: Call, key: string) {
    match call
    case Put(k, _, _, _, _) => k == key && MapStep(s.primary, call).1 == Uploaded(Stored)
    case Delete(k, _, _) => k == key && MapStep(s.primary, call).1 == Removed(Deleted)
    case DeleteMany(keys, fails, _) => key in keys && !fails
    case _ => false
  }

  lemma StepCacheOk(s: CState, call: Call)
    requires CacheOk(s) && WellFormed(call)
    ensures CacheOk(CacheStep(s, call).0)
  {
    match call
    case Get(key, take) =>
      CallKeepsTree(s.cache, MakeDirs(key));
      var made := Effect(s.cache, MakeDirs(key));
      if key in s.primary && key !in made.dirs { CallKeepsTree(made, Replace(key, s.primary[key])); }
    case Put(key, content, _, _, cacheFault) =>
      PutKeepsTree(s.cache, key, content, false, if cacheFault then Some(StorageError) else None);
    case _ =>
  }

  lemma {:induction false} RunCacheOk(s: CState, calls: seq<Call>)
    requires CacheOk(s) && forall i :: 0 <= i < |calls| ==> WellFormed(calls[i])
    ensures CacheOk(CacheRun(s, calls))
  {
    if calls != [] {
      RunCacheOk(s, calls[..|calls| - 1]);
      StepCacheOk(CacheRun(s, calls[..|calls| - 1]), calls[|calls| - 1]);
    }
  }

  /** A cached key can be cached again: nothing in the cache is in its way. */
  lemma CachedHasRoom(t: Tree, key: string)
    requires TreeOk(t) && key in t.files
    ensures SysReturn(t, MakeDirs(key)) == Done && key !in t.dirs
  {
    assert Exists(t, key);
  }

  lemma GetKeepsCached(s: CState, key: string, take: Option<nat>, cached: string)
    requires CacheOk(s) && cached in s.cache.files
    ensures var t := CacheStep(s, Get(key, take)).0;
      cached in t.cache.files && t.cache.files[cached] == s.cache.files[cached]
  {
    if key == cached { CachedHasRoom(s.cache, key); }
  }

  lemma PutKeepsCached(s: CState, call: Call, cached: string)
    requires CacheOk(s) && cached in s.cache.files && call.Put? && !Followed(s, call, cached)
    ensures var t := CacheStep(s, call).0;
      cached in t.cache.files && t.cache.files[cached] == s.cache.files[cached]
  {
  }

  /** A cached file stays as it is unless a call on its key reaches the cache. */
  lemma CachedStays(s: CState, call: Call, key: string)
    requires CacheOk(s) && key in s.cache.files && !Followed(s, call, key)
    ensures var t := CacheStep(s, call).0; key in t.cache.files && t.cache.files[key] == s.cache.files[key]
  {
    match call
    case Get(k, take) => GetKeepsCached(s, k, take, key);
    case Put(_, _, _, _, _) => PutKeepsCached(s, call, key);
    case _ =>
  }

  /** The primary's object of a key changes only by a call on it. */
  lemma PrimaryStays(s: CState, call: Call, key: string)
    requires !Touches(s, call, key)
    ensures var t := CacheStep(s, call).0;
      (key in t.primary <==> key in s.primary) && (key in t.primary ==> t.primary[key] == s.primary[key])
  {
  }

  /** A call that reaches the cache makes its key agree. */
  lemma FollowedAgrees(s: CState, call: Call, key: string)
    requires CacheOk(s) && Followed(s, call, key) && key in s.cache.files
    ensures !Stale(CacheStep(s, call).0, key)
  {
    CachedHasRoom(s.cache, key);
  }

  /** A key that was not cached is not stale after any call. */
  lemma NewlyCachedAgrees(s: CState, call: Call, key: string)
    requires CacheOk(s) && key !in s.cache.files
    ensures !Stale(CacheStep(s, call).0, key)
  {
  }

  /** One call: a cached key is stale afterwards if it was stale or is missed by the call, unless the contents agree. */
  lemma StaleStep(s: CState, call: Call, key: string)
    requires CacheOk(s)
    ensures var t := CacheStep(s, call).0;
      Stale(t, key) <==>
        && key in s.cache.files && !Followed(s, call, key) && (Stale(s, key) || Missed(s, call, key))
        && !(key in t.primary && t.primary[key] == s.cache.files[key])
  {
    if key !in s.cache.files {
      NewlyCachedAgrees(s, call, key);
    } else if Followed(s, call, key) {
      FollowedAgrees(s, call, key);
    } else {
      CachedStays(s, call, key);
      if !Touches(s, call, key) { PrimaryStays(s, call, key); }
    }
  }

  /** No call from number `i` on reaches the cache at the key. */
  ghost predicate Unrepaired(s: CState, calls: seq<Call>, i: nat, key: string) {
    forall j :: i <= j < |calls| ==> !Followed(CacheRun(s, calls[..j]), calls[j], key)
  }

  /** Call number `i` missed the key while it was cached, nothing repaired it, and the primary differs now. */
  ghost predicate LeftStale(s: CState, calls: seq<Call>, i: nat, key: string)
    requires i < |calls|
  {
    var before, now := CacheRun(s, calls[..i]), CacheRun(s, calls).primary;
    && Missed(before, calls[i], key) && key in before.cache.files && Unrepaired(s, calls, i, key)
    && !(key in now && now[key] == before.cache.files[key])
  }

  lemma UnrepairedLess(s: CState, calls: seq<Call>, i: nat, key: string)
    requires calls != [] && Unrepaired(s, calls, i, key)
    ensures Unrepaired(s, calls[..|calls| - 1], i, key)
  {
    var init := calls[..|calls| - 1];
    forall j | i <= j < |init| ensures !Followed(CacheRun(s, init[..j]), init[j], key) {
      assert init[..j] == calls[..j];
    }
  }

  lemma {:induction false} UnrepairedStays(s: CState, calls: seq<Call>, i: nat, key: string)
    requires CacheOk(s) && (forall k :: 0 <= k < |calls| ==> WellFormed(calls[k])) && i <= |calls|
    requires key in CacheRun(s, calls[..i]).cache.files && Unrepaired(s, calls, i, key)
    ensures var t := CacheRun(s, calls);
      key in t.cache.files && t.cache.files[key] == CacheRun(s, calls[..i]).cache.files[key]
  {
    if i == |calls| {
      assert calls[..i] == calls;
    } else {
      var init := calls[..|calls| - 1];
      assert init[..i] == calls[..i];
      UnrepairedLess(s, calls, i, key);
      UnrepairedStays(s, init, i, key);
      RunCacheOk(s, init);
      CachedStays(CacheRun(s, init), calls[|calls| - 1], key);
    }
  }

  lemma UnrepairedMore(s: CState, calls: seq<Call>, i: nat, key: string)
    requires calls != [] && i < |calls| && !Followed(CacheRun(s, calls[..|calls| - 1]), calls[|calls| - 1], key)
    requires Unrepaired(s, calls[..|calls| - 1], i, key)
    ensures Unrepaired(s, calls, i, key)
  {
    var init := calls[..|calls| - 1];
    forall j | i <= j < |calls| ensures !Followed(CacheRun(s, calls[..j]), calls[j], key) {
      if j < |init| { assert init[..j] == calls[..j]; }
    }
  }

  /** A key that is stale after a call was cached before it, and was stale or missed. */
  lemma StaleBefore(s: CState, call: Call, key: string)
    requires CacheOk(s) && Stale(CacheStep(s, call).0, key)
    ensures key in s.cache.files && !Followed(s, call, key) && (Stale(s, key) || Missed(s, call, key))
  {
    StaleStep(s, call, key);
  }

  /** A stale key was missed by a call that nothing has repaired since. */
  lemma {:induction false} StaleWasMissed(s: CState, calls: seq<Call>, key: string) returns (i: nat)
    requires CacheOk(s) && (forall k :: 0 <= k < |calls| ==> WellFormed(calls[k])) && !Stale(s, key)
    requires Stale(CacheRun(s, calls), key)
    ensures i < |calls| && Missed(CacheRun(s, calls[..i]), calls[i], key)
    ensures key in CacheRun(s, calls[..i]).cache.files && Unrepaired(s, calls, i, key)
  {
    var init, last := calls[..|calls| - 1], calls[|calls| - 1];
    var before := CacheRun(s, init);
    RunCacheOk(s, init);
    StaleBefore(before, last, key);
    if Missed(before, last, key) {
      i := |init|;
    } else {
      i := StaleWasMissed(s, init, key);
      assert init[..i] == calls[..i];
    }
    UnrepairedMore(s, calls, i, key);
  }

  /**
    Exactly which keys are stale after any calls with any swallowed faults: those that were cached when a call
    missed them, that no later call on them reached in the cache, and whose object differs from the cached one.
  */
  lemma StaleIff(s: CState, calls: seq<Call>, key: string)
    requires CacheOk(s) && (forall k :: 0 <= k < |calls| ==> WellFormed(calls[k])) && !Stale(s, key)
    ensures Stale(CacheRun(s, calls), key) <==> exists i :: 0 <= i < |calls| && LeftStale(s, calls, i, key)
  {
    if Stale(CacheRun(s, calls), key) {
      var i := StaleWasMissed(s, calls, key);
      UnrepairedStays(s, calls, i, key);
      assert LeftStale(s, calls, i, key);
    }
    if i :| 0 <= i < |calls| && LeftStale(s, calls, i, key) {
      UnrepairedStays(s, calls, i, key);
    }
  }
}
