/**
  Operations of the protocol that run alone: what they answer and leave behind, with and without a cache, however
  their bytes are cut into transfers, and whatever cache faults they meet. Without faults each does exactly what
  the matching call of the sequential cached store does.
*/
module SoloRuns {
  import opened Basics
  import opened CachePolicy
  import opened FileTree
  import LocalStore
  import opened Protocol
  import opened ProtocolSafety
  import opened WriteOnce
  import CacheSpec

  predicate Quiet(move: Move, faults: bool) {
    move.Advance? || move.Transfer? || move.Precheck? || (faults && move.CacheFault?)
  }

  /** Only one operation moves, and nothing fails but the cache, if `faults`. */
  predicate Solo(actions: seq<Action>, id: OpId, faults: bool) {
    forall i :: 0 <= i < |actions| ==> actions[i].Act? && actions[i].id == id && Quiet(actions[i].move, faults)
  }

  predicate Ends(s: State, actions: seq<Action>, id: OpId) {
    id in Run(s, actions).ops && Final(Run(s, actions).ops[id].pc)
  }

  /** The sequential state has the same objects. */
  predicate Agrees(s: State, c: CacheSpec.CState) {
    s.primary == c.primary && s.cache == c.cache.files
  }

  function PrimaryAfter(stored: Option<Bytes>, change: Option<Change>): Option<Bytes> {
    if change.None? then stored
    else match change.value
      case Publish(content) => Some(content)
      case Erase => None
      case _ => stored
  }

  function CacheAfter(cached: Option<Bytes>, change: Option<Change>): Option<Bytes> {
    if change.None? then cached
    else match change.value
      case Promote(content) => Some(content)
      case Evict => None
      case _ => cached
  }

  /** Nothing else than one operation and one key is different. */
  ghost predicate OnlyAt(s: State, t: State, id: OpId, key: string) {
    && t.config == s.config && id in s.ops && id in t.ops && t.ops == s.ops[id := t.ops[id]]
    && t.ops[id].request == s.ops[id].request
    && forall k :: k != key ==> Lookup(t.primary, k) == Lookup(s.primary, k) && Lookup(t.cache, k) == Lookup(s.cache, k)
  }

  lemma OnlyAtAgain(s: State, t: State, u: State, id: OpId, key: string)
    requires OnlyAt(s, t, id, key) && OnlyAt(t, u, id, key)
    ensures OnlyAt(s, u, id, key)
  {
  }

  /** One move, from what the operation sees of its key. */
  lemma OwnMove(s: State, t: State, id: OpId, move: Move, key: string)
    requires Acted(s, t, id, move)
    requires MoveOf(s, s.ops[id], move).change.Some? ==> KeyOf(s.ops[id]) == key
    ensures OnlyAt(s, t, id, key)
    ensures var m := MoveOf(s, s.ops[id], move);
      && t.ops[id] == Op(s.ops[id].request, m.pc, m.temp)
      && Lookup(t.primary, key) == PrimaryAfter(Lookup(s.primary, key), m.change)
      && Lookup(t.cache, key) == CacheAfter(Lookup(s.cache, key), m.change)
  {
  }

  lemma SoloInit(actions: seq<Action>, id: OpId, faults: bool)
    requires Solo(actions, id, faults) && actions != []
    ensures Solo(actions[..|actions| - 1], id, faults)
  {
  }

  /** Two maps that agree at one key and everywhere else. */
  lemma SameMaps(m: map<string, Bytes>, n: map<string, Bytes>)
    requires forall k :: Lookup(m, k) == Lookup(n, k)
    ensures m == n
  {
    forall k ensures k in m <==> k in n { assert Lookup(m, k) == Lookup(n, k); }
    forall k | k in m ensures m[k] == n[k] { assert Lookup(m, k) == Lookup(n, k); }
  }

  lemma SameObjects(s: State, t: State, id: OpId, key: string, primary: map<string, Bytes>, cache: map<string, Bytes>)
    requires OnlyAt(s, t, id, key)
    requires Lookup(t.primary, key) == Lookup(primary, key) && Lookup(t.cache, key) == Lookup(cache, key)
    requires forall k :: k != key ==>
               Lookup(primary, k) == Lookup(s.primary, k) && Lookup(cache, k) == Lookup(s.cache, k)
    ensures t.primary == primary && t.cache == cache
  {
    forall k ensures Lookup(t.primary, k) == Lookup(primary, k) && Lookup(t.cache, k) == Lookup(cache, k) {}
    SameMaps(t.primary, primary);
    SameMaps(t.cache, cache);
  }

  // ---------------------------------------------------------------------------------------------
  // Uploads.

  predicate DeclaredOk(config: Config, r: Request)
    requires r.Put?
  {
    r.declared.Some? ==> r.declared.value <= config.maxUpload
  }

  /** The existence check finds the key: in the cache, if it may be there, or in the primary. */
  predicate Found(config: Config, key: string, stored: Option<Bytes>, cached: Option<Bytes>) {
    stored.Some? || (Cacheable(config, key) && cached.Some?)
  }

  /** How an upload that is not disturbed ends; the first reason to refuse it decides. */
  function UploadEnd(config: Config, r: Request, stored: Option<Bytes>, cached: Option<Bytes>): Pc
    requires r.Put?
  {
    if !DeclaredOk(config, r) then Failed(TooLarge)
    else if Found(config, r.key, stored, cached) && !r.allowOverwrite then Failed(Conflict)
    else if |Concat(r.chunks)| > config.maxUpload then Failed(TooLarge)
    else if r.bodyFails then Failed(BodyError)
    else Created
  }

  /** What is stored, and what is cached, under a key. */
  datatype Sides = Sides(stored: Option<Bytes>, cached: Option<Bytes>)

  function SidesOf(s: State, key: string): Sides {
    Sides(Lookup(s.primary, key), Lookup(s.cache, key))
  }

  function SidesAfter(sides: Sides, change: Option<Change>): Sides {
    Sides(PrimaryAfter(sides.stored, change), CacheAfter(sides.cached, change))
  }

  /** Where an upload is that found `before`, and what is there now. */
  predicate PutAt(config: Config, op: Op, before: Sides, now: Sides, faults: bool)
    requires op.request.Put?
  {
    var r := op.request;
    var free := DeclaredOk(config, r) && (r.allowOverwrite || !Found(config, r.key, before.stored, before.cached));
    var body := Concat(r.chunks);
    var published := Sides(Some(body), before.cached);
    var populated := now == Sides(Some(body), Some(body)) || (faults && now == published);
    match op.pc
    case Start => now == before
    case CheckingPrimary =>
      now == before && DeclaredOk(config, r) && !(Cacheable(config, r.key) && before.cached.Some?)
    case Receiving(_, _) => now == before && free
    case Uploading(_, _) => now == before && free
    case Published(_) => now == published && free
    case Populating(_) => now == published && free
    case Clearing(_) => free && if Cacheable(config, r.key) then populated else now == published
    case Created => free && if Cacheable(config, r.key) then populated else now == published
    case Failed(why) => now == before && Failed(why) == UploadEnd(config, r, before.stored, before.cached)
    case _ => false
  }

  lemma PutReceives(config: Config, op: Op, before: Sides, faults: bool, move: Move)
    requires op.request.Put? && PutOk(config, op) && op.pc.Receiving? && Quiet(move, faults)
    requires PutAt(config, op, before, before, faults)
    ensures var m := PutMove(config, op, before.stored, before.cached, move);
      m.change.None? && PutAt(config, Op(op.request, m.pc, m.temp), before, before, faults)
  {
    var chunks, next := op.request.chunks, op.pc.next;
    if next < |chunks| {
      ConcatStep(chunks, next);
      PrefixWithin(chunks, next + 1);
    } else {
      ConcatAll(chunks);
    }
  }

  lemma PutPublishes(config: Config, op: Op, before: Sides, faults: bool, move: Move)
    requires op.request.Put? && PutOk(config, op) && op.pc.Uploading? && Quiet(move, faults)
    requires PutAt(config, op, before, before, faults)
    ensures var m := PutMove(config, op, before.stored, before.cached, move);
      PutAt(config, Op(op.request, m.pc, m.temp), before, SidesAfter(before, m.change), faults)
  {
    if |op.pc.copied| >= |op.pc.body| { assert op.pc.copied == op.pc.body; }
  }

  lemma PutPopulates(config: Config, op: Op, before: Sides, now: Sides, faults: bool, move: Move)
    requires op.request.Put? && PutOk(config, op) && op.pc.Populating? && Quiet(move, faults)
    requires PutAt(config, op, before, now, faults)
    ensures var m := PutMove(config, op, now.stored, now.cached, move);
      PutAt(config, Op(op.request, m.pc, m.temp), before, SidesAfter(now, m.change), faults)
  {
    if op.temp.Some? && |op.temp.value| == |op.pc.body| { assert op.temp.value == op.pc.body; }
  }

  lemma PutStepsOn(config: Config, op: Op, before: Sides, now: Sides, faults: bool, move: Move)
    requires op.request.Put? && PutOk(config, op) && !Final(op.pc) && Quiet(move, faults)
    requires PutAt(config, op, before, now, faults)
    ensures var m := PutMove(config, op, now.stored, now.cached, move);
      PutAt(config, Op(op.request, m.pc, m.temp), before, SidesAfter(now, m.change), faults)
  {
    match op.pc
    case Receiving(_, _) => PutReceives(config, op, before, faults, move);
    case Uploading(_, _) => PutPublishes(config, op, before, faults, move);
    case Populating(_) => PutPopulates(config, op, before, now, faults, move);
    case _ =>
  }

  /** An upload or download that has just arrived. */
  predicate Arrived(s: State, id: OpId) {
    id in s.ops && s.ops[id].pc == Start && s.ops[id].temp.None?
  }

  lemma {:induction false} UploadAlone(s: State, actions: seq<Action>, id: OpId, key: string, faults: bool)
    requires Arrived(s, id) && Writes(s.ops[id], key) && Solo(actions, id, faults)
    ensures var t := Run(s, actions);
      && OnlyAt(s, t, id, key) && PutOk(t.config, t.ops[id])
      && PutAt(t.config, t.ops[id], SidesOf(s, key), SidesOf(t, key), faults)
  {
    if actions != [] {
      var t, a := Run(s, actions[..|actions| - 1]), actions[|actions| - 1];
      SoloInit(actions, id, faults);
      UploadAlone(s, actions[..|actions| - 1], id, key, faults);
      if !Final(t.ops[id].pc) {
        PutMoveOk(t.config, t.ops[id], Lookup(t.primary, key), Lookup(t.cache, key), a.move);
        PutStepsOn(t.config, t.ops[id], SidesOf(s, key), SidesOf(t, key), faults, a.move);
        OwnMove(t, Step(t, a), id, a.move, key);
        OnlyAtAgain(s, t, Step(t, a), id, key);
      }
    }
  }

  /**
    What an upload answers that runs alone to its end, with or without a cache, and what it leaves behind: the
    primary has the whole body exactly after a 201, and cache faults change neither the answer nor the primary.
  */
  lemma UploadAnswer(s: State, actions: seq<Action>, id: OpId, key: string, faults: bool)
    requires Arrived(s, id) && Writes(s.ops[id], key) && Solo(actions, id, faults) && Ends(s, actions, id)
    ensures var t, r := Run(s, actions), s.ops[id].request;
      var end := UploadEnd(s.config, r, Lookup(s.primary, key), Lookup(s.cache, key));
      && t.ops[id].pc == end
      && t.primary == (if end.Created? then s.primary[key := Concat(r.chunks)] else s.primary)
      && (t.cache == s.cache ||
          (end.Created? && Cacheable(s.config, key) && t.cache == s.cache[key := Concat(r.chunks)]))
      && (!faults && end.Created? && Cacheable(s.config, key) ==> t.cache == s.cache[key := Concat(r.chunks)])
  {
    UploadAlone(s, actions, id, key, faults);
    var t, body := Run(s, actions), Concat(s.ops[id].request.chunks);
    var primary := if t.ops[id].pc.Created? then s.primary[key := body] else s.primary;
    var cache := if Lookup(t.cache, key) == Lookup(s.cache, key) then s.cache else s.cache[key := body];
    SameObjects(s, t, id, key, primary, cache);
    if Lookup(s.cache, key) == Some(body) { assert s.cache[key := body] == s.cache; }
  }

  /** Nothing in the cache directory is in the way of a file for the key. */
  predicate HasRoom(t: Tree, key: string) {
    SysReturn(t, MakeDirs(key)) == Done && key !in t.dirs
  }

  function UploadCall(r: Request): CacheSpec.Call
    requires r.Put?
  {
    CacheSpec.Call.Put(r.key, Concat(r.chunks), !r.allowOverwrite, false, false)
  }

  lemma UploadCallDoes(c: CacheSpec.CState, r: Request)
    requires r.Put? && TreeOk(c.cache) && (IsCacheable(r.key) ==> HasRoom(c.cache, r.key))
    ensures var (after, answer) := CacheSpec.CacheStep(c, UploadCall(r));
      if !r.allowOverwrite && r.key in c.primary
      then after == c && answer == CacheSpec.Uploaded(LocalStore.Conflict)
      else
        && answer == CacheSpec.Uploaded(LocalStore.Stored)
        && after.primary == c.primary[r.key := Concat(r.chunks)]
        && after.cache.files == if IsCacheable(r.key) then c.cache.files[r.key := Concat(r.chunks)] else c.cache.files
  {
  }

  /** An upload that does not fail by itself: its body arrives and is within the limit. */
  predicate GoodUpload(config: Config, r: Request) {
    r.Put? && !r.bodyFails && |Concat(r.chunks)| <= config.maxUpload && DeclaredOk(config, r)
  }

  /** An upload that runs alone to its end is one put of the sequential cached store. */
  lemma UploadIsOneCall(s: State, c: CacheSpec.CState, actions: seq<Action>, id: OpId)
    requires Arrived(s, id) && GoodUpload(s.config, s.ops[id].request) && Solo(actions, id, false)
    requires s.config.caching && Agrees(s, c) && CacheSpec.Coherent(c)
    requires var key := s.ops[id].request.key; IsCacheable(key) ==> HasRoom(c.cache, key)
    requires Ends(s, actions, id)
    ensures var t := Run(s, actions);
      var (after, answer) := CacheSpec.CacheStep(c, UploadCall(s.ops[id].request));
      && Agrees(t, after)
      && (if answer == CacheSpec.Uploaded(LocalStore.Stored) then t.ops[id].pc == Created
          else answer == CacheSpec.Uploaded(LocalStore.Conflict) && t.ops[id].pc == Failed(Conflict))
  {
    var r := s.ops[id].request;
    UploadAnswer(s, actions, id, r.key, false);
    UploadCallDoes(c, r);
  }

  // ---------------------------------------------------------------------------------------------
  // Downloads.

  /** What a download reads: the cached object of a cacheable key, else the primary's. */
  function Source(config: Config, key: string, stored: Option<Bytes>, cached: Option<Bytes>): Option<Bytes> {
    if Cacheable(config, key) && cached.Some? then cached else stored
  }

  /** Where a download is that found `before`, and what is cached now. */
  predicate GetAt(config: Config, op: Op, before: Sides, cached: Option<Bytes>, faults: bool)
    requires op.request.Get?
  {
    var cacheable := Cacheable(config, op.request.key);
    var hit := cacheable && before.cached.Some?;
    var source := Source(config, op.request.key, before.stored, before.cached);
    match op.pc
    case Start => cached == before.cached
    case CheckingPrimary => cached == before.cached && !hit
    case Headed(size) => cached == before.cached && source.Some? && size == |source.value|
    case Routed(size, fromCache) =>
      cached == before.cached && source.Some? && size == |source.value| && fromCache == hit
    case Streaming(size, fromCache, snapshot, sent) =>
      && cached == before.cached && source == Some(snapshot) && size == |snapshot| && fromCache == hit
      && (op.temp == (if cacheable && !hit then Some(sent) else None) || (faults && op.temp.None?))
    case Served(size, sent) =>
      && source == Some(sent) && size == |sent|
      && (cached == (if cacheable && !hit then before.stored else before.cached) || (faults && cached == before.cached))
    case Failed(why) => cached == before.cached && source.None? && why == NotFound
    case _ => false
  }

  lemma GetStepsOn(config: Config, op: Op, before: Sides, cached: Option<Bytes>, faults: bool, move: Move)
    requires op.request.Get? && GetOk(config, op) && !Final(op.pc) && Quiet(move, faults)
    requires GetAt(config, op, before, cached, faults)
    ensures var m := GetMove(config, op, before.stored, cached, move);
      && GetAt(config, Op(op.request, m.pc, m.temp), before, CacheAfter(cached, m.change), faults)
      && PrimaryAfter(before.stored, m.change) == before.stored
  {
    if op.pc.Streaming? && |op.pc.sent| == |op.pc.snapshot| { assert op.pc.sent == op.pc.snapshot; }
  }

  lemma {:induction false} DownloadAlone(s: State, actions: seq<Action>, id: OpId, key: string, faults: bool)
    requires Arrived(s, id) && s.ops[id].request == Get(key) && Solo(actions, id, faults)
    ensures var t := Run(s, actions);
      && OnlyAt(s, t, id, key) && GetOk(t.config, t.ops[id]) && Lookup(t.primary, key) == Lookup(s.primary, key)
      && GetAt(t.config, t.ops[id], SidesOf(s, key), Lookup(t.cache, key), faults)
  {
    if actions != [] {
      var t, a := Run(s, actions[..|actions| - 1]), actions[|actions| - 1];
      SoloInit(actions, id, faults);
      DownloadAlone(s, actions[..|actions| - 1], id, key, faults);
      if !Final(t.ops[id].pc) {
        var stored, cached := Lookup(t.primary, key), Lookup(t.cache, key);
        GetMoveOk(t.config, t.ops[id], stored, cached, a.move);
        GetStepsOn(t.config, t.ops[id], SidesOf(s, key), cached, faults, a.move);
        OwnMove(t, Step(t, a), id, a.move, key);
        OnlyAtAgain(s, t, Step(t, a), id, key);
      }
    }
  }

  /**
    What a download answers that runs alone to its end, with or without a cache: the whole cached or stored
    object with its own length, or not found. Cache faults change nothing but what is cached afterwards.
  */
  lemma DownloadAnswer(s: State, actions: seq<Action>, id: OpId, key: string, faults: bool)
    requires Arrived(s, id) && s.ops[id].request == Get(key) && Solo(actions, id, faults) && Ends(s, actions, id)
    ensures var t := Run(s, actions);
      var hit := Cacheable(s.config, key) && key in s.cache;
      && t.ops[id].pc == (if hit then Served(|s.cache[key]|, s.cache[key])
                          else if key in s.primary then Served(|s.primary[key]|, s.primary[key])
                          else Failed(NotFound))
      && t.primary == s.primary
      && (!faults ==> t.cache == (if Cacheable(s.config, key) && !hit && key in s.primary
                                  then s.cache[key := s.primary[key]] else s.cache))
  {
    DownloadAlone(s, actions, id, key, faults);
    var t := Run(s, actions);
    SameObjects(s, t, id, key, s.primary, t.cache);
    var fills := Cacheable(s.config, key) && key !in s.cache && key in s.primary;
    if !faults {
      SameObjects(s, t, id, key, s.primary, if fills then s.cache[key := s.primary[key]] else s.cache);
    }
  }

  function ReadCall(key: string): CacheSpec.Call {
    CacheSpec.Call.Get(key, None)
  }

  lemma ReadCallDoes(c: CacheSpec.CState, key: string)
    requires CacheSpec.Coherent(c) && !CacheSpec.Blocked(c, ReadCall(key))
    ensures var (after, answer) := CacheSpec.CacheStep(c, ReadCall(key));
      && after.primary == c.primary
      && after.cache.files ==
           (if IsCacheable(key) && key !in c.cache.files && key in c.primary
            then c.cache.files[key := c.primary[key]] else c.cache.files)
      && answer ==
           (if IsCacheable(key) && key in c.cache.files
            then CacheSpec.Content(c.cache.files[key], CacheSpec.Finished)
            else if key in c.primary then CacheSpec.Content(c.primary[key], CacheSpec.Finished)
            else CacheSpec.Absent)
  {
  }

  /** A download that runs alone to its end is one read of the sequential cached store, drained. */
  lemma DownloadIsOneCall(s: State, c: CacheSpec.CState, actions: seq<Action>, id: OpId, key: string)
    requires Arrived(s, id) && s.ops[id].request == Get(key) && Solo(actions, id, false)
    requires s.config.caching && Agrees(s, c) && CacheSpec.Coherent(c) && !CacheSpec.Blocked(c, ReadCall(key))
    requires Ends(s, actions, id)
    ensures var t := Run(s, actions);
      var (after, answer) := CacheSpec.CacheStep(c, ReadCall(key));
      && Agrees(t, after)
      && (if answer.Content? then t.ops[id].pc == Served(|answer.bytes|, answer.bytes) && answer.end.Finished?
          else answer == CacheSpec.Absent && t.ops[id].pc == Failed(NotFound))
  {
    DownloadAnswer(s, actions, id, key, false);
    ReadCallDoes(c, key);
  }

  // ---------------------------------------------------------------------------------------------
  // Deletions.

  /** Where the deletion of one key is. */
  predicate DeleteAt(config: Config, op: Op, before: Sides, now: Sides, faults: bool) {
    var erased := before.stored.Some? && now.stored.None?;
    var evicted := now.cached.None? || (faults && now.cached == before.cached);
    match op.pc
    case DeletingPrimary(i) =>
      (i == 0 && now == before) || (i == 1 && erased && now.cached == before.cached)
    case DeletingCache(i) =>
      config.caching && erased && ((i == 0 && now.cached == before.cached) || (i == 1 && evicted))
    case Deleted => erased && if config.caching then evicted else now.cached == before.cached
    case Failed(why) => why == NotFound && before.stored.None? && now == before
    case _ => false
  }

  lemma DeleteStepsOn(config: Config, op: Op, key: string, before: Sides, now: Sides, faults: bool, move: Move)
    requires op.request == Delete([key], true) && !Final(op.pc) && Quiet(move, faults)
    requires DeleteAt(config, op, before, now, faults)
    ensures var m := DeleteMove(config, op, now.stored, move);
      && DeleteAt(config, Op(op.request, m.pc, m.temp), before, SidesAfter(now, m.change), faults)
      && (m.change.Some? ==> KeyOf(op) == key)
  {
  }

  lemma {:induction false} DeletionAlone(s: State, actions: seq<Action>, id: OpId, key: string, faults: bool)
    requires id in s.ops && s.ops[id] == Op(Delete([key], true), DeletingPrimary(0), None)
    requires Solo(actions, id, faults)
    ensures var t := Run(s, actions);
      OnlyAt(s, t, id, key) && DeleteAt(s.config, t.ops[id], SidesOf(s, key), SidesOf(t, key), faults)
  {
    if actions != [] {
      var t, a := Run(s, actions[..|actions| - 1]), actions[|actions| - 1];
      SoloInit(actions, id, faults);
      DeletionAlone(s, actions[..|actions| - 1], id, key, faults);
      var op := t.ops[id];
      if !Final(op.pc) {
        DeleteStepsOn(t.config, op, key, SidesOf(s, key), SidesOf(t, key), faults, a.move);
        SeenByDeletion(t, op, key, faults, a.move);
        OwnMove(t, Step(t, a), id, a.move, key);
        OnlyAtAgain(s, t, Step(t, a), id, key);
      }
    }
  }

  /** Past its key, a deletion looks at nothing. */
  lemma SeenByDeletion(s: State, op: Op, key: string, faults: bool, move: Move)
    requires op.request == Delete([key], true) && Quiet(move, faults)
    requires op.pc.DeletingPrimary? || op.pc.DeletingCache?
    ensures MoveOf(s, op, move) == DeleteMove(s.config, op, Lookup(s.primary, key), move)
  {
  }

  /**
    What the deletion of one key answers that runs alone to its end, with or without a cache: a stored object is
    gone, and nothing else of the primary; a missing one is not found, and then nothing changed at all.
  */
  lemma DeletionAnswer(s: State, actions: seq<Action>, id: OpId, key: string, faults: bool)
    requires id in s.ops && s.ops[id] == Op(Delete([key], true), DeletingPrimary(0), None)
    requires Solo(actions, id, faults) && Ends(s, actions, id)
    ensures var t := Run(s, actions);
      && t.ops[id].pc == (if key in s.primary then Deleted else Failed(NotFound))
      && t.primary == s.primary - {key}
      && (key !in s.primary || !s.config.caching ==> t.cache == s.cache)
      && (key in s.primary && s.config.caching && !faults ==> t.cache == s.cache - {key})
      && (t.cache == s.cache || t.cache == s.cache - {key})
  {
    DeletionAlone(s, actions, id, key, faults);
    var t := Run(s, actions);
    var cache := if Lookup(t.cache, key) == Lookup(s.cache, key) then s.cache else s.cache - {key};
    SameObjects(s, t, id, key, s.primary - {key}, cache);
    if key !in s.cache { assert s.cache - {key} == s.cache; }
  }

  function RemoveCall(key: string): CacheSpec.Call {
    CacheSpec.Call.Delete(key, false, false)
  }

  /** A deletion that runs alone to its end is one deletion of the sequential cached store. */
  lemma DeletionIsOneCall(s: State, c: CacheSpec.CState, actions: seq<Action>, id: OpId, key: string)
    requires id in s.ops && s.ops[id] == Op(Delete([key], true), DeletingPrimary(0), None)
    requires Solo(actions, id, false) && s.config.caching && Agrees(s, c) && Ends(s, actions, id)
    ensures var t := Run(s, actions);
      var (after, answer) := CacheSpec.CacheStep(c, RemoveCall(key));
      && Agrees(t, after)
      && (if answer == CacheSpec.Removed(LocalStore.Deleted) then t.ops[id].pc == Deleted
          else answer == CacheSpec.Removed(LocalStore.NotFound) && t.ops[id].pc == Failed(NotFound))
  {
    DeletionAnswer(s, actions, id, key, false);
    if key !in s.primary { assert s.primary - {key} == s.primary; }
  }

  /** Where the deletion of a list is: the keys before its index are gone, first here and then in the cache. */
  ghost predicate ListAt(s: State, t: State, id: OpId, keys: seq<string>) {
    && t.config == s.config && id in t.ops && t.ops[id].request == Delete(keys, false)
    && t.ops == s.ops[id := t.ops[id]]
    && match t.ops[id].pc
       case DeletingPrimary(i) => i <= |keys| && t.primary == s.primary - Elements(keys[..i]) && t.cache == s.cache
       case DeletingCache(i) =>
         && i <= |keys| && s.config.caching
         && t.primary == s.primary - Elements(keys) && t.cache == s.cache - Elements(keys[..i])
       case Deleted =>
         && t.primary == s.primary - Elements(keys)
         && t.cache == s.cache - if s.config.caching then Elements(keys) else {}
       case _ => false
  }

  /** One key more. */
  lemma TakenMore(m: map<string, Bytes>, keys: seq<string>, i: nat)
    requires i < |keys|
    ensures m - Elements(keys[..i + 1]) == (m - Elements(keys[..i])) - {keys[i]}
    ensures keys[i] !in m ==> m - Elements(keys[..i + 1]) == m - Elements(keys[..i])
  {
    assert keys[..i + 1] == keys[..i] + [keys[i]];
    assert Elements(keys[..i + 1]) == Elements(keys[..i]) + {keys[i]};
  }

  lemma ListErases(s: State, t: State, id: OpId, keys: seq<string>, move: Move)
    requires id in s.ops && ListAt(s, t, id, keys) && t.ops[id].pc.DeletingPrimary? && Quiet(move, false)
    ensures ListAt(s, Step(t, Act(id, move)), id, keys)
  {
    var i := t.ops[id].pc.index;
    if i < |keys| {
      TakenMore(s.primary, keys, i);
    } else {
      assert keys[..i] == keys;
      assert Elements(keys[..0]) == {} && s.cache - {} == s.cache;
    }
  }

  lemma ListEvicts(s: State, t: State, id: OpId, keys: seq<string>, move: Move)
    requires id in s.ops && ListAt(s, t, id, keys) && t.ops[id].pc.DeletingCache? && Quiet(move, false)
    ensures ListAt(s, Step(t, Act(id, move)), id, keys)
  {
    var i := t.ops[id].pc.index;
    if i < |keys| {
      TakenMore(s.cache, keys, i);
    } else {
      assert keys[..i] == keys;
    }
  }

  lemma {:induction false} ListAlone(s: State, actions: seq<Action>, id: OpId, keys: seq<string>)
    requires id in s.ops && s.ops[id] == Op(Delete(keys, false), DeletingPrimary(0), None)
    requires Solo(actions, id, false)
    ensures ListAt(s, Run(s, actions), id, keys)
  {
    if actions == [] {
      assert Elements(keys[..0]) == {};
    } else {
      SoloInit(actions, id, false);
      ListAlone(s, actions[..|actions| - 1], id, keys);
      var t, a := Run(s, actions[..|actions| - 1]), actions[|actions| - 1];
      match t.ops[id].pc
      case DeletingPrimary(_) => ListErases(s, t, id, keys, a.move);
      case DeletingCache(_) => ListEvicts(s, t, id, keys, a.move);
      case _ =>
    }
  }

  /**
    The deletion of a list that runs alone to its end, with or without a cache: every listed object is gone from the
    primary, and from the cache if there is one, and everything else is as it was.
  */
  lemma BulkDeletionAnswer(s: State, actions: seq<Action>, id: OpId, keys: seq<string>)
    requires id in s.ops && s.ops[id] == Op(Delete(keys, false), DeletingPrimary(0), None)
    requires Solo(actions, id, false) && Ends(s, actions, id)
    ensures var t := Run(s, actions);
      && t.ops[id].pc == Deleted && t.primary == s.primary - (set key | key in keys)
      && t.cache == (if s.config.caching then s.cache - (set key | key in keys) else s.cache)
  {
    ListAlone(s, actions, id, keys);
    assert s.cache - {} == s.cache;
  }

  /** A deletion of a list that runs alone to its end is one bulk deletion of the sequential cached store. */
  lemma BulkDeletionIsOneCall(s: State, c: CacheSpec.CState, actions: seq<Action>, id: OpId, keys: seq<string>)
    requires id in s.ops && s.ops[id] == Op(Delete(keys, false), DeletingPrimary(0), None)
    requires Solo(actions, id, false) && s.config.caching && Agrees(s, c) && Ends(s, actions, id)
    ensures var t := Run(s, actions);
      var (after, answer) := CacheSpec.CacheStep(c, CacheSpec.Call.DeleteMany(keys, false, false));
      Agrees(t, after) && answer == CacheSpec.Removed(LocalStore.Deleted) && t.ops[id].pc == Deleted
  {
    BulkDeletionAnswer(s, actions, id, keys);
  }

  // ---------------------------------------------------------------------------------------------
  // Every operation can finish alone, at any moment.

  /** How many moves an operation needs at most. */
  function Rank(op: Op): nat {
    if Final(op.pc) then 0
    else match op.request
      case Put(_, chunks, _, _, _) => PutRank(op.pc, op.temp, |chunks|)
      case Get(_) => GetRank(op.pc)
      case Delete(keys, _) => DeleteRank(op.pc, |keys|)
  }

  function PutRank(pc: Pc, temp: Option<Bytes>, chunks: nat): nat {
    match pc
    case Start => chunks + 11
    case CheckingPrimary => chunks + 10
    case Receiving(_, next) => 9 + if next <= chunks then chunks - next else 0
    case Uploading(body, copied) => if |copied| < |body| then 8 else 7
    case Published(_) => 6
    case Populating(body) => if temp.None? then 5 else if |temp.value| < |body| then 4 else 3
    case _ => 2
  }

  function GetRank(pc: Pc): nat {
    match pc
    case Start => 6
    case CheckingPrimary => 5
    case Headed(_) => 4
    case Routed(_, _) => 3
    case Streaming(_, _, snapshot, sent) => if |sent| < |snapshot| then 2 else 1
    case _ => 1
  }

  function DeleteRank(pc: Pc, keys: nat): nat {
    match pc
    case DeletingPrimary(i) => keys + 3 + if i <= keys then keys - i else 0
    case DeletingCache(i) => 1 + if i <= keys then keys - i else 0
    case _ => 1
  }

  /** The move that brings an operation on: what is missing of a copy, or the next step. */
  function NextMove(op: Op): Move {
    match op.pc
    case Uploading(body, copied) => if |copied| < |body| then Transfer(|body|) else Advance
    case Populating(body) => if op.temp.Some? && |op.temp.value| < |body| then Transfer(|body|) else Advance
    case Streaming(_, _, snapshot, sent) => if |sent| < |snapshot| then Transfer(|snapshot|) else Advance
    case _ => Advance
  }

  lemma PutComesOn(config: Config, op: Op, stored: Option<Bytes>, cached: Option<Bytes>)
    requires op.request.Put? && PutOk(config, op) && !Final(op.pc)
    ensures var m := PutMove(config, op, stored, cached, NextMove(op)); Rank(Op(op.request, m.pc, m.temp)) < Rank(op)
  {
  }

  lemma GetComesOn(config: Config, op: Op, stored: Option<Bytes>, cached: Option<Bytes>)
    requires op.request.Get? && GetOk(config, op) && !Final(op.pc)
    ensures var m := GetMove(config, op, stored, cached, NextMove(op)); Rank(Op(op.request, m.pc, m.temp)) < Rank(op)
  {
  }

  lemma DeleteComesOn(config: Config, op: Op, stored: Option<Bytes>)
    requires op.request.Delete? && DeleteOk(op) && !Final(op.pc)
    ensures var m := DeleteMove(config, op, stored, NextMove(op)); Rank(Op(op.request, m.pc, m.temp)) < Rank(op)
  {
  }

  lemma ComesOn(s: State, id: OpId)
    requires id in s.ops && OpOk(s.config, s.ops[id]) && !Final(s.ops[id].pc)
    ensures var t := Step(s, Act(id, NextMove(s.ops[id])));
      id in t.ops && OpOk(t.config, t.ops[id]) && Rank(t.ops[id]) < Rank(s.ops[id])
  {
    var op := s.ops[id];
    MoveOk(s, id, NextMove(op));
    match op.request
    case Put(_, _, _, _, _) => PutComesOn(s.config, op, Lookup(s.primary, KeyOf(op)), Lookup(s.cache, KeyOf(op)));
    case Get(_) => GetComesOn(s.config, op, Lookup(s.primary, KeyOf(op)), Lookup(s.cache, KeyOf(op)));
    case Delete(_, _) => DeleteComesOn(s.config, op, Lookup(s.primary, KeyOf(op)));
  }

  lemma RunFirst(s: State, a: Action, rest: seq<Action>)
    ensures Run(s, [a] + rest) == Run(Step(s, a), rest)
  {
    RunSplit(s, [a], rest);
    assert [a][..0] == [];
    assert Run(s, [a]) == Step(s, a);
  }

  /** No operation waits for another: whatever the others are doing, it can finish alone and without faults. */
  lemma {:induction false} CanFinish(s: State, id: OpId) returns (actions: seq<Action>)
    requires id in s.ops && OpOk(s.config, s.ops[id])
    ensures Solo(actions, id, false) && Ends(s, actions, id)
    decreases Rank(s.ops[id])
  {
    actions := [];
    if !Final(s.ops[id].pc) {
      var a := Act(id, NextMove(s.ops[id]));
      ComesOn(s, id);
      var rest := CanFinish(Step(s, a), id);
      RunFirst(s, a, rest);
      actions := [a] + rest;
    }
  }

  /** In every run, at every moment. */
  lemma EveryOperationCanFinish(s: State, actions: seq<Action>, id: OpId) returns (more: seq<Action>)
    requires Init(s) && id in Run(s, actions).ops
    ensures Solo(more, id, false) && Ends(Run(s, actions), more, id)
  {
    RunKeeps(s, actions);
    more := CanFinish(Run(s, actions), id);
  }
}
