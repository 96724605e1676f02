/** The read-through cache as an object over its two stores (packvault/storage/cached.py). */
module CachedStore {
  import opened Basics
  import opened CachePolicy
  import opened FileTree
  import opened LocalStore
  import opened S3Store
  import opened CacheSpec

  /** How a stream that fills the cache ends. */
  datatype End =
    | Ended(end: StreamEnd) // for a reader that got the source's chunks
    | SourceRaised          // the source raised, after the chunks it had yielded
    | GiveUpRaised          // giving up the temp file raised, before the chunk that could not be written
    | NeverStarted          // making the directories raised

  /**
    Faults of the temp file of a stream: whether it can be opened, the chunk whose write fails, and whether
    it can be closed, removed after a failed write, and moved into place.
  */
  datatype TempFaults = TempFaults(opens: bool, failAt: Option<nat>, closes: bool, unlinks: bool, places: bool)

  const NO_FAULTS: TempFaults := TempFaults(true, None, true, true, true)

  /** What a call on the cached store gives back to a reader. */
  datatype Reading = Reading(chunks: seq<Bytes>, end: StreamEnd) | NoSuchKey | CacheUnavailable

  /** The chunks that a reader has got: all of them, or the first `take`. */
  function Taken(chunks: seq<Bytes>, take: Option<nat>): seq<Bytes> {
    if take.None? || take.value >= |chunks| then chunks else chunks[..take.value]
  }

  lemma TakenIsSent(content: Bytes, take: Option<nat>)
    ensures Concat(Taken(Chunks(content), take)) == Sent(content, take)
  {
    ConcatChunks(content);
  }

  /** Writes the request body to a temp file; the body raises after `stop` chunks, if there is a `stop`. */
  method Spool(chunks: seq<Bytes>, stop: Option<nat>) returns (spool: Option<Bytes>)
    requires stop.Some? ==> stop.value <= |chunks|
    ensures spool == if stop.Some? then None else Some(Concat(chunks))
  {
    var temp: Bytes := [];
    var i := 0;
    while i < |chunks|
      invariant 0 <= i <= |chunks| && temp == Concat(chunks[..i])
      invariant stop.Some? ==> i <= stop.value
    {
      if stop == Some(i) { return None; }
      ConcatStep(chunks, i);
      temp, i := temp + chunks[i], i + 1;
    }
    ConcatAll(chunks);
    spool := if stop.Some? then None else Some(temp);
  }

  /** What an upload leaves behind is the state function's next state. */
  lemma PutStep(s: CState, t: CState, key: string, content: Bytes, exclusive: bool, fault: bool, cacheFault: bool,
                answer: PutAnswer)
    requires answer == if fault then StorageError else if exclusive && key in s.primary then Conflict else Stored
    requires t.primary == if answer.Stored? then s.primary[key := content] else s.primary
    requires t.cache ==
      if !answer.Stored? || !IsCacheable(key) then s.cache
      else
        var stop := if cacheFault then Some(StorageError) else None;
        PutTree(s.cache, key, content, PutResult(s.cache, key, false, stop))
    ensures (t, Uploaded(answer)) == CacheStep(s, Call.Put(key, content, exclusive, fault, cacheFault))
  {
  }

  /** What a read that misses the cache leaves behind is the state function's next state. */
  lemma MissStep(s: CState, t: CState, key: string, take: Option<nat>, answer: Answer)
    requires IsCacheable(key) && HeadOf(s.cache, key).Missing? && t.primary == s.primary
    requires t.cache.dirs == Effect(s.cache, MakeDirs(key)).dirs
    requires t.cache.files ==
             if key in s.primary && Drained(s.primary[key], take) && key !in t.cache.dirs
             then s.cache.files[key := s.primary[key]] else s.cache.files
    requires answer == if CannotPlace(s, key, take) then Content(s.primary[key], Raised)
                       else MapStep(s.primary, Call.Get(key, take)).1
    ensures (t, answer) == CacheStep(s, Call.Get(key, take))
  {
  }

  class CachedStore {
    const primary: S3Store
    const cache: LocalStore

    ghost function State(): CState
      reads primary, cache
    {
      CState(primary.Contents(), cache.Contents())
    }

    ghost predicate Valid()
      reads cache
    {
      cache.Valid()
    }

    /** Opens the cache directory with what it holds already. */
    constructor (primary: S3Store, existing: Tree)
      requires TreeOk(existing)
      ensures this.primary == primary && fresh(cache) && Valid() && cache.Contents() == existing
    {
      this.primary := primary;
      cache := new LocalStore(existing);
    }

    /** No cached file stands above the key. */
    ghost predicate FreePath(key: string)
      reads cache
    {
      forall a :: Ancestor(a, key) ==> a !in cache.files
    }

    /** Nothing in the cache is in the way of a file for the key. */
    ghost predicate FreePlace(key: string)
      reads cache
    {
      FreePath(key) && key !in cache.dirs
    }

    method Head(key: string) returns (answer: HeadAnswer)
      requires Valid() && Clean(key)
      ensures Headed(answer) == CacheStep(State(), Call.Head(key)).1
      ensures Coherent(State()) && (IsCacheable(key) ==> FreePath(key)) ==>
                answer == if key in primary.Contents() then Size(|primary.Contents()[key]|) else Missing
    {
      if IsCacheable(key) {
        answer := cache.Head(key);
        if !answer.Missing? { return; }
      }
      var size := primary.Head(key);
      answer := if size.Some? then Size(size.value) else Missing;
    }

    /**
      Passes the chunks of the primary on while it fills a temp file, and moves the temp file into place at
      the end. The source raises after `chunks` if `raises`; `f` says how the temp file fails.
    */
    method StreamAndCache(key: string, chunks: seq<Bytes>, raises: bool, f: TempFaults, take: Option<nat>)
      returns (got: seq<Bytes>, end: End)
      requires Valid() && Clean(key)
      modifies cache
      ensures Valid()
      ensures cache.dirs == Effect(old(cache.Contents()), MakeDirs(key)).dirs
      ensures end.NeverStarted? <==> SysReturn(old(cache.Contents()), MakeDirs(key)) != Done
      ensures end.GiveUpRaised? <==> !end.NeverStarted? && GivesUp(chunks, f, take)
      ensures got == if end.NeverStarted? then []
                     else if end.GiveUpRaised? then chunks[..f.failAt.value]
                     else Taken(chunks, take)
      ensures !end.NeverStarted? && !end.GiveUpRaised? ==> end == EndOf(key, chunks, raises, f, take)
      ensures cache.files ==
              if end == Ended(Finished) && TempSurvives(chunks, f)
              then old(cache.files)[key := Concat(chunks)]
              else old(cache.files)
      ensures got <= chunks
      ensures cache.files == old(cache.files) ||
              (got == chunks && !raises && cache.files == old(cache.files)[key := Concat(chunks)])
      ensures old(FreePlace(key)) && !raises && take.None? && f.closes && f.unlinks && f.places ==>
        && got == chunks && end == Ended(Finished)
        && cache.files == if f.opens && (f.failAt.None? || f.failAt.value >= |chunks|)
                          then old(cache.files)[key := Concat(chunks)] else old(cache.files)
    {
      ghost var before := cache.Contents();
      got := [];
      if exists a :: a in Ancestors(key) && a in cache.files {
        return [], NeverStarted;
      }
      cache.dirs := cache.dirs + Ancestors(key);
      CallKeepsTree(before, MakeDirs(key));
      ghost var made := cache.Contents();
      assert made == Effect(before, MakeDirs(key));

      var temp: Option<Bytes> := if f.opens then Some([]) else None;
      var i := 0;
      while i < |chunks|
        invariant 0 <= i <= |chunks| && got == chunks[..i] && cache.Contents() == made
        invariant take.Some? ==> i <= take.value
        invariant f.opens && f.failAt.Some? && f.failAt.value < i ==> f.closes && f.unlinks
        invariant temp == if f.opens && (f.failAt.None? || f.failAt.value >= i) then Some(Concat(chunks[..i])) else None
      {
        if take.Some? && take.value == i { return got, Ended(Gone); }
        if temp.Some? {
          if f.failAt == Some(i) && !(f.closes && f.unlinks) { return got, GiveUpRaised; }
          ConcatStep(chunks, i);
          temp := if f.failAt == Some(i) then None else Some(temp.value + chunks[i]);
        }
        got := got + [chunks[i]];
        i := i + 1;
      }
      ConcatAll(chunks);
      if take.Some? && take.value == i { return got, Ended(Gone); }
      if raises { return got, SourceRaised; }
      if temp.Some? {
        if !f.closes || !f.places || key in cache.dirs { return got, Ended(Raised); }
        CallKeepsTree(made, Replace(key, temp.value));
        cache.files := cache.files[key := temp.value];
        assert cache.Contents() == Effect(made, Replace(key, temp.value));
      }
      end := Ended(Finished);
    }

    /** The temp file holds the whole object when the stream ends. */
    predicate TempSurvives(chunks: seq<Bytes>, f: TempFaults) {
      f.opens && (f.failAt.None? || f.failAt.value >= |chunks|)
    }

    /** A write fails while the reader is still there, and so does closing or removing the file that it gives up. */
    predicate GivesUp(chunks: seq<Bytes>, f: TempFaults, take: Option<nat>) {
      && f.opens && f.failAt.Some? && f.failAt.value < |chunks| && !(f.closes && f.unlinks)
      && (take.None? || f.failAt.value < take.value)
    }

    /** How the stream ends once its directories exist and unless it gives up. */
    function EndOf(key: string, chunks: seq<Bytes>, raises: bool, f: TempFaults, take: Option<nat>): End
      reads cache
    {
      if take.Some? && take.value <= |chunks| then Ended(Gone)
      else if raises then SourceRaised
      else if TempSurvives(chunks, f) && (!f.closes || !f.places || key in cache.dirs) then Ended(Raised)
      else Ended(Finished)
    }

    /** A read without I/O faults. The primary opens its object when the reader asks for the first chunk. */
    method Get(key: string, take: Option<nat>) returns (reading: Reading)
      requires Valid() && Clean(key)
      modifies cache
      ensures Valid()
      ensures State() == CacheStep(old(State()), Call.Get(key, take)).0
      ensures AnswerOf(reading) == CacheStep(old(State()), Call.Get(key, take)).1
      ensures primary.Contents() == old(primary.Contents())
      ensures old(Coherent(State()) && (IsCacheable(key) ==> FreePlace(key))) && take.None? ==>
        if key in primary.Contents() then
          && reading.Reading? && reading.end == Finished && Concat(reading.chunks) == primary.Contents()[key]
          && cache.files == if IsCacheable(key) then old(cache.files)[key := primary.Contents()[key]]
                            else old(cache.files)
        else reading == NoSuchKey && cache.files == old(cache.files)
      ensures old(Coherent(State())) && take == Some(0) ==> cache.files == old(cache.files)
    {
      ghost var before := State();
      if Coherent(before) && !Blocked(before, Call.Get(key, None)) { ReadFills(before, key, None); }
      if IsCacheable(key) {
        var head := cache.Head(key);
        if head.Unavailable? { return CacheUnavailable; }
        if head.Size? {
          var cached := cache.Get(key);
          TakenIsSent(cache.files[key], take);
          return ReadingOf(cached.value, take);
        }
      }
      if IsCacheable(key) {
        reading := ReadThrough(key, take);
        return;
      }
      var stored := primary.Get(key);
      if stored.Some? { TakenIsSent(primary.Contents()[key], take); }
      reading := if stored.Some? then ReadingOf(stored.value, take)
                 else if take == Some(0) then Reading([], Gone)
                 else NoSuchKey;
    }

    /** A read of a key that may be cached but is not. */
    method ReadThrough(key: string, take: Option<nat>) returns (reading: Reading)
      requires Valid() && Clean(key) && IsCacheable(key) && HeadOf(cache.Contents(), key).Missing?
      modifies cache
      ensures Valid()
      ensures (State(), AnswerOf(reading)) == CacheStep(old(State()), Call.Get(key, take))
    {
      ghost var before := State();
      var stored := primary.Get(key);
      if stored.Some? {
        TakenIsSent(primary.Contents()[key], take);
        ConcatChunks(primary.Contents()[key]);
      }
      var chunks := if stored.Some? then stored.value else [];
      var got, end := StreamAndCache(key, chunks, stored.None?, NO_FAULTS, take);
      reading := if end.Ended? then Reading(got, end.end) else NoSuchKey;
      MissStep(before, State(), key, take, AnswerOf(reading));
    }

    /**
      An upload. The body raises after `stop` chunks, if there is a `stop`; `fault` is a primary error;
      populating the cache fails after `cacheStop` chunks, if there is one; `unlinkFails` makes the final
      removal of the spooled body raise, after the object is stored and the cache is populated.
    */
    method Put(key: string, chunks: seq<Bytes>, stop: Option<nat>, exclusive: bool, fault: bool, cacheStop: Option<nat>,
               unlinkFails: bool)
      returns (answer: PutAnswer)
      requires Valid() && Clean(key) && (stop.Some? ==> stop.value <= |chunks|)
      modifies primary, cache
      ensures Valid()
      ensures answer.BodyError? <==> stop.Some?
      ensures stop.Some? ==> State() == old(State())
      ensures stop.None? ==>
        var (after, plain) := CacheStep(old(State()), Call.Put(key, Concat(chunks), exclusive, fault, cacheStop.Some?));
        && State() == after
        && Uploaded(answer) == if plain == Uploaded(Stored) && unlinkFails then Uploaded(Unconfirmed) else plain
      ensures stop.None? ==>
        var stored := !fault && !(exclusive && key in old(primary.Contents()));
        && answer == (if fault then StorageError else if !stored then Conflict
                      else if unlinkFails then Unconfirmed else Stored)
        && primary.Contents() == (if stored then old(primary.Contents())[key := Concat(chunks)]
                                  else old(primary.Contents()))
        && cache.files == (if stored && IsCacheable(key) && cacheStop.None? && old(FreePlace(key))
                           then old(cache.files)[key := Concat(chunks)] else old(cache.files))
    {
      ghost var before := State();
      UploadMeans(before, key, Concat(chunks), exclusive, fault, cacheStop.Some?);
      var spooled := Spool(chunks, stop);
      if spooled.None? { return BodyError; }
      var spool := spooled.value;
      answer := primary.Put(key, spool, exclusive, fault);
      if answer.Stored? && IsCacheable(key) {
        Populate(key, spool, cacheStop);
      }
      PutStep(before, State(), key, spool, exclusive, fault, cacheStop.Some?, answer);
      if answer.Stored? && unlinkFails { answer := Unconfirmed; }
    }

    /** Copies the upload into the cache; whatever happens there is not an error of the upload. */
    method Populate(key: string, spool: Bytes, cacheStop: Option<nat>)
      requires Valid() && Clean(key)
      modifies cache
      ensures Valid()
      ensures var stop := if cacheStop.Some? then Some(StorageError) else None;
        var result := PutResult(old(cache.Contents()), key, false, stop);
        cache.Contents() == PutTree(old(cache.Contents()), key, spool, result)
    {
      var copies := ReadChunks(spool);
      var at := if cacheStop.Some? && cacheStop.value < |copies| then cacheStop.value else |copies|;
      var _ := cache.Put(key, copies, false, if cacheStop.Some? then Some((at, StorageError)) else None, false);
    }

    method Delete(key: string, fault: bool, cacheFault: bool) returns (answer: DeleteAnswer)
      requires Valid() && Clean(key)
      modifies primary, cache
      ensures Valid()
      ensures (State(), Removed(answer)) == CacheStep(old(State()), Call.Delete(key, fault, cacheFault))
      ensures answer == if fault then DeleteFailed else if key in old(primary.Contents()) then Deleted else NotFound
      ensures primary.Contents() == old(primary.Contents()) - if answer.Deleted? then {key} else {}
      ensures cache.files == old(cache.files) - if answer.Deleted? && !cacheFault then {key} else {}
    {
      ghost var before := State();
      DeletionMeans(before, key, fault, cacheFault);
      answer := primary.Delete(key, fault);
      if answer.Deleted? && !cacheFault {
        var _ := cache.Delete(key, false);
      }
      assert before.primary - {} == before.primary && before.cache.files - {} == before.cache.files;
    }

    /** Primary batches first, then one eviction for each key; those of `unevicted` fail. */
    method DeleteMany(keys: seq<string>, failAt: Option<nat>, unevicted: set<string>) returns (ok: bool)
      requires Valid() && forall key :: key in keys ==> Clean(key)
      modifies primary, cache
      ensures Valid()
      ensures ok <==> failAt.None? || failAt.value >= |Batches(keys)|
      ensures !ok ==>
        State() == old(State()).(primary := old(State()).primary - (set k | k in Joined(Batches(keys)[..failAt.value])))
      ensures ok ==> primary.Contents() == old(primary.Contents()) - (set k | k in keys)
      ensures ok ==> cache.files == old(cache.files) - (set k | k in keys && k !in unevicted)
      ensures ok ==> cache.dirs == old(cache.dirs)
      ensures ok && unevicted == {} ==> State() == CacheStep(old(State()), Call.DeleteMany(keys, false, false)).0
    {
      var sent;
      ok, sent := primary.DeleteMany(keys, failAt);
      if ok { EvictEach(keys, unevicted); }
    }

    method EvictEach(keys: seq<string>, unevicted: set<string>)
      requires Valid()
      modifies cache
      ensures Valid() && cache.dirs == old(cache.dirs)
      ensures cache.files == old(cache.files) - (set k | k in keys && k !in unevicted)
    {
      ghost var files, dirs := cache.files, cache.dirs;
      var i := 0;
      while i < |keys|
        invariant 0 <= i <= |keys| && Valid() && cache.dirs == dirs
        invariant cache.files == files - (set k | k in keys[..i] && k !in unevicted)
      {
        assert keys[..i + 1] == keys[..i] + [keys[i]];
        if keys[i] !in unevicted {
          var _ := cache.Delete(keys[i], false);
        }
        i := i + 1;
      }
      assert keys[..i] == keys;
    }
  }

  /** A stream that cannot fail, read by `take`. */
  function ReadingOf(chunks: seq<Bytes>, take: Option<nat>): Reading {
    Reading(Taken(chunks, take), if take.Some? && take.value <= |chunks| then Gone else Finished)
  }

  function AnswerOf(reading: Reading): Answer {
    match reading
    case Reading(chunks, end) => Content(Concat(chunks), end)
    case NoSuchKey => Absent
    case CacheUnavailable => Refused
  }
}
