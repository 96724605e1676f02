/**
  What the answer of an operation says, in every run: which failure has which reason, that a deletion which is
  answered as done has erased its object, and that what an answer reports was so at some moment of the operation.
*/
module Answers {
  import opened Basics
  import opened Protocol
  import opened ProtocolSafety

  // ---------------------------------------------------------------------------------------------
  // What one step is for one operation.

  /** The operation arrives in this step. */
  predicate Arrives(s: State, a: Action, id: OpId) {
    id !in s.ops && id in Step(s, a).ops
  }

  /** The operation moves in this step. */
  predicate Moves(s: State, a: Action, id: OpId) {
    id in s.ops && a.Act? && a.id == id && !Final(s.ops[id].pc)
  }

  lemma OneStep(s: State, a: Action, id: OpId)
    requires id in Step(s, a).ops
    ensures var op := Step(s, a).ops[id];
      if Arrives(s, a, id) then
        op.temp.None? && Step(s, a).log == s.log && op.pc == if op.request.Delete? then DeletingPrimary(0) else Start
      else if Moves(s, a, id) then
        var m := MoveOf(s, s.ops[id], a.move); op == Op(s.ops[id].request, m.pc, m.temp)
      else id in s.ops && op == s.ops[id]
    ensures id in s.ops && !Moves(s, a, id) ==> (InLog(Step(s, a), id) <==> InLog(s, id))
  {
    var t := Step(s, a);
    if id in s.ops && !Moves(s, a, id) && InLog(t, id) {
      var e :| e in t.log && e.id == id;
      assert e in s.log;
    }
  }

  lemma LogGrows(s: State, a: Action)
    ensures forall e :: e in s.log ==> e in Step(s, a).log
  {
  }

  /** An exclusive upload that looks before it publishes, and finds the key stored, is refused at once. */
  lemma LookingRefuses(s: State, id: OpId)
    requires id in s.ops && s.ops[id].request.Put? && !s.ops[id].request.allowOverwrite
    requires (s.ops[id].pc.Receiving? || s.ops[id].pc.Uploading?) && s.ops[id].request.key in s.primary
    ensures var t := Step(s, Act(id, Precheck));
      t.ops[id].pc == Failed(Conflict) && t.primary == s.primary && t.cache == s.cache
  {
  }

  /**
    A storage fault ends an upload or a download with a storage error, unless it meets an upload at its cache,
    where faults do not count. It changes nothing visible.
  */
  lemma FaultEnds(s: State, id: OpId)
    requires id in s.ops && !s.ops[id].request.Delete? && !Final(s.ops[id].pc) && OpOk(s.config, s.ops[id])
    ensures var t := Step(s, Act(id, Fault));
      && t.primary == s.primary && t.cache == s.cache
      && (Reported(t.ops[id].pc) == Some(StorageError) <==> !s.ops[id].pc.Populating?)
  {
  }

  /** A client that goes away leaves everything as it is, its temp file included. */
  lemma AbandonedLeavesTemp(s: State, id: OpId)
    requires id in s.ops && !Final(s.ops[id].pc)
    ensures Step(s, Act(id, Abandon)) == s.(ops := s.ops[id := Op(s.ops[id].request, Abandoned, s.ops[id].temp)])
  {
  }

  // ---------------------------------------------------------------------------------------------
  // Why an operation failed.

  /** The declared length of the upload, if there is one, is within the limit. */
  predicate Announced(config: Config, r: Request)
    requires r.Put?
  {
    r.declared.Some? ==> r.declared.value <= config.maxUpload
  }

  /** The reason that an upload gives is a reason. */
  predicate PutReason(config: Config, op: Op)
    requires op.request.Put?
  {
    var r := op.request;
    match op.pc
    case Start => true
    case Abandoned => true
    case Failed(why) =>
      (match why
       case TooLarge => !Announced(config, r) || |Concat(r.chunks)| > config.maxUpload
       case BodyError => Announced(config, r) && r.bodyFails && |Concat(r.chunks)| <= config.maxUpload
       case Conflict => Announced(config, r) && !r.allowOverwrite
       case NotFound => false
       case StorageError => true)
    case _ => Announced(config, r)
  }

  predicate Reasoned(config: Config, op: Op) {
    match op.request
    case Put(_, _, _, _, _) => PutReason(config, op)
    case Get(_) => op.pc.Failed? ==> op.pc.why.NotFound? || op.pc.why.StorageError?
    case Delete(_, single) => op.pc.Failed? ==> op.pc.why.StorageError? || (single && op.pc.why.NotFound?)
  }

  lemma PutReasoned(config: Config, op: Op, stored: Option<Bytes>, cached: Option<Bytes>, move: Move)
    requires op.request.Put? && PutOk(config, op) && !Final(op.pc) && PutReason(config, op)
    ensures var m := PutMove(config, op, stored, cached, move); PutReason(config, Op(op.request, m.pc, m.temp))
  {
    if op.pc.Receiving? {
      var chunks, next := op.request.chunks, op.pc.next;
      if next < |chunks| {
        ConcatStep(chunks, next);
        PrefixWithin(chunks, next + 1);
      } else {
        ConcatAll(chunks);
      }
    }
  }

  lemma MoveReasoned(s: State, id: OpId, move: Move)
    requires id in s.ops && !Final(s.ops[id].pc) && OpOk(s.config, s.ops[id]) && Reasoned(s.config, s.ops[id])
    ensures var m := MoveOf(s, s.ops[id], move); Reasoned(s.config, Op(s.ops[id].request, m.pc, m.temp))
  {
    var op := s.ops[id];
    if op.request.Put? && !move.Abandon? {
      PutReasoned(s.config, op, Lookup(s.primary, KeyOf(op)), Lookup(s.cache, KeyOf(op)), move);
    }
  }

  /** What the other operations do is not an operation's business. */
  lemma {:induction false} RunReasoned(s: State, actions: seq<Action>, id: OpId)
    requires Init(s) && id in Run(s, actions).ops
    ensures Reasoned(s.config, Run(s, actions).ops[id])
  {
    var init, a := actions[..|actions| - 1], actions[|actions| - 1];
    RunKeeps(s, init);
    OneStep(Run(s, init), a, id);
    if !Arrives(Run(s, init), a, id) {
      RunReasoned(s, init, id);
      if Moves(Run(s, init), a, id) { MoveReasoned(Run(s, init), id, a.move); }
    }
  }

  /**
    The reason of every failure, in every run. An upload is too large only if its declared length or its body is;
    it is refused for its body only if the body raises, for a conflict only if it may not overwrite, and it is never
    not found; nothing but an upload is ever refused for size, body or conflict.
  */
  lemma FailureHasReason(s: State, actions: seq<Action>, id: OpId)
    requires Init(s) && id in Run(s, actions).ops && Run(s, actions).ops[id].pc.Failed?
    ensures var op, max := Run(s, actions).ops[id], s.config.maxUpload;
      match op.pc.why
      case TooLarge =>
        && op.request.Put?
        && ((op.request.declared.Some? && op.request.declared.value > max) || |Concat(op.request.chunks)| > max)
      case BodyError => op.request.Put? && op.request.bodyFails && |Concat(op.request.chunks)| <= max
      case Conflict => op.request.Put? && !op.request.allowOverwrite
      case NotFound => op.request.Get? || (op.request.Delete? && op.request.single)
      case StorageError => true
  {
    RunReasoned(s, actions, id);
  }

  /** And an upload that got a 201 had declared no more than the limit. */
  lemma CreatedWasAnnounced(s: State, actions: seq<Action>, id: OpId)
    requires Init(s) && id in Run(s, actions).ops && Run(s, actions).ops[id].pc.Created?
    ensures var r := Run(s, actions).ops[id].request;
      r.Put? && !(r.declared.Some? && r.declared.value > s.config.maxUpload)
  {
    RunReasoned(s, actions, id);
    CreatedIsWhole(s, actions, id);
  }

  // ---------------------------------------------------------------------------------------------
  // What the deletion of one key has in the log.

  /** The deletion of one key has erased it exactly if it is past its first step, and until then did nothing. */
  ghost predicate DeletionLogged(s: State, id: OpId, key: string)
    requires id in s.ops
  {
    match s.ops[id].pc
    case DeletingPrimary(i) => i <= 1 && if i == 0 then !InLog(s, id) else Event(id, key, Erase) in s.log
    case DeletingCache(_) => Event(id, key, Erase) in s.log
    case Deleted => Event(id, key, Erase) in s.log
    case Failed(why) => why == NotFound ==> !InLog(s, id)
    case _ => true
  }

  lemma DeletionMoves(s: State, id: OpId, key: string, move: Move)
    requires id in s.ops && s.ops[id].request == Delete([key], true) && OpOk(s.config, s.ops[id])
    requires !Final(s.ops[id].pc) && DeletionLogged(s, id, key)
    ensures DeletionLogged(Step(s, Act(id, move)), id, key)
  {
    var t := Step(s, Act(id, move));
    if s.ops[id].pc == DeletingPrimary(0) && key in s.primary && t.log != s.log {
      assert t.log[|t.log| - 1] == Event(id, key, Erase);
    }
  }

  lemma StepLogged(s: State, a: Action, id: OpId, key: string)
    requires Inv(s) && id in Step(s, a).ops && Step(s, a).ops[id].request == Delete([key], true)
    requires id in s.ops ==> DeletionLogged(s, id, key)
    ensures DeletionLogged(Step(s, a), id, key)
  {
    OneStep(s, a, id);
    LogGrows(s, a);
    if Moves(s, a, id) {
      assert OpOk(s.config, s.ops[id]);
      DeletionMoves(s, id, key, a.move);
    }
  }

  lemma {:induction false} RunLogged(s: State, actions: seq<Action>, id: OpId, key: string)
    requires Init(s) && id in Run(s, actions).ops && Run(s, actions).ops[id].request == Delete([key], true)
    ensures DeletionLogged(Run(s, actions), id, key)
  {
    var init, a := actions[..|actions| - 1], actions[|actions| - 1];
    RunKeeps(s, init);
    StepExtends(Run(s, init), a);
    if id in Run(s, init).ops { RunLogged(s, init, id, key); }
    StepLogged(Run(s, init), a, id, key);
  }

  /**
    In every run and for every configuration, with a cache or without: the deletion of one key that is answered as
    done has erased its object, and one that is answered as not found has done nothing.
  */
  lemma DeletionInLog(s: State, actions: seq<Action>, id: OpId, key: string)
    requires Init(s) && id in Run(s, actions).ops && Run(s, actions).ops[id].request == Delete([key], true)
    ensures var t := Run(s, actions);
      && (t.ops[id].pc.Deleted? ==> Event(id, key, Erase) in t.log)
      && (t.ops[id].pc == Failed(NotFound) ==> forall e :: e in t.log ==> e.id != id)
  {
    RunLogged(s, actions, id, key);
  }

  // ---------------------------------------------------------------------------------------------
  // What an answer reports was so while the operation ran.

  /** What can be seen of one key at a moment. */
  datatype Sight =
    | Present(key: string)                // a side has it; the cache counts for keys that it may hold
    | Holds(key: string, content: Bytes)  // a side holds this
    | Measures(key: string, size: nat)    // a side holds this many bytes
    | NotStored(key: string)              // the primary does not have it
    | Cached(key: string)                 // the cache has it, and may
    | NotCached(key: string)              // the cache does not have it

  predicate Seen(s: State, sight: Sight) {
    match sight
    case Present(key) => key in s.primary || (Cacheable(s.config, key) && key in s.cache)
    case Holds(key, content) =>
      Lookup(s.primary, key) == Some(content) || (Cacheable(s.config, key) && Lookup(s.cache, key) == Some(content))
    case Measures(key, size) =>
      || (key in s.primary && |s.primary[key]| == size)
      || (Cacheable(s.config, key) && key in s.cache && |s.cache[key]| == size)
    case NotStored(key) => key !in s.primary
    case Cached(key) => Cacheable(s.config, key) && key in s.cache
    case NotCached(key) => key !in s.cache
  }

  /** After `n` actions the operation was there, and this was to be seen. */
  predicate SeenAfter(s: State, actions: seq<Action>, id: OpId, sight: Sight, n: nat) {
    n <= |actions| && id in Run(s, actions[..n]).ops && Seen(Run(s, actions[..n]), sight)
  }

  ghost predicate Happened(s: State, actions: seq<Action>, id: OpId, sight: Sight) {
    exists n: nat :: SeenAfter(s, actions, id, sight, n)
  }

  lemma HappenedBefore(s: State, actions: seq<Action>, id: OpId, sight: Sight)
    requires actions != [] && Happened(s, actions[..|actions| - 1], id, sight)
    ensures Happened(s, actions, id, sight)
  {
    var init := actions[..|actions| - 1];
    var n: nat :| SeenAfter(s, init, id, sight, n);
    assert init[..n] == actions[..n];
    assert SeenAfter(s, actions, id, sight, n);
  }

  lemma HappensNow(s: State, actions: seq<Action>, id: OpId, sight: Sight)
    requires id in Run(s, actions).ops && Seen(Run(s, actions), sight)
    ensures Happened(s, actions, id, sight)
  {
    assert actions[..|actions|] == actions;
    assert SeenAfter(s, actions, id, sight, |actions|);
  }

  /** What an operation has to have seen to be where it is. */
  ghost predicate Explains(config: Config, op: Op, sights: iset<Sight>) {
    match op.request
    case Put(key, _, _, _, _) => op.pc == Failed(Conflict) ==> Present(key) in sights
    case Get(key) =>
      (match op.pc
       case Headed(size) => Measures(key, size) in sights
       case Routed(size, fromCache) =>
         Measures(key, size) in sights && (fromCache ==> Cacheable(config, key) && Cached(key) in sights)
       case Streaming(size, _, snapshot, _) => Measures(key, size) in sights && Holds(key, snapshot) in sights
       case Served(size, sent) => Measures(key, size) in sights && Holds(key, sent) in sights
       case Failed(why) =>
         why == NotFound ==> NotStored(key) in sights || (Cached(key) in sights && NotCached(key) in sights)
       case _ => true)
    case Delete(keys, _) =>
      (match op.pc
       case DeletingPrimary(i) => i <= |keys| && forall j :: 0 <= j < i ==> NotStored(keys[j]) in sights
       case DeletingCache(_) => forall key :: key in keys ==> NotStored(key) in sights
       case Deleted => forall key :: key in keys ==> NotStored(key) in sights
       case Failed(why) => why == NotFound ==> exists key :: key in keys && NotStored(key) in sights
       case _ => true)
  }

  /** Everything that was to be seen so far while the operation was there. */
  ghost function Sights(s: State, actions: seq<Action>, id: OpId): iset<Sight> {
    iset sight | Happened(s, actions, id, sight)
  }

  lemma MoreSights(s: State, actions: seq<Action>, id: OpId)
    requires actions != []
    ensures Sights(s, actions[..|actions| - 1], id) <= Sights(s, actions, id)
  {
    forall sight | Happened(s, actions[..|actions| - 1], id, sight) ensures Happened(s, actions, id, sight) {
      HappenedBefore(s, actions, id, sight);
    }
  }

  lemma SightsNow(s: State, actions: seq<Action>, id: OpId)
    requires id in Run(s, actions).ops
    ensures forall sight :: Seen(Run(s, actions), sight) ==> sight in Sights(s, actions, id)
  {
    forall sight | Seen(Run(s, actions), sight) ensures Happened(s, actions, id, sight) {
      HappensNow(s, actions, id, sight);
    }
  }

  lemma PutExplained(s: State, id: OpId, move: Move, sights: iset<Sight>)
    requires id in s.ops && s.ops[id].request.Put? && !Final(s.ops[id].pc) && Explains(s.config, s.ops[id], sights)
    requires forall sight :: Seen(s, sight) ==> sight in sights
    ensures var m := MoveOf(s, s.ops[id], move); Explains(s.config, Op(s.ops[id].request, m.pc, m.temp), sights)
  {
    assert Seen(s, Present(s.ops[id].request.key)) ==> Present(s.ops[id].request.key) in sights;
  }

  lemma GetExplained(s: State, id: OpId, move: Move, sights: iset<Sight>)
    requires id in s.ops && s.ops[id].request.Get? && !Final(s.ops[id].pc) && Explains(s.config, s.ops[id], sights)
    requires GetOk(s.config, s.ops[id])
    requires forall sight :: Seen(s, sight) ==> sight in sights
    ensures var m := MoveOf(s, s.ops[id], move); Explains(s.config, Op(s.ops[id].request, m.pc, m.temp), sights)
  {
    var op := s.ops[id];
    var key, m := op.request.key, MoveOf(s, op, move);
    assert Seen(s, NotStored(key)) ==> NotStored(key) in sights;
    assert Seen(s, Cached(key)) ==> Cached(key) in sights;
    assert Seen(s, NotCached(key)) ==> NotCached(key) in sights;
    if m.pc.Headed? && op.pc != m.pc { assert Seen(s, Measures(key, m.pc.size)); }
    if m.pc.Streaming? && op.pc.Routed? { assert Seen(s, Holds(key, m.pc.snapshot)); }
    if op.pc.Streaming? && |op.pc.sent| == |op.pc.snapshot| { assert op.pc.sent == op.pc.snapshot; }
  }

  lemma DeleteExplained(s: State, id: OpId, move: Move, before: iset<Sight>, sights: iset<Sight>)
    requires id in s.ops && s.ops[id].request.Delete? && !Final(s.ops[id].pc) && Explains(s.config, s.ops[id], before)
    requires OpOk(s.config, s.ops[id]) && before <= sights
    requires forall sight :: Seen(s, sight) || Seen(Step(s, Act(id, move)), sight) ==> sight in sights
    ensures Explains(s.config, Step(s, Act(id, move)).ops[id], sights)
  {
    var op, t := s.ops[id], Step(s, Act(id, move));
    var keys := op.request.keys;
    if op.pc.DeletingPrimary? && op.pc.index < |keys| {
      var sight := NotStored(keys[op.pc.index]);
      assert Seen(s, sight) || Seen(t, sight) ==> sight in sights;
    }
  }

  lemma ExplainsMore(config: Config, op: Op, before: iset<Sight>, after: iset<Sight>)
    requires Explains(config, op, before) && before <= after
    ensures Explains(config, op, after)
  {
  }

  lemma MoveExplained(s: State, id: OpId, move: Move, before: iset<Sight>, after: iset<Sight>)
    requires Inv(s) && id in s.ops && !Final(s.ops[id].pc) && Explains(s.config, s.ops[id], before) && before <= after
    requires forall sight :: Seen(s, sight) || Seen(Step(s, Act(id, move)), sight) ==> sight in after
    ensures Explains(s.config, Step(s, Act(id, move)).ops[id], after)
  {
    ExplainsMore(s.config, s.ops[id], before, after);
    assert OpOk(s.config, s.ops[id]);
    OneStep(s, Act(id, move), id);
    match s.ops[id].request
    case Put(_, _, _, _, _) => PutExplained(s, id, move, after);
    case Get(_) => GetExplained(s, id, move, after);
    case Delete(_, _) => DeleteExplained(s, id, move, before, after);
  }

  lemma StepExplained(s: State, a: Action, id: OpId, before: iset<Sight>, after: iset<Sight>)
    requires Inv(s) && id in Step(s, a).ops && before <= after
    requires id in s.ops ==> Explains(s.config, s.ops[id], before)
    requires forall sight :: (id in s.ops && Seen(s, sight)) || Seen(Step(s, a), sight) ==> sight in after
    ensures Explains(s.config, Step(s, a).ops[id], after)
  {
    OneStep(s, a, id);
    if Moves(s, a, id) {
      MoveExplained(s, id, a.move, before, after);
    } else if id in s.ops {
      ExplainsMore(s.config, s.ops[id], before, after);
    }
  }

  lemma {:induction false} RunExplained(s: State, actions: seq<Action>, id: OpId)
    requires Init(s) && id in Run(s, actions).ops
    ensures Explains(s.config, Run(s, actions).ops[id], Sights(s, actions, id))
  {
    var init, a := actions[..|actions| - 1], actions[|actions| - 1];
    RunKeeps(s, init);
    MoreSights(s, actions, id);
    SightsNow(s, actions, id);
    if id in Run(s, init).ops {
      RunExplained(s, init, id);
      SightsNow(s, init, id);
    }
    StepExplained(Run(s, init), a, id, Sights(s, init, id), Sights(s, actions, id));
  }

  /**
    What an answer reports was so at a moment at which the operation was there already, whatever ran beside it:
    a download sent an object that a side held, and announced a length that an object had; if it found nothing,
    the object was not stored, or was cached and then not cached any more; a conflict is one with an object that
    was there; and every key of a deletion that is done was at some moment not stored.
  */
  lemma AnswersHappened(s: State, actions: seq<Action>, id: OpId, key: string)
    requires Init(s) && id in Run(s, actions).ops
    ensures var op := Run(s, actions).ops[id];
      && (op.request == Get(key) && op.pc.Served? ==>
            Happened(s, actions, id, Holds(key, op.pc.sent)) && Happened(s, actions, id, Measures(key, op.pc.size)))
      && (op.request == Get(key) && op.pc == Failed(NotFound) ==>
            || Happened(s, actions, id, NotStored(key))
            || (Happened(s, actions, id, Cached(key)) && Happened(s, actions, id, NotCached(key))))
      && (op.request.Put? && op.request.key == key && op.pc == Failed(Conflict) ==>
            Happened(s, actions, id, Present(key)))
      && (op.request.Delete? && key in op.request.keys && op.pc.Deleted? ==>
            Happened(s, actions, id, NotStored(key)))
      && (op.request == Delete([key], true) && op.pc == Failed(NotFound) ==>
            Happened(s, actions, id, NotStored(key)))
  {
    RunExplained(s, actions, id);
    var op := Run(s, actions).ops[id];
    if op.request == Delete([key], true) && op.pc == Failed(NotFound) {
      var k :| k in op.request.keys && NotStored(k) in Sights(s, actions, id);
    }
  }
}
