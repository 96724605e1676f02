/**
  What every run of the storage protocol keeps, whatever the requests, the interleaving and the
  faults are: every visible object and every cached file is complete, bounded and cacheable, and
  only operations that succeeded changed anything.
*/
module ProtocolSafety {
  import opened Basics
  import opened CachePolicy
  import opened Protocol

  /** `op` is a PUT of `key` whose whole body is `content`, within the upload limit. */
  predicate IsBodyOf(config: Config, op: Op, key: string, content: Bytes) {
    && op.request.Put? && op.request.key == key && !op.request.bodyFails
    && content == Concat(op.request.chunks) && |content| <= config.maxUpload
  }

  /** `content` is a whole object: the one `key` had at the start, or the body of one PUT. */
  ghost predicate Complete(s: State, key: string, content: Bytes) {
    || (key in s.initial && s.initial[key] == content)
    || exists id :: id in s.ops && IsBodyOf(s.config, s.ops[id], key, content)
  }

  /** How far a PUT is determines what its files hold. */
  predicate PutOk(config: Config, op: Op)
    requires op.request.Put?
  {
    var r := op.request;
    match op.pc
    case Start => op.temp.None?
    case CheckingPrimary => op.temp.None?
    case Receiving(buffer, next) =>
      op.temp.None? && next <= |r.chunks| && buffer == Concat(r.chunks[..next]) && |buffer| <= config.maxUpload
    case Uploading(body, copied) => op.temp.None? && IsBodyOf(config, op, r.key, body) && copied <= body
    case Populating(body) =>
      IsBodyOf(config, op, r.key, body) && Cacheable(config, r.key) && (op.temp.Some? ==> op.temp.value <= body)
    case Published(body) => op.temp.None? && IsBodyOf(config, op, r.key, body)
    case Clearing(body) => op.temp.None? && IsBodyOf(config, op, r.key, body)
    case Unconfirmed(body) => op.temp.None? && IsBodyOf(config, op, r.key, body)
    case Created => op.temp.None? && IsBodyOf(config, op, r.key, Concat(r.chunks))
    case Failed(_) => op.temp.None?
    case Abandoned => true
    case _ => false
  }

  predicate GetOk(config: Config, op: Op)
    requires op.request.Get?
  {
    match op.pc
    case Start => op.temp.None?
    case CheckingPrimary => op.temp.None?
    case Headed(_) => op.temp.None?
    case Routed(_, fromCache) => op.temp.None?
    case Streaming(_, fromCache, snapshot, sent) =>
      sent <= snapshot && (op.temp.Some? ==> !fromCache && Cacheable(config, op.request.key) && op.temp.value == sent)
    case Served(_, _) => op.temp.None?
    case Failed(_) => op.temp.None?
    case Abandoned => true
    case _ => false
  }

  predicate DeleteOk(op: Op) {
    var pc := op.pc;
    (pc.DeletingPrimary? || pc.DeletingCache? || pc.Deleted? || pc.Failed? || pc.Abandoned?) && op.temp.None?
  }

  predicate OpOk(config: Config, op: Op) {
    match op.request
    case Put(_, _, _, _, _) => PutOk(config, op)
    case Get(_) => GetOk(config, op)
    case Delete(_, _) => DeleteOk(op)
  }

  /** What a GET has open, or has served, is a whole object. */
  ghost predicate SeesComplete(s: State, op: Op) {
    op.request.Get? ==>
      && (op.pc.Streaming? ==> Complete(s, op.request.key, op.pc.snapshot))
      && (op.pc.Served? ==> Complete(s, op.request.key, op.pc.sent))
  }

  predicate HasPublished(pc: Pc) {
    pc.Published? || pc.Populating? || pc.Clearing? || pc.Created? || pc.Unconfirmed?
  }

  /** Which operation may cause a change, and how far it must have come when it did. */
  predicate Accounts(config: Config, op: Op, key: string, change: Change) {
    match change
    case Publish(content) =>
      IsBodyOf(config, op, key, content) && (HasPublished(op.pc) || op.pc.Abandoned?)
    case Promote(content) =>
      Cacheable(config, key) &&
      (|| (IsBodyOf(config, op, key, content) && (HasPublished(op.pc) || op.pc.Abandoned?))
       || (op.request == Get(key) && op.pc.Served? && op.pc.sent == content))
    case _ => op.request.Delete? && key in op.request.keys
  }

  /** A PUT that got past the step which decides. */
  predicate Won(op: Op) {
    op.request.Put? && HasPublished(op.pc)
  }

  /** The event by which a PUT makes its whole body visible. */
  function PublishOf(id: OpId, op: Op): Event
    requires op.request.Put?
  {
    Event(id, op.request.key, Publish(Concat(op.request.chunks)))
  }

  function ReplayPrimary(initial: map<string, Bytes>, log: seq<Event>): map<string, Bytes> {
    if log == [] then initial
    else OnPrimary(ReplayPrimary(initial, log[..|log| - 1]), log[|log| - 1])
  }

  function ReplayCache(log: seq<Event>): map<string, Bytes> {
    if log == [] then map[] else OnCache(ReplayCache(log[..|log| - 1]), log[|log| - 1])
  }

  ghost predicate OpsOk(s: State) {
    forall id :: id in s.ops ==> OpOk(s.config, s.ops[id]) && SeesComplete(s, s.ops[id])
  }

  ghost predicate VisibleOk(s: State) {
    && (forall key :: key in s.primary ==> Complete(s, key, s.primary[key]))
    && (forall key :: key in s.cache ==> Cacheable(s.config, key) && Complete(s, key, s.cache[key]))
  }

  ghost predicate LogOk(s: State) {
    && (forall e :: e in s.log ==> e.id in s.ops && Accounts(s.config, s.ops[e.id], e.key, e.change))
    && (forall id :: id in s.ops && Won(s.ops[id]) ==> PublishOf(id, s.ops[id]) in s.log)
    && s.primary == ReplayPrimary(s.initial, s.log)
    && s.cache == ReplayCache(s.log)
  }

  ghost predicate Inv(s: State) {
    OpsOk(s) && VisibleOk(s) && LogOk(s)
  }

  // ---------------------------------------------------------------------------------------------
  // One operation's step keeps what is known about that operation.

  lemma PutReceiveOk(config: Config, op: Op, stored: Option<Bytes>, cached: Option<Bytes>, move: Move)
    requires op.request.Put? && PutOk(config, op) && op.pc.Receiving?
    ensures var m := PutMove(config, op, stored, cached, move);
      PutOk(config, Op(op.request, m.pc, m.temp)) && m.change.None?
  {
    var r := op.request;
    if op.pc.next < |r.chunks| { ConcatStep(r.chunks, op.pc.next); } else { ConcatAll(r.chunks); }
  }

  lemma PutUploadOk(config: Config, op: Op, stored: Option<Bytes>, cached: Option<Bytes>, move: Move)
    requires op.request.Put? && PutOk(config, op) && op.pc.Uploading?
    ensures var m := PutMove(config, op, stored, cached, move);
      var after := Op(op.request, m.pc, m.temp);
      && PutOk(config, after)
      && (m.change.Some? ==> Accounts(config, after, op.request.key, m.change.value))
      && (Won(after) ==> m.change == Some(Publish(Concat(op.request.chunks))))
  {
    if |op.pc.copied| >= |op.pc.body| { assert op.pc.copied == op.pc.body; }
  }

  lemma PutPopulateOk(config: Config, op: Op, stored: Option<Bytes>, cached: Option<Bytes>, move: Move)
    requires op.request.Put? && PutOk(config, op) && op.pc.Populating?
    ensures var m := PutMove(config, op, stored, cached, move);
      var after := Op(op.request, m.pc, m.temp);
      PutOk(config, after) && (m.change.Some? ==> Accounts(config, after, op.request.key, m.change.value))
  {
    if op.temp.Some? && |op.temp.value| == |op.pc.body| { assert op.temp.value == op.pc.body; }
  }

  lemma PutMoveOk(config: Config, op: Op, stored: Option<Bytes>, cached: Option<Bytes>, move: Move)
    requires op.request.Put? && PutOk(config, op) && !Final(op.pc)
    ensures var m := PutMove(config, op, stored, cached, move);
      var after := Op(op.request, m.pc, m.temp);
      && PutOk(config, after)
      && (m.change.Some? ==> Accounts(config, after, op.request.key, m.change.value))
      && (Won(after) && !Won(op) ==> m.change == Some(Publish(Concat(op.request.chunks))))
  {
    match op.pc
    case Receiving(_, _) => PutReceiveOk(config, op, stored, cached, move);
    case Uploading(_, _) => PutUploadOk(config, op, stored, cached, move);
    case Populating(_) => PutPopulateOk(config, op, stored, cached, move);
    case _ =>
  }

  lemma GetMoveOk(config: Config, op: Op, stored: Option<Bytes>, cached: Option<Bytes>, move: Move)
    requires op.request.Get? && GetOk(config, op) && !Final(op.pc)
    ensures var m := GetMove(config, op, stored, cached, move);
      var after := Op(op.request, m.pc, m.temp);
      GetOk(config, after) && (m.change.Some? ==> Accounts(config, after, op.request.key, m.change.value))
  {
  }

  lemma DeleteMoveOk(config: Config, op: Op, stored: Option<Bytes>, move: Move)
    requires op.request.Delete? && DeleteOk(op) && !Final(op.pc)
    ensures var m := DeleteMove(config, op, stored, move);
      var after := Op(op.request, m.pc, m.temp);
      DeleteOk(after) && (m.change.Some? ==> Accounts(config, after, KeyOf(op), m.change.value))
  {
  }

  lemma MoveOk(s: State, id: OpId, move: Move)
    requires id in s.ops && !Final(s.ops[id].pc) && OpOk(s.config, s.ops[id])
    ensures var m := MoveOf(s, s.ops[id], move);
      var after := Op(s.ops[id].request, m.pc, m.temp);
      OpOk(s.config, after) && (m.change.Some? ==> Accounts(s.config, after, KeyOf(s.ops[id]), m.change.value))
  {
    var op := s.ops[id];
    var stored, cached := Lookup(s.primary, KeyOf(op)), Lookup(s.cache, KeyOf(op));
    if !move.Abandon? {
      match op.request
      case Put(_, _, _, _, _) => PutMoveOk(s.config, op, stored, cached, move);
      case Get(_) => GetMoveOk(s.config, op, stored, cached, move);
      case Delete(_, _) => DeleteMoveOk(s.config, op, stored, move);
    }
  }

  // ---------------------------------------------------------------------------------------------
  // A step of one operation keeps what is known about everything else.

  /** `t` has the operations of `s`, with the same requests, and maybe more. */
  ghost predicate Extends(s: State, t: State) {
    && t.config == s.config && t.initial == s.initial
    && forall id :: id in s.ops ==> id in t.ops && t.ops[id].request == s.ops[id].request
  }

  lemma CompleteKept(s: State, t: State, key: string, content: Bytes)
    requires Extends(s, t) && Complete(s, key, content)
    ensures Complete(t, key, content)
  {
    if !(key in s.initial && s.initial[key] == content) {
      var id :| id in s.ops && IsBodyOf(s.config, s.ops[id], key, content);
      assert IsBodyOf(t.config, t.ops[id], key, content);
    }
  }

  lemma AllCompleteKept(s: State, t: State)
    requires Extends(s, t)
    ensures forall key, content :: Complete(s, key, content) ==> Complete(t, key, content)
  {
    forall key, content | Complete(s, key, content) ensures Complete(t, key, content) {
      CompleteKept(s, t, key, content);
    }
  }

  lemma StepExtends(s: State, a: Action)
    ensures Extends(s, Step(s, a))
  {
  }

  lemma SeesKept(s: State, t: State, op: Op)
    requires Extends(s, t) && SeesComplete(s, op)
    ensures SeesComplete(t, op)
  {
    if op.request.Get? && op.pc.Streaming? { CompleteKept(s, t, op.request.key, op.pc.snapshot); }
    if op.request.Get? && op.pc.Served? { CompleteKept(s, t, op.request.key, op.pc.sent); }
  }

  lemma StoresKept(s: State, t: State)
    requires Extends(s, t) && VisibleOk(s) && t.primary == s.primary && t.cache == s.cache
    ensures VisibleOk(t)
  {
    forall key | key in s.primary ensures Complete(t, key, t.primary[key]) { CompleteKept(s, t, key, s.primary[key]); }
    forall key | key in s.cache ensures Complete(t, key, t.cache[key]) { CompleteKept(s, t, key, s.cache[key]); }
  }

  /** A GET opens what a store holds, and serves what it opened. */
  lemma GetSees(config: Config, op: Op, stored: Option<Bytes>, cached: Option<Bytes>, move: Move)
    requires op.request.Get? && GetOk(config, op) && !Final(op.pc)
    ensures var m := GetMove(config, op, stored, cached, move);
      && (m.pc.Streaming? ==>
            || (op.pc.Streaming? && m.pc.snapshot == op.pc.snapshot)
            || stored == Some(m.pc.snapshot) || cached == Some(m.pc.snapshot))
      && (m.pc.Served? ==> op.pc.Streaming? && m.pc.sent == op.pc.snapshot)
  {
    if op.pc.Streaming? && |op.pc.sent| == |op.pc.snapshot| { assert op.pc.sent == op.pc.snapshot; }
  }

  /** The moving operation only ever opens or serves whole objects. */
  lemma MoveSees(s: State, id: OpId, move: Move)
    requires id in s.ops && !Final(s.ops[id].pc) && OpsOk(s) && VisibleOk(s)
    ensures var m := MoveOf(s, s.ops[id], move); SeesComplete(s, Op(s.ops[id].request, m.pc, m.temp))
  {
    var op := s.ops[id];
    assert OpOk(s.config, op) && SeesComplete(s, op);
    if op.request.Get? && !move.Abandon? {
      GetSees(s.config, op, Lookup(s.primary, op.request.key), Lookup(s.cache, op.request.key), move);
    }
  }

  lemma AccountsKept(s: State, id: OpId, move: Move, key: string, change: Change)
    requires id in s.ops && !Final(s.ops[id].pc) && Accounts(s.config, s.ops[id], key, change)
    ensures var m := MoveOf(s, s.ops[id], move);
      Accounts(s.config, Op(s.ops[id].request, m.pc, m.temp), key, change)
  {
  }

  /** After a move of operation `id`, which changed nothing or recorded `change` under its key. */
  ghost predicate Acted(s: State, t: State, id: OpId, move: Move) {
    id in s.ops && !Final(s.ops[id].pc) && t == Step(s, Act(id, move))
  }

  lemma ActOps(s: State, t: State, id: OpId, move: Move)
    requires Acted(s, t, id, move) && OpsOk(s) && VisibleOk(s)
    ensures OpsOk(t)
  {
    MoveOk(s, id, move);
    MoveSees(s, id, move);
    StepExtends(s, Act(id, move));
    forall other | other in t.ops ensures OpOk(t.config, t.ops[other]) && SeesComplete(t, t.ops[other]) {
      SeesKept(s, t, t.ops[other]);
    }
  }

  /** A new event by an operation that accounts for it leaves the stores with whole objects. */
  lemma EventVisible(s: State, t: State, e: Event)
    requires Extends(s, t) && VisibleOk(s)
    requires t.primary == OnPrimary(s.primary, e) && t.cache == OnCache(s.cache, e)
    requires e.id in t.ops && Accounts(t.config, t.ops[e.id], e.key, e.change) && SeesComplete(t, t.ops[e.id])
    ensures VisibleOk(t)
  {
    AllCompleteKept(s, t);
    if e.change.Publish? { assert IsBodyOf(t.config, t.ops[e.id], e.key, e.change.content); }
    if e.change.Promote? { assert Complete(t, e.key, e.change.content); }
  }

  lemma ActVisible(s: State, t: State, id: OpId, move: Move)
    requires Acted(s, t, id, move) && OpsOk(s) && VisibleOk(s) && OpsOk(t)
    ensures VisibleOk(t)
  {
    MoveOk(s, id, move);
    StepExtends(s, Act(id, move));
    var m := MoveOf(s, s.ops[id], move);
    if m.change.Some? {
      EventVisible(s, t, Event(id, KeyOf(s.ops[id]), m.change.value));
    } else {
      StoresKept(s, t);
    }
  }

  lemma ActAccounts(s: State, t: State, id: OpId, move: Move)
    requires Acted(s, t, id, move) && OpsOk(s)
    requires forall e :: e in s.log ==> e.id in s.ops && Accounts(s.config, s.ops[e.id], e.key, e.change)
    ensures forall e :: e in t.log ==> e.id in t.ops && Accounts(t.config, t.ops[e.id], e.key, e.change)
  {
    MoveOk(s, id, move);
    forall e | e in s.log ensures Accounts(t.config, t.ops[e.id], e.key, e.change) {
      if e.id == id { AccountsKept(s, id, move, e.key, e.change); }
    }
  }

  lemma ActWon(s: State, t: State, id: OpId, move: Move)
    requires Acted(s, t, id, move) && OpsOk(s)
    requires forall other :: other in s.ops && Won(s.ops[other]) ==> PublishOf(other, s.ops[other]) in s.log
    ensures forall other :: other in t.ops && Won(t.ops[other]) ==> PublishOf(other, t.ops[other]) in t.log
  {
    var op := s.ops[id];
    assert OpOk(s.config, op);
    if op.request.Put? && !move.Abandon? {
      PutMoveOk(s.config, op, Lookup(s.primary, KeyOf(op)), Lookup(s.cache, KeyOf(op)), move);
    }
  }

  lemma ActReplay(s: State, t: State, id: OpId, move: Move)
    requires Acted(s, t, id, move)
    requires s.primary == ReplayPrimary(s.initial, s.log) && s.cache == ReplayCache(s.log)
    ensures t.primary == ReplayPrimary(t.initial, t.log) && t.cache == ReplayCache(t.log)
  {
    var m := MoveOf(s, s.ops[id], move);
    if m.change.Some? { assert t.log[..|t.log| - 1] == s.log; }
  }

  lemma ArriveOps(s: State, id: OpId, request: Request)
    requires OpsOk(s)
    ensures OpsOk(Step(s, Arrive(id, request)))
  {
    var t := Step(s, Arrive(id, request));
    forall other | other in t.ops ensures OpOk(t.config, t.ops[other]) && SeesComplete(t, t.ops[other]) {
      if other in s.ops { SeesKept(s, t, s.ops[other]); }
    }
  }

  lemma ArriveLog(s: State, id: OpId, request: Request)
    requires LogOk(s)
    ensures LogOk(Step(s, Arrive(id, request)))
  {
    var t := Step(s, Arrive(id, request));
    forall e | e in t.log ensures e.id in t.ops && Accounts(t.config, t.ops[e.id], e.key, e.change) {
      assert e.id in s.ops && t.ops[e.id] == s.ops[e.id];
    }
  }

  lemma StepKeeps(s: State, a: Action)
    requires Inv(s)
    ensures Inv(Step(s, a))
  {
    match a
    case Arrive(id, request) =>
      ArriveOps(s, id, request);
      StoresKept(s, Step(s, a));
      ArriveLog(s, id, request);
    case Act(id, move) =>
      if id in s.ops && !Final(s.ops[id].pc) {
        var t := Step(s, a);
        ActOps(s, t, id, move);
        ActVisible(s, t, id, move);
        ActAccounts(s, t, id, move);
        ActWon(s, t, id, move);
        ActReplay(s, t, id, move);
      }
  }

  lemma {:induction false} RunKeeps(s: State, actions: seq<Action>)
    requires Init(s)
    ensures Inv(Run(s, actions)) && Extends(s, Run(s, actions))
  {
    if actions == [] {
    } else {
      var before := Run(s, actions[..|actions| - 1]);
      RunKeeps(s, actions[..|actions| - 1]);
      StepKeeps(before, actions[|actions| - 1]);
      StepExtends(before, actions[|actions| - 1]);
    }
  }

  // ---------------------------------------------------------------------------------------------
  // What that means.

  /**
    Publication is atomic and bounded: in every run every visible object is either the one the
    store started with or the whole body of one PUT, at most `maxUpload` bytes long.
  */
  lemma AtomicBoundedPublication(s: State, actions: seq<Action>, key: string)
    requires Init(s) && key in Run(s, actions).primary
    ensures var t := Run(s, actions);
      || (key in s.initial && t.primary[key] == s.initial[key])
      || exists id :: id in t.ops && t.ops[id].request.Put? && t.ops[id].request.key == key &&
           !t.ops[id].request.bodyFails && |t.primary[key]| <= s.config.maxUpload &&
           t.primary[key] == Concat(t.ops[id].request.chunks)
  {
    RunKeeps(s, actions);
    var t := Run(s, actions);
    assert Complete(t, key, t.primary[key]);
    if !(key in s.initial && t.primary[key] == s.initial[key]) {
      var id :| id in t.ops && IsBodyOf(t.config, t.ops[id], key, t.primary[key]);
    }
  }

  /**
    No run leaves a partial file in the cache, overwrites, deletions and faults included, and no
    run caches a key that the policy excludes.
  */
  lemma CacheNeverPartial(s: State, actions: seq<Action>, key: string)
    requires Init(s) && key in Run(s, actions).cache
    ensures var t := Run(s, actions);
      && t.config.caching && IsCacheable(key)
      && (|| (key in s.initial && t.cache[key] == s.initial[key])
          || exists id :: id in t.ops && t.ops[id].request.Put? && t.ops[id].request.key == key &&
               t.cache[key] == Concat(t.ops[id].request.chunks))
  {
    RunKeeps(s, actions);
    var t := Run(s, actions);
    assert Complete(t, key, t.cache[key]);
    if !(key in s.initial && t.cache[key] == s.initial[key]) {
      var id :| id in t.ops && IsBodyOf(t.config, t.ops[id], key, t.cache[key]);
    }
  }

  /**
    The log explains everything that is visible, and an operation that failed before it published is not
    in it: it published and promoted nothing, at any time.
  */
  lemma FailedChangedNothing(s: State, actions: seq<Action>, id: OpId)
    requires Init(s) && id in Run(s, actions).ops
    requires var op := Run(s, actions).ops[id]; op.pc.Failed? && !op.request.Delete?
    ensures var t := Run(s, actions);
      && t.primary == ReplayPrimary(s.initial, t.log) && t.cache == ReplayCache(t.log)
      && forall e :: e in t.log ==> e.id != id
  {
    RunKeeps(s, actions);
  }

  /** The error that the client is told; it does not see whether its object is visible. */
  function Reported(pc: Pc): Option<Failure> {
    match pc
    case Failed(why) => Some(why)
    case Unconfirmed(_) => Some(StorageError)
    case _ => None
  }

  ghost predicate InLog(s: State, id: OpId) {
    exists e :: e in s.log && e.id == id
  }

  /**
    What an error says about the stores. After any error but a storage error, the operation changed
    nothing. After a storage error it is in the log exactly when it had published before the fault,
    and then its whole body was published.
  */
  lemma ErrorAndLog(s: State, actions: seq<Action>, id: OpId)
    requires Init(s) && id in Run(s, actions).ops
    requires var op := Run(s, actions).ops[id]; Reported(op.pc).Some? && !op.request.Delete?
    ensures var t := Run(s, actions); var op := t.ops[id];
      && (Reported(op.pc) != Some(StorageError) ==> !InLog(t, id))
      && (InLog(t, id) <==> op.pc.Unconfirmed?)
      && (op.pc.Unconfirmed? ==> op.request.Put? && PublishOf(id, op) in t.log)
  {
    RunKeeps(s, actions);
    var t := Run(s, actions);
    assert OpOk(t.config, t.ops[id]);
    if t.ops[id].pc.Unconfirmed? { assert Won(t.ops[id]); }
  }

  lemma PutFaultReports(config: Config, op: Op, stored: Option<Bytes>, cached: Option<Bytes>, move: Move)
    requires op.request.Put? && PutOk(config, op) && Reported(op.pc).None?
    requires Reported(PutMove(config, op, stored, cached, move).pc) == Some(StorageError)
    ensures move.Fault? && PutMove(config, op, stored, cached, move).change.None?
    ensures PutMove(config, op, stored, cached, move).pc.Unconfirmed? <==> Won(op)
  {
  }

  lemma GetFaultReports(config: Config, op: Op, stored: Option<Bytes>, cached: Option<Bytes>, move: Move)
    requires op.request.Get? && GetOk(config, op) && Reported(op.pc).None?
    requires Reported(GetMove(config, op, stored, cached, move).pc) == Some(StorageError)
    ensures var m := GetMove(config, op, stored, cached, move); move.Fault? && m.change.None? && m.pc.Failed?
  {
  }

  /** Only a fault makes an operation report a storage error, and it decides nothing else. */
  lemma FaultReports(s: State, id: OpId, a: Action)
    requires id in s.ops && !s.ops[id].request.Delete? && OpOk(s.config, s.ops[id])
    requires Reported(s.ops[id].pc).None? && Reported(Step(s, a).ops[id].pc) == Some(StorageError)
    ensures a == Act(id, Fault) && Step(s, a).log == s.log
    ensures Step(s, a).ops[id].pc.Unconfirmed? <==> Won(s.ops[id])
  {
    var op := s.ops[id];
    if a.Act? && a.id == id && !Final(op.pc) && !a.move.Abandon? {
      var stored, cached := Lookup(s.primary, KeyOf(op)), Lookup(s.cache, KeyOf(op));
      if op.request.Put? {
        PutFaultReports(s.config, op, stored, cached, a.move);
      } else {
        GetFaultReports(s.config, op, stored, cached, a.move);
      }
    }
  }

  /** A reported error is final. */
  lemma ReportedStays(s: State, id: OpId, a: Action)
    requires id in s.ops && Reported(s.ops[id].pc).Some?
    ensures Step(s, a).ops[id] == s.ops[id]
  {
  }

  /** The run up to its last step, in which the operation had not reported anything yet. */
  lemma FaultNow(s: State, actions: seq<Action>, id: OpId)
    requires Init(s) && actions != [] && id in Run(s, actions[..|actions| - 1]).ops
    requires Reported(Run(s, actions[..|actions| - 1]).ops[id].pc).None?
    requires var op := Run(s, actions).ops[id]; Reported(op.pc) == Some(StorageError) && !op.request.Delete?
    ensures actions[|actions| - 1] == Act(id, Fault)
    ensures Run(s, actions).ops[id].pc.Unconfirmed? <==> Won(Run(s, actions[..|actions| - 1]).ops[id])
  {
    var before := Run(s, actions[..|actions| - 1]);
    RunKeeps(s, actions[..|actions| - 1]);
    StepExtends(before, actions[|actions| - 1]);
    FaultReports(before, id, actions[|actions| - 1]);
  }

  /** An operation that reports an error was there before the last step. */
  lemma ReporterArrived(s: State, a: Action, id: OpId)
    requires id in Step(s, a).ops && Reported(Step(s, a).ops[id].pc).Some?
    ensures id in s.ops
  {
  }

  /**
    The moment of a storage error: step `n` is the fault, and the operation is in the log of the whole
    run exactly when it was past its publishing step at that moment.
  */
  lemma {:induction false} StorageErrorMoment(s: State, actions: seq<Action>, id: OpId) returns (n: nat)
    requires Init(s) && id in Run(s, actions).ops
    requires var op := Run(s, actions).ops[id]; Reported(op.pc) == Some(StorageError) && !op.request.Delete?
    ensures n < |actions| && actions[n] == Act(id, Fault) && id in Run(s, actions[..n]).ops
    ensures InLog(Run(s, actions), id) <==> Won(Run(s, actions[..n]).ops[id])
  {
    var init := actions[..|actions| - 1];
    ReporterArrived(Run(s, init), actions[|actions| - 1], id);
    ErrorAndLog(s, actions, id);
    if Reported(Run(s, init).ops[id].pc).Some? {
      ReportedStays(Run(s, init), id, actions[|actions| - 1]);
      ErrorAndLog(s, init, id);
      n := StorageErrorMoment(s, init, id);
      assert init[..n] == actions[..n];
    } else {
      n := |init|;
      FaultNow(s, actions, id);
    }
  }

  /** A PUT answered 201 received its whole body, within the limit, and made all of it visible. */
  lemma CreatedIsWhole(s: State, actions: seq<Action>, id: OpId)
    requires Init(s) && id in Run(s, actions).ops && Run(s, actions).ops[id].pc.Created?
    ensures var r := Run(s, actions).ops[id].request;
      r.Put? && !r.bodyFails && |Concat(r.chunks)| <= s.config.maxUpload &&
      Event(id, r.key, Publish(Concat(r.chunks))) in Run(s, actions).log
  {
    RunKeeps(s, actions);
    assert OpOk(s.config, Run(s, actions).ops[id]);
  }
}
