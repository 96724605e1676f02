/**
  The storage protocol as a state machine: any number of client operations advance one small
  step at a time, in any order, over one primary store and one cache directory.

  An operation can be interrupted between any two steps. `Fault` is an I/O failure that ends the
  operation, `CacheFault` a cache failure that the code tolerates, `Abandon` a client that goes
  away and leaves its temp file behind. Every fault is a move of the machine, so a run chooses
  freely where faults happen.
*/
module Protocol {
  import opened Basics
  import opened CachePolicy

  type OpId = nat

  datatype Config = Config(maxUpload: nat, caching: bool)

  datatype Request =
    | Put(key: string, chunks: seq<Bytes>, bodyFails: bool, declared: Option<nat>, allowOverwrite: bool)
    | Get(key: string)
    | Delete(keys: seq<string>, single: bool)

  datatype Failure = TooLarge | BodyError | Conflict | NotFound | StorageError

  datatype Pc =
    | Start                                  // PUT and GET: look in the cache
    | CheckingPrimary                        // PUT and GET: look in the primary
    | Receiving(buffer: Bytes, next: nat)    // PUT: request body into a temp file
    | Uploading(body: Bytes, copied: Bytes)  // PUT: temp file into the primary
    | Published(body: Bytes)                 // PUT: visible, its temp file is still to be removed
    | Populating(body: Bytes)                // PUT: temp file into the cache
    | Clearing(body: Bytes)                  // PUT: the spooled body is still to be removed
    | Created                                // PUT: answered 201
    | Unconfirmed(body: Bytes)               // PUT: visible, but answered with a storage error
    | Headed(size: nat)                      // GET: Content-Length is fixed
    | Routed(size: nat, fromCache: bool)     // GET: a side is chosen, nothing is open yet
    | Streaming(size: nat, fromCache: bool, snapshot: Bytes, sent: Bytes)
    | Served(size: nat, sent: Bytes)         // GET: the stream ended normally
    | DeletingPrimary(index: nat)
    | DeletingCache(index: nat)
    | Deleted
    | Failed(why: Failure)
    | Abandoned

  /** `temp` is the temp file that the operation has in the cache directory. */
  datatype Op = Op(request: Request, pc: Pc, temp: Option<Bytes>)

  datatype Change = Publish(content: Bytes) | Promote(content: Bytes) | Erase | Evict

  /** Operation `id` changed what is visible under `key`. */
  datatype Event = Event(id: OpId, key: string, change: Change)

  datatype State = State(
    config: Config,
    initial: map<string, Bytes>,
    primary: map<string, Bytes>,
    cache: map<string, Bytes>,
    ops: map<OpId, Op>,
    log: seq<Event>)

  datatype Move = Advance | Transfer(n: nat) | Precheck | Fault | CacheFault | Abandon

  datatype Action = Arrive(id: OpId, request: Request) | Act(id: OpId, move: Move)

  // ---------------------------------------------------------------------------------------------
  // One operation's step, from what it sees of the stores.

  /** Where a step leaves the operation, and what it does to the visible objects. */
  datatype Moved = Moved(pc: Pc, temp: Option<Bytes>, change: Option<Change>)

  function To(op: Op, pc: Pc): Moved { Moved(pc, op.temp, None) }

  function Fail(why: Failure): Moved { Moved(Failed(why), None, None) }

  predicate Final(pc: Pc) {
    pc.Created? || pc.Unconfirmed? || pc.Served? || pc.Deleted? || pc.Failed? || pc.Abandoned?
  }

  predicate Cacheable(config: Config, key: string) {
    config.caching && IsCacheable(key)
  }

  /** The next `n` bytes of `whole` that a copy holding `part` has not read yet. */
  function NextBytes(whole: Bytes, part: Bytes, n: nat): Bytes {
    if |part| <= |whole| then whole[|part|..Smaller(|part| + n, |whole|)] else []
  }

  /** A PUT, which sees `stored` in the primary and `cached` in the cache under its key. */
  function PutMove(config: Config, op: Op, stored: Option<Bytes>, cached: Option<Bytes>, move: Move): Moved
    requires op.request.Put?
  {
    var r := op.request;
    match op.pc
    case Start =>
      if move.Fault? then Fail(StorageError)
      else if !move.Advance? then To(op, op.pc)
      else if r.declared.Some? && r.declared.value > config.maxUpload then Fail(TooLarge)
      else if !(Cacheable(config, r.key) && cached.Some?) then To(op, CheckingPrimary)
      else if r.allowOverwrite then To(op, Receiving([], 0))
      else Fail(Conflict)
    case CheckingPrimary =>
      if move.Fault? then Fail(StorageError)
      else if !move.Advance? then To(op, op.pc)
      else if stored.Some? && !r.allowOverwrite then Fail(Conflict)
      else To(op, Receiving([], 0))
    case Receiving(buffer, next) =>
      if move.Fault? then Fail(StorageError)
      else if move.Precheck? && !r.allowOverwrite && stored.Some? then Fail(Conflict)
      else if !move.Advance? then To(op, op.pc)
      else if next < |r.chunks| then
        if |buffer| + |r.chunks[next]| > config.maxUpload then Fail(TooLarge)
        else To(op, Receiving(buffer + r.chunks[next], next + 1))
      else if r.bodyFails then Fail(BodyError)
      else To(op, Uploading(buffer, if config.caching then [] else buffer))
    case Uploading(body, copied) =>
      if move.Fault? then Fail(StorageError)
      else if move.Precheck? && !r.allowOverwrite && stored.Some? then Fail(Conflict)
      else if move.Transfer? then To(op, Uploading(body, copied + NextBytes(body, copied, move.n)))
      else if !move.Advance? || |copied| < |body| then To(op, op.pc)
      else if !r.allowOverwrite && stored.Some? then Fail(Conflict)
      else Moved(Published(body), None, Some(Publish(copied)))
    case Published(body) =>
      if move.Fault? then Moved(Unconfirmed(body), None, None)
      else if !move.Advance? then To(op, op.pc)
      else To(op, if Cacheable(config, r.key) then Populating(body) else Clearing(body))
    case Populating(body) =>
      if move.CacheFault? then Moved(Clearing(body), None, None)
      else if op.temp.None? then Moved(op.pc, if move.Advance? then Some([]) else None, None)
      else if move.Transfer? then Moved(op.pc, Some(op.temp.value + NextBytes(body, op.temp.value, move.n)), None)
      else if move.Advance? && |op.temp.value| == |body| then Moved(Clearing(body), None, Some(Promote(op.temp.value)))
      else To(op, op.pc)
    case Clearing(body) =>
      if move.Fault? then Moved(Unconfirmed(body), None, None)
      else if move.Advance? then To(op, Created)
      else To(op, op.pc)
    case _ => To(op, op.pc)
  }

  /** A GET, which sees `stored` in the primary and `cached` in the cache under its key. */
  function GetMove(config: Config, op: Op, stored: Option<Bytes>, cached: Option<Bytes>, move: Move): Moved
    requires op.request.Get?
  {
    var cacheable := Cacheable(config, op.request.key);
    match op.pc
    case Start =>
      if move.Fault? then Fail(StorageError)
      else if !move.Advance? then To(op, op.pc)
      else if cacheable && cached.Some? then To(op, Headed(|cached.value|))
      else To(op, CheckingPrimary)
    case CheckingPrimary =>
      if move.Fault? then Fail(StorageError)
      else if !move.Advance? then To(op, op.pc)
      else if stored.Some? then To(op, Headed(|stored.value|))
      else Fail(NotFound)
    case Headed(size) =>
      if move.Fault? then Fail(StorageError)
      else if move.Advance? then To(op, Routed(size, cacheable && cached.Some?))
      else To(op, op.pc)
    case Routed(size, fromCache) =>
      var source := if fromCache then cached else stored;
      if move.Fault? then Fail(StorageError)
      else if !move.Advance? && !move.CacheFault? then To(op, op.pc)
      else if source.None? then Fail(NotFound)
      else Moved(
        Streaming(size, fromCache, source.value, []),
        if !fromCache && cacheable && move.Advance? then Some([]) else None,
        None)
    case Streaming(size, fromCache, snapshot, sent) =>
      if move.Fault? then Fail(StorageError)
      else if move.CacheFault? then Moved(op.pc, None, None)
      else if move.Transfer? then
        var chunk := NextBytes(snapshot, sent, move.n);
        Moved(
          Streaming(size, fromCache, snapshot, sent + chunk),
          if op.temp.Some? then Some(op.temp.value + chunk) else None,
          None)
      else if move.Advance? && |sent| == |snapshot| then
        Moved(Served(size, sent), None, if op.temp.Some? then Some(Promote(op.temp.value)) else None)
      else To(op, op.pc)
    case _ => To(op, op.pc)
  }

  /** A deletion, which sees `stored` in the primary under the key that it is at. */
  function DeleteMove(config: Config, op: Op, stored: Option<Bytes>, move: Move): Moved
    requires op.request.Delete?
  {
    var r := op.request;
    match op.pc
    case DeletingPrimary(i) =>
      if move.Fault? then Fail(StorageError)
      else if !move.Advance? then To(op, op.pc)
      else if i >= |r.keys| then To(op, if config.caching then DeletingCache(0) else Deleted)
      else if stored.Some? then Moved(DeletingPrimary(i + 1), None, Some(Erase))
      else if r.single then Fail(NotFound)
      else To(op, DeletingPrimary(i + 1))
    case DeletingCache(i) =>
      if move.CacheFault? && i < |r.keys| then To(op, DeletingCache(i + 1))
      else if !move.Advance? then To(op, op.pc)
      else if i >= |r.keys| then To(op, Deleted)
      else Moved(DeletingCache(i + 1), None, Some(Evict))
    case _ => To(op, op.pc)
  }

  // ---------------------------------------------------------------------------------------------
  // The whole system.

  function Lookup(m: map<string, Bytes>, key: string): Option<Bytes> {
    if key in m then Some(m[key]) else None
  }

  /** The key an operation looks at in its next step. */
  function KeyOf(op: Op): string {
    match op.request
    case Put(key, _, _, _, _) => key
    case Get(key) => key
    case Delete(keys, _) =>
      if op.pc.DeletingPrimary? && op.pc.index < |keys| then keys[op.pc.index]
      else if op.pc.DeletingCache? && op.pc.index < |keys| then keys[op.pc.index]
      else ""
  }

  function MoveOf(s: State, op: Op, move: Move): Moved {
    var stored, cached := Lookup(s.primary, KeyOf(op)), Lookup(s.cache, KeyOf(op));
    if move.Abandon? then To(op, Abandoned)
    else match op.request
      case Put(_, _, _, _, _) => PutMove(s.config, op, stored, cached, move)
      case Get(_) => GetMove(s.config, op, stored, cached, move)
      case Delete(_, _) => DeleteMove(s.config, op, stored, move)
  }

  function OnPrimary(m: map<string, Bytes>, e: Event): map<string, Bytes> {
    match e.change
    case Publish(content) => m[e.key := content]
    case Erase => m - {e.key}
    case _ => m
  }

  function OnCache(m: map<string, Bytes>, e: Event): map<string, Bytes> {
    match e.change
    case Promote(content) => m[e.key := content]
    case Evict => m - {e.key}
    case _ => m
  }

  function Record(s: State, e: Event): State {
    s.(primary := OnPrimary(s.primary, e), cache := OnCache(s.cache, e), log := s.log + [e])
  }

  /** One step of the whole system. A move that the operation cannot make changes nothing. */
  function Step(s: State, a: Action): State {
    match a
    case Arrive(id, request) =>
      if id in s.ops then s
      else s.(ops := s.ops[id := Op(request, if request.Delete? then DeletingPrimary(0) else Start, None)])
    case Act(id, move) =>
      if id !in s.ops || Final(s.ops[id].pc) then s
      else
        var op := s.ops[id];
        var m := MoveOf(s, op, move);
        var next := s.(ops := s.ops[id := Op(op.request, m.pc, m.temp)]);
        if m.change.Some? then Record(next, Event(id, KeyOf(op), m.change.value)) else next
  }

  function Run(s: State, actions: seq<Action>): State {
    if actions == [] then s else Step(Run(s, actions[..|actions| - 1]), actions[|actions| - 1])
  }

  /** The system just started: nothing in flight and an empty cache directory. */
  predicate Init(s: State) {
    s.primary == s.initial && s.cache == map[] && s.ops == map[] && s.log == []
  }
}
