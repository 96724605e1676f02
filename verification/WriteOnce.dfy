/**
  Keys that are only ever written by exclusive PUTs and never deleted: the cache agrees with the
  primary, at most one PUT wins, and what a reader gets is what it was announced, whatever else
  the operations do, in whatever order, and wherever they fail.
*/
module WriteOnce {
  import opened Basics
  import opened Protocol
  import opened ProtocolSafety

  predicate Exclusive(request: Request, key: string) {
    match request
    case Put(k, _, _, _, allowOverwrite) => k == key ==> !allowOverwrite
    case Get(_) => true
    case Delete(keys, _) => key !in keys
  }

  /** Every operation so far writes `key` exclusively, reads it, or leaves it alone. */
  ghost predicate WriteOnceKey(s: State, key: string) {
    forall id :: id in s.ops ==> Exclusive(s.ops[id].request, key)
  }

  predicate Reads(op: Op, key: string) {
    op.request == Get(key)
  }

  predicate Writes(op: Op, key: string) {
    op.request.Put? && op.request.key == key
  }

  /** What an operation on the key knows, given what the primary stores under it. */
  predicate Knows(op: Op, stored: Option<Bytes>) {
    match op.request
    case Put(_, chunks, _, _, _) => Won(op) ==> stored == Some(Concat(chunks))
    case Get(_) =>
      (match op.pc
       case Headed(size) => stored.Some? && size == |stored.value|
       case Routed(size, _) => stored.Some? && size == |stored.value|
       case Streaming(size, _, snapshot, _) => stored == Some(snapshot) && size == |snapshot|
       case Served(size, sent) => stored == Some(sent) && size == |sent|
       case _ => true)
    case Delete(_, _) => true
  }

  predicate Wins(s: State, id: OpId, key: string) {
    id in s.ops && Writes(s.ops[id], key) && Won(s.ops[id])
  }

  ghost predicate OnceInv(s: State, key: string) {
    var stored := Lookup(s.primary, key);
    && (key in s.cache ==> stored == Some(s.cache[key]))
    && (forall id :: id in s.ops && (Reads(s.ops[id], key) || Writes(s.ops[id], key)) ==> Knows(s.ops[id], stored))
    && (forall i, j :: Wins(s, i, key) && Wins(s, j, key) ==> i == j)
  }

  function StoredAfter(stored: Option<Bytes>, change: Option<Change>): Option<Bytes> {
    if change.Some? && change.value.Publish? then Some(change.value.content) else stored
  }

  function CachedAfter(cached: Option<Bytes>, change: Option<Change>): Option<Bytes> {
    if change.Some? && change.value.Promote? then Some(change.value.content) else cached
  }

  /** An exclusive PUT publishes only where nothing is stored, and caches only what is stored. */
  lemma PutKnows(config: Config, op: Op, stored: Option<Bytes>, cached: Option<Bytes>, move: Move)
    requires op.request.Put? && !op.request.allowOverwrite && PutOk(config, op) && !Final(op.pc)
    requires Knows(op, stored) && (cached.Some? ==> cached == stored)
    ensures var m := PutMove(config, op, stored, cached, move);
      var after := Op(op.request, m.pc, m.temp);
      && Knows(after, StoredAfter(stored, m.change))
      && (CachedAfter(cached, m.change).Some? ==> CachedAfter(cached, m.change) == StoredAfter(stored, m.change))
      && (m.change.Some? && m.change.value.Publish? ==> stored.None?)
      && (m.change.Some? ==> m.change.value.Publish? || m.change.value.Promote?)
      && (Won(after) ==> Won(op) || stored.None?)
  {
    PutMoveOk(config, op, stored, cached, move);
    if op.pc.Populating? && op.temp.Some? && |op.temp.value| == |op.pc.body| { assert op.temp.value == op.pc.body; }
  }

  lemma GetKnows(config: Config, op: Op, stored: Option<Bytes>, cached: Option<Bytes>, move: Move)
    requires op.request.Get? && GetOk(config, op) && !Final(op.pc)
    requires Knows(op, stored) && (cached.Some? ==> cached == stored)
    ensures var m := GetMove(config, op, stored, cached, move);
      && Knows(Op(op.request, m.pc, m.temp), stored)
      && (CachedAfter(cached, m.change).Some? ==> CachedAfter(cached, m.change) == stored)
      && (m.change.Some? ==> m.change.value.Promote?)
  {
    if op.pc.Streaming? && |op.pc.sent| == |op.pc.snapshot| { assert op.pc.sent == op.pc.snapshot; }
  }

  /** A move of an operation on the key itself. */
  lemma MoveKnows(s: State, id: OpId, move: Move, key: string)
    requires OpsOk(s) && OnceInv(s, key) && WriteOnceKey(s, key)
    requires id in s.ops && !Final(s.ops[id].pc) && (Reads(s.ops[id], key) || Writes(s.ops[id], key))
    ensures var m := MoveOf(s, s.ops[id], move);
      var stored, cached := Lookup(s.primary, key), Lookup(s.cache, key);
      var after := Op(s.ops[id].request, m.pc, m.temp);
      && Knows(after, StoredAfter(stored, m.change))
      && (CachedAfter(cached, m.change).Some? ==> CachedAfter(cached, m.change) == StoredAfter(stored, m.change))
      && (m.change.Some? && m.change.value.Publish? ==> stored.None?)
      && (m.change.Some? ==> m.change.value.Publish? || m.change.value.Promote?)
      && (Won(after) ==> Won(s.ops[id]) || stored.None?)
  {
    var op := s.ops[id];
    assert OpOk(s.config, op) && Exclusive(op.request, key);
    if !move.Abandon? {
      if op.request.Put? {
        PutKnows(s.config, op, Lookup(s.primary, key), Lookup(s.cache, key), move);
      } else {
        GetKnows(s.config, op, Lookup(s.primary, key), Lookup(s.cache, key), move);
      }
    }
  }

  /** A move of an operation on the key leaves the stores as its change says. */
  lemma ActOnKey(s: State, t: State, id: OpId, move: Move, key: string)
    requires Acted(s, t, id, move) && KeyOf(s.ops[id]) == key
    requires var m := MoveOf(s, s.ops[id], move); m.change.Some? ==> m.change.value.Publish? || m.change.value.Promote?
    ensures var m := MoveOf(s, s.ops[id], move);
      && Lookup(t.primary, key) == StoredAfter(Lookup(s.primary, key), m.change)
      && Lookup(t.cache, key) == CachedAfter(Lookup(s.cache, key), m.change)
  {
  }

  lemma ActElsewhere(s: State, t: State, id: OpId, move: Move, key: string)
    requires Acted(s, t, id, move) && OpOk(s.config, s.ops[id]) && Exclusive(s.ops[id].request, key)
    requires !Reads(s.ops[id], key) && !Writes(s.ops[id], key)
    ensures Lookup(t.primary, key) == Lookup(s.primary, key) && Lookup(t.cache, key) == Lookup(s.cache, key)
  {
    MoveOk(s, id, move);
  }

  lemma KnowsMore(op: Op, before: Option<Bytes>, after: Option<Bytes>)
    requires Knows(op, before) && (before.Some? ==> after == before)
    ensures Knows(op, after)
  {
  }

  /** What one operation's step must establish for the invariant of the key. */
  lemma OnceFromStep(s: State, t: State, id: OpId, key: string)
    requires OnceInv(s, key) && id in s.ops && id in t.ops && t.ops == s.ops[id := t.ops[id]]
    requires t.ops[id].request == s.ops[id].request
    requires var before, after := Lookup(s.primary, key), Lookup(t.primary, key);
      && (before.Some? ==> after == before)
      && (key in t.cache ==> after == Some(t.cache[key]))
      && (Reads(t.ops[id], key) || Writes(t.ops[id], key) ==> Knows(t.ops[id], after))
      && (Wins(t, id, key) ==> Wins(s, id, key) || before.None?)
    ensures OnceInv(t, key)
  {
    var before, after := Lookup(s.primary, key), Lookup(t.primary, key);
    forall other | other in t.ops && (Reads(t.ops[other], key) || Writes(t.ops[other], key))
      ensures Knows(t.ops[other], after)
    {
      if other != id { KnowsMore(t.ops[other], before, after); }
    }
    forall i, j | Wins(t, i, key) && Wins(t, j, key) ensures i == j {
      if i != id { assert Wins(s, i, key) && Knows(s.ops[i], before); }
      if j != id { assert Wins(s, j, key) && Knows(s.ops[j], before); }
    }
  }

  lemma ActOnce(s: State, t: State, id: OpId, move: Move, key: string)
    requires Acted(s, t, id, move) && OpsOk(s) && OnceInv(s, key) && WriteOnceKey(s, key)
    ensures OnceInv(t, key)
  {
    if Reads(s.ops[id], key) || Writes(s.ops[id], key) {
      MoveKnows(s, id, move, key);
      ActOnKey(s, t, id, move, key);
    } else {
      ActElsewhere(s, t, id, move, key);
      assert key in t.cache ==> Lookup(t.cache, key) == Lookup(s.cache, key);
    }
    OnceFromStep(s, t, id, key);
  }

  lemma ArriveOnce(s: State, id: OpId, request: Request, key: string)
    requires OnceInv(s, key)
    ensures OnceInv(Step(s, Arrive(id, request)), key)
  {
    var t := Step(s, Arrive(id, request));
    forall i, j | Wins(t, i, key) && Wins(t, j, key) ensures i == j {
      assert Wins(s, i, key) && Wins(s, j, key);
    }
  }

  lemma StepOnce(s: State, a: Action, key: string)
    requires Inv(s) && OnceInv(s, key) && WriteOnceKey(s, key)
    ensures OnceInv(Step(s, a), key)
  {
    match a
    case Arrive(id, request) => ArriveOnce(s, id, request, key);
    case Act(id, move) =>
      if id in s.ops && !Final(s.ops[id].pc) { ActOnce(s, Step(s, a), id, move, key); }
  }

  /** Requests never change, so a key that is write-once at the end of a run always was. */
  lemma {:induction false} RunOnce(s: State, actions: seq<Action>, key: string)
    requires Init(s) && WriteOnceKey(Run(s, actions), key)
    ensures OnceInv(Run(s, actions), key)
  {
    if actions == [] {
    } else {
      var init, last := actions[..|actions| - 1], actions[|actions| - 1];
      StepExtends(Run(s, init), last);
      forall id | id in Run(s, init).ops ensures Exclusive(Run(s, init).ops[id].request, key) {
        assert id in Run(s, actions).ops;
      }
      RunOnce(s, init, key);
      RunKeeps(s, init);
      StepOnce(Run(s, init), last, key);
    }
  }

  // ---------------------------------------------------------------------------------------------
  // What that means.

  /** Cache coherence: a finished cache file of a write-once key is the primary's object, byte for byte. */
  lemma CacheCoherent(s: State, actions: seq<Action>, key: string)
    requires Init(s) && WriteOnceKey(Run(s, actions), key) && key in Run(s, actions).cache
    ensures var t := Run(s, actions); key in t.primary && t.cache[key] == t.primary[key]
  {
    RunOnce(s, actions, key);
  }

  predicate EndedStored(pc: Pc) {
    pc.Created? || pc.Unconfirmed?
  }

  /**
    Write-once: however many PUTs passed the existence check, at most one is answered 201; and if one
    is answered with a storage error after it published, none is.
  */
  lemma AtMostOneCreated(s: State, actions: seq<Action>, key: string, i: OpId, j: OpId)
    requires Init(s) && WriteOnceKey(Run(s, actions), key)
    requires var t := Run(s, actions);
      && i in t.ops && Writes(t.ops[i], key) && EndedStored(t.ops[i].pc)
      && j in t.ops && Writes(t.ops[j], key) && EndedStored(t.ops[j].pc)
    ensures i == j
  {
    RunOnce(s, actions, key);
    assert Wins(Run(s, actions), i, key) && Wins(Run(s, actions), j, key);
  }

  lemma {:induction false} FinalStays(s: State, actions: seq<Action>, id: OpId)
    requires id in s.ops && Final(s.ops[id].pc)
    ensures id in Run(s, actions).ops && Run(s, actions).ops[id] == s.ops[id]
  {
    if actions != [] { FinalStays(s, actions[..|actions| - 1], id); }
  }

  lemma {:induction false} RunSplit(s: State, first: seq<Action>, second: seq<Action>)
    ensures Run(s, first + second) == Run(Run(s, first), second)
  {
    if second == [] {
      assert first + second == first;
    } else {
      var all := first + second;
      assert all[..|all| - 1] == first + second[..|second| - 1];
      RunSplit(s, first, second[..|second| - 1]);
    }
  }

  /** From its 201 on, the key holds the winner's whole body for as long as nobody deletes it. */
  lemma WinnerStays(s: State, actions: seq<Action>, more: seq<Action>, key: string, id: OpId)
    requires Init(s) && id in Run(s, actions).ops
    requires Writes(Run(s, actions).ops[id], key) && Run(s, actions).ops[id].pc.Created?
    requires WriteOnceKey(Run(s, actions + more), key)
    ensures var t := Run(s, actions + more);
      key in t.primary && t.primary[key] == Concat(Run(s, actions).ops[id].request.chunks)
  {
    RunSplit(s, actions, more);
    FinalStays(Run(s, actions), more, id);
    RunOnce(s, actions + more, key);
    assert Knows(Run(s, actions + more).ops[id], Lookup(Run(s, actions + more).primary, key));
  }

  /** No unfinished operation deletes the key or may overwrite it. */
  ghost predicate Settled(s: State, key: string) {
    forall id :: id in s.ops && !Final(s.ops[id].pc) ==> Exclusive(s.ops[id].request, key)
  }

  /** Nor does any operation that arrives. */
  predicate ArrivalsExclusive(actions: seq<Action>, key: string) {
    forall i :: 0 <= i < |actions| && actions[i].Arrive? ==> Exclusive(actions[i].request, key)
  }

  /** A step of an operation that writes the key only exclusively leaves a stored object alone. */
  lemma ActLeaves(s: State, t: State, id: OpId, move: Move, key: string)
    requires Acted(s, t, id, move) && OpOk(s.config, s.ops[id]) && Exclusive(s.ops[id].request, key) && key in s.primary
    ensures Lookup(t.primary, key) == Lookup(s.primary, key)
  {
    MoveOk(s, id, move);
  }

  lemma StepLeaves(s: State, a: Action, key: string)
    requires OpsOk(s) && Settled(s, key) && key in s.primary && (a.Arrive? ==> Exclusive(a.request, key))
    ensures Settled(Step(s, a), key) && Lookup(Step(s, a).primary, key) == Lookup(s.primary, key)
  {
    if a.Act? && a.id in s.ops && !Final(s.ops[a.id].pc) { ActLeaves(s, Step(s, a), a.id, a.move, key); }
  }

  lemma LastStep(s: State, actions: seq<Action>, more: seq<Action>)
    requires more != []
    ensures Run(s, actions + more) == Step(Run(s, actions + more[..|more| - 1]), more[|more| - 1])
  {
    RunSplit(s, actions, more);
    RunSplit(s, actions, more[..|more| - 1]);
  }

  /** From any moment on, a stored object stays while no unfinished or later operation deletes or overwrites it. */
  lemma {:induction false} StoredStays(s: State, actions: seq<Action>, more: seq<Action>, key: string)
    requires Init(s) && Settled(Run(s, actions), key) && ArrivalsExclusive(more, key) && key in Run(s, actions).primary
    ensures var t := Run(s, actions + more);
      Settled(t, key) && Lookup(t.primary, key) == Lookup(Run(s, actions).primary, key)
  {
    if more == [] {
      assert actions + more == actions;
    } else {
      var init := more[..|more| - 1];
      StoredStays(s, actions, init, key);
      RunKeeps(s, actions + init);
      LastStep(s, actions, more);
      StepLeaves(Run(s, actions + init), more[|more| - 1], key);
    }
  }

  /**
    From its publishing step on, the key holds the winner's whole body for as long as no operation that is
    still at work, or arrives later, deletes or overwrites it. What happened to the key before does not matter.
  */
  lemma PublishedStays(s: State, actions: seq<Action>, more: seq<Action>, key: string, id: OpId)
    requires Init(s) && Settled(Run(s, actions), key) && ArrivalsExclusive(more, key)
    requires var log := Run(s, actions).log;
      log != [] && log[|log| - 1].id == id && log[|log| - 1].key == key && log[|log| - 1].change.Publish?
    ensures var t := Run(s, actions + more);
      id in t.ops && Writes(t.ops[id], key) && key in t.primary && t.primary[key] == Concat(t.ops[id].request.chunks)
  {
    RunKeeps(s, actions);
    RunKeeps(s, actions + more);
    StoredStays(s, actions, more, key);
    var now := Run(s, actions);
    var e := now.log[|now.log| - 1];
    assert e in now.log;
    RunSplit(s, actions, more);
    RunExtends(now, more);
  }

  lemma {:induction false} RunExtends(s: State, actions: seq<Action>)
    ensures Extends(s, Run(s, actions))
  {
    if actions != [] {
      RunExtends(s, actions[..|actions| - 1]);
      StepExtends(Run(s, actions[..|actions| - 1]), actions[|actions| - 1]);
    }
  }

  /** A GET that ends normally sent the stored object in order, and as many bytes as it announced. */
  lemma ServedAsAnnounced(s: State, actions: seq<Action>, key: string, id: OpId)
    requires Init(s) && WriteOnceKey(Run(s, actions), key)
    requires id in Run(s, actions).ops && Reads(Run(s, actions).ops[id], key) && Run(s, actions).ops[id].pc.Served?
    ensures var t := Run(s, actions); var pc := t.ops[id].pc;
      pc.size == |pc.sent| && key in t.primary && pc.sent == t.primary[key]
  {
    RunOnce(s, actions, key);
    assert Knows(Run(s, actions).ops[id], Lookup(Run(s, actions).primary, key));
  }

  /** At every moment, what a GET has sent is a prefix of the stored object, whichever side serves it. */
  lemma SentIsPrefix(s: State, actions: seq<Action>, key: string, id: OpId)
    requires Init(s) && WriteOnceKey(Run(s, actions), key)
    requires id in Run(s, actions).ops && Reads(Run(s, actions).ops[id], key) && Run(s, actions).ops[id].pc.Streaming?
    ensures var t := Run(s, actions); var pc := t.ops[id].pc;
      key in t.primary && pc.sent <= t.primary[key] && pc.size == |t.primary[key]|
  {
    RunOnce(s, actions, key);
    RunKeeps(s, actions);
    assert Knows(Run(s, actions).ops[id], Lookup(Run(s, actions).primary, key));
    assert OpOk(s.config, Run(s, actions).ops[id]);
  }

  // ---------------------------------------------------------------------------------------------
  // Why a storage error does not say that nothing was stored.

  /** The state after a move that `m` describes. */
  function After(s: State, id: OpId, m: Moved): State
    requires id in s.ops
  {
    var next := s.(ops := s.ops[id := Op(s.ops[id].request, m.pc, m.temp)]);
    if m.change.Some? then Record(next, Event(id, KeyOf(s.ops[id]), m.change.value)) else next
  }

  lemma RunArrive(s: State, actions: seq<Action>, id: OpId, request: Request) returns (more: seq<Action>)
    ensures more == actions + [Arrive(id, request)] && Run(s, more) == Step(Run(s, actions), Arrive(id, request))
  {
    more := actions + [Arrive(id, request)];
    assert more[..|more| - 1] == actions;
  }

  lemma RunAct(s: State, actions: seq<Action>, t: State, id: OpId, move: Move, m: Moved) returns (more: seq<Action>)
    requires t == Run(s, actions) && id in t.ops && !Final(t.ops[id].pc) && MoveOf(t, t.ops[id], move) == m
    ensures Run(s, more) == After(t, id, m)
  {
    more := actions + [Act(id, move)];
    assert more[..|more| - 1] == actions;
  }

  const EMPTY: State := State(Config(10, false), map[], map[], map[], map[], [])

  const UPLOAD: Request := Put("b", [[1]], false, None, false)

  function Uploaded(pc: Pc): State {
    EMPTY.(ops := map[0 := Op(UPLOAD, pc, None)])
  }

  lemma UploaderReceives() returns (actions: seq<Action>)
    ensures Run(EMPTY, actions) == Uploaded(Uploading([1], [1]))
  {
    var none: Bytes := [];
    assert none + [1] == [1];
    actions := RunArrive(EMPTY, [], 0, UPLOAD);
    actions := RunAct(EMPTY, actions, Uploaded(Start), 0, Advance, Moved(CheckingPrimary, None, None));
    actions := RunAct(EMPTY, actions, Uploaded(CheckingPrimary), 0, Advance, Moved(Receiving([], 0), None, None));
    actions := RunAct(EMPTY, actions, Uploaded(Receiving([], 0)), 0, Advance, Moved(Receiving([1], 1), None, None));
    actions := RunAct(EMPTY, actions, Uploaded(Receiving([1], 1)), 0, Advance, Moved(Uploading([1], [1]), None, None));
  }

  /**
    An upload that is answered with a storage error although its object is stored: the link succeeds, and
    removing the temp file behind it fails.
  */
  lemma StoredDespiteError() returns (actions: seq<Action>)
    ensures Init(EMPTY)
    ensures var t := Run(EMPTY, actions);
      && 0 in t.ops && t.ops[0] == Op(UPLOAD, Unconfirmed([1]), None) && Reported(t.ops[0].pc) == Some(StorageError)
      && t.primary == map["b" := [1]]
  {
    actions := UploaderReceives();
    actions := RunAct(EMPTY, actions, Uploaded(Uploading([1], [1])), 0, Advance,
                      Moved(Published([1]), None, Some(Publish([1]))));
    var t := Run(EMPTY, actions);
    actions := RunAct(EMPTY, actions, t, 0, Fault, Moved(Unconfirmed([1]), None, None));
  }
}
