/**
  Exactly when the cache is coherent in every run: which policies on a key keep a finished cache file equal
  to the primary's object, whatever the other operations do, in whatever order, and wherever they fail.
*/
module Coherence {
  import opened Basics
  import opened Protocol
  import opened ProtocolSafety
  import opened WriteOnce

  /** What may be done to a key: overwriting uploads, and deletions. */
  datatype Policy = Policy(overwrites: bool, deletes: bool)

  predicate Respects(request: Request, key: string, p: Policy) {
    match request
    case Put(k, _, _, _, allowOverwrite) => k == key && allowOverwrite ==> p.overwrites
    case Get(_) => true
    case Delete(keys, _) => key in keys ==> p.deletes
  }

  ghost predicate Respected(s: State, key: string, p: Policy) {
    forall id :: id in s.ops ==> Respects(s.ops[id].request, key, p)
  }

  predicate CoherentAt(s: State, key: string) {
    key in s.cache ==> key in s.primary && s.cache[key] == s.primary[key]
  }

  /** The system with a configuration just started. */
  predicate Starts(s: State, config: Config) {
    Init(s) && s.config == config
  }

  /** In every run whose requests respect the policy, the cache is coherent at the key. */
  ghost predicate AlwaysCoherent(config: Config, key: string, p: Policy) {
    forall s, actions :: Starts(s, config) && Respected(Run(s, actions), key, p) ==> CoherentAt(Run(s, actions), key)
  }

  lemma StrictIsCoherent(s: State, actions: seq<Action>, key: string)
    requires Init(s) && Respected(Run(s, actions), key, Policy(false, false))
    ensures CoherentAt(Run(s, actions), key)
  {
    if key in Run(s, actions).cache { CacheCoherent(s, actions, key); }
  }

  lemma UncachedIsCoherent(s: State, actions: seq<Action>, key: string)
    requires Init(s) && !Cacheable(s.config, key)
    ensures CoherentAt(Run(s, actions), key)
  {
    RunKeeps(s, actions);
    if key in Run(s, actions).cache { CacheNeverPartial(s, actions, key); }
  }

  // ---------------------------------------------------------------------------------------------
  // A reader has the primary's object open while it is deleted or overwritten.

  function Open(key: string): Op {
    Op(Get(key), Streaming(1, false, [1], []), Some([]))
  }

  /** One object is stored under the key. */
  function Stored(config: Config, key: string): State {
    State(config, map[key := [1]], map[key := [1]], map[], map[], [])
  }

  function Reading(config: Config, key: string, pc: Pc, temp: Option<Bytes>): State {
    Stored(config, key).(ops := map[0 := Op(Get(key), pc, temp)])
  }

  lemma ReaderMoves(config: Config, key: string, before: seq<Action>, from: Pc, to: Pc, temp: Option<Bytes>)
      returns (actions: seq<Action>)
    requires Run(Stored(config, key), before) == Reading(config, key, from, None) && !Final(from)
    requires GetMove(config, Op(Get(key), from, None), Some([1]), None, Advance) == Moved(to, temp, None)
    ensures Run(Stored(config, key), actions) == Reading(config, key, to, temp)
  {
    actions := RunAct(Stored(config, key), before, Reading(config, key, from, None), 0, Advance, Moved(to, temp, None));
  }

  lemma ReaderAsks(config: Config, key: string) returns (actions: seq<Action>)
    ensures Run(Stored(config, key), actions) == Reading(config, key, Headed(1), None)
  {
    actions := RunArrive(Stored(config, key), [], 0, Get(key));
    actions := ReaderMoves(config, key, actions, Start, CheckingPrimary, None);
    actions := ReaderMoves(config, key, actions, CheckingPrimary, Headed(1), None);
  }

  /** The GET misses the cache, and opens the primary's object and its temp file. */
  lemma ReaderOpens(config: Config, key: string) returns (actions: seq<Action>)
    requires Cacheable(config, key)
    ensures Run(Stored(config, key), actions) == Reading(config, key, Open(key).pc, Some([]))
  {
    actions := ReaderAsks(config, key);
    actions := ReaderMoves(config, key, actions, Headed(1), Routed(1, false), None);
    actions := ReaderMoves(config, key, actions, Routed(1, false), Open(key).pc, Some([]));
  }

  /** The reader finishes and promotes what it opened, whatever is stored by now. */
  lemma ReaderFinishes(s: State, before: seq<Action>, key: string) returns (actions: seq<Action>)
    requires 0 in Run(s, before).ops && Run(s, before).ops[0] == Open(key)
    ensures var t, u := Run(s, before), Run(s, actions);
      && u.primary == t.primary && u.cache == t.cache[key := [1]]
      && u.ops == t.ops[0 := Op(Get(key), Served(1, [1]), None)]
  {
    var t := Run(s, before);
    var none: Bytes := [];
    assert NextBytes([1], none, 1) == [1];
    assert none + [1] == [1];
    var sent := Moved(Streaming(1, false, [1], [1]), Some([1]), None);
    actions := RunAct(s, before, t, 0, Transfer(1), sent);
    actions := RunAct(s, actions, After(t, 0, sent), 0, Advance, Moved(Served(1, [1]), None, Some(Promote([1]))));
  }

  /** The state while operation 1 works beside the open reader. */
  function Beside(config: Config, key: string, primary: map<string, Bytes>, cache: map<string, Bytes>, op: Op,
                  log: seq<Event>): State {
    State(config, map[key := [1]], primary, cache, map[0 := Open(key), 1 := op], log)
  }

  lemma WorkerArrives(config: Config, key: string, before: seq<Action>, request: Request) returns (actions: seq<Action>)
    requires Run(Stored(config, key), before) == Reading(config, key, Open(key).pc, Some([]))
    ensures Run(Stored(config, key), actions) ==
            Beside(config, key, map[key := [1]], map[],
                   Op(request, if request.Delete? then DeletingPrimary(0) else Start, None), [])
  {
    actions := RunArrive(Stored(config, key), before, 1, request);
  }

  /** One move of operation 1, which changes nothing visible or what `change` says. */
  lemma WorkerMoves(config: Config, key: string, before: seq<Action>, primary: map<string, Bytes>,
                    cache: map<string, Bytes>, op: Op, log: seq<Event>, m: Moved)
      returns (actions: seq<Action>)
    requires Run(Stored(config, key), before) == Beside(config, key, primary, cache, op, log) && !Final(op.pc)
    requires MoveOf(Beside(config, key, primary, cache, op, log), op, Advance) == m
    ensures var moved := Op(op.request, m.pc, m.temp);
      Run(Stored(config, key), actions) ==
        if m.change.None? then Beside(config, key, primary, cache, moved, log)
        else
          var e := Event(1, KeyOf(op), m.change.value);
          Beside(config, key, OnPrimary(primary, e), OnCache(cache, e), moved, log + [e])
  {
    actions := RunAct(Stored(config, key), before, Beside(config, key, primary, cache, op, log), 1, Advance, m);
  }

  lemma DeleterErases(config: Config, key: string, before: seq<Action>) returns (actions: seq<Action>)
    requires Run(Stored(config, key), before) == Reading(config, key, Open(key).pc, Some([]))
    ensures Run(Stored(config, key), actions) ==
            Beside(config, key, map[], map[], Op(Delete([key], true), DeletingPrimary(1), None), [Event(1, key, Erase)])
  {
    var r, none: map<string, Bytes>, erased := Delete([key], true), map[], Event(1, key, Erase);
    actions := WorkerArrives(config, key, before, r);
    actions := WorkerMoves(config, key, actions, map[key := [1]], none, Op(r, DeletingPrimary(0), None), [],
                           Moved(DeletingPrimary(1), None, Some(Erase)));
    assert map[key := [1]] - {key} == none && [] + [erased] == [erased];
  }

  lemma DeleterEvicts(config: Config, key: string, before: seq<Action>) returns (actions: seq<Action>)
    requires config.caching
    requires Run(Stored(config, key), before) ==
             Beside(config, key, map[], map[], Op(Delete([key], true), DeletingPrimary(1), None),
                    [Event(1, key, Erase)])
    ensures Run(Stored(config, key), actions) ==
            Beside(config, key, map[], map[], Op(Delete([key], true), Deleted, None),
                   [Event(1, key, Erase), Event(1, key, Evict)])
  {
    var r, none: map<string, Bytes>, erased := Delete([key], true), map[], Event(1, key, Erase);
    actions := WorkerMoves(config, key, before, none, none, Op(r, DeletingPrimary(1), None), [erased],
                           Moved(DeletingCache(0), None, None));
    actions := WorkerMoves(config, key, actions, none, none, Op(r, DeletingCache(0), None), [erased],
                           Moved(DeletingCache(1), None, Some(Evict)));
    assert none - {key} == none && [erased] + [Event(1, key, Evict)] == [erased, Event(1, key, Evict)];
    actions := WorkerMoves(config, key, actions, none, none, Op(r, DeletingCache(1), None),
                           [erased, Event(1, key, Evict)], Moved(Deleted, None, None));
  }

  /**
    A deletion that races a reader leaves a stale file, for every cacheable key and without any fault: the GET
    opens the primary's object, the object is deleted, and then the GET finishes and promotes what it read.
  */
  lemma DeletionLeavesStaleFile(config: Config, key: string) returns (actions: seq<Action>)
    requires Cacheable(config, key)
    ensures Starts(Stored(config, key), config)
    ensures var t := Run(Stored(config, key), actions);
      && key in t.cache && key !in t.primary
      && t.ops == map[0 := Op(Get(key), Served(1, [1]), None), 1 := Op(Delete([key], true), Deleted, None)]
  {
    actions := ReaderOpens(config, key);
    actions := DeleterErases(config, key, actions);
    actions := DeleterEvicts(config, key, actions);
    actions := ReaderFinishes(Stored(config, key), actions, key);
  }

  /** An upload of the empty object that may overwrite. */
  function Overwrite(key: string): Request {
    Put(key, [], false, None, true)
  }

  lemma WriterPublishes(config: Config, key: string, before: seq<Action>) returns (actions: seq<Action>)
    requires Cacheable(config, key)
    requires Run(Stored(config, key), before) == Reading(config, key, Open(key).pc, Some([]))
    ensures Run(Stored(config, key), actions) ==
            Beside(config, key, map[key := []], map[], Op(Overwrite(key), Published([]), None),
                   [Event(1, key, Publish([]))])
  {
    var r, was: map<string, Bytes>, none: map<string, Bytes> := Overwrite(key), map[key := [1]], map[];
    actions := WorkerArrives(config, key, before, r);
    actions := WorkerMoves(config, key, actions, was, none, Op(r, Start, None), [], Moved(CheckingPrimary, None, None));
    actions := WorkerMoves(config, key, actions, was, none, Op(r, CheckingPrimary, None), [],
                           Moved(Receiving([], 0), None, None));
    actions := WorkerMoves(config, key, actions, was, none, Op(r, Receiving([], 0), None), [],
                           Moved(Uploading([], []), None, None));
    actions := WorkerMoves(config, key, actions, was, none, Op(r, Uploading([], []), None), [],
                           Moved(Published([]), None, Some(Publish([]))));
    assert was[key := []] == map[key := []] && [] + [Event(1, key, Publish([]))] == [Event(1, key, Publish([]))];
  }

  lemma WriterCopies(config: Config, key: string, before: seq<Action>) returns (actions: seq<Action>)
    requires Cacheable(config, key)
    requires Run(Stored(config, key), before) ==
             Beside(config, key, map[key := []], map[], Op(Overwrite(key), Published([]), None),
                    [Event(1, key, Publish([]))])
    ensures Run(Stored(config, key), actions) ==
            Beside(config, key, map[key := []], map[], Op(Overwrite(key), Populating([]), Some([])),
                   [Event(1, key, Publish([]))])
  {
    var r, now: map<string, Bytes>, none: map<string, Bytes> := Overwrite(key), map[key := []], map[];
    var out := [Event(1, key, Publish([]))];
    actions := WorkerMoves(config, key, before, now, none, Op(r, Published([]), None), out,
                           Moved(Populating([]), None, None));
    actions := WorkerMoves(config, key, actions, now, none, Op(r, Populating([]), None), out,
                           Moved(Populating([]), Some([]), None));
  }

  lemma WriterPopulates(config: Config, key: string, before: seq<Action>) returns (actions: seq<Action>)
    requires Cacheable(config, key)
    requires Run(Stored(config, key), before) ==
             Beside(config, key, map[key := []], map[], Op(Overwrite(key), Populating([]), Some([])),
                    [Event(1, key, Publish([]))])
    ensures Run(Stored(config, key), actions) ==
            Beside(config, key, map[key := []], map[key := []], Op(Overwrite(key), Created, None),
                   [Event(1, key, Publish([])), Event(1, key, Promote([]))])
  {
    var r, now: map<string, Bytes>, none: map<string, Bytes> := Overwrite(key), map[key := []], map[];
    var out := [Event(1, key, Publish([]))];
    actions := WorkerMoves(config, key, before, now, none, Op(r, Populating([]), Some([])), out,
                           Moved(Clearing([]), None, Some(Promote([]))));
    assert none[key := []] == now;
    assert out + [Event(1, key, Promote([]))] == [Event(1, key, Publish([])), Event(1, key, Promote([]))];
    actions := WorkerMoves(config, key, actions, now, now, Op(r, Clearing([]), None),
                           [Event(1, key, Publish([])), Event(1, key, Promote([]))], Moved(Created, None, None));
  }

  /**
    An overwrite that races a reader leaves a stale file too: the GET opens the primary's object, an upload
    replaces it, populates the cache and is answered 201, and then the GET promotes the old object over it.
  */
  lemma OverwriteLeavesStaleFile(config: Config, key: string) returns (actions: seq<Action>)
    requires Cacheable(config, key)
    ensures Starts(Stored(config, key), config)
    ensures var t := Run(Stored(config, key), actions);
      && key in t.cache && key in t.primary && t.cache[key] == [1] && t.primary[key] == []
      && t.ops == map[0 := Op(Get(key), Served(1, [1]), None), 1 := Op(Overwrite(key), Created, None)]
  {
    actions := ReaderOpens(config, key);
    actions := WriterPublishes(config, key, actions);
    actions := WriterCopies(config, key, actions);
    actions := WriterPopulates(config, key, actions);
    actions := ReaderFinishes(Stored(config, key), actions, key);
  }

  // ---------------------------------------------------------------------------------------------
  // The exact condition.

  lemma RacesBreakCoherence(config: Config, key: string, p: Policy)
    requires Cacheable(config, key) && (p.overwrites || p.deletes)
    ensures !AlwaysCoherent(config, key, p)
  {
    var s := Stored(config, key);
    var actions: seq<Action>;
    if p.deletes {
      actions := DeletionLeavesStaleFile(config, key);
    } else {
      actions := OverwriteLeavesStaleFile(config, key);
    }
    assert Respected(Run(s, actions), key, p) && !CoherentAt(Run(s, actions), key);
  }

  /**
    Coherence of the cache in every run depends on the policy alone: a finished cache file of the key equals the
    primary's object in all runs that respect the policy exactly when the key is never cached, or the policy allows
    neither overwrites nor deletions. Faults, abandoned streams and any interleaving are harmless.
  */
  lemma AlwaysCoherentIff(config: Config, key: string, p: Policy)
    ensures AlwaysCoherent(config, key, p) <==> !Cacheable(config, key) || (!p.overwrites && !p.deletes)
  {
    if !Cacheable(config, key) || (!p.overwrites && !p.deletes) {
      forall s, actions | Starts(s, config) && Respected(Run(s, actions), key, p)
        ensures CoherentAt(Run(s, actions), key)
      {
        if Cacheable(config, key) {
          StrictIsCoherent(s, actions, key);
        } else {
          UncachedIsCoherent(s, actions, key);
        }
      }
    } else {
      RacesBreakCoherence(config, key, p);
    }
  }
}
