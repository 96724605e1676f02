/** The S3 artifact store over a bucket that is a map from full keys to objects (packvault/storage/s3.py). */
module S3Store {
  import opened Basics
  import opened Text
  import opened LocalStore

  const BATCH_SIZE: nat := 1000

  function FullKey(prefix: string, key: string): string {
    if prefix != "" then prefix + "/" + StripLeft(key) else StripLeft(key)
  }

  function LogicalKey(prefix: string, fullKey: string): string {
    if prefix == "" then fullKey
    else if prefix + "/" <= fullKey then fullKey[|prefix| + 1..]
    else fullKey
  }

  predicate Relative(key: string) {
    key == "" || key[0] != '/'
  }

  lemma LogicalOfFull(prefix: string, key: string)
    requires Relative(key)
    ensures LogicalKey(prefix, FullKey(prefix, key)) == key
  {
    assert (prefix + "/" + key)[|prefix| + 1..] == key;
  }

  /** Slashes in front of a key do not count, and the full key lies below the configured prefix, if there is one. */
  lemma FullKeyIsBelow(prefix: string, key: string, slashes: string)
    requires Relative(key) && Slashes(slashes)
    ensures FullKey(prefix, slashes + key) == FullKey(prefix, key)
    ensures FullKey(prefix, key) == if prefix == "" then key else prefix + "/" + key
  {
    StripLeftOf(slashes, key);
  }

  lemma FullInjective(prefix: string, a: string, b: string)
    requires Relative(a) && Relative(b) && FullKey(prefix, a) == FullKey(prefix, b)
    ensures a == b
  {
    LogicalOfFull(prefix, a);
    LogicalOfFull(prefix, b);
  }

  function FullKeys(prefix: string, keys: seq<string>): set<string> {
    set key | key in keys :: FullKey(prefix, key)
  }

  /** How a key list is cut into batches. */
  function Batches(keys: seq<string>): seq<seq<string>> {
    if keys == [] then []
    else if |keys| <= BATCH_SIZE then [keys]
    else [keys[..BATCH_SIZE]] + Batches(keys[BATCH_SIZE..])
  }

  function Joined(batches: seq<seq<string>>): seq<string> {
    if batches == [] then [] else batches[0] + Joined(batches[1..])
  }

  /** The batches are the list, in order, and only the last one may be short. */
  lemma {:induction false} BatchesPartition(keys: seq<string>)
    ensures Joined(Batches(keys)) == keys
    ensures forall i :: 0 <= i < |Batches(keys)| ==> 0 < |Batches(keys)[i]| <= 1000
    ensures forall i :: 0 <= i < |Batches(keys)| - 1 ==> |Batches(keys)[i]| == 1000
    decreases |keys|
  {
    if |keys| > BATCH_SIZE {
      BatchesPartition(keys[BATCH_SIZE..]);
      assert Batches(keys)[1..] == Batches(keys[BATCH_SIZE..]);
      assert keys == keys[..BATCH_SIZE] + keys[BATCH_SIZE..];
    }
  }

  /** The objects below the prefix by their logical keys; foreign objects of the bucket are not in it. */
  ghost function View(prefix: string, objects: map<string, Bytes>): map<string, Bytes> {
    map key | key in OwnKeys(prefix, objects) :: objects[FullKey(prefix, key)]
  }

  ghost function OwnKeys(prefix: string, objects: map<string, Bytes>): (keys: set<string>)
    ensures forall key :: key in keys ==> FullKey(prefix, key) in objects
  {
    set f | f in objects && Relative(LogicalKey(prefix, f)) && FullKey(prefix, LogicalKey(prefix, f)) == f
      :: LogicalKey(prefix, f)
  }

  lemma ViewLookup(prefix: string, objects: map<string, Bytes>, key: string)
    ensures key in View(prefix, objects) <==> Relative(key) && FullKey(prefix, key) in objects
    ensures key in View(prefix, objects) ==> View(prefix, objects)[key] == objects[FullKey(prefix, key)]
  {
    if Relative(key) { LogicalOfFull(prefix, key); }
  }

  /** Storing under one key changes that key and no other. */
  lemma ViewStore(prefix: string, objects: map<string, Bytes>, key: string, body: Bytes)
    requires Relative(key)
    ensures View(prefix, objects[FullKey(prefix, key) := body]) == View(prefix, objects)[key := body]
  {
    var stored := objects[FullKey(prefix, key) := body];
    var before, after := View(prefix, objects), View(prefix, stored);
    forall other
      ensures other in after <==> other in before[key := body]
      ensures other in after ==> after[other] == before[key := body][other]
    {
      ViewLookup(prefix, objects, other);
      ViewLookup(prefix, stored, other);
      if Relative(other) && FullKey(prefix, other) == FullKey(prefix, key) { FullInjective(prefix, other, key); }
    }
  }

  /** Removing the full keys of a list removes just its keys. */
  lemma ViewRemove(prefix: string, objects: map<string, Bytes>, keys: seq<string>)
    requires forall key :: key in keys ==> Relative(key)
    ensures View(prefix, objects - FullKeys(prefix, keys)) == View(prefix, objects) - (set key | key in keys)
  {
    var rest, gone := objects - FullKeys(prefix, keys), set key | key in keys;
    var before, after := View(prefix, objects), View(prefix, rest);
    forall key
      ensures key in after <==> key in before - gone
      ensures key in after ==> after[key] == before[key]
    {
      ViewLookup(prefix, objects, key);
      ViewLookup(prefix, rest, key);
      if Relative(key) && FullKey(prefix, key) in FullKeys(prefix, keys) {
        var k :| k in keys && FullKey(prefix, k) == FullKey(prefix, key);
        FullInjective(prefix, k, key);
      }
    }
  }

  lemma ViewRemoveOne(prefix: string, objects: map<string, Bytes>, key: string)
    requires Relative(key)
    ensures View(prefix, objects - {FullKey(prefix, key)}) == View(prefix, objects) - {key}
  {
    ViewRemove(prefix, objects, [key]);
    assert FullKeys(prefix, [key]) == {FullKey(prefix, key)};
    assert (set k | k in [key]) == {key};
  }

  lemma {:induction false} JoinedStep(batches: seq<seq<string>>, last: seq<string>)
    ensures Joined(batches + [last]) == Joined(batches) + last
  {
    if batches != [] {
      assert (batches + [last])[1..] == batches[1..] + [last];
      JoinedStep(batches[1..], last);
    }
  }

  /** One more batch of the list. */
  lemma NextBatch(prefix: string, keys: seq<string>, offset: nat, end: nat, sent: seq<seq<string>>)
    requires offset < |keys| && end == Smaller(offset + BATCH_SIZE, |keys|)
    requires sent + Batches(keys[offset..]) == Batches(keys) && Joined(sent) == keys[..offset]
    ensures var batch := keys[offset..end];
      && sent + [batch] + Batches(keys[end..]) == Batches(keys) && Batches(keys[offset..]) != []
      && Joined(sent + [batch]) == keys[..end]
      && FullKeys(prefix, keys[..end]) == FullKeys(prefix, keys[..offset]) + FullKeys(prefix, batch)
  {
    var batch, rest := keys[offset..end], keys[offset..];
    assert rest[..end - offset] == batch && rest[end - offset..] == keys[end..];
    if end == |keys| { assert batch == rest && keys[end..] == []; }
    assert Batches(rest) == [batch] + Batches(keys[end..]);
    JoinedStep(sent, batch);
    assert keys[..end] == keys[..offset] + batch;
  }

  class S3Store {
    const prefix: string
    var objects: map<string, Bytes>

    ghost function Contents(): map<string, Bytes>
      reads this
    {
      View(prefix, objects)
    }

    constructor (configured: string)
      ensures prefix == StripSlashes(configured) && objects == map[]
    {
      prefix := StripSlashes(configured);
      objects := map[];
    }

    method Head(key: string) returns (size: Option<nat>)
      requires Relative(key)
      ensures size == if key in Contents() then Some(|Contents()[key]|) else None
    {
      var full := FullKey(prefix, key);
      ViewLookup(prefix, objects, key);
      size := if full in objects then Some(|objects[full]|) else None;
    }

    method Get(key: string) returns (chunks: Option<seq<Bytes>>)
      requires Relative(key)
      ensures chunks.Some? <==> key in Contents()
      ensures chunks.Some? ==> chunks.value == Chunks(Contents()[key])
    {
      var full := FullKey(prefix, key);
      ViewLookup(prefix, objects, key);
      if full !in objects { return None; }
      var read := ReadChunks(objects[full]);
      chunks := Some(read);
    }

    /** Uploads the body; `fault` is a client error, which leaves the bucket as it is. */
    method Put(key: string, body: Bytes, exclusive: bool, fault: bool) returns (answer: PutAnswer)
      requires Relative(key)
      modifies this
      ensures answer == if fault then StorageError
                        else if exclusive && key in old(Contents()) then Conflict
                        else Stored
      ensures Contents() == if answer.Stored? then old(Contents())[key := body] else old(Contents())
    {
      var full := FullKey(prefix, key);
      ViewLookup(prefix, objects, key);
      if fault { return StorageError; }
      if exclusive && full in objects { return Conflict; }
      ViewStore(prefix, objects, key, body);
      objects := objects[full := body];
      answer := Stored;
    }

    /** Looks the object up first; `fault` is a client error in either call. */
    method Delete(key: string, fault: bool) returns (answer: DeleteAnswer)
      requires Relative(key)
      modifies this
      ensures answer == if fault then DeleteFailed else if key in old(Contents()) then Deleted else NotFound
      ensures Contents() == if answer.Deleted? then old(Contents()) - {key} else old(Contents())
    {
      var full := FullKey(prefix, key);
      ViewLookup(prefix, objects, key);
      if fault { return DeleteFailed; }
      if full !in objects { return NotFound; }
      ViewRemoveOne(prefix, objects, key);
      objects := objects - {full};
      answer := Deleted;
    }

    /**
      Deletes the keys in batches; batch number `failAt`, if there is one, raises. Returns the
      batches that were deleted. Without a failure these are all keys, in order.
    */
    method DeleteMany(keys: seq<string>, failAt: Option<nat>) returns (ok: bool, sent: seq<seq<string>>)
      requires forall key :: key in keys ==> Relative(key)
      modifies this
      ensures ok <==> failAt.None? || failAt.value >= |Batches(keys)|
      ensures sent == if ok then Batches(keys) else Batches(keys)[..failAt.value]
      ensures ok ==> Joined(sent) == keys
      ensures objects == old(objects) - FullKeys(prefix, Joined(sent))
      ensures Contents() == old(Contents()) - (set key | key in Joined(sent))
    {
      ghost var before := objects;
      var offset := 0;
      sent := [];
      assert keys[0..] == keys;
      while offset < |keys|
        invariant 0 <= offset <= |keys|
        invariant sent + Batches(keys[offset..]) == Batches(keys) && Joined(sent) == keys[..offset]
        invariant failAt.Some? ==> |sent| <= failAt.value
        invariant objects == before - FullKeys(prefix, keys[..offset])
      {
        var end := Smaller(offset + BATCH_SIZE, |keys|);
        var batch := keys[offset..end];
        NextBatch(prefix, keys, offset, end, sent);
        if failAt.Some? && failAt.value == |sent| {
          ViewRemove(prefix, before, keys[..offset]);
          return false, sent;
        }
        objects := objects - FullKeys(prefix, batch);
        sent, offset := sent + [batch], end;
      }
      assert keys[..offset] == keys && keys[offset..] == [];
      ViewRemove(prefix, before, keys);
      ok := true;
    }
  }
}
