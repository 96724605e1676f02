/** Small datatypes shared by every module. */
module Basics {
  datatype Option<+T> = None | Some(value: T)

  datatype Result<+T, +E> = Ok(value: T) | Err(error: E)

  function Elements(keys: seq<string>): set<string> {
    set key | key in keys
  }

  function Smaller(a: nat, b: nat): nat {
    if a < b then a else b
  }

  newtype byte = x: int | 0 <= x < 256

  type Bytes = seq<byte>

  /** All chunks of a stream, in order. */
  function Concat(chunks: seq<Bytes>): Bytes {
    if chunks == [] then [] else Concat(chunks[..|chunks| - 1]) + chunks[|chunks| - 1]
  }

  lemma ConcatStep(chunks: seq<Bytes>, i: nat)
    requires i < |chunks|
    ensures Concat(chunks[..i + 1]) == Concat(chunks[..i]) + chunks[i]
  {
    assert chunks[..i + 1][..i] == chunks[..i];
  }

  lemma ConcatAll(chunks: seq<Bytes>)
    ensures Concat(chunks[..|chunks|]) == Concat(chunks)
  {
    assert chunks[..|chunks|] == chunks;
  }

  lemma {:induction false} PrefixWithin(chunks: seq<Bytes>, i: nat)
    requires i <= |chunks|
    ensures |Concat(chunks[..i])| <= |Concat(chunks)|
  {
    if i == |chunks| {
      ConcatAll(chunks);
    } else {
      PrefixWithin(chunks[..|chunks| - 1], i);
      assert chunks[..|chunks| - 1][..i] == chunks[..i];
    }
  }

  lemma {:induction false} ConcatFront(first: Bytes, rest: seq<Bytes>)
    ensures Concat([first] + rest) == first + Concat(rest)
  {
    var all := [first] + rest;
    if rest == [] {
      assert all[..0] == [];
    } else {
      assert all[..|all| - 1] == [first] + rest[..|rest| - 1];
      ConcatFront(first, rest[..|rest| - 1]);
    }
  }

  const CHUNK_SIZE: nat := 64 * 1024

  /** What a reader gets from `content` with `read(CHUNK_SIZE)` until nothing is left. */
  function Chunks(content: Bytes): seq<Bytes> {
    if content == [] then []
    else if |content| <= CHUNK_SIZE then [content]
    else [content[..CHUNK_SIZE]] + Chunks(content[CHUNK_SIZE..])
  }

  lemma {:induction false} ConcatChunks(content: Bytes)
    ensures Concat(Chunks(content)) == content
  {
    if content != [] {
      if |content| <= CHUNK_SIZE {
        ConcatFront(content, []);
        assert [content] + [] == [content];
      } else {
        ConcatChunks(content[CHUNK_SIZE..]);
        ConcatFront(content[..CHUNK_SIZE], Chunks(content[CHUNK_SIZE..]));
        assert content == content[..CHUNK_SIZE] + content[CHUNK_SIZE..];
      }
    }
  }

  /** All chunks but the last have 65536 bytes, the last has at most that many, and none is empty. */
  lemma {:induction false} ChunkSizes(content: Bytes)
    ensures var chunks := Chunks(content);
      && (forall i :: 0 <= i < |chunks| - 1 ==> |chunks[i]| == 65536)
      && (chunks != [] ==> 0 < |chunks[|chunks| - 1]| <= 65536)
  {
    if |content| > CHUNK_SIZE {
      ChunkSizes(content[CHUNK_SIZE..]);
      var rest := Chunks(content[CHUNK_SIZE..]);
      forall i | 0 < i < |rest| ensures |Chunks(content)[i]| == 65536 { assert Chunks(content)[i] == rest[i - 1]; }
    }
  }

  /** Reads a whole object chunk by chunk, as every stream of the stores does. */
  method ReadChunks(content: Bytes) returns (read: seq<Bytes>)
    ensures read == Chunks(content) && Concat(read) == content
  {
    read := [];
    var rest := content;
    while rest != []
      invariant read + Chunks(rest) == Chunks(content)
      decreases |rest|
    {
      var n := if |rest| < CHUNK_SIZE then |rest| else CHUNK_SIZE;
      assert rest[..|rest|] == rest && rest[|rest|..] == [];
      read, rest := read + [rest[..n]], rest[n..];
    }
    ConcatChunks(content);
  }
}
