/** A file cut into DATA payloads, as repeated fread calls of DATA_CHUNK_SIZE bytes cut it. */
module FileChunks {
  import opened Bytes
  import opened Packets

  function ChunkCount(file: seq<byte>): nat {
    (|file| + (DATA_CHUNK_SIZE - 1)) / DATA_CHUNK_SIZE
  }

  function ChunkAt(file: seq<byte>, i: nat): (c: seq<byte>)
    requires i < ChunkCount(file)
    ensures 0 < |c| <= DATA_CHUNK_SIZE
  {
    file[DATA_CHUNK_SIZE * i..Min(DATA_CHUNK_SIZE * i + DATA_CHUNK_SIZE, |file|)]
  }

  function Chunks(file: seq<byte>): (cs: seq<seq<byte>>)
    ensures |cs| == ChunkCount(file)
    ensures forall i :: 0 <= i < |cs| ==> cs[i] == ChunkAt(file, i)
  {
    seq(ChunkCount(file), i requires 0 <= i < ChunkCount(file) => ChunkAt(file, i))
  }

  /** All chunks but the last have 1000 bytes; the last has what is left. */
  lemma ChunkSize(file: seq<byte>, i: nat)
    requires i < ChunkCount(file)
    ensures |ChunkAt(file, i)| == if i + 1 < ChunkCount(file) then 1000 else |file| - 1000 * i
    ensures forall k :: 0 <= k < |ChunkAt(file, i)| ==> ChunkAt(file, i)[k] == file[1000 * i + k]
  {
  }

  /** The first n chunks hold the first 1000 n bytes. */
  lemma {:induction false} ChunkPrefix(file: seq<byte>, n: nat)
    requires n <= ChunkCount(file)
    ensures Flatten(Chunks(file)[..n]) == file[..Min(DATA_CHUNK_SIZE * n, |file|)]
  {
    var cs := Chunks(file);
    if n > 0 {
      ChunkPrefix(file, n - 1);
      FlattenSnoc(cs[..n - 1], cs[n - 1]);
      assert cs[..n] == cs[..n - 1] + [cs[n - 1]];
      hide Flatten;
      var start, end := DATA_CHUNK_SIZE * (n - 1), Min(DATA_CHUNK_SIZE * n, |file|);
      assert start < |file| && cs[n - 1] == file[start..end];
      assert file[..start] + file[start..end] == file[..end];
    }
  }

  /** The chunks concatenate to the file. */
  lemma ChunksJoin(file: seq<byte>)
    ensures Flatten(Chunks(file)) == file
  {
    ChunkPrefix(file, ChunkCount(file));
    assert Chunks(file)[..ChunkCount(file)] == Chunks(file);
  }
}
