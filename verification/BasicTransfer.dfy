/** The basic in-order transfer of server.c and client.c. */
module BasicTransfer {
  import opened Bytes
  import opened Packets
  import opened FileChunks
  import opened ReliableClient
  import Sha1
  import Sha1Spec

  // ---- The sender ----

  /** DATA packets in file order, their ids counted modulo 2^32. */
  function DataPackets(file: seq<byte>): (ps: seq<Packet>)
    ensures |ps| == ChunkCount(file)
  {
    seq(ChunkCount(file), i requires 0 <= i < ChunkCount(file) => Data(i % U32, ChunkAt(file, i)))
  }

  function FileDigest(file: seq<byte>): (d: seq<byte>)
    ensures |d| == DIGEST_SIZE
  {
    Sha1Spec.Digest(file)
  }

  /** Everything a completed transfer puts on the wire. */
  function BasicPackets(file: seq<byte>): (ps: seq<Packet>)
    ensures |ps| == ChunkCount(file) + 1
  {
    DataPackets(file) + [Terminate(FileDigest(file))]
  }

  method DigestOf(file: seq<byte>) returns (digest: seq<byte>)
    ensures digest == FileDigest(file)
  {
    digest := Sha1.Sha1File(file);
  }

  /** What transfer_file sends when the stop flag is first seen before chunk stopAt, and whether it succeeds. */
  function Transferred(file: seq<byte>, digest: seq<byte>, stopAt: nat): (seq<Packet>, bool) {
    if stopAt < ChunkCount(file) then (DataPackets(file)[..stopAt], false)
    else (DataPackets(file) + [Terminate(digest)], true)
  }

  /** The transfer sends everything, and succeeds, exactly when no stop is seen before its last chunk. */
  lemma SendsAllIff(file: seq<byte>, stopAt: nat)
    ensures Transferred(file, FileDigest(file), stopAt) ==
      if stopAt >= ChunkCount(file) then (BasicPackets(file), true) else (BasicPackets(file)[..stopAt], false)
  {
    hide FileDigest;
    assert stopAt < ChunkCount(file) ==> BasicPackets(file)[..stopAt] == DataPackets(file)[..stopAt];
  }

  /** transfer_file. */
  method TransferFile(file: seq<byte>, digest: seq<byte>, stopAt: nat) returns (sent: seq<Packet>, ok: bool)
    ensures (sent, ok) == Transferred(file, digest, stopAt)
  {
    sent := [];
    var pos, turn, packetId: u32 := 0, 0, 0;
    while pos < |file|
      invariant pos == Min(DATA_CHUNK_SIZE * turn, |file|) && turn <= ChunkCount(file) && packetId == turn % U32
      invariant turn <= stopAt && sent == DataPackets(file)[..turn]
      decreases |file| - pos
    {
      var data := file[pos..Min(pos + DATA_CHUNK_SIZE, |file|)];
      assert data == ChunkAt(file, turn);
      if turn == stopAt {
        return sent, false;
      }
      sent := sent + [Data(packetId, data)];
      assert DataPackets(file)[..turn + 1] == DataPackets(file)[..turn] + [DataPackets(file)[turn]];
      NextIdCounts(turn);
      packetId := NextId(packetId);
      pos := pos + |data|;
      turn := turn + 1;
    }
    assert DataPackets(file)[..turn] == DataPackets(file);
    return sent + [Terminate(digest)], true;
  }

  lemma NextIdCounts(n: nat)
    ensures NextId(n % U32) == (n + 1) % U32
  {
    var q, r := n / U32, n % U32;
    if r + 1 < U32 {
      DivModOf(U32, q, r + 1);
    } else {
      DivModOf(U32, q + 1, 0);
    }
  }

  // ---- The receiver ----

  /** The basic client: next id, what the temporary file holds, how it stands. */
  datatype Basic = Basic(expected: u32, receivedBytes: nat, out: seq<byte>, status: Status)

  const FRESH := Basic(0, 0, [], Receiving)

  function OnPacket(c: Basic, p: Packet): Basic {
    match p
    case Data(id, payload) =>
      if id != c.expected then c.(status := Aborted)
      else c.(expected := NextId(c.expected), receivedBytes := c.receivedBytes + |payload|, out := c.out + payload)
    case Terminate(digest) =>
      c.(status := if digest == FileDigest(c.out) then Verified else Mismatch)
    case _ => c.(status := Aborted)
  }

  /** DATA with the expected id is written and counted; with any other id, and any other packet, ends the transfer. */
  lemma PacketOutcome(c: Basic, p: Packet)
    ensures p.Data? && p.id == c.expected ==>
      OnPacket(c, p) == Basic((p.id + 1) % 0x1_0000_0000, c.receivedBytes + |p.payload|, c.out + p.payload, c.status)
    ensures p.Data? && p.id != c.expected ==> OnPacket(c, p) == c.(status := Aborted)
    ensures p.Terminate? ==>
      OnPacket(c, p) == c.(status := if p.digest == Sha1Spec.Digest(c.out) then Verified else Mismatch)
    ensures !p.Data? && !p.Terminate? ==> OnPacket(c, p) == c.(status := Aborted)
  {
    hide Sha1Spec.Digest;
  }

  /** The receive loop over a script of arrivals; the script's end is the stop signal. */
  function Run(c: Basic, script: seq<Arrival>): Basic
    decreases |script|
  {
    if c.status != Receiving then c
    else if script == [] || script[0].Bad? then c.(status := Aborted)
    else Run(OnPacket(c, script[0].p), script[1..])
  }

  lemma RunStep(c: Basic, script: seq<Arrival>, k: nat)
    requires k < |script|
    ensures Run(c, script[k..]) ==
      if c.status != Receiving then c
      else if script[k].Bad? then c.(status := Aborted)
      else Run(OnPacket(c, script[k].p), script[k + 1..])
  {
    assert script[k..][1..] == script[k + 1..];
  }

  lemma RunStopped(c: Basic, script: seq<Arrival>)
    ensures c.status != Receiving ==> Run(c, script) == c
    ensures c.status == Receiving && script == [] ==> Run(c, script) == c.(status := Aborted)
  {
  }

  /** The transfer loop of the client's main. */
  method ReceiveFile(script: seq<Arrival>) returns (c: Basic)
    ensures c == Run(FRESH, script)
  {
    hide FileDigest, Run;
    var expected: u32, receivedBytes: nat, out: seq<byte>, k := 0, 0, [], 0;
    assert script[0..] == script;
    while k < |script|
      invariant k <= |script|
      invariant Run(FRESH, script) == Run(Basic(expected, receivedBytes, out, Receiving), script[k..])
    {
      ghost var now := Basic(expected, receivedBytes, out, Receiving);
      RunStep(now, script, k);
      if script[k].FromServer? {
        RunStopped(OnPacket(now, script[k].p), script[k + 1..]);
      }
      match script[k] {
        case Bad => return Basic(expected, receivedBytes, out, Aborted);
        case FromServer(p) =>
          match p {
            case Data(id, payload) =>
              if id != expected {
                return Basic(expected, receivedBytes, out, Aborted);
              }
              assert |payload| == 0 ==> out + payload == out;
              if |payload| > 0 {
                out := out + payload;
              }
              expected := NextId(expected);
              receivedBytes := receivedBytes + |payload|;
            case Terminate(digest) =>
              var same := DigestMatches(digest, out);
              return Basic(expected, receivedBytes, out, if same then Verified else Mismatch);
            case _ => return Basic(expected, receivedBytes, out, Aborted);
          }
      }
      k := k + 1;
    }
    c := Basic(expected, receivedBytes, out, Aborted);
    RunStopped(Basic(expected, receivedBytes, out, Receiving), script[k..]);
  }

  method DigestMatches(digest: seq<byte>, out: seq<byte>) returns (same: bool)
    ensures same <==> digest == FileDigest(out)
  {
    var localDigest := DigestOf(out);
    same := digest == localDigest;
  }

  // ---- What the network can do ----

  /** A delivery hands over packets of the transfer, dropping, repeating and reordering at will, or fails. */
  predicate Delivery(file: seq<byte>, script: seq<Arrival>) {
    forall i :: 0 <= i < |script| && script[i].FromServer? ==> script[i].p in BasicPackets(file)
  }

  /** The first n chunks written out, and n counted. */
  predicate HoldsPrefix(file: seq<byte>, c: Basic, n: nat) {
    && n <= ChunkCount(file)
    && c.out == Flatten(Chunks(file)[..n])
    && c.receivedBytes == |c.out|
    && c.expected == n % U32
  }

  lemma PacketForm(file: seq<byte>, k: nat)
    requires k <= ChunkCount(file)
    ensures BasicPackets(file)[k] ==
      if k < ChunkCount(file) then Data(k % U32, ChunkAt(file, k)) else Terminate(FileDigest(file))
  {
    hide FileDigest;
  }

  /** Below 2^32 chunks an id names one chunk, so only the next chunk is ever written. */
  lemma PacketKeepsPrefix(file: seq<byte>, c: Basic, n: nat, k: nat) returns (m: nat)
    requires k <= ChunkCount(file) < U32 && HoldsPrefix(file, c, n) && c.status == Receiving
    ensures HoldsPrefix(file, OnPacket(c, BasicPackets(file)[k]), m)
    ensures OnPacket(c, BasicPackets(file)[k]).status == Verified ==>
      BasicPackets(file)[k] == Terminate(FileDigest(file))
    ensures OnPacket(c, BasicPackets(file)[k]).status == Verified ==>
      OnPacket(c, BasicPackets(file)[k]) == c.(status := Verified)
  {
    hide FileDigest, BasicPackets, HoldsPrefix;
    PacketForm(file, k);
    if k == ChunkCount(file) {
      m := n;
      StatusAside(file, c, n, OnPacket(c, BasicPackets(file)[k]).status);
    } else {
      m := DataKeepsPrefix(file, c, n, k);
    }
  }

  lemma DataKeepsPrefix(file: seq<byte>, c: Basic, n: nat, i: nat) returns (m: nat)
    requires i < ChunkCount(file) < U32 && HoldsPrefix(file, c, n)
    ensures HoldsPrefix(file, OnPacket(c, Data(i % U32, ChunkAt(file, i))), m)
  {
    hide ChunkCount, ChunkAt, Flatten;
    if i == n {
      m := n + 1;
      var cs := Chunks(file);
      FlattenSnoc(cs[..n], cs[n]);
      assert cs[..n + 1] == cs[..n] + [cs[n]];
      NextIdCounts(n);
    } else {
      m := n;
    }
  }

  /** Whatever the network does, the temporary file is the first so many chunks of the input. */
  lemma {:induction false} RunKeepsPrefix(file: seq<byte>, c: Basic, n: nat, script: seq<Arrival>) returns (m: nat)
    requires ChunkCount(file) < U32
    requires HoldsPrefix(file, c, n) && Delivery(file, script)
    ensures HoldsPrefix(file, Run(c, script), m)
    ensures c.status == Receiving && Run(c, script).status == Verified ==>
      FileDigest(Run(c, script).out) == FileDigest(file)
    decreases |script|
  {
    hide OnPacket, BasicPackets, FileDigest, HoldsPrefix;
    m := n;
    if c.status == Receiving {
      if script == [] || script[0].Bad? {
        StatusAside(file, c, n, Aborted);
      } else {
        var p := script[0].p;
        var i :| 0 <= i < |BasicPackets(file)| && BasicPackets(file)[i] == p;
        var k := PacketKeepsPrefix(file, c, n, i);
        m := RunKeepsPrefix(file, OnPacket(c, p), k, script[1..]);
        VerifiedMeans(c, p);
      }
    }
  }

  lemma StatusAside(file: seq<byte>, c: Basic, n: nat, status: Status)
    requires HoldsPrefix(file, c, n)
    ensures HoldsPrefix(file, c.(status := status), n)
  {
  }

  lemma VerifiedMeans(c: Basic, p: Packet)
    requires c.status == Receiving
    ensures OnPacket(c, p).status == Verified ==> p.Terminate? && p.digest == FileDigest(OnPacket(c, p).out)
  {
  }

  // ---- What a run can be trusted for ----

  /** The output is a whole number of leading chunks. */
  predicate ChunkPrefixed(file: seq<byte>, out: seq<byte>) {
    exists n: nat :: n <= ChunkCount(file) && out == Flatten(Chunks(file)[..n])
  }

  /** Whatever is lost, repeated or reordered, the temporary file is always a chunk prefix of the input. */
  lemma AlwaysChunkPrefix(file: seq<byte>, script: seq<Arrival>)
    requires ChunkCount(file) < U32 && Delivery(file, script)
    ensures ChunkPrefixed(file, Run(FRESH, script).out)
    ensures Run(FRESH, script).receivedBytes == |Run(FRESH, script).out|
  {
    hide Run;
    assert Flatten(Chunks(file)[..0]) == [];
    var m := RunKeepsPrefix(file, FRESH, 0, script);
  }

  /** The digest tells the file from each of its proper chunk prefixes. */
  ghost predicate DigestSeparates(file: seq<byte>) {
    forall n: nat :: n < ChunkCount(file) ==> FileDigest(Flatten(Chunks(file)[..n])) != FileDigest(file)
  }

  /** A client that reports success has the whole file. */
  ghost predicate SuccessIsWhole(file: seq<byte>) {
    forall script :: Delivery(file, script) && Run(FRESH, script).status == Verified ==> Run(FRESH, script).out == file
  }

  /** The first n packets, then TERMINATE. */
  function CutShort(file: seq<byte>, n: nat): (script: seq<Arrival>)
    requires n <= ChunkCount(file)
    ensures |script| == n + 1
  {
    seq(n + 1, i requires 0 <= i < n + 1 =>
      if i < n then FromServer(BasicPackets(file)[i]) else FromServer(Terminate(FileDigest(file))))
  }

  lemma CutShortDelivers(file: seq<byte>, n: nat)
    requires n <= ChunkCount(file)
    ensures Delivery(file, CutShort(file, n))
  {
    hide FileDigest;
    assert BasicPackets(file)[ChunkCount(file)] == Terminate(FileDigest(file));
  }

  /** The script starts with the first n DATA packets, in order. */
  predicate StartsInOrder(file: seq<byte>, script: seq<Arrival>, n: nat)
    requires n <= ChunkCount(file)
  {
    n <= |script| && forall i :: 0 <= i < n ==> script[i] == FromServer(BasicPackets(file)[i])
  }

  function AfterInOrder(file: seq<byte>, n: nat): Basic
    requires n <= ChunkCount(file)
  {
    var out := Flatten(Chunks(file)[..n]);
    Basic(n % U32, |out|, out, Receiving)
  }

  /** In order, the receiver writes chunk after chunk. */
  lemma {:induction false} InOrder(file: seq<byte>, script: seq<Arrival>, n: nat)
    requires n <= ChunkCount(file) && StartsInOrder(file, script, n)
    ensures Run(FRESH, script) == Run(AfterInOrder(file, n), script[n..])
    decreases n
  {
    hide FileDigest, Run, ChunkCount, ChunkAt, Flatten;
    if n == 0 {
      NothingWritten(file);
      assert script[0..] == script;
    } else {
      var i, cs := n - 1, Chunks(file);
      InOrder(file, script, i);
      RunStep(AfterInOrder(file, i), script, i);
      assert BasicPackets(file)[i] == Data(i % U32, ChunkAt(file, i));
      FlattenSnoc(cs[..i], cs[i]);
      assert cs[..n] == cs[..i] + [cs[i]];
      NextIdCounts(i);
    }
  }

  lemma NothingWritten(file: seq<byte>)
    ensures AfterInOrder(file, 0) == FRESH
  {
  }

  lemma FullRun(file: seq<byte>, n: nat)
    requires n <= ChunkCount(file)
    ensures Run(FRESH, CutShort(file, n)).out == Flatten(Chunks(file)[..n])
    ensures Run(FRESH, CutShort(file, n)).status ==
      if FileDigest(Flatten(Chunks(file)[..n])) == FileDigest(file) then Verified else Mismatch
  {
    hide Run, FileDigest, ChunkCount, Chunks, Flatten;
    var script := CutShort(file, n);
    InOrder(file, script, n);
    RunStep(AfterInOrder(file, n), script, n);
    RunStopped(OnPacket(AfterInOrder(file, n), script[n].p), script[n + 1..]);
  }

  /** With nothing lost, repeated or reordered, a file of any size arrives and verifies. */
  lemma InOrderArrives(file: seq<byte>)
    ensures Run(FRESH, CutShort(file, ChunkCount(file))).out == file
    ensures Run(FRESH, CutShort(file, ChunkCount(file))).status == Verified
  {
    hide Run, FileDigest;
    FullRun(file, ChunkCount(file));
    ChunksJoin(file);
    assert Chunks(file)[..ChunkCount(file)] == Chunks(file);
  }

  /** Success means the whole file exactly when the digest separates it from its proper chunk prefixes. */
  lemma SuccessIsWholeIff(file: seq<byte>)
    requires ChunkCount(file) < U32
    ensures SuccessIsWhole(file) <==> DigestSeparates(file)
  {
    hide Run, FileDigest, ChunkCount, ChunkAt;
    if DigestSeparates(file) {
      forall script | Delivery(file, script) && Run(FRESH, script).status == Verified
        ensures Run(FRESH, script).out == file
      {
        VerifiedIsWhole(file, script);
      }
    } else {
      var n: nat :| n < ChunkCount(file) && FileDigest(Flatten(Chunks(file)[..n])) == FileDigest(file);
      CutShortDelivers(file, n);
      FullRun(file, n);
      ProperPrefix(file, n);
    }
  }

  lemma ProperPrefix(file: seq<byte>, n: nat)
    requires n < ChunkCount(file)
    ensures Flatten(Chunks(file)[..n]) != file
  {
    ChunkPrefix(file, n);
    assert DATA_CHUNK_SIZE * n < |file|;
  }

  lemma VerifiedIsWhole(file: seq<byte>, script: seq<Arrival>)
    requires ChunkCount(file) < U32 && Delivery(file, script)
    ensures DigestSeparates(file) && Run(FRESH, script).status == Verified ==> Run(FRESH, script).out == file
  {
    hide Run, FileDigest, ChunkCount, ChunkAt;
    assert Flatten(Chunks(file)[..0]) == [];
    var n := RunKeepsPrefix(file, FRESH, 0, script);
    if DigestSeparates(file) && Run(FRESH, script).status == Verified {
      assert n == ChunkCount(file);
      ChunksJoin(file);
      assert Chunks(file)[..n] == Chunks(file);
    }
  }

  // ---- Where the ids wrap ----

  /** n full chunks, the first of ones and the rest of zeros. */
  function MarkedFile(n: nat): (file: seq<byte>)
    ensures |file| == DATA_CHUNK_SIZE * n && ChunkCount(file) == n
  {
    seq(DATA_CHUNK_SIZE * n, k requires 0 <= k => if k < DATA_CHUNK_SIZE then 1 else 0)
  }

  /** The first 2^32 chunks in order and then the first chunk once more. */
  function Wrapped(file: seq<byte>): (script: seq<Arrival>)
    requires ChunkCount(file) >= U32
    ensures |script| == U32 + 1
  {
    seq(U32 + 1, i requires 0 <= i < U32 + 1 => FromServer(BasicPackets(file)[i % U32]))
  }

  /** The repeated first chunk is taken for the next one, because its id has come round again. */
  lemma WrappedRun(file: seq<byte>)
    requires ChunkCount(file) >= U32
    ensures Delivery(file, Wrapped(file))
    ensures Run(FRESH, Wrapped(file)).out == Flatten(Chunks(file)[..U32]) + ChunkAt(file, 0)
  {
    hide Run, FileDigest, ChunkCount, ChunkAt, Chunks, Flatten, BasicPackets;
    var script := Wrapped(file);
    InOrder(file, script, U32);
    var c := AfterInOrder(file, U32);
    RunStep(c, script, U32);
    assert script[U32] == FromServer(BasicPackets(file)[0]);
    PacketForm(file, 0);
    RunEndsAborted(OnPacket(c, script[U32].p), script[U32 + 1..]);
  }

  lemma RunEndsAborted(c: Basic, script: seq<Arrival>)
    requires script == []
    ensures Run(c, script).out == c.out
  {
  }

  lemma MarkedBreaks(n: nat)
    requires n >= U32
    ensures !ChunkPrefixed(MarkedFile(n), Run(FRESH, Wrapped(MarkedFile(n))).out)
  {
    hide Run, Wrapped, Flatten;
    var file := MarkedFile(n);
    var out := Run(FRESH, Wrapped(file)).out;
    WrappedRun(file);
    ChunkPrefix(file, U32);
    assert |out| == DATA_CHUNK_SIZE * (U32 + 1) && out[DATA_CHUNK_SIZE * U32] == 1;
    forall k: nat | k <= n
      ensures out != Flatten(Chunks(file)[..k])
    {
      ChunkPrefix(file, k);
      if k == U32 + 1 {
        assert file[DATA_CHUNK_SIZE * U32] == 0;
      }
    }
  }

  /** For every file of n chunks and every delivery the output is a chunk prefix: so exactly when n is below 2^32. */
  lemma PrefixHoldsIff(n: nat)
    ensures (forall file: seq<byte>, script: seq<Arrival> ::
              ChunkCount(file) == n && Delivery(file, script) ==> ChunkPrefixed(file, Run(FRESH, script).out))
            <==> n < U32
  {
    hide Run, ChunkPrefixed, Delivery, ChunkCount;
    if n < U32 {
      forall file: seq<byte>, script: seq<Arrival> | ChunkCount(file) == n && Delivery(file, script)
        ensures ChunkPrefixed(file, Run(FRESH, script).out)
      {
        AlwaysChunkPrefix(file, script);
      }
    } else {
      var file := MarkedFile(n);
      WrappedRun(file);
      MarkedBreaks(n);
    }
  }
}
