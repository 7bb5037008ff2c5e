/** The sliding-window sender of server.c. */
module ReliableServer {
  import opened Bytes
  import opened Packets
  import opened FileChunks

  datatype ReliableChunk = ReliableChunk(
    packetId: u32, payload: seq<byte>, acked: bool, sendCount: nat,
    dropFirst: bool, dupFirst: bool, reorderFirst: bool, reorderPending: bool)

  /** The chunk numbers named by the loss, duplicate and reorder environment lists. */
  datatype Faults = Faults(loss: set<nat>, dup: set<nat>, reorder: set<nat>)

  const ZERO_CHUNK := ReliableChunk(0, [], false, 0, false, false, false, false)

  function FreshChunk(i: nat, payload: seq<byte>, faults: Faults): ReliableChunk {
    var id := i % U32;
    ReliableChunk(id, payload, false, 0, id in faults.loss, id in faults.dup, id in faults.reorder, false)
  }

  function FreshChunks(file: seq<byte>, faults: Faults): (cs: seq<ReliableChunk>)
    ensures |cs| == ChunkCount(file)
  {
    seq(ChunkCount(file), i requires 0 <= i < ChunkCount(file) => FreshChunk(i, ChunkAt(file, i), faults))
  }

  /** A fresh chunk: its number modulo 2^32, its bytes, not sent, not acknowledged, and the marks set for its number. */
  lemma FreshMarks(file: seq<byte>, faults: Faults, i: nat)
    requires i < ChunkCount(file)
    ensures var c, id := FreshChunks(file, faults)[i], i % 0x1_0000_0000;
      && c.packetId == id && c.payload == ChunkAt(file, i) && !c.acked && c.sendCount == 0 && !c.reorderPending
      && (c.dropFirst <==> id in faults.loss)
      && (c.dupFirst <==> id in faults.dup)
      && (c.reorderFirst <==> id in faults.reorder)
  {
    hide ChunkAt;
  }

  function Wire(c: ReliableChunk): Packet {
    Data(c.packetId, c.payload)
  }

  /** One call of send_reliable_chunk: the chunk afterwards and the datagrams put on the wire. */
  function SendChunk(c: ReliableChunk): (ReliableChunk, seq<Packet>) {
    if c.sendCount == 0 && c.reorderFirst then
      (c.(reorderFirst := false, reorderPending := true), [])
    else if c.sendCount == 0 && c.dropFirst then
      (c.(dropFirst := false, sendCount := 1), [])
    else if c.sendCount == 0 && c.dupFirst then
      (c.(dupFirst := false, sendCount := 1), [Wire(c), Wire(c)])
    else
      (c.(sendCount := c.sendCount + 1), [Wire(c)])
  }

  /** The two loops that visit a range of chunks: releasing held ones, and resending those whose timer is due. */
  datatype Visit = Release | Resend(due: set<nat>)

  function VisitOne(v: Visit, i: nat, c: ReliableChunk): (ReliableChunk, seq<Packet>) {
    match v
    case Release =>
      if !c.reorderPending || c.acked then (c, []) else SendChunk(c.(reorderPending := false))
    case Resend(due) =>
      if c.acked || c.reorderPending || c.sendCount == 0 || i !in due then (c, []) else SendChunk(c)
  }

  function VisitRange(v: Visit, cs: seq<ReliableChunk>, lo: nat, hi: nat): (r: (seq<ReliableChunk>, seq<Packet>))
    requires hi <= |cs|
    ensures |r.0| == |cs|
  {
    if hi <= lo then (cs, [])
    else
      var (before, emitted) := VisitRange(v, cs, lo, hi - 1);
      var (c, more) := VisitOne(v, hi - 1, before[hi - 1]);
      (before[hi - 1 := c], emitted + more)
  }

  /** What transfer_file_reliable keeps: the chunks, the window edges and everything it has sent. */
  datatype Tx = Tx(chunks: seq<ReliableChunk>, base: nat, next: nat, sent: seq<Packet>) {
    predicate Bounds() {
      base <= |chunks| && next <= |chunks|
    }
  }

  function SendAt(tx: Tx, i: nat): Tx
    requires i < |tx.chunks|
  {
    var (c, emitted) := SendChunk(tx.chunks[i]);
    tx.(chunks := tx.chunks[i := c], sent := tx.sent + emitted)
  }

  function ReleaseUpTo(tx: Tx, n: nat): Tx
    requires n <= |tx.chunks|
  {
    var (cs, emitted) := VisitRange(Release, tx.chunks, 0, n);
    tx.(chunks := cs, sent := tx.sent + emitted)
  }

  /** One turn of the fill loop. */
  function FillOne(tx: Tx): (r: Tx)
    requires tx.next < |tx.chunks|
    ensures |r.chunks| == |tx.chunks| && r.base == tx.base && r.next == tx.next + 1
  {
    ReleaseUpTo(SendAt(tx, tx.next), tx.next + 1).(next := tx.next + 1)
  }

  function Fill(tx: Tx, window: nat): (r: Tx)
    ensures |r.chunks| == |tx.chunks| && r.base == tx.base
    decreases |tx.chunks| - tx.next
  {
    if tx.next < |tx.chunks| && tx.next < tx.base + window then Fill(FillOne(tx), window) else tx
  }

  function FirstUnacked(cs: seq<ReliableChunk>, from: nat): (b: nat)
    requires from <= |cs|
    ensures from <= b <= |cs|
    ensures forall i :: from <= i < b ==> cs[i].acked
    ensures b < |cs| ==> !cs[b].acked
    decreases |cs| - from
  {
    if from < |cs| && cs[from].acked then FirstUnacked(cs, from + 1) else from
  }

  function MarkAcked(cs: seq<ReliableChunk>, lo: nat, hi: nat): (r: seq<ReliableChunk>)
    requires hi <= |cs|
    ensures |r| == |cs|
    ensures forall i :: 0 <= i < |cs| ==> r[i] == if lo <= i < hi then cs[i].(acked := true) else cs[i]
  {
    if hi <= lo then cs else MarkAcked(cs, lo, hi - 1)[hi - 1 := cs[hi - 1].(acked := true)]
  }

  /** The feedback branches: a cumulative ACK, a NACK for one chunk, anything else ignored. */
  function OnFeedback(tx: Tx, p: Packet): (r: Tx)
    requires tx.Bounds()
    ensures |r.chunks| == |tx.chunks| && r.Bounds() && r.next == tx.next && tx.base <= r.base
  {
    match p
    case Ack(id, _) =>
      var cs := MarkAcked(tx.chunks, tx.base, Min(id, |tx.chunks|));
      tx.(chunks := cs, base := FirstUnacked(cs, tx.base))
    case Nack(id, _) =>
      if id < |tx.chunks| && !tx.chunks[id].acked then SendAt(tx, id) else tx
    case _ => tx
  }

  function ResendDue(tx: Tx, due: set<nat>): (r: Tx)
    requires tx.Bounds()
    ensures |r.chunks| == |tx.chunks| && r.base == tx.base && r.next == tx.next
  {
    var (cs, emitted) := VisitRange(Resend(due), tx.chunks, tx.base, tx.next);
    tx.(chunks := cs, sent := tx.sent + emitted)
  }

  /** What one receive call of the sender's loop can bring. */
  datatype Arrival = Silence | Stranger | Malformed | FromPeer(p: Packet)

  function OnArrival(tx: Tx, a: Arrival): (r: Tx)
    requires tx.Bounds()
    ensures |r.chunks| == |tx.chunks| && r.Bounds()
  {
    if a.FromPeer? then OnFeedback(tx, a.p) else tx
  }

  /** One turn of the outer loop: fill the window, take one arrival, resend what is due. */
  function Turn(tx: Tx, window: nat, a: Arrival, due: set<nat>): (r: Tx)
    requires tx.Bounds()
    ensures |r.chunks| == |tx.chunks| && r.Bounds()
  {
    FillBounds(tx, window);
    ResendDue(OnArrival(Fill(tx, window), a), due)
  }

  lemma {:induction false} FillBounds(tx: Tx, window: nat)
    requires tx.Bounds()
    ensures Fill(tx, window).Bounds() && tx.next <= Fill(tx, window).next
    decreases |tx.chunks| - tx.next
  {
    if tx.next < |tx.chunks| && tx.next < tx.base + window {
      FillBounds(FillOne(tx), window);
    }
  }

  datatype Outcome = Sent | Failed

  /**
   * The whole transfer over a script of arrivals and timer expiries. The script's end is the stop signal; it can also
   * have come by the time the last chunk is acknowledged, and is then found before TERMINATE is sent.
   */
  function Transfer(tx: Tx, window: nat, digest: seq<byte>, script: seq<(Arrival, set<nat>)>,
        stopped: bool): (Tx, Outcome)
    requires tx.Bounds()
    decreases |script|
  {
    if tx.base == |tx.chunks| then
      if stopped then (tx, Failed)
      else (tx.(sent := tx.sent + [Terminate(digest), Terminate(digest), Terminate(digest)]), Sent)
    else if script == [] then (tx, Failed)
    else if script[0].0.Malformed? then (Fill(tx, window), Failed)
    else Transfer(Turn(tx, window, script[0].0, script[0].1), window, digest, script[1..], stopped)
  }

  class Sender {
    var chunks: array<ReliableChunk>
    var base: nat
    var next: nat
    var sent: seq<Packet>  // every datagram handed to the socket, in order
    const count: nat
    const window: nat

    ghost predicate Valid()
      reads this, chunks
    {
      count <= chunks.Length && base <= count && next <= count
    }

    ghost function View(): Tx
      reads this, chunks
      requires Valid()
    {
      Tx(chunks[..count], base, next, sent)
    }

    /** load_reliable_chunks: read the file chunk by chunk into an array that doubles when full. */
    static method LoadReliableChunks(file: seq<byte>, faults: Faults) returns (chunks: array<ReliableChunk>, count: nat)
      ensures fresh(chunks) && count <= chunks.Length
      ensures chunks[..count] == FreshChunks(file, faults)
    {
      chunks, count := new ReliableChunk[0], 0;
      var pos := 0;
      while pos < |file|
        invariant fresh(chunks) && count <= chunks.Length
        invariant pos == Min(DATA_CHUNK_SIZE * count, |file|) && count <= ChunkCount(file)
        invariant chunks[..count] == FreshChunks(file, faults)[..count]
        decreases |file| - pos
      {
        var data := file[pos..Min(pos + DATA_CHUNK_SIZE, |file|)];
        if count == chunks.Length {
          var newCap := if chunks.Length > 0 then chunks.Length * 2 else 32;
          var grown := new ReliableChunk[newCap](_ => ZERO_CHUNK);
          CopyInto(grown, 0, chunks[..]);
          assert grown[..count] == chunks[..count];
          chunks := grown;
        }
        assert data == ChunkAt(file, count);
        chunks[count] := FreshChunk(count, data, faults);
        ghost var want := FreshChunks(file, faults);
        assert chunks[..count + 1] == chunks[..count] + [want[count]];
        assert want[..count + 1] == want[..count] + [want[count]];
        count := count + 1;
        pos := pos + |data|;
      }
      assert FreshChunks(file, faults)[..count] == FreshChunks(file, faults);
    }

    constructor (file: seq<byte>, faults: Faults, window: nat)
      ensures Valid() && fresh(chunks) && this.window == window
      ensures View() == Tx(FreshChunks(file, faults), 0, 0, [])
    {
      var cs, n := LoadReliableChunks(file, faults);
      this.chunks, this.count, this.window := cs, n, window;
      base, next, sent := 0, 0, [];
    }

    method SendReliableChunk(i: nat)
      requires Valid() && i < count
      modifies this`sent, chunks
      ensures Valid() && View() == SendAt(old(View()), i)
    {
      var c := chunks[i];
      if c.sendCount == 0 && c.reorderFirst {
        chunks[i] := c.(reorderFirst := false, reorderPending := true);
        return;
      }
      if c.sendCount == 0 && c.dropFirst {
        chunks[i] := c.(dropFirst := false, sendCount := c.sendCount + 1);
        return;
      }
      sent := sent + [Wire(c)];
      chunks[i] := c.(sendCount := c.sendCount + 1);
      if chunks[i].sendCount == 1 && chunks[i].dupFirst {
        chunks[i] := chunks[i].(dupFirst := false);
        sent := sent + [Wire(c)];
      }
    }

    method ReleaseDelayedChunks(n: nat)
      requires Valid() && n <= count
      modifies this`sent, chunks
      ensures Valid() && View() == ReleaseUpTo(old(View()), n)
    {
      hide SendChunk;
      for i := 0 to n
        invariant Valid() && chunks == old(chunks) && base == old(base) && next == old(next)
        invariant View() == ReleaseUpTo(old(View()), i)
      {
        ghost var before := View();
        var c := chunks[i];
        if !c.reorderPending || c.acked {
          continue;
        }
        chunks[i] := c.(reorderPending := false);
        SendReliableChunk(i);
        assert View().chunks == before.chunks[i := VisitOne(Release, i, c).0];
      }
    }

    method FillWindow()
      requires Valid()
      modifies this`next, this`sent, chunks
      ensures Valid() && View() == Fill(old(View()), window)
    {
      hide SendAt, ReleaseUpTo;
      while next < count && next < base + window
        invariant Valid() && chunks == old(chunks) && base == old(base)
        invariant Fill(View(), window) == Fill(old(View()), window)
        decreases count - next
      {
        ghost var before := View();
        SendReliableChunk(next);
        ReleaseDelayedChunks(next + 1);
        next := next + 1;
        assert View() == FillOne(before);
      }
    }

    /** The two loops of the ACK branch: mark what the cumulative ACK covers, then advance the window edge. */
    method MarkUpTo(upto: nat)
      requires Valid() && upto <= count
      modifies chunks
      ensures Valid() && View() == old(View()).(chunks := MarkAcked(old(View()).chunks, base, upto))
    {
      hide FirstUnacked;
      var i := base;
      ghost var start := View().chunks;
      while i < upto
        invariant Valid() && base <= i
        invariant chunks[..count] == MarkAcked(start, base, Min(i, upto))
      {
        chunks[i] := chunks[i].(acked := true);
        i := i + 1;
        assert chunks[..count] == MarkAcked(start, base, i - 1)[i - 1 := start[i - 1].(acked := true)];
      }
    }

    method AdvanceBase()
      requires Valid()
      modifies this`base
      ensures Valid() && View() == old(View()).(base := FirstUnacked(old(View()).chunks, old(base)))
    {
      while base < count && chunks[base].acked
        invariant Valid()
        invariant FirstUnacked(chunks[..count], base) == FirstUnacked(old(chunks[..count]), old(base))
        decreases count - base
      {
        base := base + 1;
      }
    }

    method HandleFeedback(p: Packet)
      requires Valid()
      modifies this`base, this`sent, chunks
      ensures Valid() && View() == OnFeedback(old(View()), p)
    {
      hide MarkAcked, FirstUnacked, SendAt;
      if p.Ack? {
        var upto := p.ackId;
        if upto > count {
          upto := count % U32;
        }
        assert upto == Min(p.ackId, count);
        MarkUpTo(upto);
        AdvanceBase();
      } else if p.Nack? {
        var missing := p.ackId;
        if missing < count && !chunks[missing].acked {
          SendReliableChunk(missing);
        }
      }
    }

    method ResendExpired(due: set<nat>)
      requires Valid()
      modifies this`sent, chunks
      ensures Valid() && View() == ResendDue(old(View()), due)
    {
      hide SendChunk;
      var i := base;
      while i < next
        invariant Valid() && chunks == old(chunks)
        invariant base <= i
        invariant View().chunks == VisitRange(Resend(due), old(View()).chunks, base, Min(i, next)).0
        invariant sent == old(sent) + VisitRange(Resend(due), old(View()).chunks, base, Min(i, next)).1
      {
        ghost var before := View();
        var c := chunks[i];
        if !(c.acked || c.reorderPending || c.sendCount <= 0) && i in due {
          SendReliableChunk(i);
        }
        assert View().chunks == before.chunks[i := VisitOne(Resend(due), i, c).0];
        i := i + 1;
      }
      assert base <= next ==> Min(i, next) == next;
    }

    /** TERMINATE is sent three times, without waiting for an answer. */
    method SendTerminate(digest: seq<byte>)
      modifies this`sent
      ensures sent == old(sent) + [Terminate(digest), Terminate(digest), Terminate(digest)]
    {
      for i := 0 to 3
        invariant sent == old(sent) + [Terminate(digest), Terminate(digest), Terminate(digest)][..i]
      {
        sent := sent + [Terminate(digest)];
      }
    }

    /** transfer_file_reliable, driven by a script of what each receive call and each timer check yields. */
    method TransferFileReliable(digest: seq<byte>, script: seq<(Arrival, set<nat>)>, stopped: bool)
      returns (rc: Outcome)
      requires Valid()
      modifies this`base, this`next, this`sent, chunks
      ensures Valid() && (View(), rc) == Transfer(old(View()), window, digest, script, stopped)
    {
      var k := 0;
      while base < count && k < |script|
        invariant Valid() && chunks == old(chunks) && k <= |script|
        invariant Transfer(View(), window, digest, script[k..], stopped) ==
          Transfer(old(View()), window, digest, script, stopped)
        decreases |script| - k
      {
        ghost var before := View();
        FillWindow();
        FillBounds(before, window);
        var (arrival, due) := script[k];
        if arrival.Malformed? {
          return Failed;
        }
        if arrival.FromPeer? {
          HandleFeedback(arrival.p);
        }
        ResendExpired(due);
        assert View() == Turn(before, window, arrival, due);
        k := k + 1;
      }
      if base < count || stopped {
        return Failed;
      }
      SendTerminate(digest);
      return Sent;
    }
  }
}
