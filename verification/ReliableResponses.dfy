/** What each packet and each expired timer draws: resends on a NACK or a timeout, acknowledgements and gap reports. */
module ReliableResponses {
  import opened Bytes
  import opened Packets
  import opened FileChunks
  import opened ReliableServer
  import opened ReliableClient
  import opened ReliableSystem
  import Sha1Spec

  // ---- The sender ----

  /** A NACK for a chunk that was sent draws that chunk again at once, unless it is acknowledged; nothing else moves. */
  lemma NackResends(cfg: Config, tx: Tx, id: u32, w: u32)
    requires SenderInv(cfg, tx) && id < tx.next
    ensures var r := OnFeedback(tx, Nack(id, w));
      && r.sent == tx.sent + (if id < tx.base then [] else [Data(id, ChunkAt(cfg.file, id))])
      && r.base == tx.base && r.next == tx.next
      && (forall i :: 0 <= i < |tx.chunks| && i != id ==> r.chunks[i] == tx.chunks[i])
      && r.chunks[id].sendCount == tx.chunks[id].sendCount + (if id < tx.base then 0 else 1)
  {
    hide ChunkAt;
    assert ChunkInv(cfg, tx, id);
    SendKeepsChunk(tx.chunks[id]);
    SendAtKeeps(cfg, tx, id);
    assert tx.sent + [] == tx.sent;
  }

  /** A NACK ahead of what was sent is taken for a first send call, unless it names no chunk. */
  lemma NackAhead(cfg: Config, tx: Tx, id: u32, w: u32)
    requires SenderInv(cfg, tx) && tx.next <= id
    ensures OnFeedback(tx, Nack(id, w)).sent == tx.sent + (
      if id >= ChunkCount(cfg.file) || id in cfg.faults.reorder || id in cfg.faults.loss then []
      else if id in cfg.faults.dup then [Data(id, ChunkAt(cfg.file, id)), Data(id, ChunkAt(cfg.file, id))]
      else [Data(id, ChunkAt(cfg.file, id))])
  {
    hide ChunkAt;
    assert tx.sent + [] == tx.sent;
    if id < |tx.chunks| {
      assert ChunkInv(cfg, tx, id);
    }
  }

  lemma OthersIgnored(tx: Tx, p: Packet)
    requires tx.Bounds()
    ensures OnFeedback(tx, p) != tx ==> p.Ack? || p.Nack?
  {
  }

  /** What a timer check puts on the wire between two window positions. */
  ghost predicate DueOnly(file: seq<byte>, lo: nat, hi: nat, due: set<nat>, more: seq<Packet>)
    requires hi <= ChunkCount(file) < U32
  {
    && (forall k :: 0 <= k < |more| ==>
          more[k].Data? && lo <= more[k].id < hi && more[k].id in due && more[k].payload == ChunkAt(file, more[k].id))
    && (forall j, k :: 0 <= j < k < |more| ==> more[j].Data? && more[k].Data? && more[j].id < more[k].id)
    && (forall i: nat :: lo <= i < hi && i in due ==> Data(i, ChunkAt(file, i)) in more)
  }

  lemma {:induction false} VisitDue(cfg: Config, tx: Tx, due: set<nat>, hi: nat)
    requires SenderInv(cfg, tx) && tx.base <= hi <= tx.next
    ensures DueOnly(cfg.file, tx.base, hi, due, VisitRange(Resend(due), tx.chunks, tx.base, hi).1)
    decreases hi
  {
    hide ChunkAt, ChunkInv, SentInv;
    if tx.base < hi {
      var i := hi - 1;
      var (before, emitted) := VisitRange(Resend(due), tx.chunks, tx.base, i);
      VisitDue(cfg, tx, due, i);
      VisitRangeAt(Resend(due), tx.chunks, tx.base, i, i);
      VisitOneDue(cfg, tx, due, i);
      hide VisitOne;
      DueSnoc(cfg.file, tx.base, i, due, emitted);
    }
  }

  lemma VisitOneDue(cfg: Config, tx: Tx, due: set<nat>, i: nat)
    requires SenderInv(cfg, tx) && tx.base <= i < tx.next
    ensures VisitOne(Resend(due), i, tx.chunks[i]).1 == if i in due then [Data(i, ChunkAt(cfg.file, i))] else []
  {
    hide ChunkAt;
    ResendOne(cfg, tx, due, i);
  }

  lemma DueSnoc(file: seq<byte>, lo: nat, i: nat, due: set<nat>, more: seq<Packet>)
    requires lo <= i < ChunkCount(file) < U32 && DueOnly(file, lo, i, due, more)
    ensures DueOnly(file, lo, i + 1, due, more + (if i in due then [Data(i, ChunkAt(file, i))] else []))
  {
    hide ChunkAt, ChunkCount;
    var all := more + (if i in due then [Data(i, ChunkAt(file, i))] else []);
    forall n: nat | lo <= n < i + 1 && n in due
      ensures Data(n, ChunkAt(file, n)) in all
    {
      if n == i {
        assert all[|more|] == Data(i, ChunkAt(file, i));
      } else {
        assert Data(n, ChunkAt(file, n)) in more;
      }
    }
  }

  /**
   * A timer check sends, in increasing order, exactly one copy of every chunk of the window whose timer has expired,
   * and nothing else.
   */
  lemma TimersResendExactlyDue(cfg: Config, tx: Tx, due: set<nat>)
    requires SenderInv(cfg, tx)
    ensures tx.sent <= ResendDue(tx, due).sent
    ensures DueOnly(cfg.file, tx.base, tx.next, due, ResendDue(tx, due).sent[|tx.sent|..])
  {
    hide DueOnly, ChunkInv, SentInv;
    VisitDue(cfg, tx, due, tx.next);
    var emitted := VisitRange(Resend(due), tx.chunks, tx.base, tx.next).1;
    assert (tx.sent + emitted)[|tx.sent|..] == emitted;
  }

  /** The release loop makes a send call for exactly the held, unacknowledged chunks below its limit, in order. */
  lemma ReleaseSendsHeld(tx: Tx, n: nat, i: nat)
    requires n <= |tx.chunks| && i < |tx.chunks|
    ensures var held := i < n && tx.chunks[i].reorderPending && !tx.chunks[i].acked;
      ReleaseUpTo(tx, n).chunks[i] ==
        if held then SendChunk(tx.chunks[i].(reorderPending := false)).0 else tx.chunks[i]
    ensures var held := tx.chunks[i].reorderPending && !tx.chunks[i].acked;
      ReleaseUpTo(tx, i + 1).sent ==
        ReleaseUpTo(tx, i).sent + (if held then SendChunk(tx.chunks[i].(reorderPending := false)).1 else [])
  {
    hide SendChunk;
    VisitRangeAt(Release, tx.chunks, 0, n, i);
    VisitRangeAt(Release, tx.chunks, 0, i, i);
    var (before, emitted) := VisitRange(Release, tx.chunks, 0, i);
    ConcatAssoc(tx.sent, emitted, VisitOne(Release, i, before[i]).1);
  }

  /**
   * Whatever the sender was fed, a timer check makes a send call for exactly the chunks of the window that are due,
   * were sent, and are neither held nor acknowledged.
   */
  lemma TimersVisit(tx: Tx, due: set<nat>, i: nat)
    requires tx.Bounds() && i < |tx.chunks|
    ensures var c := tx.chunks[i];
      ResendDue(tx, due).chunks[i] ==
        if tx.base <= i < tx.next && i in due && c.sendCount > 0 && !c.reorderPending && !c.acked then SendChunk(c).0
        else c
  {
    hide SendChunk;
    VisitRangeAt(Resend(due), tx.chunks, tx.base, tx.next, i);
  }

  /** A transfer that succeeds has sent TERMINATE with the digest three times at its very end. */
  lemma {:induction false} EndsInThreeTerminates(tx: Tx, window: nat, digest: seq<byte>,
        script: seq<(ReliableServer.Arrival, set<nat>)>, stopped: bool)
    requires tx.Bounds()
    ensures var (r, rc) := Transfer(tx, window, digest, script, stopped);
      rc == Sent ==>
        |r.sent| >= 3 && r.sent[|r.sent| - 3..] == [Terminate(digest), Terminate(digest), Terminate(digest)]
    decreases |script|
  {
    hide Turn, Fill;
    if tx.base < |tx.chunks| && script != [] && !script[0].0.Malformed? {
      EndsInThreeTerminates(Turn(tx, window, script[0].0, script[0].1), window, digest, script[1..], stopped);
    }
  }

  // ---- The receiver ----

  /** DATA ahead of the expected id is held, not written, and reported as a gap before the acknowledgement. */
  lemma GapIsReported(rx: Rx, w: u32, id: u32, payload: seq<byte>)
    requires rx.expected !in rx.held && rx.expected < id
    ensures var r := OnData(rx, w, id, payload);
      && r.feedback == rx.feedback + [Nack(rx.expected, w), Ack(rx.expected, w)]
      && r.expected == rx.expected && r.out == rx.out && r.receivedBytes == rx.receivedBytes && r.status == rx.status
      && r.held == if id in rx.held then rx.held else rx.held[id as nat := payload]
  {
    DrainUnfolds(Store(rx, w, id, payload));
    assert rx.feedback + [Nack(rx.expected, w)] + [Ack(rx.expected, w)] ==
      rx.feedback + [Nack(rx.expected, w), Ack(rx.expected, w)];
  }

  /** DATA that was written before is only acknowledged; the expected DATA is written, and acknowledged once. */
  lemma NoGapNoReport(rx: Rx, w: u32, id: u32, payload: seq<byte>)
    requires rx.expected !in rx.held && id <= rx.expected
    ensures var r := OnData(rx, w, id, payload);
      && r.feedback == rx.feedback + [Ack(r.expected, w)]
      && (id < rx.expected ==> r == rx.(feedback := r.feedback))
      && (id == rx.expected ==> rx.out + payload <= r.out && r.expected !in r.held && r.status == rx.status)
  {
    if id == rx.expected {
      var stored := Store(rx, w, id, payload);
      DrainUnfolds(stored);
      DrainAppends(TakeNext(stored));
    }
  }

  /** The write-out loop only appends. */
  lemma {:induction false} DrainAppends(rx: Rx)
    ensures rx.out <= Drain(rx).out
    decreases |rx.held|
  {
    if rx.expected in rx.held {
      DrainAppends(TakeNext(rx));
    }
  }

  /** TERMINATE is acknowledged whether or not the digest is that of what was written, and it ends the loop. */
  lemma TerminateAnswered(rx: Rx, w: u32, digest: seq<byte>)
    ensures var r := Receive(rx, w, Terminate(digest));
      && r.feedback == rx.feedback + [Ack(rx.expected, w)]
      && (r.status == Verified <==> digest == Sha1Spec.Digest(rx.out))
      && (r.status == Mismatch <==> digest != Sha1Spec.Digest(rx.out))
      && r.(feedback := rx.feedback, status := rx.status) == rx
  {
    hide Sha1Spec.Digest;
  }

  /** Any other packet ends the loop without an answer. */
  lemma OthersAbort(rx: Rx, w: u32, p: Packet)
    requires !p.Data? && !p.Terminate?
    ensures Receive(rx, w, p) == rx.(status := Aborted)
  {
  }
}
