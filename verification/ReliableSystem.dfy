/** Sender, receiver and a network that may lose, duplicate and reorder datagrams in both directions. */
module ReliableSystem {
  import opened Bytes
  import opened Packets
  import opened FileChunks
  import opened ReliableServer
  import opened ReliableClient
  import Sha1Spec

  datatype Config = Config(file: seq<byte>, window: nat, receiverWindow: u32, faults: Faults)

  /** Where the sender's loop stands: about to fill or leave, about to listen, about to check timers, closing down. */
  datatype Phase = Filling | Listening | Resending | Closing(terminates: nat) | Stopped

  datatype Sys = Sys(tx: Tx, phase: Phase, rx: Rx)

  datatype Event =
    | FillWindow
    | Listen(a: ReliableServer.Arrival)
    | CheckTimers(due: set<nat>)
    | CloseDown
    | ServerStop
    | Deliver(p: Packet)
    | ClientStop
    | Idle

  function Init(cfg: Config): Sys {
    Sys(Tx(FreshChunks(cfg.file, cfg.faults), 0, 0, []), Filling, START)
  }

  /** Packets of the authentication phase, which the network may still repeat. */
  predicate Stray(p: Packet) {
    !p.Data? && !p.Terminate? && !p.Ack? && !p.Nack?
  }

  /** A datagram can arrive any number of times, at any moment after it was sent, or never. */
  predicate Enabled(s: Sys, e: Event) {
    match e
    case FillWindow => s.phase == Filling && s.tx.base < |s.tx.chunks|
    case Listen(a) => s.phase == Listening && (a.FromPeer? ==> a.p in s.rx.feedback || Stray(a.p))
    case CheckTimers(_) => s.phase == Resending
    case CloseDown =>
      (s.phase == Filling && s.tx.base >= |s.tx.chunks|) || (s.phase.Closing? && s.phase.terminates < 3)
    case ServerStop => true
    case Deliver(p) => s.rx.status == Receiving && (p in s.tx.sent || Stray(p))
    case ClientStop => s.rx.status == Receiving
    case Idle => true
  }

  function Apply(cfg: Config, s: Sys, e: Event): Sys
    requires s.tx.Bounds()
  {
    match e
    case FillWindow => s.(tx := Fill(s.tx, cfg.window), phase := Listening)
    case Listen(a) =>
      if a.Malformed? then s.(phase := Stopped)
      else s.(tx := OnArrival(s.tx, a), phase := Resending)
    case CheckTimers(due) => s.(tx := ResendDue(s.tx, due), phase := Filling)
    case CloseDown =>
      s.(tx := s.tx.(sent := s.tx.sent + [Terminate(Sha1Spec.Digest(cfg.file))]),
         phase := Closing(if s.phase.Closing? then s.phase.terminates + 1 else 1))
    case ServerStop => s.(phase := Stopped)
    case Deliver(p) => s.(rx := Receive(s.rx, cfg.receiverWindow, p))
    case ClientStop => s.(rx := s.rx.(status := Aborted))
    case Idle => s
  }

  /** The sender's window edges stay inside the chunk array, whatever feedback it is fed. */
  lemma BoundsKept(cfg: Config, s: Sys, e: Event)
    requires s.tx.Bounds()
    ensures Apply(cfg, s, e).tx.Bounds()
  {
    FillBounds(s.tx, cfg.window);
  }

  ghost predicate Path(cfg: Config, s: Sys, es: seq<Event>, t: Sys)
    requires s.tx.Bounds()
    decreases |es|
  {
    if es == [] then s == t
    else Enabled(s, es[0]) && (BoundsKept(cfg, s, es[0]); Path(cfg, Apply(cfg, s, es[0]), es[1..], t))
  }

  ghost predicate Reachable(cfg: Config, s: Sys) {
    exists es :: Path(cfg, Init(cfg), es, s)
  }

  // ---- The invariant ----

  predicate ChunkInv(cfg: Config, tx: Tx, i: nat)
    requires i < |tx.chunks| == ChunkCount(cfg.file)
  {
    var c := tx.chunks[i];
    && c.packetId == i % U32 && c.payload == ChunkAt(cfg.file, i)
    && (c.acked <==> i < tx.base)
    && !c.reorderPending
    && (i < tx.next ==> c.sendCount >= 1)
    && (i >= tx.next ==> c == FreshChunk(i, ChunkAt(cfg.file, i), cfg.faults))
  }

  /** Every datagram the server has sent carries a chunk below next, or closes a fully acknowledged transfer. */
  predicate SentInv(cfg: Config, tx: Tx, p: Packet)
  {
    match p
    case Data(id, payload) => id < tx.next && id < ChunkCount(cfg.file) && payload == ChunkAt(cfg.file, id)
    case Terminate(digest) => digest == Sha1Spec.Digest(cfg.file) && tx.base == ChunkCount(cfg.file)
    case _ => false
  }

  ghost predicate SenderInv(cfg: Config, tx: Tx) {
    && |tx.chunks| == ChunkCount(cfg.file) < U32
    && tx.base <= tx.next <= ChunkCount(cfg.file)
    && tx.next <= tx.base + cfg.window
    && (forall i :: 0 <= i < |tx.chunks| ==> ChunkInv(cfg, tx, i))
    && (forall p :: p in tx.sent ==> SentInv(cfg, tx, p))
  }

  /**
   * What the receiver has written is the concatenation of the first expected chunks; what it holds are later
   * chunks.
   */
  ghost predicate WrittenPrefix(file: seq<byte>, limit: nat, rx: Rx) {
    && rx.expected <= limit <= ChunkCount(file) < U32
    && rx.out == Flatten(Chunks(file)[..rx.expected])
    && rx.receivedBytes == |rx.out|
    && (forall i :: i in rx.held ==> rx.expected <= i < limit && rx.held[i] == ChunkAt(file, i))
  }

  predicate FeedbackInv(tx: Tx, rx: Rx, p: Packet) {
    (p.Ack? || (p.Nack? && p.ackId < tx.next)) && p.ackId <= rx.expected
  }

  ghost predicate ReceiverInv(cfg: Config, tx: Tx, rx: Rx) {
    && WrittenPrefix(cfg.file, tx.next, rx)
    && rx.expected !in rx.held
    && tx.base <= rx.expected
    && (forall p :: p in rx.feedback ==> FeedbackInv(tx, rx, p))
    && rx.status != Mismatch
    && (rx.status == Verified ==> rx.expected == ChunkCount(cfg.file))
  }

  ghost predicate PhaseInv(cfg: Config, s: Sys) {
    s.phase.Closing? ==> s.tx.base == ChunkCount(cfg.file) && 1 <= s.phase.terminates <= 3
  }

  ghost predicate Inv(cfg: Config, s: Sys) {
    SenderInv(cfg, s.tx) && ReceiverInv(cfg, s.tx, s.rx) && PhaseInv(cfg, s)
  }

  // ---- The sender's operations keep it ----

  lemma SendKeepsChunk(c: ReliableChunk)
    ensures var (d, emitted) := SendChunk(c);
            && d.packetId == c.packetId && d.payload == c.payload && d.acked == c.acked
            && (c.sendCount >= 1 ==>
                  d.sendCount == c.sendCount + 1 && d.reorderPending == c.reorderPending && emitted == [Wire(c)])
            && forall p :: p in emitted ==> p == Wire(c)
  {
  }

  /** The visit loops act on each chunk of the range by itself. */
  lemma {:induction false} VisitRangeAt(v: Visit, cs: seq<ReliableChunk>, lo: nat, hi: nat, i: nat)
    requires hi <= |cs| && i < |cs|
    ensures VisitRange(v, cs, lo, hi).0[i] == if lo <= i < hi then VisitOne(v, i, cs[i]).0 else cs[i]
  {
    hide VisitOne;
    if lo < hi {
      VisitRangeAt(v, cs, lo, hi - 1, i);
      VisitRangeAt(v, cs, lo, hi - 1, hi - 1);
    }
  }

  /** Whatever a visit loop sends was sent for one of its chunks. */
  lemma {:induction false} VisitRangeSender(v: Visit, cs: seq<ReliableChunk>, lo: nat, hi: nat, p: Packet)
    returns (i: nat)
    requires hi <= |cs| && p in VisitRange(v, cs, lo, hi).1
    ensures lo <= i < hi && p in VisitOne(v, i, cs[i]).1
  {
    hide VisitOne;
    VisitRangeAt(v, cs, lo, hi - 1, hi - 1);
    i := hi - 1;
    if p in VisitRange(v, cs, lo, hi - 1).1 {
      i := VisitRangeSender(v, cs, lo, hi - 1, p);
    }
  }

  /** Visits that change nothing and send nothing can be skipped. */
  lemma {:induction false} VisitRangeIdle(v: Visit, cs: seq<ReliableChunk>, lo: nat, hi: nat)
    requires hi <= |cs|
    requires forall i :: lo <= i < hi ==> VisitOne(v, i, cs[i]) == (cs[i], [])
    ensures VisitRange(v, cs, lo, hi) == (cs, [])
  {
    hide VisitOne;
    if lo < hi {
      VisitRangeIdle(v, cs, lo, hi - 1);
      assert cs[hi - 1 := cs[hi - 1]] == cs;
      assert [] + VisitOne(v, hi - 1, cs[hi - 1]).1 == [];
    }
  }

  /** What the fill loop does to one chunk: send it, and release it at once if it was held. */
  function FirstSend(c: ReliableChunk): (ReliableChunk, seq<Packet>) {
    var (held, e) := SendChunk(c);
    var (released, more) := VisitOne(Release, 0, held);
    (released, e + more)
  }

  /** The first transmission in closed form: a simulated loss sends nothing and masks a simulated duplicate. */
  lemma FirstSendForm(c: ReliableChunk)
    requires c.sendCount == 0 && !c.reorderPending && !c.acked
    ensures FirstSend(c) ==
      (c.(sendCount := 1, reorderFirst := false, dropFirst := false, dupFirst := c.dupFirst && c.dropFirst),
       if c.dropFirst then [] else if c.dupFirst then [Wire(c), Wire(c)] else [Wire(c)])
  {
    var (held, e) := SendChunk(c);
    var more := VisitOne(Release, 0, held).1;
    assert e + more == if e == [] then more else e;
  }

  /** One turn of the fill loop touches chunk next only: a held chunk never waits for a later one. */
  lemma FillOneForm(tx: Tx)
    requires tx.next < |tx.chunks|
    requires forall i :: 0 <= i < |tx.chunks| ==> !tx.chunks[i].reorderPending
    ensures var (c, emitted) := FirstSend(tx.chunks[tx.next]);
            FillOne(tx) == Tx(tx.chunks[tx.next := c], tx.base, tx.next + 1, tx.sent + emitted)
  {
    var n := tx.next;
    var cs := SendAt(tx, n).chunks;
    VisitRangeIdle(Release, cs, 0, n);
    assert VisitRange(Release, cs, 0, n + 1) ==
      (cs[n := VisitOne(Release, n, cs[n]).0], [] + VisitOne(Release, n, cs[n]).1);
    assert VisitOne(Release, n, cs[n]) == VisitOne(Release, 0, cs[n]);
  }

  lemma FillOneKeeps(cfg: Config, tx: Tx)
    requires SenderInv(cfg, tx) && tx.next < |tx.chunks| && tx.next < tx.base + cfg.window
    ensures SenderInv(cfg, FillOne(tx))
  {
    var n := tx.next;
    assert ChunkInv(cfg, tx, n);
    forall i | 0 <= i < |tx.chunks|
      ensures !tx.chunks[i].reorderPending
    {
      assert ChunkInv(cfg, tx, i);
    }
    FillOneForm(tx);
    FirstSendForm(tx.chunks[n]);
    var r := FillOne(tx);
    hide FillOne, FirstSend;
    forall i | 0 <= i < |r.chunks|
      ensures ChunkInv(cfg, r, i)
    {
      assert ChunkInv(cfg, tx, i);
    }
    forall p | p in r.sent
      ensures SentInv(cfg, r, p)
    {
      assert p in tx.sent ==> SentInv(cfg, tx, p);
    }
  }

  lemma {:induction false} FillKeeps(cfg: Config, tx: Tx)
    requires SenderInv(cfg, tx)
    ensures SenderInv(cfg, Fill(tx, cfg.window))
    ensures Fill(tx, cfg.window).next >= tx.next
    ensures Fill(tx, cfg.window).next == Max(tx.next, Min(|tx.chunks|, tx.base + cfg.window))
    decreases |tx.chunks| - tx.next
  {
    if tx.next < |tx.chunks| && tx.next < tx.base + cfg.window {
      FillOneKeeps(cfg, tx);
      hide FillOne;
      FillKeeps(cfg, FillOne(tx));
    }
  }

  lemma SendAtKeeps(cfg: Config, tx: Tx, i: nat)
    requires SenderInv(cfg, tx) && i < tx.next
    ensures SenderInv(cfg, SendAt(tx, i))
    ensures SendAt(tx, i).sent == tx.sent + [Data(i, ChunkAt(cfg.file, i))]
  {
    assert ChunkInv(cfg, tx, i);
    SendKeepsChunk(tx.chunks[i]);
    var r := SendAt(tx, i);
    hide SendChunk;
    forall j | 0 <= j < |r.chunks|
      ensures ChunkInv(cfg, r, j)
    {
      assert ChunkInv(cfg, tx, j);
    }
    forall p | p in r.sent
      ensures SentInv(cfg, r, p)
    {
      assert p in tx.sent ==> SentInv(cfg, tx, p);
    }
  }

  lemma AckKeeps(cfg: Config, tx: Tx, id: u32, w: u32)
    requires SenderInv(cfg, tx) && id <= tx.next
    ensures SenderInv(cfg, OnFeedback(tx, Ack(id, w)))
    ensures OnFeedback(tx, Ack(id, w)).base == Max(tx.base, id)
  {
    var r := OnFeedback(tx, Ack(id, w));
    var cs := MarkAcked(tx.chunks, tx.base, Min(id, |tx.chunks|));
    var b := FirstUnacked(cs, tx.base);
    forall i | 0 <= i < |tx.chunks|
      ensures ChunkInv(cfg, tx, i)
    {
    }
    forall i | tx.base <= i < |cs|
      ensures cs[i].acked <==> i < id
    {
      assert ChunkInv(cfg, tx, i);
    }
    assert tx.base <= id < |cs| ==> !cs[id].acked;
    assert id <= tx.base < |cs| ==> !cs[tx.base].acked;
    assert b == Max(tx.base, id);
    forall i | 0 <= i < |r.chunks|
      ensures ChunkInv(cfg, r, i)
    {
      assert ChunkInv(cfg, tx, i);
    }
    forall p | p in r.sent
      ensures SentInv(cfg, r, p)
    {
      assert SentInv(cfg, tx, p);
    }
  }

  lemma FeedbackKeeps(cfg: Config, tx: Tx, p: Packet)
    requires SenderInv(cfg, tx)
    requires (p.Ack? ==> p.ackId <= tx.next) && (p.Nack? ==> p.ackId < tx.next)
    ensures SenderInv(cfg, OnFeedback(tx, p))
  {
    match p
    case Ack(id, w) => AckKeeps(cfg, tx, id, w);
    case Nack(id, _) =>
      if id < |tx.chunks| && !tx.chunks[id].acked {
        SendAtKeeps(cfg, tx, id);
      }
    case _ =>
  }

  lemma ChunkWire(cfg: Config, tx: Tx, i: nat)
    requires i < |tx.chunks| == ChunkCount(cfg.file) < U32 && ChunkInv(cfg, tx, i)
    ensures Wire(tx.chunks[i]) == Data(i, ChunkAt(cfg.file, i))
  {
  }

  lemma ResendOne(cfg: Config, tx: Tx, due: set<nat>, i: nat)
    requires SenderInv(cfg, tx) && i < tx.next
    ensures var (c, emitted) := VisitOne(Resend(due), i, tx.chunks[i]);
            && ChunkInv(cfg, tx.(chunks := tx.chunks[i := c]), i)
            && (forall p :: p in emitted ==> p == Data(i, ChunkAt(cfg.file, i)))
            && (i in due && tx.base <= i ==> emitted == [Data(i, ChunkAt(cfg.file, i))])
  {
    assert ChunkInv(cfg, tx, i);
    SendKeepsChunk(tx.chunks[i]);
    ChunkWire(cfg, tx, i);
    hide SendChunk, ChunkAt;
  }

  lemma ResendKeeps(cfg: Config, tx: Tx, due: set<nat>)
    requires SenderInv(cfg, tx)
    ensures SenderInv(cfg, ResendDue(tx, due))
  {
    hide VisitOne, VisitRange, ChunkAt;
    var r := ResendDue(tx, due);
    forall i | 0 <= i < |tx.chunks|
      ensures ChunkInv(cfg, r, i)
    {
      assert ChunkInv(cfg, tx, i);
      VisitRangeAt(Resend(due), tx.chunks, tx.base, tx.next, i);
      if i < tx.next {
        ResendOne(cfg, tx, due, i);
      }
    }
    hide ChunkInv;
    forall p | p in r.sent
      ensures SentInv(cfg, r, p)
    {
      if p in tx.sent {
        assert SentInv(cfg, tx, p);
      } else {
        var i := VisitRangeSender(Resend(due), tx.chunks, tx.base, tx.next, p);
        ResendOne(cfg, tx, due, i);
      }
    }
  }

  // ---- The receiver's operations keep it ----

  lemma NextChunk(file: seq<byte>, n: nat)
    requires n < ChunkCount(file) < U32
    ensures NextId(n) == n + 1
    ensures Flatten(Chunks(file)[..n + 1]) == Flatten(Chunks(file)[..n]) + ChunkAt(file, n)
  {
    hide ChunkAt, Flatten;
    var cs := Chunks(file);
    assert cs[..n + 1] == cs[..n] + [cs[n]];
    FlattenSnoc(cs[..n], cs[n]);
  }

  lemma TakeNextKeeps(file: seq<byte>, limit: nat, rx: Rx)
    requires WrittenPrefix(file, limit, rx) && rx.expected in rx.held
    ensures WrittenPrefix(file, limit, TakeNext(rx)) && TakeNext(rx).expected == rx.expected + 1
  {
    hide ChunkAt, Flatten, NextId;
    NextChunk(file, rx.expected);
  }

  lemma {:induction false} DrainKeeps(file: seq<byte>, limit: nat, rx: Rx)
    requires WrittenPrefix(file, limit, rx)
    ensures WrittenPrefix(file, limit, Drain(rx))
    ensures rx.expected <= Drain(rx).expected
    ensures rx.expected in rx.held ==> rx.expected < Drain(rx).expected
    decreases |rx.held|
  {
    if rx.expected in rx.held {
      TakeNextKeeps(file, limit, rx);
      hide TakeNext, WrittenPrefix;
      DrainKeeps(file, limit, TakeNext(rx));
    }
  }

  lemma DataKeeps(cfg: Config, tx: Tx, rx: Rx, w: u32, id: u32, payload: seq<byte>)
    requires SenderInv(cfg, tx) && ReceiverInv(cfg, tx, rx) && rx.status == Receiving
    requires id < tx.next && payload == ChunkAt(cfg.file, id)
    ensures ReceiverInv(cfg, tx, OnData(rx, w, id, payload))
    ensures rx.expected <= OnData(rx, w, id, payload).expected
    ensures id == rx.expected ==> rx.expected < OnData(rx, w, id, payload).expected
  {
    hide Drain, ChunkAt, Flatten;
    var r := OnData(rx, w, id, payload);
    if id >= rx.expected {
      var stored := Store(rx, w, id, payload);
      assert WrittenPrefix(cfg.file, tx.next, stored);
      DrainKeeps(cfg.file, tx.next, stored);
    }
    hide WrittenPrefix, SenderInv;
    forall p | p in r.feedback
      ensures FeedbackInv(tx, r, p)
    {
      assert p in rx.feedback ==> FeedbackInv(tx, rx, p);
    }
  }

  lemma TerminateKeeps(cfg: Config, tx: Tx, rx: Rx, w: u32)
    requires SenderInv(cfg, tx) && ReceiverInv(cfg, tx, rx) && tx.base == ChunkCount(cfg.file)
    ensures ReceiverInv(cfg, tx, OnTerminate(rx, w, Sha1Spec.Digest(cfg.file)))
    ensures OnTerminate(rx, w, Sha1Spec.Digest(cfg.file)).status == Verified
  {
    hide Sha1Spec.Digest;
    ChunksJoin(cfg.file);
    assert Chunks(cfg.file)[..rx.expected] == Chunks(cfg.file);
  }

  lemma ReceiveKeeps(cfg: Config, s: Sys, p: Packet)
    requires Inv(cfg, s) && s.rx.status == Receiving && (p in s.tx.sent || Stray(p))
    ensures ReceiverInv(cfg, s.tx, Receive(s.rx, cfg.receiverWindow, p))
  {
    hide OnData, OnTerminate;
    assert p in s.tx.sent ==> SentInv(cfg, s.tx, p);
    match p
    case Data(id, payload) => DataKeeps(cfg, s.tx, s.rx, cfg.receiverWindow, id, payload);
    case Terminate(digest) => TerminateKeeps(cfg, s.tx, s.rx, cfg.receiverWindow);
    case _ => 
  }

  /** The receiver's side of the invariant survives any growth of the sender's window within the acknowledged bound. */
  lemma ReceiverFrame(cfg: Config, tx: Tx, tx': Tx, rx: Rx)
    requires ReceiverInv(cfg, tx, rx) && tx.next <= tx'.next <= ChunkCount(cfg.file) && tx'.base <= rx.expected
    ensures ReceiverInv(cfg, tx', rx)
  {
    forall p | p in rx.feedback
      ensures FeedbackInv(tx', rx, p)
    {
      assert FeedbackInv(tx, rx, p);
    }
  }

  // ---- Every step keeps it, so it holds in every reachable state ----

  lemma InitInv(cfg: Config)
    requires ChunkCount(cfg.file) < U32
    ensures Inv(cfg, Init(cfg))
  {
    var tx := Init(cfg).tx;
    forall i | 0 <= i < |tx.chunks|
      ensures ChunkInv(cfg, tx, i)
    {
    }
    assert Chunks(cfg.file)[..0] == [];
  }

  lemma StepKeepsInv(cfg: Config, s: Sys, e: Event)
    requires Inv(cfg, s) && Enabled(s, e)
    ensures Inv(cfg, Apply(cfg, s, e))
  {
    hide Fill, OnFeedback, ResendDue, Receive, Sha1Spec.Digest;
    match e
    case FillWindow =>
      FillKeeps(cfg, s.tx);
      ReceiverFrame(cfg, s.tx, Fill(s.tx, cfg.window), s.rx);
    case Listen(a) =>
      if a.FromPeer? {
        assert a.p in s.rx.feedback ==> FeedbackInv(s.tx, s.rx, a.p);
        FeedbackKeeps(cfg, s.tx, a.p);
        FeedbackBase(cfg, s.tx, s.rx, a.p);
        ReceiverFrame(cfg, s.tx, OnFeedback(s.tx, a.p), s.rx);
      }
    case CheckTimers(due) =>
      ResendKeeps(cfg, s.tx, due);
      ReceiverFrame(cfg, s.tx, ResendDue(s.tx, due), s.rx);
    case CloseDown => CloseDownKeeps(cfg, s);
    case Deliver(p) => ReceiveKeeps(cfg, s, p);
    case _ =>
  }

  lemma FeedbackBase(cfg: Config, tx: Tx, rx: Rx, p: Packet)
    requires SenderInv(cfg, tx) && ReceiverInv(cfg, tx, rx) && (p in rx.feedback || Stray(p))
    ensures tx.base <= OnFeedback(tx, p).base <= rx.expected
  {
    assert p in rx.feedback ==> FeedbackInv(tx, rx, p);
    if p.Ack? {
      AckKeeps(cfg, tx, p.ackId, p.window);
    }
  }

  lemma CloseDownKeeps(cfg: Config, s: Sys)
    requires Inv(cfg, s) && Enabled(s, CloseDown)
    ensures Inv(cfg, Apply(cfg, s, CloseDown))
  {
    hide Sha1Spec.Digest;
    var r := Apply(cfg, s, CloseDown);
    forall i | 0 <= i < |r.tx.chunks|
      ensures ChunkInv(cfg, r.tx, i)
    {
      assert ChunkInv(cfg, s.tx, i);
    }
    forall p | p in r.tx.sent
      ensures SentInv(cfg, r.tx, p)
    {
      assert p in s.tx.sent ==> SentInv(cfg, s.tx, p);
    }
    ReceiverFrame(cfg, s.tx, r.tx, s.rx);
  }

  lemma {:induction false} PathKeepsInv(cfg: Config, s: Sys, es: seq<Event>, t: Sys)
    requires Inv(cfg, s) && Path(cfg, s, es, t)
    ensures Inv(cfg, t)
    decreases |es|
  {
    if es != [] {
      StepKeepsInv(cfg, s, es[0]);
      PathKeepsInv(cfg, Apply(cfg, s, es[0]), es[1..], t);
    }
  }

  /** The joint invariant holds in every reachable state, on every fault schedule. */
  lemma ReachableInv(cfg: Config, s: Sys)
    requires ChunkCount(cfg.file) < U32 && Reachable(cfg, s)
    ensures Inv(cfg, s)
  {
    var es :| Path(cfg, Init(cfg), es, s);
    InitInv(cfg);
    PathKeepsInv(cfg, Init(cfg), es, s);
  }
}
