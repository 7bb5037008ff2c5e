/** What the reliable mode promises: safety in every reachable state, and completion. */
module ReliableTheorems {
  import opened Bytes
  import opened Packets
  import opened FileChunks
  import opened ReliableServer
  import opened ReliableClient
  import opened ReliableSystem
  import Sha1Spec

  // ---- Safety ----

  /** Prefix safety: the bytes written are always the first expected chunks of the input file. */
  lemma PrefixSafety(cfg: Config, s: Sys)
    requires ChunkCount(cfg.file) < U32 && Reachable(cfg, s)
    ensures s.rx.expected <= ChunkCount(cfg.file)
    ensures s.rx.out == Flatten(Chunks(cfg.file)[..s.rx.expected])
    ensures s.rx.out == cfg.file[..Min(DATA_CHUNK_SIZE * s.rx.expected, |cfg.file|)]
    ensures s.rx.receivedBytes == |s.rx.out|
  {
    ReachableInv(cfg, s);
    ChunkPrefix(cfg.file, s.rx.expected);
  }

  /**
   * Window safety: base <= expected <= next <= min(count, base + window), acked exactly below base, feedback never
   * early.
   */
  lemma WindowSafety(cfg: Config, s: Sys)
    requires ChunkCount(cfg.file) < U32 && Reachable(cfg, s)
    ensures |s.tx.chunks| == ChunkCount(cfg.file)
    ensures s.tx.base <= s.rx.expected <= s.tx.next <= Min(ChunkCount(cfg.file), s.tx.base + cfg.window)
    ensures forall i :: 0 <= i < |s.tx.chunks| ==> (s.tx.chunks[i].acked <==> i < s.tx.base)
    ensures forall p :: p in s.rx.feedback ==> (p.Ack? || p.Nack?) && p.ackId <= s.rx.expected
  {
    ReachableInv(cfg, s);
    forall i | 0 <= i < |s.tx.chunks|
      ensures s.tx.chunks[i].acked <==> i < s.tx.base
    {
      assert ChunkInv(cfg, s.tx, i);
    }
    forall p | p in s.rx.feedback
      ensures (p.Ack? || p.Nack?) && p.ackId <= s.rx.expected
    {
      assert FeedbackInv(s.tx, s.rx, p);
    }
  }

  lemma {:induction false} RangeSize(s: set<nat>, lo: nat, hi: nat)
    requires lo <= hi && forall i :: i in s ==> lo <= i < hi
    ensures |s| <= hi - lo
    decreases hi - lo
  {
    if lo < hi {
      RangeSize(s - {hi - 1}, lo, hi - 1);
      assert |s| <= |s - {hi - 1}| + 1 by {
        if hi - 1 !in s {
          assert s - {hi - 1} == s;
        }
      }
    } else {
      assert s == {};
    }
  }

  /**
   * Buffered ids lie strictly between the expected id and the window's end, so fewer than window chunks are ever
   * held.
   */
  lemma ReorderBufferBound(cfg: Config, s: Sys)
    requires ChunkCount(cfg.file) < U32 && Reachable(cfg, s)
    ensures forall i :: i in s.rx.held ==>
      s.rx.expected < i < s.tx.base + cfg.window && i < ChunkCount(cfg.file) && s.rx.held[i] == ChunkAt(cfg.file, i)
    ensures s.rx.held != map[] ==> |s.rx.held| <= cfg.window - 1
  {
    ReachableInv(cfg, s);
    HeldWithin(cfg, s);
    hide *;
    var lo := s.rx.expected + 1;
    if hi :| hi in s.rx.held {
      RangeSize(s.rx.held.Keys, lo, Max(lo, s.tx.base + cfg.window));
    }
  }

  lemma HeldWithin(cfg: Config, s: Sys)
    requires Inv(cfg, s)
    ensures forall i :: i in s.rx.held ==>
      s.rx.expected < i < s.tx.base + cfg.window && i < ChunkCount(cfg.file) && s.rx.held[i] == ChunkAt(cfg.file, i)
  {
    hide ChunkCount, ChunkAt, Flatten, SentInv, FeedbackInv;
  }

  /** A TERMINATE on the wire means the client has already written the whole file, and its comparison succeeds. */
  lemma TerminateAfterEverything(cfg: Config, s: Sys, digest: seq<byte>)
    requires ChunkCount(cfg.file) < U32 && Reachable(cfg, s) && Terminate(digest) in s.tx.sent
    ensures s.rx.out == cfg.file && digest == Sha1Spec.Digest(s.rx.out)
  {
    hide Sha1Spec.Digest;
    ReachableInv(cfg, s);
    assert SentInv(cfg, s.tx, Terminate(digest));
    ChunksJoin(cfg.file);
    assert Chunks(cfg.file)[..s.rx.expected] == Chunks(cfg.file);
  }

  /** The digest comparison never fails, and success means the output is the input. */
  lemma SuccessMeansSameFile(cfg: Config, s: Sys)
    requires ChunkCount(cfg.file) < U32 && Reachable(cfg, s)
    ensures s.rx.status != Mismatch
    ensures s.rx.status == Verified ==> s.rx.out == cfg.file && s.rx.receivedBytes == |cfg.file|
  {
    ReachableInv(cfg, s);
    if s.rx.status == Verified {
      ChunksJoin(cfg.file);
      assert Chunks(cfg.file)[..s.rx.expected] == Chunks(cfg.file);
    }
  }

  // ---- No reachable state is wedged ----

  /** Sender and receiver are both still in their loops. */
  predicate Active(s: Sys) {
    s.rx.status == Receiving && (s.phase == Filling || s.phase == Listening || s.phase == Resending)
  }

  /** The network delivers only what was put on the wire last. */
  predicate Prompt(s: Sys, e: Event) {
    match e
    case Deliver(p) => s.tx.sent != [] && p == s.tx.sent[|s.tx.sent| - 1] && !Stray(p)
    case Listen(a) =>
      !a.Malformed? && (a.FromPeer? ==> s.rx.feedback != [] && a.p == s.rx.feedback[|s.rx.feedback| - 1])
    case ServerStop => false
    case ClientStop => false
    case _ => true
  }

  ghost predicate PromptPath(cfg: Config, s: Sys, es: seq<Event>, t: Sys)
    requires s.tx.Bounds()
    decreases |es|
  {
    if es == [] then s == t
    else
      && Enabled(s, es[0]) && Prompt(s, es[0])
      && (BoundsKept(cfg, s, es[0]); PromptPath(cfg, Apply(cfg, s, es[0]), es[1..], t))
  }

  lemma {:induction false} PromptIsPath(cfg: Config, s: Sys, es: seq<Event>, t: Sys)
    requires s.tx.Bounds() && PromptPath(cfg, s, es, t)
    ensures Path(cfg, s, es, t)
    decreases |es|
  {
    if es != [] {
      BoundsKept(cfg, s, es[0]);
      PromptIsPath(cfg, Apply(cfg, s, es[0]), es[1..], t);
    }
  }

  lemma {:induction false} PathAppend(cfg: Config, s: Sys, es: seq<Event>, t: Sys, fs: seq<Event>, u: Sys)
    requires s.tx.Bounds() && t.tx.Bounds() && Path(cfg, s, es, t) && Path(cfg, t, fs, u)
    ensures Path(cfg, s, es + fs, u)
    decreases |es|
  {
    if es == [] {
      assert es + fs == fs;
    } else {
      BoundsKept(cfg, s, es[0]);
      PathAppend(cfg, Apply(cfg, s, es[0]), es[1..], t, fs, u);
      assert (es + fs)[1..] == es[1..] + fs;
    }
  }

  lemma {:induction false} PromptAppend(cfg: Config, s: Sys, es: seq<Event>, t: Sys, fs: seq<Event>, u: Sys)
    requires s.tx.Bounds() && t.tx.Bounds() && PromptPath(cfg, s, es, t) && PromptPath(cfg, t, fs, u)
    ensures PromptPath(cfg, s, es + fs, u)
    decreases |es|
  {
    if es == [] {
      assert es + fs == fs;
    } else {
      BoundsKept(cfg, s, es[0]);
      PromptAppend(cfg, Apply(cfg, s, es[0]), es[1..], t, fs, u);
      assert (es + fs)[1..] == es[1..] + fs;
    }
  }

  lemma OneStep(cfg: Config, s: Sys, e: Event)
    requires s.tx.Bounds() && Enabled(s, e) && Prompt(s, e)
    ensures PromptPath(cfg, s, [e], Apply(cfg, s, e))
  {
    hide Apply, Enabled, Prompt;
    assert [e][1..] == [];
    BoundsKept(cfg, s, e);
  }

  /** A prompt step from a state in the invariant, appended to a prompt path. */
  lemma Extend(cfg: Config, s: Sys, es: seq<Event>, t: Sys, e: Event) returns (u: Sys)
    requires Inv(cfg, s) && Inv(cfg, t) && PromptPath(cfg, s, es, t) && Enabled(t, e) && Prompt(t, e)
    ensures u == Apply(cfg, t, e) && Inv(cfg, u) && PromptPath(cfg, s, es + [e], u)
  {
    hide Apply, Enabled, Prompt, SenderInv, ReceiverInv, PhaseInv;
    BoundsOfInv(cfg, s);
    BoundsOfInv(cfg, t);
    u := Apply(cfg, t, e);
    StepKeepsInv(cfg, t, e);
    OneStep(cfg, t, e);
    PromptAppend(cfg, s, es, t, [e], u);
  }

  lemma BoundsOfInv(cfg: Config, s: Sys)
    requires Inv(cfg, s)
    ensures s.tx.Bounds()
  {
  }

  /** From anywhere in the loop the sender gets back to its top without hearing anything. */
  lemma BackToTop(cfg: Config, s: Sys) returns (es: seq<Event>, t: Sys)
    requires Inv(cfg, s) && Active(s)
    ensures Inv(cfg, t) && PromptPath(cfg, s, es, t)
    ensures t.phase == Filling && t.rx == s.rx && t.tx.base == s.tx.base
  {
    hide SenderInv, ReceiverInv, PhaseInv, ResendDue;
    es, t := [], s;
    BoundsOfInv(cfg, s);
    if t.phase == Listening {
      t := Extend(cfg, s, es, t, Listen(Silence));
      es := es + [Listen(Silence)];
    }
    if t.phase == Resending {
      BoundsOfInv(cfg, t);
      t := Extend(cfg, s, es, t, CheckTimers({}));
      es := es + [CheckTimers({})];
    }
  }

  /** The timer for chunk base is always effective: after a fill it is resent and nothing else is. */
  lemma ResendBase(cfg: Config, tx: Tx)
    requires SenderInv(cfg, tx) && tx.base < tx.next
    ensures ResendDue(tx, {tx.base}).sent == tx.sent + [Data(tx.base, ChunkAt(cfg.file, tx.base))]
  {
    var b := tx.base;
    hide ChunkAt, ChunkInv, VisitOne;
    ResendOne(cfg, tx, {b}, b);
    ResendOthers(tx, b, tx.next);
  }

  lemma {:induction false} ResendOthers(tx: Tx, b: nat, hi: nat)
    requires b < hi <= |tx.chunks| && VisitOne(Resend({b}), b, tx.chunks[b]).1 != []
    ensures VisitRange(Resend({b}), tx.chunks, b, hi).1 == VisitOne(Resend({b}), b, tx.chunks[b]).1
    decreases hi
  {
    var v := Resend({b});
    VisitRangeAt(v, tx.chunks, b, hi - 1, hi - 1);
    if hi - 1 > b {
      ResendOthers(tx, b, hi - 1);
      assert VisitOne(v, hi - 1, tx.chunks[hi - 1]).1 == [];
    }
  }

  /** One fault-free round trip: resend chunk base, deliver it, deliver the answer. The window edge moves. */
  lemma Round(cfg: Config, s: Sys) returns (es: seq<Event>, t: Sys)
    requires Inv(cfg, s) && Active(s) && s.tx.base < ChunkCount(cfg.file) && cfg.window > 0
    ensures Inv(cfg, t) && Active(t) && PromptPath(cfg, s, es, t)
    ensures s.tx.base < t.tx.base
  {
    hide SenderInv, ReceiverInv, PhaseInv, Fill, ResendDue, OnFeedback, OnData, ChunkAt;
    es, t := BackToTop(cfg, s);
    var b := t.tx.base;
    BoundsOfInv(cfg, t);
    ChunkTotal(cfg, t);
    FillReaches(cfg, t.tx);
    t := Extend(cfg, s, es, t, FillWindow);
    es := es + [FillWindow];
    t := Extend(cfg, s, es, t, Listen(Silence));
    es := es + [Listen(Silence)];
    ResendBase(cfg, t.tx) by { assert SenderInv(cfg, t.tx); }
    t := Extend(cfg, s, es, t, CheckTimers({b}));
    es := es + [CheckTimers({b})];
    DeliveryAnswers(cfg, t, b);
    var e := t.rx.expected;
    t := Extend(cfg, s, es, t, Deliver(Data(b, ChunkAt(cfg.file, b))));
    es := es + [Deliver(Data(b, ChunkAt(cfg.file, b)))];
    ChunkTotal(cfg, t);
    FillReaches(cfg, t.tx);
    t := Extend(cfg, s, es, t, FillWindow);
    es := es + [FillWindow];
    var answer := Ack(t.rx.expected, cfg.receiverWindow);
    AckAdvances(cfg, t, answer);
    t := Extend(cfg, s, es, t, Listen(FromPeer(answer)));
    es := es + [Listen(FromPeer(answer))];
  }

  lemma ChunkTotal(cfg: Config, s: Sys)
    requires Inv(cfg, s)
    ensures |s.tx.chunks| == ChunkCount(cfg.file)
  {
  }

  lemma FillReaches(cfg: Config, tx: Tx)
    requires SenderInv(cfg, tx) && tx.base < ChunkCount(cfg.file) && cfg.window > 0
    ensures Fill(tx, cfg.window).base == tx.base < Fill(tx, cfg.window).next
  {
    FillKeeps(cfg, tx);
  }

  lemma DeliveryAnswers(cfg: Config, s: Sys, b: nat)
    requires Inv(cfg, s) && s.rx.status == Receiving && b == s.tx.base < ChunkCount(cfg.file)
    requires Data(b, ChunkAt(cfg.file, b)) in s.tx.sent
    ensures var rx := OnData(s.rx, cfg.receiverWindow, b, ChunkAt(cfg.file, b));
            && b < rx.expected && rx.status == Receiving
            && |rx.feedback| > 0 && rx.feedback[|rx.feedback| - 1] == Ack(rx.expected, cfg.receiverWindow)
  {
    hide ChunkAt, Drain;
    assert SentInv(cfg, s.tx, Data(b, ChunkAt(cfg.file, b)));
    DataKeeps(cfg, s.tx, s.rx, cfg.receiverWindow, b, ChunkAt(cfg.file, b));
  }

  lemma AckAdvances(cfg: Config, s: Sys, answer: Packet)
    requires Inv(cfg, s) && answer.Ack? && answer.ackId == s.rx.expected
    ensures OnFeedback(s.tx, answer).base == s.rx.expected
  {
    AckKeeps(cfg, s.tx, answer.ackId, answer.window);
  }

  /** From every state of the loop, fault-free rounds alone acknowledge every chunk. */
  lemma {:induction false} AllAcknowledged(cfg: Config, s: Sys) returns (es: seq<Event>, t: Sys)
    requires Inv(cfg, s) && Active(s) && cfg.window > 0
    ensures Inv(cfg, t) && Active(t) && PromptPath(cfg, s, es, t)
    ensures t.tx.base == ChunkCount(cfg.file)
    decreases ChunkCount(cfg.file) - s.tx.base
  {
    BoundsOfInv(cfg, s);
    ChunkTotal(cfg, s);
    if s.tx.base == ChunkCount(cfg.file) {
      es, t := [], s;
    } else {
      var fs, u := Round(cfg, s);
      BoundsOfInv(cfg, u);
      ChunkTotal(cfg, u);
      var gs;
      gs, t := AllAcknowledged(cfg, u);
      BoundsOfInv(cfg, t);
      PromptAppend(cfg, s, fs, u, gs, t);
      es := fs + gs;
    }
  }

  /**
   * No reachable state of the loop is wedged: some fault-free schedule ends with both sides done and the file
   * delivered.
   */
  lemma NeverWedged(cfg: Config, s: Sys) returns (es: seq<Event>, t: Sys)
    requires ChunkCount(cfg.file) < U32 && Reachable(cfg, s) && Active(s) && cfg.window > 0
    ensures s.tx.Bounds() && PromptPath(cfg, s, es, t)
    ensures t.rx.status == Verified && t.phase == Closing(3) && t.rx.out == cfg.file
  {
    hide Sha1Spec.Digest, SenderInv, ReceiverInv, PhaseInv;
    ReachableInv(cfg, s);
    var fs, u := AllAcknowledged(cfg, s);
    es, t := BackToTop(cfg, u);
    BoundsOfInv(cfg, s);
    BoundsOfInv(cfg, u);
    BoundsOfInv(cfg, t);
    PromptAppend(cfg, s, fs, u, es, t);
    es := fs + es;
    ChunkTotal(cfg, t);
    var digest := Sha1Spec.Digest(cfg.file);
    t := Extend(cfg, s, es, t, CloseDown);
    es := es + [CloseDown];
    t := Extend(cfg, s, es, t, CloseDown);
    es := es + [CloseDown];
    t := Extend(cfg, s, es, t, CloseDown);
    es := es + [CloseDown];
    TerminateVerifies(cfg, t);
    t := Extend(cfg, s, es, t, Deliver(Terminate(digest)));
    es := es + [Deliver(Terminate(digest))];
  }

  lemma TerminateVerifies(cfg: Config, s: Sys)
    requires Inv(cfg, s) && s.tx.base == ChunkCount(cfg.file)
    ensures OnTerminate(s.rx, cfg.receiverWindow, Sha1Spec.Digest(cfg.file)).status == Verified
    ensures s.rx.out == cfg.file
  {
    hide Sha1Spec.Digest;
    TerminateKeeps(cfg, s.tx, s.rx, cfg.receiverWindow);
    ChunksJoin(cfg.file);
    assert Chunks(cfg.file)[..s.rx.expected] == Chunks(cfg.file);
  }

  // ---- Exactly which files can complete ----

  /** Some run delivers the file and the client verifies it. */
  ghost predicate CanComplete(cfg: Config) {
    exists s :: Reachable(cfg, s) && s.rx.status == Verified
  }

  /** Facts that need no bound on the file: acknowledgements fit in 32 bits, so base stays below 2^32. */
  ghost predicate Narrow(cfg: Config, s: Sys) {
    && |s.tx.chunks| == ChunkCount(cfg.file)
    && s.tx.Bounds()
    && s.tx.base < U32
    && (forall i :: s.tx.base <= i < |s.tx.chunks| ==> !s.tx.chunks[i].acked)
    && (forall p :: p in s.tx.sent ==> p.Data?)
    && !s.phase.Closing?
    && s.rx.status != Verified
  }

  lemma SendsDataOnly(v: Visit, cs: seq<ReliableChunk>, lo: nat, hi: nat)
    requires hi <= |cs|
    ensures forall p :: p in VisitRange(v, cs, lo, hi).1 ==> p.Data?
    ensures forall i :: 0 <= i < |cs| ==> VisitRange(v, cs, lo, hi).0[i].acked == cs[i].acked
  {
    forall p | p in VisitRange(v, cs, lo, hi).1
      ensures p.Data?
    {
      var i := VisitRangeSender(v, cs, lo, hi, p);
      SendKeepsChunk(cs[i]);
      SendKeepsChunk(cs[i].(reorderPending := false));
    }
    forall i | 0 <= i < |cs|
      ensures VisitRange(v, cs, lo, hi).0[i].acked == cs[i].acked
    {
      VisitRangeAt(v, cs, lo, hi, i);
      SendKeepsChunk(cs[i]);
      SendKeepsChunk(cs[i].(reorderPending := false));
    }
  }

  /** What sends may do to the sender's state: data packets only, acknowledgement flags untouched. */
  ghost predicate OnlySends(tx: Tx, tx': Tx) {
    && |tx'.chunks| == |tx.chunks| && tx'.base == tx.base
    && (forall i :: 0 <= i < |tx.chunks| ==> tx'.chunks[i].acked == tx.chunks[i].acked)
    && (forall p :: p in tx'.sent ==> p in tx.sent || p.Data?)
  }

  lemma SendAtOnlySends(tx: Tx, i: nat)
    requires i < |tx.chunks|
    ensures OnlySends(tx, SendAt(tx, i))
  {
    SendKeepsChunk(tx.chunks[i]);
  }

  lemma FillOneOnlySends(tx: Tx)
    requires tx.next < |tx.chunks|
    ensures OnlySends(tx, FillOne(tx))
  {
    SendAtOnlySends(tx, tx.next);
    var mid := SendAt(tx, tx.next);
    hide SendAt;
    SendsDataOnly(Release, mid.chunks, 0, tx.next + 1);
  }

  lemma {:induction false} FillOnlySends(tx: Tx, window: nat)
    ensures OnlySends(tx, Fill(tx, window))
    decreases |tx.chunks| - tx.next
  {
    if tx.next < |tx.chunks| && tx.next < tx.base + window {
      FillOneOnlySends(tx);
      hide FillOne;
      FillOnlySends(FillOne(tx), window);
    }
  }

  lemma ResendOnlySends(tx: Tx, due: set<nat>)
    requires tx.Bounds()
    ensures OnlySends(tx, ResendDue(tx, due))
  {
    SendsDataOnly(Resend(due), tx.chunks, tx.base, tx.next);
  }

  /** Whatever feedback arrives, the acknowledged chunks are exactly those below the window edge. */
  ghost predicate AckedBelowBase(tx: Tx) {
    tx.Bounds() && forall i :: 0 <= i < |tx.chunks| ==> (tx.chunks[i].acked <==> i < tx.base)
  }

  lemma FeedbackKeepsEdge(tx: Tx, p: Packet)
    requires AckedBelowBase(tx)
    ensures AckedBelowBase(OnFeedback(tx, p))
    ensures OnFeedback(tx, p).base == if p.Ack? then Max(tx.base, Min(p.ackId, |tx.chunks|)) else tx.base
  {
    match p
    case Ack(id, _) =>
      var upto := Min(id, |tx.chunks|);
      var cs := MarkAcked(tx.chunks, tx.base, upto);
      assert forall i :: tx.base <= i < |cs| ==> (cs[i].acked <==> i < upto);
      assert tx.base <= upto < |cs| ==> !cs[upto].acked;
      assert upto <= tx.base < |cs| ==> !cs[tx.base].acked;
    case Nack(id, _) =>
      if id < |tx.chunks| {
        SendAtOnlySends(tx, id);
      }
    case _ =>
  }

  /** An ACK carries base past next exactly when it names, up to the number of chunks, something not yet sent. */
  lemma FeedbackPastNextIff(tx: Tx, id: u32, w: u32)
    requires AckedBelowBase(tx) && tx.base <= tx.next
    ensures OnFeedback(tx, Ack(id, w)).base <= tx.next <==> Min(id, |tx.chunks|) <= tx.next
  {
    hide OnFeedback;
    FeedbackKeepsEdge(tx, Ack(id, w));
  }

  /**
   * In the first turn of any transfer of more chunks than the window holds, a forged ACK for all of them does that:
   * the fill has sent one window, and base jumps to the end.
   */
  lemma ForgedAckPassesNext(cfg: Config, w: u32)
    requires 0 < cfg.window < ChunkCount(cfg.file) < U32
    ensures var r := Turn(Init(cfg).tx, cfg.window, FromPeer(Ack(ChunkCount(cfg.file), w)), {});
      r.base == ChunkCount(cfg.file) > r.next == cfg.window
  {
    hide Fill, ResendDue, OnFeedback, FreshChunks;
    InitInv(cfg);
    var tx := Init(cfg).tx;
    FillKeeps(cfg, tx);
    var filled := Fill(tx, cfg.window);
    assert AckedBelowBase(filled) by {
      forall i | 0 <= i < |filled.chunks|
        ensures filled.chunks[i].acked <==> i < filled.base
      {
        assert ChunkInv(cfg, filled, i);
      }
    }
    hide SenderInv;
    FeedbackKeepsEdge(filled, Ack(ChunkCount(cfg.file), w));
  }

  /** One turn of the sender's loop keeps the edge exact for arbitrary, even forged, arrivals. */
  lemma TurnKeepsEdge(tx: Tx, window: nat, a: ReliableServer.Arrival, due: set<nat>)
    requires AckedBelowBase(tx)
    ensures AckedBelowBase(Turn(tx, window, a, due))
    ensures tx.base <= Turn(tx, window, a, due).base
  {
    hide Fill, ResendDue, OnFeedback;
    FillBounds(tx, window);
    FillOnlySends(tx, window);
    var filled := Fill(tx, window);
    if a.FromPeer? {
      FeedbackKeepsEdge(filled, a.p);
    }
    ResendOnlySends(OnArrival(filled, a), due);
  }

  /** Likewise for the whole transfer over any script. */
  lemma {:induction false} TransferKeepsEdge(tx: Tx, window: nat, digest: seq<byte>,
        script: seq<(ReliableServer.Arrival, set<nat>)>, stopped: bool)
    requires AckedBelowBase(tx)
    ensures AckedBelowBase(Transfer(tx, window, digest, script, stopped).0)
    ensures Transfer(tx, window, digest, script, stopped).1 == Sent ==>
      !stopped && Transfer(tx, window, digest, script, stopped).0.base == |tx.chunks|
    decreases |script|
  {
    hide Turn, Fill;
    if tx.base < |tx.chunks| && script != [] {
      if script[0].0.Malformed? {
        FillBounds(tx, window);
        FillOnlySends(tx, window);
      } else {
        TurnKeepsEdge(tx, window, script[0].0, script[0].1);
        TransferKeepsEdge(Turn(tx, window, script[0].0, script[0].1), window, digest, script[1..], stopped);
      }
    }
  }

  lemma NarrowStep(cfg: Config, s: Sys, e: Event)
    requires Narrow(cfg, s) && U32 <= ChunkCount(cfg.file) && Enabled(s, e)
    ensures Narrow(cfg, Apply(cfg, s, e))
  {
    hide Fill, ResendDue, OnFeedback, Drain, Sha1Spec.Digest;
    match e
    case FillWindow =>
      FillBounds(s.tx, cfg.window);
      FillOnlySends(s.tx, cfg.window);
    case Listen(a) =>
      if a.FromPeer? {
        NarrowFeedback(s.tx, a.p);
      }
    case CheckTimers(due) => ResendOnlySends(s.tx, due);
    case Deliver(p) => assert !p.Terminate?;
    case _ =>
  }

  lemma NarrowFeedback(tx: Tx, p: Packet)
    requires tx.Bounds() && U32 <= |tx.chunks| && tx.base < U32
    requires forall i :: tx.base <= i < |tx.chunks| ==> !tx.chunks[i].acked
    ensures OnFeedback(tx, p).base < U32
    ensures forall i :: OnFeedback(tx, p).base <= i < |tx.chunks| ==> !OnFeedback(tx, p).chunks[i].acked
    ensures forall q :: q in OnFeedback(tx, p).sent ==> q in tx.sent || q.Data?
  {
    match p
    case Ack(id, _) =>
      var cs := MarkAcked(tx.chunks, tx.base, id);
      assert forall i :: tx.base <= i < |cs| ==> (cs[i].acked <==> i < id);
      assert tx.base <= id < |cs| ==> !cs[id].acked;
      assert id <= tx.base < |cs| ==> !cs[tx.base].acked;
    case Nack(id, _) => SendAtOnlySends(tx, id);
    case _ =>
  }

  lemma {:induction false} NarrowPath(cfg: Config, s: Sys, es: seq<Event>, t: Sys)
    requires Narrow(cfg, s) && U32 <= ChunkCount(cfg.file) && Path(cfg, s, es, t)
    ensures Narrow(cfg, t)
    decreases |es|
  {
    if es != [] {
      NarrowStep(cfg, s, es[0]);
      NarrowPath(cfg, Apply(cfg, s, es[0]), es[1..], t);
    }
  }

  /** A transfer can complete exactly when its chunk ids and acknowledgements fit in 32 bits. */
  lemma CompletesIff(cfg: Config)
    requires cfg.window > 0
    ensures CanComplete(cfg) <==> ChunkCount(cfg.file) < U32
  {
    if ChunkCount(cfg.file) < U32 {
      var s := Init(cfg);
      assert Path(cfg, s, [], s);
      assert Reachable(cfg, s);
      var es, t := NeverWedged(cfg, s);
      PromptIsPath(cfg, s, es, t);
      assert Reachable(cfg, t);
    } else {
      if s :| Reachable(cfg, s) && s.rx.status == Verified {
        var es :| Path(cfg, Init(cfg), es, s);
        NarrowPath(cfg, Init(cfg), es, s);
        assert false;
      }
    }
  }

  /**
   * The three TERMINATEs are not acknowledged: for every file some run ends with the server done and the client
   * giving up on a complete copy.
   */
  lemma TerminatesCanAllBeLost(cfg: Config) returns (t: Sys)
    requires cfg.window > 0 && ChunkCount(cfg.file) < U32
    ensures Reachable(cfg, t) && t.phase == Closing(3) && t.rx.status == Aborted && t.rx.out == cfg.file
  {
    hide Sha1Spec.Digest, SenderInv, ReceiverInv, PhaseInv;
    var s := Init(cfg);
    InitInv(cfg);
    var es, u := AllAcknowledged(cfg, s);
    var fs;
    fs, t := BackToTop(cfg, u);
    BoundsOfInv(cfg, u);
    BoundsOfInv(cfg, t);
    ChunkTotal(cfg, t);
    PromptAppend(cfg, s, es, u, fs, t);
    es := es + fs;
    t := Extend(cfg, s, es, t, CloseDown);
    es := es + [CloseDown];
    t := Extend(cfg, s, es, t, CloseDown);
    es := es + [CloseDown];
    t := Extend(cfg, s, es, t, CloseDown);
    es := es + [CloseDown];
    TerminateVerifies(cfg, t);
    PromptIsPath(cfg, s, es, t);
    var before := t;
    t := Apply(cfg, before, ClientStop);
    assert Path(cfg, before, [ClientStop], t) by {
      assert [ClientStop][1..] == [];
      assert Path(cfg, t, [], t);
    }
    PathAppend(cfg, s, es, before, [ClientStop], t);
  }

  lemma StepVerified(cfg: Config, s: Sys, e: Event)
    requires Inv(cfg, s) && Enabled(s, e)
    ensures Apply(cfg, s, e).rx.status == Verified <==> s.rx.status == Verified || (e.Deliver? && e.p.Terminate?)
  {
    hide Fill, OnFeedback, ResendDue, Drain, Sha1Spec.Digest;
    match e
    case Deliver(p) =>
      if p.Terminate? {
        assert SentInv(cfg, s.tx, p);
        TerminateKeeps(cfg, s.tx, s.rx, cfg.receiverWindow);
      }
    case _ =>
  }

  lemma {:induction false} PathVerified(cfg: Config, s: Sys, es: seq<Event>, t: Sys)
    requires Inv(cfg, s) && Path(cfg, s, es, t)
    ensures t.rx.status == Verified <==>
      s.rx.status == Verified || exists i :: 0 <= i < |es| && es[i].Deliver? && es[i].p.Terminate?
    decreases |es|
  {
    hide Inv, Apply, Enabled;
    if es != [] {
      BoundsOfInv(cfg, s);
      var next := Apply(cfg, s, es[0]);
      StepKeepsInv(cfg, s, es[0]);
      StepVerified(cfg, s, es[0]);
      PathVerified(cfg, next, es[1..], t);
      if i :| 0 <= i < |es| && es[i].Deliver? && es[i].p.Terminate? {
        assert i > 0 ==> es[1..][i - 1] == es[i];
      }
      if i :| 0 <= i < |es[1..]| && es[1..][i].Deliver? && es[1..][i].p.Terminate? {
        assert es[i + 1] == es[1..][i];
      }
    }
  }

  /** In every run the client succeeds exactly when one of the TERMINATEs reaches it. */
  lemma ClientSucceedsIff(cfg: Config, es: seq<Event>, t: Sys)
    requires ChunkCount(cfg.file) < U32 && Path(cfg, Init(cfg), es, t)
    ensures t.rx.status == Verified <==> exists i :: 0 <= i < |es| && es[i].Deliver? && es[i].p.Terminate?
  {
    InitInv(cfg);
    PathVerified(cfg, Init(cfg), es, t);
  }

  /** One turn of the sender's loop is a fill, a receive and a timer check of the joint system. */
  lemma TurnIsThreeSteps(cfg: Config, s: Sys, a: ReliableServer.Arrival, due: set<nat>)
    requires s.tx.Bounds() && s.phase == Filling && s.tx.base < |s.tx.chunks| && !a.Malformed?
    requires a.FromPeer? ==> a.p in s.rx.feedback || Stray(a.p)
    ensures Path(cfg, s, [FillWindow, Listen(a), CheckTimers(due)], s.(tx := Turn(s.tx, cfg.window, a, due)))
  {
    hide Fill, OnArrival, ResendDue, Sha1Spec.Digest;
    var es := [FillWindow, Listen(a), CheckTimers(due)];
    var t := s.(tx := Turn(s.tx, cfg.window, a, due));
    BoundsKept(cfg, s, es[0]);
    var s1 := Apply(cfg, s, es[0]);
    BoundsKept(cfg, s1, es[1]);
    var s2 := Apply(cfg, s1, es[1]);
    BoundsKept(cfg, s2, es[2]);
    assert Apply(cfg, s2, es[2]) == t;
    assert es[1..][0] == es[1] && es[1..][1..] == [es[2]] && [es[2]][1..] == [];
    assert Path(cfg, t, [], t);
    assert Path(cfg, s2, [es[2]], t);
    assert Path(cfg, s1, es[1..], t);
  }

  // ---- What one fill puts on the wire ----

  predicate IdsWithin(ps: seq<Packet>, lo: nat, hi: nat) {
    && (forall j :: 0 <= j < |ps| ==> ps[j].Data? && lo <= ps[j].id < hi)
    && (forall j, k :: 0 <= j < k < |ps| ==> ps[j].Data? && ps[k].Data? && ps[j].id <= ps[k].id)
  }

  /** The datagrams of one fill are in chunk order and all new, so the reorder hold alone never reorders the wire. */
  lemma {:induction false} FillSendsInOrder(cfg: Config, tx: Tx)
    requires SenderInv(cfg, tx)
    ensures var r := Fill(tx, cfg.window);
            tx.sent <= r.sent && IdsWithin(r.sent[|tx.sent|..], tx.next, r.next)
    decreases |tx.chunks| - tx.next
  {
    var r := Fill(tx, cfg.window);
    if tx.next < |tx.chunks| && tx.next < tx.base + cfg.window {
      FillOneKeeps(cfg, tx);
      FillOneSends(cfg, tx);
      FillKeeps(cfg, tx);
      var one := FillOne(tx);
      hide FillOne, SenderInv, FirstSend;
      FillSendsInOrder(cfg, one);
      var now, later := one.sent[|tx.sent|..], r.sent[|one.sent|..];
      assert r.sent[|tx.sent|..] == now + later;
      IdsJoin(now, later, tx.next, r.next, ChunkAt(cfg.file, tx.next));
    } else {
      assert r.sent[|tx.sent|..] == [];
    }
  }

  lemma IdsJoin(now: seq<Packet>, later: seq<Packet>, id: u32, hi: nat, payload: seq<byte>)
    requires forall p :: p in now ==> p == Data(id, payload)
    requires IdsWithin(later, id + 1, hi) && id < hi
    ensures IdsWithin(now + later, id, hi)
  {
    forall j | 0 <= j < |now|
      ensures now[j] == Data(id, payload)
    {
      assert now[j] in now;
    }
  }

  lemma FillOneSends(cfg: Config, tx: Tx)
    requires SenderInv(cfg, tx) && tx.next < |tx.chunks| && tx.next < tx.base + cfg.window
    ensures tx.sent <= FillOne(tx).sent
    ensures forall p :: p in FillOne(tx).sent[|tx.sent|..] ==> p == Data(tx.next, ChunkAt(cfg.file, tx.next))
  {
    hide ChunkAt;
    forall i | 0 <= i < |tx.chunks|
      ensures !tx.chunks[i].reorderPending
    {
      assert ChunkInv(cfg, tx, i);
    }
    assert ChunkInv(cfg, tx, tx.next);
    FillOneForm(tx);
    FirstSendForm(tx.chunks[tx.next]);
    ChunkWire(cfg, tx, tx.next);
    var emitted := FirstSend(tx.chunks[tx.next]).1;
    assert (tx.sent + emitted)[|tx.sent|..] == emitted;
  }
}
