/** Where the chunk ids of the reliable mode wrap: prefix safety ends at 2^32 chunks. */
module ReliableWrap {
  import opened Bytes
  import opened Packets
  import opened FileChunks
  import opened ReliableServer
  import opened ReliableClient
  import opened ReliableSystem
  import opened ReliableTheorems
  import BasicTransfer

  /** Chunk i's packet, its id counted modulo 2^32. */
  function DataAt(file: seq<byte>, i: nat): Packet
    requires i < ChunkCount(file)
  {
    Data(i % U32, ChunkAt(file, i))
  }

  /** The first k chunks are acknowledged, and every chunk below next is on the wire. */
  ghost predicate TxInStep(cfg: Config, tx: Tx, k: nat) {
    && |tx.chunks| == ChunkCount(cfg.file)
    && k == tx.base <= tx.next <= |tx.chunks|
    && (forall i :: 0 <= i < |tx.chunks| ==> ChunkInv(cfg, tx, i))
    && (forall i: nat :: i < tx.next ==> DataAt(cfg.file, i) in tx.sent)
  }

  /** The first n chunks are written, nothing is held, and the expected id is n's. */
  predicate RxInStep(file: seq<byte>, rx: Rx, n: nat) {
    && n <= ChunkCount(file)
    && rx.held == map[] && rx.expected == n % U32 && rx.status == Receiving
    && rx.out == Flatten(Chunks(file)[..n])
  }

  lemma FillOneInStep(cfg: Config, tx: Tx, k: nat)
    requires cfg.faults.loss == {} && TxInStep(cfg, tx, k) && tx.next < |tx.chunks|
    ensures TxInStep(cfg, FillOne(tx), k)
  {
    hide ChunkAt, ChunkCount;
    var n := tx.next;
    assert ChunkInv(cfg, tx, n);
    forall i | 0 <= i < |tx.chunks|
      ensures !tx.chunks[i].reorderPending
    {
      assert ChunkInv(cfg, tx, i);
    }
    FillOneForm(tx);
    FirstSendForm(tx.chunks[n]);
    var r, emitted := FillOne(tx), FirstSend(tx.chunks[n]).1;
    assert emitted[0] == DataAt(cfg.file, n);
    hide FillOne, FirstSend;
    forall i | 0 <= i < |r.chunks|
      ensures ChunkInv(cfg, r, i)
    {
      assert ChunkInv(cfg, tx, i);
    }
    forall i: nat | i < r.next
      ensures DataAt(cfg.file, i) in r.sent
    {
      assert i < n ==> DataAt(cfg.file, i) in tx.sent;
      assert emitted[0] in emitted;
    }
  }

  lemma {:induction false} FillInStep(cfg: Config, tx: Tx, k: nat)
    requires cfg.faults.loss == {} && TxInStep(cfg, tx, k)
    ensures TxInStep(cfg, Fill(tx, cfg.window), k)
    ensures k < |tx.chunks| && cfg.window > 0 ==> k < Fill(tx, cfg.window).next
    decreases |tx.chunks| - tx.next
  {
    if tx.next < |tx.chunks| && tx.next < tx.base + cfg.window {
      FillOneInStep(cfg, tx, k);
      hide FillOne, TxInStep;
      FillInStep(cfg, FillOne(tx), k);
      FillBounds(FillOne(tx), cfg.window) by { assert TxInStep(cfg, FillOne(tx), k); }
    }
  }

  lemma AckInStep(cfg: Config, tx: Tx, k: nat, w: u32)
    requires TxInStep(cfg, tx, k) && k < tx.next && k + 1 < U32
    ensures TxInStep(cfg, OnFeedback(tx, Ack(k + 1, w)), k + 1)
  {
    hide ChunkAt, ChunkCount;
    forall i | 0 <= i < |tx.chunks|
      ensures tx.chunks[i].acked <==> i < k
    {
      assert ChunkInv(cfg, tx, i);
    }
    FeedbackKeepsEdge(tx, Ack(k + 1, w));
    var r := OnFeedback(tx, Ack(k + 1, w));
    hide FirstUnacked;
    forall i | 0 <= i < |r.chunks|
      ensures ChunkInv(cfg, r, i)
    {
      assert ChunkInv(cfg, tx, i);
    }
  }

  lemma NothingDue(tx: Tx)
    requires tx.Bounds()
    ensures ResendDue(tx, {}) == tx
  {
    VisitRangeIdle(Resend({}), tx.chunks, tx.base, tx.next);
    assert tx.sent + [] == tx.sent;
  }

  /** The expected chunk, when nothing is held, is written at once and acknowledged. */
  lemma ExpectedIsWritten(rx: Rx, w: u32, payload: seq<byte>)
    requires rx.held == map[]
    ensures OnData(rx, w, rx.expected, payload) ==
      Rx(map[], NextId(rx.expected), rx.receivedBytes + |payload|, rx.out + payload,
         rx.feedback + [Ack(NextId(rx.expected), w)], rx.status)
  {
    hide NextId;
    var stored := Store(rx, w, rx.expected, payload);
    assert stored.held == map[rx.expected as nat := payload];
    DrainUnfolds(stored);
    assert stored.held - {rx.expected} == map[];
    DrainUnfolds(TakeNext(stored));
  }

  lemma NextInStep(file: seq<byte>, rx: Rx, n: nat, w: u32)
    requires n < ChunkCount(file) && RxInStep(file, rx, n)
    ensures var r := Receive(rx, w, DataAt(file, n));
      RxInStep(file, r, n + 1) && r.feedback == rx.feedback + [Ack((n + 1) % U32, w)]
  {
    hide ChunkAt, ChunkCount, Flatten, OnData;
    ExpectedIsWritten(rx, w, ChunkAt(file, n));
    BasicTransfer.NextIdCounts(n);
    var cs := Chunks(file);
    assert cs[..n + 1] == cs[..n] + [cs[n]];
    FlattenSnoc(cs[..n], cs[n]);
  }

  /** Sender and receiver stand at the same chunk. */
  ghost predicate InStep(cfg: Config, s: Sys, k: nat) {
    s.phase == Filling && TxInStep(cfg, s.tx, k) && RxInStep(cfg.file, s.rx, k)
  }

  /** An event appended to a path from the start. */
  lemma Extended(cfg: Config, s: Sys, e: Event) returns (t: Sys)
    requires Reachable(cfg, s) && s.tx.Bounds() && Enabled(s, e)
    ensures t == Apply(cfg, s, e) && Reachable(cfg, t) && t.tx.Bounds()
  {
    hide Apply, Enabled;
    t := Apply(cfg, s, e);
    BoundsKept(cfg, s, e);
    var es :| Path(cfg, Init(cfg), es, s);
    assert [e][1..] == [] && Path(cfg, t, [], t);
    assert Path(cfg, s, [e], t);
    PathAppend(cfg, Init(cfg), es, s, [e], t);
  }

  /** Fill the window and deliver the chunk both sides stand at. */
  lemma FilledAndDelivered(cfg: Config, s: Sys, k: nat) returns (t: Sys)
    requires cfg.faults.loss == {} && cfg.window > 0 && k < ChunkCount(cfg.file)
    requires Reachable(cfg, s) && InStep(cfg, s, k)
    ensures Reachable(cfg, t) && t.phase == Listening && TxInStep(cfg, t.tx, k) && k < t.tx.next
    ensures RxInStep(cfg.file, t.rx, k + 1) && Ack((k + 1) % U32, cfg.receiverWindow) in t.rx.feedback
  {
    hide ChunkAt, ChunkCount, Chunks, Flatten, Fill, OnData, DataAt, Reachable, ChunkInv;
    FillInStep(cfg, s.tx, k);
    t := Extended(cfg, s, FillWindow);
    NextInStep(cfg.file, t.rx, k, cfg.receiverWindow);
    t := Extended(cfg, t, Deliver(DataAt(cfg.file, k)));
  }

  /** The acknowledgement arrives, and no timer is due. */
  lemma AcknowledgedAndChecked(cfg: Config, s: Sys, k: nat) returns (t: Sys)
    requires Reachable(cfg, s) && s.phase == Listening && TxInStep(cfg, s.tx, k) && k < s.tx.next && k + 1 < U32
    requires RxInStep(cfg.file, s.rx, k + 1) && Ack(k + 1, cfg.receiverWindow) in s.rx.feedback
    ensures Reachable(cfg, t) && InStep(cfg, t, k + 1)
  {
    hide ChunkAt, ChunkCount, Chunks, Flatten, OnFeedback, Reachable, ChunkInv, DataAt;
    AckInStep(cfg, s.tx, k, cfg.receiverWindow);
    t := Extended(cfg, s, Listen(FromPeer(Ack(k + 1, cfg.receiverWindow))));
    NothingDue(t.tx);
    t := Extended(cfg, t, CheckTimers({}));
  }

  /** Without faults, both sides reach every chunk below the last id. */
  lemma {:induction false} ReachInStep(cfg: Config, k: nat) returns (s: Sys)
    requires cfg.faults.loss == {} && cfg.window > 0 && k <= ChunkCount(cfg.file) && k < U32
    ensures Reachable(cfg, s) && InStep(cfg, s, k)
  {
    hide InStep, TxInStep, RxInStep;
    if k == 0 {
      s := Init(cfg);
      StartInStep(cfg);
    } else {
      var i := k - 1;
      s := ReachInStep(cfg, i);
      s := FilledAndDelivered(cfg, s, i);
      s := AcknowledgedAndChecked(cfg, s, i);
    }
  }

  lemma StartInStep(cfg: Config)
    ensures Reachable(cfg, Init(cfg)) && InStep(cfg, Init(cfg), 0)
  {
    assert Path(cfg, Init(cfg), [], Init(cfg));
    assert Chunks(cfg.file)[..0] == [];
  }

  /** At 2^32 chunks or more, chunk 0 arriving once more after the last id is taken for the next chunk. */
  lemma WrapReached(cfg: Config) returns (s: Sys)
    requires cfg.faults.loss == {} && cfg.window > 0 && ChunkCount(cfg.file) >= U32
    ensures Reachable(cfg, s) && s.rx.out == Flatten(Chunks(cfg.file)[..U32]) + ChunkAt(cfg.file, 0)
  {
    hide ChunkAt, ChunkCount, Chunks, Flatten, OnData, Reachable, ChunkInv;
    s := ReachInStep(cfg, U32 - 1);
    s := FilledAndDelivered(cfg, s, U32 - 1);
    assert DataAt(cfg.file, 0) in s.tx.sent;
    ExpectedIsWritten(s.rx, cfg.receiverWindow, ChunkAt(cfg.file, 0));
    s := Extended(cfg, s, Deliver(DataAt(cfg.file, 0)));
  }

  /**
   * For every file of n chunks and every run of a transfer with this window, what the client has written is a chunk
   * prefix: so exactly when n is below 2^32.
   */
  lemma PrefixSafetyIff(n: nat, window: nat)
    requires window > 0
    ensures (forall cfg: Config, s: Sys ::
              ChunkCount(cfg.file) == n && cfg.window == window && Reachable(cfg, s)
              ==> BasicTransfer.ChunkPrefixed(cfg.file, s.rx.out))
            <==> n < U32
  {
    hide Reachable, ChunkCount, Flatten;
    if n < U32 {
      forall cfg: Config, s: Sys | ChunkCount(cfg.file) == n && cfg.window == window && Reachable(cfg, s)
        ensures BasicTransfer.ChunkPrefixed(cfg.file, s.rx.out)
      {
        PrefixSafety(cfg, s);
      }
    } else {
      var file := BasicTransfer.MarkedFile(n);
      var cfg := Config(file, window, window % U32, Faults({}, {}, {}));
      var s := WrapReached(cfg);
      BasicTransfer.WrappedRun(file);
      BasicTransfer.MarkedBreaks(n);
    }
  }
}
