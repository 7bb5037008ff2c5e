/** How often each chunk goes on the wire: the simulated holds, losses and duplicates, and nothing else. */
module ReliableEmissions {
  import opened Bytes
  import opened Packets
  import opened FileChunks
  import opened ReliableServer
  import opened ReliableClient
  import opened ReliableSystem
  import Sha1Spec

  // ---- How often one chunk is held, dropped and duplicated ----

  /**
   * The datagrams of successive send calls for one chunk; each call may come through the release loop, which
   * clears the hold first.
   */
  function CallLog(c: ReliableChunk, viaRelease: seq<bool>): (log: seq<seq<Packet>>)
    ensures |log| == |viaRelease|
    decreases |viaRelease|
  {
    if viaRelease == [] then []
    else
      var (d, emitted) := SendChunk(if viaRelease[0] then c.(reorderPending := false) else c);
      [emitted] + CallLog(d, viaRelease[1..])
  }

  function Holds(c: ReliableChunk): nat {
    if c.sendCount == 0 && c.reorderFirst then 1 else 0
  }

  function Drops(c: ReliableChunk): nat {
    if c.sendCount == 0 && c.dropFirst then 1 else 0
  }

  function Extras(c: ReliableChunk): nat {
    if c.sendCount == 0 && c.dupFirst && !c.dropFirst then 1 else 0
  }

  /**
   * Call k of a chunk: first a hold if configured, then a drop if configured, then a transmission, the very first
   * one doubled if configured.
   */
  function Copies(c: ReliableChunk, k: nat): nat {
    if k < Holds(c) + Drops(c) then 0
    else if k == Holds(c) + Drops(c) then 1 + Extras(c)
    else 1
  }

  lemma CallOnce(c: ReliableChunk, clear: bool, k: nat)
    ensures var (d, emitted) := SendChunk(if clear then c.(reorderPending := false) else c);
            emitted == seq(Copies(c, 0), _ => Wire(c)) && Wire(d) == Wire(c) && Copies(d, k) == Copies(c, k + 1)
  {
    assert [Wire(c)] == seq(1, _ => Wire(c)) && [Wire(c), Wire(c)] == seq(2, _ => Wire(c));
  }

  lemma {:induction false} CallLogForm(c: ReliableChunk, viaRelease: seq<bool>, k: nat)
    requires k < |viaRelease|
    ensures CallLog(c, viaRelease)[k] == seq(Copies(c, k), _ => Wire(c))
    decreases k
  {
    hide SendChunk, Wire, Copies;
    var (d, emitted) := SendChunk(if viaRelease[0] then c.(reorderPending := false) else c);
    CallOnce(c, viaRelease[0], k);
    if k > 0 {
      CallOnce(c, viaRelease[0], k - 1);
      CallLogForm(d, viaRelease[1..], k - 1);
    }
  }

  /** What calls did other than send one copy: not count as a send, count but send nothing, send twice. */
  datatype Tally = Tally(holds: nat, drops: nat, extras: nat)

  function TallyOf(c: ReliableChunk, viaRelease: seq<bool>): Tally
    decreases |viaRelease|
  {
    if viaRelease == [] then Tally(0, 0, 0)
    else
      var (d, emitted) := SendChunk(if viaRelease[0] then c.(reorderPending := false) else c);
      var t := TallyOf(d, viaRelease[1..]);
      if d.sendCount == c.sendCount then t.(holds := t.holds + 1)
      else if emitted == [] then t.(drops := t.drops + 1)
      else if |emitted| == 2 then t.(extras := t.extras + 1)
      else t
  }

  lemma CallTally(c: ReliableChunk, clear: bool)
    ensures var (d, emitted) := SendChunk(if clear then c.(reorderPending := false) else c);
      && Holds(d) == 0 && Drops(d) == Holds(c) * Drops(c) && Extras(d) == Holds(c) * Extras(c)
      && Holds(c) <= 1 && Drops(c) + Extras(c) <= 1
      && (d.sendCount == c.sendCount <==> Holds(c) == 1)
      && (d.sendCount != c.sendCount ==> (emitted == [] <==> Drops(c) == 1) && (|emitted| == 2 <==> Extras(c) == 1))
  {
  }

  /** The hold comes first, the drop next, the extra copy after both, each at most once and only if configured. */
  lemma {:induction false} TallyForm(c: ReliableChunk, viaRelease: seq<bool>)
    ensures var n, t := |viaRelease|, TallyOf(c, viaRelease);
      && t.holds == Min(n, Holds(c)) && t.drops == Min(n - t.holds, Drops(c))
      && t.extras == if n > Holds(c) + Drops(c) then Extras(c) else 0
    decreases |viaRelease|
  {
    hide SendChunk, Holds, Drops, Extras;
    CallTally(c, viaRelease != [] && viaRelease[0]);
    if viaRelease != [] {
      TallyForm(SendChunk(if viaRelease[0] then c.(reorderPending := false) else c).0, viaRelease[1..]);
    }
  }

  /** Over any sequence of calls: wire emissions = calls - holds - drops + duplicates. */
  lemma EmissionCount(c: ReliableChunk, viaRelease: seq<bool>)
    ensures var t := TallyOf(c, viaRelease);
      |Flatten(CallLog(c, viaRelease))| + t.holds + t.drops == |viaRelease| + t.extras
  {
    hide CallLog, TallyOf, Holds, Drops, Extras, Flatten;
    TallyForm(c, viaRelease);
    EmissionsSoFar(c, viaRelease, |viaRelease|);
    assert CallLog(c, viaRelease)[..|viaRelease|] == CallLog(c, viaRelease);
  }

  lemma FlattenUpTo(log: seq<seq<Packet>>, n: nat)
    requires 0 < n <= |log|
    ensures |Flatten(log[..n])| == |Flatten(log[..n - 1])| + |log[n - 1]|
  {
    hide Flatten;
    FlattenSnoc(log[..n - 1], log[n - 1]);
    assert log[..n] == log[..n - 1] + [log[n - 1]];
  }

  lemma {:induction false} EmissionsSoFar(c: ReliableChunk, viaRelease: seq<bool>, n: nat)
    requires n <= |viaRelease|
    ensures var q := Holds(c) + Drops(c);
            |Flatten(CallLog(c, viaRelease)[..n])| == if n <= q then 0 else n - q + Extras(c)
  {
    if n == 0 {
      assert CallLog(c, viaRelease)[..0] == [];
    } else {
      hide CallLog, Wire, Holds, Drops, Extras, SendChunk, Flatten;
      var log := CallLog(c, viaRelease);
      EmissionsSoFar(c, viaRelease, n - 1);
      CallLogForm(c, viaRelease, n - 1);
      FlattenUpTo(log, n);
    }
  }

  // ---- Every chunk in every run ----

  /** Chunk i's packet. */
  function DataOf(cfg: Config, i: nat): Packet
    requires i < ChunkCount(cfg.file) < U32
  {
    Data(i, ChunkAt(cfg.file, i))
  }

  function Lost(cfg: Config, i: nat): nat {
    if i in cfg.faults.loss then 1 else 0
  }

  function Doubled(cfg: Config, i: nat): nat {
    if i in cfg.faults.dup && i !in cfg.faults.loss then 1 else 0
  }

  /**
   * Below next, copies on the wire and the loss make up the send calls and the extra copy; from next on there are no
   * copies.
   */
  ghost predicate Counted(cfg: Config, tx: Tx, i: nat)
    requires i < |tx.chunks| == ChunkCount(cfg.file) < U32
  {
    if i < tx.next then
      multiset(tx.sent)[DataOf(cfg, i)] + Lost(cfg, i) == tx.chunks[i].sendCount + Doubled(cfg, i)
    else multiset(tx.sent)[DataOf(cfg, i)] == 0
  }

  ghost predicate CountInv(cfg: Config, tx: Tx)
    requires |tx.chunks| == ChunkCount(cfg.file) < U32
  {
    forall i: nat :: i < |tx.chunks| ==> Counted(cfg, tx, i)
  }

  lemma CountAppend(sent: seq<Packet>, more: seq<Packet>, p: Packet)
    ensures multiset(sent + more)[p] == multiset(sent)[p] + multiset(more)[p]
  {
  }

  /** What the fill loop puts on the wire for chunk next. */
  lemma FirstSendCounts(cfg: Config, tx: Tx, i: nat)
    requires SenderInv(cfg, tx) && tx.next < |tx.chunks| && i < |tx.chunks|
    ensures var (c, emitted) := FirstSend(tx.chunks[tx.next]);
      && FillOne(tx) == Tx(tx.chunks[tx.next := c], tx.base, tx.next + 1, tx.sent + emitted) && c.sendCount == 1
      && multiset(emitted)[DataOf(cfg, i)] == if i == tx.next then 1 + Doubled(cfg, i) - Lost(cfg, i) else 0
  {
    hide ChunkAt;
    forall j | 0 <= j < |tx.chunks|
      ensures !tx.chunks[j].reorderPending
    {
      assert ChunkInv(cfg, tx, j);
    }
    assert ChunkInv(cfg, tx, tx.next);
    FillOneForm(tx);
    FirstSendForm(tx.chunks[tx.next]);
    ChunkWire(cfg, tx, tx.next);
    hide FillOne, FirstSend, SenderInv;
  }

  lemma FillOneCounts(cfg: Config, tx: Tx)
    requires SenderInv(cfg, tx) && CountInv(cfg, tx)
    requires tx.next < |tx.chunks|
    ensures CountInv(cfg, FillOne(tx))
  {
    hide FillOne, FirstSend, ChunkInv, SentInv, DataOf, Lost, Doubled;
    forall i: nat | i < |tx.chunks|
      ensures Counted(cfg, FillOne(tx), i)
    {
      assert Counted(cfg, tx, i);
      FirstSendCounts(cfg, tx, i);
      CountAppend(tx.sent, FirstSend(tx.chunks[tx.next]).1, DataOf(cfg, i));
    }
  }

  lemma {:induction false} FillCounts(cfg: Config, tx: Tx)
    requires SenderInv(cfg, tx) && CountInv(cfg, tx)
    ensures CountInv(cfg, Fill(tx, cfg.window))
    decreases |tx.chunks| - tx.next
  {
    if tx.next < |tx.chunks| && tx.next < tx.base + cfg.window {
      FillOneKeeps(cfg, tx);
      FillOneCounts(cfg, tx);
      hide FillOne, CountInv;
      FillCounts(cfg, FillOne(tx));
    }
  }

  lemma SendAtCounts(cfg: Config, tx: Tx, n: nat)
    requires SenderInv(cfg, tx) && CountInv(cfg, tx) && n < tx.next
    ensures CountInv(cfg, SendAt(tx, n))
  {
    hide ChunkAt;
    assert ChunkInv(cfg, tx, n);
    SendKeepsChunk(tx.chunks[n]);
    ChunkWire(cfg, tx, n);
    var r := SendAt(tx, n);
    hide SendChunk;
    forall i: nat | i < |tx.chunks|
      ensures Counted(cfg, r, i)
    {
      assert Counted(cfg, tx, i);
      CountAppend(tx.sent, [DataOf(cfg, n)], DataOf(cfg, i));
    }
  }

  /** The timer loop adds to a chunk's send calls as many as it puts copies of it on the wire. */
  lemma {:induction false} ResendCounts(cfg: Config, tx: Tx, due: set<nat>, hi: nat, i: nat)
    requires SenderInv(cfg, tx) && hi <= tx.next && i < |tx.chunks|
    ensures var (cs, emitted) := VisitRange(Resend(due), tx.chunks, tx.base, hi);
      cs[i].sendCount == tx.chunks[i].sendCount + multiset(emitted)[DataOf(cfg, i)]
    decreases hi
  {
    hide VisitOne, ChunkAt;
    if tx.base < hi {
      var (cs, emitted) := VisitRange(Resend(due), tx.chunks, tx.base, hi - 1);
      ResendCounts(cfg, tx, due, hi - 1, i);
      VisitRangeAt(Resend(due), tx.chunks, tx.base, hi - 1, hi - 1);
      ResendOneCounts(cfg, tx, due, hi - 1, i);
      CountAppend(emitted, VisitOne(Resend(due), hi - 1, cs[hi - 1]).1, DataOf(cfg, i));
    }
  }

  lemma ResendOneCounts(cfg: Config, tx: Tx, due: set<nat>, n: nat, i: nat)
    requires SenderInv(cfg, tx) && n < tx.next && i < |tx.chunks|
    ensures var (c, emitted) := VisitOne(Resend(due), n, tx.chunks[n]);
      multiset(emitted)[DataOf(cfg, i)] == if i == n then c.sendCount - tx.chunks[n].sendCount else 0
  {
    hide ChunkAt;
    assert ChunkInv(cfg, tx, n);
    SendKeepsChunk(tx.chunks[n]);
    ChunkWire(cfg, tx, n);
    hide SendChunk;
  }

  lemma ResendDueCounts(cfg: Config, tx: Tx, due: set<nat>)
    requires SenderInv(cfg, tx) && CountInv(cfg, tx)
    ensures CountInv(cfg, ResendDue(tx, due))
  {
    hide VisitOne, VisitRange, ChunkAt;
    var emitted := VisitRange(Resend(due), tx.chunks, tx.base, tx.next).1;
    forall i: nat | i < |tx.chunks|
      ensures Counted(cfg, ResendDue(tx, due), i)
    {
      assert Counted(cfg, tx, i);
      ResendCounts(cfg, tx, due, tx.next, i);
      VisitRangeAt(Resend(due), tx.chunks, tx.base, tx.next, i);
      CountAppend(tx.sent, emitted, DataOf(cfg, i));
    }
  }

  lemma FeedbackCounts(cfg: Config, tx: Tx, p: Packet)
    requires SenderInv(cfg, tx) && CountInv(cfg, tx) && (p.Nack? ==> p.ackId < tx.next)
    ensures CountInv(cfg, OnFeedback(tx, p))
  {
    match p
    case Ack(id, _) =>
      forall i: nat | i < |tx.chunks|
        ensures Counted(cfg, OnFeedback(tx, p), i)
      {
        assert Counted(cfg, tx, i);
      }
    case Nack(id, _) =>
      if id < |tx.chunks| && !tx.chunks[id].acked {
        SendAtCounts(cfg, tx, id);
      }
    case _ =>
  }

  lemma StepCounts(cfg: Config, s: Sys, e: Event)
    requires Inv(cfg, s) && CountInv(cfg, s.tx) && Enabled(s, e)
    ensures |Apply(cfg, s, e).tx.chunks| == |s.tx.chunks| && CountInv(cfg, Apply(cfg, s, e).tx)
  {
    hide Fill, OnFeedback, ResendDue, Receive, Sha1Spec.Digest, ChunkAt;
    match e
    case FillWindow => FillCounts(cfg, s.tx);
    case Listen(a) =>
      if a.FromPeer? {
        assert a.p in s.rx.feedback ==> FeedbackInv(s.tx, s.rx, a.p);
        FeedbackCounts(cfg, s.tx, a.p);
      }
    case CheckTimers(due) => ResendDueCounts(cfg, s.tx, due);
    case CloseDown =>
      forall i: nat | i < |s.tx.chunks|
        ensures Counted(cfg, Apply(cfg, s, e).tx, i)
      {
        assert Counted(cfg, s.tx, i);
        CountAppend(s.tx.sent, [Terminate(Sha1Spec.Digest(cfg.file))], DataOf(cfg, i));
      }
    case _ =>
  }

  lemma {:induction false} PathCounts(cfg: Config, s: Sys, es: seq<Event>, t: Sys)
    requires Inv(cfg, s) && CountInv(cfg, s.tx) && Path(cfg, s, es, t)
    ensures |t.tx.chunks| == |s.tx.chunks| && CountInv(cfg, t.tx)
    decreases |es|
  {
    hide CountInv, Apply, Enabled;
    if es != [] {
      StepKeepsInv(cfg, s, es[0]);
      StepCounts(cfg, s, es[0]);
      PathCounts(cfg, Apply(cfg, s, es[0]), es[1..], t);
    }
  }

  /**
   * In every reachable state chunk i has gone on the wire as often as it was sent, less the configured loss, and once
   * more for the configured duplicate, which a loss masks; chunks from next on not at all.
   */
  lemma EmissionsInRun(cfg: Config, s: Sys, i: nat)
    requires i < ChunkCount(cfg.file) < U32 && Reachable(cfg, s)
    ensures |s.tx.chunks| == ChunkCount(cfg.file)
    ensures i < s.tx.next ==> s.tx.chunks[i].sendCount >= 1
    ensures multiset(s.tx.sent)[DataOf(cfg, i)] ==
      if i < s.tx.next then s.tx.chunks[i].sendCount - Lost(cfg, i) + Doubled(cfg, i) else 0
  {
    hide Inv, ChunkAt;
    var es :| Path(cfg, Init(cfg), es, s);
    InitInv(cfg);
    InitCounts(cfg);
    PathCounts(cfg, Init(cfg), es, s);
    assert Counted(cfg, s.tx, i);
    ReachableInv(cfg, s);
    if i < s.tx.next {
      SentAtLeastOnce(cfg, s, i);
    }
  }

  lemma SentAtLeastOnce(cfg: Config, s: Sys, i: nat)
    requires Inv(cfg, s) && i < s.tx.next
    ensures i < |s.tx.chunks| && s.tx.chunks[i].sendCount >= 1
  {
    assert ChunkInv(cfg, s.tx, i);
  }

  lemma InitCounts(cfg: Config)
    requires ChunkCount(cfg.file) < U32
    ensures |Init(cfg).tx.chunks| == ChunkCount(cfg.file) && CountInv(cfg, Init(cfg).tx)
  {
    hide ChunkAt;
    forall i: nat | i < ChunkCount(cfg.file)
      ensures Counted(cfg, Init(cfg).tx, i)
    {
    }
  }
}
