/**
 * Completion under fairness: if neither side gives up, timers keep firing and no datagram is lost for ever, the
 * transfer completes.
 */
module ReliableLiveness {
  import opened Bytes
  import opened Packets
  import opened FileChunks
  import opened ReliableServer
  import opened ReliableClient
  import opened ReliableSystem
  import opened ReliableFairness
  import ReliableTheorems
  import Sha1Spec

  /**
   * Under fair links and timers every chunk is acknowledged in the end, and by then the client has written the
   * whole file.
   */
  lemma EventuallyAcknowledged(b: Behaviour) returns (t: nat)
    requires IsRun(b) && FairLink(b) && FairTimers(b)
    ensures b.state(t).tx.base == ChunkCount(b.cfg.file)
    ensures b.state(t).rx.out == b.cfg.file
  {
    hide Inv, Init, StepAt, KeepsGoing;
    if NeverDone(b) {
      NotForever(b);
    }
    t :| Acknowledged(b, t);
    AlwaysInv(b, t);
    WholeFile(b.cfg, b.state(t));
  }

  lemma WholeFile(cfg: Config, s: Sys)
    requires Inv(cfg, s) && s.tx.base == ChunkCount(cfg.file)
    ensures s.rx.out == cfg.file
  {
    ChunksJoin(cfg.file);
    assert Chunks(cfg.file)[..s.rx.expected] == Chunks(cfg.file);
  }

  lemma NotForever(b: Behaviour)
    requires IsRun(b) && FairLink(b) && FairTimers(b)
    ensures exists u: nat :: Acknowledged(b, u)
  {
    hide Inv, Init, StepAt, KeepsGoing, ChunkAt, SentAt, DeliveredAt, IsRun;
    if NeverDone(b) {
      var from := Settles(b, 0);
      BaseSentFor(b, from, from);
      var base, e := b.state(from).tx.base, b.state(from).rx.expected;
      var data, ack := Data(base, ChunkAt(b.cfg.file, base)), Ack(e, b.cfg.receiverWindow);
      forall t: nat
        ensures SentFrom(b, data, t)
      {
        BaseSentFor(b, from, Max(from, t));
        var u: nat :| Max(from, t) <= u && SentAt(b, data, u);
      }
      assert SentForever(b, data) && DeliveredForever(b, data);
      forall t: nat
        ensures SentFrom(b, ack, t)
      {
        assert DeliveredFrom(b, data, Max(from, t));
        var u: nat :| Max(from, t) <= u && DeliveredAt(b, data, u);
        DeliveryIsAnswered(b, from, u);
      }
      assert SentForever(b, ack) && DeliveredForever(b, ack);
      assert DeliveredFrom(b, data, from);
      var d: nat :| from <= d && DeliveredAt(b, data, d);
      DeliveryIsAnswered(b, from, d);
      assert DeliveredFrom(b, ack, from);
      var u: nat :| from <= u && DeliveredAt(b, ack, u);
      AnswerMovesBase(b, u, b.cfg.receiverWindow);
      assert false;
    }
  }

  // ---- Such runs exist ----

  /** A finite prompt path as the list of states it passes through. */
  lemma {:induction false} PathStates(cfg: Config, s: Sys, es: seq<Event>, t: Sys) returns (ss: seq<Sys>)
    requires s.tx.Bounds() && ReliableTheorems.PromptPath(cfg, s, es, t)
    ensures |ss| == |es| + 1 && ss[0] == s && ss[|es|] == t
    ensures forall i :: 0 <= i < |es| ==>
      ss[i].tx.Bounds() && Enabled(ss[i], es[i]) && ss[i + 1] == Apply(cfg, ss[i], es[i])
    ensures forall i :: 0 <= i < |es| ==> KeepsGoing(es[i])
    ensures t.tx.Bounds()
    decreases |es|
  {
    hide Apply, Enabled;
    if es == [] {
      ss := [s];
    } else {
      BoundsKept(cfg, s, es[0]);
      var rest := PathStates(cfg, Apply(cfg, s, es[0]), es[1..], t);
      ss := [s] + rest;
      forall i | 0 <= i < |es|
        ensures ss[i].tx.Bounds() && Enabled(ss[i], es[i]) && ss[i + 1] == Apply(cfg, ss[i], es[i]) && KeepsGoing(es[i])
      {
        if i > 0 {
          assert es[i] == es[1..][i - 1] && ss[i] == rest[i - 1] && ss[i + 1] == rest[i];
        }
      }
    }
  }

  /** The fairness assumptions can be met for every file below the id limit. */
  lemma FairRunExists(cfg: Config) returns (b: Behaviour)
    requires ChunkCount(cfg.file) < U32 && cfg.window > 0
    ensures b.cfg == cfg && IsRun(b) && FairLink(b) && FairTimers(b)
  {
    hide Inv, SenderInv, ReceiverInv, Sha1Spec.Digest;
    var s := Init(cfg);
    InitInv(cfg);
    var es, t := ReliableTheorems.AllAcknowledged(cfg, s);
    InvBounds(cfg, s);
    var ss := PathStates(cfg, s, es, t);
    var n := |es|;
    b := Behaviour(cfg, (u: nat) => if u < |ss| then ss[u] else t, (u: nat) => if u < |es| then es[u] else Idle);
    forall u: nat
      ensures StepAt(b, u) && KeepsGoing(b.event(u))
    {
    }
    assert Acknowledged(b, n);
    forall p: Packet
      ensures !SentForever(b, p)
    {
      if SentForever(b, p) {
        assert SentFrom(b, p, n);
        var u: nat :| n <= u && SentAt(b, p, u);
        assert false;
      }
    }
  }
}
