/** Infinite runs of the joint system, fairness, and what a run that never completes would have to look like. */
module ReliableFairness {
  import opened Bytes
  import opened Packets
  import opened FileChunks
  import opened ReliableServer
  import opened ReliableClient
  import opened ReliableSystem
  import Sha1Spec

  /** An infinite run: a state and an event for every moment. */
  datatype Behaviour = Behaviour(cfg: Config, state: nat -> Sys, event: nat -> Event)

  ghost predicate StepAt(b: Behaviour, t: nat) {
    && b.state(t).tx.Bounds() && Enabled(b.state(t), b.event(t))
    && b.state(t + 1) == Apply(b.cfg, b.state(t), b.event(t))
  }

  /** Neither program is stopped, times out or meets a packet that makes it give up. */
  predicate KeepsGoing(e: Event) {
    match e
    case ServerStop => false
    case ClientStop => false
    case Listen(a) => !a.Malformed?
    case Deliver(p) => !Stray(p)
    case _ => true
  }

  ghost predicate IsRun(b: Behaviour) {
    && ChunkCount(b.cfg.file) < U32 && b.cfg.window > 0
    && b.state(0) == Init(b.cfg)
    && (forall t: nat :: StepAt(b, t))
    && (forall t: nat :: KeepsGoing(b.event(t)))
  }

  predicate Added(old_: seq<Packet>, new_: seq<Packet>, p: Packet) {
    |old_| <= |new_| && p in new_[|old_|..]
  }

  /** p is put on the wire at moment t, by either side. */
  ghost predicate SentAt(b: Behaviour, p: Packet, t: nat) {
    || Added(b.state(t).tx.sent, b.state(t + 1).tx.sent, p)
    || Added(b.state(t).rx.feedback, b.state(t + 1).rx.feedback, p)
  }

  ghost predicate DeliveredAt(b: Behaviour, p: Packet, t: nat) {
    b.event(t) == Deliver(p) || b.event(t) == Listen(FromPeer(p))
  }

  ghost predicate SentFrom(b: Behaviour, p: Packet, t: nat) {
    exists u: nat :: t <= u && SentAt(b, p, u)
  }

  ghost predicate DeliveredFrom(b: Behaviour, p: Packet, t: nat) {
    exists u: nat :: t <= u && DeliveredAt(b, p, u)
  }

  ghost predicate SentForever(b: Behaviour, p: Packet) {
    forall t: nat :: SentFrom(b, p, t)
  }

  ghost predicate DeliveredForever(b: Behaviour, p: Packet) {
    forall t: nat :: DeliveredFrom(b, p, t)
  }

  /** A datagram sent again and again is delivered again and again. */
  ghost predicate FairLink(b: Behaviour) {
    forall p: Packet :: SentForever(b, p) ==> DeliveredForever(b, p)
  }

  /** The timer of the oldest unacknowledged chunk is found expired at moment t. */
  ghost predicate BaseDueAt(b: Behaviour, t: nat) {
    b.event(t).CheckTimers? && b.state(t).tx.base in b.event(t).due
  }

  ghost predicate BaseDueFrom(b: Behaviour, t: nat) {
    exists u: nat :: t <= u && BaseDueAt(b, u)
  }

  ghost predicate Acknowledged(b: Behaviour, t: nat) {
    b.state(t).tx.base == ChunkCount(b.cfg.file)
  }

  ghost predicate NeverDone(b: Behaviour) {
    forall u: nat :: !Acknowledged(b, u)
  }

  /** As long as chunks are unacknowledged, the sender keeps checking timers and the base chunk's keeps expiring. */
  ghost predicate FairTimers(b: Behaviour) {
    forall t: nat :: BaseDueFrom(b, t) || exists u: nat :: Acknowledged(b, u)
  }

  // ---- Every moment ----

  lemma {:induction false} AlwaysInv(b: Behaviour, t: nat)
    requires IsRun(b)
    ensures Inv(b.cfg, b.state(t)) && b.state(t).tx.Bounds()
  {
    hide Inv, Init, Apply, Enabled;
    if t == 0 {
      InitInv(b.cfg);
    } else {
      AlwaysInv(b, t - 1);
      assert StepAt(b, t - 1);
      StepKeepsInv(b.cfg, b.state(t - 1), b.event(t - 1));
    }
    InvBounds(b.cfg, b.state(t));
  }

  lemma InvBounds(cfg: Config, s: Sys)
    requires Inv(cfg, s)
    ensures s.tx.Bounds() && |s.tx.chunks| == ChunkCount(cfg.file)
    ensures s.tx.base <= s.rx.expected <= s.tx.next <= ChunkCount(cfg.file)
  {
  }

  lemma StepMonotone(cfg: Config, s: Sys, e: Event)
    requires Inv(cfg, s) && Enabled(s, e) && s.tx.Bounds()
    ensures var r := Apply(cfg, s, e);
            s.tx.base <= r.tx.base && s.rx.expected <= r.rx.expected && s.tx.next <= r.tx.next
  {
    hide OnData, Fill, Sha1Spec.Digest;
    match e
    case FillWindow => FillKeeps(cfg, s.tx);
    case Deliver(p) =>
      assert p in s.tx.sent ==> SentInv(cfg, s.tx, p);
      if p.Data? {
        DataKeeps(cfg, s.tx, s.rx, cfg.receiverWindow, p.id, p.payload);
      }
    case _ =>
  }

  lemma {:induction false} Monotone(b: Behaviour, t: nat, u: nat)
    requires IsRun(b) && t <= u
    ensures b.state(t).tx.base <= b.state(u).tx.base
    ensures b.state(t).rx.expected <= b.state(u).rx.expected
    ensures b.state(t).tx.next <= b.state(u).tx.next
    decreases u - t
  {
    hide Inv, Init, Apply, Enabled;
    if t < u {
      AlwaysInv(b, t);
      assert StepAt(b, t);
      StepMonotone(b.cfg, b.state(t), b.event(t));
      Monotone(b, t + 1, u);
    }
  }

  /** base and expected are bounded and never decrease, so from some moment on they stay put. */
  ghost predicate Settled(b: Behaviour, t: nat) {
    forall u: nat :: t <= u ==>
      b.state(u).tx.base == b.state(t).tx.base && b.state(u).rx.expected == b.state(t).rx.expected
  }

  lemma {:induction false} Settles(b: Behaviour, t: nat) returns (from: nat)
    requires IsRun(b)
    ensures t <= from && Settled(b, from)
    decreases 2 * ChunkCount(b.cfg.file) - b.state(t).tx.base - b.state(t).rx.expected
  {
    hide Inv, Init, StepAt;
    if Settled(b, t) {
      from := t;
    } else {
      var u: nat :|
        t <= u && !(b.state(u).tx.base == b.state(t).tx.base && b.state(u).rx.expected == b.state(t).rx.expected);
      Monotone(b, t, u);
      AlwaysInv(b, u);
      InvBounds(b.cfg, b.state(u));
      from := Settles(b, u);
    }
  }

  /** While chunks are unacknowledged both programs stay in their loops. */
  lemma {:induction false} StaysActive(b: Behaviour, t: nat)
    requires IsRun(b) && NeverDone(b)
    ensures b.state(t).rx.status == Receiving
    ensures b.state(t).phase == Filling || b.state(t).phase == Listening || b.state(t).phase == Resending
    ensures b.state(t).tx.base < ChunkCount(b.cfg.file)
  {
    hide Inv, Enabled, Apply, KeepsGoing;
    AlwaysInv(b, t);
    InvBounds(b.cfg, b.state(t));
    assert !Acknowledged(b, t);
    if t > 0 {
      StaysActive(b, t - 1);
      AlwaysInv(b, t - 1);
      assert StepAt(b, t - 1) && KeepsGoing(b.event(t - 1));
      StepStaysActive(b.cfg, b.state(t - 1), b.event(t - 1));
    }
  }

  lemma StepStaysActive(cfg: Config, s: Sys, e: Event)
    requires Inv(cfg, s) && Enabled(s, e) && KeepsGoing(e) && s.tx.base < ChunkCount(cfg.file) && s.tx.Bounds()
    requires s.rx.status == Receiving && (s.phase == Filling || s.phase == Listening || s.phase == Resending)
    ensures var r := Apply(cfg, s, e);
            r.rx.status == Receiving && (r.phase == Filling || r.phase == Listening || r.phase == Resending)
  {
    hide Fill, OnFeedback, ResendDue, Drain, Sha1Spec.Digest;
    if e.Deliver? {
      assert SentInv(cfg, s.tx, e.p);
    }
  }

  // ---- The base chunk is sent for ever ----

  /** Between the top of the loop and the next timer check lies a fill, which puts chunk base inside the window. */
  lemma {:induction false} FilledBefore(b: Behaviour, t: nat, u: nat)
    requires IsRun(b) && Settled(b, t) && t <= u && NeverDone(b)
    requires b.state(t).phase == Filling && b.state(u).phase != Filling
    ensures b.state(t).tx.base < b.state(u).tx.next
    decreases u - t
  {
    hide Inv, Init, Enabled;
    StaysActive(b, t);
    AlwaysInv(b, t);
    assert StepAt(b, t) && KeepsGoing(b.event(t));
    if b.event(t).FillWindow? {
      FillCoversBase(b.cfg, b.state(t));
      Monotone(b, t + 1, u);
    } else {
      InvBounds(b.cfg, b.state(t));
      StaysFilling(b.cfg, b.state(t), b.event(t));
      assert Settled(b, t + 1);
      FilledBefore(b, t + 1, u);
    }
  }

  lemma FillCoversBase(cfg: Config, s: Sys)
    requires Inv(cfg, s) && s.tx.base < ChunkCount(cfg.file) && cfg.window > 0
    ensures s.tx.base < Fill(s.tx, cfg.window).next
  {
    FillKeeps(cfg, s.tx);
  }

  lemma StaysFilling(cfg: Config, s: Sys, e: Event)
    requires s.tx.Bounds() && s.phase == Filling && s.tx.base < |s.tx.chunks|
    requires Enabled(s, e) && KeepsGoing(e) && !e.FillWindow?
    ensures Apply(cfg, s, e).phase == Filling
  {
  }

  lemma BaseSentFor(b: Behaviour, from: nat, t: nat)
    requires IsRun(b) && FairTimers(b) && Settled(b, from) && NeverDone(b) && from <= t
    ensures b.state(from).tx.base < ChunkCount(b.cfg.file) < U32
    ensures SentFrom(b, Data(b.state(from).tx.base, ChunkAt(b.cfg.file, b.state(from).tx.base)), t)
  {
    hide Inv, Init, Enabled, ResendDue, ChunkAt;
    StaysActive(b, from);
    assert BaseDueFrom(b, t);
    var u1: nat :| t <= u1 && BaseDueAt(b, u1);
    assert StepAt(b, u1);
    assert b.state(u1 + 1).phase == Filling by { TimersEndTurn(b, u1); }
    assert BaseDueFrom(b, u1 + 1);
    var u2: nat :| u1 + 1 <= u2 && BaseDueAt(b, u2);
    assert StepAt(b, u2);
    assert b.state(u2).phase == Resending by { TimersEndTurn(b, u2); }
    assert Settled(b, u1 + 1);
    FilledBefore(b, u1 + 1, u2);
    AlwaysInv(b, u2);
    DueBaseIsSent(b.cfg, b.state(u2), b.event(u2).due);
    assert SentAt(b, Data(b.state(u2).tx.base, ChunkAt(b.cfg.file, b.state(u2).tx.base)), u2);
  }

  lemma TimersEndTurn(b: Behaviour, u: nat)
    requires StepAt(b, u) && b.event(u).CheckTimers?
    ensures b.state(u).phase == Resending && b.state(u + 1).phase == Filling
  {
  }

  lemma DueBaseIsSent(cfg: Config, s: Sys, due: set<nat>)
    requires Inv(cfg, s) && s.tx.base < s.tx.next && s.tx.base in due
    ensures s.tx.Bounds() && s.tx.base < ChunkCount(cfg.file)
    ensures Added(s.tx.sent, ResendDue(s.tx, due).sent, Data(s.tx.base, ChunkAt(cfg.file, s.tx.base)))
  {
    hide ChunkAt, VisitOne;
    var tx := s.tx;
    ResendOne(cfg, tx, due, tx.base);
    VisitSends(Resend(due), tx.chunks, tx.base, tx.next, Data(tx.base, ChunkAt(cfg.file, tx.base)));
  }

  lemma {:induction false} VisitSends(v: Visit, cs: seq<ReliableChunk>, lo: nat, hi: nat, p: Packet)
    requires lo < hi <= |cs| && p in VisitOne(v, lo, cs[lo]).1
    ensures p in VisitRange(v, cs, lo, hi).1
    decreases hi
  {
    hide VisitOne;
    VisitRangeAt(v, cs, lo, hi - 1, hi - 1);
    if hi - 1 > lo {
      VisitSends(v, cs, lo, hi - 1, p);
    }
  }

  // ---- Each delivery of it is answered, and one answer moves the window ----

  lemma DeliveryIsAnswered(b: Behaviour, from: nat, t: nat)
    requires IsRun(b) && Settled(b, from) && NeverDone(b) && from <= t
    requires b.state(from).tx.base < ChunkCount(b.cfg.file)
    requires DeliveredAt(b, Data(b.state(from).tx.base, ChunkAt(b.cfg.file, b.state(from).tx.base)), t)
    ensures b.state(from).tx.base < b.state(from).rx.expected
    ensures SentAt(b, Ack(b.state(from).rx.expected, b.cfg.receiverWindow), t)
  {
    hide Inv, Init, OnData, ChunkAt;
    var base := b.state(from).tx.base;
    AlwaysInv(b, t);
    StaysActive(b, t);
    assert StepAt(b, t);
    var s := b.state(t);
    DataNotFeedback(b.cfg, s, b.event(t), base, ChunkAt(b.cfg.file, base));
    assert s.tx.base == base && s.rx.expected == b.state(from).rx.expected;
    assert b.state(t + 1).rx.expected == b.state(from).rx.expected;
    AnswerToBase(b.cfg, s);
  }

  lemma DataNotFeedback(cfg: Config, s: Sys, e: Event, id: u32, payload: seq<byte>)
    requires Inv(cfg, s) && Enabled(s, e)
    requires e == Deliver(Data(id, payload)) || e == Listen(FromPeer(Data(id, payload)))
    ensures e == Deliver(Data(id, payload)) && Data(id, payload) in s.tx.sent
  {
    assert Data(id, payload) in s.rx.feedback ==> FeedbackInv(s.tx, s.rx, Data(id, payload));
  }

  lemma AnswerToBase(cfg: Config, s: Sys)
    requires Inv(cfg, s) && s.rx.status == Receiving && s.tx.base < ChunkCount(cfg.file)
    requires Data(s.tx.base, ChunkAt(cfg.file, s.tx.base)) in s.tx.sent
    requires OnData(s.rx, cfg.receiverWindow, s.tx.base, ChunkAt(cfg.file, s.tx.base)).expected == s.rx.expected
    ensures s.tx.base < s.rx.expected
    ensures OnData(s.rx, cfg.receiverWindow, s.tx.base, ChunkAt(cfg.file, s.tx.base)).feedback
         == s.rx.feedback + [Ack(s.rx.expected, cfg.receiverWindow)]
  {
    hide ChunkAt, Drain;
    assert SentInv(cfg, s.tx, Data(s.tx.base, ChunkAt(cfg.file, s.tx.base)));
    DataKeeps(cfg, s.tx, s.rx, cfg.receiverWindow, s.tx.base, ChunkAt(cfg.file, s.tx.base));
  }

  lemma AnswerMovesBase(b: Behaviour, t: nat, w: u32)
    requires IsRun(b) && DeliveredAt(b, Ack(b.state(t).rx.expected, w), t)
    ensures b.state(t + 1).tx.base >= b.state(t).rx.expected
  {
    hide Inv, Init, OnFeedback;
    AlwaysInv(b, t);
    assert StepAt(b, t);
    var s := b.state(t);
    var ack := Ack(s.rx.expected, w);
    AckNotData(b.cfg, s, b.event(t), ack);
    ApplyAck(b.cfg, s, w);
  }

  lemma AckNotData(cfg: Config, s: Sys, e: Event, ack: Packet)
    requires Inv(cfg, s) && Enabled(s, e) && ack.Ack? && (e == Deliver(ack) || e == Listen(FromPeer(ack)))
    ensures e == Listen(FromPeer(ack))
  {
    assert ack in s.tx.sent ==> SentInv(cfg, s.tx, ack);
  }

  lemma ApplyAck(cfg: Config, s: Sys, w: u32)
    requires Inv(cfg, s)
    ensures s.tx.Bounds() && OnFeedback(s.tx, Ack(s.rx.expected, w)).base == s.rx.expected
  {
    AckKeeps(cfg, s.tx, s.rx.expected, w);
  }
}
