/** The reordering receiver of client.c. */
module ReliableClient {
  import opened Bytes
  import opened Packets
  import Sha1Spec
  import Sha1

  datatype Status = Receiving | Verified | Mismatch | Aborted

  /** What the receiver keeps: out-of-order payloads by id, the next id to write, and all it has written and sent. */
  datatype Rx = Rx(
    held: map<nat, seq<byte>>, expected: u32, receivedBytes: nat, out: seq<byte>,
    feedback: seq<Packet>, status: Status)

  const START := Rx(map[], 0, 0, [], [], Receiving)

  function NextId(id: u32): u32 {
    (id + 1) % U32
  }

  lemma HeldShrinks(held: map<nat, seq<byte>>, id: nat)
    requires id in held
    ensures |held - {id}| == |held| - 1
  {
    assert (held - {id}).Keys == held.Keys - {id};
    assert |held.Keys| == |held|;
  }

  /** Write out the expected payload and move on to the next id. */
  function TakeNext(rx: Rx): (r: Rx)
    requires rx.expected in rx.held
    ensures |r.held| < |rx.held|
  {
    HeldShrinks(rx.held, rx.expected);
    var data := rx.held[rx.expected];
    rx.(held := rx.held - {rx.expected}, expected := NextId(rx.expected),
        receivedBytes := rx.receivedBytes + |data|, out := rx.out + data)
  }

  /** Write out the consecutive held payloads from the expected id on. */
  function Drain(rx: Rx): (r: Rx)
    ensures r.feedback == rx.feedback && r.status == rx.status
    ensures r.expected !in r.held
    decreases |rx.held|
  {
    if rx.expected in rx.held then Drain(TakeNext(rx)) else rx
  }

  lemma DrainUnfolds(rx: Rx)
    ensures Drain(rx) == if rx.expected in rx.held then Drain(TakeNext(rx)) else rx
  {
  }

  /** Keep the first payload seen for an id, and report the gap in front of it. */
  function Store(rx: Rx, window: u32, id: u32, payload: seq<byte>): Rx {
    rx.(held := if id in rx.held then rx.held else rx.held[id := payload],
        feedback := if id > rx.expected then rx.feedback + [Nack(rx.expected, window)] else rx.feedback)
  }

  function OnData(rx: Rx, window: u32, id: u32, payload: seq<byte>): Rx {
    if id < rx.expected then
      rx.(feedback := rx.feedback + [Ack(rx.expected, window)])
    else
      var drained := Drain(Store(rx, window, id, payload));
      drained.(feedback := drained.feedback + [Ack(drained.expected, window)])
  }

  function OnTerminate(rx: Rx, window: u32, digest: seq<byte>): Rx {
    rx.(feedback := rx.feedback + [Ack(rx.expected, window)],
        status := if digest == Sha1Spec.Digest(rx.out) then Verified else Mismatch)
  }

  /** One packet from the server. */
  function Receive(rx: Rx, window: u32, p: Packet): Rx {
    match p
    case Data(id, payload) => OnData(rx, window, id, payload)
    case Terminate(digest) => OnTerminate(rx, window, digest)
    case _ => rx.(status := Aborted)
  }

  /** What one receive call of the client's loop can bring; anything but a packet from the server ends the transfer. */
  datatype Arrival = Bad | FromServer(p: Packet)

  /** The receive loop over a script of arrivals; the script's end is the stop signal. */
  function ReceiveAll(rx: Rx, window: u32, script: seq<Arrival>): Rx
    decreases |script|
  {
    if rx.status != Receiving then rx
    else if script == [] || script[0].Bad? then rx.(status := Aborted)
    else ReceiveAll(Receive(rx, window, script[0].p), window, script[1..])
  }

  datatype Slot = Slot(data: seq<byte>, present: bool)

  const EMPTY_SLOT := Slot([], false)

  function Held(slots: seq<Slot>): (held: map<nat, seq<byte>>)
    ensures forall i: nat :: i in held <==> i < |slots| && slots[i].present
    ensures forall i: nat :: i in held ==> held[i] == slots[i].data
  {
    map i: nat | i < |slots| && slots[i].present :: slots[i].data
  }

  lemma HeldAt(slots: seq<Slot>, i: nat)
    requires i < |slots| && slots[i].present
    ensures i in Held(slots) && Held(slots)[i] == slots[i].data
  {
  }

  lemma HeldUpdate(slots: seq<Slot>, i: nat, s: Slot)
    requires i < |slots|
    ensures Held(slots[i := s]) == if s.present then Held(slots)[i := s.data] else Held(slots) - {i}
  {
  }

  lemma HeldPadding(slots: seq<Slot>, more: seq<Slot>)
    requires forall i :: 0 <= i < |more| ==> !more[i].present
    ensures Held(slots + more) == Held(slots)
  {
  }

  class Receiver {
    var buffered: array<Slot>
    var expected: u32
    var receivedBytes: nat
    var out: seq<byte>          // bytes written to the temporary file
    var feedback: seq<Packet>   // every datagram handed to the socket, in order
    var status: Status
    const window: u32

    ghost function View(): Rx
      reads this, buffered
    {
      Rx(Held(buffered[..]), expected, receivedBytes, out, feedback, status)
    }

    constructor (window: u32)
      ensures fresh(buffered) && buffered.Length == 0 && this.window == window
      ensures View() == START
    {
      buffered := new Slot[0];
      expected, receivedBytes, out, feedback, status := 0, 0, [], [], Receiving;
      this.window := window;
    }

    /** Growth keeps the old slots, leaves the new ones absent, and at most doubles what is needed. */
    method EnsureBufferCapacity(need: nat)
      modifies this`buffered
      ensures buffered == old(buffered) || fresh(buffered)
      ensures need <= old(buffered.Length) ==> buffered == old(buffered)
      ensures need <= buffered.Length
      ensures need > old(buffered.Length) ==> buffered.Length < Max(33, 2 * need)
      ensures old(buffered.Length) <= buffered.Length
      ensures buffered[..old(buffered.Length)] == old(buffered[..])
      ensures forall i :: old(buffered.Length) <= i < buffered.Length ==> buffered[i] == EMPTY_SLOT
      ensures View() == old(View())
    {
      var newCap := buffered.Length;
      if need <= newCap {
        return;
      }
      while newCap < need
        invariant buffered.Length <= newCap
        invariant newCap > buffered.Length ==> newCap < Max(33, 2 * need)
        decreases need - newCap
      {
        newCap := if newCap > 0 then newCap * 2 else 32;
      }
      var next := new Slot[newCap](_ => EMPTY_SLOT);
      CopyInto(next, 0, buffered[..]);
      assert next[..] == buffered[..] + next[buffered.Length..];
      HeldPadding(buffered[..], next[buffered.Length..]);
      buffered := next;
    }

    /** One turn of the write-out loop. */
    method TakeSlot()
      requires expected < buffered.Length && buffered[expected].present
      modifies this`expected, this`receivedBytes, this`out, buffered
      ensures View() == TakeNext(old(View()))
    {
      ghost var slots := buffered[..];
      var data := buffered[expected].data;
      HeldAt(slots, expected);
      hide Held, NextId;
      if |data| > 0 {
        out := out + data;
      }
      assert out == old(out) + data;
      receivedBytes := receivedBytes + |data|;
      HeldUpdate(slots, expected, EMPTY_SLOT);
      buffered[expected] := EMPTY_SLOT;
      assert buffered[..] == slots[expected as nat := EMPTY_SLOT];
      expected := NextId(expected);
    }

    /** The write-out loop after a payload has been stored. */
    method DrainBuffer()
      modifies this`expected, this`receivedBytes, this`out, buffered
      ensures View() == Drain(old(View()))
    {
      hide Drain, TakeNext;
      while expected < buffered.Length && buffered[expected].present
        invariant Drain(View()) == Drain(old(View()))
        decreases |Held(buffered[..])|
      {
        ghost var before := View();
        DrainUnfolds(before);
        TakeSlot();
      }
      DrainUnfolds(View());
    }

    method HandleData(id: u32, payload: seq<byte>)
      modifies this`buffered, this`expected, this`receivedBytes, this`out, this`feedback, buffered
      ensures buffered == old(buffered) || fresh(buffered)
      ensures View() == OnData(old(View()), window, id, payload)
    {
      hide Drain;
      if id < expected {
        feedback := feedback + [Ack(expected, window)];
        return;
      }
      EnsureBufferCapacity(id + 1);
      ghost var start := View();
      if !buffered[id].present {
        ghost var slots := buffered[..];
        buffered[id] := Slot(payload, true);
        HeldUpdate(slots, id, Slot(payload, true));
        assert buffered[..] == slots[id as nat := Slot(payload, true)];
      }
      assert View().held == if id in start.held then start.held else start.held[id := payload];
      if id > expected {
        feedback := feedback + [Nack(expected, window)];
      }
      assert View() == Store(start, window, id, payload);
      DrainBuffer();
      feedback := feedback + [Ack(expected, window)];
    }

    method HandleTerminate(digest: seq<byte>)
      modifies this`feedback, this`status
      ensures View() == OnTerminate(old(View()), window, digest)
    {
      var localDigest := Sha1.Sha1File(out);
      var match_ := digest == localDigest;
      feedback := feedback + [Ack(expected, window)];
      status := if match_ then Verified else Mismatch;
    }

    /** transfer_file_reliable, driven by a script of what each receive call yields. */
    method TransferFileReliable(script: seq<Arrival>)
      requires status == Receiving
      modifies this, buffered
      ensures View() == ReceiveAll(old(View()), window, script)
    {
      hide OnData, OnTerminate;
      var k := 0;
      while status == Receiving && k < |script|
        invariant k <= |script|
        invariant buffered == old(buffered) || fresh(buffered)
        invariant ReceiveAll(View(), window, script[k..]) == ReceiveAll(old(View()), window, script)
        decreases |script| - k
      {
        match script[k] {
          case Bad =>
            status := Aborted;
            return;
          case FromServer(p) =>
            match p {
              case Data(id, payload) => HandleData(id, payload);
              case Terminate(digest) => HandleTerminate(digest);
              case _ => status := Aborted;
            }
        }
        k := k + 1;
      }
      if status == Receiving {
        status := Aborted;
      }
    }
  }
}
