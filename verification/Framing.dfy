/** Length-prefixed frames over a byte stream that moves any positive number of bytes per call, as in demo_util.c. */
module Framing {
  import opened Bytes
  import opened Results

  const HEADER_SIZE: nat := 6
  const MAX_PAYLOAD: nat := 4096

  datatype Frame = Frame(code: u16, payload: seq<byte>)

  predicate Fits(f: Frame) {
    |f.payload| <= MAX_PAYLOAD
  }

  function FrameBytes(f: Frame): (s: seq<byte>)
    requires Fits(f)
    ensures |s| == HEADER_SIZE + |f.payload|
  {
    PutU16(f.code) + PutU32(|f.payload|) + f.payload
  }

  /** A frame byte by byte; a payload has at most 4096 bytes. */
  lemma FrameLayout(f: Frame)
    ensures Fits(f) <==> |f.payload| <= 4096
    ensures Fits(f) ==>
      FrameBytes(f) == [f.code / 0x100, f.code % 0x100, 0, 0, |f.payload| / 0x100, |f.payload| % 0x100] + f.payload
  {
    if Fits(f) {
      assert PutU16(f.code) + PutU32(|f.payload|) ==
        [f.code / 0x100, f.code % 0x100, 0, 0, |f.payload| / 0x100, |f.payload| % 0x100];
    }
  }

  function StreamOf(fs: seq<Frame>): seq<byte>
    requires forall f :: f in fs ==> Fits(f)
  {
    if fs == [] then [] else FrameBytes(fs[0]) + StreamOf(fs[1..])
  }

  /** The first frame of a stream, if it is there in full. */
  function ReadFrame(s: seq<byte>): (r: Option<Frame>)
    ensures r.Some? ==> Fits(r.value) && FrameBytes(r.value) <= s
  {
    if |s| < HEADER_SIZE then None
    else
      var length := GetU32(s[2..]);
      if length > MAX_PAYLOAD || |s| < HEADER_SIZE + length then None
      else
        var f := Frame(GetU16(s), s[HEADER_SIZE..HEADER_SIZE + length]);
        FrameIsRead(s, f);
        Some(f)
  }

  lemma FrameIsRead(s: seq<byte>, f: Frame)
    requires Fits(f) && |s| >= HEADER_SIZE && |f.payload| == GetU32(s[2..]) && |s| >= HEADER_SIZE + |f.payload|
    requires f.code == GetU16(s) && f.payload == s[HEADER_SIZE..HEADER_SIZE + |f.payload|]
    ensures FrameBytes(f) <= s
  {
    hide GetU16, GetU32, PutU16, PutU32;
    GetPutU16(s);
    GetPutU32(s[2..]);
    assert s[2..][..4] == s[2..6];
    assert s[..HEADER_SIZE + |f.payload|] == s[..2] + s[2..6] + f.payload;
  }

  /** A frame is read back whatever follows it. */
  lemma ReadFrameOfBytes(f: Frame, rest: seq<byte>)
    requires Fits(f)
    ensures ReadFrame(FrameBytes(f) + rest) == Some(f)
  {
    hide GetU16, GetU32, PutU16, PutU32;
    var s := FrameBytes(f) + rest;
    assert s == PutU16(f.code) + (PutU32(|f.payload|) + f.payload + rest);
    PutGetU16(f.code, PutU32(|f.payload|) + f.payload + rest);
    assert s[2..] == PutU32(|f.payload|) + (f.payload + rest);
    PutGetU32(|f.payload|, f.payload + rest);
    assert s[HEADER_SIZE..HEADER_SIZE + |f.payload|] == f.payload;
  }

  /** A stream has a first frame exactly when it holds a header, an admissible length and that many bytes. */
  lemma ReadFrameIff(s: seq<byte>)
    ensures ReadFrame(s).Some? <==>
      && |s| >= 6
      && var high: nat, low: nat := s[4], s[5];
         s[2] == 0 && s[3] == 0 && high * 0x100 + low <= 4096 && |s| >= 6 + high * 0x100 + low
  {
  }

  function ReadFrames(s: seq<byte>, n: nat): Option<seq<Frame>>
    decreases n
  {
    if n == 0 then Some([])
    else
      match ReadFrame(s)
      case None => None
      case Some(f) =>
        match ReadFrames(s[|FrameBytes(f)|..], n - 1)
        case None => None
        case Some(fs) => Some([f] + fs)
  }

  /** A list of frames survives being run together into one stream. */
  lemma {:induction false} ReadFramesOfStream(fs: seq<Frame>, rest: seq<byte>)
    requires forall f :: f in fs ==> Fits(f)
    ensures ReadFrames(StreamOf(fs) + rest, |fs|) == Some(fs)
    decreases |fs|
  {
    hide FrameBytes, ReadFrame;
    if fs != [] {
      var f, tail := fs[0], StreamOf(fs[1..]) + rest;
      ReadFramesOfStream(fs[1..], rest);
      ConcatAssoc(FrameBytes(f), StreamOf(fs[1..]), rest);
      hide StreamOf;
      ReadFramesStep(f, tail, |fs|);
      assert [f] + fs[1..] == fs;
    }
  }

  lemma ReadFramesStep(f: Frame, tail: seq<byte>, n: nat)
    requires Fits(f) && n > 0
    ensures ReadFrames(FrameBytes(f) + tail, n) ==
      match ReadFrames(tail, n - 1) case None => None case Some(fs) => Some([f] + fs)
  {
    hide FrameBytes, ReadFrame;
    ReadFrameOfBytes(f, tail);
    assert (FrameBytes(f) + tail)[|FrameBytes(f)|..] == tail;
  }

  lemma {:induction false} StreamSnoc(fs: seq<Frame>, f: Frame)
    requires (forall g :: g in fs ==> Fits(g)) && Fits(f)
    ensures StreamOf(fs + [f]) == StreamOf(fs) + FrameBytes(f)
    decreases |fs|
  {
    hide FrameBytes;
    if fs == [] {
      assert fs + [f] == [f];
      assert StreamOf([f]) == FrameBytes(f) + StreamOf([f][1..]);
      assert [f][1..] == [];
    } else {
      StreamSnoc(fs[1..], f);
      assert (fs + [f])[1..] == fs[1..] + [f];
      ConcatAssoc(FrameBytes(fs[0]), StreamOf(fs[1..]), FrameBytes(f));
    }
  }

  // ---- The socket ----

  /** How many of len bytes a call moves when the kernel offers size: -1 for an error or a closed stream. */
  function Moved(size: int, len: nat): (n: int)
    ensures n <= len
    ensures len > 0 ==> (n > 0 <==> size > 0)
  {
    if size <= 0 then -1 else Min(size, len)
  }

  /** A stream socket: the k-th send or recv call moves as many bytes as the given functions say. */
  class Wire {
    const sendSize: nat -> int
    const recvSize: nat -> int
    var sent: seq<byte>   // every byte the stream has carried
    var taken: nat        // how many of them the reader has had
    var sends: nat
    var recvs: nat

    constructor (sendSize: nat -> int, recvSize: nat -> int)
      ensures sent == [] && taken == 0 && this.sendSize == sendSize && this.recvSize == recvSize
    {
      this.sendSize, this.recvSize := sendSize, recvSize;
      sent, taken, sends, recvs := [], 0, 0, 0;
    }

    ghost predicate AlwaysReceives() {
      forall k: nat :: recvSize(k) > 0
    }

    /** The send calls from one number up to another all moved something. */
    ghost predicate SendsAll(lo: nat, hi: nat) {
      forall k: nat :: lo <= k < hi ==> sendSize(k) > 0
    }

    method Send(data: seq<byte>) returns (n: int)
      modifies `sent, `sends
      ensures sends == old(sends) + 1
      ensures n <= |data| && (data != [] ==> (n > 0 <==> sendSize(old(sends)) > 0))
      ensures sent == old(sent) + (if n > 0 then data[..n] else [])
    {
      n := Moved(sendSize(sends), |data|);
      sends := sends + 1;
      if n > 0 {
        sent := sent + data[..n];
      }
    }

    method Recv(len: nat) returns (n: int, data: seq<byte>)
      requires taken <= |sent|
      modifies `taken, `recvs
      ensures n <= len && n <= |sent| - old(taken)
      ensures AlwaysReceives() && len > 0 && old(taken) < |sent| ==> n > 0
      ensures taken == old(taken) + (if n > 0 then n else 0)
      ensures data == sent[old(taken)..taken]
    {
      n := Moved(recvSize(recvs), Min(len, |sent| - taken));
      recvs := recvs + 1;
      data := if n > 0 then sent[taken..taken + n] else [];
      taken := taken + |data|;
    }

    /** demo_write_all. */
    method WriteAll(buf: array<byte>, start: nat, end: nat) returns (ok: bool)
      requires start <= end <= buf.Length
      modifies `sent, `sends
      ensures old(sends) <= sends && (ok <==> SendsAll(old(sends), sends))
      ensures ok ==> sent == old(sent) + buf[start..end]
      ensures old(sent) <= sent <= old(sent) + buf[start..end]
    {
      var at: nat, len: nat := start, end - start;
      ghost var s := buf[..];
      while len > 0
        invariant start <= at && at + len == end && buf[..] == s
        invariant sent == old(sent) + s[start..at]
        invariant old(sends) <= sends && SendsAll(old(sends), sends)
        decreases len
      {
        PartOf(s, start, at, end);
        var n := Send(buf[at..at + len]);
        if n <= 0 {
          return false;
        }
        SliceGrows(s, start, at, n, end);
        at := at + n;
        len := len - n;
      }
      return true;
    }

    static lemma PartOf(s: seq<byte>, i: nat, j: nat, k: nat)
      requires i <= j <= k <= |s|
      ensures s[i..j] <= s[i..k]
    {
    }

    static lemma SliceGrows(s: seq<byte>, i: nat, j: nat, n: nat, k: nat)
      requires i <= j && j + n <= k <= |s|
      ensures s[j..k][..n] == s[j..j + n] && s[i..j + n] == s[i..j] + s[j..j + n]
    {
    }

    /** demo_read_all. */
    method ReadAll(buf: array<byte>, count: nat) returns (ok: bool)
      requires count <= buf.Length && taken <= |sent|
      modifies `taken, `recvs, buf
      ensures old(taken) <= taken <= |sent|
      ensures AlwaysReceives() && count <= |sent| - old(taken) ==> ok
      ensures ok ==> taken == old(taken) + count && buf[..count] == sent[old(taken)..taken]
    {
      var at: nat, len: nat := 0, count;
      while len > 0
        invariant at + len == count && taken == old(taken) + at <= |sent|
        invariant buf[..at] == sent[old(taken)..taken]
        decreases len
      {
        var n, data := Recv(len);
        if n <= 0 {
          return false;
        }
        SliceGrows(sent, old(taken), taken - n, n, |sent|);
        ghost var was := buf[..at];
        CopyInto(buf, at, data);
        assert buf[..at + n] == was + data;
        at := at + n;
        len := len - n;
      }
      return true;
    }

    /**
     * demo_send_frame: the same bytes go out whether or not the frame is sent in two pieces, and if one of its send
     * calls fails, a prefix of them.
     */
    method SendFrame(f: Frame, fragmentMode: bool) returns (ok: bool)
      modifies `sent, `sends
      ensures old(sends) <= sends && (ok <==> Fits(f) && SendsAll(old(sends), sends))
      ensures ok ==> sent == old(sent) + FrameBytes(f)
      ensures Fits(f) ==> old(sent) <= sent <= old(sent) + FrameBytes(f)
      ensures !Fits(f) ==> sent == old(sent) && sends == old(sends)
    {
      hide FrameBytes, SendsAll;
      var length := |f.payload|;
      if length > MAX_PAYLOAD {
        NoSends(sends);
        return false;
      }
      var buf := new byte[HEADER_SIZE + MAX_PAYLOAD];
      var total := HEADER_SIZE + length;
      FillFrame(buf, f);
      if fragmentMode && length > 0 {
        var first := HEADER_SIZE + length / 2;
        TwoPieces(sent, buf[..], first, total);
        ok := WriteAll(buf, 0, first);
        if !ok {
          return;
        }
        ghost var mid := sends;
        ok := WriteAll(buf, first, total);
        SendsJoin(old(sends), mid, sends);
        return;
      }
      ok := WriteAll(buf, 0, total);
    }

    lemma NoSends(n: nat)
      ensures SendsAll(n, n)
    {
    }

    lemma SendsJoin(lo: nat, mid: nat, hi: nat)
      requires lo <= mid <= hi
      ensures SendsAll(lo, hi) <==> SendsAll(lo, mid) && SendsAll(mid, hi)
    {
    }

    static lemma TwoPieces(before: seq<byte>, s: seq<byte>, i: nat, k: nat)
      requires i <= k <= |s|
      ensures before + s[0..i] + s[i..k] == before + s[..k]
      ensures before + s[0..i] <= before + s[..k]
    {
      assert s[0..i] + s[i..k] == s[..k];
    }

    static method FillFrame(buf: array<byte>, f: Frame)
      requires Fits(f) && buf.Length == HEADER_SIZE + MAX_PAYLOAD
      modifies buf
      ensures buf[..HEADER_SIZE + |f.payload|] == FrameBytes(f)
    {
      hide PutU16, PutU32;
      var length := |f.payload|;
      CopyInto(buf, 0, PutU16(f.code));
      assert buf[..2] == PutU16(f.code);
      CopyInto(buf, 2, PutU32(length));
      assert buf[..6] == PutU16(f.code) + PutU32(length);
      CopyInto(buf, HEADER_SIZE, f.payload);
    }

    /** demo_recv_frame. */
    method RecvFrame() returns (frame: Option<Frame>)
      requires taken <= |sent|
      modifies `taken, `recvs
      ensures taken <= |sent|
      ensures frame.Some? ==> frame == ReadFrame(sent[old(taken)..]) && taken == old(taken) + |FrameBytes(frame.value)|
      ensures AlwaysReceives() ==> frame == ReadFrame(sent[old(taken)..])
    {
      hide GetU16, GetU32, FrameBytes;
      var header := new byte[HEADER_SIZE];
      var ok := ReadAll(header, HEADER_SIZE);
      if !ok {
        return None;
      }
      ghost var rest := sent[old(taken)..];
      assert header[..HEADER_SIZE] == header[..] && sent[old(taken)..taken] == rest[..HEADER_SIZE];
      HeaderOfStream(rest);
      var code, length := GetU16(header[..]), GetU32(header[2..]);
      if length > MAX_PAYLOAD {
        return None;
      }
      var payload := new byte[MAX_PAYLOAD];
      if length > 0 {
        ok := ReadAll(payload, length);
        if !ok {
          return None;
        }
      }
      assert payload[..length] == rest[HEADER_SIZE..HEADER_SIZE + length];
      frame := Some(Frame(code, payload[..length]));
    }

    static lemma HeaderOfStream(s: seq<byte>)
      requires |s| >= HEADER_SIZE
      ensures GetU16(s[..HEADER_SIZE]) == GetU16(s)
      ensures GetU32(s[..HEADER_SIZE][2..]) == GetU32(s[2..])
    {
    }
  }

  /** Frames sent in any mix of modes over a stream that moves arbitrary positive amounts arrive as the same frames. */
  method Relay(frames: seq<Frame>, modes: seq<bool>, sendSize: nat -> int, recvSize: nat -> int)
    returns (received: seq<Frame>)
    requires |modes| == |frames| && forall f :: f in frames ==> Fits(f)
    requires forall k: nat :: sendSize(k) > 0 && recvSize(k) > 0
    ensures received == frames
  {
    hide ReadFrame, FrameBytes;
    var wire := new Wire(sendSize, recvSize);
    for i := 0 to |frames|
      invariant wire.sendSize == sendSize && wire.recvSize == recvSize && wire.taken == 0
      invariant wire.sent == StreamOf(frames[..i])
    {
      var ok := wire.SendFrame(frames[i], modes[i]);
      StreamSnoc(frames[..i], frames[i]);
      assert frames[..i + 1] == frames[..i] + [frames[i]];
    }
    assert frames[..|frames|] == frames;
    received := [];
    assert wire.sent == wire.sent[0..] == StreamOf(frames[0..]);
    for i := 0 to |frames|
      invariant wire.recvSize == recvSize && wire.taken <= |wire.sent|
      invariant wire.sent[wire.taken..] == StreamOf(frames[i..])
      invariant received == frames[..i]
    {
      ghost var tail := StreamOf(frames[i + 1..]);
      assert frames[i..][0] == frames[i] && frames[i..][1..] == frames[i + 1..];
      ReadFrameOfBytes(frames[i], tail);
      ghost var was := wire.taken;
      var frame := wire.RecvFrame();
      assert wire.sent[wire.taken..] == wire.sent[was..][|FrameBytes(frames[i])|..];
      received := received + [frame.value];
    }
  }
}
