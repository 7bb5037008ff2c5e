/** The streaming implementation: a 64-byte block buffer filled across update calls. */
module Sha1 {
  import opened Bytes
  import opened Sha1Spec

  function Pow256(i: nat): (p: nat)
    ensures p > 0
  {
    if i == 0 then 1 else 256 * Pow256(i - 1)
  }

  class Sha1Context {
    var state: Words
    var buffer: array<byte>
    var bufferLen: nat
    var bitCount: nat
    ghost var blocks: nat         // whole blocks compressed so far
    ghost var wraps: nat          // how often bitCount, a uint64_t, has wrapped
    ghost var message: seq<byte>  // everything absorbed since initialisation

    /** The buffer holds the part of the message after the last whole block; state chains the blocks before it. */
    ghost predicate Absorbed()
      reads this`state, this`buffer, this`bufferLen, this`blocks, this`message, buffer
      ensures Absorbed() ==> buffer.Length == 64 && bufferLen < 64 && |message| == 64 * blocks + bufferLen
    {
      && buffer.Length == 64
      && bufferLen < 64
      && |message| == 64 * blocks + bufferLen
      && buffer[..bufferLen] == message[64 * blocks..]
      && state == Chain(message, blocks)
    }

    /** The 64-bit counter holds the bit length of n bytes up to the wraps it has made. */
    ghost predicate CountsBits(n: nat)
      reads this`bitCount, this`wraps
    {
      bitCount < TWO64 && bitCount + wraps * TWO64 == 8 * n
    }

    ghost predicate Valid()
      reads this, buffer
    {
      Absorbed() && CountsBits(|message|)
    }

    constructor ()
      ensures Valid() && fresh(buffer) && message == []
    {
      state := INITIAL;
      buffer := new byte[64];
      bufferLen, bitCount, blocks, wraps, message := 0, 0, 0, 0, [];
    }

    /** The message schedule of the buffered block. */
    method ExpandBlock() returns (w: array<bv32>)
      requires buffer.Length == 64
      ensures fresh(w) && w.Length == 80
      ensures forall t :: 0 <= t < 80 ==> w[t] == Schedule(buffer[..], t)
    {
      hide Mix, BigEndianWord, Schedule;
      ghost var block := buffer[..];
      w := new bv32[80];
      for i := 0 to 16
        invariant forall j :: 0 <= j < i ==> w[j] == Schedule(block, j)
      {
        ScheduleStep(block, i);
        w[i] := BigEndianWord(buffer[i * 4], buffer[i * 4 + 1], buffer[i * 4 + 2], buffer[i * 4 + 3]);
      }
      for i := 16 to 80
        invariant forall j :: 0 <= j < i ==> w[j] == Schedule(block, j)
      {
        ScheduleStep(block, i);
        w[i] := Mix(w[i - 3], w[i - 8], w[i - 14], w[i - 16]);
      }
    }

    /** The function and constant of step i. */
    static method Choose(i: nat, b: bv32, c: bv32, d: bv32) returns (f: bv32, k: bv32)
      ensures f == F(i, b, c, d) && k == K(i)
    {
      hide F;
      if i < 20 {
        f, k := (b & c) | (!b & d), 0x5a827999;
        ChooseForm(i, b, c, d);
      } else if i < 40 {
        f, k := b ^ c ^ d, 0x6ed9eba1;
        ParityForm(i, b, c, d);
      } else if i < 60 {
        f, k := (b & c) | (b & d) | (c & d), 0x8f1bbcdc;
        MajorityForm(i, b, c, d);
      } else {
        f, k := b ^ c ^ d, 0xca62c1d6;
        LateParityForm(i, b, c, d);
      }
    }

    method Transform()
      requires buffer.Length == 64
      modifies this`state
      ensures state == Compress(old(state), buffer[..])
    {
      ghost var block := buffer[..];
      var w := ExpandBlock();
      hide Schedule, F, K, Rotl5, Rotl30, Sum5, AddWords;
      var h := state;
      var a, b, c, d, e := h.a, h.b, h.c, h.d, h.e;
      for i := 0 to 80
        invariant state == h && Words(a, b, c, d, e) == Rounds(block, h, i)
        invariant forall t :: 0 <= t < 80 ==> w[t] == Schedule(block, t)
      {
        var f, k := Choose(i, b, c, d);
        var temp := Sum5(Rotl5(a), f, e, k, w[i]);
        a, b, c, d, e := temp, a, Rotl30(b), c, d;
      }
      state := AddWords(h, Words(a, b, c, d, e));
    }

    /** One round of the update loop: fill the buffer with a piece and compress it when it is full. */
    method Take(piece: seq<byte>)
      requires Absorbed() && |piece| <= 64 - bufferLen
      modifies this`state, this`bufferLen, this`blocks, this`message, buffer
      ensures Absorbed() && message == old(message) + piece
    {
      hide Compress, Chain;
      ghost var m, tail := message, buffer[..bufferLen];
      ChainPrefix(m, piece, blocks);
      CopyInto(buffer, bufferLen, piece);
      bufferLen, message := bufferLen + |piece|, m + piece;
      assert buffer[..bufferLen] == tail + piece;
      assert message[64 * blocks..] == tail + piece;
      if bufferLen == 64 {
        assert buffer[..] == tail + piece;
        ChainStep(message, blocks, tail + piece);
        Transform();
        blocks, bufferLen := blocks + 1, 0;
      }
    }

    method Update(data: seq<byte>)
      requires Valid()
      modifies this, buffer
      ensures Valid() && buffer == old(buffer)
      ensures message == old(message) + data
    {
      hide Absorbed;
      ghost var sum := bitCount + |data| * 8;
      bitCount, wraps := (bitCount + |data| * 8) % TWO64, wraps + sum / TWO64;
      var pos := 0;
      assert message == message + data[..0];
      while pos < |data|
        invariant pos <= |data| && buffer == old(buffer) && Absorbed()
        invariant message == old(message) + data[..pos]
        invariant CountsBits(|old(message)| + |data|)
      {
        var copyLen := Min(64 - bufferLen, |data| - pos);
        Take(data[pos..pos + copyLen]);
        assert data[..pos + copyLen] == data[..pos] + data[pos..pos + copyLen];
        pos := pos + copyLen;
      }
      assert data[..|data|] == data;
    }

    /** The zero-padding loop of sha1_final. */
    method PadBlock(ghost m: seq<byte>)
      requires Valid() && message == m + [0x80]
      modifies this, buffer
      ensures Valid() && buffer == old(buffer)
      ensures message == m + [0x80] + Zeros(PadZeros(|m|))
    {
      hide Absorbed, CountsBits, PadZeros, Zeros;
      ghost var z, k := 0, PadZeros(|m|);
      assert Zeros(0) == [] && m + [0x80] + [] == m + [0x80];
      PaddingDone(|m|, z, blocks, bufferLen);
      while bufferLen != 56
        invariant Valid() && buffer == old(buffer)
        invariant z <= k && message == m + [0x80] + Zeros(z)
        invariant bufferLen == 56 <==> z == k
        decreases k - z
      {
        Update([0]);
        ZerosSnoc(m + [0x80], z);
        z := z + 1;
        PaddingDone(|m|, z, blocks, bufferLen);
      }
    }

    /** The digest of everything absorbed; the context is wiped afterwards. */
    method Final() returns (digest: seq<byte>)
      requires Valid()
      modifies this, buffer
      ensures digest == Digest(old(message))
      ensures bufferLen == 0 && bitCount == 0 && state == Words(0, 0, 0, 0, 0)
      ensures buffer == old(buffer) && forall i :: 0 <= i < buffer.Length ==> buffer[i] == 0
    {
      hide WordBytes, BigEndian64, PadZeros, Zeros, Chain;
      ghost var m := message;
      var bits := bitCount;
      assert bits == 8 * |m| % TWO64;
      Update([0x80]);
      PadBlock(m);
      var lengthBytes := LengthBytes(bits);
      Update(lengthBytes);
      assert message == Pad(m);
      assert |message| / 64 == blocks && |message| == 64 * blocks;
      digest := WordBytes(state.a) + WordBytes(state.b) + WordBytes(state.c) + WordBytes(state.d) + WordBytes(state.e);
      state, bufferLen, bitCount := Words(0, 0, 0, 0, 0), 0, 0;
      forall i | 0 <= i < buffer.Length {
        buffer[i] := 0;
      }
    }
  }

  method LengthBytes(bits: nat) returns (s: seq<byte>)
    ensures s == BigEndian64(bits)
  {
    var lengthBytes := new byte[8];
    for i := 0 to 8
      invariant forall j :: 0 <= j < i ==> lengthBytes[7 - j] == bits / Pow256(j) % 256
    {
      lengthBytes[7 - i] := bits / Pow256(i) % 256;
    }
    Pow256Values();
    s := lengthBytes[..];
  }

  lemma Pow256Values()
    ensures Pow256(0) == 1 && Pow256(1) == 0x100 && Pow256(2) == 0x1_0000 && Pow256(3) == 0x100_0000
    ensures Pow256(4) == 0x1_0000_0000 && Pow256(5) == 0x100_0000_0000
    ensures Pow256(6) == 0x1_0000_0000_0000 && Pow256(7) == 0x100_0000_0000_0000
  {
    assert Pow256(2) == 256 * Pow256(1);
    assert Pow256(4) == 256 * Pow256(3);
    assert Pow256(6) == 256 * Pow256(5);
  }

  /** Any way of cutting a message into update calls gives the one-shot digest. */
  method HashParts(parts: seq<seq<byte>>) returns (digest: seq<byte>)
    ensures digest == Digest(Flatten(parts))
  {
    var ctx := new Sha1Context();
    for i := 0 to |parts|
      invariant ctx.Valid() && fresh(ctx) && fresh(ctx.buffer)
      invariant ctx.message == Flatten(parts[..i])
    {
      ctx.Update(parts[i]);
      assert parts[..i + 1] == parts[..i] + [parts[i]];
      FlattenSnoc(parts[..i], parts[i]);
    }
    assert parts[..|parts|] == parts;
    digest := ctx.Final();
  }

  const FILE_BUFFER: nat := 4096

  /** Hashing a file through a 4096-byte read buffer is hashing its contents. */
  method Sha1File(file: seq<byte>) returns (digest: seq<byte>)
    ensures digest == Digest(file)
  {
    hide Sha1Context.Absorbed, Sha1Context.CountsBits, Digest;
    var ctx := new Sha1Context();
    var pos := 0;
    while pos < |file|
      invariant pos <= |file|
      invariant ctx.Valid() && fresh(ctx) && fresh(ctx.buffer)
      invariant ctx.message == file[..pos]
    {
      var n := Min(FILE_BUFFER, |file| - pos);
      ctx.Update(file[pos..pos + n]);
      assert file[..pos + n] == file[..pos] + file[pos..pos + n];
      pos := pos + n;
    }
    assert file[..|file|] == file;
    digest := ctx.Final();
  }
}
