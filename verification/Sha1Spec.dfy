/** SHA-1 as FIPS 180-4 defines it: padding (5.1.1), preprocessing (5.2.1, 5.3.1) and hash computation (6.1.2). */
module Sha1Spec {
  import opened Bytes

  datatype Words = Words(a: bv32, b: bv32, c: bv32, d: bv32, e: bv32)

  const INITIAL: Words := Words(0x67452301, 0xefcdab89, 0x98badcfe, 0x10325476, 0xc3d2e1f0)

  // ROTL of section 3.2 for the three distances the algorithm uses.
  function Rotl1(x: bv32): bv32 {
    (x << 1) | (x >> 31)
  }

  function Rotl5(x: bv32): bv32 {
    (x << 5) | (x >> 27)
  }

  function Rotl30(x: bv32): bv32 {
    (x << 30) | (x >> 2)
  }

  /** Addition of words, modulo 2^32. */
  function Add(x: bv32, y: bv32): bv32 {
    x + y
  }

  function Sum5(a: bv32, b: bv32, c: bv32, d: bv32, e: bv32): bv32 {
    Add(Add(Add(Add(a, b), c), d), e)
  }

  function AddWords(h: Words, v: Words): Words {
    Words(Add(h.a, v.a), Add(h.b, v.b), Add(h.c, v.c), Add(h.d, v.d), Add(h.e, v.e))
  }

  /** The recurrence of the message schedule. */
  function Mix(x: bv32, y: bv32, z: bv32, u: bv32): bv32 {
    Rotl1(x ^ y ^ z ^ u)
  }

  // The logical functions of section 4.1.1.
  function Ch(x: bv32, y: bv32, z: bv32): bv32 {
    (x & y) ^ (!x & z)
  }

  function Parity(x: bv32, y: bv32, z: bv32): bv32 {
    x ^ y ^ z
  }

  function Maj(x: bv32, y: bv32, z: bv32): bv32 {
    (x & y) ^ (x & z) ^ (y & z)
  }

  function F(t: nat, x: bv32, y: bv32, z: bv32): bv32 {
    if t < 20 then Ch(x, y, z) else if t < 40 then Parity(x, y, z) else if t < 60 then Maj(x, y, z) else Parity(x, y, z)
  }

  // The constants of section 4.2.1.
  function K(t: nat): bv32 {
    if t < 20 then 0x5a827999 else if t < 40 then 0x6ed9eba1 else if t < 60 then 0x8f1bbcdc else 0xca62c1d6
  }

  function BigEndianWord(b0: byte, b1: byte, b2: byte, b3: byte): bv32 {
    ((b0 as bv32) << 24) | ((b1 as bv32) << 16) | ((b2 as bv32) << 8) | (b3 as bv32)
  }

  function Schedule(block: seq<byte>, t: nat): bv32
    requires |block| == 64
  {
    if t < 16 then BigEndianWord(block[4 * t], block[4 * t + 1], block[4 * t + 2], block[4 * t + 3])
    else Mix(Schedule(block, t - 3), Schedule(block, t - 8), Schedule(block, t - 14), Schedule(block, t - 16))
  }

  function Round(t: nat, w: bv32, h: Words): Words {
    Words(Sum5(Rotl5(h.a), F(t, h.b, h.c, h.d), h.e, K(t), w), h.a, Rotl30(h.b), h.c, h.d)
  }

  function Rounds(block: seq<byte>, h: Words, t: nat): Words
    requires |block| == 64
  {
    if t == 0 then h else Round(t - 1, Schedule(block, t - 1), Rounds(block, h, t - 1))
  }

  function Compress(h: Words, block: seq<byte>): Words
    requires |block| == 64
  {
    AddWords(h, Rounds(block, h, 80))
  }

  /** The chaining value after the first n blocks of m. */
  function Chain(m: seq<byte>, n: nat): Words
    requires 64 * n <= |m|
  {
    if n == 0 then INITIAL else Compress(Chain(m, n - 1), m[64 * (n - 1)..64 * n])
  }

  function Zeros(n: nat): (z: seq<byte>)
    ensures |z| == n
  {
    seq(n, _ => 0)
  }

  const TWO64: nat := 0x1_0000_0000_0000_0000

  function BigEndian64(x: nat): (s: seq<byte>)
    ensures |s| == 8
  {
    [x / 0x100_0000_0000_0000 % 0x100, x / 0x1_0000_0000_0000 % 0x100, x / 0x100_0000_0000 % 0x100,
     x / 0x1_0000_0000 % 0x100, x / 0x100_0000 % 0x100, x / 0x1_0000 % 0x100, x / 0x100 % 0x100, x % 0x100]
  }

  /** The value of a byte string, the most significant byte first. */
  function Number(s: seq<byte>): nat {
    if s == [] then 0 else 0x100 * Number(s[..|s| - 1]) + s[|s| - 1]
  }

  lemma NumberSnoc(s: seq<byte>, b: byte)
    ensures Number(s + [b]) == 0x100 * Number(s) + b
  {
    assert (s + [b])[..|s|] == s;
  }

  /** The length field is the number itself, the most significant byte first. */
  lemma LengthField(x: nat)
    requires x < 0x1_0000_0000_0000_0000
    ensures Number(BigEndian64(x)) == x
  {
    hide BigEndian64;
    LengthFieldBytes(x);
    var s := BigEndian64(x);
    assert Number(s[..0]) == 0;
    NumberGrows(s, 0, x, 0x100_0000_0000_0000, 0x1_0000_0000_0000_0000);
    NumberGrows(s, 1, x, 0x1_0000_0000_0000, 0x100_0000_0000_0000);
    NumberGrows(s, 2, x, 0x100_0000_0000, 0x1_0000_0000_0000);
    NumberGrows(s, 3, x, 0x1_0000_0000, 0x100_0000_0000);
    NumberGrows(s, 4, x, 0x100_0000, 0x1_0000_0000);
    NumberGrows(s, 5, x, 0x1_0000, 0x100_0000);
    NumberGrows(s, 6, x, 0x100, 0x1_0000);
    NumberGrows(s, 7, x, 1, 0x100);
    assert s[..8] == s;
  }

  lemma NumberGrows(s: seq<byte>, i: nat, x: nat, m: nat, n: nat)
    requires i < |s| && n == 0x100 * m && m > 0 && Number(s[..i]) == x / n && s[i] == x / m % 0x100
    ensures Number(s[..i + 1]) == x / m
  {
    hide Number;
    assert s[..i + 1] == s[..i] + [s[i]];
    NumberSnoc(s[..i], s[i]);
    NextByte(x, m);
  }

  lemma LengthFieldBytes(x: nat)
    ensures var s := BigEndian64(x);
      && s[0] == x / 0x100_0000_0000_0000 % 0x100 && s[1] == x / 0x1_0000_0000_0000 % 0x100
      && s[2] == x / 0x100_0000_0000 % 0x100 && s[3] == x / 0x1_0000_0000 % 0x100 && s[4] == x / 0x100_0000 % 0x100
      && s[5] == x / 0x1_0000 % 0x100 && s[6] == x / 0x100 % 0x100 && s[7] == x % 0x100
  {
  }

  lemma NextByte(x: nat, m: nat)
    requires m > 0
    ensures x / m == 0x100 * (x / (0x100 * m)) + x / m % 0x100
  {
    var q, r := x / m / 0x100, x / m % 0x100;
    assert x == (0x100 * q + r) * m + x % m;
    assert x == q * (0x100 * m) + (r * m + x % m);
    MultipleFits(r, m);
    DivModOf(0x100 * m, q, r * m + x % m);
  }

  lemma MultipleFits(r: nat, m: nat)
    requires r < 0x100
    ensures r * m + m <= 0x100 * m
  {
    MultipleIsSum(0xff - r, r + 1, m);
  }

  lemma MultipleIsSum(a: nat, b: nat, m: nat)
    ensures (a + b) * m == a * m + b * m
  {
  }

  /** Number of zero bytes between the 0x80 marker and the length field. */
  function PadZeros(n: nat): nat {
    (55 - n) % 64
  }

  lemma PadFills(n: nat)
    ensures (n + 1 + PadZeros(n) + 8) % 64 == 0
  {
  }

  /** The padded message of section 5.1.1. The standard stops at 2^64 bits, where the reduction changes nothing. */
  function Pad(m: seq<byte>): (p: seq<byte>)
    ensures |p| % 64 == 0
  {
    PadFills(|m|);
    m + [0x80] + Zeros(PadZeros(|m|)) + BigEndian64(8 * |m| % TWO64)
  }

  function WordBytes(w: bv32): (s: seq<byte>)
    ensures |s| == 4
  {
    [((w >> 24) & 0xff) as bv8 as nat, ((w >> 16) & 0xff) as bv8 as nat,
     ((w >> 8) & 0xff) as bv8 as nat, (w & 0xff) as bv8 as nat]
  }

  function Digest(m: seq<byte>): (d: seq<byte>)
    ensures |d| == 20
  {
    var p := Pad(m);
    var h := Chain(p, |p| / 64);
    WordBytes(h.a) + WordBytes(h.b) + WordBytes(h.c) + WordBytes(h.d) + WordBytes(h.e)
  }

  /** After n message bytes, the marker and k zero bytes, exactly eight bytes of the block are left. */
  predicate LeavesLength(n: nat, k: nat) {
    (n + 1 + k) % 64 == 56
  }

  /** The padding uses the least number of zero bytes that leaves eight bytes for the length (section 5.1.1). */
  lemma PadZerosLeast(n: nat)
    ensures LeavesLength(n, PadZeros(n))
    ensures forall k :: 0 <= k < PadZeros(n) ==> !LeavesLength(n, k)
  {
  }

  /** The disjunctive forms the code uses compute the words of the standard's exclusive-or forms. */
  lemma ChooseForm(t: nat, x: bv32, y: bv32, z: bv32)
    requires t < 20
    ensures F(t, x, y, z) == (x & y) | (!x & z)
  {
  }

  lemma ParityForm(t: nat, x: bv32, y: bv32, z: bv32)
    requires 20 <= t < 40
    ensures F(t, x, y, z) == x ^ y ^ z
  {
  }

  lemma LateParityForm(t: nat, x: bv32, y: bv32, z: bv32)
    requires 60 <= t
    ensures F(t, x, y, z) == x ^ y ^ z
  {
  }

  lemma MajorityForm(t: nat, x: bv32, y: bv32, z: bv32)
    requires 40 <= t < 60
    ensures F(t, x, y, z) == (x & y) | (x & z) | (y & z)
  {
  }

  lemma ZerosSnoc(front: seq<byte>, k: nat)
    ensures Zeros(0) == []
    ensures front + Zeros(k) + [0] == front + Zeros(k + 1)
  {
  }

  /** The buffer reaches byte 56 exactly when all zero bytes are in. */
  lemma PaddingDone(n: nat, z: nat, blocks: nat, bufferLen: nat)
    requires n + 1 + z == 64 * blocks + bufferLen && bufferLen < 64 && z <= PadZeros(n)
    ensures bufferLen == 56 <==> z == PadZeros(n)
  {
  }

  /** What follows the first n blocks does not matter to their chaining value. */
  lemma {:induction false} ChainPrefix(m: seq<byte>, rest: seq<byte>, n: nat)
    requires 64 * n <= |m|
    ensures Chain(m + rest, n) == Chain(m, n)
  {
    hide Compress;
    if n > 0 {
      ChainPrefix(m, rest, n - 1);
      assert (m + rest)[64 * (n - 1)..64 * n] == m[64 * (n - 1)..64 * n];
    }
  }

  lemma ScheduleStep(block: seq<byte>, t: nat)
    requires |block| == 64
    ensures t < 16 ==>
      Schedule(block, t) == BigEndianWord(block[4 * t], block[4 * t + 1], block[4 * t + 2], block[4 * t + 3])
    ensures 16 <= t ==>
      Schedule(block, t) ==
        Mix(Schedule(block, t - 3), Schedule(block, t - 8), Schedule(block, t - 14), Schedule(block, t - 16))
  {
    hide Mix, BigEndianWord;
  }

  lemma ChainStep(m: seq<byte>, n: nat, block: seq<byte>)
    requires 64 * (n + 1) <= |m| && block == m[64 * n..64 * n + 64]
    ensures Chain(m, n + 1) == Compress(Chain(m, n), block)
  {
    hide Compress;
    assert 64 * (n + 1) == 64 * n + 64;
  }
}
