/** Byte-wise exclusive or, and HMAC-SHA-1 as in section 2 of RFC 2104. */
module Hmac {
  import opened Bytes
  import Sha1
  import Sha1Spec

  const BLOCK: nat := 64
  const IPAD: byte := 0x36
  const OPAD: byte := 0x5c

  function Pow2(n: nat): (p: nat)
    ensures p > 0
  {
    if n == 0 then 1 else 2 * Pow2(n - 1)
  }

  /** The exclusive or of the low n bits of two numbers. */
  function XorLow(a: nat, b: nat, n: nat): (r: nat)
    ensures r < Pow2(n)
    decreases n
  {
    if n == 0 then 0 else (a + b) % 2 + 2 * XorLow(a / 2, b / 2, n - 1)
  }

  lemma XorLowTwiceStep(a: nat, b: nat, high: nat)
    ensures var x := (a + b) % 2 + 2 * high; x / 2 == high && (x + b) % 2 == a % 2
  {
    var low := (a + b) % 2;
    assert a + b == (a + b) / 2 * 2 + low;
    DivModOf(2, high, low);
  }

  lemma {:induction false} XorLowTwice(a: nat, b: nat, n: nat)
    requires a < Pow2(n)
    ensures XorLow(XorLow(a, b, n), b, n) == a
    decreases n
  {
    if n > 0 {
      XorLowTwiceStep(a, b, XorLow(a / 2, b / 2, n - 1));
      assert a / 2 < Pow2(n - 1);
      XorLowTwice(a / 2, b / 2, n - 1);
      XorLowUnfold(XorLow(a, b, n), b, n);
      XorLowUnfold(a, b, n);
      hide XorLow, Pow2;
      assert a == a % 2 + 2 * (a / 2);
    }
  }

  lemma XorLowUnfold(a: nat, b: nat, n: nat)
    requires n > 0
    ensures XorLow(a, b, n) == (a + b) % 2 + 2 * XorLow(a / 2, b / 2, n - 1)
  {
  }

  /** a ^ b on unsigned bytes. */
  function Xor(a: byte, b: byte): byte {
    EightBits();
    XorLow(a, b, 8)
  }

  lemma EightBits()
    ensures Pow2(8) == 256
  {
  }

  lemma HalfThenDivide(x: nat, m: nat)
    requires m > 0
    ensures x / (2 * m) == x / 2 / m
  {
    var q, r := x / 2 / m, x / 2 % m;
    assert x / 2 == q * m + r;
    assert x == q * (2 * m) + (2 * r + x % 2);
    DivModOf(2 * m, q, 2 * r + x % 2);
  }

  lemma LowBit(a: nat, b: nat, high: nat)
    ensures var x := (a + b) % 2 + 2 * high; x / 2 == high && (x % 2 == 1 <==> a % 2 != b % 2)
  {
  }

  lemma Powers(k: nat)
    ensures Pow2(0) == 1 && (k > 0 ==> Pow2(k) == 2 * Pow2(k - 1))
  {
  }

  lemma {:induction false} XorLowBit(a: nat, b: nat, n: nat, k: nat)
    requires k < n
    ensures XorLow(a, b, n) / Pow2(k) % 2 == 1 <==> a / Pow2(k) % 2 != b / Pow2(k) % 2
    decreases k
  {
    hide XorLow, Pow2;
    XorLowUnfold(a, b, n);
    LowBit(a, b, XorLow(a / 2, b / 2, n - 1));
    Powers(k);
    if k > 0 {
      XorLowBit(a / 2, b / 2, n - 1, k - 1);
      HalfThenDivide(XorLow(a, b, n), Pow2(k - 1));
      HalfThenDivide(a, Pow2(k - 1));
      HalfThenDivide(b, Pow2(k - 1));
    }
  }

  /** Bit k of the exclusive or is set exactly when bit k of one of the two bytes is, and not of both. */
  lemma XorBit(a: byte, b: byte, k: nat)
    requires k < 8
    ensures Xor(a, b) / Pow2(k) % 2 == 1 <==> a / Pow2(k) % 2 != b / Pow2(k) % 2
    ensures Pow2(0) == 1 && (k > 0 ==> Pow2(k) == 2 * Pow2(k - 1))
  {
    hide XorLow, Pow2;
    XorLowBit(a, b, 8, k);
    Powers(k);
  }

  lemma XorTwice(a: byte, b: byte)
    ensures Xor(Xor(a, b), b) == a
  {
    EightBits();
    hide XorLow, Pow2;
    XorLowTwice(a, b, 8);
  }

  function XorWith(s: seq<byte>, pad: byte): (r: seq<byte>)
    ensures |r| == |s|
  {
    seq(|s|, i requires 0 <= i < |s| => Xor(s[i], pad))
  }

  /** A key longer than a block is hashed first; then zeros fill the block. */
  function KeyBlock(key: seq<byte>): (k: seq<byte>)
    ensures |k| == BLOCK
  {
    var short := if |key| > BLOCK then Sha1Spec.Digest(key) else key;
    short + Sha1Spec.Zeros(BLOCK - |short|)
  }

  /** H(K XOR opad, H(K XOR ipad, text)). */
  function HmacSha1(key: seq<byte>, text: seq<byte>): (mac: seq<byte>)
    ensures |mac| == 20
  {
    var k := KeyBlock(key);
    Sha1Spec.Digest(XorWith(k, OPAD) + Sha1Spec.Digest(XorWith(k, IPAD) + text))
  }

  /** The two hashed blocks byte by byte: the key, or its digest if it is over 64 bytes, then zeros, masked. */
  lemma HmacBlocks(key: seq<byte>, text: seq<byte>) returns (inner: seq<byte>, outer: seq<byte>)
    ensures HmacSha1(key, text) == Sha1Spec.Digest(outer + Sha1Spec.Digest(inner + text))
    ensures |inner| == |outer| == 64
    ensures var short := if |key| > 64 then Sha1Spec.Digest(key) else key;
      forall i :: 0 <= i < 64 ==>
        var b := if i < |short| then short[i] else 0;
        inner[i] == Xor(b, 0x36) && outer[i] == Xor(b, 0x5c)
  {
    hide Sha1Spec.Digest, Xor;
    inner, outer := XorWith(KeyBlock(key), IPAD), XorWith(KeyBlock(key), OPAD);
  }

  method HashTwo(first: seq<byte>, second: seq<byte>) returns (digest: seq<byte>)
    ensures digest == Sha1Spec.Digest(first + second)
  {
    hide *;
    var ctx := new Sha1.Sha1Context();
    ctx.Update(first);
    ctx.Update(second);
    assert [] + first + second == first + second;
    digest := ctx.Final();
  }

  method FillKeyBlock(key: seq<byte>) returns (keyBlock: array<byte>)
    ensures fresh(keyBlock) && keyBlock[..] == KeyBlock(key)
  {
    hide Sha1Spec.Digest;
    keyBlock := new byte[BLOCK](_ => 0);
    var short := key;
    if |key| > BLOCK {
      var ctx := new Sha1.Sha1Context();
      ctx.Update(key);
      assert [] + key == key;
      short := ctx.Final();
    }
    CopyInto(keyBlock, 0, short);
    assert keyBlock[..] == short + Sha1Spec.Zeros(BLOCK - |short|);
  }

  /** demo_hmac_sha1. */
  method ComputeHmac(key: seq<byte>, data: seq<byte>) returns (mac: seq<byte>)
    ensures mac == HmacSha1(key, data)
  {
    hide KeyBlock, Xor, Sha1Spec.Digest;
    var keyBlock := FillKeyBlock(key);
    var ipad, opad := new byte[BLOCK], new byte[BLOCK];
    for i := 0 to BLOCK
      invariant keyBlock[..] == KeyBlock(key)
      invariant forall j :: 0 <= j < i ==> ipad[j] == Xor(keyBlock[j], IPAD) && opad[j] == Xor(keyBlock[j], OPAD)
    {
      ipad[i] := Xor(keyBlock[i], IPAD);
      opad[i] := Xor(keyBlock[i], OPAD);
    }
    assert ipad[..] == XorWith(KeyBlock(key), IPAD);
    assert opad[..] == XorWith(KeyBlock(key), OPAD);
    var inner := HashTwo(ipad[..], data);
    mac := HashTwo(opad[..], inner);
  }
}
