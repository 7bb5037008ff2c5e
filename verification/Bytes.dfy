/** Bytes, unsigned words and the big-endian helpers that every wire format shares. */
module Bytes {

  type byte = b: nat | b < 256
  type u16 = x: nat | x < 0x1_0000
  type u32 = x: nat | x < 0x1_0000_0000

  const U32: nat := 0x1_0000_0000

  function Min(a: nat, b: nat): nat {
    if a <= b then a else b
  }

  function Max(a: nat, b: nat): nat {
    if a <= b then b else a
  }

  function PutU16(x: u16): (s: seq<byte>)
    ensures |s| == 2
  {
    [x / 0x100, x % 0x100]
  }

  function PutU32(x: u32): (s: seq<byte>)
    ensures |s| == 4
  {
    [x / 0x100_0000, x / 0x1_0000 % 0x100, x / 0x100 % 0x100, x % 0x100]
  }

  function GetU16(s: seq<byte>): u16
    requires |s| >= 2
  {
    var hi: nat, lo: nat := s[0], s[1];
    hi * 0x100 + lo
  }

  function GetU32(s: seq<byte>): u32
    requires |s| >= 4
  {
    var a: nat, b: nat, c: nat, d: nat := s[0], s[1], s[2], s[3];
    a * 0x100_0000 + b * 0x1_0000 + c * 0x100 + d
  }

  /** The most significant byte comes first. */
  lemma BigEndian(b0: byte, b1: byte, b2: byte, b3: byte)
    ensures PutU32(0x100_0000 * b0 + 0x1_0000 * b1 + 0x100 * b2 + b3) == [b0, b1, b2, b3]
    ensures PutU16(0x100 * b0 + b1) == [b0, b1]
  {
    var x := 0x100_0000 * b0 + 0x1_0000 * b1 + 0x100 * b2 + b3;
    assert x / 0x100_0000 == b0;
    assert x / 0x1_0000 == b0 * 0x100 + b1;
    assert x / 0x100 == b0 * 0x1_0000 + b1 * 0x100 + b2;
  }

  /** Reading back what was stored returns the value, whatever follows it in the buffer. */
  lemma PutGetU16(x: u16, rest: seq<byte>)
    ensures GetU16(PutU16(x) + rest) == x
  {
  }

  lemma PutGetU32(x: u32, rest: seq<byte>)
    ensures GetU32(PutU32(x) + rest) == x
  {
    var s := PutU32(x) + rest;
    assert s[0] == x / 0x100_0000 && s[1] == x / 0x1_0000 % 0x100 && s[2] == x / 0x100 % 0x100 && s[3] == x % 0x100;
    QuartersSum(x);
  }

  lemma QuartersSum(x: u32)
    ensures x / 0x100_0000 * 0x100_0000 + x / 0x1_0000 % 0x100 * 0x1_0000 + x / 0x100 % 0x100 * 0x100 + x % 0x100 == x
  {
    assert x / 0x100 / 0x100 == x / 0x1_0000;
    assert x / 0x1_0000 / 0x100 == x / 0x100_0000;
  }

  /** Storing what was read reproduces the bytes: the encoding is onto. */
  lemma GetPutU16(s: seq<byte>)
    requires |s| >= 2
    ensures PutU16(GetU16(s)) == s[..2]
  {
  }

  lemma GetPutU32(s: seq<byte>)
    requires |s| >= 4
    ensures PutU32(GetU32(s)) == s[..4]
  {
    var x := GetU32(s);
    var a: nat, b: nat, c: nat := s[0], s[1], s[2];
    assert x / 0x100_0000 == a;
    assert x / 0x1_0000 == a * 0x100 + b;
    assert x / 0x100 == a * 0x1_0000 + b * 0x100 + c;
  }

  /** A nonzero multiple is at least as large as what it is a multiple of. */
  lemma MultipleGrows(d: nat, m: nat)
    requires d > 0
    ensures d * m >= m
  {
    assert d * m == (d - 1) * m + m;
  }

  /** Quotient and remainder of a number written as q * m + r. */
  lemma DivModOf(m: nat, q: nat, r: nat)
    requires r < m
    ensures (q * m + r) / m == q && (q * m + r) % m == r
  {
    var n := q * m + r;
    assert n == m * (n / m) + n % m;
    if n / m > q {
      MultipleGrows(n / m - q, m);
    } else if n / m < q {
      MultipleGrows(q - n / m, m);
    }
  }

  /** Concatenation of a list of byte strings. */
  function Flatten<T>(parts: seq<seq<T>>): seq<T> {
    if parts == [] then [] else Flatten(parts[..|parts| - 1]) + parts[|parts| - 1]
  }

  lemma FlattenSnoc<T>(parts: seq<seq<T>>, last: seq<T>)
    ensures Flatten(parts + [last]) == Flatten(parts) + last
  {
    assert (parts + [last])[..|parts|] == parts;
  }

  lemma ConcatAssoc<T>(a: seq<T>, b: seq<T>, c: seq<T>)
    ensures (a + b) + c == a + (b + c)
  {
  }

  lemma {:induction false} FlattenAppend<T>(a: seq<seq<T>>, b: seq<seq<T>>)
    ensures Flatten(a + b) == Flatten(a) + Flatten(b)
    decreases |b|
  {
    if b == [] {
      assert a + b == a;
    } else {
      var n := |b| - 1;
      hide Flatten;
      FlattenAppend(a, b[..n]);
      FlattenSnoc(a + b[..n], b[n]);
      FlattenSnoc(b[..n], b[n]);
      assert b[..n] + [b[n]] == b;
      ConcatAssoc(a, b[..n], [b[n]]);
      ConcatAssoc(Flatten(a), Flatten(b[..n]), b[n]);
    }
  }

  /** memcpy into a buffer at an offset. */
  method CopyInto<T>(dst: array<T>, at: nat, src: seq<T>)
    requires at + |src| <= dst.Length
    modifies dst
    ensures dst[..at] == old(dst[..at])
    ensures dst[at..at + |src|] == src
    ensures dst[at + |src|..] == old(dst[at + |src|..])
  {
    forall i | 0 <= i < |src| {
      dst[at + i] := src[i];
    }
  }
}
