/** The variable-length remaining length of MQTT, section 2.2.3 of MQTT 3.1.1. */
module MqttLength {
  import opened Bytes
  import opened Results

  const LIMIT: nat := 0x1000_0000   // 128 to the fourth

  /** Seven bits a byte, least significant first; all bytes but the last carry the continuation bit. */
  function LengthBytes(len: nat): (s: seq<byte>)
    ensures |s| > 0
    decreases len
  {
    if len < 0x80 then [len] else [len % 0x80 + 0x80] + LengthBytes(len / 0x80)
  }

  /** The value of a length field of at most fuel bytes, and how many it takes. */
  function Value(buf: seq<byte>, fuel: nat): (r: Option<(nat, nat)>)
    ensures r.Some? ==> 0 < r.value.1 <= fuel && r.value.1 <= |buf|
    decreases fuel
  {
    if fuel == 0 || buf == [] then None
    else if buf[0] < 0x80 then Some((buf[0], 1))
    else
      match Value(buf[1..], fuel - 1)
      case None => None
      case Some((v, n)) => Some((buf[0] - 0x80 + 0x80 * v, n + 1))
  }

  function Pow128(n: nat): (p: nat)
    ensures p > 0
  {
    if n == 0 then 1 else 0x80 * Pow128(n - 1)
  }

  lemma Powers()
    ensures Pow128(0) == 1 && Pow128(1) == 0x80 && Pow128(2) == 0x4000 && Pow128(3) == 0x20_0000 && Pow128(4) == LIMIT
  {
  }

  lemma Halves(len: nat)
    ensures len == len / 0x80 * 0x80 + len % 0x80
  {
  }

  /** n bytes suffice exactly below 128 to the n. */
  lemma {:induction false} SizeIff(len: nat, n: nat)
    ensures |LengthBytes(len)| <= n <==> len < Pow128(n) && n > 0
    decreases n
  {
    if n > 0 && len >= 0x80 {
      SizeIff(len / 0x80, n - 1);
      if n > 1 {
        assert len < 0x80 * Pow128(n - 1) <==> len / 0x80 < Pow128(n - 1);
      }
    } else if n > 1 {
      SizeIff(len, n - 1);
    }
  }

  /** Byte i holds the i-th seven bits, and the top bit on all bytes but the last. */
  lemma {:induction false} LengthByte(len: nat, i: nat)
    requires i < |LengthBytes(len)|
    ensures LengthBytes(len)[i] == len / Pow128(i) % 128 + if i + 1 < |LengthBytes(len)| then 128 else 0
    decreases i
  {
    if i == 0 {
      assert len / 1 == len;
    } else {
      LengthByte(len / 0x80, i - 1);
      DivideTwice(len, Pow128(i - 1));
    }
  }

  lemma DivideTwice(len: nat, m: nat)
    requires m > 0
    ensures len / (0x80 * m) == len / 0x80 / m
  {
    var q, r := len / 0x80 / m, len / 0x80 % m;
    assert len / 0x80 == q * m + r;
    Halves(len);
    assert len == q * (0x80 * m) + (0x80 * r + len % 0x80);
    DivModOf(0x80 * m, q, 0x80 * r + len % 0x80);
  }

  /** The borders of table 2.4 of MQTT 3.1.1. */
  lemma Borders()
    ensures LengthBytes(0) == [0] && LengthBytes(127) == [0x7f]
    ensures LengthBytes(128) == [0x80, 0x01] && LengthBytes(16383) == [0xff, 0x7f]
    ensures LengthBytes(16384) == [0x80, 0x80, 0x01] && LengthBytes(2097151) == [0xff, 0xff, 0x7f]
    ensures LengthBytes(2097152) == [0x80, 0x80, 0x80, 0x01] && LengthBytes(268435455) == [0xff, 0xff, 0xff, 0x7f]
  {
  }

  /** A length field decodes, whatever follows it, exactly when it is no longer than the decoder reads. */
  lemma {:induction false} ValueOfBytes(len: nat, rest: seq<byte>, fuel: nat)
    ensures Value(LengthBytes(len) + rest, fuel) ==
      if |LengthBytes(len)| <= fuel then Some((len, |LengthBytes(len)|)) else None
    decreases fuel
  {
    if fuel > 0 && len >= 0x80 {
      var s := LengthBytes(len) + rest;
      assert s[1..] == LengthBytes(len / 0x80) + rest;
      ValueOfBytes(len / 0x80, rest, fuel - 1);
      Halves(len);
    }
  }

  /** No field for a value is shorter than the encoder's, and the encoder's is the only one that short. */
  lemma {:induction false} Shortest(buf: seq<byte>, fuel: nat)
    requires Value(buf, fuel).Some?
    ensures var (v, n) := Value(buf, fuel).value;
      |LengthBytes(v)| <= n && (n == |LengthBytes(v)| <==> buf[..n] == LengthBytes(v))
    decreases fuel
  {
    if buf[0] < 0x80 {
      assert buf[..1] == [buf[0]];
    } else {
      Shortest(buf[1..], fuel - 1);
      var (v, n) := Value(buf[1..], fuel - 1).value;
      var w := buf[0] - 0x80 + 0x80 * v;
      assert buf[..n + 1] == [buf[0]] + buf[1..][..n];
      if w >= 0x80 {
        assert w / 0x80 == v && w % 0x80 == buf[0] - 0x80;
      } else {
        assert v == 0;
      }
    }
  }

  /** No length field is the beginning of another. */
  lemma PrefixFree(a: nat, b: nat)
    requires LengthBytes(a) <= LengthBytes(b)
    ensures a == b
  {
    var n := |LengthBytes(b)|;
    var rest := LengthBytes(b)[|LengthBytes(a)|..];
    assert LengthBytes(a) + rest == LengthBytes(b) + [];
    ValueOfBytes(a, rest, n);
    ValueOfBytes(b, [], n);
  }

  /** What is still to be written: nothing once the last byte is out. */
  function Rest(more: bool, len: nat): seq<byte> {
    if more then LengthBytes(len) else []
  }

  lemma RestStep(len: nat, written: seq<byte>)
    ensures var octet: byte := len % 0x80 + (if len / 0x80 > 0 then 0x80 else 0);
      written + Rest(true, len) == written + [octet] + Rest(len / 0x80 > 0, len / 0x80)
  {
    var octet: byte := len % 0x80 + (if len / 0x80 > 0 then 0x80 else 0);
    assert Rest(true, len) == [octet] + Rest(len / 0x80 > 0, len / 0x80);
    hide Rest;
    ConcatAssoc(written, [octet], Rest(len / 0x80 > 0, len / 0x80));
  }

  lemma RestEnds(len: nat, written: seq<byte>)
    ensures written + Rest(false, len) == written && |written + Rest(true, len)| > |written|
    ensures [] + Rest(true, len) == LengthBytes(len)
  {
  }

  /** encode_remaining_length. */
  method EncodeRemainingLength(length: u32, out: array<byte>) returns (r: int, outLen: nat)
    modifies out
    ensures r == 0 || r == -1
    ensures r == 0 <==> |LengthBytes(length)| <= out.Length
    ensures r == 0 ==> outLen == |LengthBytes(length)| && out[..outLen] == LengthBytes(length)
  {
    hide Rest, LengthBytes;
    var len: nat, pos, more := length, 0, true;
    RestEnds(len, []);
    assert out[..0] == [];
    while more
      invariant pos <= out.Length
      invariant LengthBytes(length) == out[..pos] + Rest(more, len)
      decreases more, len
    {
      RestStep(len, out[..pos]);
      RestEnds(len, out[..pos]);
      if pos >= out.Length {
        return -1, 0;
      }
      ghost var was := out[..pos];
      var octet: byte := len % 0x80;
      len := len / 0x80;
      if len > 0 {
        octet := octet + 0x80;
      }
      out[pos] := octet;
      pos := pos + 1;
      more := len > 0;
      assert out[..pos] == was + [octet];
    }
    RestEnds(len, out[..pos]);
    return 0, pos;
  }

  /** Four bytes hold exactly the lengths below 2^28. */
  lemma FourBytesIff(len: nat)
    ensures |LengthBytes(len)| <= 4 <==> len < LIMIT
  {
    SizeIff(len, 4);
    Powers();
  }

  /** What four bytes can hold is decoded, and nothing longer is, whatever follows. */
  lemma RoundTrip(len: nat, rest: seq<byte>)
    ensures Value(LengthBytes(len) + rest, 4) == if len < LIMIT then Some((len, |LengthBytes(len)|)) else None
  {
    ValueOfBytes(len, rest, 4);
    FourBytesIff(len);
  }

  /** The value so far, and the rest of the field at its place. */
  function Placed(r: Option<(nat, nat)>, value: nat, multiplier: nat, i: nat): Option<(nat, nat)> {
    match r
    case None => None
    case Some((v, n)) => Some((value + v * multiplier, n + i))
  }

  lemma PlacedStep(buf: seq<byte>, i: nat, value: nat, multiplier: nat)
    requires i < 4 && i < |buf|
    ensures var b := buf[i];
      Placed(Value(buf[i..], 4 - i), value, multiplier, i) ==
        if b < 0x80 then Some((value + b * multiplier, i + 1))
        else Placed(Value(buf[i + 1..], 4 - (i + 1)), value + (b - 0x80) * multiplier, multiplier * 0x80, i + 1)
  {
    assert buf[i..][1..] == buf[i + 1..];
    var b := buf[i];
    if b >= 0x80 && Value(buf[i + 1..], 4 - (i + 1)).Some? {
      var v := Value(buf[i + 1..], 4 - (i + 1)).value.0;
      Distributes(b - 0x80, v, multiplier);
    }
  }

  lemma Distributes(b: nat, v: nat, m: nat)
    ensures (b + 0x80 * v) * m == b * m + v * (m * 0x80)
  {
  }

  /** decode_remaining_length; no uint32_t overflows on the way. */
  method DecodeRemainingLength(buf: seq<byte>) returns (r: Option<(u32, nat)>)
    ensures r == Value(buf, 4)
  {
    hide Value, Placed;
    var multiplier: u32, value: u32, i: nat := 1, 0, 0;
    PlacedFirst(buf);
    while i < 4 && i < |buf|
      invariant i <= 4 && i <= |buf| && multiplier == Pow128(i) && value < multiplier <= LIMIT
      invariant Value(buf, 4) == Placed(Value(buf[i..], 4 - i), value, multiplier, i)
    {
      PlacedStep(buf, i, value, multiplier);
      Powers();
      DigitFits(buf[i] % 0x80, multiplier);
      value := value + buf[i] % 0x80 * multiplier;
      if buf[i] < 0x80 {
        return Some((value, i + 1));
      }
      i := i + 1;
      multiplier := multiplier * 0x80;
    }
    PlacedNothing(buf, i, value, multiplier);
    return None;
  }

  lemma DigitFits(d: nat, m: nat)
    requires d < 0x80
    ensures d * m <= 0x7f * m
  {
  }

  lemma PlacedFirst(buf: seq<byte>)
    ensures Value(buf, 4) == Placed(Value(buf[0..], 4), 0, 1, 0)
  {
    assert buf[0..] == buf;
  }

  lemma PlacedNothing(buf: seq<byte>, i: nat, value: nat, multiplier: nat)
    requires i <= 4 && i <= |buf| && (i == 4 || i == |buf|)
    ensures Placed(Value(buf[i..], 4 - i), value, multiplier, i) == None
  {
  }
}
