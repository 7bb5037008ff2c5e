/** The two base64 encoders of the repository, against section 4 of RFC 4648. */
module Base64 {
  import opened Bytes
  import opened Results

  function Upper(): (s: string)
    ensures |s| == 26
  {
    "ABCDEFGHIJKLMNOPQRSTUVWXYZ"
  }

  function Lower(): (s: string)
    ensures |s| == 26
  {
    "abcdefghijklmnopqrstuvwxyz"
  }

  function Numerals(): (s: string)
    ensures |s| == 10
  {
    "0123456789"
  }

  /** The 64 digits in order of their value. */
  function Alphabet(): (s: string)
    ensures |s| == 64
  {
    Upper() + Lower() + Numerals() + "+/"
  }

  // ---- Section 4 of RFC 4648 ----

  /** The four six-bit groups of three bytes, first to last. */
  function Sextets(a: byte, b: byte, c: byte): (r: seq<nat>)
    ensures |r| == 4 && forall i :: 0 <= i < 4 ==> r[i] < 64
  {
    [a / 4, a % 4 * 16 + b / 16, b % 16 * 4 + c / 64, c % 64]
  }

  function Digit(d: nat): char
    requires d < 64
  {
    Alphabet()[d]
  }

  lemma UpperRow(d: nat)
    requires d < 26
    ensures Upper()[d] == 'A' + d as char
  {
  }

  lemma LowerRow(d: nat)
    requires d < 26
    ensures Lower()[d] == 'a' + d as char
  {
  }

  lemma NumeralRow(d: nat)
    requires d < 10
    ensures Numerals()[d] == '0' + d as char
  {
  }

  lemma DigitRow(d: nat)
    requires d < 64
    ensures Digit(d) ==
      if d < 26 then 'A' + d as char
      else if d < 52 then 'a' + (d - 26) as char
      else if d < 62 then '0' + (d - 52) as char
      else if d == 62 then '+' else '/'
  {
    hide Upper, Lower, Numerals;
    if d < 26 {
      UpperRow(d);
    } else if d < 52 {
      LowerRow(d - 26);
    } else if d < 62 {
      NumeralRow(d - 52);
    }
  }

  function Digits(a: byte, b: byte, c: byte): (r: string)
    ensures |r| == 4
  {
    var d := Sextets(a, b, c);
    [Digit(d[0]), Digit(d[1]), Digit(d[2]), Digit(d[3])]
  }

  /** Whole groups first; a last group of one or two bytes is filled with zero bits and padded. */
  function Encode(s: seq<byte>): string {
    if s == [] then []
    else if |s| == 1 then Digits(s[0], 0, 0)[..2] + "=="
    else if |s| == 2 then Digits(s[0], s[1], 0)[..3] + "="
    else Digits(s[0], s[1], s[2]) + Encode(s[3..])
  }

  /** The four groups are the 24 bits of the three bytes, first to last. */
  lemma SextetsAreTheBits(a: byte, b: byte, c: byte)
    ensures var r := Sextets(a, b, c);
      r[0] * 0x4_0000 + r[1] * 0x1000 + r[2] * 0x40 + r[3] == a * 0x1_0000 + b * 0x100 + c
  {
  }

  /** The test vectors of section 10 of RFC 4648: f, fo, foo, foob, fooba and foobar. */
  lemma Vectors()
    ensures Encode([]) == "" && Encode([102]) == "Zg==" && Encode([102, 111]) == "Zm8="
    ensures Encode([102, 111, 111]) == "Zm9v" && Encode([102, 111, 111, 98]) == "Zm9vYg=="
    ensures Encode([102, 111, 111, 98, 97]) == "Zm9vYmE=" && Encode([102, 111, 111, 98, 97, 114]) == "Zm9vYmFy"
  {
    hide Digit, Digits;
    ShortVectors();
    assert [102, 111, 111][3..] == [] && [102, 111, 111, 98][3..] == [98];
    assert [102, 111, 111, 98, 97][3..] == [98, 97] && [102, 111, 111, 98, 97, 114][3..] == [98, 97, 114];
    assert [98, 97, 114][3..] == [];
  }

  lemma ShortVectors()
    ensures Digits(102, 0, 0)[..2] == "Zg" && Digits(102, 111, 0)[..3] == "Zm8" && Digits(102, 111, 111) == "Zm9v"
    ensures Digits(98, 0, 0)[..2] == "Yg" && Digits(98, 97, 0)[..3] == "YmE" && Digits(98, 97, 114) == "YmFy"
  {
    hide Digit;
    DigitRow(4);
    DigitRow(5);
    DigitRow(24);
    DigitRow(25);
    DigitRow(32);
    DigitRow(38);
    DigitRow(47);
    DigitRow(50);
    DigitRow(60);
    DigitRow(61);
  }

  function Value(c: char): Option<nat> {
    if 'A' <= c <= 'Z' then Some(c as int - 'A' as int)
    else if 'a' <= c <= 'z' then Some(c as int - 'a' as int + 26)
    else if '0' <= c <= '9' then Some(c as int - '0' as int + 52)
    else if c == '+' then Some(62)
    else if c == '/' then Some(63)
    else None
  }

  /** A decoder that takes only whole groups, padding only at the end, and only zero pad bits (section 3.5). */
  function Decode(t: string): Option<seq<byte>> {
    if t == [] then Some([])
    else if |t| < 4 then None
    else if |t| == 4 && t[3] == '=' then DecodeShort(t)
    else
      match (Value(t[0]), Value(t[1]), Value(t[2]), Value(t[3]), Decode(t[4..]))
      case (Some(x), Some(y), Some(z), Some(w), Some(rest)) => Some(Bytes3(x, y, z, w) + rest)
      case _ => None
  }

  function DecodeShort(t: string): Option<seq<byte>>
    requires |t| == 4
  {
    if t[2] == '=' then
      match (Value(t[0]), Value(t[1]))
      case (Some(x), Some(y)) => if y % 16 == 0 then Some(Bytes3(x, y, 0, 0)[..1]) else None
      case _ => None
    else
      match (Value(t[0]), Value(t[1]), Value(t[2]))
      case (Some(x), Some(y), Some(z)) => if z % 4 == 0 then Some(Bytes3(x, y, z, 0)[..2]) else None
      case _ => None
  }

  function Bytes3(x: nat, y: nat, z: nat, w: nat): (r: seq<byte>)
    ensures |r| == 3
  {
    [(x * 4 + y / 16) % 256, (y % 16 * 16 + z / 4) % 256, (z % 4 * 64 + w) % 256]
  }

  lemma DigitValue(d: nat)
    requires d < 64
    ensures Value(Digit(d)) == Some(d)
    ensures Digit(d) != '=' && Digit(d) != '\0'
  {
    hide Digit;
    DigitRow(d);
  }

  lemma ValueInjective(c: char, d: char)
    requires Value(c).Some? && Value(c) == Value(d)
    ensures c == d
  {
  }

  lemma ValueDigit(c: char)
    requires Value(c).Some?
    ensures Value(c).value < 64 && Digit(Value(c).value) == c
  {
    hide Digit;
    DigitValue(Value(c).value);
    ValueInjective(c, Digit(Value(c).value));
  }

  lemma SextetsBack(a: byte, b: byte, c: byte)
    ensures var d := Sextets(a, b, c); Bytes3(d[0], d[1], d[2], d[3]) == [a, b, c]
  {
    var d := Sextets(a, b, c);
    assert d[1] / 16 == a % 4 && d[1] % 16 == b / 16;
    assert d[2] / 4 == b % 16 && d[2] % 4 == c / 64;
  }

  lemma BytesBack(x: nat, y: nat, z: nat, w: nat)
    requires x < 64 && y < 64 && z < 64 && w < 64
    ensures var b := Bytes3(x, y, z, w); Sextets(b[0], b[1], b[2]) == [x, y, z, w]
  {
    HighSextets(x, y, z);
    LowSextets(y, z, w);
  }

  lemma HighSextets(x: nat, y: nat, z: nat)
    requires x < 64 && y < 64 && z < 64
    ensures var a, b := (x * 4 + y / 16) % 256, (y % 16 * 16 + z / 4) % 256; a / 4 == x && a % 4 * 16 + b / 16 == y
  {
    DivModOf(4, x, y / 16);
    DivModOf(16, y % 16, z / 4);
  }

  lemma LowSextets(y: nat, z: nat, w: nat)
    requires y < 64 && z < 64 && w < 64
    ensures var b, c := (y % 16 * 16 + z / 4) % 256, (z % 4 * 64 + w) % 256; b % 16 * 4 + c / 64 == z && c % 64 == w
  {
    DivModOf(16, y % 16, z / 4);
    DivModOf(64, z % 4, w);
  }

  // ---- Round trip ----

  lemma DigitsValues(a: byte, b: byte, c: byte)
    ensures var t, d := Digits(a, b, c), Sextets(a, b, c);
      forall i :: 0 <= i < 4 ==> Value(t[i]) == Some(d[i]) && t[i] != '=' && t[i] != '\0'
  {
    hide Digit, Value;
    var d := Sextets(a, b, c);
    DigitValue(d[0]);
    DigitValue(d[1]);
    DigitValue(d[2]);
    DigitValue(d[3]);
  }

  lemma DecodeOfEncodeOne(a: byte)
    ensures Decode(Encode([a])) == Some([a])
  {
    hide Digits, Value, Sextets, Bytes3;
    var t := Encode([a]);
    DigitsValues(a, 0, 0);
    SextetsBack(a, 0, 0);
    PadSextets(a, 0);
    var u := Digits(a, 0, 0);
    assert t == [u[0], u[1], '=', '='];
    assert [a, 0, 0][..1] == [a];
    assert DecodeShort(t) == Some([a, 0, 0][..1]);
  }

  lemma DecodeOfEncodeTwo(a: byte, b: byte)
    ensures Decode(Encode([a, b])) == Some([a, b])
  {
    hide Digits, Value, Sextets, Bytes3;
    var t := Encode([a, b]);
    DigitsValues(a, b, 0);
    SextetsBack(a, b, 0);
    PadSextets(a, b);
    var u := Digits(a, b, 0);
    assert t == [u[0], u[1], u[2], '='];
    assert [a, b, 0][..2] == [a, b];
    assert DecodeShort(t) == Some([a, b, 0][..2]);
  }

  /** Decoding recovers the bytes. */
  lemma {:induction false} DecodeOfEncode(s: seq<byte>)
    ensures Decode(Encode(s)) == Some(s)
    decreases |s|
  {
    hide Digits, Value, Sextets, Bytes3;
    if |s| == 1 {
      DecodeOfEncodeOne(s[0]);
      assert s == [s[0]];
    } else if |s| == 2 {
      DecodeOfEncodeTwo(s[0], s[1]);
      assert s == [s[0], s[1]];
    } else if |s| >= 3 {
      DigitsValues(s[0], s[1], s[2]);
      SextetsBack(s[0], s[1], s[2]);
      DecodeOfEncode(s[3..]);
      assert Encode(s)[4..] == Encode(s[3..]);
      assert s == [s[0], s[1], s[2]] + s[3..];
    }
  }

  lemma PadSextets(a: byte, b: byte)
    ensures var d := Sextets(a, 0, 0); d[1] % 16 == 0 && d[2] == 0 && d[3] == 0
    ensures var d := Sextets(a, b, 0); d[2] % 4 == 0 && d[3] == 0
  {
  }

  lemma ValuesDigits(t: string)
    requires |t| >= 4 && forall i :: 0 <= i < 4 ==> Value(t[i]).Some?
    ensures var b := Bytes3(Value(t[0]).value, Value(t[1]).value, Value(t[2]).value, Value(t[3]).value);
      Digits(b[0], b[1], b[2]) == t[..4]
  {
    hide Digit, Value, Sextets, Bytes3;
    ValueDigit(t[0]);
    ValueDigit(t[1]);
    ValueDigit(t[2]);
    ValueDigit(t[3]);
    BytesBack(Value(t[0]).value, Value(t[1]).value, Value(t[2]).value, Value(t[3]).value);
  }

  /** Every text the decoder accepts is the encoding of what it decodes to. */
  lemma {:induction false} EncodeOfDecode(t: string)
    requires Decode(t).Some?
    ensures Encode(Decode(t).value) == t
    decreases |t|
  {
    hide Digits, Value, Bytes3;
    if |t| == 4 && t[3] == '=' {
      EncodeOfDecodeShort(t);
    } else if t != [] {
      ValuesDigits(t);
      EncodeOfDecode(t[4..]);
      var s, b := Decode(t).value, Bytes3(Value(t[0]).value, Value(t[1]).value, Value(t[2]).value, Value(t[3]).value);
      assert s[3..] == Decode(t[4..]).value;
      assert t == t[..4] + t[4..];
    }
  }

  lemma EncodeOfDecodeShort(t: string)
    requires |t| == 4 && t[3] == '=' && DecodeShort(t).Some?
    ensures Encode(DecodeShort(t).value) == t
  {
    hide Digits;
    if t[2] == '=' {
      ZeroDigit();
      var u := [t[0], t[1], 'A', 'A'];
      ValuesDigits(u);
    } else {
      ZeroDigit();
      var u := [t[0], t[1], t[2], 'A'];
      ValuesDigits(u);
    }
  }

  lemma ZeroDigit()
    ensures Value('A') == Some(0)
  {
  }

  /** The decoder accepts exactly the encodings, each for its own bytes. */
  lemma DecodeIffEncode(t: string, s: seq<byte>)
    ensures Decode(t) == Some(s) <==> t == Encode(s)
  {
    DecodeOfEncode(s);
    if Decode(t) == Some(s) {
      EncodeOfDecode(t);
    }
  }

  // ---- The encoders ----

  function Groups(n: nat): nat {
    (n + 2) / 3
  }

  lemma {:induction false} EncodeShape(s: seq<byte>)
    ensures |Encode(s)| == 4 * Groups(|s|) && '\0' !in Encode(s)
    decreases |s|
  {
    hide Digits, Sextets;
    if |s| == 1 {
      DigitsValues(s[0], 0, 0);
    } else if |s| == 2 {
      DigitsValues(s[0], s[1], 0);
    } else if |s| >= 3 {
      DigitsValues(s[0], s[1], s[2]);
      EncodeShape(s[3..]);
    }
  }

  lemma {:induction false} EncodeAppend(s: seq<byte>, t: seq<byte>)
    requires |s| % 3 == 0
    ensures Encode(s + t) == Encode(s) + Encode(t)
    decreases |s|
  {
    hide Digits;
    if s == [] {
      assert s + t == t;
    } else {
      EncodeAppend(s[3..], t);
      assert (s + t)[3..] == s[3..] + t;
    }
  }

  /** A buffer holding a NUL-terminated text. */
  predicate HoldsText(buffer: seq<char>, text: string) {
    |text| < |buffer| && buffer[..|text|] == text && '\0' !in text && buffer[|text|] == '\0'
  }

  /** (octet_a << 16) | (octet_b << 8) | octet_c, on fields that do not overlap. */
  function Triple(a: byte, b: byte, c: byte): nat {
    a * 0x1_0000 + b * 0x100 + c
  }

  lemma TripleSextets(a: byte, b: byte, c: byte)
    ensures var t, d := Triple(a, b, c), Sextets(a, b, c);
      t / 0x4_0000 % 0x40 == d[0] && t / 0x1000 % 0x40 == d[1] && t / 0x40 % 0x40 == d[2] && t % 0x40 == d[3]
  {
    TripleHigh(a, b, c);
    TripleLow(a, b, c);
  }

  lemma TripleHigh(a: byte, b: byte, c: byte)
    ensures var t := Triple(a, b, c); t / 0x4_0000 % 0x40 == a / 4 && t / 0x1000 % 0x40 == a % 4 * 16 + b / 16
  {
    DivModOf(0x4_0000, a / 4, a % 4 * 0x1_0000 + b * 0x100 + c);
    DivModOf(0x1000, a * 16 + b / 16, b % 16 * 0x100 + c);
    DivModOf(0x40, a / 4, a % 4 * 16 + b / 16);
  }

  lemma TripleLow(a: byte, b: byte, c: byte)
    ensures var t := Triple(a, b, c); t / 0x40 % 0x40 == b % 16 * 4 + c / 64 && t % 0x40 == c % 64
  {
    DivModOf(0x40, a * 0x400 + b * 4 + c / 64, c % 64);
    DivModOf(0x40, a * 16 + b / 16, b % 16 * 4 + c / 64);
  }

  /** Bytes past the end of the input read as zero. */
  function At(data: seq<byte>, i: nat): byte {
    if i < |data| then data[i] else 0
  }

  /** The first n groups, every group written with four digits. */
  function Unpadded(data: seq<byte>, n: nat): (t: string)
    ensures |t| == 4 * n
  {
    if n == 0 then [] else Unpadded(data, n - 1) + Digits(At(data, 3 * n - 3), At(data, 3 * n - 2), At(data, 3 * n - 1))
  }

  lemma {:induction false} UnpaddedPrefix(data: seq<byte>, n: nat)
    requires 3 * n <= |data|
    ensures Unpadded(data, n) == Encode(data[..3 * n])
    decreases n
  {
    hide Digits, Encode;
    if n == 0 {
      EncodeShape(data[..0]);
    } else {
      var last := data[3 * n - 3..3 * n];
      UnpaddedPrefix(data, n - 1);
      EncodeAppend(data[..3 * n - 3], last);
      assert data[..3 * n] == data[..3 * n - 3] + last;
      EncodeThree(last);
    }
  }

  lemma EncodeThree(s: seq<byte>)
    requires |s| == 3
    ensures Encode(s) == Digits(s[0], s[1], s[2])
  {
    assert s[3..] == [];
  }

  /** What the fix-up after the loop makes of the unpadded text. */
  function Padded(data: seq<byte>): string {
    var t := Unpadded(data, Groups(|data|));
    if |data| % 3 == 1 then t[..|t| - 2] + "=="
    else if |data| % 3 == 2 then t[..|t| - 1] + "="
    else t
  }

  lemma PaddedIsEncode(data: seq<byte>)
    ensures Padded(data) == Encode(data)
  {
    hide Digits, Encode, Unpadded;
    var n := |data| / 3;
    UnpaddedPrefix(data, n);
    if |data| % 3 == 0 {
      assert data[..3 * n] == data;
    } else {
      EncodeAppend(data[..3 * n], data[3 * n..]);
      assert data == data[..3 * n] + data[3 * n..];
      if |data| % 3 == 1 {
        LastOfOne(data, n);
      } else {
        LastOfTwo(data, n);
      }
    }
  }

  lemma CutLast(front: string, group: string, k: nat, pad: string)
    requires k <= |group|
    ensures (front + group)[..|front + group| - k] + pad == front + (group[..|group| - k] + pad)
  {
    assert (front + group)[..|front + group| - k] == front + group[..|group| - k];
  }

  lemma EncodeOne(a: byte)
    ensures Encode([a]) == Digits(a, 0, 0)[..2] + "=="
  {
    hide Digits;
  }

  lemma EncodeTwo(a: byte, b: byte)
    ensures Encode([a, b]) == Digits(a, b, 0)[..3] + "="
  {
    hide Digits;
  }

  lemma LastGroup(data: seq<byte>, n: nat)
    requires 3 * n < |data| < 3 * n + 3
    ensures Groups(|data|) == n + 1 && |data| % 3 == |data| - 3 * n
    ensures Unpadded(data, n + 1) ==
      Unpadded(data, n) + Digits(data[3 * n], At(data, 3 * n + 1), 0)
  {
    hide Digits, Unpadded;
    UnpaddedStep(data, n + 1);
  }

  lemma LastOfOne(data: seq<byte>, n: nat)
    requires |data| == 3 * n + 1
    ensures Padded(data) == Unpadded(data, n) + Encode(data[3 * n..])
  {
    hide Digits, Unpadded, Encode, Groups, At;
    LastGroup(data, n);
    assert At(data, 3 * n + 1) == 0 by { PastEnd(data, 3 * n + 1); }
    EncodeOne(data[3 * n]);
    assert data[3 * n..] == [data[3 * n]];
    CutLast(Unpadded(data, n), Digits(data[3 * n], 0, 0), 2, "==");
  }

  lemma PastEnd(data: seq<byte>, i: nat)
    ensures At(data, i) == if i < |data| then data[i] else 0
  {
  }

  lemma LastOfTwo(data: seq<byte>, n: nat)
    requires |data| == 3 * n + 2
    ensures Padded(data) == Unpadded(data, n) + Encode(data[3 * n..])
  {
    hide Digits, Unpadded, Encode, Groups, At;
    LastGroup(data, n);
    PastEnd(data, 3 * n + 1);
    EncodeTwo(data[3 * n], data[3 * n + 1]);
    assert data[3 * n..] == [data[3 * n], data[3 * n + 1]];
    CutLast(Unpadded(data, n), Digits(data[3 * n], data[3 * n + 1], 0), 1, "=");
  }

  /** One turn of the loop of base64_encode in control_server.c; i never passes len, so its '=' tests never fire. */
  method EmitGroup(data: seq<byte>, at: nat, out: array<char>, start: nat) returns (i: nat, pos: nat)
    requires at < |data| && start + 4 < out.Length
    modifies out
    ensures i == Min(at + 3, |data|) && pos == start + 4
    ensures out[..pos] == old(out[..start]) + Digits(data[at], At(data, at + 1), At(data, at + 2))
  {
    hide Digits, Sextets, Triple;
    i, pos := at, start;
    var octetA: byte, octetB: byte, octetC: byte := data[i], 0, 0;
    i := i + 1;
    if i < |data| {
      octetB := data[i];
      i := i + 1;
    }
    if i < |data| {
      octetC := data[i];
      i := i + 1;
    }
    var triple := Triple(octetA, octetB, octetC);
    TripleSextets(octetA, octetB, octetC);
    DigitsAre(octetA, octetB, octetC);
    out[pos] := Digit(triple / 0x4_0000 % 0x40);
    out[pos + 1] := Digit(triple / 0x1000 % 0x40);
    out[pos + 2] := if i - 1 > |data| then '=' else Digit(triple / 0x40 % 0x40);
    out[pos + 3] := if i > |data| then '=' else Digit(triple % 0x40);
    pos := pos + 4;
  }

  lemma DigitsAre(a: byte, b: byte, c: byte)
    ensures var d := Sextets(a, b, c); Digits(a, b, c) == [Digit(d[0]), Digit(d[1]), Digit(d[2]), Digit(d[3])]
  {
  }

  /**
   * base64_encode of control_server.c: the encoding exactly when it fits with its terminator, and always
   * terminated.
   */
  method Base64Encode(data: seq<byte>, out: array<char>)
    requires out.Length > 0
    modifies out
    ensures HoldsText(out[..], Encode(data)) <==> out.Length >= 4 * Groups(|data|) + 1
    ensures '\0' in out[..]
  {
    hide Digits, Digit, Unpadded, Encode;
    var i, pos := 0, 0;
    ghost var n := 0;
    while i < |data| && pos + 4 < out.Length
      invariant pos == 4 * n < out.Length && n <= Groups(|data|) && i == Min(3 * n, |data|)
      invariant out[..pos] == Unpadded(data, n)
    {
      UnpaddedStep(data, n + 1);
      i, pos := EmitGroup(data, i, out, pos);
      n := n + 1;
    }
    out[pos] := '\0';
    if |data| % 3 == 1 && pos >= 2 {
      out[pos - 2] := '=';
      out[pos - 1] := '=';
    } else if |data| % 3 == 2 && pos >= 1 {
      out[pos - 1] := '=';
    }
    assert out[pos] == '\0';
    EncodeShape(data);
    if i == |data| {
      assert n == Groups(|data|);
      PaddedIsEncode(data);
      assert out[..pos] == Padded(data);
    }
  }

  lemma UnpaddedStep(data: seq<byte>, n: nat)
    requires n > 0
    ensures Unpadded(data, n) ==
      Unpadded(data, n - 1) + Digits(At(data, 3 * n - 3), At(data, 3 * n - 2), At(data, 3 * n - 1))
  {
  }

  // ---- demo_base64_encode ----

  function Shift(i: nat): nat {
    if i == 0 then 0x1_0000 else if i == 1 then 0x100 else 1
  }

  /** The block after n bytes: each byte at its own shift. */
  ghost function Block(data: seq<byte>, at: nat, n: nat): nat
    requires at + n <= |data| && n <= 3
  {
    if n == 0 then 0 else Shifted(Block(data, at, n - 1), data[at + n - 1], n - 1)
  }

  function Shifted(block: nat, octet: nat, i: nat): nat {
    block + octet * Shift(i)
  }

  lemma BlockIsTriple(data: seq<byte>, at: nat)
    requires at < |data|
    ensures Block(data, at, Min(3, |data| - at)) == Triple(data[at], At(data, at + 1), At(data, at + 2))
  {
    assert Block(data, at, 1) == data[at] as int * 0x1_0000;
    if at + 1 < |data| {
      assert Block(data, at, 2) == data[at] as int * 0x1_0000 + data[at + 1] as int * 0x100;
    }
  }

  /** The inner loop: gather up to three bytes into a 24-bit block. */
  method GatherBlock(data: seq<byte>, at: nat) returns (take: nat, block: nat)
    requires at < |data|
    ensures take == Min(3, |data| - at)
    ensures block == Triple(data[at], At(data, at + 1), At(data, at + 2))
  {
    hide Triple, Shifted;
    var remain := |data| - at;
    take := if remain >= 3 then 3 else remain;
    block := 0;
    for i := 0 to take
      invariant block == Block(data, at, i)
    {
      block := Shifted(block, data[at + i], i);
    }
    BlockIsTriple(data, at);
  }

  /** demo_base64_encode: succeeds exactly when the text fits with its terminator, and then writes it. */
  method DemoBase64Encode(data: seq<byte>, out: array<char>) returns (r: int)
    modifies out
    ensures r == 0 || r == -1
    ensures r == 0 <==> out.Length >= 4 * Groups(|data|) + 1
    ensures r == 0 ==> HoldsText(out[..], Encode(data))
  {
    hide Digits, Encode, Triple;
    var inPos, outPos := 0, 0;
    EncodeShape(data);
    EncodeShape(data[..0]);
    while inPos < |data|
      invariant inPos <= |data| && outPos == 4 * Groups(inPos) && (outPos < out.Length || outPos == 0)
      invariant inPos < |data| ==> inPos % 3 == 0
      invariant out[..outPos] == Encode(data[..inPos])
    {
      var take, block := GatherBlock(data, inPos);
      if outPos + 4 >= out.Length {
        GroupsMonotone(inPos, |data|);
        return -1;
      }
      BlockText(data, inPos, take);
      outPos := PutBlock(out, outPos, take, block, data[inPos], At(data, inPos + 1), At(data, inPos + 2));
      inPos := inPos + take;
    }
    assert data[..|data|] == data;
    if outPos >= out.Length {
      return -1;
    }
    out[outPos] := '\0';
    return 0;
  }

  lemma GroupsMonotone(i: nat, n: nat)
    requires i < n && i % 3 == 0
    ensures Groups(i) + 1 <= Groups(n)
  {
  }

  /** The text of one block of take bytes. */
  function BlockDigits(take: nat, a: byte, b: byte, c: byte): string {
    var d := Digits(a, b, c);
    [d[0], d[1], if take >= 2 then d[2] else '=', if take == 3 then d[3] else '=']
  }

  lemma BlockText(data: seq<byte>, at: nat, take: nat)
    requires at < |data| && at % 3 == 0 && take == Min(3, |data| - at)
    ensures Encode(data[..at + take]) ==
      Encode(data[..at]) + BlockDigits(take, data[at], At(data, at + 1), At(data, at + 2))
  {
    hide Digits;
    var last := data[at..at + take];
    EncodeAppend(data[..at], last);
    assert data[..at + take] == data[..at] + last;
    if take == 3 {
      EncodeThree(last);
    }
  }

  method PutBlock(out: array<char>, start: nat, take: nat, block: nat, ghost a: byte, ghost b: byte, ghost c: byte)
    returns (pos: nat)
    requires start + 4 < out.Length && block == Triple(a, b, c)
    modifies out
    ensures pos == start + 4
    ensures out[..pos] == old(out[..start]) + BlockDigits(take, a, b, c)
  {
    hide Digits, Sextets, Triple;
    TripleSextets(a, b, c);
    DigitsAre(a, b, c);
    pos := start;
    out[pos] := Digit(block / 0x4_0000 % 0x40);
    out[pos + 1] := Digit(block / 0x1000 % 0x40);
    out[pos + 2] := if take >= 2 then Digit(block / 0x40 % 0x40) else '=';
    out[pos + 3] := if take == 3 then Digit(block % 0x40) else '=';
    pos := pos + 4;
  }
}
