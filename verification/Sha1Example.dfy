/** The one-block example of FIPS 180-4: the digest of "abc", word by word and round by round. */
module Sha1Example {
  import opened Bytes
  import opened Sha1Spec

  // ---- The constants of sections 4.2.1 and 5.3.1 ----

  /** Each constant is the integer part of 2^30 times the square root of 2, 3, 5 or 10, by quarter. */
  lemma ConstantsAreRoots(t: nat)
    ensures var k, r := K(t) as int, if t < 20 then 2 else if t < 40 then 3 else if t < 60 then 5 else 10;
      k * k <= r * 0x1000_0000_0000_0000 < (k + 1) * (k + 1)
  {
    if t < 20 {
      assert K(t) as int == 0x5a827999;
    } else if t < 40 {
      assert K(t) as int == 0x6ed9eba1;
    } else if t < 60 {
      assert K(t) as int == 0x8f1bbcdc;
    } else {
      assert K(t) as int == 0xca62c1d6;
    }
  }

  // ---- The example ----

  const ABC: seq<byte> := [97, 98, 99]

  /** The padded message: its only block. */
  function Block(): (b: seq<byte>)
    ensures |b| == 64
  {
    [97, 98, 99, 128] + Zeros(59) + [24]
  }

  /** The schedule word t, when the four words it mixes are known. */
  lemma Word(block: seq<byte>, t: nat, w: bv32)
    requires |block| == 64 && t >= 16
    requires w == Mix(Schedule(block, t - 3), Schedule(block, t - 8), Schedule(block, t - 14), Schedule(block, t - 16))
    ensures Schedule(block, t) == w
  {
    hide Mix;
    ScheduleStep(block, t);
  }

  lemma BlockBytes()
    ensures Block()[0] == 97 && Block()[1] == 98 && Block()[2] == 99 && Block()[3] == 128 && Block()[63] == 24
    ensures forall i :: 4 <= i < 63 ==> Block()[i] == 0
  {
  }

  lemma ThreeWords()
    ensures BigEndianWord(97, 98, 99, 128) == 0x61626380
    ensures BigEndianWord(0, 0, 0, 0) == 0 && BigEndianWord(0, 0, 0, 24) == 24
  {
  }

  lemma FirstWord(block: seq<byte>, t: nat)
    requires block == Block() && t < 16
    ensures Schedule(block, t) == if t == 0 then 0x61626380 else if t == 15 then 24 else 0
  {
    hide Schedule, BigEndianWord, Block;
    BlockBytes();
    ThreeWords();
    ScheduleStep(block, t);
  }

  lemma FirstWords(block: seq<byte>)
    requires block == Block()
    ensures Schedule(block, 0) == 0x61626380 && Schedule(block, 15) == 24
    ensures forall t :: 1 <= t < 15 ==> Schedule(block, t) == 0
  {
    hide Schedule, Block;
    forall t | 0 <= t < 16
      ensures Schedule(block, t) == if t == 0 then 0x61626380 else if t == 15 then 24 else 0
    {
      FirstWord(block, t);
    }
  }

  lemma Words16(block: seq<byte>)
    requires block == Block()
    ensures Schedule(block, 16) == 0xc2c4c700 && Schedule(block, 17) == 0x00000000
    ensures Schedule(block, 18) == 0x00000030 && Schedule(block, 19) == 0x85898e01
    ensures Schedule(block, 20) == 0x00000000 && Schedule(block, 21) == 0x00000060
    ensures Schedule(block, 22) == 0x0b131c03 && Schedule(block, 23) == 0x00000030
    ensures Schedule(block, 24) == 0x85898ec1 && Schedule(block, 25) == 0x16263806
    ensures Schedule(block, 26) == 0x00000000 && Schedule(block, 27) == 0x00000180
    ensures Schedule(block, 28) == 0x2c4c700c && Schedule(block, 29) == 0x000000f0
    ensures Schedule(block, 30) == 0x93afb507 && Schedule(block, 31) == 0x5898e048
    ensures Schedule(block, 32) == 0x8e9a9202 && Schedule(block, 33) == 0x00000600
    ensures Schedule(block, 34) == 0xb131c0f0 && Schedule(block, 35) == 0x16263bc6
    ensures Schedule(block, 36) == 0x4ebed41e && Schedule(block, 37) == 0x626380a1
    ensures Schedule(block, 38) == 0x16263806 && Schedule(block, 39) == 0x000018c0
    ensures Schedule(block, 40) == 0xd2e138c4 && Schedule(block, 41) == 0x00000f00
    ensures Schedule(block, 42) == 0x3afb5079 && Schedule(block, 43) == 0x898e04e5
    ensures Schedule(block, 44) == 0xe2ba3c2b && Schedule(block, 45) == 0x000060c0
    ensures Schedule(block, 46) == 0x053a37cd && Schedule(block, 47) == 0x74458547
  {
    hide Schedule, Block;
    FirstWords(block);
    Word(block, 16, 0xc2c4c700);
    Word(block, 17, 0x00000000);
    Word(block, 18, 0x00000030);
    Word(block, 19, 0x85898e01);
    Word(block, 20, 0x00000000);
    Word(block, 21, 0x00000060);
    Word(block, 22, 0x0b131c03);
    Word(block, 23, 0x00000030);
    Word(block, 24, 0x85898ec1);
    Word(block, 25, 0x16263806);
    Word(block, 26, 0x00000000);
    Word(block, 27, 0x00000180);
    Word(block, 28, 0x2c4c700c);
    Word(block, 29, 0x000000f0);
    Word(block, 30, 0x93afb507);
    Word(block, 31, 0x5898e048);
    Word(block, 32, 0x8e9a9202);
    Word(block, 33, 0x00000600);
    Word(block, 34, 0xb131c0f0);
    Word(block, 35, 0x16263bc6);
    Word(block, 36, 0x4ebed41e);
    Word(block, 37, 0x626380a1);
    Word(block, 38, 0x16263806);
    Word(block, 39, 0x000018c0);
    Word(block, 40, 0xd2e138c4);
    Word(block, 41, 0x00000f00);
    Word(block, 42, 0x3afb5079);
    Word(block, 43, 0x898e04e5);
    Word(block, 44, 0xe2ba3c2b);
    Word(block, 45, 0x000060c0);
    Word(block, 46, 0x053a37cd);
    Word(block, 47, 0x74458547);
  }

  lemma Words48(block: seq<byte>)
    requires block == Block()
    ensures Schedule(block, 48) == 0xda9415ed && Schedule(block, 49) == 0x26380a16
    ensures Schedule(block, 50) == 0x626383a1 && Schedule(block, 51) == 0x4ebf54de
    ensures Schedule(block, 52) == 0x3835b44b && Schedule(block, 53) == 0x0000f600
    ensures Schedule(block, 54) == 0x1e84c7a3 && Schedule(block, 55) == 0x98e04d98
    ensures Schedule(block, 56) == 0x651d16a0 && Schedule(block, 57) == 0x62658ca1
    ensures Schedule(block, 58) == 0x458544d6 && Schedule(block, 59) == 0x44584cb7
    ensures Schedule(block, 60) == 0x7ba06619 && Schedule(block, 61) == 0x6380aea2
    ensures Schedule(block, 62) == 0x0ae55269 && Schedule(block, 63) == 0x627b49a1
    ensures Schedule(block, 64) == 0x7cd45c9d && Schedule(block, 65) == 0x000f0000
    ensures Schedule(block, 66) == 0xfb50753a && Schedule(block, 67) == 0xec6765e8
    ensures Schedule(block, 68) == 0xba3c2be2 && Schedule(block, 69) == 0x0060c000
    ensures Schedule(block, 70) == 0x3a37cd05 && Schedule(block, 71) == 0x458546f4
    ensures Schedule(block, 72) == 0xb8599dd6 && Schedule(block, 73) == 0x380a1a26
    ensures Schedule(block, 74) == 0x01e02203 && Schedule(block, 75) == 0xe7cc3456
    ensures Schedule(block, 76) == 0xe6e60b69 && Schedule(block, 77) == 0x00f60a00
    ensures Schedule(block, 78) == 0x5795ef4f && Schedule(block, 79) == 0x822e0879
  {
    hide Schedule, Block;
    Words16(block);
    Word(block, 48, 0xda9415ed);
    Word(block, 49, 0x26380a16);
    Word(block, 50, 0x626383a1);
    Word(block, 51, 0x4ebf54de);
    Word(block, 52, 0x3835b44b);
    Word(block, 53, 0x0000f600);
    Word(block, 54, 0x1e84c7a3);
    Word(block, 55, 0x98e04d98);
    Word(block, 56, 0x651d16a0);
    Word(block, 57, 0x62658ca1);
    Word(block, 58, 0x458544d6);
    Word(block, 59, 0x44584cb7);
    Word(block, 60, 0x7ba06619);
    Word(block, 61, 0x6380aea2);
    Word(block, 62, 0x0ae55269);
    Word(block, 63, 0x627b49a1);
    Word(block, 64, 0x7cd45c9d);
    Word(block, 65, 0x000f0000);
    Word(block, 66, 0xfb50753a);
    Word(block, 67, 0xec6765e8);
    Word(block, 68, 0xba3c2be2);
    Word(block, 69, 0x0060c000);
    Word(block, 70, 0x3a37cd05);
    Word(block, 71, 0x458546f4);
    Word(block, 72, 0xb8599dd6);
    Word(block, 73, 0x380a1a26);
    Word(block, 74, 0x01e02203);
    Word(block, 75, 0xe7cc3456);
    Word(block, 76, 0xe6e60b69);
    Word(block, 77, 0x00f60a00);
    Word(block, 78, 0x5795ef4f);
    Word(block, 79, 0x822e0879);
  }

  /** The state after round t, when the state before it and the round's word are known. */
  lemma Step(block: seq<byte>, t: nat, w: bv32, h: Words, a: bv32) returns (r: Words)
    requires |block| == 64 && Schedule(block, t) == w && Rounds(block, INITIAL, t) == h
    requires a == Sum5(Rotl5(h.a), F(t, h.b, h.c, h.d), h.e, K(t), w)
    ensures r == Words(a, h.a, Rotl30(h.b), h.c, h.d) && Rounds(block, INITIAL, t + 1) == r
  {
    hide Schedule, Sum5, Rotl5, Rotl30, F, K;
    r := Round(t, w, h);
  }

  lemma Rounds20(block: seq<byte>)
    requires block == Block()
    ensures Rounds(block, INITIAL, 20) ==
      Words(0xfd9e1d7d, 0xdc64901d, 0x20aa99ca, 0xd3a49608, 0xc82f758b)
  {
    hide Schedule, Rounds, Block;
    FirstWords(block);
    Words16(block);
    NoRounds(block);
    var s := Words(0x67452301, 0xefcdab89, 0x98badcfe, 0x10325476, 0xc3d2e1f0);
    s := Step(block, 0, 0x61626380, s, 0x0116fc33);
    s := Step(block, 1, 0x00000000, s, 0x8990536d);
    s := Step(block, 2, 0x00000000, s, 0xa1390f08);
    s := Step(block, 3, 0x00000000, s, 0xcdd8e11b);
    s := Step(block, 4, 0x00000000, s, 0xcfd499de);
    s := Step(block, 5, 0x00000000, s, 0x3fc7ca40);
    s := Step(block, 6, 0x00000000, s, 0x993e30c1);
    s := Step(block, 7, 0x00000000, s, 0x9e8c07d4);
    s := Step(block, 8, 0x00000000, s, 0x4b6ae328);
    s := Step(block, 9, 0x00000000, s, 0x8351f929);
    s := Step(block, 10, 0x00000000, s, 0xfbda9e89);
    s := Step(block, 11, 0x00000000, s, 0x63188fe4);
    s := Step(block, 12, 0x00000000, s, 0x4607b664);
    s := Step(block, 13, 0x00000000, s, 0x9128f695);
    s := Step(block, 14, 0x00000000, s, 0x196bee77);
    s := Step(block, 15, 0x00000018, s, 0x20bdd62f);
    s := Step(block, 16, 0xc2c4c700, s, 0x4e925823);
    s := Step(block, 17, 0x00000000, s, 0x82aa6728);
    s := Step(block, 18, 0x00000030, s, 0xdc64901d);
    s := Step(block, 19, 0x85898e01, s, 0xfd9e1d7d);
  }

  lemma Rounds40(block: seq<byte>)
    requires block == Block()
    ensures Rounds(block, INITIAL, 40) ==
      Words(0x32de1cba, 0x4c986405, 0xf718e5cf, 0x03d447f6, 0xf72eec32)
  {
    hide Schedule, Rounds, Block;
    Words16(block);
    Rounds20(block);
    var s := Words(0xfd9e1d7d, 0xdc64901d, 0x20aa99ca, 0xd3a49608, 0xc82f758b);
    s := Step(block, 20, 0x00000000, s, 0x1a37b0ca);
    s := Step(block, 21, 0x00000060, s, 0x33a23bfc);
    s := Step(block, 22, 0x0b131c03, s, 0x21283486);
    s := Step(block, 23, 0x00000030, s, 0xd541f12d);
    s := Step(block, 24, 0x85898ec1, s, 0xc7567dc6);
    s := Step(block, 25, 0x16263806, s, 0x48413ba4);
    s := Step(block, 26, 0x00000000, s, 0xbe35fbd5);
    s := Step(block, 27, 0x00000180, s, 0x4aa84d97);
    s := Step(block, 28, 0x2c4c700c, s, 0x8370b52e);
    s := Step(block, 29, 0x000000f0, s, 0xc5fbaf5d);
    s := Step(block, 30, 0x93afb507, s, 0x1267b407);
    s := Step(block, 31, 0x5898e048, s, 0x3b845d33);
    s := Step(block, 32, 0x8e9a9202, s, 0x046faa0a);
    s := Step(block, 33, 0x00000600, s, 0x2c0ebc11);
    s := Step(block, 34, 0xb131c0f0, s, 0x21796ad4);
    s := Step(block, 35, 0x16263bc6, s, 0xdcbbb0cb);
    s := Step(block, 36, 0x4ebed41e, s, 0x0f511fd8);
    s := Step(block, 37, 0x626380a1, s, 0xdc63973f);
    s := Step(block, 38, 0x16263806, s, 0x4c986405);
    s := Step(block, 39, 0x000018c0, s, 0x32de1cba);
  }

  lemma Rounds60(block: seq<byte>)
    requires block == Block()
    ensures Rounds(block, INITIAL, 60) ==
      Words(0x3f52de5a, 0x09d785fd, 0x3498bfd4, 0xf211824f, 0xd79915ab)
  {
    hide Schedule, Rounds, Block;
    Words16(block);
    Words48(block);
    Rounds40(block);
    var s := Words(0x32de1cba, 0x4c986405, 0xf718e5cf, 0x03d447f6, 0xf72eec32);
    s := Step(block, 40, 0xd2e138c4, s, 0xfc87dedf);
    s := Step(block, 41, 0x00000f00, s, 0x970a0d5c);
    s := Step(block, 42, 0x3afb5079, s, 0x7f193dc5);
    s := Step(block, 43, 0x898e04e5, s, 0xee1b1aaf);
    s := Step(block, 44, 0xe2ba3c2b, s, 0x40f28e09);
    s := Step(block, 45, 0x000060c0, s, 0x1c51e1f2);
    s := Step(block, 46, 0x053a37cd, s, 0xa01b846c);
    s := Step(block, 47, 0x74458547, s, 0xbead02ca);
    s := Step(block, 48, 0xda9415ed, s, 0xbaf39337);
    s := Step(block, 49, 0x26380a16, s, 0x120731c5);
    s := Step(block, 50, 0x626383a1, s, 0x641db2ce);
    s := Step(block, 51, 0x4ebf54de, s, 0x3847ad66);
    s := Step(block, 52, 0x3835b44b, s, 0xe490436d);
    s := Step(block, 53, 0x0000f600, s, 0x27e9f1d8);
    s := Step(block, 54, 0x1e84c7a3, s, 0x7b71f76d);
    s := Step(block, 55, 0x98e04d98, s, 0x5e6456af);
    s := Step(block, 56, 0x651d16a0, s, 0xc846093f);
    s := Step(block, 57, 0x62658ca1, s, 0xd262ff50);
    s := Step(block, 58, 0x458544d6, s, 0x09d785fd);
    s := Step(block, 59, 0x44584cb7, s, 0x3f52de5a);
  }

  lemma Rounds80(block: seq<byte>)
    requires block == Block()
    ensures Rounds(block, INITIAL, 80) ==
      Words(0x42541b35, 0x5738d5e1, 0x21834873, 0x681e6df6, 0xd8fdf6ad)
  {
    hide Schedule, Rounds, Block;
    Words48(block);
    Rounds60(block);
    var s := Words(0x3f52de5a, 0x09d785fd, 0x3498bfd4, 0xf211824f, 0xd79915ab);
    s := Step(block, 60, 0x7ba06619, s, 0xd756c147);
    s := Step(block, 61, 0x6380aea2, s, 0x548c9cb2);
    s := Step(block, 62, 0x0ae55269, s, 0xb66c020b);
    s := Step(block, 63, 0x627b49a1, s, 0x6b61c9e1);
    s := Step(block, 64, 0x7cd45c9d, s, 0x19dfa7ac);
    s := Step(block, 65, 0x000f0000, s, 0x101655f9);
    s := Step(block, 66, 0xfb50753a, s, 0x0c3df2b4);
    s := Step(block, 67, 0xec6765e8, s, 0x78dd4d2b);
    s := Step(block, 68, 0xba3c2be2, s, 0x497093c0);
    s := Step(block, 69, 0x0060c000, s, 0x3f2588c2);
    s := Step(block, 70, 0x3a37cd05, s, 0xc199f8c7);
    s := Step(block, 71, 0x458546f4, s, 0x39859de7);
    s := Step(block, 72, 0xb8599dd6, s, 0xedb42de4);
    s := Step(block, 73, 0x380a1a26, s, 0x11793f6f);
    s := Step(block, 74, 0x01e02203, s, 0x5ee76897);
    s := Step(block, 75, 0xe7cc3456, s, 0x63f7dab7);
    s := Step(block, 76, 0xe6e60b69, s, 0xa079b7d9);
    s := Step(block, 77, 0x00f60a00, s, 0x860d21cc);
    s := Step(block, 78, 0x5795ef4f, s, 0x5738d5e1);
    s := Step(block, 79, 0x822e0879, s, 0x42541b35);
  }

  lemma NoRounds(block: seq<byte>)
    requires |block| == 64
    ensures Rounds(block, INITIAL, 0) == INITIAL
  {
  }

  lemma Padded()
    ensures Pad(ABC) == Block()
  {
    hide BigEndian64;
    assert BigEndian64(24) == [0, 0, 0, 0, 0, 0, 0, 24] by { LengthOfAbc(); }
    assert PadZeros(3) == 52;
    assert Pad(ABC) == ABC + [0x80] + Zeros(52) + [0, 0, 0, 0, 0, 0, 0, 24];
  }

  lemma LengthOfAbc()
    ensures BigEndian64(24) == [0, 0, 0, 0, 0, 0, 0, 24]
  {
  }

  /** The five words of the digest as bytes. */
  lemma DigestBytes()
    ensures WordBytes(0xa9993e36) == [0xa9, 0x99, 0x3e, 0x36]
    ensures WordBytes(0x4706816a) == [0x47, 0x06, 0x81, 0x6a]
    ensures WordBytes(0xba3e2571) == [0xba, 0x3e, 0x25, 0x71]
    ensures WordBytes(0x7850c26c) == [0x78, 0x50, 0xc2, 0x6c]
    ensures WordBytes(0x9cd0d89d) == [0x9c, 0xd0, 0xd8, 0x9d]
  {
  }

  /** SHA-1 of "abc" is a9993e36 4706816a ba3e2571 7850c26c 9cd0d89d. */
  lemma DigestOfAbc()
    ensures Digest(ABC) == [
      0xa9, 0x99, 0x3e, 0x36, 0x47, 0x06, 0x81, 0x6a, 0xba, 0x3e,
      0x25, 0x71, 0x78, 0x50, 0xc2, 0x6c, 0x9c, 0xd0, 0xd8, 0x9d]
  {
    hide Pad, Rounds, WordBytes, AddWords;
    Padded();
    assert Pad(ABC)[0..64] == Block();
    assert Chain(Pad(ABC), 0) == INITIAL;
    ChainStep(Pad(ABC), 0, Block());
    var block := Block();
    Rounds80(block);
    LastSum();
    DigestBytes();
  }

  lemma LastSum()
    ensures AddWords(INITIAL, Words(0x42541b35, 0x5738d5e1, 0x21834873, 0x681e6df6, 0xd8fdf6ad))
      == Words(0xa9993e36, 0x4706816a, 0xba3e2571, 0x7850c26c, 0x9cd0d89d)
  {
  }
}
