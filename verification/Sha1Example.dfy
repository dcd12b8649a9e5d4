// The example of one block in FIPS 180: the digest of the three characters "abc".
module Sha1Example {
  import opened Types
  import opened Fips180
  import opened Sha1
  import Hex

  const ABC: bytes := [0x61, 0x62, 0x63]

  // The padded message.
  predicate IsAbc(m: seq<word>) {
    |m| == 16 && m[0] == 0x61626380 && m[15] == 0x18 && forall i :: 1 <= i < 15 ==> m[i] == 0
  }

  // ----- the message schedule -----

  lemma Words16To31(m: seq<word>)
    requires IsAbc(m)
    ensures W(m, 16) == 0xc2c4c700 && W(m, 17) == 0x00000000
    ensures W(m, 18) == 0x00000030 && W(m, 19) == 0x85898e01
    ensures W(m, 20) == 0x00000000 && W(m, 21) == 0x00000060
    ensures W(m, 22) == 0x0b131c03 && W(m, 23) == 0x00000030
    ensures W(m, 24) == 0x85898ec1 && W(m, 25) == 0x16263806
    ensures W(m, 26) == 0x00000000 && W(m, 27) == 0x00000180
    ensures W(m, 28) == 0x2c4c700c && W(m, 29) == 0x000000f0
    ensures W(m, 30) == 0x93afb507 && W(m, 31) == 0x5898e048
  {
  }

  lemma Words32To47(m: seq<word>)
    requires IsAbc(m)
    ensures W(m, 32) == 0x8e9a9202 && W(m, 33) == 0x00000600
    ensures W(m, 34) == 0xb131c0f0 && W(m, 35) == 0x16263bc6
    ensures W(m, 36) == 0x4ebed41e && W(m, 37) == 0x626380a1
    ensures W(m, 38) == 0x16263806 && W(m, 39) == 0x000018c0
    ensures W(m, 40) == 0xd2e138c4 && W(m, 41) == 0x00000f00
    ensures W(m, 42) == 0x3afb5079 && W(m, 43) == 0x898e04e5
    ensures W(m, 44) == 0xe2ba3c2b && W(m, 45) == 0x000060c0
    ensures W(m, 46) == 0x053a37cd && W(m, 47) == 0x74458547
  {
    Words16To31(m);
  }

  lemma Words48To63(m: seq<word>)
    requires IsAbc(m)
    ensures W(m, 48) == 0xda9415ed && W(m, 49) == 0x26380a16
    ensures W(m, 50) == 0x626383a1 && W(m, 51) == 0x4ebf54de
    ensures W(m, 52) == 0x3835b44b && W(m, 53) == 0x0000f600
    ensures W(m, 54) == 0x1e84c7a3 && W(m, 55) == 0x98e04d98
    ensures W(m, 56) == 0x651d16a0 && W(m, 57) == 0x62658ca1
    ensures W(m, 58) == 0x458544d6 && W(m, 59) == 0x44584cb7
    ensures W(m, 60) == 0x7ba06619 && W(m, 61) == 0x6380aea2
    ensures W(m, 62) == 0x0ae55269 && W(m, 63) == 0x627b49a1
  {
    Words32To47(m);
  }

  lemma Words64To79(m: seq<word>)
    requires IsAbc(m)
    ensures W(m, 64) == 0x7cd45c9d && W(m, 65) == 0x000f0000
    ensures W(m, 66) == 0xfb50753a && W(m, 67) == 0xec6765e8
    ensures W(m, 68) == 0xba3c2be2 && W(m, 69) == 0x0060c000
    ensures W(m, 70) == 0x3a37cd05 && W(m, 71) == 0x458546f4
    ensures W(m, 72) == 0xb8599dd6 && W(m, 73) == 0x380a1a26
    ensures W(m, 74) == 0x01e02203 && W(m, 75) == 0xe7cc3456
    ensures W(m, 76) == 0xe6e60b69 && W(m, 77) == 0x00f60a00
    ensures W(m, 78) == 0x5795ef4f && W(m, 79) == 0x822e0879
  {
    Words48To63(m);
  }

  // ----- the rounds -----

  lemma FiveRounds(m: seq<word>, t: nat)
    requires |m| == 16
    ensures var v1 := Round(Rounds(INITIAL, m, t), t, W(m, t));
      var v2 := Round(v1, t + 1, W(m, t + 1));
      var v3 := Round(v2, t + 2, W(m, t + 2));
      var v4 := Round(v3, t + 3, W(m, t + 3));
      Rounds(INITIAL, m, t + 5) == Round(v4, t + 4, W(m, t + 4))
  {
    hide W, Round;
    assert Rounds(INITIAL, m, t + 2) == Round(Round(Rounds(INITIAL, m, t), t, W(m, t)), t + 1, W(m, t + 1));
    assert Rounds(INITIAL, m, t + 4)
        == Round(Round(Rounds(INITIAL, m, t + 2), t + 2, W(m, t + 2)), t + 3, W(m, t + 3));
  }

  lemma FirstWords(m: seq<word>)
    requires |m| == 16
    ensures forall t :: 0 <= t < 16 ==> W(m, t) == m[t]
  {
  }

  lemma NoRounds(m: seq<word>)
    requires |m| == 16
    ensures Rounds(INITIAL, m, 0) == INITIAL
  {
  }

  lemma Rounds0To19(m: seq<word>)
    requires IsAbc(m)
    ensures Rounds(INITIAL, m, 20) == Vars(0xfd9e1d7d, 0xdc64901d, 0x20aa99ca, 0xd3a49608, 0xc82f758b)
  {
    FirstWords(m);
    Words16To31(m);
    NoRounds(m);
    hide W, Rounds;
    FiveRounds(m, 0);
    assert Rounds(INITIAL, m, 5) == Vars(0xcfd499de, 0xcdd8e11b, 0x284e43c2, 0x626414db, 0xc045bf0c);
    FiveRounds(m, 5);
    assert Rounds(INITIAL, m, 10) == Vars(0x8351f929, 0x4b6ae328, 0x27a301f5, 0x664f8c30, 0x0ff1f290);
    FiveRounds(m, 10);
    assert Rounds(INITIAL, m, 15) == Vars(0x196bee77, 0x9128f695, 0x1181ed99, 0x18c623f9, 0x7ef6a7a2);
    FiveRounds(m, 15);
  }

  lemma Rounds20To39(m: seq<word>)
    requires IsAbc(m)
    ensures Rounds(INITIAL, m, 40) == Vars(0x32de1cba, 0x4c986405, 0xf718e5cf, 0x03d447f6, 0xf72eec32)
  {
    Words16To31(m);
    Words32To47(m);
    Rounds0To19(m);
    hide W, Rounds;
    FiveRounds(m, 20);
    assert Rounds(INITIAL, m, 25) == Vars(0xc7567dc6, 0xd541f12d, 0x884a0d21, 0x0ce88eff, 0x868dec32);
    FiveRounds(m, 25);
    assert Rounds(INITIAL, m, 30) == Vars(0xc5fbaf5d, 0x8370b52e, 0xd2aa1365, 0x6f8d7ef5, 0x12104ee9);
    FiveRounds(m, 30);
    assert Rounds(INITIAL, m, 35) == Vars(0x21796ad4, 0x2c0ebc11, 0x811bea82, 0xcee1174c, 0xc499ed01);
    FiveRounds(m, 35);
  }

  lemma Rounds40To59(m: seq<word>)
    requires IsAbc(m)
    ensures Rounds(INITIAL, m, 60) == Vars(0x3f52de5a, 0x09d785fd, 0x3498bfd4, 0xf211824f, 0xd79915ab)
  {
    Words32To47(m);
    Words48To63(m);
    Rounds20To39(m);
    hide W, Rounds;
    FiveRounds(m, 40);
    assert Rounds(INITIAL, m, 45) == Vars(0x40f28e09, 0xee1b1aaf, 0x5fc64f71, 0x25c28357, 0xff21f7b7);
    FiveRounds(m, 45);
    assert Rounds(INITIAL, m, 50) == Vars(0x120731c5, 0xbaf39337, 0xafab40b2, 0x2806e11b, 0x8714787c);
    FiveRounds(m, 50);
    assert Rounds(INITIAL, m, 55) == Vars(0x7b71f76d, 0x27e9f1d8, 0x792410db, 0x8e11eb59, 0x99076cb3);
    FiveRounds(m, 55);
  }

  lemma Rounds60To79(m: seq<word>)
    requires IsAbc(m)
    ensures Rounds(INITIAL, m, 80) == Vars(0x42541b35, 0x5738d5e1, 0x21834873, 0x681e6df6, 0xd8fdf6ad)
  {
    Words48To63(m);
    Words64To79(m);
    Rounds40To59(m);
    hide W, Rounds;
    FiveRounds(m, 60);
    assert Rounds(INITIAL, m, 65) == Vars(0x19dfa7ac, 0x6b61c9e1, 0xed9b0082, 0x9523272c, 0xf5d5b051);
    FiveRounds(m, 65);
    assert Rounds(INITIAL, m, 70) == Vars(0x3f2588c2, 0x497093c0, 0xde37534a, 0x030f7cad, 0x4405957e);
    FiveRounds(m, 70);
    assert Rounds(INITIAL, m, 75) == Vars(0x5ee76897, 0x11793f6f, 0x3b6d0b79, 0xce616779, 0xf0667e31);
    FiveRounds(m, 75);
  }

  // ----- the digest -----

  lemma FirstWord()
    ensures ToWord(0x61626380) == 0x61626380
  {
    assert ToWord(0x6) == 0x6;
    assert ToWord(0x61) == 0x61;
    assert ToWord(0x616) == 0x616;
    assert ToWord(0x6162) == 0x6162;
    assert ToWord(0x61626) == 0x61626;
    assert ToWord(0x616263) == 0x616263;
    assert ToWord(0x6162638) == 0x6162638;
    assert ToWord(0x61626380) == 0x61626380;
  }

  lemma LengthWord()
    ensures ToWord(0) == 0 && ToWord(0x18) == 0x18
  {
  }

  lemma AbcIsPadded()
    ensures IsAbc(Padded(ABC))
  {
    FirstWord();
    LengthWord();
    hide ToWord;
    var s := ABC + [0x80] + Zeros(52);
    assert ZeroCount(|ABC|) == 52;
    assert LengthWords(3) == [0, 0x18];
    assert BigEndian(0x61, 0x62, 0x63, 0x80) == 0x61626380 && BigEndian(0, 0, 0, 0) == 0;
    hide BigEndian, LengthWords;
    WordsOfAt(s, 0);
    forall k | 1 <= k < 14 ensures WordsOf(s)[k] == 0 {
      WordsOfAt(s, k);
    }
    hide WordsOf;
    assert Padded(ABC) == WordsOf(s) + LengthWords(3);
  }

  function One(b: bool): nat { if b then 1 else 0 }

  lemma OneBit(w: word)
    ensures FromWord(w) == 2 * FromWord(w >> 1) + One(w & 1 == 1)
  {
  }

  // A word and what is left of it after one to four bits.
  lemma FourBits(w: word, w1: word, w2: word, w3: word, w4: word)
    requires w1 == w >> 1 && w2 == w1 >> 1 && w3 == w2 >> 1 && w4 == w3 >> 1
    ensures FromWord(w)
         == 16 * FromWord(w4) + 8 * One(w3 & 1 == 1) + 4 * One(w2 & 1 == 1) + 2 * One(w1 & 1 == 1) + One(w & 1 == 1)
  {
    OneBit(w);
    OneBit(w1);
    OneBit(w2);
    OneBit(w3);
    hide FromWord, One;
  }

  lemma NumberA()
    ensures FromWord(0xa9993e36) == 0xa9993e36
  {
    assert FromWord(0) == 0;
    hide FromWord;
    FourBits(0xa, 0x5, 0x2, 0x1, 0x0);
    FourBits(0xa9, 0x54, 0x2a, 0x15, 0xa);
    FourBits(0xa99, 0x54c, 0x2a6, 0x153, 0xa9);
    FourBits(0xa999, 0x54cc, 0x2a66, 0x1533, 0xa99);
    FourBits(0xa9993, 0x54cc9, 0x2a664, 0x15332, 0xa999);
    FourBits(0xa9993e, 0x54cc9f, 0x2a664f, 0x153327, 0xa9993);
    FourBits(0xa9993e3, 0x54cc9f1, 0x2a664f8, 0x153327c, 0xa9993e);
    FourBits(0xa9993e36, 0x54cc9f1b, 0x2a664f8d, 0x153327c6, 0xa9993e3);
  }

  lemma NumberB()
    ensures FromWord(0x4706816a) == 0x4706816a
  {
    assert FromWord(0) == 0;
    hide FromWord;
    FourBits(0x4, 0x2, 0x1, 0x0, 0x0);
    FourBits(0x47, 0x23, 0x11, 0x8, 0x4);
    FourBits(0x470, 0x238, 0x11c, 0x8e, 0x47);
    FourBits(0x4706, 0x2383, 0x11c1, 0x8e0, 0x470);
    FourBits(0x47068, 0x23834, 0x11c1a, 0x8e0d, 0x4706);
    FourBits(0x470681, 0x238340, 0x11c1a0, 0x8e0d0, 0x47068);
    FourBits(0x4706816, 0x238340b, 0x11c1a05, 0x8e0d02, 0x470681);
    FourBits(0x4706816a, 0x238340b5, 0x11c1a05a, 0x8e0d02d, 0x4706816);
  }

  lemma NumberC()
    ensures FromWord(0xba3e2571) == 0xba3e2571
  {
    assert FromWord(0) == 0;
    hide FromWord;
    FourBits(0xb, 0x5, 0x2, 0x1, 0x0);
    FourBits(0xba, 0x5d, 0x2e, 0x17, 0xb);
    FourBits(0xba3, 0x5d1, 0x2e8, 0x174, 0xba);
    FourBits(0xba3e, 0x5d1f, 0x2e8f, 0x1747, 0xba3);
    FourBits(0xba3e2, 0x5d1f1, 0x2e8f8, 0x1747c, 0xba3e);
    FourBits(0xba3e25, 0x5d1f12, 0x2e8f89, 0x1747c4, 0xba3e2);
    FourBits(0xba3e257, 0x5d1f12b, 0x2e8f895, 0x1747c4a, 0xba3e25);
    FourBits(0xba3e2571, 0x5d1f12b8, 0x2e8f895c, 0x1747c4ae, 0xba3e257);
  }

  lemma NumberD()
    ensures FromWord(0x7850c26c) == 0x7850c26c
  {
    assert FromWord(0) == 0;
    hide FromWord;
    FourBits(0x7, 0x3, 0x1, 0x0, 0x0);
    FourBits(0x78, 0x3c, 0x1e, 0xf, 0x7);
    FourBits(0x785, 0x3c2, 0x1e1, 0xf0, 0x78);
    FourBits(0x7850, 0x3c28, 0x1e14, 0xf0a, 0x785);
    FourBits(0x7850c, 0x3c286, 0x1e143, 0xf0a1, 0x7850);
    FourBits(0x7850c2, 0x3c2861, 0x1e1430, 0xf0a18, 0x7850c);
    FourBits(0x7850c26, 0x3c28613, 0x1e14309, 0xf0a184, 0x7850c2);
    FourBits(0x7850c26c, 0x3c286136, 0x1e14309b, 0xf0a184d, 0x7850c26);
  }

  lemma NumberE()
    ensures FromWord(0x9cd0d89d) == 0x9cd0d89d
  {
    assert FromWord(0) == 0;
    hide FromWord;
    FourBits(0x9, 0x4, 0x2, 0x1, 0x0);
    FourBits(0x9c, 0x4e, 0x27, 0x13, 0x9);
    FourBits(0x9cd, 0x4e6, 0x273, 0x139, 0x9c);
    FourBits(0x9cd0, 0x4e68, 0x2734, 0x139a, 0x9cd);
    FourBits(0x9cd0d, 0x4e686, 0x27343, 0x139a1, 0x9cd0);
    FourBits(0x9cd0d8, 0x4e686c, 0x273436, 0x139a1b, 0x9cd0d);
    FourBits(0x9cd0d89, 0x4e686c4, 0x2734362, 0x139a1b1, 0x9cd0d8);
    FourBits(0x9cd0d89d, 0x4e686c4e, 0x27343627, 0x139a1b13, 0x9cd0d89);
  }

  lemma BytesOfNumbers()
    ensures WordBytes(0xa9993e36) == [0xa9, 0x99, 0x3e, 0x36] && WordBytes(0x4706816a) == [0x47, 0x06, 0x81, 0x6a]
    ensures WordBytes(0xba3e2571) == [0xba, 0x3e, 0x25, 0x71] && WordBytes(0x7850c26c) == [0x78, 0x50, 0xc2, 0x6c]
    ensures WordBytes(0x9cd0d89d) == [0x9c, 0xd0, 0xd8, 0x9d]
  {
    NumberA();
    NumberB();
    NumberC();
    NumberD();
    NumberE();
    hide FromWord;
  }

  lemma AbcHash()
    ensures HashBlocks(INITIAL, Padded(ABC)) == Vars(0xa9993e36, 0x4706816a, 0xba3e2571, 0x7850c26c, 0x9cd0d89d)
  {
    AbcIsPadded();
    var m := Padded(ABC);
    Rounds60To79(m);
    hide Padded, Rounds, IsAbc;
    assert m[..16] == m && m[16..] == [];
    assert HashBlocks(INITIAL, m) == HashBlocks(Compress(INITIAL, m), []) == Compress(INITIAL, m);
  }

  // SHA-1 of "abc".
  lemma AbcDigest()
    ensures Digest(ABC) == [0xa9, 0x99, 0x3e, 0x36, 0x47, 0x06, 0x81, 0x6a, 0xba, 0x3e,
                            0x25, 0x71, 0x78, 0x50, 0xc2, 0x6c, 0x9c, 0xd0, 0xd8, 0x9d]
  {
    AbcHash();
    BytesOfNumbers();
    hide HashBlocks, Padded, WordBytes;
  }

  lemma WordsPrinted()
    ensures Hex.Encode([0xa9, 0x99, 0x3e, 0x36]) == "a9993e36"
    ensures Hex.Encode([0x47, 0x06, 0x81, 0x6a]) == "4706816a"
    ensures Hex.Encode([0xba, 0x3e, 0x25, 0x71]) == "ba3e2571"
    ensures Hex.Encode([0x78, 0x50, 0xc2, 0x6c]) == "7850c26c"
    ensures Hex.Encode([0x9c, 0xd0, 0xd8, 0x9d]) == "9cd0d89d"
  {
    Hex.EncodeFour(0xa9, 0x99, 0x3e, 0x36);
    Hex.EncodeFour(0x47, 0x06, 0x81, 0x6a);
    Hex.EncodeFour(0xba, 0x3e, 0x25, 0x71);
    Hex.EncodeFour(0x78, 0x50, 0xc2, 0x6c);
    Hex.EncodeFour(0x9c, 0xd0, 0xd8, 0x9d);
    hide Hex.Encode;
  }

  lemma FivePrinted(a: bytes, b: bytes, c: bytes, d: bytes, e: bytes)
    ensures Hex.Encode(a + b + c + d + e)
         == Hex.Encode(a) + Hex.Encode(b) + Hex.Encode(c) + Hex.Encode(d) + Hex.Encode(e)
  {
    hide Hex.Encode;
    Hex.EncodeConcat(a + b + c + d, e);
    Hex.EncodeConcat(a + b + c, d);
    Hex.EncodeConcat(a + b, c);
    Hex.EncodeConcat(a, b);
  }

  // As the client prints it.
  lemma AbcPrinted()
    ensures Hex.Encode(Digest(ABC)) == "a9993e36" + "4706816a" + "ba3e2571" + "7850c26c" + "9cd0d89d"
  {
    AbcHash();
    BytesOfNumbers();
    WordsPrinted();
    hide HashBlocks, Padded, WordBytes, Hex.Encode;
    FivePrinted(WordBytes(0xa9993e36), WordBytes(0x4706816a), WordBytes(0xba3e2571), WordBytes(0x7850c26c),
                WordBytes(0x9cd0d89d));
  }
}
