// SHA-1 as FIPS 180-4 defines it: the simple form the client's fast code is proved equal to.
module Fips180 {
  import opened Types

  type word = bv32

  const TWO_32: int := 0x1_0000_0000

  datatype Vars = Vars(a: word, b: word, c: word, d: word, e: word)

  // Section 3.2, operation 5: rotation to the left, by the three amounts SHA-1 uses.
  function Rotl1(x: word): word { (x << 1) | (x >> 31) }

  function Rotl5(x: word): word { (x << 5) | (x >> 27) }

  function Rotl30(x: word): word { (x << 30) | (x >> 2) }

  // Section 4.1.1.
  function Ch(x: word, y: word, z: word): word { (x & y) ^ (!x & z) }

  function Parity(x: word, y: word, z: word): word { x ^ y ^ z }

  function Maj(x: word, y: word, z: word): word { (x & y) ^ (x & z) ^ (y & z) }

  function F(t: nat, x: word, y: word, z: word): word {
    if t < 20 then Ch(x, y, z)
    else if t < 40 then Parity(x, y, z)
    else if t < 60 then Maj(x, y, z)
    else Parity(x, y, z)
  }

  // Section 4.2.1.
  function K(t: nat): word {
    if t < 20 then 0x5a827999
    else if t < 40 then 0x6ed9eba1
    else if t < 60 then 0x8f1bbcdc
    else 0xca62c1d6
  }

  // Section 6.1.2, step 3: the sum T.
  function TempSum(rotatedA: word, f: word, e: word, k: word, w: word): word {
    rotatedA + f + e + k + w
  }

  function Round(s: Vars, t: nat, w: word): Vars {
    Vars(TempSum(Rotl5(s.a), F(t, s.b, s.c, s.d), s.e, K(t), w), s.a, Rotl30(s.b), s.c, s.d)
  }

  function ScheduleMix(w3: word, w8: word, w14: word, w16: word): word { w3 ^ w8 ^ w14 ^ w16 }

  // Section 6.1.2, step 1: the message schedule.
  function W(m: seq<word>, t: nat): word
    requires |m| == 16
  {
    if t < 16 then m[t]
    else Rotl1(ScheduleMix(W(m, t - 3), W(m, t - 8), W(m, t - 14), W(m, t - 16)))
  }

  // The working variables after the first t rounds.
  function Rounds(h: Vars, m: seq<word>, t: nat): Vars
    requires |m| == 16
  {
    if t == 0 then h else Round(Rounds(h, m, t - 1), t - 1, W(m, t - 1))
  }

  // Section 6.1.2, step 4.
  function Plus(x: word, y: word): word { x + y }

  function AddVars(x: Vars, y: Vars): Vars {
    Vars(Plus(x.a, y.a), Plus(x.b, y.b), Plus(x.c, y.c), Plus(x.d, y.d), Plus(x.e, y.e))
  }

  function Compress(h: Vars, m: seq<word>): Vars
    requires |m| == 16
  {
    AddVars(h, Rounds(h, m, 80))
  }

  // Section 5.3.1.
  const INITIAL: Vars := Vars(0x67452301, 0xefcdab89, 0x98badcfe, 0x10325476, 0xc3d2e1f0)

  // Conversions between a word and the integer it stands for (section 3.1, item 2), bit by bit. An
  // integer of more than 32 bits loses its high bits.
  function ToWord(n: nat): word {
    if n == 0 then 0 else (ToWord(n / 2) << 1) | (if n % 2 == 1 then 1 else 0)
  }

  function FromWord(w: word): nat {
    if w == 0 then 0 else 2 * FromWord(w >> 1) + (if w & 1 == 1 then 1 else 0)
  }

  // Section 3.1, item 4: four bytes, most significant first, as a word.
  function BigEndian(b0: byte, b1: byte, b2: byte, b3: byte): word {
    hide ToWord;
    ToWord(b0 * 0x100_0000 + b1 * 0x1_0000 + b2 * 0x100 + b3)
  }

  function WordsOf(s: bytes): (ws: seq<word>)
    ensures |ws| == |s| / 4
    decreases |s|
  {
    hide BigEndian;
    if |s| < 4 then [] else [BigEndian(s[0], s[1], s[2], s[3])] + WordsOf(s[4..])
  }

  // Section 5.1.1: as many zero bytes as bring the length to 56 modulo 64.
  function ZeroCount(n: nat): (k: nat)
    ensures k < 64 && (n + 1 + k) % 64 == 56
  {
    if n % 64 <= 55 then 55 - n % 64 else 119 - n % 64
  }

  function Zeros(k: nat): (s: bytes)
    ensures |s| == k && forall i :: 0 <= i < k ==> s[i] == 0
  {
    seq(k, i => 0)
  }

  // Section 5.1.1: the two words of the 64-bit message length in bits.
  function LengthWords(n: nat): (ws: seq<word>)
    ensures |ws| == 2
  {
    hide ToWord;
    [ToWord(8 * n / TWO_32 % TWO_32), ToWord(8 * n % TWO_32)]
  }

  // The padded message as words; LemmaPaddedLength shows that they fill whole blocks.
  function Padded(s: bytes): seq<word> {
    WordsOf(s + [0x80] + Zeros(ZeroCount(|s|))) + LengthWords(|s|)
  }

  // Section 6.1.2: every block in order.
  function HashBlocks(h: Vars, ws: seq<word>): Vars
    decreases |ws|
  {
    if |ws| < 16 then h else HashBlocks(Compress(h, ws[..16]), ws[16..])
  }

  function WordBytes(w: word): (s: bytes)
    ensures |s| == 4
  {
    hide FromWord;
    var n := FromWord(w);
    [n / 0x100_0000 % 0x100, n / 0x1_0000 % 0x100, n / 0x100 % 0x100, n % 0x100]
  }

  function VarsBytes(v: Vars): (s: bytes)
    ensures |s| == 20
  {
    hide WordBytes;
    WordBytes(v.a) + WordBytes(v.b) + WordBytes(v.c) + WordBytes(v.d) + WordBytes(v.e)
  }

  // The 160-bit digest as twenty bytes.
  function Digest(s: bytes): (d: bytes)
    ensures |d| == 20
  {
    VarsBytes(HashBlocks(INITIAL, Padded(s)))
  }

  lemma LemmaPaddedLength(s: bytes)
    ensures |Padded(s)| % 16 == 0
  {
    hide LengthWords, WordsOf, ZeroCount;
    var n := |s| + 1 + ZeroCount(|s|);
    var q := n / 64;
    assert n == 4 * (16 * q + 14);
  }
}
