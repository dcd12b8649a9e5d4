// The SHA1 class of sha1.cpp: a streaming buffer over an unrolled transform.
module Sha1 {
  import opened Types
  import opened Fips180
  import opened Sha1Words
  import Hex

  const BLOCK_INTS := 16
  const BLOCK_BYTES := 64
  const TWO_64: int := 0x1_0000_0000_0000_0000

  // After i rounds the low halves of the five words, in the order the next macro names them, are the
  // standard's working variables.
  ghost predicate Agree(h: Vars, m: seq<word>, i: nat, v: Word, w: Word, x: Word, y: Word, z: Word)
    requires |m| == 16
  {
    Low(v, w, x, y, z) == Rounds(h, m, i)
  }

  // The ring holds words i - 16 .. i - 1 of the schedule.
  ghost predicate Ring(block: seq<Word>, m: seq<word>, i: nat)
    requires |m| == 16
  {
    |block| == 16 && 16 <= i && forall k: nat :: i - 16 <= k < i ==> block[k % 16].lo == W(m, k)
  }

  lemma RingIndex(j: nat, k: nat)
    requires k == j + 16
    ensures j % 16 == k % 16
  {}

  lemma RingIndexDiffers(j: nat, k: nat)
    requires j < k < j + 16
    ensures j % 16 != k % 16
  {}

  lemma RingSlots(block: seq<Word>, m: seq<word>, i: nat)
    requires |m| == 16 && Ring(block, m, i)
    ensures block[(i + 13) % 16].lo == W(m, i - 3) && block[(i + 8) % 16].lo == W(m, i - 8)
    ensures block[(i + 2) % 16].lo == W(m, i - 14) && block[i % 16].lo == W(m, i - 16)
  {
    hide W;
    RingIndex(i - 3, i + 13);
    RingIndex(i - 8, i + 8);
    RingIndex(i - 14, i + 2);
    RingIndex(i - 16, i);
  }

  lemma RingAdvances(block: seq<Word>, next: Word, m: seq<word>, i: nat)
    requires |m| == 16 && Ring(block, m, i)
    requires next == NextWord(block[(i + 13) % 16], block[(i + 8) % 16], block[(i + 2) % 16], block[i % 16])
    ensures next.lo == W(m, i) && Ring(block[i % 16 := next], m, i + 1)
  {
    hide NextWord, Rotl1, ScheduleMix;
    assert next.lo == W(m, i) by {
      NextWordIsScheduled(block[(i + 13) % 16], block[(i + 8) % 16], block[(i + 2) % 16], block[i % 16]);
      RingSlots(block, m, i);
    }
    forall k: nat | i - 15 <= k < i + 1
      ensures block[i % 16 := next][k % 16].lo == W(m, k)
    {
      hide W;
      if k < i { RingIndexDiffers(k, i); }
    }
  }

  // SHA1_BLK.
  method Blk(block: array<Word>, i: nat, ghost m: seq<word>) returns (next: Word)
    requires |m| == 16 && block.Length == 16 && Ring(block[..], m, i)
    modifies block
    ensures next.lo == W(m, i) && Ring(block[..], m, i + 1)
  {
    hide NextWord, W;
    next := NextWord(block[(i + 13) % 16], block[(i + 8) % 16], block[(i + 2) % 16], block[i % 16]);
    RingAdvances(block[..], next, m, i);
    block[i % 16] := next;
    assert block[..] == old(block[..])[i % 16 := next];
  }

  lemma AgreeAdvances(h: Vars, m: seq<word>, i: nat, v: Word, w: Word, x: Word, y: Word, z: Word, f: Word, b: Word)
    requires |m| == 16 && Agree(h, m, i, v, w, x, y, z)
    requires f.lo == F(i, w.lo, x.lo, y.lo) && b.lo == W(m, i)
    ensures Agree(h, m, i + 1, Sum(z, f, b, K(i), Rol5(v)), v, Rol30(w), x, y)
  {
    hide Sum, Rol5, Rol30, F, K, W, Round;
    RoundOnLowHalves(v, w, x, y, z, f, b, i);
  }

  // The round macros. Each changes z and w and leaves v, x and y alone.

  method R0(v: Word, w: Word, x: Word, y: Word, z: Word, i: nat, block: array<Word>, ghost h: Vars, ghost m: seq<word>)
    returns (z': Word, w': Word)
    requires 0 <= i < 16 && |m| == 16 && block.Length == 16
    requires Ring(block[..], m, 16) && Agree(h, m, i, v, w, x, y, z)
    ensures Agree(h, m, i + 1, z', v, w', x, y)
  {
    hide Sum, Choose, Rol5, Rol30, Ch, Parity, Maj, W, Agree;
    var b := block[i];
    var f := Choose(w, x, y);
    z' := Sum(z, f, b, 0x5a827999, Rol5(v));
    w' := Rol30(w);
    ChooseIsCh(w, x, y);
    AgreeAdvances(h, m, i, v, w, x, y, z, f, b);
  }

  method R1(v: Word, w: Word, x: Word, y: Word, z: Word, i: nat, block: array<Word>, ghost h: Vars, ghost m: seq<word>)
    returns (z': Word, w': Word)
    requires 16 <= i < 20 && |m| == 16 && block.Length == 16
    requires Ring(block[..], m, i) && Agree(h, m, i, v, w, x, y, z)
    modifies block
    ensures Ring(block[..], m, i + 1)
    ensures Agree(h, m, i + 1, z', v, w', x, y)
  {
    hide Sum, Choose, Rol5, Rol30, Ch, Parity, Maj, W, Agree, Ring;
    var b := Blk(block, i, m);
    var f := Choose(w, x, y);
    z' := Sum(z, f, b, 0x5a827999, Rol5(v));
    w' := Rol30(w);
    ChooseIsCh(w, x, y);
    AgreeAdvances(h, m, i, v, w, x, y, z, f, b);
  }

  method R2(v: Word, w: Word, x: Word, y: Word, z: Word, i: nat, block: array<Word>, ghost h: Vars, ghost m: seq<word>)
    returns (z': Word, w': Word)
    requires 20 <= i < 40 && |m| == 16 && block.Length == 16
    requires Ring(block[..], m, i) && Agree(h, m, i, v, w, x, y, z)
    modifies block
    ensures Ring(block[..], m, i + 1)
    ensures Agree(h, m, i + 1, z', v, w', x, y)
  {
    hide Sum, Mix, Rol5, Rol30, Ch, Parity, Maj, W, Agree, Ring;
    var b := Blk(block, i, m);
    var f := Mix(w, x, y);
    z' := Sum(z, f, b, 0x6ed9eba1, Rol5(v));
    w' := Rol30(w);
    MixIsParity(w, x, y);
    AgreeAdvances(h, m, i, v, w, x, y, z, f, b);
  }

  method R3(v: Word, w: Word, x: Word, y: Word, z: Word, i: nat, block: array<Word>, ghost h: Vars, ghost m: seq<word>)
    returns (z': Word, w': Word)
    requires 40 <= i < 60 && |m| == 16 && block.Length == 16
    requires Ring(block[..], m, i) && Agree(h, m, i, v, w, x, y, z)
    modifies block
    ensures Ring(block[..], m, i + 1)
    ensures Agree(h, m, i + 1, z', v, w', x, y)
  {
    hide Sum, Majority, Rol5, Rol30, Ch, Parity, Maj, W, Agree, Ring;
    var b := Blk(block, i, m);
    var f := Majority(w, x, y);
    z' := Sum(z, f, b, 0x8f1bbcdc, Rol5(v));
    w' := Rol30(w);
    MajorityIsMaj(w, x, y);
    AgreeAdvances(h, m, i, v, w, x, y, z, f, b);
  }

  method R4(v: Word, w: Word, x: Word, y: Word, z: Word, i: nat, block: array<Word>, ghost h: Vars, ghost m: seq<word>)
    returns (z': Word, w': Word)
    requires 60 <= i < 80 && |m| == 16 && block.Length == 16
    requires Ring(block[..], m, i) && Agree(h, m, i, v, w, x, y, z)
    modifies block
    ensures Ring(block[..], m, i + 1)
    ensures Agree(h, m, i + 1, z', v, w', x, y)
  {
    hide Sum, Mix, Rol5, Rol30, Ch, Parity, Maj, W, Agree, Ring;
    var b := Blk(block, i, m);
    var f := Mix(w, x, y);
    z' := Sum(z, f, b, 0xca62c1d6, Rol5(v));
    w' := Rol30(w);
    MixIsParity(w, x, y);
    AgreeAdvances(h, m, i, v, w, x, y, z, f, b);
  }

  // The 80 rounds, unrolled, twenty to a method: the roles of the five words rotate instead of the
  // words.
  method RunRounds0To19(a0: Word, b0: Word, c0: Word, d0: Word, e0: Word, block: array<Word>,
                        ghost h: Vars, ghost m: seq<word>)
    returns (a: Word, b: Word, c: Word, d: Word, e: Word)
    requires |m| == 16 && block.Length == 16
    requires Agree(h, m, 0, a0, b0, c0, d0, e0) && Ring(block[..], m, 16)
    modifies block
    ensures Agree(h, m, 20, a, b, c, d, e) && Ring(block[..], m, 20)
  {
    hide *;
    a, b, c, d, e := a0, b0, c0, d0, e0;
    e, b := R0(a, b, c, d, e, 0, block, h, m);
    d, a := R0(e, a, b, c, d, 1, block, h, m);
    c, e := R0(d, e, a, b, c, 2, block, h, m);
    b, d := R0(c, d, e, a, b, 3, block, h, m);
    a, c := R0(b, c, d, e, a, 4, block, h, m);
    e, b := R0(a, b, c, d, e, 5, block, h, m);
    d, a := R0(e, a, b, c, d, 6, block, h, m);
    c, e := R0(d, e, a, b, c, 7, block, h, m);
    b, d := R0(c, d, e, a, b, 8, block, h, m);
    a, c := R0(b, c, d, e, a, 9, block, h, m);
    e, b := R0(a, b, c, d, e, 10, block, h, m);
    d, a := R0(e, a, b, c, d, 11, block, h, m);
    c, e := R0(d, e, a, b, c, 12, block, h, m);
    b, d := R0(c, d, e, a, b, 13, block, h, m);
    a, c := R0(b, c, d, e, a, 14, block, h, m);
    e, b := R0(a, b, c, d, e, 15, block, h, m);
    d, a := R1(e, a, b, c, d, 16, block, h, m);
    c, e := R1(d, e, a, b, c, 17, block, h, m);
    b, d := R1(c, d, e, a, b, 18, block, h, m);
    a, c := R1(b, c, d, e, a, 19, block, h, m);
  }

  method RunRounds20To39(a0: Word, b0: Word, c0: Word, d0: Word, e0: Word, block: array<Word>,
                         ghost h: Vars, ghost m: seq<word>)
    returns (a: Word, b: Word, c: Word, d: Word, e: Word)
    requires |m| == 16 && block.Length == 16
    requires Agree(h, m, 20, a0, b0, c0, d0, e0) && Ring(block[..], m, 20)
    modifies block
    ensures Agree(h, m, 40, a, b, c, d, e) && Ring(block[..], m, 40)
  {
    hide *;
    a, b, c, d, e := a0, b0, c0, d0, e0;
    e, b := R2(a, b, c, d, e, 20, block, h, m);
    d, a := R2(e, a, b, c, d, 21, block, h, m);
    c, e := R2(d, e, a, b, c, 22, block, h, m);
    b, d := R2(c, d, e, a, b, 23, block, h, m);
    a, c := R2(b, c, d, e, a, 24, block, h, m);
    e, b := R2(a, b, c, d, e, 25, block, h, m);
    d, a := R2(e, a, b, c, d, 26, block, h, m);
    c, e := R2(d, e, a, b, c, 27, block, h, m);
    b, d := R2(c, d, e, a, b, 28, block, h, m);
    a, c := R2(b, c, d, e, a, 29, block, h, m);
    e, b := R2(a, b, c, d, e, 30, block, h, m);
    d, a := R2(e, a, b, c, d, 31, block, h, m);
    c, e := R2(d, e, a, b, c, 32, block, h, m);
    b, d := R2(c, d, e, a, b, 33, block, h, m);
    a, c := R2(b, c, d, e, a, 34, block, h, m);
    e, b := R2(a, b, c, d, e, 35, block, h, m);
    d, a := R2(e, a, b, c, d, 36, block, h, m);
    c, e := R2(d, e, a, b, c, 37, block, h, m);
    b, d := R2(c, d, e, a, b, 38, block, h, m);
    a, c := R2(b, c, d, e, a, 39, block, h, m);
  }

  method RunRounds40To59(a0: Word, b0: Word, c0: Word, d0: Word, e0: Word, block: array<Word>,
                         ghost h: Vars, ghost m: seq<word>)
    returns (a: Word, b: Word, c: Word, d: Word, e: Word)
    requires |m| == 16 && block.Length == 16
    requires Agree(h, m, 40, a0, b0, c0, d0, e0) && Ring(block[..], m, 40)
    modifies block
    ensures Agree(h, m, 60, a, b, c, d, e) && Ring(block[..], m, 60)
  {
    hide *;
    a, b, c, d, e := a0, b0, c0, d0, e0;
    e, b := R3(a, b, c, d, e, 40, block, h, m);
    d, a := R3(e, a, b, c, d, 41, block, h, m);
    c, e := R3(d, e, a, b, c, 42, block, h, m);
    b, d := R3(c, d, e, a, b, 43, block, h, m);
    a, c := R3(b, c, d, e, a, 44, block, h, m);
    e, b := R3(a, b, c, d, e, 45, block, h, m);
    d, a := R3(e, a, b, c, d, 46, block, h, m);
    c, e := R3(d, e, a, b, c, 47, block, h, m);
    b, d := R3(c, d, e, a, b, 48, block, h, m);
    a, c := R3(b, c, d, e, a, 49, block, h, m);
    e, b := R3(a, b, c, d, e, 50, block, h, m);
    d, a := R3(e, a, b, c, d, 51, block, h, m);
    c, e := R3(d, e, a, b, c, 52, block, h, m);
    b, d := R3(c, d, e, a, b, 53, block, h, m);
    a, c := R3(b, c, d, e, a, 54, block, h, m);
    e, b := R3(a, b, c, d, e, 55, block, h, m);
    d, a := R3(e, a, b, c, d, 56, block, h, m);
    c, e := R3(d, e, a, b, c, 57, block, h, m);
    b, d := R3(c, d, e, a, b, 58, block, h, m);
    a, c := R3(b, c, d, e, a, 59, block, h, m);
  }

  method RunRounds60To79(a0: Word, b0: Word, c0: Word, d0: Word, e0: Word, block: array<Word>,
                         ghost h: Vars, ghost m: seq<word>)
    returns (a: Word, b: Word, c: Word, d: Word, e: Word)
    requires |m| == 16 && block.Length == 16
    requires Agree(h, m, 60, a0, b0, c0, d0, e0) && Ring(block[..], m, 60)
    modifies block
    ensures Agree(h, m, 80, a, b, c, d, e) && Ring(block[..], m, 80)
  {
    hide *;
    a, b, c, d, e := a0, b0, c0, d0, e0;
    e, b := R4(a, b, c, d, e, 60, block, h, m);
    d, a := R4(e, a, b, c, d, 61, block, h, m);
    c, e := R4(d, e, a, b, c, 62, block, h, m);
    b, d := R4(c, d, e, a, b, 63, block, h, m);
    a, c := R4(b, c, d, e, a, 64, block, h, m);
    e, b := R4(a, b, c, d, e, 65, block, h, m);
    d, a := R4(e, a, b, c, d, 66, block, h, m);
    c, e := R4(d, e, a, b, c, 67, block, h, m);
    b, d := R4(c, d, e, a, b, 68, block, h, m);
    a, c := R4(b, c, d, e, a, 69, block, h, m);
    e, b := R4(a, b, c, d, e, 70, block, h, m);
    d, a := R4(e, a, b, c, d, 71, block, h, m);
    c, e := R4(d, e, a, b, c, 72, block, h, m);
    b, d := R4(c, d, e, a, b, 73, block, h, m);
    a, c := R4(b, c, d, e, a, 74, block, h, m);
    e, b := R4(a, b, c, d, e, 75, block, h, m);
    d, a := R4(e, a, b, c, d, 76, block, h, m);
    c, e := R4(d, e, a, b, c, 77, block, h, m);
    b, d := R4(c, d, e, a, b, 78, block, h, m);
    a, c := R4(b, c, d, e, a, 79, block, h, m);
  }

  function Lows(ws: seq<Word>): (ls: seq<word>)
    ensures |ls| == |ws| && forall i :: 0 <= i < |ws| ==> ls[i] == ws[i].lo
  {
    seq(|ws|, i requires 0 <= i < |ws| => ws[i].lo)
  }

  function LowVars(d: seq<Word>): Vars
    requires |d| == 5
  {
    Low(d[0], d[1], d[2], d[3], d[4])
  }

  // `digest[i] += x` on 64 bits.
  function Add(x: Word, y: Word): Word {
    Word(x.hi + y.hi + Carry(x.lo, y.lo, 0, 0, 0), Plus(x.lo, y.lo))
  }

  lemma InitialRing(block: seq<Word>, m: seq<word>)
    requires |block| == 16 && m == Lows(block)
    ensures Ring(block, m, 16)
  {}

  lemma InitialAgree(h: Vars, m: seq<word>, d: seq<Word>)
    requires |m| == 16 && |d| == 5 && h == LowVars(d)
    ensures Agree(h, m, 0, d[0], d[1], d[2], d[3], d[4])
  {}

  lemma FinalAgree(h: Vars, m: seq<word>, d0: seq<Word>, a: Word, b: Word, c: Word, d: Word, e: Word)
    requires |m| == 16 && |d0| == 5 && h == LowVars(d0) && Agree(h, m, 80, a, b, c, d, e)
    ensures LowVars([Add(d0[0], a), Add(d0[1], b), Add(d0[2], c), Add(d0[3], d), Add(d0[4], e)]) == Compress(h, m)
  {
    hide Rounds, Carry, Plus;
  }

  // One word of buffer_to_block. The byte shifted to the top is an int, so a set sign bit fills the
  // high half with ones.
  function BlockWord(b0: byte, b1: byte, b2: byte, b3: byte): Word {
    Word(if b0 >= 128 then 0xffff_ffff else 0, BigEndian(b0, b1, b2, b3))
  }

  method BufferToBlock(buffer: bytes, block: array<Word>)
    requires |buffer| == BLOCK_BYTES && block.Length == BLOCK_INTS
    modifies block
    ensures Lows(block[..]) == WordsOf(buffer)
  {
    hide BigEndian, WordsOf;
    for i := 0 to BLOCK_INTS
      invariant forall k :: 0 <= k < i ==>
        block[k].lo == BigEndian(buffer[4 * k], buffer[4 * k + 1], buffer[4 * k + 2], buffer[4 * k + 3])
    {
      block[i] := BlockWord(buffer[4 * i], buffer[4 * i + 1], buffer[4 * i + 2], buffer[4 * i + 3]);
    }
    forall k | 0 <= k < BLOCK_INTS
      ensures block[k].lo == WordsOf(buffer)[k]
    {
      WordsOfAt(buffer, k);
    }
    assert Lows(block[..]) == WordsOf(buffer);
  }

  lemma {:induction false} WordsOfAt(s: bytes, k: nat)
    requires 4 * k + 4 <= |s|
    ensures WordsOf(s)[k] == BigEndian(s[4 * k], s[4 * k + 1], s[4 * k + 2], s[4 * k + 3])
    decreases k
  {
    hide BigEndian;
    if k > 0 {
      WordsOfAt(s[4..], k - 1);
    }
  }

  lemma {:induction false} WordsOfConcat(s: bytes, t: bytes, k: nat)
    requires |s| == 4 * k
    ensures WordsOf(s + t) == WordsOf(s) + WordsOf(t)
  {
    hide BigEndian;
    if k == 0 {
      assert s + t == t;
    } else {
      assert (s + t)[4..] == s[4..] + t;
      WordsOfConcat(s[4..], t, k - 1);
    }
  }

  // Hashing one more block.
  lemma {:induction false} HashBlocksAppend(h: Vars, ws: seq<word>, m: seq<word>, k: nat)
    requires |ws| == 16 * k && |m| == 16
    ensures HashBlocks(h, ws + m) == Compress(HashBlocks(h, ws), m)
    decreases k
  {
    hide Compress;
    if k == 0 {
      assert ws + m == m && m[..16] == m;
    } else {
      assert (ws + m)[..16] == ws[..16] && (ws + m)[16..] == ws[16..] + m;
      HashBlocksAppend(Compress(h, ws[..16]), ws[16..], m, k - 1);
    }
  }

  // The first k blocks of s, hashed.
  ghost function HashPrefix(s: bytes, k: nat): Vars
    requires 64 * k <= |s|
  {
    HashBlocks(INITIAL, WordsOf(s[..64 * k]))
  }

  ghost function Block(s: bytes, k: nat): bytes
    requires 64 * k + 64 <= |s|
  {
    s[64 * k..64 * k + 64]
  }

  lemma HashPrefixAppend(s: bytes, k: nat)
    requires 64 * k + 64 <= |s|
    ensures HashPrefix(s, k + 1) == Compress(HashPrefix(s, k), WordsOf(Block(s, k)))
  {
    hide WordsOf, Compress, HashBlocks;
    var n := 64 * k;
    assert s[..64 * (k + 1)] == s[..n] + Block(s, k);
    WordsOfConcat(s[..n], Block(s, k), 16 * k);
    HashBlocksAppend(INITIAL, WordsOf(s[..n]), WordsOf(Block(s, k)), k);
  }

  lemma SliceConcat<T>(s: seq<T>, t: seq<T>, n: nat, k: nat)
    requires n <= |s| && k <= |t|
    ensures (s + t)[n..|s| + k] == s[n..] + t[..k]
  {}

  lemma SliceSecond<T>(s: seq<T>, t: seq<T>, i: nat, k: nat)
    requires i <= k <= |t|
    ensures (s + t)[|s| + i..|s| + k] == t[i..k]
  {}

  // SHA1::read on the stream s at position pos: at most max bytes, and whether the stream is still
  // good, which it is exactly when all of them were there.
  method Read(s: bytes, pos: nat, max: nat) returns (chunk: bytes, pos': nat, good: bool)
    requires pos <= |s|
    ensures pos <= pos' <= |s| && chunk == s[pos..pos']
    ensures good <==> |chunk| == max
    ensures pos' == if pos + max <= |s| then pos + max else |s|
  {
    pos' := if pos + max <= |s| then pos + max else |s|;
    chunk := s[pos..pos'];
    good := pos + max <= |s|;
  }

  // An unsigned 64-bit integer as a word.
  function WordOf(n: nat): Word
    requires n < TWO_64
  {
    hide ToWord;
    Word(ToWord(n / TWO_32), ToWord(n % TWO_32))
  }

  // The counter of blocks wraps, but the length in bits does not notice.
  lemma LengthInBits(k: nat, b: nat, totalBits: nat)
    requires totalBits == (k % TWO_64 * BLOCK_BYTES + b) * 8 % TWO_64
    ensures LengthWords(64 * k + b) == [WordOf(totalBits / TWO_32).lo, WordOf(totalBits).lo]
  {
    hide ToWord;
    WrappedCount(k, b);
    WrappedHalves(8 * (64 * k + b), totalBits);
  }

  lemma WrappedCount(k: nat, b: nat)
    ensures (k % TWO_64 * BLOCK_BYTES + b) * 8 % TWO_64 == 8 * (64 * k + b) % TWO_64
  {
    var wraps := k / TWO_64;
    assert 8 * (64 * k + b) == 512 * wraps * TWO_64 + (k % TWO_64 * BLOCK_BYTES + b) * 8;
  }

  lemma WrappedHalves(x: nat, y: nat)
    requires y == x % TWO_64
    ensures y % TWO_32 == x % TWO_32 && y / TWO_32 == x / TWO_32 % TWO_32
  {}

  lemma ZerosAppend(k: nat)
    ensures Zeros(0) == [] && Zeros(k) + [0] == Zeros(k + 1)
  {}

  lemma ZeroWord()
    ensures BigEndian(0, 0, 0, 0) == 0
  {}

  // What is left of a message, closed by a 0x80 byte and filled with zeros to one block.
  ghost function Filled(rest: bytes): (s: bytes)
    requires |rest| < BLOCK_BYTES
    ensures |s| == BLOCK_BYTES
  {
    rest + [0x80] + Zeros(63 - |rest|)
  }

  lemma ZeroCountAfterBlocks(k: nat, b: nat)
    requires b < BLOCK_BYTES
    ensures ZeroCount(64 * k + b) == if b <= 55 then 55 - b else 119 - b
  {
    assert (64 * k + b) % BLOCK_BYTES == b;
  }

  // With room for the length, the padding is one block.
  lemma PaddedOneBlock(s: bytes, k: nat)
    requires 64 * k <= |s| <= 64 * k + 55
    ensures Padded(s) == WordsOf(s[..64 * k]) + (WordsOf(Filled(s[64 * k..]))[..14] + LengthWords(|s|))
  {
    hide WordsOf, LengthWords, ZeroCount;
    var rest := s[64 * k..];
    var head := rest + [0x80] + Zeros(55 - |rest|);
    ZeroCountAfterBlocks(k, |rest|);
    assert s + [0x80] + Zeros(55 - |rest|) == s[..64 * k] + head;
    WordsOfConcat(s[..64 * k], head, 16 * k);
    assert Filled(rest) == head + Zeros(8);
    WordsOfConcat(head, Zeros(8), 14);
    assert WordsOf(Filled(rest))[..14] == WordsOf(head);
  }

  // Without it, the padding is two blocks, the second of zeros and the length.
  lemma PaddedTwoBlocks(s: bytes, k: nat)
    requires 64 * k + 56 <= |s| < 64 * k + 64
    ensures Padded(s) == WordsOf(s[..64 * k]) + WordsOf(Filled(s[64 * k..])) + (seq(14, _ => 0) + LengthWords(|s|))
  {
    hide WordsOf, LengthWords, ZeroCount, BigEndian;
    var rest := s[64 * k..];
    ZeroCountAfterBlocks(k, |rest|);
    assert s + [0x80] + Zeros(119 - |rest|) == s[..64 * k] + (Filled(rest) + Zeros(56));
    WordsOfConcat(s[..64 * k], Filled(rest) + Zeros(56), 16 * k);
    WordsOfConcat(Filled(rest), Zeros(56), 16);
    forall i | 0 <= i < 14 ensures WordsOf(Zeros(56))[i] == 0 {
      WordsOfAt(Zeros(56), i);
      ZeroWord();
    }
  }

  // The digest after the last one or two blocks is that of the padded message.
  lemma HashLastBlocks(s: bytes, k: nat, words: seq<word>, d: Vars, last: seq<word>)
    requires 64 * k <= |s| < 64 * k + 64
    requires words == WordsOf(Filled(s[64 * k..])) && d == HashPrefix(s, k)
    requires |last| == 16 && last[14..] == LengthWords(|s|)
    requires last[..14] == if |s| - 64 * k <= 55 then words[..14] else seq(14, _ => 0)
    ensures HashBlocks(INITIAL, Padded(s)) == Compress(if |s| - 64 * k <= 55 then d else Compress(d, words), last)
  {
    hide WordsOf, LengthWords, HashBlocks, Compress, Padded, Filled;
    assert last == last[..14] + last[14..];
    var whole := WordsOf(s[..64 * k]);
    if |s| - 64 * k <= 55 {
      PaddedOneBlock(s, k);
      HashBlocksAppend(INITIAL, whole, last, k);
    } else {
      PaddedTwoBlocks(s, k);
      HashBlocksAppend(INITIAL, whole, words, k);
      HashBlocksAppend(INITIAL, whole + words, last, k + 1);
    }
  }

  class SHA1 {
    const digest: array<Word>
    var buffer: bytes
    var transforms: nat         // a 64-bit counter
    ghost var message: bytes    // everything passed to Update since the last reset

    // The whole blocks of the message are in the digest and the rest is in the buffer.
    ghost predicate Valid()
      reads this, digest
    {
      && digest.Length == 5
      && |buffer| < BLOCK_BYTES && |buffer| <= |message|
      && Hashed(message, |message| / BLOCK_BYTES)
      && buffer == message[|message| / BLOCK_BYTES * BLOCK_BYTES..]
    }

    // The digest is that of the first k blocks of s.
    ghost predicate Hashed(s: bytes, k: nat)
      reads `transforms, digest
    {
      && digest.Length == 5
      && 64 * k <= |s|
      && transforms == k % TWO_64
      && LowVars(digest[..]) == HashPrefix(s, k)
    }

    constructor ()
      ensures Valid() && message == [] && fresh(digest)
    {
      hide HashBlocks;
      digest := new Word[5];
      new;
      Reset();
    }

    method Reset()
      requires digest.Length == 5
      modifies this, digest
      ensures Valid() && message == []
      ensures buffer == [] && transforms == 0 && LowVars(digest[..]) == INITIAL
    {
      digest[0] := Word(0, 0x67452301);
      digest[1] := Word(0, 0xefcdab89);
      digest[2] := Word(0, 0x98badcfe);
      digest[3] := Word(0, 0x10325476);
      digest[4] := Word(0, 0xc3d2e1f0);
      transforms := 0;
      buffer := [];
      message := [];
    }

    method Transform(block: array<Word>)
      requires digest.Length == 5 && block.Length == 16 && block != digest
      modifies this`transforms, digest, block
      ensures LowVars(digest[..]) == Compress(old(LowVars(digest[..])), old(Lows(block[..])))
      ensures transforms == (old(transforms) + 1) % TWO_64
    {
      hide Rounds, Carry, Plus, W, Agree, Ring, Lows, LowVars, Compress, Add;
      ghost var d0 := digest[..];
      ghost var h := LowVars(d0);
      ghost var m := Lows(block[..]);
      InitialRing(block[..], m);
      InitialAgree(h, m, d0);
      var a, b, c, d, e := RunRounds0To19(digest[0], digest[1], digest[2], digest[3], digest[4], block, h, m);
      a, b, c, d, e := RunRounds20To39(a, b, c, d, e, block, h, m);
      a, b, c, d, e := RunRounds40To59(a, b, c, d, e, block, h, m);
      a, b, c, d, e := RunRounds60To79(a, b, c, d, e, block, h, m);
      digest[0] := Add(digest[0], a);
      digest[1] := Add(digest[1], b);
      digest[2] := Add(digest[2], c);
      digest[3] := Add(digest[3], d);
      digest[4] := Add(digest[4], e);
      transforms := (transforms + 1) % TWO_64;
      assert digest[..] == [Add(d0[0], a), Add(d0[1], b), Add(d0[2], c), Add(d0[3], d), Add(d0[4], e)];
      FinalAgree(h, m, d0, a, b, c, d, e);
    }

    // Hashes the block that follows the first k blocks of s.
    method HashNext(block: array<Word>, ghost s: bytes, ghost k: nat)
      requires Hashed(s, k) && 64 * k + 64 <= |s|
      requires block.Length == 16 && block != digest && Lows(block[..]) == WordsOf(Block(s, k))
      modifies this`transforms, digest, block
      ensures Hashed(s, k + 1)
    {
      hide WordsOf, Compress, HashPrefix, LowVars, Lows, Block;
      HashPrefixAppend(s, k);
      Transform(block);
    }

    lemma HashedPrefix(s: bytes, t: bytes, k: nat)
      requires Hashed(s, k) && |s| <= |t| && t[..|s|] == s
      ensures Hashed(t, k)
    {
      hide LowVars, HashBlocks, WordsOf;
      assert t[..64 * k] == s[..64 * k];
    }

    method Update(s: bytes)
      requires Valid()
      modifies this, digest
      ensures Valid() && message == old(message) + s
    {
      hide LowVars, HashPrefix, WordsOf, Hashed, Lows;
      ghost var all := message + s;
      ghost var k: nat := |message| / BLOCK_BYTES;
      HashedPrefix(message, all, k);
      var rest, pos, good := Read(s, 0, BLOCK_BYTES - |buffer|);
      SliceConcat(message, s, 64 * k, pos);
      buffer := buffer + rest;
      while good
        invariant digest.Length == 5 && message == old(message)
        invariant pos <= |s| && Hashed(all, k)
        invariant 64 * k + |buffer| == |message| + pos
        invariant buffer == all[64 * k..64 * k + |buffer|]
        invariant if good then |buffer| == BLOCK_BYTES else |buffer| < BLOCK_BYTES && pos == |s|
        decreases if good then 1 + |s| - pos else 0
      {
        var block := new Word[16];
        BufferToBlock(buffer, block);
        HashNext(block, all, k);
        k := k + 1;
        ghost var was := pos;
        buffer, pos, good := Read(s, pos, BLOCK_BYTES);
        SliceSecond(message, s, was, pos);
      }
      message := all;
      assert |all| / BLOCK_BYTES == k;
    }

    // Pads the buffer with one 0x80 byte and zeros, appends the length in bits and hashes the one or
    // two blocks this makes.
    method HashPadding()
      requires Valid()
      modifies this, digest
      ensures digest.Length == 5
      ensures LowVars(digest[..]) == HashBlocks(INITIAL, Padded(old(message)))
    {
      hide LowVars, HashPrefix, WordsOf, LengthWords, WordOf, Lows, Compress, HashBlocks, Padded, Zeros;
      ghost var s := message;
      ghost var k: nat := |message| / BLOCK_BYTES;
      ghost var rest := buffer;
      var totalBits := (transforms * BLOCK_BYTES + |buffer|) * 8 % TWO_64;
      LengthInBits(k, |buffer|, totalBits);

      buffer := buffer + [0x80];
      var origSize := |buffer|;
      ZerosAppend(0);
      while |buffer| < BLOCK_BYTES
        invariant origSize <= |buffer| <= BLOCK_BYTES
        invariant buffer == rest + [0x80] + Zeros(|buffer| - origSize)
        invariant Hashed(s, k)
      {
        ZerosAppend(|buffer| - origSize);
        buffer := buffer + [0x00];
      }
      var block := new Word[16];
      BufferToBlock(buffer, block);
      ghost var words := Lows(block[..]);
      ghost var d := LowVars(digest[..]);

      if origSize > BLOCK_BYTES - 8 {
        Transform(block);
        for i := 0 to BLOCK_INTS - 2
          invariant digest.Length == 5 && LowVars(digest[..]) == Compress(d, words)
          invariant forall k :: 0 <= k < i ==> block[k] == Word(0, 0)
        {
          block[i] := Word(0, 0);
        }
      }
      block[15] := WordOf(totalBits);
      block[14] := WordOf(totalBits / TWO_32);
      ghost var last := Lows(block[..]);
      Transform(block);
      HashLastBlocks(s, k, words, d, last);
    }

    // The digest in hexadecimal of everything passed to Update; the object is then as new.
    method Final() returns (result: string)
      requires Valid()
      modifies this, digest
      ensures result == Hex.Encode(Digest(old(message)))
      ensures Valid() && message == [] && buffer == [] && transforms == 0
    {
      hide HashBlocks, Padded, LowVars, WordsBytes, VarsBytes, FromWord, Hex.Printed8, Hex.Encode, Valid, Hashed, Lows;
      ghost var s := message;
      HashPadding();
      ghost var d := digest[..];
      ghost var ws := Lows(d);
      result := "";
      NoWords(ws);
      for i := 0 to 5
        invariant digest.Length == 5 && digest[..] == d
        invariant result == Hex.Encode(WordsBytes(ws[..i]))
      {
        result := result + Hex.Printed8(FromWord(digest[i].lo));
        PrintedWord(ws, i);
      }
      AllWords(d);
      Reset();
    }
  }

  ghost function WordsBytes(ws: seq<word>): bytes {
    if |ws| == 0 then [] else WordsBytes(ws[..|ws| - 1]) + WordBytes(ws[|ws| - 1])
  }

  lemma NoWords(ws: seq<word>)
    ensures Hex.Encode(WordsBytes(ws[..0])) == ""
  {}

  lemma PrintedWord(ws: seq<word>, i: nat)
    requires i < |ws|
    ensures Hex.Encode(WordsBytes(ws[..i])) + Hex.Printed8(FromWord(ws[i])) == Hex.Encode(WordsBytes(ws[..i + 1]))
  {
    hide FromWord, Hex.Printed8, Hex.Encode;
    assert ws[..i + 1][..i] == ws[..i];
    Hex.Printed8IsEncode(FromWord(ws[i]));
    Hex.EncodeConcat(WordsBytes(ws[..i]), WordBytes(ws[i]));
  }

  lemma AllWords(d: seq<Word>)
    requires |d| == 5
    ensures WordsBytes(Lows(d)[..5]) == VarsBytes(LowVars(d))
  {
    hide WordBytes;
    var ws := Lows(d);
    assert ws[..5][..4] == ws[..4] && ws[..4][..3] == ws[..3] && ws[..3][..2] == ws[..2] && ws[..2][..1] == ws[..1];
    assert WordsBytes(ws[..1]) == WordBytes(ws[0]);
    assert WordsBytes(ws[..2]) == WordBytes(ws[0]) + WordBytes(ws[1]);
    assert WordsBytes(ws[..3]) == WordBytes(ws[0]) + WordBytes(ws[1]) + WordBytes(ws[2]);
    assert WordsBytes(ws[..4]) == WordBytes(ws[0]) + WordBytes(ws[1]) + WordBytes(ws[2]) + WordBytes(ws[3]);
  }

  // sha1: the hexadecimal digest of one string.
  method HashString(s: bytes) returns (result: string)
    ensures result == Hex.Encode(Digest(s))
  {
    var checksum := new SHA1();
    checksum.Update(s);
    assert [] + s == s;
    result := checksum.Final();
  }

  // Piece::is_hash_matching compares this with a stored hash: the digest itself, as twenty bytes.
  method HashBytes(s: bytes) returns (hash: bytes)
    ensures hash == Digest(s)
  {
    var text := HashString(s);
    hash := Hex.HexDecode(text);
    Hex.RoundTrip(Digest(s));
  }

  // However a message is split into updates, the digest is that of the whole message.
  method HashPieces(chunks: seq<bytes>) returns (result: string)
    ensures result == Hex.Encode(Digest(Concat(chunks)))
  {
    hide Digest;
    var checksum := new SHA1();
    assert Concat(chunks[..0]) == [];
    for i := 0 to |chunks|
      invariant checksum.Valid() && fresh(checksum) && fresh(checksum.digest)
      invariant checksum.message == Concat(chunks[..i])
    {
      checksum.Update(chunks[i]);
      assert chunks[..i + 1][..i] == chunks[..i];
    }
    assert chunks[..|chunks|] == chunks;
    result := checksum.Final();
  }

  function Concat(chunks: seq<bytes>): bytes {
    if |chunks| == 0 then [] else Concat(chunks[..|chunks| - 1]) + chunks[|chunks| - 1]
  }
}
