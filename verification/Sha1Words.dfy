// The 64-bit words of sha1.cpp and its round macros. `uint32` is an unsigned long there, so every
// word carries 32 high bits of garbage; the lemmas here show that the low halves ignore them.
module Sha1Words {
  import opened Fips180

  // An unsigned long as two 32-bit halves.
  datatype Word = Word(hi: word, lo: word)

  // Bitwise operators act on the halves separately.
  function And(x: Word, y: Word): Word { Word(x.hi & y.hi, x.lo & y.lo) }

  function Or(x: Word, y: Word): Word { Word(x.hi | y.hi, x.lo | y.lo) }

  function Xor(x: Word, y: Word): Word { Word(x.hi ^ y.hi, x.lo ^ y.lo) }

  // SHA1_ROL. The left shift moves the top bits of the low half into the high half; the masked right
  // shift brings them back at the bottom, so the low half becomes (lo << n) | (lo >> (32 - n)).
  function Rol1(x: Word): Word {
    Word((x.hi << 1) | (x.lo >> 31), Rotl1(x.lo))
  }

  function Rol5(x: Word): Word {
    Word((x.hi << 5) | (x.lo >> 27), Rotl5(x.lo))
  }

  function Rol30(x: Word): Word {
    Word((x.hi << 30) | (x.lo >> 2), Rotl30(x.lo))
  }

  // What the low halves of the five addends of a round carry into the high half.
  function Carry(z: word, f: word, b: word, k: word, r: word): word {
    hide ToWord, FromWord;
    ToWord((FromWord(z) + FromWord(f) + FromWord(b) + FromWord(k) + FromWord(r)) / TWO_32)
  }

  function LowSum(z: word, f: word, b: word, k: word, r: word): word {
    z + (f + b + k + r)
  }

  // The value of z after `z += f + b + k + r` on 64 bits; the constant k has no high half.
  function Sum(z: Word, f: Word, b: Word, k: word, r: Word): Word {
    Word(z.hi + (f.hi + b.hi + r.hi) + Carry(z.lo, f.lo, b.lo, k, r.lo),
         LowSum(z.lo, f.lo, b.lo, k, r.lo))
  }

  // The three mixing expressions of the macros.
  function Choose(w: Word, x: Word, y: Word): Word { Xor(And(w, Xor(x, y)), y) }

  function Mix(w: Word, x: Word, y: Word): Word { Xor(Xor(w, x), y) }

  function Majority(w: Word, x: Word, y: Word): Word { Or(And(Or(w, x), y), And(w, x)) }

  lemma ChooseIsCh(w: Word, x: Word, y: Word)
    ensures Choose(w, x, y).lo == Ch(w.lo, x.lo, y.lo)
  {}

  lemma MixIsParity(w: Word, x: Word, y: Word)
    ensures Mix(w, x, y).lo == Parity(w.lo, x.lo, y.lo)
  {}

  lemma MajorityIsMaj(w: Word, x: Word, y: Word)
    ensures Majority(w, x, y).lo == Maj(w.lo, x.lo, y.lo)
  {}

  lemma LowSumIsTempSum(z: word, f: word, b: word, k: word, r: word)
    ensures LowSum(z, f, b, k, r) == TempSum(r, f, z, k, b)
  {}

  // The low halves of five words, as the standard's working variables.
  function Low(v: Word, w: Word, x: Word, y: Word, z: Word): Vars {
    Vars(v.lo, w.lo, x.lo, y.lo, z.lo)
  }

  // One macro updates z and w in place and leaves the other three words where they are; read with
  // the roles moved on by one, the low halves have made one round of the standard.
  lemma RoundOnLowHalves(v: Word, w: Word, x: Word, y: Word, z: Word, f: Word, b: Word, t: nat)
    requires f.lo == F(t, w.lo, x.lo, y.lo)
    ensures Low(Sum(z, f, b, K(t), Rol5(v)), v, Rol30(w), x, y) == Round(Low(v, w, x, y, z), t, b.lo)
  {
    hide Rotl1, Rotl5, Rotl30, LowSum, TempSum, Carry, F, K;
    LowSumIsTempSum(z.lo, f.lo, b.lo, K(t), Rol5(v).lo);
  }

  // SHA1_BLK: the new value of a slot of the 16-word ring.
  function NextWord(w3: Word, w8: Word, w14: Word, w16: Word): Word {
    Rol1(Xor(Xor(Xor(w3, w8), w14), w16))
  }

  lemma NextWordIsScheduled(w3: Word, w8: Word, w14: Word, w16: Word)
    ensures NextWord(w3, w8, w14, w16).lo == Rotl1(ScheduleMix(w3.lo, w8.lo, w14.lo, w16.lo))
  {
    hide Rotl1;
  }
}
