// The operators of sha1.cpp on an unsigned long of 64 bits, and the halves by which Sha1Words models them.
module Sha1Wide {
  import opened Fips180
  import opened Sha1Words

  // x stands for the 64-bit value v.
  ghost predicate Stands(x: Word, v: bv64) {
    x.hi == (v >> 32) as bv32 && x.lo == (v & 0xffff_ffff) as bv32
  }

  lemma Rol1Wide(x: Word, v: bv64)
    requires Stands(x, v)
    ensures Stands(Rol1(x), (v << 1) | ((v & 0xffff_ffff) >> 31))
  {
  }

  lemma Rol5Wide(x: Word, v: bv64)
    requires Stands(x, v)
    ensures Stands(Rol5(x), (v << 5) | ((v & 0xffff_ffff) >> 27))
  {
  }

  lemma Rol30Wide(x: Word, v: bv64)
    requires Stands(x, v)
    ensures Stands(Rol30(x), (v << 30) | ((v & 0xffff_ffff) >> 2))
  {
  }

  lemma ChooseWide(w: Word, x: Word, y: Word, w': bv64, x': bv64, y': bv64)
    requires Stands(w, w') && Stands(x, x') && Stands(y, y')
    ensures Stands(Choose(w, x, y), (w' & (x' ^ y')) ^ y')
  {
  }

  lemma MixWide(w: Word, x: Word, y: Word, w': bv64, x': bv64, y': bv64)
    requires Stands(w, w') && Stands(x, x') && Stands(y, y')
    ensures Stands(Mix(w, x, y), w' ^ x' ^ y')
  {
  }

  lemma MajorityWide(w: Word, x: Word, y: Word, w': bv64, x': bv64, y': bv64)
    requires Stands(w, w') && Stands(x, x') && Stands(y, y')
    ensures Stands(Majority(w, x, y), ((w' | x') & y') | (w' & x'))
  {
  }

  // The low half of a 64-bit sum is the sum of the low halves, which LowSum writes down.
  lemma SumWide(z: bv64, f: bv64, b: bv64, k: word, r: bv64)
    ensures ((z + (f + b + k as bv64 + r)) & 0xffff_ffff) as bv32
         == (z & 0xffff_ffff) as bv32
            + ((f & 0xffff_ffff) as bv32 + (b & 0xffff_ffff) as bv32 + k + (r & 0xffff_ffff) as bv32)
  {
  }
}
