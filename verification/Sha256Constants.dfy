/**
 The choice and majority functions bit by bit, and the constants as the roots
 of primes from which FIPS 180-4 takes them.
 */
module Sha256Constants {
  import opened Sha256

  // ----- section 4.1.2, bit by bit -----

  /** Where x has a one the choice is y's bit, elsewhere z's. */
  lemma {:induction false} ChoiceBits(x: Word, y: Word, z: Word)
    ensures x & Ch(x, y, z) == x & y && !x & Ch(x, y, z) == !x & z
  {
    ChoiceOnes(x, y, z);
    ChoiceZeros(x, y, z);
  }

  lemma {:induction false} ChoiceOnes(x: Word, y: Word, z: Word)
    ensures x & Ch(x, y, z) == x & y
  {
    assert x & ((x & y) ^ (!x & z)) == x & y;
  }

  lemma {:induction false} ChoiceZeros(x: Word, y: Word, z: Word)
    ensures !x & Ch(x, y, z) == !x & z
  {
    assert !x & ((x & y) ^ (!x & z)) == !x & z;
  }

  /** The majority has a one where at least two of the words do. */
  lemma {:induction false} MajorityBits(x: Word, y: Word, z: Word)
    ensures Maj(x, y, z) == (x & y) | (x & z) | (y & z)
  {
    assert (x & y) ^ (x & z) ^ (y & z) == (x & y) | (x & z) | (y & z);
  }

  // ----- sections 4.2.2 and 5.3.3: the constants -----

  function Square(n: nat): nat { n * n }

  function Cube(n: nat): nat { n * n * n }

  /** c is the square root of p to 32 binary places, cut off, and k its fractional part. */
  predicate SquareRoot(p: nat, c: nat, k: Word) {
    Square(c) <= p * 0x1_0000_0000_0000_0000 < Square(c + 1) && c % 0x1_0000_0000 == k as nat
  }

  /** Likewise for the cube root. */
  predicate CubeRoot(p: nat, c: nat, k: Word) {
    Cube(c) <= p * 0x1_0000_0000_0000_0000_0000_0000 < Cube(c + 1) && c % 0x1_0000_0000 == k as nat
  }

  predicate SquareRoots(v: Eight, primes: seq<nat>, roots: seq<nat>)
    requires |primes| == |roots| == 8
  {
    && SquareRoot(primes[0], roots[0], v.a) && SquareRoot(primes[1], roots[1], v.b)
    && SquareRoot(primes[2], roots[2], v.c) && SquareRoot(primes[3], roots[3], v.d)
    && SquareRoot(primes[4], roots[4], v.e) && SquareRoot(primes[5], roots[5], v.f)
    && SquareRoot(primes[6], roots[6], v.g) && SquareRoot(primes[7], roots[7], v.h)
  }

  predicate CubeRoots(v: Eight, primes: seq<nat>, roots: seq<nat>)
    requires |primes| == |roots| == 8
  {
    && CubeRoot(primes[0], roots[0], v.a) && CubeRoot(primes[1], roots[1], v.b)
    && CubeRoot(primes[2], roots[2], v.c) && CubeRoot(primes[3], roots[3], v.d)
    && CubeRoot(primes[4], roots[4], v.e) && CubeRoot(primes[5], roots[5], v.f)
    && CubeRoot(primes[6], roots[6], v.g) && CubeRoot(primes[7], roots[7], v.h)
  }

  /** The initial hash value comes from the first eight primes. */
  lemma {:induction false} InitialRoots()
    ensures SquareRoots(INITIAL, [2, 3, 5, 7, 11, 13, 17, 19],
      [0x16a09e667, 0x1bb67ae85, 0x23c6ef372, 0x2a54ff53a, 0x3510e527f, 0x39b05688c, 0x41f83d9ab, 0x45be0cd19])
  {
  }

  /** The round constants come from the first 64 primes; the first 16 of them, and so on in the next lemmas. */
  lemma {:induction false} ConstantRoots()
    ensures CubeRoots(ConstantRow(0), [2, 3, 5, 7, 11, 13, 17, 19],
      [0x1428a2f98, 0x171374491, 0x1b5c0fbcf, 0x1e9b5dba5, 0x23956c25b, 0x259f111f1, 0x2923f82a4, 0x2ab1c5ed5])
    ensures CubeRoots(ConstantRow(1), [23, 29, 31, 37, 41, 43, 47, 53],
      [0x2d807aa98, 0x312835b01, 0x3243185be, 0x3550c7dc3, 0x372be5d74, 0x380deb1fe, 0x39bdc06a7, 0x3c19bf174])
  {
  }

  lemma {:induction false} ConstantRootsTo131()
    ensures CubeRoots(ConstantRow(2), [59, 61, 67, 71, 73, 79, 83, 89],
      [0x3e49b69c1, 0x3efbe4786, 0x40fc19dc6, 0x4240ca1cc, 0x42de92c6f, 0x44a7484aa, 0x45cb0a9dc, 0x476f988da])
    ensures CubeRoots(ConstantRow(3), [97, 101, 103, 107, 109, 113, 127, 131],
      [0x4983e5152, 0x4a831c66d, 0x4b00327c8, 0x4bf597fc7, 0x4c6e00bf3, 0x4d5a79147, 0x506ca6351, 0x514292967])
  {
  }

  lemma {:induction false} ConstantRootsTo223()
    ensures CubeRoots(ConstantRow(4), [137, 139, 149, 151, 157, 163, 167, 173],
      [0x527b70a85, 0x52e1b2138, 0x54d2c6dfc, 0x553380d13, 0x5650a7354, 0x5766a0abb, 0x581c2c92e, 0x592722c85])
    ensures CubeRoots(ConstantRow(5), [179, 181, 191, 193, 197, 199, 211, 223],
      [0x5a2bfe8a1, 0x5a81a664b, 0x5c24b8b70, 0x5c76c51a3, 0x5d192e819, 0x5d6990624, 0x5f40e3585, 0x6106aa070])
  {
  }

  lemma {:induction false} ConstantRootsTo311()
    ensures CubeRoots(ConstantRow(6), [227, 229, 233, 239, 241, 251, 257, 263],
      [0x619a4c116, 0x61e376c08, 0x62748774c, 0x634b0bcb5, 0x6391c0cb3, 0x64ed8aa4a, 0x65b9cca4f, 0x6682e6ff3])
    ensures CubeRoots(ConstantRow(7), [269, 271, 277, 281, 283, 293, 307, 311],
      [0x6748f82ee, 0x678a5636f, 0x684c87814, 0x68cc70208, 0x690befffa, 0x6a4506ceb, 0x6bef9a3f7, 0x6c67178f2])
  {
  }
}
