/**
 The digests of two messages worked out: "abc", which takes one block, and a
 message of 56 letters, whose padding takes a second one.
 */
module Sha256Examples {
  import opened Sha256

  // ----- evaluation, eight steps at a time -----

  /** The rotations and shifts spelled out. */
  function Bits1(e: Word, f: Word, g: Word, h: Word, k: Word, w: Word): Word {
    Sum5(h, e.RotateRight(6) ^ e.RotateRight(11) ^ e.RotateRight(25), (e & f) ^ (!e & g), k, w)
  }

  function Bits2(a: Word, b: Word, c: Word): Word {
    Plus(a.RotateRight(2) ^ a.RotateRight(13) ^ a.RotateRight(22), (a & b) ^ (a & c) ^ (b & c))
  }

  function Minus(x: Word, y: Word): Word { x - y }

  /** One round takes a to h into a', a, b, c, e', e, f, g. */
  predicate Turn(a: Word, b: Word, c: Word, d: Word, e: Word, f: Word, g: Word, h: Word, k: Word, w: Word, a': Word,
                 e': Word) {
    Bits1(e, f, g, h, k, w) == Minus(e', d) && Bits2(a, b, c) == Minus(a', Minus(e', d))
  }

  lemma {:induction false} Difference(x: Word, y: Word, z: Word)
    requires z == y - x
    ensures Plus(x, z) == y && Plus(z, x) == y
  {
  }

  lemma {:induction false} TakeBack(x: Word, y: Word, z: Word)
    requires z == Minus(y, x)
    ensures Plus(x, z) == y && Plus(z, x) == y
  {
    hide Plus;
    Difference(x, y, z);
  }

  lemma {:induction false} TurnIsRound(v: Eight, k: Word, w: Word, a': Word, e': Word)
    requires Turn(v.a, v.b, v.c, v.d, v.e, v.f, v.g, v.h, k, w, a', e')
    ensures Round(v, k, w) == Eight(a', v.a, v.b, v.c, e', v.e, v.f, v.g)
  {
    hide *;
    BitsAre(v, k, w, a', e');
    var t1, t2 := Temporary1(v.e, v.f, v.g, v.h, k, w), Temporary2(v.a, v.b, v.c);
    TakeBack(v.d, e', t1);
    TakeBack(t1, a', t2);
    RoundUses(v, k, w);
  }

  lemma {:induction false} RoundUses(v: Eight, k: Word, w: Word)
    ensures var t1, t2 := Temporary1(v.e, v.f, v.g, v.h, k, w), Temporary2(v.a, v.b, v.c);
      Round(v, k, w) == Eight(Plus(t1, t2), v.a, v.b, v.c, Plus(v.d, t1), v.e, v.f, v.g)
  {
    hide Temporary1, Temporary2, Plus;
  }

  lemma {:induction false} SameBits(a: Word, b: Word, c: Word, e: Word, f: Word, g: Word, h: Word, k: Word, w: Word)
    ensures Temporary1(e, f, g, h, k, w) == Bits1(e, f, g, h, k, w) && Temporary2(a, b, c) == Bits2(a, b, c)
  {
    hide Sum5, Plus;
  }

  lemma {:induction false} BitsAre(v: Eight, k: Word, w: Word, a': Word, e': Word)
    requires Turn(v.a, v.b, v.c, v.d, v.e, v.f, v.g, v.h, k, w, a', e')
    ensures Temporary1(v.e, v.f, v.g, v.h, k, w) == Minus(e', v.d)
    ensures Temporary2(v.a, v.b, v.c) == Minus(a', Temporary1(v.e, v.f, v.g, v.h, k, w))
  {
    hide Temporary1, Temporary2, Bits1, Bits2, Minus;
    SameBits(v.a, v.b, v.c, v.e, v.f, v.g, v.h, k, w);
  }

  /** Four rounds from x to y, which between them hold every variable on the way. */
  predicate FourTurns(x: Eight, y: Eight, k0: Word, w0: Word, k1: Word, w1: Word, k2: Word, w2: Word, k3: Word,
                      w3: Word) {
    && Turn(x.a, x.b, x.c, x.d, x.e, x.f, x.g, x.h, k0, w0, y.d, y.h)
    && Turn(y.d, x.a, x.b, x.c, y.h, x.e, x.f, x.g, k1, w1, y.c, y.g)
    && Turn(y.c, y.d, x.a, x.b, y.g, y.h, x.e, x.f, k2, w2, y.b, y.f)
    && Turn(y.b, y.c, y.d, x.a, y.f, y.g, y.h, x.e, k3, w3, y.a, y.e)
  }

  /** Eight rounds with a row of constants and a row of the schedule. */
  predicate EightTurns(x: Eight, m: Eight, y: Eight, k: Eight, w: Eight) {
    && FourTurns(x, m, k.a, w.a, k.b, w.b, k.c, w.c, k.d, w.d)
    && FourTurns(m, y, k.e, w.e, k.f, w.f, k.g, w.g, k.h, w.h)
  }

  lemma {:induction false} FourTurnsAreRounds(x: Eight, y: Eight, k0: Word, w0: Word, k1: Word, w1: Word, k2: Word,
                                              w2: Word, k3: Word, w3: Word)
    requires FourTurns(x, y, k0, w0, k1, w1, k2, w2, k3, w3)
    ensures Round(Round(Round(Round(x, k0, w0), k1, w1), k2, w2), k3, w3) == y
  {
    hide Turn, Round;
    TurnIsRound(x, k0, w0, y.d, y.h);
    TurnIsRound(Eight(y.d, x.a, x.b, x.c, y.h, x.e, x.f, x.g), k1, w1, y.c, y.g);
    TurnIsRound(Eight(y.c, y.d, x.a, x.b, y.g, y.h, x.e, x.f), k2, w2, y.b, y.f);
    TurnIsRound(Eight(y.b, y.c, y.d, x.a, y.f, y.g, y.h, x.e), k3, w3, y.a, y.e);
  }

  /** Row q of the message schedule. */
  function ScheduleRow(block: seq<Byte>, q: nat): Eight
    requires |block| == 64
  {
    Eight(Schedule(block, 8 * q), Schedule(block, 8 * q + 1), Schedule(block, 8 * q + 2), Schedule(block, 8 * q + 3),
          Schedule(block, 8 * q + 4), Schedule(block, 8 * q + 5), Schedule(block, 8 * q + 6),
            Schedule(block, 8 * q + 7))
  }

  /** The row that follows the rows x and y. */
  function NextRow(x: Eight, y: Eight): Eight {
    var a, b := Sum4(x.a, Sigma0(x.b), y.b, Sigma1(y.g)), Sum4(x.b, Sigma0(x.c), y.c, Sigma1(y.h));
    var c, d := Sum4(x.c, Sigma0(x.d), y.d, Sigma1(a)), Sum4(x.d, Sigma0(x.e), y.e, Sigma1(b));
    var e, f := Sum4(x.e, Sigma0(x.f), y.f, Sigma1(c)), Sum4(x.f, Sigma0(x.g), y.g, Sigma1(d));
    var g, h := Sum4(x.g, Sigma0(x.h), y.h, Sigma1(e)), Sum4(x.h, Sigma0(y.a), a, Sigma1(f));
    Eight(a, b, c, d, e, f, g, h)
  }

  lemma {:induction false} ScheduleGoesOn(block: seq<Byte>, q: nat)
    requires |block| == 64 && q >= 2
    ensures ScheduleRow(block, q) == NextRow(ScheduleRow(block, q - 2), ScheduleRow(block, q - 1))
  {
    hide Sum4, Sigma0, Sigma1, Schedule;
    ScheduleMixes(block, 8 * q);
    ScheduleMixes(block, 8 * q + 1);
    ScheduleMixes(block, 8 * q + 2);
    ScheduleMixes(block, 8 * q + 3);
    ScheduleMixes(block, 8 * q + 4);
    ScheduleMixes(block, 8 * q + 5);
    ScheduleMixes(block, 8 * q + 6);
    ScheduleMixes(block, 8 * q + 7);
  }

  lemma {:induction false} ConstantAt(q: nat, i: nat)
    requires q < 8 && i < 8
    ensures RoundConstant(8 * q + i) == WordOf(ConstantRow(q), i)
  {
    hide ConstantRow, WordOf;
    assert (8 * q + i) / 8 == q && (8 * q + i) % 8 == i;
  }

  lemma {:induction false} RoundAt(start: Eight, block: seq<Byte>, q: nat, i: nat)
    requires |block| == 64 && q < 8 && i < 8
    ensures Rounds(start, block, 8 * q + i + 1) ==
      Round(Rounds(start, block, 8 * q + i), WordOf(ConstantRow(q), i), WordOf(ScheduleRow(block, q), i))
  {
    hide Round, ConstantRow, Schedule, RoundConstant;
    ConstantAt(q, i);
  }

  /** Eight rounds at once. */
  lemma {:induction false} EightRounds(start: Eight, block: seq<Byte>, q: nat, x: Eight, m: Eight, y: Eight)
    requires |block| == 64 && q < 8 && Rounds(start, block, 8 * q) == x
    requires EightTurns(x, m, y, ConstantRow(q), ScheduleRow(block, q))
    ensures Rounds(start, block, 8 * q + 8) == y
  {
    hide Round, ConstantRow, ScheduleRow, Rounds, FourTurns;
    var k, w := ConstantRow(q), ScheduleRow(block, q);
    FourTurnsAreRounds(x, m, k.a, w.a, k.b, w.b, k.c, w.c, k.d, w.d);
    FourTurnsAreRounds(m, y, k.e, w.e, k.f, w.f, k.g, w.g, k.h, w.h);
    FourMore(start, block, q, 0, x);
    FourMore(start, block, q, 4, m);
  }

  lemma {:induction false} FourMore(start: Eight, block: seq<Byte>, q: nat, i: nat, x: Eight)
    requires |block| == 64 && q < 8 && i <= 4 && Rounds(start, block, 8 * q + i) == x
    ensures var k, w := ConstantRow(q), ScheduleRow(block, q);
      Rounds(start, block, 8 * q + i + 4) ==
        Round(Round(Round(Round(x, WordOf(k, i), WordOf(w, i)), WordOf(k, i + 1), WordOf(w, i + 1)),
          WordOf(k, i + 2), WordOf(w, i + 2)), WordOf(k, i + 3), WordOf(w, i + 3))
  {
    hide Round, ConstantRow, ScheduleRow, Rounds, WordOf;
    RoundAt(start, block, q, i);
    RoundAt(start, block, q, i + 1);
    RoundAt(start, block, q, i + 2);
    RoundAt(start, block, q, i + 3);
  }

  /** Six rows from the first two. */
  lemma {:induction false} AllRows(block: seq<Byte>, w0: Eight, w1: Eight, w2: Eight, w3: Eight, w4: Eight, w5: Eight,
                                  w6: Eight, w7: Eight)
    requires |block| == 64 && ScheduleRow(block, 0) == w0 && ScheduleRow(block, 1) == w1
    requires NextRow(w0, w1) == w2 && NextRow(w1, w2) == w3 && NextRow(w2, w3) == w4
    requires NextRow(w3, w4) == w5 && NextRow(w4, w5) == w6 && NextRow(w5, w6) == w7
    ensures ScheduleRow(block, 2) == w2 && ScheduleRow(block, 3) == w3 && ScheduleRow(block, 4) == w4
    ensures ScheduleRow(block, 5) == w5 && ScheduleRow(block, 6) == w6 && ScheduleRow(block, 7) == w7
  {
    hide *;
    ScheduleGoesOn(block, 2);
    ScheduleGoesOn(block, 3);
    ScheduleGoesOn(block, 4);
    ScheduleGoesOn(block, 5);
    ScheduleGoesOn(block, 6);
    ScheduleGoesOn(block, 7);
  }

  /** Half of the rounds, from the variables after every fourth one. */
  lemma {:induction false} HalfRounds(start: Eight, block: seq<Byte>, q: nat, s0: Eight, s1: Eight, s2: Eight, s3:
                                     Eight, s4: Eight, s5: Eight, s6: Eight, s7: Eight, s8: Eight)
    requires |block| == 64 && q <= 4 && Rounds(start, block, 8 * q) == s0
    requires EightTurns(s0, s1, s2, ConstantRow(q), ScheduleRow(block, q))
    requires EightTurns(s2, s3, s4, ConstantRow(q + 1), ScheduleRow(block, q + 1))
    requires EightTurns(s4, s5, s6, ConstantRow(q + 2), ScheduleRow(block, q + 2))
    requires EightTurns(s6, s7, s8, ConstantRow(q + 3), ScheduleRow(block, q + 3))
    ensures Rounds(start, block, 8 * q + 32) == s8
  {
    hide *;
    EightRounds(start, block, q, s0, s1, s2);
    EightRounds(start, block, q + 1, s2, s3, s4);
    EightRounds(start, block, q + 2, s4, s5, s6);
    EightRounds(start, block, q + 3, s6, s7, s8);
  }

  lemma {:induction false} NoRounds(start: Eight, block: seq<Byte>)
    requires |block| == 64
    ensures Rounds(start, block, 0) == start
  {
  }

  // ----- printing -----

  type Nibble = d: nat | d < 16

  lemma {:induction false} Split(n: nat, m: nat, d: Nibble)
    requires n == 16 * m + d
    ensures n / 16 == m && n % 16 == d
  {
  }

  lemma {:induction false} LastDigit(n: nat, m: nat, d: Nibble, width: nat)
    requires n == 16 * m + d
    ensures HexDigits(n, width + 1) == HexDigits(m, width) + [DIGITS[d]]
  {
    Split(n, m, d);
    assert HexDigits(n, width + 1) == HexDigits(n / 16, width) + [DIGITS[n % 16]];
  }

  /** Two more digits. */
  lemma {:induction false} LastTwo(n: nat, m: nat, d: Nibble, e: Nibble, width: nat)
    requires n == 256 * m + 16 * d + e
    ensures HexDigits(n, width + 2) == HexDigits(m, width) + [DIGITS[d], DIGITS[e]]
  {
    hide *;
    var k := 16 * m + d;
    LastDigit(k, m, d, width);
    LastDigit(n, k, e, width + 1);
  }

  lemma {:induction false} EightDigits(n: nat, a: Nibble, b: Nibble, c: Nibble, d: Nibble, e: Nibble, f: Nibble,
                                       g: Nibble, h: Nibble)
    requires n == 0x100_0000 * (16 * a + b) + 0x1_0000 * (16 * c + d) + 0x100 * (16 * e + f) + 16 * g + h
    ensures HexDigits(n, 8) == [DIGITS[a], DIGITS[b], DIGITS[c], DIGITS[d], DIGITS[e], DIGITS[f], DIGITS[g], DIGITS[h]]
  {
    assert HexDigits(0, 0) == "";
    hide *;
    var m2 := 16 * a + b;
    var m4 := 256 * m2 + 16 * c + d;
    var m6 := 256 * m4 + 16 * e + f;
    LastTwo(m2, 0, a, b, 0);
    LastTwo(m4, m2, c, d, 2);
    LastTwo(m6, m4, e, f, 4);
    LastTwo(n, m6, g, h, 6);
  }

  lemma {:induction false} HexIs(w: Word, n: nat)
    requires w as nat == n
    ensures HexWord(w) == HexDigits(n, 8)
  {
    hide HexDigits;
  }

  lemma {:induction false} Digits()
    ensures DIGITS[0] == '0' && DIGITS[1] == '1' && DIGITS[2] == '2' && DIGITS[3] == '3' && DIGITS[4] == '4'
      && DIGITS[5] == '5'
    ensures DIGITS[6] == '6' && DIGITS[7] == '7' && DIGITS[8] == '8' && DIGITS[9] == '9' && DIGITS[10] == 'a'
      && DIGITS[11] == 'b'
    ensures DIGITS[12] == 'c' && DIGITS[13] == 'd' && DIGITS[14] == 'e' && DIGITS[15] == 'f' {
  }

  // ----- the padded examples -----

  lemma {:induction false} PadAt(m: seq<Byte>, i: nat)
    requires i < |Pad(m)|
    ensures Pad(m)[i] ==
      if i < |m| then m[i] else if i == |m| then 0x80 else if i < |Pad(m)| - 8 then 0
      else BigEndian(8 * |m|, 8)[i - (|Pad(m)| - 8)]
  {
    hide ZeroCount, Fills, BigEndian;
  }

  lemma {:induction false} NoDigits(width: nat)
    ensures BigEndian(0, width) == Zeros(width)
  {
    if width > 0 {
      NoDigits(width - 1);
      assert Zeros(width - 1) + [0] == Zeros(width);
    }
  }

  /** The length field of a short message. */
  lemma {:induction false} ShortLength(n: nat, i: nat)
    requires n < 0x1_0000 && i < 8
    ensures BigEndian(n, 8)[i] == if i == 7 then n % 256 else if i == 6 then n / 256 else 0
  {
    NoDigits(6);
    assert BigEndian(n / 256, 7) == BigEndian(0, 6) + [n / 256];
    assert BigEndian(n, 8) == BigEndian(n / 256, 7) + [n % 256];
    hide BigEndian;
  }

  /** The first two rows of a block are its bytes. */
  lemma {:induction false} LoadedRows(block: seq<Byte>)
    requires |block| == 64
    ensures ScheduleRow(block, 0) ==
      Eight(WordAt(block, 0), WordAt(block, 1), WordAt(block, 2), WordAt(block, 3),
            WordAt(block, 4), WordAt(block, 5), WordAt(block, 6), WordAt(block, 7))
    ensures ScheduleRow(block, 1) ==
      Eight(WordAt(block, 8), WordAt(block, 9), WordAt(block, 10), WordAt(block, 11),
            WordAt(block, 12), WordAt(block, 13), WordAt(block, 14), WordAt(block, 15))
  {
    hide WordAt;
  }

  /** "abc" */
  const ABC: seq<Byte> := [0x61, 0x62, 0x63]

  /** "abcdbcdecdefdefgefghfghighijhijkijkljklmklmnlmnomnopnopq": 14 runs of four letters, each starting one later. */
  const LETTERS: seq<Byte> := seq(56, i requires 0 <= i < 56 => 0x61 + i / 4 + i % 4)

  lemma {:induction false} LetterWords()

    ensures Join(0x61, 0x62, 0x63, 0x80) == 0x61626380
    ensures Join(0x80, 0, 0, 0) == 0x80000000
    ensures Join(0, 0, 0, 0) == 0x00000000
    ensures Join(0, 0, 0, 0x18) == 0x00000018
    ensures Join(0, 0, 1, 0xc0) == 0x000001c0
    ensures Join(0x61, 0x62, 0x63, 0x64) == 0x61626364
    ensures Join(0x62, 0x63, 0x64, 0x65) == 0x62636465
    ensures Join(0x63, 0x64, 0x65, 0x66) == 0x63646566
    ensures Join(0x64, 0x65, 0x66, 0x67) == 0x64656667
    ensures Join(0x65, 0x66, 0x67, 0x68) == 0x65666768
    ensures Join(0x66, 0x67, 0x68, 0x69) == 0x66676869
    ensures Join(0x67, 0x68, 0x69, 0x6a) == 0x6768696a
    ensures Join(0x68, 0x69, 0x6a, 0x6b) == 0x68696a6b
    ensures Join(0x69, 0x6a, 0x6b, 0x6c) == 0x696a6b6c
    ensures Join(0x6a, 0x6b, 0x6c, 0x6d) == 0x6a6b6c6d
    ensures Join(0x6b, 0x6c, 0x6d, 0x6e) == 0x6b6c6d6e
    ensures Join(0x6c, 0x6d, 0x6e, 0x6f) == 0x6c6d6e6f
    ensures Join(0x6d, 0x6e, 0x6f, 0x70) == 0x6d6e6f70
    ensures Join(0x6e, 0x6f, 0x70, 0x71) == 0x6e6f7071
  {
    assert (0 as Word) == 0;
    assert (1 as Word) == 1;
    assert (0x18 as Word) == 0x18;
    assert (0x80 as Word) == 0x80;
    assert (0xc0 as Word) == 0xc0;
    assert (0x61 as Word) == 0x61;
    assert (0x62 as Word) == 0x62;
    assert (0x63 as Word) == 0x63;
    assert (0x64 as Word) == 0x64;
    assert (0x65 as Word) == 0x65;
    assert (0x66 as Word) == 0x66;
    assert (0x67 as Word) == 0x67;
    assert (0x68 as Word) == 0x68;
    assert (0x69 as Word) == 0x69;
    assert (0x6a as Word) == 0x6a;
    assert (0x6b as Word) == 0x6b;
    assert (0x6c as Word) == 0x6c;
    assert (0x6d as Word) == 0x6d;
    assert (0x6e as Word) == 0x6e;
    assert (0x6f as Word) == 0x6f;
    assert (0x70 as Word) == 0x70;
    assert (0x71 as Word) == 0x71;
  }

  lemma {:induction false} AbcPadded(i: nat)
    requires i < 64
    ensures |Pad(ABC)| == 64
    ensures Pad(ABC)[i] == if i < 3 then 0x61 + i else if i == 3 then 0x80 else if i == 63 then 24 else 0
  {
    assert |Pad(ABC)| == 64 by { ZeroCountIs(3, 3); }
    hide Pad;
    PadAt(ABC, i);
    if i >= 56 { ShortLength(24, i - 56); }
  }

  lemma {:induction false} AbcWord(block: seq<Byte>, i: nat)
    requires |block| == 64 && i < 16
    requires forall k :: 0 <= k < 64 ==>
      block[k] == if k < 3 then 0x61 + k else if k == 3 then 0x80 else if k == 63 then 24 else 0
    ensures WordAt(block, i) ==
      if i == 0 then Join(0x61, 0x62, 0x63, 0x80) else Join(0, 0, 0, if i == 15 then 24 else 0)
  {
    hide Join;
  }

  lemma {:induction false} AbcBlock()
    ensures |Pad(ABC)| == 64 && ScheduleRow(Pad(ABC), 0) == AW0 && ScheduleRow(Pad(ABC), 1) == AW1
  {
    hide Pad, ABC, ScheduleRow, WordAt, Join;
    AbcPadded(0);
    var p := Pad(ABC);
    forall k | 0 <= k < 64
      ensures p[k] == if k < 3 then 0x61 + k else if k == 3 then 0x80 else if k == 63 then 24 else 0
    {
      AbcPadded(k);
    }
    forall i: nat | i < 16
      ensures WordAt(p, i) ==
        if i == 0 then Join(0x61, 0x62, 0x63, 0x80) else Join(0, 0, 0, if i == 15 then 24 else 0)
    {
      AbcWord(p, i);
    }
    LoadedRows(p);
    LetterWords();
  }

  lemma {:induction false} LettersPadded(i: nat)
    requires i < 128
    ensures |Pad(LETTERS)| == 128
    ensures Pad(LETTERS)[i] ==
      if i < 56 then 0x61 + i / 4 + i % 4 else if i == 56 then 0x80 else if i == 127 then 0xc0
      else if i == 126 then 1 else 0
  {
    assert |Pad(LETTERS)| == 128 by { ZeroCountIs(56, 56); }
    hide Pad;
    PadAt(LETTERS, i);
    if i >= 120 { ShortLength(448, i - 120); }
  }

  lemma {:induction false} LettersWord(block: seq<Byte>, i: nat)
    requires |block| == 64 && i < 16
    requires forall k :: 0 <= k < 64 ==>
      block[k] == if k < 56 then 0x61 + k / 4 + k % 4 else if k == 56 then 0x80 else 0
    ensures WordAt(block, i) ==
      if i < 14 then Join(0x61 + i, 0x62 + i, 0x63 + i, 0x64 + i) else Join(if i == 14 then 0x80 else 0, 0, 0, 0)
  {
    hide Join;
    assert block[4 * i + 1] == if i < 14 then 0x62 + i else 0;
    assert block[4 * i + 2] == if i < 14 then 0x63 + i else 0;
    assert block[4 * i + 3] == if i < 14 then 0x64 + i else 0;
  }

  lemma {:induction false} LettersBlock(block: seq<Byte>)
    requires |block| == 64
    requires forall k :: 0 <= k < 64 ==>
      block[k] == if k < 56 then 0x61 + k / 4 + k % 4 else if k == 56 then 0x80 else 0
    ensures ScheduleRow(block, 0) == BW0 && ScheduleRow(block, 1) == BW1
  {
    hide ScheduleRow, WordAt, Join;
    forall i: nat | i < 16
      ensures WordAt(block, i) ==
        if i < 14 then Join(0x61 + i, 0x62 + i, 0x63 + i, 0x64 + i) else Join(if i == 14 then 0x80 else 0, 0, 0, 0)
    {
      LettersWord(block, i);
    }
    LoadedRows(block);
    LetterWords();
  }

  lemma {:induction false} TailBlock(block: seq<Byte>)
    requires |block| == 64
    requires forall k :: 0 <= k < 64 ==> block[k] == if k == 63 then 0xc0 else if k == 62 then 1 else 0
    ensures ScheduleRow(block, 0) == CW0 && ScheduleRow(block, 1) == CW1
  {
    hide Join;
    LetterWords();
    LoadedRows(block);
  }

  lemma {:induction false} LettersBlocks()
    ensures var p := Pad(LETTERS);
      && |p| == 128
      && ScheduleRow(p[..64], 0) == BW0 && ScheduleRow(p[..64], 1) == BW1
      && ScheduleRow(p[64..], 0) == CW0 && ScheduleRow(p[64..], 1) == CW1
  {
    hide Pad, LETTERS, ScheduleRow;
    LettersPadded(0);
    var p := Pad(LETTERS);
    forall i | 0 <= i < 64 ensures p[..64][i] == if i < 56 then 0x61 + i / 4 + i % 4 else if i == 56 then 0x80 else 0 {
      LettersPadded(i);
    }
    forall i | 0 <= i < 64 ensures p[64..][i] == if i == 63 then 0xc0 else if i == 62 then 1 else 0 {
      LettersPadded(64 + i);
    }
    LettersBlock(p[..64]);
    TailBlock(p[64..]);
  }

  // ----- the example of one block -----

  const AW0 := Eight(0x61626380, 0x00000000, 0x00000000, 0x00000000, 0x00000000, 0x00000000, 0x00000000, 0x00000000)
  const AW1 := Eight(0x00000000, 0x00000000, 0x00000000, 0x00000000, 0x00000000, 0x00000000, 0x00000000, 0x00000018)
  const AW2 := Eight(0x61626380, 0x000f0000, 0x7da86405, 0x600003c6, 0x3e9d7b78, 0x0183fc00, 0x12dcbfdb, 0xe2e2c38e)
  const AW3 := Eight(0xc8215c1a, 0xb73679a2, 0xe5bc3909, 0x32663c5b, 0x9d209d67, 0xec8726cb, 0x702138a4, 0xd3b7973b)
  const AW4 := Eight(0x93f5997f, 0x3b68ba73, 0xaff4ffc1, 0xf10a5c62, 0x0a8b3996, 0x72af830a, 0x9409e33e, 0x24641522)
  const AW5 := Eight(0x9f47bf94, 0xf0a64f5a, 0x3e246a79, 0x27333ba3, 0x0c4763f2, 0x840abf27, 0x7a290d5d, 0x065c43da)
  const AW6 := Eight(0xfb3e89cb, 0xcc7617db, 0xb9e66c34, 0xa9993667, 0x84badedd, 0xc21462bc, 0x1487472c, 0xb20f7a99)
  const AW7 := Eight(0xef57b9cd, 0xebe6b238, 0x9fe3095e, 0x78bc8d4b, 0xa43fcf15, 0x668b2ff8, 0xeeaba2cc, 0x12b1edeb)

  const A0 := Eight(0x6a09e667, 0xbb67ae85, 0x3c6ef372, 0xa54ff53a, 0x510e527f, 0x9b05688c, 0x1f83d9ab, 0x5be0cd19)
  const A1 := Eight(0xd550f666, 0xc8c347a7, 0x5a6ad9ad, 0x5d6aebcd, 0x24e00850, 0xf92939eb, 0x78ce7989, 0xfa2a4622)
  const A2 := Eight(0x85a07b5f, 0xe5030380, 0x2b4209f5, 0x04409a6a, 0x0c657a79, 0x9b27a401, 0x714260ad, 0x43ada245)
  const A3 := Eight(0xf71fc5a9, 0x4798a3f4, 0x8c87346b, 0x8e04ecb9, 0x816fd6e9, 0x436b23e8, 0x1cc92596, 0x32ca2d8c)
  const A4 := Eight(0xb0fa238e, 0xc0645fde, 0xd932eb16, 0x87912990, 0x07590dcd, 0x0b92f20c, 0x745a48de, 0x1e578218)
  const A5 := Eight(0xe1f20c33, 0xfe777bbf, 0xc2fbd9d1, 0x21da9a9b, 0xb0638179, 0xcc899961, 0x846ee454, 0x8034229c)
  const A6 := Eight(0xc5d53d8d, 0xa7a3623f, 0xc2606d6d, 0x9dc68b63, 0xaa47c347, 0x49f5114a, 0xe1257970, 0x8ada8930)
  const A7 := Eight(0x77d37528, 0xb62ec4bc, 0xcde8037d, 0x1c2c2838, 0xedffbff8, 0xc74c6516, 0x14383d8e, 0x2823ef91)
  const A8 := Eight(0x73b33bf5, 0xea992a22, 0xa0060b30, 0x363482c9, 0xba591112, 0x0109ab3a, 0xade79437, 0x6112a3b7)
  const A9 := Eight(0x65a0cfe4, 0xa9a7738c, 0xfe604df5, 0x98e12507, 0xf4b002d6, 0x085f3833, 0x59249dd3, 0x9cd9f5f6)
  const A10 := Eight(0x79ea687a, 0x6dc57a8a, 0x34df1604, 0x41a65cb1, 0x1efbc0a0, 0xf0781bc8, 0xa507a53d, 0x0772a26b)
  const A11 := Eight(0x9d4baf93, 0x17aa0dfe, 0xdf46652f, 0xd6670766, 0xfda24c2e, 0xdecd4715, 0x838b2711, 0x26352d63)
  const A12 := Eight(0x4172328d, 0xa14c14b0, 0x72ab4b91, 0x26628815, 0xfecf0bc6, 0xd57b94a9, 0xb7755da1, 0xa80f11f0)
  const A13 := Eight(0x886e7a22, 0x7a0508a1, 0xf11bfaa8, 0x05757ceb, 0x49231c1e, 0x52f1ccf7, 0x6e5c390c, 0xbd714038)
  const A14 := Eight(0x38cc9913, 0x3ec45cdb, 0xf5702fdb, 0x101fd28f, 0x54cb266b, 0xe50e1b4f, 0x9f4787c3, 0x529e7d00)
  const A15 := Eight(0xb6ae8fff, 0xffb70472, 0xc062d46f, 0xfcd1887b, 0xb21bad3d, 0x6d83bfc6, 0x7e44008e, 0x9b5e906c)
  const A16 := Eight(0x506e3058, 0xd39a2165, 0x04d24d6c, 0xb85e2ce9, 0x5ef50f24, 0xfb121210, 0x948d25b6, 0x961f4894)

  lemma {:induction false} AbcRows()
    ensures NextRow(AW0, AW1) == AW2 && NextRow(AW1, AW2) == AW3 && NextRow(AW2, AW3) == AW4
    ensures NextRow(AW3, AW4) == AW5 && NextRow(AW4, AW5) == AW6 && NextRow(AW5, AW6) == AW7
  {
  }

  lemma {:induction false} AbcTurns0()
    ensures EightTurns(A0, A1, A2, ConstantRow(0), AW0)
    ensures EightTurns(A2, A3, A4, ConstantRow(1), AW1)
  {
  }

  lemma {:induction false} AbcTurns1()
    ensures EightTurns(A4, A5, A6, ConstantRow(2), AW2)
    ensures EightTurns(A6, A7, A8, ConstantRow(3), AW3)
  {
  }

  lemma {:induction false} AbcTurns2()
    ensures EightTurns(A8, A9, A10, ConstantRow(4), AW4)
    ensures EightTurns(A10, A11, A12, ConstantRow(5), AW5)
  {
  }

  lemma {:induction false} AbcTurns3()
    ensures EightTurns(A12, A13, A14, ConstantRow(6), AW6)
    ensures EightTurns(A14, A15, A16, ConstantRow(7), AW7)
  {
  }

  lemma {:induction false} AbcRounds(block: seq<Byte>)
    requires |block| == 64 && ScheduleRow(block, 0) == AW0 && ScheduleRow(block, 1) == AW1
    ensures Rounds(A0, block, 64) == A16
  {
    hide *;
    AbcRows();
    AbcTurns0();
    AbcTurns1();
    AbcTurns2();
    AbcTurns3();
    AllRows(block, AW0, AW1, AW2, AW3, AW4, AW5, AW6, AW7);
    NoRounds(A0, block);
    HalfRounds(A0, block, 0, A0, A1, A2, A3, A4, A5, A6, A7, A8);
    HalfRounds(A0, block, 4, A8, A9, A10, A11, A12, A13, A14, A15, A16);
  }

  const ABC_HASH := Eight(0xba7816bf, 0x8f01cfea, 0x414140de, 0x5dae2223, 0xb00361a3, 0x96177a9c, 0xb410ff61,
    0xf20015ad)

  lemma {:induction false} AbcSum()
    ensures A0 == INITIAL && Add(A0, A16) == ABC_HASH
  {
  }

  lemma {:induction false} OneBlock(bytes: seq<Byte>)
    requires |bytes| == 64
    ensures HashBlocks(bytes) == Compress(INITIAL, bytes)
  {
    hide Compress;
    assert bytes[..0] == [] && bytes[0..] == bytes;
  }

  lemma {:induction false} AbcHash()
    ensures Hash(ABC) == ABC_HASH
  {
    var p := Pad(ABC);
    hide *;
    AbcBlock();
    OneBlock(p);
    AbcRounds(p);
    CompressIs(A0, p, A16);
    AbcSum();
    HashIs(ABC);
  }

  lemma {:induction false} HashIs(m: seq<Byte>)
    ensures Hash(m) == HashBlocks(Pad(m))
  {
  }

  lemma {:induction false} AbcHex()
    ensures HexWord(0xba7816bf) == "ba7816bf"
    ensures HexWord(0x8f01cfea) == "8f01cfea"
    ensures HexWord(0x414140de) == "414140de"
    ensures HexWord(0x5dae2223) == "5dae2223"
    ensures HexWord(0xb00361a3) == "b00361a3"
    ensures HexWord(0x96177a9c) == "96177a9c"
    ensures HexWord(0xb410ff61) == "b410ff61"
    ensures HexWord(0xf20015ad) == "f20015ad"
  {
    hide *;
    Digits();
    HexIs(0xba7816bf, 0xba7816bf);
    EightDigits(0xba7816bf, 11, 10, 7, 8, 1, 6, 11, 15);
    HexIs(0x8f01cfea, 0x8f01cfea);
    EightDigits(0x8f01cfea, 8, 15, 0, 1, 12, 15, 14, 10);
    HexIs(0x414140de, 0x414140de);
    EightDigits(0x414140de, 4, 1, 4, 1, 4, 0, 13, 14);
    HexIs(0x5dae2223, 0x5dae2223);
    EightDigits(0x5dae2223, 5, 13, 10, 14, 2, 2, 2, 3);
    HexIs(0xb00361a3, 0xb00361a3);
    EightDigits(0xb00361a3, 11, 0, 0, 3, 6, 1, 10, 3);
    HexIs(0x96177a9c, 0x96177a9c);
    EightDigits(0x96177a9c, 9, 6, 1, 7, 7, 10, 9, 12);
    HexIs(0xb410ff61, 0xb410ff61);
    EightDigits(0xb410ff61, 11, 4, 1, 0, 15, 15, 6, 1);
    HexIs(0xf20015ad, 0xf20015ad);
    EightDigits(0xf20015ad, 15, 2, 0, 0, 1, 5, 10, 13);
  }

  /** The digest of "abc". */
  lemma {:induction false} AbcDigest()
    ensures Hex(Hash(ABC)) ==
      "ba7816bf" + "8f01cfea" + "414140de" + "5dae2223" + "b00361a3" + "96177a9c" + "b410ff61" + "f20015ad"
  {
    hide Hash, ABC, HexWord;
    AbcHash();
    AbcHex();
  }

  // ----- the example of two blocks -----

  const BW0 := Eight(0x61626364, 0x62636465, 0x63646566, 0x64656667, 0x65666768, 0x66676869, 0x6768696a, 0x68696a6b)
  const BW1 := Eight(0x696a6b6c, 0x6a6b6c6d, 0x6b6c6d6e, 0x6c6d6e6f, 0x6d6e6f70, 0x6e6f7071, 0x80000000, 0x00000000)
  const BW2 := Eight(0xeb8012ad, 0xa7c3ae92, 0x76e93ba2, 0xba42e743, 0x92a92204, 0xd847e75e, 0x9e160036, 0xb280a7cb)
  const BW3 := Eight(0xddeb1516, 0xf36586f4, 0x969cd048, 0xe959d99d, 0x6accc0ec, 0xf54cb098, 0x2af1b2da, 0xee59c4c9)
  const BW4 := Eight(0xa835e16a, 0x1dff4429, 0xd6e15959, 0xc397cd6e, 0x6f1801ca, 0x21574205, 0x35ff7a84, 0x9743ee78)
  const BW5 := Eight(0xe44183e7, 0x0d09f00d, 0x9c89af54, 0x042d5bef, 0x71f134d0, 0x0f94f463, 0x7e49dc63, 0x6f65c997)
  const BW6 := Eight(0x0b706583, 0x179312ca, 0x503054e9, 0xba125c39, 0x7e9392c9, 0xd5cbaa1e, 0x78e0585d, 0xf6e7611c)
  const BW7 := Eight(0x8ac830ce, 0x8b47a303, 0xfd6e627f, 0x8c6e2c6a, 0x4001adf1, 0x1a3dd097, 0xa9df6f62, 0x6aa60a39)

  const B0 := Eight(0x6a09e667, 0xbb67ae85, 0x3c6ef372, 0xa54ff53a, 0x510e527f, 0x9b05688c, 0x1f83d9ab, 0x5be0cd19)
  const B1 := Eight(0x4a8d64d5, 0x97651825, 0x2f2d5fcf, 0x5d6aebb1, 0x6494841b, 0x62d5c49e, 0x4eb1cfce, 0xfa2a4606)
  const B2 := Eight(0xd237e6db, 0x485835b7, 0x55c8ef48, 0xf921c212, 0xa401d211, 0x39a5b2ca, 0x7ff91c94, 0x05c4f88a)
  const B3 := Eight(0x1762215c, 0xb8e2b4cb, 0x3a474b2b, 0x359f2bce, 0xee1c97a8, 0x443ed29e, 0x9037b3b8, 0xc09ffec4)
  const B4 := Eight(0xc3486194, 0xdd16cbb3, 0xd68e6457, 0x101a4861, 0x1496a54f, 0x9162aded, 0x9243f8af, 0x839a0fc9)
  const B5 := Eight(0x2139187b, 0xf402f058, 0x046a193e, 0xb9dcacb1, 0x7c304206, 0x6f433549, 0x885370b6, 0xd4f64250)
  const B6 := Eight(0x59fce6b9, 0xae2e2d4f, 0x1b2b66b8, 0xd70ac17d, 0xa2c7d51d, 0xf074fc95, 0xd560b028, 0x7cc6b262)
  const B7 := Eight(0x73f858af, 0x128661da, 0x573221da, 0x4a885065, 0xe77c797f, 0x1162d575, 0x36e74eb4, 0x763597fb)
  const B8 := Eight(0x5581ab07, 0xeb43f3ed, 0xdf7151a0, 0x74bcf468, 0xdf980085, 0x0635d880, 0x7629c961, 0x72abaecd)
  const B9 := Eight(0x0786dce8, 0x1df8e885, 0x9ce5a62f, 0x9fc905c8, 0xde2a21d1, 0x2a9e048e, 0x6ef3b6bd, 0xa94d2af1)
  const B10 := Eight(0x7e4d30b8, 0x91ac9d5d, 0xa985b4be, 0x2c55d3a6, 0x9f5b9b6d, 0x68d8d590, 0xf72bf353, 0xb067c1af)
  const B11 := Eight(0x167361de, 0xb62c7013, 0x508a16ab, 0x7e056794, 0x41dd3844, 0x80a92a00, 0x45459d97, 0x423b26c0)
  const B12 := Eight(0x13d82741, 0x165be9cd, 0x18f0d19d, 0xde71e2f2, 0xa7802a4d, 0xa483f080, 0x6b88472c, 0xff61c636)
  const B13 := Eight(0x81c1cde0, 0x758ca97a, 0x543c99a1, 0x017b9d99, 0x5c47eb7b, 0x100cf2ea, 0x16f134b6, 0xaeb10b60)
  const B14 := Eight(0x9e57c4a0, 0xf907b313, 0x1d6de87a, 0xb8d55619, 0xeec13548, 0x61a41711, 0x3443bed4, 0x1c806a61)
  const B15 := Eight(0xe18f259a, 0x921fccb6, 0x7c015a2c, 0x71629856, 0x51e15869, 0x43d8a034, 0xcb9d3dd0, 0x2f6c8c4e)
  const B16 := Eight(0x1bdc6f6f, 0x86126910, 0xf6f443f8, 0xbcfce922, 0x25d2430a, 0x2fc08f85, 0xacc75916, 0x962d8621)

  lemma {:induction false} LettersRows()
    ensures NextRow(BW0, BW1) == BW2 && NextRow(BW1, BW2) == BW3 && NextRow(BW2, BW3) == BW4
    ensures NextRow(BW3, BW4) == BW5 && NextRow(BW4, BW5) == BW6 && NextRow(BW5, BW6) == BW7
  {
  }

  lemma {:induction false} LettersTurns0()
    ensures EightTurns(B0, B1, B2, ConstantRow(0), BW0)
    ensures EightTurns(B2, B3, B4, ConstantRow(1), BW1)
  {
  }

  lemma {:induction false} LettersTurns1()
    ensures EightTurns(B4, B5, B6, ConstantRow(2), BW2)
    ensures EightTurns(B6, B7, B8, ConstantRow(3), BW3)
  {
  }

  lemma {:induction false} LettersTurns2()
    ensures EightTurns(B8, B9, B10, ConstantRow(4), BW4)
    ensures EightTurns(B10, B11, B12, ConstantRow(5), BW5)
  {
  }

  lemma {:induction false} LettersTurns3()
    ensures EightTurns(B12, B13, B14, ConstantRow(6), BW6)
    ensures EightTurns(B14, B15, B16, ConstantRow(7), BW7)
  {
  }

  lemma {:induction false} LettersRounds(block: seq<Byte>)
    requires |block| == 64 && ScheduleRow(block, 0) == BW0 && ScheduleRow(block, 1) == BW1
    ensures Rounds(B0, block, 64) == B16
  {
    hide *;
    LettersRows();
    LettersTurns0();
    LettersTurns1();
    LettersTurns2();
    LettersTurns3();
    AllRows(block, BW0, BW1, BW2, BW3, BW4, BW5, BW6, BW7);
    NoRounds(B0, block);
    HalfRounds(B0, block, 0, B0, B1, B2, B3, B4, B5, B6, B7, B8);
    HalfRounds(B0, block, 4, B8, B9, B10, B11, B12, B13, B14, B15, B16);
  }

  const CW0 := Eight(0x00000000, 0x00000000, 0x00000000, 0x00000000, 0x00000000, 0x00000000, 0x00000000, 0x00000000)
  const CW1 := Eight(0x00000000, 0x00000000, 0x00000000, 0x00000000, 0x00000000, 0x00000000, 0x00000000, 0x000001c0)
  const CW2 := Eight(0x00000000, 0x00d80000, 0x00000000, 0x00003677, 0x00000000, 0x1df5600d, 0x000001c0, 0x1c00501c)
  const CW3 := Eight(0x01b00000, 0x220a8d94, 0x0000a365, 0x177017e7, 0x63d38035, 0x090ab713, 0x4c7539ca, 0x0f19a8c9)
  const CW4 := Eight(0x5df4b0c4, 0xe257036a, 0xc97bb6f1, 0xc5b46f4d, 0xf8253c4e, 0xa558d189, 0x78696285, 0xed07117f)
  const CW5 := Eight(0x107358f6, 0x390ae496, 0x565010a2, 0xc51d7d44, 0x9e74c972, 0x6614b561, 0x30fc129d, 0x9ac684a8)
  const CW6 := Eight(0x2b658dbd, 0xe290f793, 0x9eebb24c, 0x9713b5de, 0x41061ab7, 0xe022e23b, 0x0772079e, 0x7de22d9c)
  const CW7 := Eight(0xc8b83778, 0x75a79849, 0xd93dbddb, 0x0a036c9d, 0xcb4f6ac6, 0x823f97e2, 0xea2f2a7a, 0xb9018b52)

  const C0 := Eight(0x85e655d6, 0x417a1795, 0x3363376a, 0x624cde5c, 0x76e09589, 0xcac5f811, 0xcc4b32c1, 0xf20e533a)
  const C1 := Eight(0xf268faa9, 0xfd1eebdc, 0x7c3c0f86, 0x7c20c838, 0xe20362ef, 0xaf71b9ea, 0x8c51be64, 0x4670ae6e)
  const C2 := Eight(0xbf9a93a0, 0x89bba3f1, 0x3eeb6c06, 0x185a5d79, 0x059abdd1, 0x0a34df03, 0xfe20cda6, 0x8dff3001)
  const C3 := Eight(0x5eb4ec40, 0x5b35025b, 0x2d964e86, 0x2c096744, 0xe11b4548, 0x10e77723, 0xaa27ed82, 0xabfa465b)
  const C4 := Eight(0x16a8cc79, 0x0cea5cbc, 0xd74080fa, 0x35ee996d, 0x0fcb1f6f, 0x60356548, 0x68aa893f, 0x5c24e2a2)
  const C5 := Eight(0x76f1a2bc, 0xdcff40fd, 0x23dcb6c2, 0xf16f634e, 0x0dc84bb1, 0x69bf7b95, 0xca9182d3, 0x8b21cdc1)
  const C6 := Eight(0xa4195b91, 0xf13ae55b, 0xd44dc81a, 0x20aad899, 0xeddbd6ed, 0x966aa287, 0x5bace62d, 0xcc4769f2)
  const C7 := Eight(0x0d936bab, 0x9450fbbc, 0xaa6cb982, 0x4984fa79, 0x6e495d4b, 0x09166dda, 0x0b5eeea4, 0xa530d939)
  const C8 := Eight(0xb0eab1c5, 0x02ef3a5f, 0x1cfa5eb0, 0xd958b529, 0xf6d93952, 0x5da10665, 0x6c49db9f, 0xc2fa99b1)
  const C9 := Eight(0xecde4e0d, 0x9907f1b6, 0x4bd1df96, 0x0bfba73c, 0x5dc119e6, 0x66c3043d, 0x905e44ac, 0x8b99e3a9)
  const C10 := Eight(0x221b8a5a, 0xadca7a96, 0xd949682b, 0x2f11c939, 0x0b82c5eb, 0xc6cce4ff, 0x32d99008, 0xfed4ce1d)
  const C11 := Eight(0xf2ad6322, 0x8300fca2, 0x2c794876, 0x12d97845, 0xcc48c7f3, 0xe0e3457c, 0xff6759ba, 0xe4213ca2)
  const C12 := Eight(0xd7354d5b, 0x0b3303a7, 0x104a7db4, 0x0f154e11, 0xaad55b6b, 0xbbe1c39a, 0x5348e8f6, 0x6f9517cb)
  const C13 := Eight(0x1a6bcf6a, 0xd8aabcf9, 0x2748e5ec, 0xb736d7a6, 0xff5e99d0, 0x27844711, 0xd4b58576, 0x68f25260)
  const C14 := Eight(0x92952710, 0xd9f0c115, 0xec02560a, 0x4eca6fa0, 0x226806d6, 0x624150c4, 0x7151df8e, 0x989ed071)
  const C15 := Eight(0x1c4cddd9, 0x286fe5f0, 0x4348eb1f, 0x20d4d0e4, 0xf487a853, 0x54076664, 0xc21eddf9, 0x4e515a4d)
  const C16 := Eight(0x9ea7148b, 0x908c2123, 0xb25cef29, 0xa9f181dd, 0x2c5c4ed0, 0x9a392956, 0x2aa1bb13, 0x27ccb387)

  lemma {:induction false} TailRows()
    ensures NextRow(CW0, CW1) == CW2 && NextRow(CW1, CW2) == CW3 && NextRow(CW2, CW3) == CW4
    ensures NextRow(CW3, CW4) == CW5 && NextRow(CW4, CW5) == CW6 && NextRow(CW5, CW6) == CW7
  {
  }

  lemma {:induction false} TailTurns0()
    ensures EightTurns(C0, C1, C2, ConstantRow(0), CW0)
    ensures EightTurns(C2, C3, C4, ConstantRow(1), CW1)
  {
  }

  lemma {:induction false} TailTurns1()
    ensures EightTurns(C4, C5, C6, ConstantRow(2), CW2)
    ensures EightTurns(C6, C7, C8, ConstantRow(3), CW3)
  {
  }

  lemma {:induction false} TailTurns2()
    ensures EightTurns(C8, C9, C10, ConstantRow(4), CW4)
    ensures EightTurns(C10, C11, C12, ConstantRow(5), CW5)
  {
  }

  lemma {:induction false} TailTurns3()
    ensures EightTurns(C12, C13, C14, ConstantRow(6), CW6)
    ensures EightTurns(C14, C15, C16, ConstantRow(7), CW7)
  {
  }

  lemma {:induction false} TailRounds(block: seq<Byte>)
    requires |block| == 64 && ScheduleRow(block, 0) == CW0 && ScheduleRow(block, 1) == CW1
    ensures Rounds(C0, block, 64) == C16
  {
    hide *;
    TailRows();
    TailTurns0();
    TailTurns1();
    TailTurns2();
    TailTurns3();
    AllRows(block, CW0, CW1, CW2, CW3, CW4, CW5, CW6, CW7);
    NoRounds(C0, block);
    HalfRounds(C0, block, 0, C0, C1, C2, C3, C4, C5, C6, C7, C8);
    HalfRounds(C0, block, 4, C8, C9, C10, C11, C12, C13, C14, C15, C16);
  }

  const LETTERS_HASH := Eight(0x248d6a61, 0xd20638b8, 0xe5c02693, 0x0c3e6039, 0xa33ce459, 0x64ff2167, 0xf6ecedd4,
    0x19db06c1)

  lemma {:induction false} LettersSums()
    ensures B0 == INITIAL && Add(B0, B16) == C0 && Add(C0, C16) == LETTERS_HASH
  {
  }

  lemma {:induction false} TwoBlocks(bytes: seq<Byte>)
    requires |bytes| == 128
    ensures HashBlocks(bytes) == Compress(Compress(INITIAL, bytes[..64]), bytes[64..])
  {
    OneBlock(bytes[..64]);
    hide Compress;
  }

  lemma {:induction false} LettersHash()
    ensures Hash(LETTERS) == LETTERS_HASH
  {
    var p := Pad(LETTERS);
    hide *;
    LettersBlocks();
    TwoBlocks(p);
    LettersRounds(p[..64]);
    CompressIs(B0, p[..64], B16);
    TailRounds(p[64..]);
    CompressIs(C0, p[64..], C16);
    LettersSums();
    HashIs(LETTERS);
  }

  lemma {:induction false} LettersHex()
    ensures HexWord(0x248d6a61) == "248d6a61"
    ensures HexWord(0xd20638b8) == "d20638b8"
    ensures HexWord(0xe5c02693) == "e5c02693"
    ensures HexWord(0x0c3e6039) == "0c3e6039"
    ensures HexWord(0xa33ce459) == "a33ce459"
    ensures HexWord(0x64ff2167) == "64ff2167"
    ensures HexWord(0xf6ecedd4) == "f6ecedd4"
    ensures HexWord(0x19db06c1) == "19db06c1"
  {
    hide *;
    Digits();
    HexIs(0x248d6a61, 0x248d6a61);
    EightDigits(0x248d6a61, 2, 4, 8, 13, 6, 10, 6, 1);
    HexIs(0xd20638b8, 0xd20638b8);
    EightDigits(0xd20638b8, 13, 2, 0, 6, 3, 8, 11, 8);
    HexIs(0xe5c02693, 0xe5c02693);
    EightDigits(0xe5c02693, 14, 5, 12, 0, 2, 6, 9, 3);
    HexIs(0x0c3e6039, 0x0c3e6039);
    EightDigits(0x0c3e6039, 0, 12, 3, 14, 6, 0, 3, 9);
    HexIs(0xa33ce459, 0xa33ce459);
    EightDigits(0xa33ce459, 10, 3, 3, 12, 14, 4, 5, 9);
    HexIs(0x64ff2167, 0x64ff2167);
    EightDigits(0x64ff2167, 6, 4, 15, 15, 2, 1, 6, 7);
    HexIs(0xf6ecedd4, 0xf6ecedd4);
    EightDigits(0xf6ecedd4, 15, 6, 14, 12, 14, 13, 13, 4);
    HexIs(0x19db06c1, 0x19db06c1);
    EightDigits(0x19db06c1, 1, 9, 13, 11, 0, 6, 12, 1);
  }

  /** The digest of the 56 letters, whose padding takes a second block. */
  lemma {:induction false} LettersDigest()
    ensures Hex(Hash(LETTERS)) ==
      "248d6a61" + "d20638b8" + "e5c02693" + "0c3e6039" + "a33ce459" + "64ff2167" + "f6ecedd4" + "19db06c1"
  {
    hide Hash, LETTERS, HexWord;
    LettersHash();
    LettersHex();
  }
}
