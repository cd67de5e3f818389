/**
 SHA-256 as FIPS 180-4 defines it on byte strings, and the streaming digest of
 the performance baseline tool.

 The digest object keeps a 64-byte block, a fill level and a running count; its
 ghost field `message` is everything that was ever fed to it.
 */
module Sha256 {
  import opened Wrappers

  type Byte = b: nat | b < 256
  type Word = bv32

  const UINT64_MAX: nat := 0xFFFF_FFFF_FFFF_FFFF

  // ----- section 4: functions and constants -----

  /** Addition modulo 2^32. */
  function Plus(x: Word, y: Word): Word { x + y }

  function Sum4(a: Word, b: Word, c: Word, d: Word): Word { Plus(Plus(Plus(a, b), c), d) }

  function Sum5(a: Word, b: Word, c: Word, d: Word, e: Word): Word { a + b + c + d + e }

  function Ch(x: Word, y: Word, z: Word): Word { (x & y) ^ (!x & z) }

  function Maj(x: Word, y: Word, z: Word): Word { (x & y) ^ (x & z) ^ (y & z) }

  function BigSigma0(x: Word): Word { x.RotateRight(2) ^ x.RotateRight(13) ^ x.RotateRight(22) }

  function BigSigma1(x: Word): Word { x.RotateRight(6) ^ x.RotateRight(11) ^ x.RotateRight(25) }

  function Sigma0(x: Word): Word { x.RotateRight(7) ^ x.RotateRight(18) ^ (x >> 3) }

  function Sigma1(x: Word): Word { x.RotateRight(17) ^ x.RotateRight(19) ^ (x >> 10) }

  /** The eight working variables a to h, the eight hash words, or eight words in a row. */
  datatype Eight = Eight(a: Word, b: Word, c: Word, d: Word, e: Word, f: Word, g: Word, h: Word)

  function WordOf(v: Eight, i: nat): Word
    requires i < 8
  {
    match i
    case 0 => v.a case 1 => v.b case 2 => v.c case 3 => v.d
    case 4 => v.e case 5 => v.f case 6 => v.g case 7 => v.h
  }

  /** Section 4.2.2: the constants, eight to a row. */
  function ConstantRow(q: nat): Eight
    requires q < 8
  {
    match q
    case 0 => Eight(0x428a2f98, 0x71374491, 0xb5c0fbcf, 0xe9b5dba5, 0x3956c25b, 0x59f111f1, 0x923f82a4, 0xab1c5ed5)
    case 1 => Eight(0xd807aa98, 0x12835b01, 0x243185be, 0x550c7dc3, 0x72be5d74, 0x80deb1fe, 0x9bdc06a7, 0xc19bf174)
    case 2 => Eight(0xe49b69c1, 0xefbe4786, 0x0fc19dc6, 0x240ca1cc, 0x2de92c6f, 0x4a7484aa, 0x5cb0a9dc, 0x76f988da)
    case 3 => Eight(0x983e5152, 0xa831c66d, 0xb00327c8, 0xbf597fc7, 0xc6e00bf3, 0xd5a79147, 0x06ca6351, 0x14292967)
    case 4 => Eight(0x27b70a85, 0x2e1b2138, 0x4d2c6dfc, 0x53380d13, 0x650a7354, 0x766a0abb, 0x81c2c92e, 0x92722c85)
    case 5 => Eight(0xa2bfe8a1, 0xa81a664b, 0xc24b8b70, 0xc76c51a3, 0xd192e819, 0xd6990624, 0xf40e3585, 0x106aa070)
    case 6 => Eight(0x19a4c116, 0x1e376c08, 0x2748774c, 0x34b0bcb5, 0x391c0cb3, 0x4ed8aa4a, 0x5b9cca4f, 0x682e6ff3)
    case 7 => Eight(0x748f82ee, 0x78a5636f, 0x84c87814, 0x8cc70208, 0x90befffa, 0xa4506ceb, 0xbef9a3f7, 0xc67178f2)
  }

  function RoundConstant(t: nat): Word
    requires t < 64
  {
    WordOf(ConstantRow(t / 8), t % 8)
  }

  const INITIAL := Eight(0x6a09e667, 0xbb67ae85, 0x3c6ef372, 0xa54ff53a, 0x510e527f, 0x9b05688c, 0x1f83d9ab, 0x5be0cd19)

  // ----- section 5: padding and parsing -----

  /** n as exactly `width` big-endian bytes. */
  function BigEndian(n: nat, width: nat): (r: seq<Byte>)
    ensures |r| == width
  {
    if width == 0 then [] else BigEndian(n / 256, width - 1) + [n % 256]
  }

  function Zeros(k: nat): seq<Byte> { seq(k, _ => 0) }

  /** A message, the bit 1, k zero bytes and the length fill whole blocks. */
  predicate Fills(length: nat, k: nat) { (length + 1 + k + 8) % 64 == 0 }

  /** Section 5.1.1: the smallest number of zero bytes that leaves room for the length. */
  function ZeroCount(length: nat): (k: nat)
    ensures Fills(length, k) && forall j: nat :: j < k ==> !Fills(length, j)
  {
    (119 - length % 64) % 64
  }

  /** Section 5.1.1 */
  function Pad(message: seq<Byte>): (padded: seq<Byte>)
    ensures |padded| % 64 == 0
  {
    message + [0x80] + Zeros(ZeroCount(|message|)) + BigEndian(8 * |message|, 8)
  }

  /** Four bytes as a word, most significant first. */
  function Join(b0: Byte, b1: Byte, b2: Byte, b3: Byte): Word {
    ((b0 as Word) << 24) | ((b1 as Word) << 16) | ((b2 as Word) << 8) | (b3 as Word)
  }

  /** Section 5.2.1: word i of a block. */
  function WordAt(block: seq<Byte>, i: nat): Word
    requires |block| == 64 && i < 16
  {
    Join(block[4 * i], block[4 * i + 1], block[4 * i + 2], block[4 * i + 3])
  }

  // ----- section 6.2.2 -----

  /** W_t of the message schedule. */
  function Schedule(block: seq<Byte>, t: nat): Word
    requires |block| == 64
  {
    if t < 16 then WordAt(block, t)
    else Sum4(Schedule(block, t - 16), Sigma0(Schedule(block, t - 15)), Schedule(block, t - 7),
      Sigma1(Schedule(block, t - 2)))
  }

  function Temporary1(e: Word, f: Word, g: Word, h: Word, k: Word, w: Word): Word {
    Sum5(h, BigSigma1(e), Ch(e, f, g), k, w)
  }

  function Temporary2(a: Word, b: Word, c: Word): Word { Plus(BigSigma0(a), Maj(a, b, c)) }

  function Round(v: Eight, k: Word, w: Word): Eight {
    var t1 := Temporary1(v.e, v.f, v.g, v.h, k, w);
    var t2 := Temporary2(v.a, v.b, v.c);
    Eight(Plus(t1, t2), v.a, v.b, v.c, Plus(v.d, t1), v.e, v.f, v.g)
  }

  /** The working variables after the first t rounds. */
  function Rounds(v: Eight, block: seq<Byte>, t: nat): Eight
    requires |block| == 64 && t <= 64
  {
    if t == 0 then v else Round(Rounds(v, block, t - 1), RoundConstant(t - 1), Schedule(block, t - 1))
  }

  function Add(x: Eight, y: Eight): Eight {
    Eight(Plus(x.a, y.a), Plus(x.b, y.b), Plus(x.c, y.c), Plus(x.d, y.d),
          Plus(x.e, y.e), Plus(x.f, y.f), Plus(x.g, y.g), Plus(x.h, y.h))
  }

  function Compress(v: Eight, block: seq<Byte>): Eight
    requires |block| == 64
  {
    Add(v, Rounds(v, block, 64))
  }

  /** The hash value after all the blocks of a whole number of blocks. */
  function HashBlocks(bytes: seq<Byte>): Eight
    requires |bytes| % 64 == 0
  {
    if bytes == [] then INITIAL
    else Compress(HashBlocks(bytes[..|bytes| - 64]), bytes[|bytes| - 64..])
  }

  /** SHA-256 of a message. */
  function Hash(message: seq<Byte>): Eight { HashBlocks(Pad(message)) }

  const DIGITS := "0123456789abcdef"

  /** `std::hex` with width eight and zero fill. */
  function HexWord(w: Word): string { HexDigits(w as nat, 8) }

  function HexDigits(n: nat, width: nat): (s: string)
    ensures |s| == width
  {
    if width == 0 then "" else HexDigits(n / 16, width - 1) + [DIGITS[n % 16]]
  }

  function Hex(v: Eight): string {
    HexWord(v.a) + HexWord(v.b) + HexWord(v.c) + HexWord(v.d) + HexWord(v.e) + HexWord(v.f) + HexWord(v.g) +
      HexWord(v.h)
  }

  // ----- facts about padding -----

  function Pow256(k: nat): (p: nat)
    ensures p > 0
  {
    if k == 0 then 1 else 256 * Pow256(k - 1)
  }

  lemma {:induction false} DivTwice(n: nat, p: nat)
    requires p > 0
    ensures n / 256 / p == n / (256 * p)
  {
    var q, r := n / 256, n % 256;
    var q', r' := q / p, q % p;
    assert n == 256 * (p * q' + r') + r;
    assert 256 * (p * q') == (256 * p) * q';
    var rest := 256 * r' + r;
    assert rest < 256 * p by { assert r' + 1 <= p; assert 256 * (r' + 1) <= 256 * p; }
    assert n == (256 * p) * q' + rest;
    QuotientIs(n, 256 * p, q', rest);
  }

  lemma {:induction false} QuotientIs(n: nat, d: nat, q: nat, r: nat)
    requires r < d && n == d * q + r
    ensures n / d == q
  {
    var e := n / d - q;
    assert n == d * (n / d) + n % d;
    assert d * e == r - n % d by { assert d * (n / d - q) == d * (n / d) - d * q; }
    assert e >= 1 ==> d * e >= d;
    assert e <= -1 ==> d * e + d <= 0;
  }

  /** Byte i of the length field is the shift that the tool writes. */
  lemma {:induction false} BigEndianAt(n: nat, width: nat, i: nat)
    requires i < width
    ensures BigEndian(n, width)[i] == n / Pow256(width - 1 - i) % 256
  {
    if i < width - 1 {
      BigEndianAt(n / 256, width - 1, i);
      DivTwice(n, Pow256(width - 2 - i));
    }
  }

  lemma {:induction false} BigEndianInjective(m: nat, n: nat, width: nat)
    requires m < Pow256(width) && n < Pow256(width) && BigEndian(m, width) == BigEndian(n, width)
    ensures m == n
  {
    if width > 0 {
      var a, b := BigEndian(m, width), BigEndian(n, width);
      assert a[..width - 1] == BigEndian(m / 256, width - 1) && b[..width - 1] == BigEndian(n / 256, width - 1);
      BigEndianInjective(m / 256, n / 256, width - 1);
      assert a[width - 1] == m % 256 && b[width - 1] == n % 256;
    }
  }

  /** Distinct messages below the bound have distinct padded forms. */
  lemma {:induction false} PadInjective(x: seq<Byte>, y: seq<Byte>)
    requires |x| <= UINT64_MAX / 8 && |y| <= UINT64_MAX / 8 && Pad(x) == Pad(y)
    ensures x == y
  {
    var p := Pad(x);
    assert p[|p| - 8..] == BigEndian(8 * |x|, 8) && p[|p| - 8..] == BigEndian(8 * |y|, 8);
    assert Pow256(8) == UINT64_MAX + 1;
    BigEndianInjective(8 * |x|, 8 * |y|, 8);
    assert p[..|x|] == x && p[..|y|] == y;
  }

  // ----- the streaming digest -----

  function Words(s: array<Word>): Eight
    requires s.Length == 8
    reads s
  {
    Eight(s[0], s[1], s[2], s[3], s[4], s[5], s[6], s[7])
  }

  /** All the whole blocks of `fed` are in the state, and the rest of it is at the front of the block. */
  ghost predicate Absorbed(state: Eight, block: seq<Byte>, size: nat, fed: seq<Byte>) {
    && size <= |block| == 64 && size <= |fed| && (|fed| - size) % 64 == 0
    && state == HashBlocks(fed[..|fed| - size])
    && block[..size] == fed[|fed| - size..]
  }

  lemma {:induction false} AbsorbMore(state: Eight, block: seq<Byte>, size: nat, fed: seq<Byte>, part: seq<Byte>,
                                      block': seq<Byte>)
    requires Absorbed(state, block, size, fed) && |block'| == 64 && size + |part| <= 64
    requires block'[..size] == block[..size] && block'[size..size + |part|] == part
    ensures Absorbed(state, block', size + |part|, fed + part)
  {
    var more, size' := fed + part, size + |part|;
    assert more[..|more| - size'] == fed[..|fed| - size];
    assert block'[..size'] == block'[..size] + block'[size..size'];
    assert more[|more| - size'..] == fed[|fed| - size..] + part;
  }

  lemma {:induction false} AbsorbBlock(state: Eight, block: seq<Byte>, fed: seq<Byte>)
    requires Absorbed(state, block, 64, fed)
    ensures Absorbed(Compress(state, block), block, 0, fed)
  {
    assert block[..64] == block && fed[..|fed| - 0] == fed;
    assert fed[|fed| - 64..] == block;
    hide Compress;
    assert HashBlocks(fed) == Compress(HashBlocks(fed[..|fed| - 64]), fed[|fed| - 64..]);
  }

  lemma {:induction false} ZerosConcat(a: nat, b: nat)
    ensures Zeros(a) + Zeros(b) == Zeros(a + b)
  {
  }

  lemma {:induction false} FillLevel(state: Eight, block: seq<Byte>, size: nat, fed: seq<Byte>)
    requires Absorbed(state, block, size, fed) && size < 64
    ensures |fed| % 64 == size
  {
  }

  lemma {:induction false} ZeroCountIs(length: nat, size: nat)
    requires size < 64 && length % 64 == size
    ensures ZeroCount(length) == if size + 1 <= 56 then 55 - size else 63 - size + 56
  {
    hide Fills;
  }

  /** The two zero fills of `finish` add up to the padding of section 5.1.1. */
  lemma {:induction false} PaddingPieces(message: seq<Byte>, size: nat)
    requires size < 64 && |message| % 64 == size
    ensures size + 1 <= 56 ==> message + [0x80] + Zeros(55 - size) + BigEndian(8 * |message|, 8) == Pad(message)
    ensures size + 1 > 56 ==>
      message + [0x80] + Zeros(63 - size) + Zeros(56) + BigEndian(8 * |message|, 8) == Pad(message)
  {
    ZeroCountIs(|message|, size);
    var m, tail, z := message + [0x80], BigEndian(8 * |message|, 8), ZeroCount(|message|);
    assert Pad(message) == m + Zeros(z) + tail;
    hide *;
    if size + 1 > 56 {
      ZerosConcat(63 - size, 56);
      assert m + Zeros(63 - size) + Zeros(56) == m + (Zeros(63 - size) + Zeros(56));
    }
  }

  lemma {:induction false} ScheduleLoads(block: seq<Byte>, t: nat)
    requires |block| == 64 && t < 16
    ensures Schedule(block, t) == Join(block[4 * t], block[4 * t + 1], block[4 * t + 2], block[4 * t + 3])
  {
    hide Join;
  }

  lemma {:induction false} ScheduleMixes(block: seq<Byte>, t: nat)
    requires |block| == 64 && t >= 16
    ensures Schedule(block, t) ==
      Sum4(Schedule(block, t - 16), Sigma0(Schedule(block, t - 15)), Schedule(block, t - 7),
        Sigma1(Schedule(block, t - 2)))
  {
    hide Sum4, Sigma0, Sigma1;
  }

  /** One round on the eight variables. */
  lemma {:induction false} RoundsStep(start: Eight, block: seq<Byte>, t: nat, v: Eight, w: Word)
    requires |block| == 64 && t < 64 && v == Rounds(start, block, t) && w == Schedule(block, t)
    ensures var t1, t2 := Temporary1(v.e, v.f, v.g, v.h, RoundConstant(t), w), Temporary2(v.a, v.b, v.c);
      Rounds(start, block, t + 1) == Eight(Plus(t1, t2), v.a, v.b, v.c, Plus(v.d, t1), v.e, v.f, v.g)
  {
    hide Schedule, Temporary1, Temporary2, RoundConstant, Plus;
  }

  lemma {:induction false} CompressIs(start: Eight, block: seq<Byte>, end: Eight)
    requires |block| == 64 && end == Rounds(start, block, 64)
    ensures Compress(start, block) == Add(start, end)
  {
    hide Rounds, Plus;
  }

  class Digest {
    const state: array<Word>
    const block: array<Byte>
    var blockSize: nat
    var totalBytes: nat
    var finished: bool
    /** Everything fed in so far. */
    ghost var message: seq<Byte>

    ghost predicate Valid()
      reads this, state, block
    {
      && state.Length == 8 && block.Length == 64 && blockSize < 64 && totalBytes <= UINT64_MAX
      && (!finished ==> totalBytes == |message| && Absorbed(Words(state), block[..], blockSize, message))
    }

    constructor ()
      ensures Valid() && fresh(state) && fresh(block) && !finished && message == []
    {
      state := new Word[8][0x6a09e667, 0xbb67ae85, 0x3c6ef372, 0xa54ff53a, 0x510e527f, 0x9b05688c, 0x1f83d9ab,
        0x5be0cd19];
      block := new Byte[64](_ => 0);
      blockSize, totalBytes, finished, message := 0, 0, false, [];
      new;
      assert Words(state) == INITIAL;
    }

    /**
     `compress` on the full block: section 6.2.2, with the schedule in an array and the variables updated in place.
     */
    method CompressBlock()
      requires state.Length == 8 && block.Length == 64
      modifies state
      ensures Words(state) == Compress(old(Words(state)), block[..])
    {
      hide HashBlocks, Rounds, Compress, Schedule, Plus;
      var words := ExpandSchedule();
      var a, b, c, d, e, f, g, h := RunRounds(words);
      CompressIs(Words(state), block[..], Eight(a, b, c, d, e, f, g, h));
      state[0], state[1], state[2], state[3] := Plus(state[0], a), Plus(state[1], b), Plus(state[2], c),
        Plus(state[3], d);
      state[4], state[5], state[6], state[7] := Plus(state[4], e), Plus(state[5], f), Plus(state[6], g),
        Plus(state[7], h);
    }

    /** The 64 rounds. */
    method RunRounds(words: array<Word>)
      returns (a: Word, b: Word, c: Word, d: Word, e: Word, f: Word, g: Word, h: Word)
      requires state.Length == 8 && block.Length == 64 && words.Length == 64
      requires forall t :: 0 <= t < 64 ==> words[t] == Schedule(block[..], t)
      ensures Eight(a, b, c, d, e, f, g, h) == Rounds(Words(state), block[..], 64)
    {
      hide Schedule, Temporary1, Temporary2, RoundConstant, Plus;
      a, b, c, d := state[0], state[1], state[2], state[3];
      e, f, g, h := state[4], state[5], state[6], state[7];
      ghost var start, bytes := Words(state), block[..];
      assert Eight(a, b, c, d, e, f, g, h) == start && Rounds(start, bytes, 0) == start;
      hide *;
      for index := 0 to 64
        invariant Eight(a, b, c, d, e, f, g, h) == Rounds(start, bytes, index)
      {
        RoundsStep(start, bytes, index, Eight(a, b, c, d, e, f, g, h), words[index]);
        var temporary1 := Temporary1(e, f, g, h, RoundConstant(index), words[index]);
        var temporary2 := Temporary2(a, b, c);
        h := g;
        g := f;
        f := e;
        e := Plus(d, temporary1);
        d := c;
        c := b;
        b := a;
        a := Plus(temporary1, temporary2);
      }
    }

    /** The message schedule of the full block. */
    method ExpandSchedule() returns (words: array<Word>)
      requires block.Length == 64
      ensures fresh(words) && words.Length == 64
      ensures forall t :: 0 <= t < 64 ==> words[t] == Schedule(block[..], t)
    {
      hide *;
      words := new Word[64](_ => 0);
      ghost var bytes := block[..];
      for index := 0 to 16
        invariant forall t :: 0 <= t < index ==> words[t] == Schedule(bytes, t)
      {
        var offset := index * 4;
        ScheduleLoads(bytes, index);
        words[index] := Join(block[offset], block[offset + 1], block[offset + 2], block[offset + 3]);
      }
      for index := 16 to 64
        invariant forall t :: 0 <= t < index ==> words[t] == Schedule(bytes, t)
      {
        ScheduleMixes(bytes, index);
        words[index] := Sum4(words[index - 16], Sigma0(words[index - 15]), words[index - 7], Sigma1(words[index - 2]));
      }
    }

    /** Until it is finished, the digest has taken in exactly `fed`. */
    ghost predicate Tracks(fed: seq<Byte>)
      requires state.Length == 8
      reads this, state, block
    {
      !finished ==> Absorbed(Words(state), block[..], blockSize, fed)
    }

    lemma {:induction false} Hashed(m: seq<Byte>)
      requires state.Length == 8
      ensures !finished && blockSize == 0 && Tracks(Pad(m)) ==> Words(state) == Hash(m)
    {
      if blockSize == 0 { assert Pad(m)[..|Pad(m)| - 0] == Pad(m); }
    }

    /** `std::copy_n` of part behind what the block already holds. */
    method Copy(part: seq<Byte>, ghost fed: seq<Byte>)
      requires state.Length == 8 && block.Length == 64 && blockSize + |part| <= 64 && Tracks(fed)
      modifies this`blockSize, block
      ensures blockSize == old(blockSize) + |part| && Tracks(fed + part)
    {
      hide HashBlocks, Compress, Absorbed, Words;
      ghost var before := block[..];
      forall i | 0 <= i < |part| { block[blockSize + i] := part[i]; }
      assert block[blockSize..blockSize + |part|] == part;
      if !finished { AbsorbMore(Words(state), before, blockSize, fed, part, block[..]); }
      blockSize := blockSize + |part|;
    }

    /** Compress the full block and start the next one. */
    method Flush(ghost fed: seq<Byte>)
      requires state.Length == 8 && block.Length == 64 && blockSize == 64 && Tracks(fed)
      modifies this`blockSize, state
      ensures blockSize == 0 && Tracks(fed)
    {
      hide HashBlocks, Compress, Absorbed, Words;
      if !finished { AbsorbBlock(Words(state), block[..], fed); }
      CompressBlock();
      blockSize := 0;
    }

    /**
     `update`: refused, with nothing changed, when the byte count would overflow; otherwise all of data is taken in.
     */
    method Update(data: seq<Byte>) returns (ok: bool)
      requires Valid()
      modifies this, state, block
      ensures Valid() && finished == old(finished)
      ensures ok <==> |data| <= UINT64_MAX - old(totalBytes)
      ensures message == if ok then old(message) + data else old(message)
      ensures totalBytes == if ok then old(totalBytes) + |data| else old(totalBytes)
    {
      hide HashBlocks, Compress, Absorbed, Words;
      if |data| > UINT64_MAX - totalBytes {
        return false;
      }
      totalBytes := totalBytes + |data|;
      var position := 0;
      assert message + data[..0] == message && Tracks(message);
      while position < |data|
        invariant position <= |data| && blockSize < 64
        invariant state.Length == 8 && block.Length == 64 && totalBytes == old(totalBytes) + |data|
        invariant Tracks(message + data[..position])
        invariant message == old(message) && finished == old(finished)
      {
        var copied := if |data| - position < 64 - blockSize then |data| - position else 64 - blockSize;
        assert message + data[..position] + data[position..position + copied] == message + data[..position + copied];
        hide *;
        Copy(data[position..position + copied], message + data[..position]);
        position := position + copied;
        if blockSize == 64 {
          Flush(message + data[..position]);
        }
      }
      assert data[..position] == data;
      message := message + data;
      ok := true;
    }

    /** `finish`: the digest of everything fed in, once, and only while the bit count fits. */
    method Finish() returns (digest: Option<string>)
      requires Valid()
      modifies this, state, block
      ensures Valid() && message == old(message)
      ensures digest.Some? <==> !old(finished) && old(totalBytes) <= UINT64_MAX / 8
      ensures digest.Some? ==> finished && digest.value == Hex(Hash(message))
      ensures digest == None ==> finished == old(finished)
    {
      hide HashBlocks, Compress, Absorbed, Words, Hash, Hex;
      if finished || totalBytes > UINT64_MAX / 8 {
        return None;
      }
      PadBlocks(totalBytes * 8);
      finished := true;
      var text := Output();
      digest := Some(text);
    }

    /** Everything `finish` does to the block and the state. */
    method PadBlocks(bitLength: nat)
      requires Valid() && !finished && bitLength == 8 * |message|
      modifies this`blockSize, state, block
      ensures blockSize < 64 && Words(state) == Hash(message)
    {
      hide HashBlocks, Compress, Words, Hash, Pad, BigEndian, Zeros, Absorbed, Fills, ZeroCount;
      ghost var size := blockSize;
      FillLevel(Words(state), block[..], size, message);
      PaddingPieces(message, size);
      assert Tracks(message) && state.Length == 8 && block.Length == 64 && size < 64 && |message| % 64 == size;
      hide *;
      Copy([0x80], message);
      ghost var fed := message + [0x80];
      ghost var tail := BigEndian(bitLength, 8);
      if blockSize > 56 {
        fed := FillZeros(64, fed);
        Flush(fed);
        assert fed + Zeros(56) + tail == Pad(message);
      } else {
        assert 56 - blockSize == 55 - size;
      }
      assert fed + Zeros(56 - blockSize) + tail == Pad(message);
      fed := FillZeros(56, fed);
      WriteLength(bitLength, fed);
      Flush(fed + tail);
      Hashed(message);
    }

    method Output() returns (digest: string)
      requires state.Length == 8
      ensures digest == Hex(Words(state))
    {
      hide HexWord;
      digest := HexWord(state[0]) + HexWord(state[1]) + HexWord(state[2]) + HexWord(state[3]) +
        HexWord(state[4]) + HexWord(state[5]) + HexWord(state[6]) + HexWord(state[7]);
    }

    /** The length field, most significant byte first; the block is full afterwards. */
    method WriteLength(bitLength: nat, ghost fed: seq<Byte>)
      requires state.Length == 8 && block.Length == 64 && blockSize == 56 && Tracks(fed)
      modifies this`blockSize, block
      ensures blockSize == 64 && Tracks(fed + BigEndian(bitLength, 8))
    {
      hide HashBlocks, Compress, Absorbed, Words;
      ghost var before := block[..];
      ghost var field := BigEndian(bitLength, 8);
      for index := 0 to 8
        invariant block[..56] == before[..56]
        invariant forall i :: 0 <= i < index ==> block[56 + i] == field[i]
      {
        BigEndianAt(bitLength, 8, index);
        hide BigEndian, Pow256;
        block[56 + index] := bitLength / Pow256(7 - index) % 256;
      }
      assert block[56..64] == field;
      if !finished { AbsorbMore(Words(state), before, 56, fed, field, block[..]); }
      blockSize := 64;
    }

    /** `std::fill` from the fill level up to `end`. */
    method FillZeros(end: nat, ghost fed: seq<Byte>) returns (ghost more: seq<Byte>)
      requires state.Length == 8 && block.Length == 64 && blockSize <= end <= 64 && Tracks(fed)
      modifies this`blockSize, block
      ensures blockSize == end && more == fed + Zeros(end - old(blockSize)) && Tracks(more)
    {
      hide HashBlocks, Compress, Absorbed, Words;
      ghost var before := block[..];
      forall i | blockSize <= i < end { block[i] := 0; }
      more := fed + Zeros(end - blockSize);
      assert block[blockSize..end] == Zeros(end - blockSize);
      if !finished { AbsorbMore(Words(state), before, blockSize, fed, Zeros(end - blockSize), block[..]); }
      blockSize := end;
    }
  }

  // ----- one-shot and chunked use -----

  function Flatten(chunks: seq<seq<Byte>>): seq<Byte> {
    if chunks == [] then [] else Flatten(chunks[..|chunks| - 1]) + chunks[|chunks| - 1]
  }

  /** However a message is split into updates, the digest is that of the message. */
  method DigestOfChunks(chunks: seq<seq<Byte>>) returns (digest: Option<string>)
    ensures digest == if |Flatten(chunks)| <= UINT64_MAX / 8 then Some(Hex(Hash(Flatten(chunks)))) else None
  {
    hide HashBlocks, Compress, Absorbed, Words, Hash, Hex;
    var sha := new Digest();
    for index := 0 to |chunks|
      invariant fresh(sha) && fresh(sha.state) && fresh(sha.block)
      invariant sha.Valid() && !sha.finished && sha.message == Flatten(chunks[..index])
    {
      assert chunks[..index + 1][..index] == chunks[..index];
      hide Absorbed;
      var ok := sha.Update(chunks[index]);
      if !ok {
        FlattenGrows(chunks, index + 1);
        return None;
      }
    }
    assert chunks[..|chunks|] == chunks;
    digest := sha.Finish();
  }

  lemma {:induction false} FlattenGrows(chunks: seq<seq<Byte>>, n: nat)
    requires n <= |chunks|
    ensures |Flatten(chunks[..n])| <= |Flatten(chunks)|
    decreases |chunks| - n
  {
    if n < |chunks| {
      assert chunks[..n + 1][..n] == chunks[..n];
      FlattenGrows(chunks, n + 1);
    } else {
      assert chunks[..n] == chunks;
    }
  }

  /** `sha256` on a string. */
  method OneShot(value: seq<Byte>) returns (digest: Option<string>)
    ensures digest == if |value| <= UINT64_MAX / 8 then Some(Hex(Hash(value))) else None
  {
    hide HashBlocks, Compress, Absorbed, Words, Hash, Hex;
    var sha := new Digest();
    var ok := sha.Update(value);
    if !ok {
      return None;
    }
    assert [] + value == value;
    digest := sha.Finish();
  }

  const BUFFER_SIZE: nat := 65536

  /**
   `sha256File`: 64 KiB reads until the stream stops.  The stream delivers `content`, short reads only at its end, and
   then reports end of file or, when `broken`, an error.
   */
  method OfFile(content: seq<Byte>, broken: bool) returns (digest: Option<string>)
    ensures digest == if !broken && |content| <= UINT64_MAX / 8 then Some(Hex(Hash(content))) else None
  {
    hide HashBlocks, Compress, Absorbed, Words, Hash, Hex;
    var sha := new Digest();
    var position, open := 0, true;
    while open
      invariant fresh(sha) && fresh(sha.state) && fresh(sha.block)
      invariant sha.Valid() && !sha.finished && position <= |content| && sha.message == content[..position]
      invariant !open ==> position == |content|
      decreases |content| - position, open
    {
      var count := if |content| - position < BUFFER_SIZE then |content| - position else BUFFER_SIZE;
      if count > 0 {
        hide Absorbed;
        assert content[..position] + content[position..position + count] == content[..position + count];
        var ok := sha.Update(content[position..position + count]);
        if !ok {
          return None;
        }
      }
      position := position + count;
      open := count == BUFFER_SIZE;
    }
    assert content[..position] == content;
    if broken {
      return None;
    }
    digest := sha.Finish();
  }

  /** A file's digest is the digest of its bytes as one string. */
  method FileAgreesWithOneShot(content: seq<Byte>) returns (same: bool)
    ensures same
  {
    var file := OfFile(content, false);
    var whole := OneShot(content);
    same := file == whole;
  }
}
