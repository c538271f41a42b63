/** SHA-256 as the repository computes it, against the definition in FIPS 180-4. */
module Sha256 {
  import opened Machine

  /** A 32-bit word. */
  datatype Word = Word(bits: bv32)

  /** Addition modulo 2^32. */
  function Add(x: Word, y: Word): Word { Word(x.bits + y.bits) }

  function And(x: Word, y: Word): Word { Word(x.bits & y.bits) }

  function Or(x: Word, y: Word): Word { Word(x.bits | y.bits) }

  function Xor(x: Word, y: Word): Word { Word(x.bits ^ y.bits) }

  function Not(x: Word): Word { Word(!x.bits) }

  function Shr(x: Word, n: bv32): Word
    requires n < 32
  {
    Word(x.bits >> n)
  }

  function Shl(x: Word, n: bv32): Word
    requires n < 32
  {
    Word(x.bits << n)
  }

  /** Circular right shift: section 3.2 defines ROTR by these two shifts. */
  function Rotr(x: Word, n: bv32): Word
    requires 0 < n < 32
  {
    Or(Shr(x, n), Shl(x, 32 - n))
  }

  const WORD64: nat := 0x1_0000_0000_0000_0000

  // ---------------------------------------------------------------- FIPS 180-4, section 4.1.2 and 4.2.2

  function Ch(x: Word, y: Word, z: Word): Word { Xor(And(x, y), And(Not(x), z)) }

  function Maj(x: Word, y: Word, z: Word): Word { Xor(Xor(And(x, y), And(x, z)), And(y, z)) }

  function BigSigma0(x: Word): Word { Xor(Xor(Rotr(x, 2), Rotr(x, 13)), Rotr(x, 22)) }

  function BigSigma1(x: Word): Word { Xor(Xor(Rotr(x, 6), Rotr(x, 11)), Rotr(x, 25)) }

  function SmallSigma0(x: Word): Word { Xor(Xor(Rotr(x, 7), Rotr(x, 18)), Shr(x, 3)) }

  function SmallSigma1(x: Word): Word { Xor(Xor(Rotr(x, 17), Rotr(x, 19)), Shr(x, 10)) }

  const CONSTANTS: seq<bv32> := [
    0x428a2f98, 0x71374491, 0xb5c0fbcf, 0xe9b5dba5, 0x3956c25b, 0x59f111f1, 0x923f82a4, 0xab1c5ed5,
    0xd807aa98, 0x12835b01, 0x243185be, 0x550c7dc3, 0x72be5d74, 0x80deb1fe, 0x9bdc06a7, 0xc19bf174,
    0xe49b69c1, 0xefbe4786, 0x0fc19dc6, 0x240ca1cc, 0x2de92c6f, 0x4a7484aa, 0x5cb0a9dc, 0x76f988da,
    0x983e5152, 0xa831c66d, 0xb00327c8, 0xbf597fc7, 0xc6e00bf3, 0xd5a79147, 0x06ca6351, 0x14292967,
    0x27b70a85, 0x2e1b2138, 0x4d2c6dfc, 0x53380d13, 0x650a7354, 0x766a0abb, 0x81c2c92e, 0x92722c85,
    0xa2bfe8a1, 0xa81a664b, 0xc24b8b70, 0xc76c51a3, 0xd192e819, 0xd6990624, 0xf40e3585, 0x106aa070,
    0x19a4c116, 0x1e376c08, 0x2748774c, 0x34b0bcb5, 0x391c0cb3, 0x4ed8aa4a, 0x5b9cca4f, 0x682e6ff3,
    0x748f82ee, 0x78a5636f, 0x84c87814, 0x8cc70208, 0x90befffa, 0xa4506ceb, 0xbef9a3f7, 0xc67178f2]

  function K(t: nat): Word
    requires t < 64
  {
    Word(CONSTANTS[t])
  }

  /** The eight words of a hash value, also the eight working variables. */
  datatype Vars = Vars(a: Word, b: Word, c: Word, d: Word, e: Word, f: Word, g: Word, h: Word)

  const INITIAL: Vars := Vars(Word(0x6a09e667), Word(0xbb67ae85), Word(0x3c6ef372), Word(0xa54ff53a),
                              Word(0x510e527f), Word(0x9b05688c), Word(0x1f83d9ab), Word(0x5be0cd19))

  // ---------------------------------------------------------------- section 6.2.2

  type Block = b: seq<Byte> | |b| == 64 witness seq(64, _ => 0)

  function WordFrom(b: Byte): Word { Word(b as bv32) }

  /** Word t of a block, most significant byte first (section 3.1). */
  function BlockWord(block: Block, t: nat): Word
    requires t < 16
  {
    Or(Or(Or(Shl(WordFrom(block[4 * t]), 24), Shl(WordFrom(block[4 * t + 1]), 16)), Shl(WordFrom(block[4 * t + 2]), 8)),
       WordFrom(block[4 * t + 3]))
  }

  /** The message schedule. */
  function W(block: Block, t: nat): Word
    requires t < 64
  {
    if t < 16 then BlockWord(block, t)
    else Add(Add(Add(W(block, t - 16), SmallSigma0(W(block, t - 15))), W(block, t - 7)), SmallSigma1(W(block, t - 2)))
  }

  function Round(v: Vars, k: Word, w: Word): Vars {
    var t1 := Add(Add(Add(Add(v.h, BigSigma1(v.e)), Ch(v.e, v.f, v.g)), k), w);
    var t2 := Add(BigSigma0(v.a), Maj(v.a, v.b, v.c));
    Vars(Add(t1, t2), v.a, v.b, v.c, Add(v.d, t1), v.e, v.f, v.g)
  }

  /** The working variables after the first t rounds. */
  function Rounds(block: Block, v: Vars, t: nat): Vars
    requires t <= 64
  {
    if t == 0 then v else Round(Rounds(block, v, t - 1), K(t - 1), W(block, t - 1))
  }

  function Plus(v: Vars, w: Vars): Vars {
    Vars(Add(v.a, w.a), Add(v.b, w.b), Add(v.c, w.c), Add(v.d, w.d),
         Add(v.e, w.e), Add(v.f, w.f), Add(v.g, w.g), Add(v.h, w.h))
  }

  function Compress(v: Vars, block: Block): Vars {
    Plus(v, Rounds(block, v, 64))
  }

  /** The hash value after a whole number of blocks. */
  function HashBlocks(message: seq<Byte>): Vars
    requires |message| % 64 == 0
  {
    if message == [] then INITIAL
    else Compress(HashBlocks(message[..|message| - 64]), message[|message| - 64..])
  }

  function LowOctet(w: Word): Byte {
    (w.bits & 0xff) as int as Byte
  }

  function WordBytes(w: Word): seq<Byte> {
    [LowOctet(Shr(w, 24)), LowOctet(Shr(w, 16)), LowOctet(Shr(w, 8)), LowOctet(w)]
  }

  function DigestOf(v: Vars): seq<Byte> {
    WordBytes(v.a) + WordBytes(v.b) + WordBytes(v.c) + WordBytes(v.d)
    + WordBytes(v.e) + WordBytes(v.f) + WordBytes(v.g) + WordBytes(v.h)
  }

  // ---------------------------------------------------------------- section 5.1.1, on bits

  /** The w low binary digits of n, most significant first. */
  function BinaryDigits(n: nat, w: nat): (r: seq<bool>)
    ensures |r| == w
  {
    if w == 0 then [] else BinaryDigits(n / 2, w - 1) + [n % 2 == 1]
  }

  function ByteBits(b: Byte): seq<bool> {
    BinaryDigits(b as int, 8)
  }

  function Bits(message: seq<Byte>): (r: seq<bool>)
    ensures |r| == 8 * |message|
  {
    if message == [] then [] else Bits(message[..|message| - 1]) + ByteBits(message[|message| - 1])
  }

  /** The number of zero bits between the 1 bit and the length. */
  function ZeroBits(length: nat): nat {
    (447 - length) % 512
  }

  lemma ZeroBitsLeast(length: nat, k: nat)
    ensures (length + 1 + ZeroBits(length)) % 512 == 448
    ensures (length + 1 + k) % 512 == 448 ==> ZeroBits(length) <= k
  {
  }

  /** The same element n times. */
  function Repeat<T>(n: nat, x: T): (r: seq<T>)
    ensures |r| == n && forall i | 0 <= i < n :: r[i] == x
  {
    seq(n, _ => x)
  }

  function PaddedBits(message: seq<bool>): seq<bool>
    requires |message| < WORD64
  {
    message + [true] + Repeat(ZeroBits(|message|), false) + BinaryDigits(|message|, 64)
  }

  // ---------------------------------------------------------------- the same on bytes

  function ShiftRight(n: nat, bits: nat): nat {
    if bits == 0 then n else ShiftRight(n / 2, bits - 1)
  }

  /** The count low bytes of n, most significant first. */
  function BigEndian(n: nat, count: nat): (r: seq<Byte>)
    ensures |r| == count
  {
    if count == 0 then [] else [(ShiftRight(n, 8 * (count - 1)) % 256) as Byte] + BigEndian(n, count - 1)
  }

  function ZeroBytes(length: nat): nat {
    (55 - length) % 64
  }

  /** The length in bits, kept modulo 2^64. */
  function LengthField(length: nat): (r: seq<Byte>)
    ensures |r| == 8
  {
    BigEndian(8 * length % WORD64, 8)
  }

  lemma PaddedLength(length: nat)
    ensures (length + 1 + ZeroBytes(length) + 8) % 64 == 0
  {
    var q := (55 - length) / 64;
    assert length + 1 + ZeroBytes(length) + 8 == 64 * (1 - q);
  }

  /** What the block loop and the tail process. */
  function Padded(message: seq<Byte>): (r: seq<Byte>)
    ensures |r| % 64 == 0
  {
    PaddedLength(|message|);
    message + [0x80] + Repeat(ZeroBytes(|message|), 0) + LengthField(|message|)
  }

  lemma {:induction false} BitsConcat(a: seq<Byte>, b: seq<Byte>)
    ensures Bits(a + b) == Bits(a) + Bits(b)
  {
    hide ByteBits;
    if b == [] {
      assert a + b == a;
    } else {
      BitsConcat(a, b[..|b| - 1]);
      assert (a + b)[..|a + b| - 1] == a + b[..|b| - 1];
    }
  }

  lemma {:induction false} ZeroBytesAreZeroBits(n: nat)
    ensures Bits(Repeat(n, 0)) == Repeat(8 * n, false)
  {
    if n > 0 {
      ZeroBytesAreZeroBits(n - 1);
      assert Repeat(n, 0 as Byte)[..n - 1] == Repeat(n - 1, 0 as Byte);
      ZeroByte();
    }
  }

  lemma ZeroByte()
    ensures ByteBits(0) == Repeat(8, false)
    ensures ByteBits(0x80) == [true] + Repeat(7, false)
  {
    hide BinaryDigits;
    SmallPowers();
    NoDigits(8);
    OneDigit(7);
  }

  function Pow2(k: nat): (p: nat)
    ensures p > 0
  {
    if k == 0 then 1 else 2 * Pow2(k - 1)
  }

  lemma {:induction false} NoDigits(w: nat)
    ensures BinaryDigits(0, w) == Repeat(w, false)
  {
    if w > 0 {
      NoDigits(w - 1);
    }
  }

  lemma {:induction false} OneDigit(k: nat)
    ensures BinaryDigits(Pow2(k), k + 1) == [true] + Repeat(k, false)
  {
    if k == 0 {
      assert BinaryDigits(0, 0) == [];
    } else {
      OneDigit(k - 1);
      assert Pow2(k) / 2 == Pow2(k - 1) && Pow2(k) % 2 == 0;
      assert BinaryDigits(Pow2(k), k + 1) == BinaryDigits(Pow2(k - 1), k) + [false];
    }
  }

  lemma SmallPowers()
    ensures Pow2(7) == 128 && Pow2(8) == 256
  {
    assert Pow2(4) == 16;
    assert Pow2(6) == 64;
  }

  lemma {:induction false} SameLowDigits(n: nat, m: nat, p: nat, k: nat)
    requires n == m + Pow2(k) * p
    ensures BinaryDigits(n, k) == BinaryDigits(m, k)
  {
    if k > 0 {
      var half := Pow2(k - 1) * p;
      assert Pow2(k) * p == 2 * half;
      SameLowDigits(n / 2, m / 2, p, k - 1);
    }
  }

  lemma LowByte(n: nat)
    ensures ByteBits((n % 256) as Byte) == BinaryDigits(n, 8)
  {
    hide BinaryDigits;
    SmallPowers();
    SameLowDigits(n, n % 256, n / 256, 8);
  }

  lemma {:induction false} SplitDigits(n: nat, high: nat, low: nat)
    ensures BinaryDigits(n, high + low) == BinaryDigits(ShiftRight(n, low), high) + BinaryDigits(n, low)
  {
    if low > 0 {
      SplitDigits(n / 2, high, low - 1);
    }
  }

  lemma {:induction false} BigEndianBits(n: nat, count: nat)
    ensures Bits(BigEndian(n, count)) == BinaryDigits(n, 8 * count)
  {
    hide ByteBits, ShiftRight;
    if count > 0 {
      var top := ShiftRight(n, 8 * (count - 1));
      BigEndianBits(n, count - 1);
      BitsConcat([(top % 256) as Byte], BigEndian(n, count - 1));
      SingleByte((top % 256) as Byte);
      LowByte(top);
      SplitDigits(n, 8, 8 * (count - 1));
    }
  }

  lemma SingleByte(b: Byte)
    ensures Bits([b]) == ByteBits(b)
  {
    hide ByteBits;
    assert [b][..0] == [];
  }

  /** For every message shorter than 2^64 bits, the bytes processed are the padded message of section 5.1.1. */
  lemma PaddingIsStandard(message: seq<Byte>)
    requires 8 * |message| < WORD64
    ensures Bits(Padded(message)) == PaddedBits(Bits(message))
  {
    hide *;
    var zeros := ZeroBytes(|message|);
    var filler := Repeat(zeros, 0 as Byte);
    var field := LengthField(|message|);
    PaddedParts(message);
    BitsOfParts(message, filler, field);
    ZeroByte();
    ZeroBytesAreZeroBits(zeros);
    FieldBits(|message|);
    ZeroCounts(|message|);
    Regroup(Bits(message), zeros, BinaryDigits(8 * |message|, 64));
    PaddedBitsParts(Bits(message));
  }

  lemma BitsOfParts(message: seq<Byte>, filler: seq<Byte>, field: seq<Byte>)
    ensures Bits(message + [0x80] + filler + field) == Bits(message) + ByteBits(0x80) + Bits(filler) + Bits(field)
  {
    hide *;
    BitsConcat(message + [0x80] + filler, field);
    BitsConcat(message + [0x80], filler);
    BitsConcat(message, [0x80]);
    SingleByte(0x80);
  }

  lemma PaddedParts(message: seq<Byte>)
    ensures Padded(message)
         == message + [0x80] + Repeat(ZeroBytes(|message|), 0 as Byte) + LengthField(|message|)
  {
  }

  lemma PaddedBitsParts(bits: seq<bool>)
    requires |bits| < WORD64
    ensures PaddedBits(bits)
         == bits + [true] + Repeat(ZeroBits(|bits|), false) + BinaryDigits(|bits|, 64)
  {
  }

  lemma Regroup(bits: seq<bool>, zeros: nat, field: seq<bool>)
    ensures bits + ([true] + Repeat(7, false)) + Repeat(8 * zeros, false) + field
         == bits + [true] + Repeat(7 + 8 * zeros, false) + field
  {
    assert Repeat(7, false) + Repeat(8 * zeros, false) == Repeat(7 + 8 * zeros, false);
  }

  lemma FieldBits(length: nat)
    requires 8 * length < WORD64
    ensures Bits(LengthField(length)) == BinaryDigits(8 * length, 64)
  {
    hide Bits, BigEndian, BinaryDigits;
    BigEndianBits(8 * length, 8);
  }

  lemma ZeroCounts(length: nat)
    ensures 7 + 8 * ZeroBytes(length) == ZeroBits(8 * length)
  {
    var q := (55 - length) / 64;
    SameRemainder(447 - 8 * length, q, 7 + 8 * ZeroBytes(length));
  }

  lemma SameRemainder(n: int, q: int, r: int)
    requires n == 512 * q + r && 0 <= r < 512
    ensures n % 512 == r
  {
  }

  /** The digest the standard defines. */
  function Digest(message: seq<Byte>): seq<Byte> {
    DigestOf(HashBlocks(Padded(message)))
  }

  // ---------------------------------------------------------------- the implementation

  lemma SigmasMatch(x: Word)
    ensures Xor(Xor(Rotr(x, 7), Rotr(x, 18)), Shr(x, 3)) == SmallSigma0(x)
    ensures Xor(Xor(Rotr(x, 17), Rotr(x, 19)), Shr(x, 10)) == SmallSigma1(x)
    ensures Xor(Xor(Rotr(x, 6), Rotr(x, 11)), Rotr(x, 25)) == BigSigma1(x)
    ensures Xor(Xor(Rotr(x, 2), Rotr(x, 13)), Rotr(x, 22)) == BigSigma0(x)
  {
    hide Rotr, Xor, Shr;
  }

  ghost predicate Scheduled(words: seq<Word>, block: Block, n: nat) {
    n <= |words| == 64 && forall t | 0 <= t < n :: words[t] == W(block, t)
  }

  lemma ScheduleWord(words: seq<Word>, block: Block, t: nat, s0: Word, s1: Word)
    requires Scheduled(words, block, t) && 16 <= t < 64
    requires s0 == SmallSigma0(words[t - 15]) && s1 == SmallSigma1(words[t - 2])
    ensures Add(Add(Add(words[t - 16], s0), words[t - 7]), s1) == W(block, t)
  {
    hide SmallSigma0, SmallSigma1, BlockWord, Add;
  }

  method Schedule(block: Block) returns (words: array<Word>)
    ensures fresh(words) && words.Length == 64 && Scheduled(words[..], block, 64)
  {
    hide W, BlockWord, SmallSigma0, SmallSigma1, Rotr, Add, Xor, Shr;
    words := new Word[64](_ => Word(0));
    for index := 0 to 16
      invariant fresh(words) && Scheduled(words[..], block, index)
    {
      words[index] := BlockWord(block, index);
      FirstWords(block, index);
    }
    for index := 16 to 64
      invariant fresh(words) && Scheduled(words[..], block, index)
    {
      SigmasMatch(words[index - 15]);
      SigmasMatch(words[index - 2]);
      var s0 := Xor(Xor(Rotr(words[index - 15], 7), Rotr(words[index - 15], 18)), Shr(words[index - 15], 3));
      var s1 := Xor(Xor(Rotr(words[index - 2], 17), Rotr(words[index - 2], 19)), Shr(words[index - 2], 10));
      ScheduleWord(words[..], block, index, s0, s1);
      words[index] := Add(Add(Add(words[index - 16], s0), words[index - 7]), s1);
    }
  }

  lemma FirstWords(block: Block, t: nat)
    requires t < 16
    ensures W(block, t) == BlockWord(block, t)
  {
  }

  function VarsOf(state: seq<Word>): Vars
    requires |state| == 8
  {
    Vars(state[0], state[1], state[2], state[3], state[4], state[5], state[6], state[7])
  }

  lemma RoundMatches(v: Vars, k: Word, w: Word, sum1: Word, choice: Word, temp1: Word, sum0: Word, majority: Word)
    requires sum1 == BigSigma1(v.e) && choice == Ch(v.e, v.f, v.g) && temp1 == Add(Add(Add(Add(v.h, sum1), choice), k), w)
    requires sum0 == BigSigma0(v.a) && majority == Maj(v.a, v.b, v.c)
    ensures Round(v, k, w) == Vars(Add(temp1, Add(sum0, majority)), v.a, v.b, v.c, Add(v.d, temp1), v.e, v.f, v.g)
  {
    hide BigSigma0, BigSigma1, Ch, Maj, Add;
  }

  lemma NextRound(block: Block, v: Vars, t: nat)
    requires t < 64
    ensures Rounds(block, v, t + 1) == Round(Rounds(block, v, t), K(t), W(block, t))
    ensures Rounds(block, v, 0) == v
  {
    hide Round, W, K;
  }

  lemma ScheduledWord(words: seq<Word>, block: Block, t: nat)
    requires Scheduled(words, block, 64) && t < 64
    ensures |words| == 64 && words[t] == W(block, t)
  {
    hide W;
  }

  lemma LoadedVars(state: seq<Word>)
    requires |state| == 8
    ensures VarsOf(state)
         == Vars(state[0], state[1], state[2], state[3], state[4], state[5], state[6], state[7])
  {
  }

  lemma StoredVars(state: seq<Word>, start: Vars, block: Block, v: Vars)
    requires |state| == 8 && v == Rounds(block, start, 64)
    requires state == [Add(start.a, v.a), Add(start.b, v.b), Add(start.c, v.c), Add(start.d, v.d),
                       Add(start.e, v.e), Add(start.f, v.f), Add(start.g, v.g), Add(start.h, v.h)]
    ensures VarsOf(state) == Compress(start, block)
  {
    hide Rounds, Add;
  }

  lemma Logic(a: Word, b: Word, c: Word, e: Word, f: Word, g: Word)
    ensures Xor(And(e, f), And(Not(e), g)) == Ch(e, f, g)
    ensures Xor(Xor(And(a, b), And(a, c)), And(b, c)) == Maj(a, b, c)
  {
    hide Xor, And, Not;
  }

  /** One block, in place. */
  method Transform(state: array<Word>, block: Block)
    requires state.Length == 8
    modifies state
    ensures VarsOf(state[..]) == Compress(VarsOf(old(state[..])), block)
  {
    hide *;
    var words := Schedule(block);
    var start := VarsOf(state[..]);
    var a, b, c, d := state[0], state[1], state[2], state[3];
    var e, f, g, h := state[4], state[5], state[6], state[7];
    LoadedVars(state[..]);
    ghost var schedule := words[..];
    NextRound(block, start, 0);
    for index := 0 to 64
      invariant words[..] == schedule && state[..] == old(state[..])
      invariant Vars(a, b, c, d, e, f, g, h) == Rounds(block, start, index)
    {
      SigmasMatch(e);
      SigmasMatch(a);
      var sum1 := Xor(Xor(Rotr(e, 6), Rotr(e, 11)), Rotr(e, 25));
      var choice := Xor(And(e, f), And(Not(e), g));
      ScheduledWord(words[..], block, index);
      var temp1 := Add(Add(Add(Add(h, sum1), choice), K(index)), words[index]);
      var sum0 := Xor(Xor(Rotr(a, 2), Rotr(a, 13)), Rotr(a, 22));
      var majority := Xor(Xor(And(a, b), And(a, c)), And(b, c));
      var temp2 := Add(sum0, majority);
      Logic(a, b, c, e, f, g);
      RoundMatches(Vars(a, b, c, d, e, f, g, h), K(index), words[index], sum1, choice, temp1, sum0, majority);
      NextRound(block, start, index);
      h := g;
      g := f;
      f := e;
      e := Add(d, temp1);
      d := c;
      c := b;
      b := a;
      a := Add(temp1, temp2);
    }
    state[0] := Add(state[0], a);
    state[1] := Add(state[1], b);
    state[2] := Add(state[2], c);
    state[3] := Add(state[3], d);
    state[4] := Add(state[4], e);
    state[5] := Add(state[5], f);
    state[6] := Add(state[6], g);
    state[7] := Add(state[7], h);
    StoredVars(state[..], start, block, Vars(a, b, c, d, e, f, g, h));
  }

  lemma OneMoreBlock(message: seq<Byte>, n: nat)
    requires n % 64 == 0 && n + 64 <= |message|
    ensures HashBlocks(message[..n + 64]) == Compress(HashBlocks(message[..n]), message[n..n + 64])
  {
    hide Compress;
    assert message[..n + 64][..n] == message[..n] && message[..n + 64][n..] == message[n..n + 64];
  }

  /** The tail holds the last partial block, the 1 bit, zeros and the length. */
  lemma TailIsPadding(message: seq<Byte>, offset: nat, tail: seq<Byte>, size: nat)
    requires offset <= |message| && offset % 64 == 0 && |message| - offset < 64
    requires size == (if |message| - offset < 56 then 64 else 128) && |tail| == 128
    requires tail[..|message| - offset] == message[offset..]
    requires tail[|message| - offset] == 0x80
    requires forall i | |message| - offset < i < size - 8 :: tail[i] == 0
    requires tail[size - 8..size] == LengthField(|message|)
    ensures Padded(message) == message[..offset] + tail[..size]
  {
    hide *;
    var r := |message| - offset;
    ZeroBytesInTail(|message|, offset, size);
    PaddedParts(message);
    TailParts(tail, r, size, ZeroBytes(|message|), LengthField(|message|));
    assert message == message[..offset] + message[offset..];
    assert message[..offset] + (message[offset..] + [0x80] + Repeat(ZeroBytes(|message|), 0 as Byte) + LengthField(|message|))
        == message + [0x80] + Repeat(ZeroBytes(|message|), 0 as Byte) + LengthField(|message|);
  }

  lemma ZeroBytesInTail(length: nat, offset: nat, size: nat)
    requires offset <= length && offset % 64 == 0 && length - offset < 64
    requires size == if length - offset < 56 then 64 else 128
    ensures size - 9 - (length - offset) == ZeroBytes(length)
  {
    assert length % 64 == length - offset;
  }

  lemma TailParts(tail: seq<Byte>, r: nat, size: nat, zeros: nat, field: seq<Byte>)
    requires size <= |tail| && r + 1 + zeros + 8 == size && tail[r] == 0x80
    requires forall i | r < i < size - 8 :: tail[i] == 0
    requires tail[size - 8..size] == field
    ensures tail[..size] == tail[..r] + [0x80] + Repeat(zeros, 0 as Byte) + field
  {
    assert tail[r + 1..size - 8] == Repeat(zeros, 0 as Byte);
    assert tail[..size] == tail[..r] + [tail[r]] + tail[r + 1..size - 8] + tail[size - 8..size];
  }

  lemma NextOctet(n: nat, index: nat)
    ensures BigEndian(n, index + 1) == [(ShiftRight(n, 8 * index) % 256) as Byte] + BigEndian(n, index)
    ensures BigEndian(n, 0) == []
  {
    hide ShiftRight;
  }

  /** Lays out the tail. */
  method BuildTail(bytes: seq<Byte>, offset: nat) returns (tail: array<Byte>, size: nat)
    requires offset <= |bytes| && offset % 64 == 0 && |bytes| - offset < 64
    ensures fresh(tail) && tail.Length == 128 && (size == 64 || size == 128)
    ensures Padded(bytes) == bytes[..offset] + tail[..size]
  {
    hide BigEndian, ShiftRight, Padded;
    tail := new Byte[128](_ => 0);
    var remainder := |bytes| - offset;
    for index := 0 to remainder
      invariant fresh(tail)
      invariant forall i | 0 <= i < 128 :: tail[i] == if i < index then bytes[offset + i] else 0
    {
      tail[index] := bytes[offset + index];
    }
    tail[remainder] := 0x80;
    size := if remainder < 56 then 64 else 128;
    var bitLength := 8 * |bytes| % WORD64;
    NextOctet(bitLength, 0);
    for index := 0 to 8
      invariant fresh(tail)
      invariant forall i | 0 <= i < remainder :: tail[i] == bytes[offset + i]
      invariant tail[remainder] == 0x80
      invariant forall i | remainder < i < size - index :: tail[i] == 0
      invariant tail[size - index..size] == BigEndian(bitLength, index)
    {
      var octet := (ShiftRight(bitLength, 8 * index) % 256) as Byte;
      ghost var before := tail[size - index..size];
      tail[size - 1 - index] := octet;
      NextOctet(bitLength, index);
      assert tail[size - index..size] == before;
      assert tail[size - (index + 1)..size] == [octet] + before;
    }
    assert tail[..remainder] == bytes[offset..];
    TailIsPadding(bytes, offset, tail[..], size);
  }

  method ProcessTail(state: array<Word>, bytes: seq<Byte>, offset: nat)
    requires state.Length == 8 && offset <= |bytes| && offset % 64 == 0 && |bytes| - offset < 64
    requires VarsOf(state[..]) == HashBlocks(bytes[..offset])
    modifies state
    ensures VarsOf(state[..]) == HashBlocks(Padded(bytes))
  {
    hide *;
    var tail, size := BuildTail(bytes, offset);
    ghost var last := tail[..size];
    ghost var padded := Padded(bytes);
    assert padded == bytes[..offset] + last;
    LastBlocks(bytes[..offset], last);
    assert last[..64] == tail[..64];
    Transform(state, tail[..64]);
    ghost var first := Compress(HashBlocks(bytes[..offset]), last[..64]);
    assert VarsOf(state[..]) == first;
    if size == 128 {
      assert last[64..] == tail[64..128];
      Transform(state, tail[64..128]);
      assert VarsOf(state[..]) == Compress(first, last[64..]);
    }
    assert HashBlocks(bytes[..offset] + last) == VarsOf(state[..]);
  }

  /** For every message shorter than 2^64 bits the result is the digest of FIPS 180-4. */
  method Hash(bytes: seq<Byte>) returns (digest: seq<Byte>)
    ensures digest == Digest(bytes) && |digest| == 32
  {
    hide *;
    var state := new Word[8](_ => Word(0));
    state[0], state[1], state[2], state[3] := Word(0x6a09e667), Word(0xbb67ae85), Word(0x3c6ef372), Word(0xa54ff53a);
    state[4], state[5], state[6], state[7] := Word(0x510e527f), Word(0x9b05688c), Word(0x1f83d9ab), Word(0x5be0cd19);
    assert state[0] == Word(0x6a09e667);
    assert state[1] == Word(0xbb67ae85);
    assert state[7] == Word(0x5be0cd19);
    Initialised(state[..]);
    assert bytes[..0] == [];
    var offset := 0;
    while |bytes| - offset >= 64
      invariant offset <= |bytes| && offset % 64 == 0 && fresh(state) && state.Length == 8
      invariant VarsOf(state[..]) == HashBlocks(bytes[..offset])
    {
      OneMoreBlock(bytes, offset);
      Transform(state, bytes[offset..offset + 64]);
      offset := offset + 64;
    }
    ProcessTail(state, bytes, offset);
    digest := [];
    ghost var final := state[..];
    FourBytes(final);
    FlatStep(final, 0);
    for index := 0 to 8
      invariant state[..] == final && digest == Flat(final, index)
    {
      FlatStep(final, index);
      digest := digest + WordBytes(state[index]);
    }
    DigestParts(bytes, VarsOf(final));
  }

  lemma LastBlocks(front: seq<Byte>, tail: seq<Byte>)
    requires |front| % 64 == 0 && |front + tail| % 64 == 0 && (|tail| == 64 || |tail| == 128)
    ensures var first := Compress(HashBlocks(front), tail[..64]);
      HashBlocks(front + tail) == if |tail| == 64 then first else Compress(first, tail[64..])
  {
    hide HashBlocks, Compress;
    var all := front + tail;
    assert all[..|front|] == front && all[..|all|] == all;
    OneMoreBlock(all, |front|);
    assert all[|front|..|front| + 64] == tail[..64];
    if |tail| == 128 {
      OneMoreBlock(all, |front| + 64);
      assert all[|front| + 64..|front| + 128] == tail[64..];
    }
  }

  lemma FlatStep(state: seq<Word>, index: nat)
    requires index < |state|
    ensures Flat(state, index + 1) == Flat(state, index) + WordBytes(state[index]) && Flat(state, 0) == []
  {
  }

  lemma DigestParts(message: seq<Byte>, v: Vars)
    requires v == HashBlocks(Padded(message))
    ensures Digest(message) == DigestOf(v)
  {
  }

  lemma Initialised(state: seq<Word>)
    requires state == [Word(0x6a09e667), Word(0xbb67ae85), Word(0x3c6ef372), Word(0xa54ff53a),
                       Word(0x510e527f), Word(0x9b05688c), Word(0x1f83d9ab), Word(0x5be0cd19)]
    ensures VarsOf(state) == HashBlocks([])
  {
  }

  /** The bytes of the first n words. */
  function Flat(state: seq<Word>, n: nat): seq<Byte>
    requires n <= |state|
  {
    if n == 0 then [] else Flat(state, n - 1) + WordBytes(state[n - 1])
  }

  lemma FourBytes(state: seq<Word>)
    requires |state| == 8
    ensures Flat(state, 8) == DigestOf(VarsOf(state)) && |Flat(state, 8)| == 32
  {
    assert forall w :: |WordBytes(w)| == 4;
    assert Flat(state, 1) == WordBytes(state[0]);
    assert Flat(state, 4) == Flat(state, 1) + WordBytes(state[1]) + WordBytes(state[2]) + WordBytes(state[3]) by {
      assert Flat(state, 2) == Flat(state, 1) + WordBytes(state[1]);
      assert Flat(state, 3) == Flat(state, 2) + WordBytes(state[2]);
    }
    assert Flat(state, 8)
        == Flat(state, 4) + WordBytes(state[4]) + WordBytes(state[5]) + WordBytes(state[6]) + WordBytes(state[7]) by {
      assert Flat(state, 5) == Flat(state, 4) + WordBytes(state[4]);
      assert Flat(state, 6) == Flat(state, 5) + WordBytes(state[5]);
      assert Flat(state, 7) == Flat(state, 6) + WordBytes(state[6]);
    }
  }

  // ---------------------------------------------------------------- the digest as text

  function HexDigit(n: nat): char
    requires n < 16
  {
    "0123456789abcdef"[n]
  }

  function HexByte(b: Byte): string {
    [HexDigit(b as nat / 16), HexDigit(b as nat % 16)]
  }

  function Hex(bytes: seq<Byte>): (text: string)
    ensures |text| == 2 * |bytes|
  {
    if bytes == [] then "" else Hex(bytes[..|bytes| - 1]) + HexByte(bytes[|bytes| - 1])
  }

  method HashHex(bytes: seq<Byte>) returns (text: string)
    ensures text == Hex(Digest(bytes)) && |text| == 64
  {
    hide Digest, HexByte;
    var digest := Hash(bytes);
    text := "";
    for index := 0 to |digest|
      invariant text == Hex(digest[..index])
    {
      assert digest[..index + 1][..index] == digest[..index];
      text := text + HexByte(digest[index]);
    }
    assert digest[..|digest|] == digest;
  }

  lemma HexByteInjective(a: Byte, b: Byte)
    requires HexByte(a) == HexByte(b)
    ensures a == b
  {
    var i, j := a as nat, b as nat;
    HexDigitInjective(i / 16, j / 16);
    HexDigitInjective(i % 16, j % 16);
    assert i == j;
  }

  lemma HexDigitInjective(m: nat, n: nat)
    requires m < 16 && n < 16 && HexDigit(m) == HexDigit(n)
    ensures m == n
  {
  }

  /** Two keys are equal exactly when the digests are. */
  lemma {:induction false} HexInjective(a: seq<Byte>, b: seq<Byte>)
    ensures Hex(a) == Hex(b) <==> a == b
  {
    hide HexByte;
    if Hex(a) == Hex(b) && a != [] {
      var n := |a| - 1;
      assert Hex(a)[..2 * n] == Hex(a[..n]) && Hex(b)[..2 * n] == Hex(b[..n]);
      assert Hex(a)[2 * n..] == HexByte(a[n]) && Hex(b)[2 * n..] == HexByte(b[n]);
      HexInjective(a[..n], b[..n]);
      HexByteInjective(a[n], b[n]);
      assert a == a[..n] + [a[n]] && b == b[..n] + [b[n]];
    }
  }
}
