/**
 The SHA-2 family as FIPS 180-4 defines it: the message schedule and rounds of sections
 6.2.2 and 6.4.2, and the padding of section 5.1.
 */
module Sha2Spec {
  import opened Words

  const TWO64: nat := 0x1_0000_0000_0000_0000

  /** The eight working variables, also the eight words of a hash value. */
  datatype Regs = Regs(a: Word, b: Word, c: Word, d: Word, e: Word, f: Word, g: Word, h: Word)

  /** One term of the sigma functions. */
  datatype Term = Rotate(n: nat) | Shift(n: nat)

  /** What distinguishes the members of the family. */
  datatype Algorithm = Algorithm(
    wide: bool, digestWords: nat, initial: Regs, k: seq<Word>,
    bigSigma0: seq<Term>, bigSigma1: seq<Term>, sigma0: seq<Term>, sigma1: seq<Term>)
  {
    /** The offset of the i-th word of a block. */
    function At(i: nat): nat {
      if wide then 8 * i else 4 * i
    }

    function BlockSize(): nat {
      if wide then 128 else 64
    }

    /** Bytes of the length field at the end of the padding. */
    function LengthSize(): nat {
      if wide then 16 else 8
    }

    function ShortSize(): nat {
      BlockSize() - LengthSize()
    }

    /** One constant for each of the 64 or 80 rounds, and no more output than there is. */
    predicate Valid() {
      |k| == (if wide then 80 else 64) && digestWords <= 8
    }
  }

  // ----- the round constants of sections 4.2.2 and 4.2.3, in rows of eight

  const K256_0: seq<Word> :=
    [0x428a2f98, 0x71374491, 0xb5c0fbcf, 0xe9b5dba5, 0x3956c25b, 0x59f111f1, 0x923f82a4, 0xab1c5ed5]

  const K256_1: seq<Word> :=
    [0xd807aa98, 0x12835b01, 0x243185be, 0x550c7dc3, 0x72be5d74, 0x80deb1fe, 0x9bdc06a7, 0xc19bf174]

  const K256_2: seq<Word> :=
    [0xe49b69c1, 0xefbe4786, 0x0fc19dc6, 0x240ca1cc, 0x2de92c6f, 0x4a7484aa, 0x5cb0a9dc, 0x76f988da]

  const K256_3: seq<Word> :=
    [0x983e5152, 0xa831c66d, 0xb00327c8, 0xbf597fc7, 0xc6e00bf3, 0xd5a79147, 0x06ca6351, 0x14292967]

  const K256_4: seq<Word> :=
    [0x27b70a85, 0x2e1b2138, 0x4d2c6dfc, 0x53380d13, 0x650a7354, 0x766a0abb, 0x81c2c92e, 0x92722c85]

  const K256_5: seq<Word> :=
    [0xa2bfe8a1, 0xa81a664b, 0xc24b8b70, 0xc76c51a3, 0xd192e819, 0xd6990624, 0xf40e3585, 0x106aa070]

  const K256_6: seq<Word> :=
    [0x19a4c116, 0x1e376c08, 0x2748774c, 0x34b0bcb5, 0x391c0cb3, 0x4ed8aa4a, 0x5b9cca4f, 0x682e6ff3]

  const K256_7: seq<Word> :=
    [0x748f82ee, 0x78a5636f, 0x84c87814, 0x8cc70208, 0x90befffa, 0xa4506ceb, 0xbef9a3f7, 0xc67178f2]

  const K512_0: seq<Word> :=
    [0x428a2f98d728ae22, 0x7137449123ef65cd, 0xb5c0fbcfec4d3b2f, 0xe9b5dba58189dbbc,
     0x3956c25bf348b538, 0x59f111f1b605d019, 0x923f82a4af194f9b, 0xab1c5ed5da6d8118]

  const K512_1: seq<Word> :=
    [0xd807aa98a3030242, 0x12835b0145706fbe, 0x243185be4ee4b28c, 0x550c7dc3d5ffb4e2,
     0x72be5d74f27b896f, 0x80deb1fe3b1696b1, 0x9bdc06a725c71235, 0xc19bf174cf692694]

  const K512_2: seq<Word> :=
    [0xe49b69c19ef14ad2, 0xefbe4786384f25e3, 0x0fc19dc68b8cd5b5, 0x240ca1cc77ac9c65,
     0x2de92c6f592b0275, 0x4a7484aa6ea6e483, 0x5cb0a9dcbd41fbd4, 0x76f988da831153b5]

  const K512_3: seq<Word> :=
    [0x983e5152ee66dfab, 0xa831c66d2db43210, 0xb00327c898fb213f, 0xbf597fc7beef0ee4,
     0xc6e00bf33da88fc2, 0xd5a79147930aa725, 0x06ca6351e003826f, 0x142929670a0e6e70]

  const K512_4: seq<Word> :=
    [0x27b70a8546d22ffc, 0x2e1b21385c26c926, 0x4d2c6dfc5ac42aed, 0x53380d139d95b3df,
     0x650a73548baf63de, 0x766a0abb3c77b2a8, 0x81c2c92e47edaee6, 0x92722c851482353b]

  const K512_5: seq<Word> :=
    [0xa2bfe8a14cf10364, 0xa81a664bbc423001, 0xc24b8b70d0f89791, 0xc76c51a30654be30,
     0xd192e819d6ef5218, 0xd69906245565a910, 0xf40e35855771202a, 0x106aa07032bbd1b8]

  const K512_6: seq<Word> :=
    [0x19a4c116b8d2d0c8, 0x1e376c085141ab53, 0x2748774cdf8eeb99, 0x34b0bcb5e19b48a8,
     0x391c0cb3c5c95a63, 0x4ed8aa4ae3418acb, 0x5b9cca4f7763e373, 0x682e6ff3d6b2b8a3]

  const K512_7: seq<Word> :=
    [0x748f82ee5defb2fc, 0x78a5636f43172f60, 0x84c87814a1f0ab72, 0x8cc702081a6439ec,
     0x90befffa23631e28, 0xa4506cebde82bde9, 0xbef9a3f7b2c67915, 0xc67178f2e372532b]

  const K512_8: seq<Word> :=
    [0xca273eceea26619c, 0xd186b8c721c0c207, 0xeada7dd6cde0eb1e, 0xf57d4f7fee6ed178,
     0x06f067aa72176fba, 0x0a637dc5a2c898a6, 0x113f9804bef90dae, 0x1b710b35131c471b]

  const K512_9: seq<Word> :=
    [0x28db77f523047d84, 0x32caab7b40c72493, 0x3c9ebe0a15c9bebc, 0x431d67c49c100d4c,
     0x4cc5d4becb3e42b6, 0x597f299cfc657e2a, 0x5fcb6fab3ad6faec, 0x6c44198c4a475817]

  function Row256(r: nat): (row: seq<Word>)
    requires r < 8
    ensures |row| == 8
  {
    match r
    case 0 => K256_0
    case 1 => K256_1
    case 2 => K256_2
    case 3 => K256_3
    case 4 => K256_4
    case 5 => K256_5
    case 6 => K256_6
    case _ => K256_7
  }

  function Row512(r: nat): (row: seq<Word>)
    requires r < 10
    ensures |row| == 8
  {
    match r
    case 0 => K512_0
    case 1 => K512_1
    case 2 => K512_2
    case 3 => K512_3
    case 4 => K512_4
    case 5 => K512_5
    case 6 => K512_6
    case 7 => K512_7
    case 8 => K512_8
    case _ => K512_9
  }

  const Sha256: Algorithm := Algorithm(
    false, 8,
    Regs(0x6a09e667, 0xbb67ae85, 0x3c6ef372, 0xa54ff53a,
         0x510e527f, 0x9b05688c, 0x1f83d9ab, 0x5be0cd19),
    seq(64, t requires 0 <= t < 64 => Row256(t / 8)[t % 8]),
    [Rotate(2), Rotate(13), Rotate(22)], [Rotate(6), Rotate(11), Rotate(25)],
    [Rotate(7), Rotate(18), Shift(3)], [Rotate(17), Rotate(19), Shift(10)])

  const Sha512: Algorithm := Algorithm(
    true, 8,
    Regs(0x6a09e667f3bcc908, 0xbb67ae8584caa73b, 0x3c6ef372fe94f82b, 0xa54ff53a5f1d36f1,
         0x510e527fade682d1, 0x9b05688c2b3e6c1f, 0x1f83d9abfb41bd6b, 0x5be0cd19137e2179),
    seq(80, t requires 0 <= t < 80 => Row512(t / 8)[t % 8]),
    [Rotate(28), Rotate(34), Rotate(39)], [Rotate(14), Rotate(18), Rotate(41)],
    [Rotate(1), Rotate(8), Shift(7)], [Rotate(19), Rotate(61), Shift(6)])

  const Sha384: Algorithm := Sha512.(
    digestWords := 6,
    initial := Regs(0xcbbb9d5dc1059ed8, 0x629a292a367cd507, 0x9159015a3070dd17, 0x152fecd8f70e5939,
                    0x67332667ffc00b31, 0x8eb44a8768581511, 0xdb0c2e0d64f98fa7, 0x47b5481dbefa4fa4))

  // ----- compression

  /** The exclusive or of all terms, the first one outermost to the left. */
  function Mix(wide: bool, terms: seq<Term>, x: Word): Word {
    if terms == [] then 0
    else if |terms| == 1 then Apply(wide, terms[0], x)
    else Xor(Mix(wide, terms[..|terms| - 1], x), Apply(wide, terms[|terms| - 1], x))
  }

  function Apply(wide: bool, term: Term, x: Word): Word {
    match term
    case Rotate(n) => RotateRight(wide, x, n % Bits(wide))
    case Shift(n) => ShiftRight(x, n)
  }

  function Ch(wide: bool, x: Word, y: Word, z: Word): Word {
    Xor(And(x, y), And(Not(wide, x), z))
  }

  function Maj(x: Word, y: Word, z: Word): Word {
    Xor(Xor(And(x, y), And(x, z)), And(y, z))
  }

  /** Section 4.1: each bit of Ch is chosen by x from y and z. */
  lemma ChBit(wide: bool, x: Word, y: Word, z: Word, i: nat)
    requires x < Limit(wide) && i < Bits(wide)
    ensures Bit(Ch(wide, x, y, z), i) <==> if Bit(x, i) then Bit(y, i) else Bit(z, i)
  {
    hide Xor, And, Not, Bit;
    XorBit(And(x, y), And(Not(wide, x), z), i);
    AndBit(x, y, i);
    AndBit(Not(wide, x), z, i);
    NotBit(wide, x, i);
  }

  /** Section 4.1: each bit of Maj is the majority of the three. */
  lemma MajBit(x: Word, y: Word, z: Word, i: nat)
    ensures Bit(Maj(x, y, z), i)
       <==> (Bit(x, i) && Bit(y, i)) || (Bit(x, i) && Bit(z, i)) || (Bit(y, i) && Bit(z, i))
  {
    hide Xor, And, Bit;
    XorBit(Xor(And(x, y), And(x, z)), And(y, z), i);
    XorBit(And(x, y), And(x, z), i);
    AndBit(x, y, i);
    AndBit(x, z, i);
    AndBit(y, z, i);
  }

  /** The i-th word of a block, big-endian. */
  function BlockWord(alg: Algorithm, block: seq<Byte>, i: nat): Word
    requires |block| == alg.BlockSize() && i < 16
  {
    Be(block[alg.At(i)..alg.At(i) + WordSize(alg.wide)])
  }

  /** The message schedule W_t. */
  function Schedule(alg: Algorithm, block: seq<Byte>, t: nat): Word
    requires |block| == alg.BlockSize()
  {
    if t < 16 then BlockWord(alg, block, t)
    else
      Add(alg.wide,
          Add(alg.wide,
              Add(alg.wide, Mix(alg.wide, alg.sigma1, Schedule(alg, block, t - 2)), Schedule(alg, block, t - 7)),
              Mix(alg.wide, alg.sigma0, Schedule(alg, block, t - 15))),
          Schedule(alg, block, t - 16))
  }

  /** One round with constant k and schedule word w. */
  function Round(alg: Algorithm, r: Regs, k: Word, w: Word): Regs {
    var t1 := Add(alg.wide,
                  Add(alg.wide,
                      Add(alg.wide, Add(alg.wide, r.h, Mix(alg.wide, alg.bigSigma1, r.e)), Ch(alg.wide, r.e, r.f, r.g)),
                      k),
                  w);
    var t2 := Add(alg.wide, Mix(alg.wide, alg.bigSigma0, r.a), Maj(r.a, r.b, r.c));
    Regs(Add(alg.wide, t1, t2), r.a, r.b, r.c, Add(alg.wide, r.d, t1), r.e, r.f, r.g)
  }

  /** The working variables after t rounds. */
  function Rounds(alg: Algorithm, h: Regs, block: seq<Byte>, t: nat): Regs
    requires |block| == alg.BlockSize() && t <= |alg.k|
    decreases t
  {
    if t == 0 then h else Round(alg, Rounds(alg, h, block, t - 1), alg.k[t - 1], Schedule(alg, block, t - 1))
  }

  function AddRegs(wide: bool, x: Regs, y: Regs): Regs {
    Regs(Add(wide, x.a, y.a), Add(wide, x.b, y.b), Add(wide, x.c, y.c), Add(wide, x.d, y.d),
         Add(wide, x.e, y.e), Add(wide, x.f, y.f), Add(wide, x.g, y.g), Add(wide, x.h, y.h))
  }

  function Compress(alg: Algorithm, h: Regs, block: seq<Byte>): Regs
    requires |block| == alg.BlockSize()
  {
    AddRegs(alg.wide, h, Rounds(alg, h, block, |alg.k|))
  }

  // ----- whole messages

  /** The hash value after all the full blocks at the front of data. */
  function Absorb(alg: Algorithm, h: Regs, data: seq<Byte>): Regs
    decreases |data|
  {
    if |data| < alg.BlockSize() then h
    else Absorb(alg, Compress(alg, h, data[..alg.BlockSize()]), data[alg.BlockSize()..])
  }

  /** The length field: the bit count modulo 2^64 or 2^128, big-endian. */
  function LengthField(alg: Algorithm, bits: nat): (s: seq<Byte>)
    ensures |s| == alg.LengthSize()
  {
    if alg.wide then ToBe(8, bits / TWO64 % TWO64) + ToBe(8, bits % TWO64) else ToBe(8, bits % TWO64)
  }

  function Zeros(n: nat): (s: seq<Byte>)
    ensures |s| == n
  {
    seq(n, _ => 0)
  }

  /** The fewest zero bytes that make message, mark, zeros and length field whole blocks. */
  function ZeroCount(used: nat, block: nat, field: nat): nat
    requires used < block && field < block
  {
    if used + 1 + field <= block then block - field - 1 - used else 2 * block - field - 1 - used
  }

  /** Section 5.1: the message, a one bit, zeros, and the length field. */
  function Pad(alg: Algorithm, message: seq<Byte>): seq<Byte> {
    message + [0x80] + Zeros(ZeroCount(|message| % alg.BlockSize(), alg.BlockSize(), alg.LengthSize()))
    + LengthField(alg, 8 * |message|)
  }

  /** The first n words of a hash value as big-endian bytes. */
  function Output(alg: Algorithm, h: Regs, n: nat): seq<Byte>
    requires n <= 8
  {
    if n == 0 then [] else Output(alg, h, n - 1) + ToBe(WordSize(alg.wide), WordOf(h, n - 1))
  }

  function WordOf(h: Regs, i: nat): Word
    requires i < 8
  {
    if i == 0 then h.a else if i == 1 then h.b else if i == 2 then h.c else if i == 3 then h.d
    else if i == 4 then h.e else if i == 5 then h.f else if i == 6 then h.g else h.h
  }

  /** The digest of a message. */
  function Digest(alg: Algorithm, message: seq<Byte>): seq<Byte>
    requires alg.Valid()
  {
    Output(alg, Absorb(alg, alg.initial, Pad(alg, message)), alg.digestWords)
  }

  // ----- facts about folding blocks

  /** n bytes are some number of whole blocks. */
  predicate Whole(alg: Algorithm, n: nat) {
    n == 0 || (n >= alg.BlockSize() && Whole(alg, n - alg.BlockSize()))
  }

  lemma {:induction false} WholeNext(alg: Algorithm, n: nat)
    requires Whole(alg, n)
    ensures Whole(alg, n + alg.BlockSize())
  {
    assert n + alg.BlockSize() - alg.BlockSize() == n;
  }

  lemma {:induction false} WholeMod(alg: Algorithm, n: nat, r: nat)
    requires Whole(alg, n) && r < alg.BlockSize()
    ensures (n + r) % alg.BlockSize() == r
    decreases n
  {
    if n > 0 {
      WholeMod(alg, n - alg.BlockSize(), r);
      if alg.wide {
        assert (n - 128 + r) % 128 == (n + r) % 128;
      } else {
        assert (n - 64 + r) % 64 == (n + r) % 64;
      }
    }
  }

  lemma {:induction false} AbsorbConcat(alg: Algorithm, h: Regs, a: seq<Byte>, b: seq<Byte>)
    requires Whole(alg, |a|)
    ensures Absorb(alg, h, a + b) == Absorb(alg, Absorb(alg, h, a), b)
    decreases |a|
  {
    if |a| == 0 {
      assert a + b == b;
    } else {
      hide Compress;
      ghost var n := alg.BlockSize();
      assert (a + b)[..n] == a[..n];
      assert (a + b)[n..] == a[n..] + b;
      AbsorbConcat(alg, Compress(alg, h, a[..n]), a[n..], b);
    }
  }

  lemma AbsorbBlock(alg: Algorithm, h: Regs, a: seq<Byte>, block: seq<Byte>)
    requires Whole(alg, |a|) && |block| == alg.BlockSize()
    ensures Absorb(alg, h, a + block) == Compress(alg, Absorb(alg, h, a), block)
  {
    hide Compress;
    AbsorbConcat(alg, h, a, block);
    assert block[..alg.BlockSize()] == block && block[alg.BlockSize()..] == [];
  }

  /** The one padding block behind tail, when mark and length field fit in it. */
  function LastBlock(alg: Algorithm, tail: seq<Byte>, bits: nat): (block: seq<Byte>)
    requires |tail| + 1 <= alg.ShortSize()
    ensures |block| == alg.BlockSize()
  {
    tail + [0x80] + Zeros(alg.ShortSize() - |tail| - 1) + LengthField(alg, bits)
  }

  /** The block that ends with the mark, when the length field does not fit behind it. */
  function MarkBlock(alg: Algorithm, tail: seq<Byte>): (block: seq<Byte>)
    requires |tail| + 1 <= alg.BlockSize()
    ensures |block| == alg.BlockSize()
  {
    tail + [0x80] + Zeros(alg.BlockSize() - |tail| - 1)
  }

  function LengthBlock(alg: Algorithm, bits: nat): (block: seq<Byte>)
    ensures |block| == alg.BlockSize()
  {
    Zeros(alg.ShortSize()) + LengthField(alg, bits)
  }

  lemma PadShape(alg: Algorithm, front: seq<Byte>, tail: seq<Byte>)
    requires Whole(alg, |front|) && |tail| < alg.BlockSize()
    ensures |tail| + 1 <= alg.ShortSize() ==>
      Pad(alg, front + tail) == front + LastBlock(alg, tail, 8 * |front + tail|)
    ensures |tail| + 1 > alg.ShortSize() ==>
      Pad(alg, front + tail) == front + MarkBlock(alg, tail) + LengthBlock(alg, 8 * |front + tail|)
  {
    WholeMod(alg, |front|, |tail|);
    var field := LengthField(alg, 8 * |front + tail|);
    var count := ZeroCount(|tail|, alg.BlockSize(), alg.LengthSize());
    if |tail| + 1 <= alg.ShortSize() {
      Regroup(front, tail, [0x80], Zeros(count), field);
    } else {
      var few, many := Zeros(alg.BlockSize() - |tail| - 1), Zeros(alg.ShortSize());
      assert Zeros(count) == few + many;
      RegroupTwo(front, tail, [0x80], few, many, field);
    }
  }

  lemma Regroup(a: seq<Byte>, b: seq<Byte>, c: seq<Byte>, d: seq<Byte>, e: seq<Byte>)
    ensures a + b + c + d + e == a + (b + c + d + e)
  {
  }

  lemma RegroupTwo(a: seq<Byte>, b: seq<Byte>, c: seq<Byte>, d: seq<Byte>, e: seq<Byte>, f: seq<Byte>)
    ensures a + b + c + (d + e) + f == a + (b + c + d) + (e + f)
  {
  }

  /** Padding adds one block when mark and length field fit behind the unfinished block,
      and ends the hash with two blocks when they do not. */
  lemma PadBlocks(alg: Algorithm, h: Regs, front: seq<Byte>, tail: seq<Byte>)
    requires Whole(alg, |front|) && |tail| < alg.BlockSize()
    ensures |tail| + 1 <= alg.ShortSize() ==>
      Absorb(alg, h, Pad(alg, front + tail))
      == Compress(alg, Absorb(alg, h, front), LastBlock(alg, tail, 8 * |front + tail|))
    ensures |tail| + 1 > alg.ShortSize() ==>
      Absorb(alg, h, Pad(alg, front + tail))
      == Compress(alg, Compress(alg, Absorb(alg, h, front), MarkBlock(alg, tail)), LengthBlock(alg, 8 * |front + tail|))
  {
    PadShape(alg, front, tail);
    if |tail| + 1 <= alg.ShortSize() {
      AbsorbBlock(alg, h, front, LastBlock(alg, tail, 8 * |front + tail|));
    } else {
      WholeNext(alg, |front|);
      AbsorbBlock(alg, h, front + MarkBlock(alg, tail), LengthBlock(alg, 8 * |front + tail|));
      AbsorbBlock(alg, h, front, MarkBlock(alg, tail));
    }
  }
}
