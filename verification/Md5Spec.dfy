/**
 MD5 as section 3 of RFC 1321 defines it, over whole messages.
 */
module Md5Spec {
  import opened Words

  const TWO32: nat := 0x1_0000_0000

  /** The four state words. */
  datatype Hash = Hash(a: Word, b: Word, c: Word, d: Word)

  const INITIAL: Hash := Hash(0x67452301, 0xefcdab89, 0x98badcfe, 0x10325476)

  datatype Mixer = F | G | H | I

  /** One step: which function, which word of the block, how far to rotate, what to add. */
  datatype Op = Op(mixer: Mixer, k: nat, s: nat, t: Word)

  const ROUND1: seq<Op> :=
    [Op(F, 0, 7, 0xd76aa478), Op(F, 1, 12, 0xe8c7b756), Op(F, 2, 17, 0x242070db), Op(F, 3, 22, 0xc1bdceee),
     Op(F, 4, 7, 0xf57c0faf), Op(F, 5, 12, 0x4787c62a), Op(F, 6, 17, 0xa8304613), Op(F, 7, 22, 0xfd469501),
     Op(F, 8, 7, 0x698098d8), Op(F, 9, 12, 0x8b44f7af), Op(F, 10, 17, 0xffff5bb1), Op(F, 11, 22, 0x895cd7be),
     Op(F, 12, 7, 0x6b901122), Op(F, 13, 12, 0xfd987193), Op(F, 14, 17, 0xa679438e), Op(F, 15, 22, 0x49b40821)]

  const ROUND2: seq<Op> :=
    [Op(G, 1, 5, 0xf61e2562), Op(G, 6, 9, 0xc040b340), Op(G, 11, 14, 0x265e5a51), Op(G, 0, 20, 0xe9b6c7aa),
     Op(G, 5, 5, 0xd62f105d), Op(G, 10, 9, 0x2441453), Op(G, 15, 14, 0xd8a1e681), Op(G, 4, 20, 0xe7d3fbc8),
     Op(G, 9, 5, 0x21e1cde6), Op(G, 14, 9, 0xc33707d6), Op(G, 3, 14, 0xf4d50d87), Op(G, 8, 20, 0x455a14ed),
     Op(G, 13, 5, 0xa9e3e905), Op(G, 2, 9, 0xfcefa3f8), Op(G, 7, 14, 0x676f02d9), Op(G, 12, 20, 0x8d2a4c8a)]

  const ROUND3: seq<Op> :=
    [Op(H, 5, 4, 0xfffa3942), Op(H, 8, 11, 0x8771f681), Op(H, 11, 16, 0x6d9d6122), Op(H, 14, 23, 0xfde5380c),
     Op(H, 1, 4, 0xa4beea44), Op(H, 4, 11, 0x4bdecfa9), Op(H, 7, 16, 0xf6bb4b60), Op(H, 10, 23, 0xbebfbc70),
     Op(H, 13, 4, 0x289b7ec6), Op(H, 0, 11, 0xeaa127fa), Op(H, 3, 16, 0xd4ef3085), Op(H, 6, 23, 0x4881d05),
     Op(H, 9, 4, 0xd9d4d039), Op(H, 12, 11, 0xe6db99e5), Op(H, 15, 16, 0x1fa27cf8), Op(H, 2, 23, 0xc4ac5665)]

  const ROUND4: seq<Op> :=
    [Op(I, 0, 6, 0xf4292244), Op(I, 7, 10, 0x432aff97), Op(I, 14, 15, 0xab9423a7), Op(I, 5, 21, 0xfc93a039),
     Op(I, 12, 6, 0x655b59c3), Op(I, 3, 10, 0x8f0ccc92), Op(I, 10, 15, 0xffeff47d), Op(I, 1, 21, 0x85845dd1),
     Op(I, 8, 6, 0x6fa87e4f), Op(I, 15, 10, 0xfe2ce6e0), Op(I, 6, 15, 0xa3014314), Op(I, 13, 21, 0x4e0811a1),
     Op(I, 4, 6, 0xf7537e82), Op(I, 11, 10, 0xbd3af235), Op(I, 2, 15, 0x2ad7d2bb), Op(I, 9, 21, 0xeb86d391)]

  // ----- the block function

  function Mixed(m: Mixer, x: Word, y: Word, z: Word): Word {
    match m
    case F => Or(And(x, y), And(Not(false, x), z))
    case G => Or(And(x, z), And(y, Not(false, z)))
    case H => Xor(Xor(x, y), z)
    case I => Xor(y, Or(x, Not(false, z)))
  }

  /** Section 3.4: F chooses by x, G chooses by z, H is the parity. */
  lemma MixedBit(x: Word, y: Word, z: Word, i: nat)
    requires x < TWO32 && z < TWO32 && i < 32
    ensures Bit(Mixed(F, x, y, z), i) <==> if Bit(x, i) then Bit(y, i) else Bit(z, i)
    ensures Bit(Mixed(G, x, y, z), i) <==> if Bit(z, i) then Bit(x, i) else Bit(y, i)
    ensures Bit(Mixed(H, x, y, z), i) <==> ((Bit(x, i) != Bit(y, i)) != Bit(z, i))
    ensures Bit(Mixed(I, x, y, z), i) <==> (Bit(y, i) != (Bit(x, i) || !Bit(z, i)))
  {
    hide Xor, And, Or, Not, Bit;
    OrBit(And(x, y), And(Not(false, x), z), i);
    AndBit(x, y, i);
    AndBit(Not(false, x), z, i);
    NotBit(false, x, i);
    OrBit(And(x, z), And(y, Not(false, z)), i);
    AndBit(x, z, i);
    AndBit(y, Not(false, z), i);
    NotBit(false, z, i);
    XorBit(Xor(x, y), z, i);
    XorBit(x, y, i);
    XorBit(y, Or(x, Not(false, z)), i);
    OrBit(x, Not(false, z), i);
  }

  /** A step changes a and passes the four words round. */
  function Step(h: Hash, op: Op, x: Word): Hash {
    var sum := Add(false, Add(false, Add(false, h.a, Mixed(op.mixer, h.b, h.c, h.d)), x), op.t);
    Hash(h.d, Add(false, h.b, RotateLeft(sum, op.s % 32)), h.b, h.c)
  }

  /** The little-endian value of four bytes at offset j. */
  function Decoded(s: seq<Byte>, j: nat): Word
    requires j + 4 <= |s|
  {
    var b0: nat, b1: nat, b2: nat, b3: nat := s[j], s[j + 1], s[j + 2], s[j + 3];
    b0 + 0x100 * b1 + 0x1_0000 * b2 + 0x100_0000 * b3
  }

  /** The sixteen words of a block. */
  function BlockWords(block: seq<Byte>): (x: seq<Word>)
    requires |block| == 64
    ensures |x| == 16
  {
    seq(16, i requires 0 <= i < 16 => Decoded(block, 4 * i))
  }

  /** The words of h after the first n of ops. */
  function StepsDone(h: Hash, ops: seq<Op>, x: seq<Word>, n: nat): Hash
    requires |x| == 16 && n <= |ops|
  {
    if n == 0 then h else Step(StepsDone(h, ops, x, n - 1), ops[n - 1], x[ops[n - 1].k % 16])
  }

  /** The words of h after one of the four rounds. */
  function RoundDone(h: Hash, ops: seq<Op>, x: seq<Word>): Hash
    requires |x| == 16
  {
    StepsDone(h, ops, x, |ops|)
  }

  function Compress(h: Hash, block: seq<Byte>): Hash
    requires |block| == 64
  {
    var x := BlockWords(block);
    var r := RoundDone(RoundDone(RoundDone(RoundDone(h, ROUND1, x), ROUND2, x), ROUND3, x), ROUND4, x);
    Hash(Add(false, h.a, r.a), Add(false, h.b, r.b), Add(false, h.c, r.c), Add(false, h.d, r.d))
  }

  // ----- whole messages

  /** The state after all the full blocks at the front of data. */
  function Absorb(h: Hash, data: seq<Byte>): Hash
    decreases |data|
  {
    if |data| < 64 then h else Absorb(Compress(h, data[..64]), data[64..])
  }

  /** A word in four little-endian bytes. */
  function Encoded(x: Word): (s: seq<Byte>)
    ensures |s| == 4
  {
    [x % 256, x / 0x100 % 256, x / 0x1_0000 % 256, x / 0x100_0000 % 256]
  }

  /** Section 3.2: the bit count modulo 2^64 as two words, low-order word first. */
  function LengthField(bits: nat): (s: seq<Byte>)
    ensures |s| == 8
  {
    Encoded(bits % TWO32) + Encoded(bits / TWO32 % TWO32)
  }

  /** Bytes of mark and zeros: at least one, and enough to reach 56 modulo 64. */
  function PadLength(used: nat): (n: nat)
    requires used < 64
    ensures 1 <= n <= 64 && (used + n) % 64 == 56
  {
    if used < 56 then 56 - used else 120 - used
  }

  function Mark(n: nat): (s: seq<Byte>)
    requires n > 0
    ensures |s| == n
  {
    seq(n, i => if i == 0 then 0x80 else 0)
  }

  /** Sections 3.1 and 3.2. */
  function Pad(message: seq<Byte>): seq<Byte> {
    message + Mark(PadLength(|message| % 64)) + LengthField(8 * |message|)
  }

  function Digest(message: seq<Byte>): (s: seq<Byte>)
    ensures |s| == 16
  {
    var h := Absorb(INITIAL, Pad(message));
    Encoded(h.a) + Encoded(h.b) + Encoded(h.c) + Encoded(h.d)
  }

  // ----- facts about folding blocks

  lemma {:induction false} AbsorbConcat(h: Hash, a: seq<Byte>, b: seq<Byte>)
    requires |a| % 64 == 0
    ensures Absorb(h, a + b) == Absorb(Absorb(h, a), b)
    decreases |a|
  {
    hide Compress;
    if |a| == 0 {
      assert a + b == b;
    } else {
      assert (a + b)[..64] == a[..64] && (a + b)[64..] == a[64..] + b;
      AbsorbConcat(Compress(h, a[..64]), a[64..], b);
    }
  }

  lemma AbsorbBlock(h: Hash, a: seq<Byte>, block: seq<Byte>)
    requires |a| % 64 == 0 && |block| == 64
    ensures Absorb(h, a + block) == Compress(Absorb(h, a), block)
  {
    hide Compress;
    AbsorbConcat(h, a, block);
    assert block[..64] == block && block[64..] == [];
  }

  /** Encode and Decode are inverse on 32-bit words. */
  lemma DecodeEncoded(x: Word)
    requires x < TWO32
    ensures Decoded(Encoded(x), 0) == x
  {
    var y := x / 0x100;
    assert x == 0x100 * y + x % 256;
    var z := y / 0x100;
    assert y == 0x100 * z + y % 256 && z == x / 0x1_0000;
    assert z / 0x100 == x / 0x100_0000 && z == 0x100 * (z / 0x100) + z % 256 && z / 0x100 < 256;
  }

  // ----- HMAC

  /** One byte exclusive-or another. */
  function XorByte(x: Byte, y: Byte): Byte {
    XorBelow(x, y, 256);
    Xor(x, y)
  }

  lemma {:induction false} XorBelow(x: Word, y: Word, limit: nat)
    requires x < limit && y < limit && PowerOfTwo(limit)
    ensures Xor(x, y) < limit
    decreases limit
  {
    if x != 0 || y != 0 {
      XorBelow(x / 2, y / 2, limit / 2);
    }
  }

  predicate PowerOfTwo(n: nat) {
    n == 1 || (n > 1 && n % 2 == 0 && PowerOfTwo(n / 2))
  }

  function XorAll(s: seq<Byte>, pad: Byte): (r: seq<Byte>)
    ensures |r| == |s|
  {
    seq(|s|, i requires 0 <= i < |s| => XorByte(s[i], pad))
  }

  /** Section 2 of RFC 2104: a key longer than a block is hashed, and zeros fill the block. */
  function KeyBlock(key: seq<Byte>): (s: seq<Byte>)
    ensures |s| == 64
  {
    var short := if |key| > 64 then Digest(key) else key;
    short + seq(64 - |short|, _ => 0)
  }

  function Hmac(key: seq<Byte>, text: seq<Byte>): seq<Byte> {
    Digest(XorAll(KeyBlock(key), 0x5c) + Digest(XorAll(KeyBlock(key), 0x36) + text))
  }
}
