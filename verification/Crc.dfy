/**
 The CRC routines of crc16.c, crc.c and CheckSumUtils.c.  A machine word is the sequence
 of its bits, most significant first, so that a shift left by one is Shifted, a test of
 the top bit looks at element 0, and the low half of a word is its tail.
 */
module Crc {
  import opened CrcTheory

  type Byte = b: seq<bool> | |b| == 8 witness Zeros(8)
  type Word16 = w: seq<bool> | |w| == 16 witness Zeros(16)
  type Word32 = w: seq<bool> | |w| == 32 witness Zeros(32)

  const ZERO16: Word16 := Zeros(16)
  const ONES16: Word16 := seq(16, _ => true)
  const ONES32: Word32 := seq(32, _ => true)

  /** 0x1021 */
  const POLY16: Word16 :=
    [false, false, false, true, false, false, false, false, false, false, true, false, false, false, false, true]

  /** 0x04C11DB7 */
  const POLY32: Word32 :=
    [false, false, false, false, false, true, false, false, true, true, false, false, false, false, false, true,
     false, false, false, true, true, true, false, true, true, false, true, true, false, true, true, true]

  /** The bits of a message in the order they are fed. */
  function BitsOf(message: seq<Byte>): (s: seq<bool>)
    ensures |s| == 8 * |message|
  {
    if message == [] then [] else message[0] + BitsOf(message[1..])
  }

  /** The CRC of a message, from the initial register r. */
  function CrcOf(r: seq<bool>, message: seq<Byte>, poly: seq<bool>): (s: seq<bool>)
    requires |r| == |poly| > 0
    ensures |s| == |r|
  {
    Feed(r, BitsOf(message), poly)
  }

  lemma {:induction false} BitsOfConcat(a: seq<Byte>, b: seq<Byte>)
    ensures BitsOf(a + b) == BitsOf(a) + BitsOf(b)
  {
    if a == [] {
      assert a + b == b;
    } else {
      assert (a + b)[1..] == a[1..] + b;
      BitsOfConcat(a[1..], b);
    }
  }

  lemma BitsOfLast(message: seq<Byte>, k: nat)
    requires k < |message|
    ensures BitsOf(message[..k + 1]) == BitsOf(message[..k]) + message[k]
  {
    assert message[..k + 1] == message[..k] + [message[k]];
    BitsOfConcat(message[..k], [message[k]]);
    assert BitsOf([message[k]]) == message[k] + BitsOf([]);
  }

  lemma {:induction false} BitsOfAt(message: seq<Byte>, i: nat)
    requires i < 8 * |message|
    ensures BitsOf(message)[i] == message[i / 8][i % 8]
  {
    if i >= 8 {
      BitsOfAt(message[1..], i - 8);
    }
  }

  lemma {:induction false} BitsOfInjective(a: seq<Byte>, b: seq<Byte>)
    requires BitsOf(a) == BitsOf(b)
    ensures a == b
  {
    if a != [] {
      assert a[0] == BitsOf(a)[..8] == BitsOf(b)[..8] == b[0];
      assert BitsOf(a[1..]) == BitsOf(a)[8..] == BitsOf(b)[8..] == BitsOf(b[1..]);
      BitsOfInjective(a[1..], b[1..]);
      assert a == [a[0]] + a[1..] && b == [b[0]] + b[1..];
    }
  }

  /** One byte added at the top and shifted through, as the byte loops do it. */
  function AddByte(r: seq<bool>, b: Byte, poly: seq<bool>): (s: seq<bool>)
    requires |r| == |poly| >= 8
    ensures |s| == |r|
  {
    Steps(Add(r, b), |b|, poly)
  }

  lemma AddByteFeeds(r: seq<bool>, message: seq<Byte>, k: nat, poly: seq<bool>)
    requires |r| == |poly| >= 8 && k < |message|
    ensures CrcOf(r, message[..k + 1], poly) == AddByte(CrcOf(r, message[..k], poly), message[k], poly)
  {
    BitsOfLast(message, k);
    FeedConcat(r, BitsOf(message[..k]), message[k], poly);
    FeedIsSteps(Feed(r, BitsOf(message[..k]), poly), message[k], poly);
  }

  // ----- crc16.c

  function Apply(order: Byte -> Byte, message: seq<Byte>): (s: seq<Byte>)
    ensures |s| == |message| && forall i :: 0 <= i < |s| ==> s[i] == order(message[i])
  {
    seq(|message|, i requires 0 <= i < |message| => order(message[i]))
  }

  /** The bytes a call of a CRC routine covers. */
  function Covered(message: seq<Byte>, nBytes: int): seq<Byte>
    requires nBytes <= |message|
  {
    if nBytes <= 0 then [] else message[..nBytes]
  }

  /** The inner loop of the byte-wise routines, which count bits down from 8. */
  method Shifts(initial: seq<bool>, bits: nat, polynomial: seq<bool>) returns (remainder: seq<bool>)
    requires |initial| == |polynomial| > 0
    ensures |remainder| == |initial| && remainder == Steps(initial, bits, polynomial)
  {
    remainder := initial;
    var bit := bits;
    while bit > 0
      invariant 0 <= bit <= bits && |remainder| == |initial|
      invariant Steps(initial, bits, polynomial) == Steps(remainder, bit, polynomial)
    {
      if remainder[0] {
        remainder := Xor(Shifted(remainder), polynomial);
      } else {
        remainder := Shifted(remainder);
      }
      bit := bit - 1;
    }
  }

  /** crc16common, for any bit orders, initial register and polynomial. */
  method Crc16Common(message: seq<Byte>, nBytes: int, dataOrder: Byte -> Byte, remainderOrder: Word16 -> Word16,
                     initial: Word16, polynomial: Word16)
    returns (crc: Word16)
    requires nBytes <= |message|
    ensures crc == remainderOrder(CrcOf(initial, Apply(dataOrder, Covered(message, nBytes)), polynomial))
  {
    var remainder := initial;
    var byte := 0;
    ghost var fed := Apply(dataOrder, Covered(message, nBytes));
    while byte < nBytes
      invariant 0 <= byte <= |fed|
      invariant |remainder| == 16 && remainder == CrcOf(initial, fed[..byte], polynomial)
    {
      var data := dataOrder(message[byte]);
      remainder := Xor(remainder, data + Zeros(8));
      remainder := Shifts(remainder, |data|, polynomial);
      AddByteFeeds(initial, fed, byte, polynomial);
      byte := byte + 1;
    }
    assert fed[..byte] == fed;
    crc := remainderOrder(remainder);
  }

  method Crc16Ccitt(message: seq<Byte>, nBytes: int) returns (crc: Word16)
    requires nBytes <= |message|
    ensures crc == CrcOf(ONES16, Covered(message, nBytes), POLY16)
  {
    crc := Crc16Common(message, nBytes, (b: Byte) => b, (w: Word16) => w, ONES16, POLY16);
    assert Apply((b: Byte) => b, Covered(message, nBytes)) == Covered(message, nBytes);
  }

  method Crc16CcittXmodem(message: seq<Byte>, nBytes: int) returns (crc: Word16)
    requires nBytes <= |message|
    ensures crc == CrcOf(ZERO16, Covered(message, nBytes), POLY16)
  {
    crc := Crc16Common(message, nBytes, (b: Byte) => b, (w: Word16) => w, ZERO16, POLY16);
    assert Apply((b: Byte) => b, Covered(message, nBytes)) == Covered(message, nBytes);
  }

  // ----- crc.c

  /** The current byte, shifted left k times, at the top of a 16-bit word. */
  function Sliding(b: Byte, k: nat): (w: Word16)
    requires k <= 8
  {
    b[k..] + Zeros(8 + k)
  }

  /** The body of the bit loop: what becomes of the register. */
  function NextShift(shift: Word16, data: Word16, poly: Word16): (w: Word16) {
    if Xor(shift, data)[0] then Xor(Shifted(shift), poly) else Shifted(shift)
  }

  lemma NextShiftFeeds(seed: Word16, bits: seq<bool>, i: nat, shift: Word16, data: Word16, poly: Word16)
    requires i < |bits| && shift == Feed(seed, bits[..i], poly) && data[0] == bits[i]
    ensures NextShift(shift, data, poly) == Feed(seed, bits[..i + 1], poly)
  {
    FeedPrefix(seed, bits, i, poly);
    assert Shifted([shift[0] != data[0]] + shift[1..]) == Shifted(shift);
  }

  lemma SlidingShift(b: Byte, k: nat)
    requires k < 8
    ensures Sliding(b, k)[0] == b[k] && Shifted(Sliding(b, k)) == Sliding(b, k + 1)
  {
  }

  lemma Within(i: nat)
    ensures i % 8 == 0 ==> (i + 7) / 8 == i / 8
    ensures i % 8 != 0 ==> (i + 7) / 8 == i / 8 + 1
    ensures (i + 8) / 8 == i / 8 + 1
    ensures (i + 1) % 8 != 0 ==> (i + 1) / 8 == i / 8 && (i + 1) % 8 == i % 8 + 1
  {
  }

  lemma FeedNothing(seed: Word16, poly: Word16)
    ensures Feed(seed, [], poly) == seed
  {
  }

  /** The loop of utils_crc16, for any seed and polynomial: one bit of the message at a
      time, with the current byte shifted left alongside the register. */
  method FeedBits(buf: seq<Byte>, length: nat, seed: Word16, poly: Word16) returns (shift: Word16)
    requires length <= 8 * |buf|
    ensures shift == Feed(seed, BitsOf(buf)[..length], poly)
  {
    hide Feed, BitsOf;
    ghost var bits := BitsOf(buf);
    assert bits[..0] == [];
    FeedNothing(seed, poly);
    shift := seed;
    var data: Word16 := Zeros(16);
    var i, next := 0, 0;
    while i < length
      invariant i <= length && next == (i + 7) / 8
      invariant shift == Feed(seed, bits[..i], poly)
      invariant i % 8 != 0 ==> data == Sliding(buf[i / 8], i % 8)
    {
      Within(i);
      if i % 8 == 0 {
        data := buf[next] + Zeros(8);
        next := next + 1;
      }
      BitsOfAt(buf, i);
      SlidingShift(buf[i / 8], i % 8);
      NextShiftFeeds(seed, bits, i, shift, data, poly);
      var val := Xor(shift, data);
      shift := Shifted(shift);
      data := Shifted(data);
      if val[0] {
        shift := Xor(shift, poly);
      }
      i := i + 1;
    }
  }

  /** utils_crc16, whose length counts bits: the CRC of that many leading bits. */
  method UtilsCrc16(buf: seq<Byte>, length: nat) returns (crc: Word16)
    requires length <= 8 * |buf| && length < 0x8000_0000
    ensures crc == Feed(ONES16, BitsOf(buf)[..length], POLY16)
  {
    crc := FeedBits(buf, length, ONES16, POLY16);
  }

  /** utils_crc32. */
  method UtilsCrc32(buf: seq<Byte>, length: nat) returns (crc: Word32)
    requires length <= |buf|
    ensures crc == CrcOf(ONES32, buf[..length], POLY32)
  {
    crc := FeedBytes(buf, length, ONES32, POLY32);
  }

  method FeedBytes(buf: seq<Byte>, length: nat, seed: Word32, poly: Word32) returns (crc: Word32)
    requires length <= |buf|
    ensures crc == CrcOf(seed, buf[..length], poly)
  {
    crc := seed;
    var i := 0;
    while i < length
      invariant i <= length && crc == CrcOf(seed, buf[..i], poly)
    {
      var r := Xor(crc, buf[i] + Zeros(24));
      AddByteFeeds(seed, buf, i, poly);
      crc := Shifts(r, |buf[i]|, poly);
      i := i + 1;
    }
  }

  // ----- CheckSumUtils.c

  /** The word byte | 0x100, shifted left k times: a mark ahead of the bits to come. */
  function Marked(b: Byte, k: nat): (w: Word32)
    requires k <= 8
  {
    Zeros(23 - k) + [true] + b + Zeros(k)
  }

  lemma MarkedShift(b: Byte, k: nat)
    requires k < 8
    ensures var w := Shifted(Marked(b, k)); w == Marked(b, k + 1) && w[23] == b[k] && (w[15] <==> k == 7)
  {
  }

  /** One pass of the loop of UpdateCRC16 on the low half of its 32-bit register. */
  lemma ShiftOneIn(crc: Word32, bit: bool, poly: Word16)
    ensures var c := crc[1..] + [bit];
      (if c[15] then Xor(c, Zeros(16) + poly) else c)[16..] == Xor(Step(crc[16..], poly), Zeros(15) + [bit])
  {
    var c := crc[1..] + [bit];
    var d := if c[15] then Xor(c, Zeros(16) + poly) else c;
    var e := Xor(Step(crc[16..], poly), Zeros(15) + [bit]);
    assert c[15] == crc[16..][0];
    forall i | 0 <= i < 16 ensures d[16..][i] == e[i] {
    }
  }

  lemma {:induction false} ShiftInPrefix(r: seq<bool>, bits: seq<bool>, i: nat, poly: seq<bool>)
    requires |r| == |poly| > 0 && i < |bits|
    ensures ShiftIn(r, bits[..i + 1], poly) == Xor(Step(ShiftIn(r, bits[..i], poly), poly), Zeros(|r| - 1) + [bits[i]])
  {
    assert bits[..i + 1] == bits[..i] + [bits[i]];
    ShiftInConcat(r, bits[..i], [bits[i]], poly);
    assert [bits[i]][1..] == [];
  }

  /** UpdateCRC16 with the polynomial as a parameter: a do-while loop that stops when the
      mark reaches bit 16. */
  method UpdateCrc(crcIn: Word16, byte: Byte, poly: Word16) returns (crcOut: Word16)
    ensures crcOut == ShiftIn(crcIn, byte, poly)
  {
    var crc: Word32 := Zeros(16) + crcIn;
    var input: Word32 := Marked(byte, 0);
    var done := false;
    ghost var k := 0;
    while !done
      invariant 0 <= k <= 8 && input == Marked(byte, k) && (done <==> k == 8)
      invariant crc[16..] == ShiftIn(crcIn, byte[..k], poly)
      decreases 8 - k
    {
      MarkedShift(byte, k);
      ShiftOneIn(crc, byte[k], poly);
      ShiftInPrefix(crcIn, byte, k, poly);
      crc := Shifted(crc);
      input := Shifted(input);
      if input[23] {
        crc := crc[..31] + [true];
      }
      if crc[15] {
        crc := Xor(crc, Zeros(16) + poly);
      }
      done := input[15];
      k := k + 1;
    }
    assert byte[..8] == byte;
    crcOut := crc[16..];
  }

  /** CRC16_Context, with the bytes given to it so far. */
  class Crc16Context {
    var crc: Word16
    ghost var fed: seq<Byte>

    ghost predicate Valid()
      reads this
    {
      crc == ShiftIn(ZERO16, BitsOf(fed), POLY16)
    }

    constructor ()
      ensures Valid() && fed == []
    {
      crc, fed := ZERO16, [];
    }

    method Feed1(byte: Byte)
      requires Valid()
      modifies this
      ensures Valid() && fed == old(fed) + [byte]
    {
      ShiftInByte(fed, byte, POLY16);
      crc := UpdateCrc(crc, byte, POLY16);
      fed := fed + [byte];
    }

    method Update(src: seq<Byte>, len: nat)
      requires Valid() && len <= |src|
      modifies this
      ensures Valid() && fed == old(fed) + src[..len]
    {
      var i := 0;
      while i < len
        invariant i <= len && Valid() && fed == old(fed) + src[..i]
      {
        Feed1(src[i]);
        i := i + 1;
        assert src[..i] == src[..i - 1] + [src[i - 1]];
      }
    }

    /** Two zero bytes more, and the register is what crc16ccitt_xmodem computes for all
        the bytes fed, however they were cut into updates. */
    method Final() returns (result: Word16)
      requires Valid()
      modifies this
      ensures result == CrcOf(ZERO16, old(fed), POLY16)
    {
      Feed1(Zeros(8));
      Feed1(Zeros(8));
      result := crc;
      TwoZeroBytes(old(fed), fed, POLY16);
    }
  }

  lemma ShiftInByte(fed: seq<Byte>, byte: Byte, poly: Word16)
    ensures ShiftIn(Zeros(16), BitsOf(fed + [byte]), poly) == ShiftIn(ShiftIn(Zeros(16), BitsOf(fed), poly), byte, poly)
  {
    BitsOfConcat(fed, [byte]);
    assert BitsOf([byte]) == byte + BitsOf([byte][1..]) == byte;
    ShiftInConcat(Zeros(16), BitsOf(fed), byte, poly);
  }

  lemma TwoZeroBytes(fed: seq<Byte>, more: seq<Byte>, poly: Word16)
    requires more == fed + [Zeros(8)] + [Zeros(8)]
    ensures ShiftIn(Zeros(16), BitsOf(more), poly) == Feed(Zeros(16), BitsOf(fed), poly)
  {
    BitsOfConcat(fed + [Zeros(8)], [Zeros(8)]);
    BitsOfConcat(fed, [Zeros(8)]);
    assert BitsOf([Zeros(8)]) == Zeros(8) + BitsOf([Zeros(8)][1..]) == Zeros(8);
    assert BitsOf(more) == BitsOf(fed) + Zeros(16);
    ShiftInComputesCrc(BitsOf(fed), poly);
  }

  // ----- the routines compared

  lemma {:induction false} BitsOfPrefix(buf: seq<Byte>, n: nat)
    requires n <= |buf|
    ensures BitsOf(buf)[..8 * n] == BitsOf(buf[..n])
  {
    BitsOfConcat(buf[..n], buf[n..]);
    assert buf[..n] + buf[n..] == buf;
  }

  /** Given a whole number of bytes, utils_crc16 computes what crc16ccitt computes. */
  lemma UtilsCrc16IsCcitt(buf: seq<Byte>, n: nat)
    requires n <= |buf|
    ensures Feed(ONES16, BitsOf(buf)[..8 * n], POLY16) == CrcOf(ONES16, Covered(buf, n), POLY16)
  {
    BitsOfPrefix(buf, n);
    assert n == 0 ==> buf[..n] == [];
  }

  // ----- what the codes detect

  /** a and b differ only in bits p to q of their bit streams. */
  predicate DifferWithin(a: seq<Byte>, b: seq<Byte>, p: nat, q: nat) {
    && |a| == |b| && p <= q <= 8 * |a|
    && BitsOf(a)[..p] == BitsOf(b)[..p] && BitsOf(a)[q..] == BitsOf(b)[q..]
  }

  lemma BurstDetectedInBytes(r: seq<bool>, a: seq<Byte>, b: seq<Byte>, p: nat, q: nat, poly: seq<bool>)
    requires |r| == |poly| > 0 && poly[|poly| - 1]
    requires a != b && DifferWithin(a, b, p, q) && q - p <= |r|
    ensures CrcOf(r, a, poly) != CrcOf(r, b, poly)
  {
    var (m, n) := (BitsOf(a), BitsOf(b));
    assert m == m[..p] + m[p..q] + m[q..] && n == n[..p] + n[p..q] + n[q..];
    if m[p..q] == n[p..q] {
      BitsOfInjective(a, b);
      assert false;
    }
    BurstDetected(r, m, n, m[..p], m[p..q], n[p..q], m[q..], poly);
  }

  /** crc16ccitt tells apart any two messages of one length that differ only within
      sixteen consecutive bits. */
  lemma Crc16DetectsBursts(a: seq<Byte>, b: seq<Byte>, p: nat, q: nat)
    requires a != b && DifferWithin(a, b, p, q) && q - p <= 16
    ensures CrcOf(ONES16, a, POLY16) != CrcOf(ONES16, b, POLY16)
  {
    BurstDetectedInBytes(ONES16, a, b, p, q, POLY16);
  }

  /** utils_crc32 does so for thirty-two consecutive bits. */
  lemma Crc32DetectsBursts(a: seq<Byte>, b: seq<Byte>, p: nat, q: nat)
    requires a != b && DifferWithin(a, b, p, q) && q - p <= 32
    ensures CrcOf(ONES32, a, POLY32) != CrcOf(ONES32, b, POLY32)
  {
    BurstDetectedInBytes(ONES32, a, b, p, q, POLY32);
  }
}
