/**
 The codes of Crc by their generators and by the numbers they give.
 */
module CrcValues {
  import opened Arithmetic
  import W = Words
  import opened CrcTheory
  import opened CrcPolynomials
  import opened Crc

  // ----- the codes as remainders

  /** The generators by their exponents. */
  lemma Generators()
    ensures Generator(POLY16) == {16, 12, 5, 0}
    ensures Generator(POLY32) == {32, 26, 23, 22, 16, 12, 11, 10, 8, 7, 5, 4, 2, 1, 0}
  {
    forall e: nat
      ensures e in Generator(POLY16) <==> e in {16, 12, 5, 0}
    {
      PolyHas([true] + POLY16, e);
    }
    forall e: nat
      ensures e in Generator(POLY32) <==> e in {32, 26, 23, 22, 16, 12, 11, 10, 8, 7, 5, 4, 2, 1, 0}
    {
      PolyHas([true] + POLY32, e);
    }
  }

  /** A register of ones has all exponents, and one of zeros none. */
  lemma InitialRegisters(e: nat)
    ensures e in PolyOf(ONES16) <==> e < 16
    ensures e in PolyOf(ONES32) <==> e < 32
    ensures e !in PolyOf(ZERO16)
  {
    PolyHas(ONES16, e);
    PolyHas(ONES32, e);
    PolyHas(ZERO16, e);
  }

  /** crc16ccitt, and utils_crc16 of whole bytes. */
  lemma Crc16CcittExactly(message: seq<Byte>, w: Word16)
    ensures w == CrcOf(ONES16, message, POLY16)
       <==> IsRemainder(Plus(Raise(PolyOf(ONES16), 8 * |message|), Raise(PolyOf(BitsOf(message)), 16)),
                        {16, 12, 5, 0}, 16, PolyOf(w))
  {
    hide IsRemainder, Raise, PolyOf, Feed;
    Generators();
    FeedIsRemainder(ONES16, BitsOf(message), POLY16, w);
  }

  /** crc16ccitt_xmodem, and CRC16_Final. */
  lemma Crc16XmodemExactly(message: seq<Byte>, w: Word16)
    ensures w == CrcOf(ZERO16, message, POLY16)
       <==> IsRemainder(Raise(PolyOf(BitsOf(message)), 16), {16, 12, 5, 0}, 16, PolyOf(w))
  {
    hide IsRemainder, PolyOf, Feed;
    Generators();
    FeedIsRemainder(ZERO16, BitsOf(message), POLY16, w);
    NoRegister(8 * |message|, Raise(PolyOf(BitsOf(message)), 16));
  }

  lemma NoRegister(k: nat, p: Poly)
    ensures Plus(Raise(PolyOf(ZERO16), k), p) == p
  {
    forall e: nat
      ensures e !in Raise(PolyOf(ZERO16), k)
    {
      RaiseHas(PolyOf(ZERO16), k, e);
      if e >= k {
        PolyHas(ZERO16, e - k);
      }
    }
  }

  /** utils_crc32. */
  lemma Crc32Exactly(message: seq<Byte>, w: Word32)
    ensures w == CrcOf(ONES32, message, POLY32)
       <==> IsRemainder(Plus(Raise(PolyOf(ONES32), 8 * |message|), Raise(PolyOf(BitsOf(message)), 32)),
                        {32, 26, 23, 22, 16, 12, 11, 10, 8, 7, 5, 4, 2, 1, 0}, 32, PolyOf(w))
  {
    hide IsRemainder, Raise, PolyOf, Feed;
    Generators();
    FeedIsRemainder(ONES32, BitsOf(message), POLY32, w);
  }

  // ----- registers as numbers

  /** The number with these bits, the most significant first. */
  function Number(bits: seq<bool>): nat {
    if bits == [] then 0 else 2 * Number(bits[..|bits| - 1]) + (if bits[|bits| - 1] then 1 else 0)
  }

  lemma NumberPush(bits: seq<bool>, bit: bool)
    ensures Number(bits + [bit]) == 2 * Number(bits) + (if bit then 1 else 0)
  {
    assert (bits + [bit])[..|bits|] == bits;
  }

  lemma {:induction false} FirstBit(bits: seq<bool>)
    requires bits != []
    ensures Number(bits) == (if bits[0] then W.Power2(|bits| - 1) else 0) + Number(bits[1..])
    ensures Number(bits[1..]) < W.Power2(|bits| - 1)
  {
    if |bits| > 1 {
      var n := |bits| - 1;
      FirstBit(bits[..n]);
      assert bits[..n][1..] == bits[1..][..n - 1];
    }
  }

  /** Flipping the bit with value p. */
  function Flip(x: nat, p: nat): nat
    requires p > 0
  {
    if x / p % 2 == 1 then (if x >= p then x - p else 0) else x + p
  }

  function Toggled(bits: seq<bool>, k: nat): (r: seq<bool>)
    requires k < |bits|
    ensures |r| == |bits|
  {
    bits[|bits| - 1 - k := !bits[|bits| - 1 - k]]
  }

  lemma {:induction false} ToggleFlips(bits: seq<bool>, k: nat)
    requires k < |bits|
    ensures Number(Toggled(bits, k)) == Flip(Number(bits), W.Power2(k))
    decreases k
  {
    hide Number, Flip;
    var n := |bits| - 1;
    var front, last := bits[..n], bits[n];
    assert bits == front + [last];
    NumberPush(front, last);
    if k == 0 {
      assert Toggled(bits, 0) == front + [!last];
      NumberPush(front, !last);
      FlipOnes(Number(front), last);
    } else {
      ToggleFlips(front, k - 1);
      assert Toggled(bits, k) == Toggled(front, k - 1) + [last];
      NumberPush(Toggled(front, k - 1), last);
      FlipTwice(Number(front), if last then 1 else 0, W.Power2(k - 1));
    }
  }

  lemma FlipOnes(x: nat, last: bool)
    ensures Flip(2 * x + (if last then 1 else 0), 1) == 2 * x + (if last then 0 else 1)
  {
  }

  lemma FlipTwice(x: nat, b: nat, p: nat)
    requires b < 2 && p > 0
    ensures Flip(2 * x + b, 2 * p) == 2 * Flip(x, p) + b
  {
    HalfThen(2 * x + b, p);
    if x / p % 2 == 1 {
      assert x >= p;
    }
  }

  // ----- feeding bits to a number

  /** One shift of sixteen bits. */
  function Next16(x: nat): nat {
    if x >= 0x8000 then Flip(Flip(Flip(2 * (x - 0x8000), 0x1000), 0x20), 1) else 2 * x
  }

  lemma ShiftNumber(r: seq<bool>)
    requires r != []
    ensures (r[0] <==> Number(r) >= W.Power2(|r| - 1))
    ensures Number(Shifted(r)) == 2 * (if r[0] then Number(r) - W.Power2(|r| - 1) else Number(r))
  {
    FirstBit(r);
    assert Shifted(r)[..|r| - 1] == r[1..];
  }

  lemma Powers()
    ensures W.Power2(0) == 1 && W.Power2(5) == 0x20 && W.Power2(12) == 0x1000 && W.Power2(15) == 0x8000
    ensures W.Power2(16) == 0x1_0000
  {
  }

  lemma Step16(r: Word16)
    ensures Number(Step(r, POLY16)) == Next16(Number(r))
  {
    hide Number, Flip, W.Power2;
    Powers();
    ShiftNumber(r);
    if r[0] {
      var s := Shifted(r);
      ToggleFlips(s, 12);
      ToggleFlips(Toggled(s, 12), 5);
      ToggleFlips(Toggled(Toggled(s, 12), 5), 0);
      assert Xor(s, POLY16) == Toggled(Toggled(Toggled(s, 12), 5), 0);
    }
  }

  /** One bit of the message. */
  function Bit16(x: nat, bit: bool): nat {
    Next16(if bit then Flip(x, 0x8000) else x)
  }

  lemma FeedBit16(r: Word16, bit: bool)
    ensures Number(Feed(r, [bit], POLY16)) == Bit16(Number(r), bit)
  {
    hide Number, Flip, W.Power2, Next16, Step;
    Powers();
    var u: Word16 := [r[0] != bit] + r[1..];
    assert [bit][1..] == [];
    assert u == if bit then Toggled(r, 15) else r;
    ToggleFlips(r, 15);
    Step16(u);
  }

  /** The bits behind the first n of a message. */
  lemma FeedOn(r: Word16, bits: seq<bool>, n: nat, x: nat)
    requires n < |bits| && Number(Feed(r, bits[..n], POLY16)) == x
    ensures Number(Feed(r, bits[..n + 1], POLY16)) == Bit16(x, bits[n])
  {
    hide Number, Feed, Bit16;
    FeedConcat(r, bits[..n], [bits[n]], POLY16);
    assert bits[..n + 1] == bits[..n] + [bits[n]];
    FeedBit16(Feed(r, bits[..n], POLY16), bits[n]);
  }

  /** The character of a decimal digit. */
  function Digit(d: nat): Byte
    requires d < 10
  {
    [false, false, true, true, d >= 8, d % 8 >= 4, d % 4 >= 2, d % 2 == 1]
  }

  lemma DigitNumber(d: nat)
    requires d < 10
    ensures Number(Digit(d)) == 0x30 + d
  {
    hide Number;
    var b := Digit(d);
    Empty();
    var x := 0;
    assert b[..0] == [];
    for i := 0 to 8
      invariant Number(b[..i]) == x
      invariant x == if i == 0 then 0 else if i == 1 then 0 else if i == 2 then 0 else if i == 3 then 1
                     else if i == 4 then 3 else if i == 5 then 6 + d / 8 else if i == 6 then 12 + d / 4
                     else if i == 7 then 24 + d / 2 else 48 + d
    {
      NumberPush(b[..i], b[i]);
      assert b[..i + 1] == b[..i] + [b[i]];
      x := 2 * x + (if b[i] then 1 else 0);
    }
    assert b[..8] == b;
  }

  lemma Empty()
    ensures Number([]) == 0
  {
  }

  /** The register, as a number, after the bits of a byte from i on. */
  function Byte16(x: nat, b: Byte, i: nat): nat
    requires i <= 8
    decreases 8 - i
  {
    if i == 8 then x else Byte16(Bit16(x, b[i]), b, i + 1)
  }

  lemma FeedByte(r: Word16, message: seq<Byte>, k: nat, x: nat)
    requires k < |message| && Number(Feed(r, BitsOf(message)[..8 * k], POLY16)) == x
    ensures Number(Feed(r, BitsOf(message)[..8 * (k + 1)], POLY16)) == Byte16(x, message[k], 0)
  {
    hide Number, Feed, Bit16;
    var bits, b, y := BitsOf(message), message[k], x;
    for i := 0 to 8
      invariant Number(Feed(r, bits[..8 * k + i], POLY16)) == y
      invariant Byte16(x, b, 0) == Byte16(y, b, i)
    {
      BitsOfAt(message, 8 * k + i);
      FeedOn(r, bits, 8 * k + i, y);
      y := Bit16(y, b[i]);
    }
  }

  // ----- the check value

  lemma Bits1()
    ensures Bit16(0xFFFF, false) == 0xEFDF && Bit16(0xEFDF, false) == 0xCF9F && Bit16(0xCF9F, true) == 0x9F3E
    ensures Bit16(0x9F3E, true) == 0x3E7C && Bit16(0x3E7C, false) == 0x7CF8 && Bit16(0x7CF8, false) == 0xF9F0
    ensures Bit16(0xF9F0, false) == 0xE3C1 && Bit16(0xE3C1, true) == 0xC782
  {
  }

  lemma Digit1()
    ensures Byte16(0xFFFF, Digit(1), 0) == 0xC782
  {
    hide Bit16;
    Bits1();
  }

  lemma Bits2()
    ensures Bit16(0xC782, false) == 0x9F25 && Bit16(0x9F25, false) == 0x2E6B && Bit16(0x2E6B, true) == 0x4CF7
    ensures Bit16(0x4CF7, true) == 0x89CF && Bit16(0x89CF, false) == 0x03BF && Bit16(0x03BF, false) == 0x077E
    ensures Bit16(0x077E, true) == 0x1EDD && Bit16(0x1EDD, false) == 0x3DBA
  {
  }

  lemma Digit2()
    ensures Byte16(0xC782, Digit(2), 0) == 0x3DBA
  {
    hide Bit16;
    Bits2();
  }

  lemma Bits3()
    ensures Bit16(0x3DBA, false) == 0x7B74 && Bit16(0x7B74, false) == 0xF6E8 && Bit16(0xF6E8, true) == 0xEDD0
    ensures Bit16(0xEDD0, true) == 0xDBA0 && Bit16(0xDBA0, false) == 0xA761 && Bit16(0xA761, false) == 0x5EE3
    ensures Bit16(0x5EE3, true) == 0xADE7 && Bit16(0xADE7, true) == 0x5BCE
  {
  }

  lemma Digit3()
    ensures Byte16(0x3DBA, Digit(3), 0) == 0x5BCE
  {
    hide Bit16;
    Bits3();
  }

  lemma Bits4()
    ensures Bit16(0x5BCE, false) == 0xB79C && Bit16(0xB79C, false) == 0x7F19 && Bit16(0x7F19, true) == 0xEE13
    ensures Bit16(0xEE13, true) == 0xDC26 && Bit16(0xDC26, false) == 0xA86D && Bit16(0xA86D, true) == 0x50DA
    ensures Bit16(0x50DA, false) == 0xA1B4 && Bit16(0xA1B4, false) == 0x5349
  {
  }

  lemma Digit4()
    ensures Byte16(0x5BCE, Digit(4), 0) == 0x5349
  {
    hide Bit16;
    Bits4();
  }

  lemma Bits5()
    ensures Bit16(0x5349, false) == 0xA692 && Bit16(0xA692, false) == 0x5D05 && Bit16(0x5D05, true) == 0xAA2B
    ensures Bit16(0xAA2B, true) == 0x5456 && Bit16(0x5456, false) == 0xA8AC && Bit16(0xA8AC, true) == 0x5158
    ensures Bit16(0x5158, false) == 0xA2B0 && Bit16(0xA2B0, true) == 0x4560
  {
  }

  lemma Digit5()
    ensures Byte16(0x5349, Digit(5), 0) == 0x4560
  {
    hide Bit16;
    Bits5();
  }

  lemma Bits6()
    ensures Bit16(0x4560, false) == 0x8AC0 && Bit16(0x8AC0, false) == 0x05A1 && Bit16(0x05A1, true) == 0x1B63
    ensures Bit16(0x1B63, true) == 0x26E7 && Bit16(0x26E7, false) == 0x4DCE && Bit16(0x4DCE, true) == 0x8BBD
    ensures Bit16(0x8BBD, true) == 0x177A && Bit16(0x177A, false) == 0x2EF4
  {
  }

  lemma Digit6()
    ensures Byte16(0x4560, Digit(6), 0) == 0x2EF4
  {
    hide Bit16;
    Bits6();
  }

  lemma Bits7()
    ensures Bit16(0x2EF4, false) == 0x5DE8 && Bit16(0x5DE8, false) == 0xBBD0 && Bit16(0xBBD0, true) == 0x77A0
    ensures Bit16(0x77A0, true) == 0xFF61 && Bit16(0xFF61, false) == 0xEEE3 && Bit16(0xEEE3, true) == 0xDDC6
    ensures Bit16(0xDDC6, true) == 0xBB8C && Bit16(0xBB8C, true) == 0x7718
  {
  }

  lemma Digit7()
    ensures Byte16(0x2EF4, Digit(7), 0) == 0x7718
  {
    hide Bit16;
    Bits7();
  }

  lemma Bits8()
    ensures Bit16(0x7718, false) == 0xEE30 && Bit16(0xEE30, false) == 0xCC41 && Bit16(0xCC41, true) == 0x9882
    ensures Bit16(0x9882, true) == 0x3104 && Bit16(0x3104, true) == 0x7229 && Bit16(0x7229, false) == 0xE452
    ensures Bit16(0xE452, false) == 0xD885 && Bit16(0xD885, false) == 0xA12B
  {
  }

  lemma Digit8()
    ensures Byte16(0x7718, Digit(8), 0) == 0xA12B
  {
    hide Bit16;
    Bits8();
  }

  lemma Bits9()
    ensures Bit16(0xA12B, false) == 0x5277 && Bit16(0x5277, false) == 0xA4EE && Bit16(0xA4EE, true) == 0x49DC
    ensures Bit16(0x49DC, true) == 0x8399 && Bit16(0x8399, true) == 0x0732 && Bit16(0x0732, false) == 0x0E64
    ensures Bit16(0x0E64, false) == 0x1CC8 && Bit16(0x1CC8, true) == 0x29B1
  {
  }

  lemma Digit9()
    ensures Byte16(0xA12B, Digit(9), 0) == 0x29B1
  {
    hide Bit16;
    Bits9();
  }

  const CHECK: seq<Byte> :=
    [Digit(1), Digit(2), Digit(3), Digit(4), Digit(5), Digit(6), Digit(7), Digit(8), Digit(9)]

  lemma OnesNumber()
    ensures Number(ONES16) == 0xFFFF
  {
    hide Number;
    var x := 0;
    Empty();
    assert ONES16[..0] == [];
    for i := 0 to 16
      invariant Number(ONES16[..i]) == x && x + 1 == W.Power2(i)
    {
      NumberPush(ONES16[..i], true);
      assert ONES16[..i + 1] == ONES16[..i] + [true];
      x := 2 * x + 1;
    }
    assert ONES16[..16] == ONES16;
    Powers();
  }

  /** crc16ccitt of the text 123456789. */
  lemma CheckValue()
    ensures Number(CrcOf(ONES16, CHECK, POLY16)) == 0x29B1
  {
    hide Number, Feed, Bit16, Digit, Byte16;
    OnesNumber();
    var bits := BitsOf(CHECK);
    assert bits[..0] == [];
    FeedNothing(ONES16, POLY16);
    FeedByte(ONES16, CHECK, 0, 0xFFFF);
    Digit1();
    FeedByte(ONES16, CHECK, 1, 0xC782);
    Digit2();
    FeedByte(ONES16, CHECK, 2, 0x3DBA);
    Digit3();
    FeedByte(ONES16, CHECK, 3, 0x5BCE);
    Digit4();
    FeedByte(ONES16, CHECK, 4, 0x5349);
    Digit5();
    FeedByte(ONES16, CHECK, 5, 0x4560);
    Digit6();
    FeedByte(ONES16, CHECK, 6, 0x2EF4);
    Digit7();
    FeedByte(ONES16, CHECK, 7, 0x7718);
    Digit8();
    FeedByte(ONES16, CHECK, 8, 0xA12B);
    Digit9();
    assert bits[..72] == bits;
  }
}
