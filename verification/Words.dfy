/**
 Bytes and machine words for the digests.  A word is a natural number below 2^32, or below
 2^64 when wide; the operations are those of C on uint32_t and uint64_t.
 */
module Words {

  type Byte = x: nat | x < 256
  type Word = nat

  function Limit(wide: bool): nat {
    if wide then 0x1_0000_0000_0000_0000 else 0x1_0000_0000
  }

  function Bits(wide: bool): nat {
    if wide then 64 else 32
  }

  function WordSize(wide: bool): nat {
    if wide then 8 else 4
  }

  function Add(wide: bool, x: Word, y: Word): (z: Word)
    ensures z < Limit(wide)
  {
    if wide then (x + y) % 0x1_0000_0000_0000_0000 else (x + y) % 0x1_0000_0000
  }

  function And(x: Word, y: Word): Word {
    if x == 0 || y == 0 then 0 else 2 * And(x / 2, y / 2) + (if x % 2 == 1 && y % 2 == 1 then 1 else 0)
  }

  function Xor(x: Word, y: Word): Word
    decreases x + y
  {
    if x == 0 && y == 0 then 0 else 2 * Xor(x / 2, y / 2) + (if x % 2 != y % 2 then 1 else 0)
  }

  function Or(x: Word, y: Word): Word
    decreases x + y
  {
    if x == 0 && y == 0 then 0 else 2 * Or(x / 2, y / 2) + (if x % 2 == 1 || y % 2 == 1 then 1 else 0)
  }

  function Not(wide: bool, x: Word): Word {
    if x < Limit(wide) then Limit(wide) - 1 - x else 0
  }

  function ShiftRight(x: Word, n: nat): Word
    decreases n
  {
    if n == 0 then x else ShiftRight(x / 2, n - 1)
  }

  function ShiftLeft(wide: bool, x: Word, n: nat): Word
    decreases n
  {
    if n == 0 then x else ShiftLeft(wide, Add(wide, x, x), n - 1)
  }

  function RotateRight(wide: bool, x: Word, n: nat): Word
    requires n <= Bits(wide)
  {
    Or(ShiftRight(x, n), ShiftLeft(wide, x, Bits(wide) - n))
  }

  // ----- byte order

  /** The big-endian value of some bytes. */
  function Be(s: seq<Byte>): Word {
    if s == [] then 0 else 256 * Be(s[..|s| - 1]) + s[|s| - 1]
  }

  /** x in n big-endian bytes. */
  function ToBe(n: nat, x: Word): (s: seq<Byte>)
    ensures |s| == n
  {
    if n == 0 then [] else ToBe(n - 1, x / 256) + [x % 256]
  }

  function Power(n: nat): (p: nat)
    ensures p > 0
  {
    if n == 0 then 1 else 256 * Power(n - 1)
  }

  lemma {:induction false} BeBound(s: seq<Byte>)
    ensures Be(s) < Power(|s|)
  {
    if s != [] {
      BeBound(s[..|s| - 1]);
    }
  }

  lemma {:induction false} ToBeInverse(s: seq<Byte>)
    ensures ToBe(|s|, Be(s)) == s
  {
    if s != [] {
      ToBeInverse(s[..|s| - 1]);
      assert Be(s) / 256 == Be(s[..|s| - 1]) && Be(s) % 256 == s[|s| - 1];
      assert s == s[..|s| - 1] + [s[|s| - 1]];
    }
  }

  lemma {:induction false} BeInverse(n: nat, x: Word)
    requires x < Power(n)
    ensures Be(ToBe(n, x)) == x
  {
    if n > 0 {
      BeInverse(n - 1, x / 256);
      assert ToBe(n, x)[..n - 1] == ToBe(n - 1, x / 256);
    }
  }

  lemma PowerIsLimit(wide: bool)
    ensures Power(WordSize(wide)) == Limit(wide)
  {
    if wide {
      assert Power(8) == 0x1_0000_0000_0000_0000;
    } else {
      assert Power(4) == 0x1_0000_0000;
    }
  }

  // ----- the operations bit by bit

  /** Bit i of x, the lowest one first. */
  predicate Bit(x: Word, i: nat)
    decreases i
  {
    if i == 0 then x % 2 == 1 else Bit(x / 2, i - 1)
  }

  lemma {:induction false} ZeroBit(i: nat)
    ensures !Bit(0, i)
  {
    if i > 0 {
      ZeroBit(i - 1);
    }
  }

  lemma AndHalf(x: Word, y: Word)
    ensures And(x, y) / 2 == And(x / 2, y / 2)
    ensures And(x, y) % 2 == 1 <==> x % 2 == 1 && y % 2 == 1
  {
  }

  lemma {:induction false} AndBit(x: Word, y: Word, i: nat)
    ensures Bit(And(x, y), i) <==> Bit(x, i) && Bit(y, i)
    decreases i
  {
    hide And;
    AndHalf(x, y);
    if i > 0 {
      AndBit(x / 2, y / 2, i - 1);
    }
  }

  lemma OrHalf(x: Word, y: Word)
    ensures Or(x, y) / 2 == Or(x / 2, y / 2)
    ensures Or(x, y) % 2 == 1 <==> x % 2 == 1 || y % 2 == 1
  {
  }

  lemma {:induction false} OrBit(x: Word, y: Word, i: nat)
    ensures Bit(Or(x, y), i) <==> Bit(x, i) || Bit(y, i)
    decreases i
  {
    hide Or;
    OrHalf(x, y);
    if i > 0 {
      OrBit(x / 2, y / 2, i - 1);
    }
  }

  lemma XorHalf(x: Word, y: Word)
    ensures Xor(x, y) / 2 == Xor(x / 2, y / 2)
    ensures Xor(x, y) % 2 == 1 <==> ((x % 2 == 1) != (y % 2 == 1))
  {
  }

  lemma {:induction false} XorBit(x: Word, y: Word, i: nat)
    ensures Bit(Xor(x, y), i) <==> Bit(x, i) != Bit(y, i)
    decreases i
  {
    hide Xor;
    XorHalf(x, y);
    if i > 0 {
      XorBit(x / 2, y / 2, i - 1);
    }
  }

  function Power2(n: nat): (p: nat)
    ensures p > 0
  {
    if n == 0 then 1 else 2 * Power2(n - 1)
  }

  /** The complement within n bits. */
  lemma {:induction false} ComplementBit(x: Word, n: nat, i: nat)
    requires x < Power2(n) && i < n
    ensures Bit(Power2(n) - 1 - x, i) <==> !Bit(x, i)
    decreases i
  {
    if i > 0 {
      assert (Power2(n) - 1 - x) / 2 == Power2(n - 1) - 1 - x / 2;
      ComplementBit(x / 2, n - 1, i - 1);
    }
  }

  lemma Power2IsLimit(wide: bool)
    ensures Power2(Bits(wide)) == Limit(wide)
  {
    var n: nat := 0;
    EightMore(n, 1);
    EightMore(n + 8, 0x100);
    EightMore(n + 16, 0x1_0000);
    EightMore(n + 24, 0x100_0000);
    if wide {
      EightMore(n + 32, 0x1_0000_0000);
      EightMore(n + 40, 0x100_0000_0000);
      EightMore(n + 48, 0x1_0000_0000_0000);
      EightMore(n + 56, 0x100_0000_0000_0000);
    }
  }

  lemma EightMore(n: nat, v: nat)
    requires Power2(n) == v
    ensures Power2(n + 8) == 0x100 * v
  {
    assert Power2(n + 2) == 4 * v;
    assert Power2(n + 4) == 16 * v;
    assert Power2(n + 6) == 64 * v;
  }

  lemma NotBit(wide: bool, x: Word, i: nat)
    requires x < Limit(wide) && i < Bits(wide)
    ensures Bit(Not(wide, x), i) <==> !Bit(x, i)
  {
    Power2IsLimit(wide);
    ComplementBit(x, Bits(wide), i);
  }

  lemma {:induction false} ShiftRightBit(x: Word, n: nat, i: nat)
    ensures Bit(ShiftRight(x, n), i) <==> Bit(x, i + n)
    decreases n
  {
    if n > 0 {
      ShiftRightBit(x / 2, n - 1, i);
    }
  }

  lemma {:induction false} HighBit(x: Word, n: nat, i: nat)
    requires x < Power2(n) && i >= n
    ensures !Bit(x, i)
    decreases i
  {
    if n == 0 {
      ZeroBit(i);
    } else if i > 0 {
      HighBit(x / 2, n - 1, i - 1);
    }
  }

  lemma {:induction false} TopBit(y: Word, m: nat, i: nat)
    requires i < m
    ensures Bit(y + Power2(m), i) <==> Bit(y, i)
    decreases i
  {
    assert y + Power2(m) == y + 2 * Power2(m - 1);
    if i > 0 {
      assert (y + Power2(m)) / 2 == y / 2 + Power2(m - 1);
      TopBit(y / 2, m - 1, i - 1);
    }
  }

  /** Doubling a word moves its bits up and drops the highest one. */
  lemma DoubleBit(wide: bool, x: Word, i: nat)
    requires x < Limit(wide) && i < Bits(wide)
    ensures Bit(Add(wide, x, x), i) <==> i > 0 && Bit(x, i - 1)
  {
    Power2IsLimit(wide);
    var half := Power2(Bits(wide) - 1);
    assert Limit(wide) == 2 * half;
    if x < half {
      assert Add(wide, x, x) == 2 * x;
    } else {
      assert Add(wide, x, x) == 2 * (x - half);
      if i > 0 {
        TopBit(x - half, Bits(wide) - 1, i - 1);
      }
    }
  }

  lemma {:induction false} ShiftLeftBit(wide: bool, x: Word, n: nat, i: nat)
    requires x < Limit(wide) && i < Bits(wide)
    ensures Bit(ShiftLeft(wide, x, n), i) <==> i >= n && Bit(x, i - n)
    decreases n
  {
    if n > 0 {
      ShiftLeftBit(wide, Add(wide, x, x), n - 1, i);
      if i >= n - 1 {
        DoubleBit(wide, x, i - (n - 1));
      }
    }
  }

  /** Rotating right by n: bit i of the result is bit i + n of the word, round the end. */
  lemma RotateRightBit(wide: bool, x: Word, n: nat, i: nat)
    requires x < Limit(wide) && n < Bits(wide) && i < Bits(wide)
    ensures Bit(RotateRight(wide, x, n), i) <==> Bit(x, if i + n < Bits(wide) then i + n else i + n - Bits(wide))
  {
    OrBit(ShiftRight(x, n), ShiftLeft(wide, x, Bits(wide) - n), i);
    ShiftRightBit(x, n, i);
    ShiftLeftBit(wide, x, Bits(wide) - n, i);
    if i + n >= Bits(wide) {
      Power2IsLimit(wide);
      HighBit(x, Bits(wide), i + n);
    }
  }

  function RotateLeft(x: Word, n: nat): Word
    requires n <= 32
  {
    Or(ShiftLeft(false, x, n), ShiftRight(x, 32 - n))
  }

  lemma RotateLeftBit(x: Word, n: nat, i: nat)
    requires x < Limit(false) && 0 < n < 32 && i < 32
    ensures Bit(RotateLeft(x, n), i) <==> Bit(x, if i >= n then i - n else i + 32 - n)
  {
    OrBit(ShiftLeft(false, x, n), ShiftRight(x, 32 - n), i);
    ShiftRightBit(x, 32 - n, i);
    ShiftLeftBit(false, x, n, i);
    if i >= n {
      Power2IsLimit(false);
      HighBit(x, Bits(false), i + 32 - n);
    }
  }
}
