/**
 Byte order: what the host reads and writes, and reverse_32bit and reverse_64bit of
 utility/digest_algorithm/sha2.c, which reverse the bytes of a word with shifts and masks.
 */
module ByteOrder {
  import opened Arithmetic
  import opened Words

  function Reversed(s: seq<Byte>): (r: seq<Byte>)
    ensures |r| == |s|
  {
    seq(|s|, i requires 0 <= i < |s| => s[|s| - 1 - i])
  }

  /** What the host reads from memory, on a little-endian or a big-endian machine. */
  function Load(little: bool, s: seq<Byte>): Word {
    if little then Be(Reversed(s)) else Be(s)
  }

  /** What the host writes to memory. */
  function Store(little: bool, wide: bool, x: Word): (s: seq<Byte>)
    ensures |s| == WordSize(wide)
  {
    if little then Reversed(ToBe(WordSize(wide), x)) else ToBe(WordSize(wide), x)
  }

  /** reverse_32bit: exchange the halves, then the bytes of each half. */
  function Reverse32(x: Word): Word {
    var halves := Or(ShiftRight(x, 16), ShiftLeft(false, x, 16));
    Or(ShiftRight(And(halves, 0xff00ff00), 8), ShiftLeft(false, And(halves, 0x00ff00ff), 8))
  }

  /** reverse_64bit: exchange the halves, then neighbouring bytes, then neighbouring pairs. */
  function Reverse64(x: Word): Word {
    var halves := Or(ShiftRight(x, 32), ShiftLeft(true, x, 32));
    var bytes := Or(ShiftRight(And(halves, 0xff00ff00ff00ff00), 8), ShiftLeft(true, And(halves, 0x00ff00ff00ff00ff), 8));
    Or(ShiftRight(And(bytes, 0xffff0000ffff0000), 16), ShiftLeft(true, And(bytes, 0x0000ffff0000ffff), 16))
  }

  /** os_htobe32, os_htobe64 and their inverses on what a uint32_t or uint64_t can hold. */
  function Swap(little: bool, wide: bool, x: Word): Word {
    if !little then x else if wide then Reverse64(x % Limit(true)) else Reverse32(x % Limit(false))
  }

  lemma ReversedTwice(s: seq<Byte>)
    ensures Reversed(Reversed(s)) == s
  {
  }

  /** Memory gives back the word that was stored. */
  lemma LoadStored(little: bool, wide: bool, x: Word)
    requires x < Limit(wide)
    ensures Load(little, Store(little, wide, x)) == x
  {
    PowerIsLimit(wide);
    BeInverse(WordSize(wide), x);
    ReversedTwice(ToBe(WordSize(wide), x));
  }

  // ----- shifts and masks byte by byte

  lemma {:induction false} AndNothing(x: Word)
    ensures And(x, 0) == 0 && And(0, x) == 0 && Or(x, 0) == x && Or(0, x) == x
    decreases x
  {
    if x > 0 {
      AndNothing(x / 2);
    }
  }

  /** x times two to the k. */
  function Raised(x: nat, k: nat): nat {
    if k == 0 then x else 2 * Raised(x, k - 1)
  }

  /** The operations work on the low k bits and on the rest. */
  lemma {:induction false} SplitBits(a: nat, b: nat, c: nat, d: nat, k: nat)
    requires b < Power2(k) && d < Power2(k)
    ensures And(Raised(a, k) + b, Raised(c, k) + d) == Raised(And(a, c), k) + And(b, d)
    ensures Or(Raised(a, k) + b, Raised(c, k) + d) == Raised(Or(a, c), k) + Or(b, d)
    decreases k
  {
    hide And, Or;
    if k == 0 {
      AndNothing(0);
    } else {
      SplitBits(a, b / 2, c, d / 2, k - 1);
      SplitLast(Raised(a, k - 1), b, Raised(c, k - 1), d, Raised(And(a, c), k - 1), Raised(Or(a, c), k - 1));
    }
  }

  lemma SplitLast(u: nat, b: nat, v: nat, d: nat, x: nat, y: nat)
    requires And(u + b / 2, v + d / 2) == x + And(b / 2, d / 2) && Or(u + b / 2, v + d / 2) == y + Or(b / 2, d / 2)
    ensures And(2 * u + b, 2 * v + d) == 2 * x + And(b, d) && Or(2 * u + b, 2 * v + d) == 2 * y + Or(b, d)
  {
    hide And, Or;
    AndHalf(2 * u + b, 2 * v + d);
    OrHalf(2 * u + b, 2 * v + d);
    AndHalf(b, d);
    OrHalf(b, d);
    assert (2 * u + b) / 2 == u + b / 2 && (2 * v + d) / 2 == v + d / 2;
  }

  lemma RaisedByte(x: nat)
    ensures Raised(x, 8) == 256 * x && Power2(8) == 256
  {
    EightMore(0, 1);
    RaisedMore(x, 0);
    RaisedMore(x, 4);
  }

  lemma RaisedMore(x: nat, k: nat)
    ensures Raised(x, k + 4) == 16 * Raised(x, k) && (k == 0 ==> Raised(x, k) == x)
  {
    assert Raised(x, k + 2) == 4 * Raised(x, k);
  }

  lemma {:induction false} AndOnes(b: nat, k: nat)
    requires b < Power2(k)
    ensures And(b, Power2(k) - 1) == b
    decreases k
  {
    if k == 0 {
      AndNothing(b);
    } else {
      hide And;
      AndHalf(b, Power2(k) - 1);
      assert (Power2(k) - 1) / 2 == Power2(k - 1) - 1;
      AndOnes(b / 2, k - 1);
    }
  }

  lemma {:induction false} ShiftRightMore(x: Word, a: nat, b: nat)
    ensures ShiftRight(x, a + b) == ShiftRight(ShiftRight(x, a), b)
    decreases a
  {
    if a > 0 {
      ShiftRightMore(x / 2, a - 1, b);
    }
  }

  lemma {:induction false} ShiftLeftMore(wide: bool, x: Word, a: nat, b: nat)
    ensures ShiftLeft(wide, x, a + b) == ShiftLeft(wide, ShiftLeft(wide, x, a), b)
    decreases a
  {
    if a > 0 {
      ShiftLeftMore(wide, Add(wide, x, x), a - 1, b);
    }
  }

  lemma ShiftRightByte(x: Word)
    ensures ShiftRight(x, 8) == x / 256
  {
    var y := x / 16;
    assert ShiftRight(x, 8) == ShiftRight(y, 4) by {
      assert ShiftRight(x, 8) == ShiftRight(x / 2 / 2 / 2 / 2, 4);
    }
    assert ShiftRight(y, 4) == y / 16;
  }

  lemma ShiftLeftOnce(wide: bool, x: nat, n: nat)
    requires n > 0
    ensures ShiftLeft(wide, x % Limit(wide), n) == ShiftLeft(wide, 2 * x % Limit(wide), n - 1)
  {
    hide ShiftLeft;
    DoubleWraps(wide, x);
    ShiftLeftStep(wide, x % Limit(wide), n);
  }

  lemma DoubleWraps(wide: bool, x: nat)
    ensures Add(wide, x % Limit(wide), x % Limit(wide)) == 2 * x % Limit(wide)
  {
    if wide {
      var q := x / 0x1_0000_0000_0000_0000;
      assert 2 * x / 0x1_0000_0000_0000_0000 == 2 * q || 2 * x / 0x1_0000_0000_0000_0000 == 2 * q + 1;
    } else {
      var q := x / 0x1_0000_0000;
      assert 2 * x / 0x1_0000_0000 == 2 * q || 2 * x / 0x1_0000_0000 == 2 * q + 1;
    }
  }

  lemma ShiftLeftStep(wide: bool, x: Word, n: nat)
    requires n > 0
    ensures ShiftLeft(wide, x, n) == ShiftLeft(wide, Add(wide, x, x), n - 1)
  {
  }

  lemma ShiftLeftByte(wide: bool, x: Word)
    requires x < Limit(wide)
    ensures ShiftLeft(wide, x, 8) == 256 * x % Limit(wide)
  {
    hide ShiftLeft, Limit;
    NoShift(wide, x);
    ShiftLeftOnce(wide, x, 8);
    ShiftLeftOnce(wide, 2 * x, 7);
    ShiftLeftOnce(wide, 4 * x, 6);
    ShiftLeftOnce(wide, 8 * x, 5);
    ShiftLeftOnce(wide, 16 * x, 4);
    ShiftLeftOnce(wide, 32 * x, 3);
    ShiftLeftOnce(wide, 64 * x, 2);
    ShiftLeftOnce(wide, 128 * x, 1);
    NoShift(wide, 256 * x % Limit(wide));
  }

  lemma NoShift(wide: bool, x: Word)
    ensures ShiftLeft(wide, x, 0) == x
    ensures x < Limit(wide) ==> x % Limit(wide) == x
  {
  }

  /** Every byte of the mask is all zeros or all ones. */
  predicate IsMask(m: seq<Byte>) {
    forall i :: 0 <= i < |m| ==> m[i] == 0 || m[i] == 255
  }

  function Masked(s: seq<Byte>, m: seq<Byte>): (r: seq<Byte>)
    requires |s| == |m|
    ensures |r| == |s|
  {
    seq(|s|, i requires 0 <= i < |s| => if m[i] == 0 then 0 else s[i])
  }

  predicate Disjoint(s: seq<Byte>, t: seq<Byte>) {
    |s| == |t| && forall i :: 0 <= i < |s| ==> s[i] == 0 || t[i] == 0
  }

  function Merged(s: seq<Byte>, t: seq<Byte>): (r: seq<Byte>)
    requires |s| == |t|
    ensures |r| == |s|
  {
    seq(|s|, i requires 0 <= i < |s| => if s[i] == 0 then t[i] else s[i])
  }

  lemma ByteAnd(a: nat, b: Byte, c: nat, m: Byte)
    requires m == 0 || m == 255
    ensures And(256 * a + b, 256 * c + m) == 256 * And(a, c) + (if m == 0 then 0 else b)
  {
    hide And, Power2, Raised;
    RaisedByte(a);
    RaisedByte(c);
    RaisedByte(And(a, c));
    SplitBits(a, b, c, m, 8);
    AndOnes(b, 8);
    AndNothing(b);
  }

  lemma ByteOr(a: nat, b: Byte, c: nat, d: Byte)
    requires b == 0 || d == 0
    ensures Or(256 * a + b, 256 * c + d) == 256 * Or(a, c) + (if b == 0 then d else b)
  {
    hide Or, Power2, Raised;
    RaisedByte(a);
    RaisedByte(c);
    RaisedByte(Or(a, c));
    SplitBits(a, b, c, d, 8);
    AndNothing(b);
    AndNothing(d);
  }

  lemma {:induction false} AndBe(s: seq<Byte>, m: seq<Byte>)
    requires |s| == |m| && IsMask(m)
    ensures And(Be(s), Be(m)) == Be(Masked(s, m))
  {
    if s != [] {
      hide And;
      var n := |s| - 1;
      AndBe(s[..n], m[..n]);
      assert Masked(s, m)[..n] == Masked(s[..n], m[..n]);
      ByteAnd(Be(s[..n]), s[n], Be(m[..n]), m[n]);
    }
  }

  lemma {:induction false} OrBe(s: seq<Byte>, t: seq<Byte>)
    requires Disjoint(s, t)
    ensures Or(Be(s), Be(t)) == Be(Merged(s, t))
  {
    if s != [] {
      hide Or;
      var n := |s| - 1;
      OrBe(s[..n], t[..n]);
      assert Merged(s, t)[..n] == Merged(s[..n], t[..n]);
      ByteOr(Be(s[..n]), s[n], Be(t[..n]), t[n]);
    }
  }

  lemma {:induction false} ZeroInFront(s: seq<Byte>)
    ensures Be([0] + s) == Be(s)
  {
    if s != [] {
      assert ([0] + s)[..|s|] == [0] + s[..|s| - 1];
      ZeroInFront(s[..|s| - 1]);
    }
  }

  lemma {:induction false} FirstByte(s: seq<Byte>)
    requires s != []
    ensures Be(s) == s[0] * Power(|s| - 1) + Be(s[1..])
  {
    if |s| > 1 {
      var n := |s| - 1;
      FirstByte(s[..n]);
      assert s[..n][1..] == s[1..][..n - 1];
      assert 256 * (s[0] * Power(n - 1)) == s[0] * Power(n);
    }
  }

  lemma RightBe(s: seq<Byte>)
    requires s != []
    ensures ShiftRight(Be(s), 8) == Be([0] + s[..|s| - 1])
  {
    ShiftRightByte(Be(s));
    ZeroInFront(s[..|s| - 1]);
  }

  lemma LeftBe(wide: bool, s: seq<Byte>)
    requires |s| == WordSize(wide)
    ensures ShiftLeft(wide, Be(s), 8) == Be(s[1..] + [0])
  {
    hide ShiftLeft;
    PowerIsLimit(wide);
    BeBound(s);
    BeBound(s[1..]);
    ShiftLeftByte(wide, Be(s));
    FirstByte(s);
    assert (s[1..] + [0])[..|s| - 1] == s[1..];
    TopByte(wide, s[0], Be(s[1..]));
  }

  lemma TopByte(wide: bool, b: Byte, rest: nat)
    requires rest < Power(WordSize(wide) - 1)
    ensures 256 * (b * Power(WordSize(wide) - 1) + rest) % Limit(wide) == 256 * rest
  {
    if wide {
      assert Power(7) == 0x100_0000_0000_0000;
    } else {
      assert Power(3) == 0x100_0000;
    }
  }

  lemma RightTwo(s: seq<Byte>)
    requires |s| >= 2
    ensures ShiftRight(Be(s), 16) == Be([0, 0] + s[..|s| - 2])
  {
    hide ShiftRight, Be;
    ShiftRightMore(Be(s), 8, 8);
    RightBe(s);
    RightBe([0] + s[..|s| - 1]);
    assert [0] + ([0] + s[..|s| - 1])[..|s| - 1] == [0, 0] + s[..|s| - 2];
  }

  lemma RightFour(s: seq<Byte>)
    requires |s| >= 4
    ensures ShiftRight(Be(s), 32) == Be([0, 0, 0, 0] + s[..|s| - 4])
  {
    hide ShiftRight, Be;
    ShiftRightMore(Be(s), 16, 16);
    RightTwo(s);
    RightTwo([0, 0] + s[..|s| - 2]);
    assert [0, 0] + ([0, 0] + s[..|s| - 2])[..|s| - 2] == [0, 0, 0, 0] + s[..|s| - 4];
  }

  lemma LeftTwo(wide: bool, s: seq<Byte>)
    requires |s| == WordSize(wide)
    ensures ShiftLeft(wide, Be(s), 16) == Be(s[2..] + [0, 0])
  {
    hide ShiftLeft, Be;
    ShiftLeftMore(wide, Be(s), 8, 8);
    LeftBe(wide, s);
    LeftBe(wide, s[1..] + [0]);
    assert (s[1..] + [0])[1..] + [0] == s[2..] + [0, 0];
  }

  lemma LeftFour(wide: bool, s: seq<Byte>)
    requires |s| == WordSize(wide)
    ensures ShiftLeft(wide, Be(s), 32) == Be(s[4..] + [0, 0, 0, 0])
  {
    hide ShiftLeft, Be;
    ShiftLeftMore(wide, Be(s), 16, 16);
    LeftTwo(wide, s);
    LeftTwo(wide, s[2..] + [0, 0]);
    assert (s[2..] + [0, 0])[2..] + [0, 0] == s[4..] + [0, 0, 0, 0];
  }

  lemma BePush(s: seq<Byte>, b: Byte)
    ensures Be(s + [b]) == 256 * Be(s) + b
  {
    assert (s + [b])[..|s|] == s;
  }

  lemma BeFour(s: seq<Byte>, a: Byte, b: Byte, c: Byte, d: Byte)
    ensures Be(s + [a, b, c, d]) == 0x1_0000_0000 * Be(s) + 0x100_0000 * a + 0x1_0000 * b + 0x100 * c + d
  {
    hide Be;
    BePush(s, a);
    BePush(s + [a], b);
    BePush(s + [a] + [b], c);
    BePush(s + [a] + [b] + [c], d);
    assert s + [a] + [b] + [c] + [d] == s + [a, b, c, d];
  }

  lemma BeEight(a: Byte, b: Byte, c: Byte, d: Byte)
    ensures Be([a, b, c, d]) == 0x100_0000 * a + 0x1_0000 * b + 0x100 * c + d
    ensures Be([a, b, c, d, a, b, c, d]) == 0x1_0000_0001 * Be([a, b, c, d])
  {
    hide Be;
    Nothing();
    assert [] + [a, b, c, d] == [a, b, c, d] && [a, b, c, d] + [a, b, c, d] == [a, b, c, d, a, b, c, d];
    BeFour([], a, b, c, d);
    BeFour([a, b, c, d], a, b, c, d);
  }

  lemma Nothing()
    ensures Be([]) == 0
  {
  }

  /** Or of words that have no byte in common. */
  lemma OrBytes(x: seq<Byte>, y: seq<Byte>, r: seq<Byte>)
    requires Disjoint(x, y) && Merged(x, y) == r
    ensures Or(Be(x), Be(y)) == Be(r)
  {
    OrBe(x, y);
  }

  /** Mask and shift right by one byte, mask and shift left by one byte. */
  lemma MaskRight(s: seq<Byte>, m: seq<Byte>, masked: seq<Byte>, r: seq<Byte>)
    requires |s| == |m| > 0 && IsMask(m) && Masked(s, m) == masked && [0] + masked[..|s| - 1] == r
    ensures ShiftRight(And(Be(s), Be(m)), 8) == Be(r)
  {
    hide And, ShiftRight, Be, IsMask;
    AndBe(s, m);
    RightBe(masked);
  }

  lemma MaskLeft(wide: bool, s: seq<Byte>, m: seq<Byte>, masked: seq<Byte>, r: seq<Byte>)
    requires |s| == |m| == WordSize(wide) && IsMask(m) && Masked(s, m) == masked && masked[1..] + [0] == r
    ensures ShiftLeft(wide, And(Be(s), Be(m)), 8) == Be(r)
  {
    hide And, ShiftLeft, Be, IsMask;
    AndBe(s, m);
    LeftBe(wide, masked);
  }

  /** The same by two bytes. */
  lemma MaskRightTwo(s: seq<Byte>, m: seq<Byte>, masked: seq<Byte>, r: seq<Byte>)
    requires |s| == |m| > 1 && IsMask(m) && Masked(s, m) == masked && [0, 0] + masked[..|s| - 2] == r
    ensures ShiftRight(And(Be(s), Be(m)), 16) == Be(r)
  {
    hide And, ShiftRight, Be, IsMask;
    AndBe(s, m);
    RightTwo(masked);
  }

  lemma MaskLeftTwo(wide: bool, s: seq<Byte>, m: seq<Byte>, masked: seq<Byte>, r: seq<Byte>)
    requires |s| == |m| == WordSize(wide) && IsMask(m) && Masked(s, m) == masked && masked[2..] + [0, 0] == r
    ensures ShiftLeft(wide, And(Be(s), Be(m)), 16) == Be(r)
  {
    hide And, ShiftLeft, Be, IsMask;
    AndBe(s, m);
    LeftTwo(wide, masked);
  }

  lemma Halves32(s: seq<Byte>)
    requires |s| == 4
    ensures Or(ShiftRight(Be(s), 16), ShiftLeft(false, Be(s), 16)) == Be(s[2..] + s[..2])
  {
    hide Or, ShiftLeft, ShiftRight, Be;
    RightTwo(s);
    LeftTwo(false, s);
    OrBytes([0, 0] + s[..2], s[2..] + [0, 0], s[2..] + s[..2]);
  }

  lemma Bytes32(s: seq<Byte>)
    requires |s| == 4
    ensures Or(ShiftRight(And(Be(s), 0xff00ff00), 8), ShiftLeft(false, And(Be(s), 0x00ff00ff), 8))
         == Be([s[1], s[0], s[3], s[2]])
  {
    hide And, Or, ShiftLeft, ShiftRight, Be, IsMask;
    BeEight(255, 0, 255, 0);
    BeEight(0, 255, 0, 255);
    AlternatingMasks();
    MaskRight(s, [255, 0, 255, 0], [s[0], 0, s[2], 0], [0, s[0], 0, s[2]]);
    MaskLeft(false, s, [0, 255, 0, 255], [0, s[1], 0, s[3]], [s[1], 0, s[3], 0]);
    OrBytes([0, s[0], 0, s[2]], [s[1], 0, s[3], 0], [s[1], s[0], s[3], s[2]]);
  }

  lemma AlternatingMasks()
    ensures IsMask([255, 0, 255, 0]) && IsMask([0, 255, 0, 255])
    ensures IsMask([255, 0, 255, 0, 255, 0, 255, 0]) && IsMask([0, 255, 0, 255, 0, 255, 0, 255])
    ensures IsMask([255, 255, 0, 0, 255, 255, 0, 0]) && IsMask([0, 0, 255, 255, 0, 0, 255, 255])
  {
  }

  lemma Reverse32Bytes(s: seq<Byte>)
    requires |s| == 4
    ensures Reverse32(Be(s)) == Be(Reversed(s))
  {
    hide And, Or, ShiftLeft, ShiftRight, Be;
    var halves := s[2..] + s[..2];
    Halves32(s);
    Bytes32(halves);
    assert [halves[1], halves[0], halves[3], halves[2]] == Reversed(s);
  }

  lemma Halves64(s: seq<Byte>)
    requires |s| == 8
    ensures Or(ShiftRight(Be(s), 32), ShiftLeft(true, Be(s), 32)) == Be(s[4..] + s[..4])
  {
    hide Or, ShiftLeft, ShiftRight, Be;
    RightFour(s);
    LeftFour(true, s);
    OrBytes([0, 0, 0, 0] + s[..4], s[4..] + [0, 0, 0, 0], s[4..] + s[..4]);
  }

  lemma Bytes64(s: seq<Byte>)
    requires |s| == 8
    ensures Or(ShiftRight(And(Be(s), 0xff00ff00ff00ff00), 8), ShiftLeft(true, And(Be(s), 0x00ff00ff00ff00ff), 8))
         == Be([s[1], s[0], s[3], s[2], s[5], s[4], s[7], s[6]])
  {
    hide And, Or, ShiftLeft, ShiftRight, Be, IsMask;
    var odd, even := [0, s[0], 0, s[2], 0, s[4], 0, s[6]], [s[1], 0, s[3], 0, s[5], 0, s[7], 0];
    OddBytes64(s);
    EvenBytes64(s);
    OrBytes(odd, even, [s[1], s[0], s[3], s[2], s[5], s[4], s[7], s[6]]);
  }

  lemma OddBytes64(s: seq<Byte>)
    requires |s| == 8
    ensures ShiftRight(And(Be(s), 0xff00ff00ff00ff00), 8) == Be([0, s[0], 0, s[2], 0, s[4], 0, s[6]])
  {
    hide And, ShiftRight, Be, IsMask;
    BeEight(255, 0, 255, 0);
    AlternatingMasks();
    MaskRight(s, [255, 0, 255, 0, 255, 0, 255, 0], [s[0], 0, s[2], 0, s[4], 0, s[6], 0],
              [0, s[0], 0, s[2], 0, s[4], 0, s[6]]);
  }

  lemma EvenBytes64(s: seq<Byte>)
    requires |s| == 8
    ensures ShiftLeft(true, And(Be(s), 0x00ff00ff00ff00ff), 8) == Be([s[1], 0, s[3], 0, s[5], 0, s[7], 0])
  {
    hide And, ShiftLeft, Be, IsMask;
    BeEight(0, 255, 0, 255);
    AlternatingMasks();
    MaskLeft(true, s, [0, 255, 0, 255, 0, 255, 0, 255], [0, s[1], 0, s[3], 0, s[5], 0, s[7]],
             [s[1], 0, s[3], 0, s[5], 0, s[7], 0]);
  }

  lemma Pairs64(s: seq<Byte>)
    requires |s| == 8
    ensures Or(ShiftRight(And(Be(s), 0xffff0000ffff0000), 16), ShiftLeft(true, And(Be(s), 0x0000ffff0000ffff), 16))
         == Be([s[2], s[3], s[0], s[1], s[6], s[7], s[4], s[5]])
  {
    hide And, Or, ShiftLeft, ShiftRight, Be, IsMask;
    var odd, even := [0, 0, s[0], s[1], 0, 0, s[4], s[5]], [s[2], s[3], 0, 0, s[6], s[7], 0, 0];
    OddPairs64(s);
    EvenPairs64(s);
    OrBytes(odd, even, [s[2], s[3], s[0], s[1], s[6], s[7], s[4], s[5]]);
  }

  lemma OddPairs64(s: seq<Byte>)
    requires |s| == 8
    ensures ShiftRight(And(Be(s), 0xffff0000ffff0000), 16) == Be([0, 0, s[0], s[1], 0, 0, s[4], s[5]])
  {
    hide And, ShiftRight, Be, IsMask;
    BeEight(255, 255, 0, 0);
    AlternatingMasks();
    MaskRightTwo(s, [255, 255, 0, 0, 255, 255, 0, 0], [s[0], s[1], 0, 0, s[4], s[5], 0, 0],
                 [0, 0, s[0], s[1], 0, 0, s[4], s[5]]);
  }

  lemma EvenPairs64(s: seq<Byte>)
    requires |s| == 8
    ensures ShiftLeft(true, And(Be(s), 0x0000ffff0000ffff), 16) == Be([s[2], s[3], 0, 0, s[6], s[7], 0, 0])
  {
    hide And, ShiftLeft, Be, IsMask;
    BeEight(0, 0, 255, 255);
    AlternatingMasks();
    MaskLeftTwo(true, s, [0, 0, 255, 255, 0, 0, 255, 255], [0, 0, s[2], s[3], 0, 0, s[6], s[7]],
                [s[2], s[3], 0, 0, s[6], s[7], 0, 0]);
  }

  lemma Reverse64Bytes(s: seq<Byte>)
    requires |s| == 8
    ensures Reverse64(Be(s)) == Be(Reversed(s))
  {
    hide And, Or, ShiftLeft, ShiftRight, Be;
    var halves := s[4..] + s[..4];
    Halves64(s);
    Bytes64(halves);
    var bytes := [halves[1], halves[0], halves[3], halves[2], halves[5], halves[4], halves[7], halves[6]];
    Pairs64(bytes);
    assert [bytes[2], bytes[3], bytes[0], bytes[1], bytes[6], bytes[7], bytes[4], bytes[5]] == Reversed(s);
  }

  lemma {:induction false} ToBeTruncates(n: nat, x: Word)
    ensures ToBe(n, x) == ToBe(n, x % Power(n))
  {
    if n > 0 {
      var p := Power(n - 1);
      ToBeTruncates(n - 1, x / 256);
      TruncatedByte(x, p);
    }
  }

  lemma TruncatedByte(x: nat, p: nat)
    requires p > 0
    ensures x % (256 * p) / 256 == x / 256 % p && x % (256 * p) % 256 == x % 256
  {
    var y, b := x / 256, x % 256;
    var q, r := y / p, y % p;
    assert x == q * (256 * p) + (256 * r + b) by {
      assert y == p * q + r;
    }
    assert 256 * r + b < 256 * p;
    Quotient(x, 256 * p, q, 256 * r + b);
  }

  /** The shifts and masks reverse the bytes of what a uint32_t or uint64_t holds. */
  lemma SwapIsReversal(wide: bool, x: Word)
    ensures Swap(true, wide, x) == Be(Reversed(ToBe(WordSize(wide), x)))
  {
    hide Reverse32, Reverse64, Be, ToBe;
    PowerIsLimit(wide);
    var y, n := x % Limit(wide), WordSize(wide);
    ToBeTruncates(n, x);
    BeInverse(n, y);
    if wide {
      Reverse64Bytes(ToBe(n, y));
    } else {
      Reverse32Bytes(ToBe(n, y));
    }
  }

  /** Loading a word and converting it reads its bytes as big-endian on either host. */
  lemma SwapLoaded(little: bool, wide: bool, s: seq<Byte>)
    requires |s| == WordSize(wide)
    ensures Swap(little, wide, Load(little, s)) == Be(s) < Limit(wide)
  {
    hide Swap, Be, ToBe;
    PowerIsLimit(wide);
    BeBound(s);
    ToBeInverse(Reversed(s));
    ReversedTwice(s);
    SwapIsReversal(wide, Load(true, s));
    BigEndianSwap(wide, Load(false, s));
  }

  lemma BigEndianSwap(wide: bool, x: Word)
    ensures Swap(false, wide, x) == x
  {
  }

  /** Converting and storing a word writes big-endian bytes on either host. */
  lemma StoreSwapped(little: bool, wide: bool, x: Word)
    ensures Store(little, wide, Swap(little, wide, x)) == ToBe(WordSize(wide), x)
  {
    hide Swap, Be, ToBe;
    var s := ToBe(WordSize(wide), x);
    ToBeInverse(Reversed(s));
    ReversedTwice(s);
    SwapIsReversal(wide, x);
    BigEndianSwap(wide, x);
  }
}
