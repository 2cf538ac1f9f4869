/**
 How messages are filled up to whole blocks: section 5.1 of FIPS 180-4 and sections 3.1 and
 3.2 of RFC 1321, byte by byte.
 */
module Padding {
  import opened Arithmetic
  import opened Words
  import opened ByteOrder
  import Sha2Spec
  import Md5Spec

  /** p is the message, the byte 0x80, zeros and a field with the number of bits, low-order
      byte first or last, in as few blocks as possible. */
  predicate IsPadded(p: seq<Byte>, message: seq<Byte>, little: bool, block: nat, field: nat)
    requires block > 0
  {
    var n, end := |message|, |p| - field;
    && |p| % block == 0 && n + 1 + field <= |p| < n + 1 + field + block
    && p[..n] == message && p[n] == 0x80
    && (forall i :: n < i < end ==> p[i] == 0)
    && Load(little, p[end..]) == 8 * n % Power(field)
  }

  lemma SameLength(a: nat, b: nat, low: nat, block: nat)
    requires block > 0 && a % block == 0 && b % block == 0 && low <= a < low + block && low <= b < low + block
    ensures a == b
  {
    assert (a / block - b / block) * block == a - b;
    Spread(a / block - b / block, block);
  }

  lemma SameField(little: bool, s: seq<Byte>, t: seq<Byte>)
    requires |s| == |t| && Load(little, s) == Load(little, t)
    ensures s == t
  {
    if little {
      ToBeInverse(Reversed(s));
      ToBeInverse(Reversed(t));
      ReversedTwice(s);
      ReversedTwice(t);
    } else {
      ToBeInverse(s);
      ToBeInverse(t);
    }
  }

  /** A message is filled up in one way only. */
  lemma OnePadding(p: seq<Byte>, q: seq<Byte>, message: seq<Byte>, little: bool, block: nat, field: nat)
    requires block > 0
    requires IsPadded(p, message, little, block, field) && IsPadded(q, message, little, block, field)
    ensures p == q
  {
    var n := |message|;
    hide Load, Power;
    SameLength(|p|, |q|, n + 1 + field, block);
    var end := |p| - field;
    SameField(little, p[end..], q[end..]);
    forall i | 0 <= i < |p|
      ensures p[i] == q[i]
    {
      if i < n {
        assert p[..n][i] == q[..n][i];
      } else if i >= end {
        assert p[end..][i - end] == q[end..][i - end];
      }
    }
  }

  // ----- the number of bits

  lemma Carry(x: nat, p: nat, y: nat, z: nat)
    ensures 256 * (x * p + y) + z == x * (256 * p) + (256 * y + z)
  {
  }

  lemma {:induction false} BeConcat(a: seq<Byte>, b: seq<Byte>)
    ensures Be(a + b) == Be(a) * Power(|b|) + Be(b)
    decreases |b|
  {
    if b == [] {
      assert a + b == a;
    } else {
      var k := |b| - 1;
      BeConcat(a, b[..k]);
      assert (a + b)[..|a + b| - 1] == a + b[..k];
      Carry(Be(a), Power(k), Be(b[..k]), b[k]);
    }
  }

  lemma {:induction false} PowerSum(a: nat, b: nat)
    ensures Power(a + b) == Power(a) * Power(b)
    decreases b
  {
    if b > 0 {
      PowerSum(a, b - 1);
      Carry(Power(a), Power(b - 1), 0, 0);
    }
  }

  lemma Digits(q: nat, r: nat, lo: nat, base: nat)
    requires r < base && lo < base
    ensures (q * base + r) * base + lo == q * (base * base) + (r * base + lo)
    ensures r * base + lo < base * base
  {
    Larger(r, base - 1, base, base);
  }

  lemma Parts(x: nat, base: nat)
    requires base > 0
    ensures x / base * base + x % base == x
  {
  }

  /** The two lowest digits of a number are its remainder by the square of the base. */
  lemma TwoDigits(x: nat, base: nat, square: nat)
    requires base > 0 && square == base * base
    ensures square > 0 && x / base % base * base + x % base == x % square
  {
    var hi, lo := x / base, x % base;
    var q, r := hi / base, hi % base;
    Parts(x, base);
    Parts(hi, base);
    Digits(q, r, lo, base);
    Quotient(x, square, q, r * base + lo);
  }

  lemma Sha2Field(alg: Sha2Spec.Algorithm, bits: nat)
    ensures Be(Sha2Spec.LengthField(alg, bits)) == bits % Power(if alg.wide then 16 else 8)
  {
    hide Power, ToBe, Be;
    var base := Sha2Spec.TWO64;
    PowerIsLimit(true);
    BeInverse(8, bits % base);
    if alg.wide {
      var hi := ToBe(8, bits / base % base);
      BeInverse(8, bits / base % base);
      BeConcat(hi, ToBe(8, bits % base));
      PowerSum(8, 8);
      TwoDigits(bits, base, base * base);
    }
  }

  lemma Md5Field(bits: nat)
    ensures Be(Reversed(Md5Spec.LengthField(bits))) == bits % Power(8)
  {
    hide Power, ToBe, Be, Md5Spec.Encoded;
    var base := Md5Spec.TWO32;
    var lo, hi := bits % base, bits / base % base;
    PowerIsLimit(false);
    BeInverse(4, lo);
    BeInverse(4, hi);
    EncodedReversed(lo);
    EncodedReversed(hi);
    ReversedConcat(Md5Spec.Encoded(lo), Md5Spec.Encoded(hi));
    BeConcat(ToBe(4, hi), ToBe(4, lo));
    PowerSum(4, 4);
    TwoDigits(bits, base, base * base);
  }

  lemma ReversedConcat(a: seq<Byte>, b: seq<Byte>)
    ensures Reversed(a + b) == Reversed(b) + Reversed(a)
  {
  }

  lemma FourBytes(x: Word)
    ensures ToBe(4, x) == [x / 256 / 256 / 256 % 256, x / 256 / 256 % 256, x / 256 % 256, x % 256]
  {
    var y := x / 256;
    var z := y / 256;
    assert ToBe(2, z) == [z / 256 % 256, z % 256];
    assert ToBe(3, y) == [z / 256 % 256, z % 256, y % 256];
  }

  lemma Shifts(x: Word)
    ensures x / 256 / 256 == x / 0x1_0000 && x / 0x1_0000 / 256 == x / 0x100_0000
  {
  }

  lemma EncodedReversed(x: Word)
    ensures Reversed(Md5Spec.Encoded(x)) == ToBe(4, x)
  {
    hide ToBe;
    FourBytes(x);
    Shifts(x);
  }

  // ----- whole blocks

  lemma WholeBlocks(n: nat, block: nat, k: nat)
    requires block > 0
    ensures (n - n % block + k * block) % block == 0
  {
    assert n - n % block + k * block == (n / block + k) * block;
    Multiple(n / block + k, block);
  }

  /** Section 5.1 of FIPS 180-4. */
  lemma Sha2Padded(alg: Sha2Spec.Algorithm, message: seq<Byte>, p: seq<Byte>)
    ensures p == Sha2Spec.Pad(alg, message)
       <==> IsPadded(p, message, false, if alg.wide then 128 else 64, if alg.wide then 16 else 8)
  {
    hide Power, Be, Sha2Spec.LengthField;
    var n, block, field := |message|, if alg.wide then 128 else 64, if alg.wide then 16 else 8;
    var pad := Sha2Spec.Pad(alg, message);
    Sha2Field(alg, 8 * n);
    WholeBlocks(n, block, 1);
    WholeBlocks(n, block, 2);
    assert pad[|pad| - field..] == Sha2Spec.LengthField(alg, 8 * n);
    assert IsPadded(pad, message, false, block, field);
    if IsPadded(p, message, false, block, field) {
      OnePadding(p, pad, message, false, block, field);
    }
  }

  /** Sections 3.1 and 3.2 of RFC 1321. */
  lemma Md5Padded(message: seq<Byte>, p: seq<Byte>)
    ensures p == Md5Spec.Pad(message) <==> IsPadded(p, message, true, 64, 8)
  {
    hide Power, Be, Md5Spec.LengthField;
    var n := |message|;
    var pad := Md5Spec.Pad(message);
    Md5Field(8 * n);
    WholeBlocks(n, 64, 1);
    WholeBlocks(n, 64, 2);
    assert pad[|pad| - 8..] == Md5Spec.LengthField(8 * n);
    assert IsPadded(pad, message, true, 64, 8);
    if IsPadded(p, message, true, 64, 8) {
      OnePadding(p, pad, message, true, 64, 8);
    }
  }
}
