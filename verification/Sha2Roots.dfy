/**
 What the numbers of Sha2Spec are, as sections 4.2.2, 4.2.3 and 5.3 of FIPS 180-4 say it: the
 round constants are the fractions of the cube roots of the first primes and the initial
 words those of square roots.  Sections 4.1.2 and 4.1.3 for the sigma functions, bit by bit.
 */
module Sha2Roots {
  import opened Arithmetic
  import opened Primes
  import opened Words
  import opened Sha2Spec

  function Cube(x: nat): nat {
    x * x * x
  }

  function Square(x: nat): nat {
    x * x
  }

  /** The cube root of p is c and k parts of limit, the rest cut off. */
  predicate CubeRoot(p: nat, c: nat, k: nat, limit: nat) {
    k < limit && Cube(c * limit + k) <= p * Cube(limit) < Cube(c * limit + k + 1)
  }

  predicate SquareRoot(p: nat, c: nat, k: nat, limit: nat) {
    k < limit && Square(c * limit + k) <= p * Square(limit) < Square(c * limit + k + 1)
  }

  /** k is the first bits of the fraction of the cube root of the prime with t primes below. */
  ghost predicate IsCubeFraction(t: nat, k: nat, limit: nat) {
    exists p: nat, c: nat :: NthPrime(t, p) && CubeRoot(p, c, k, limit)
  }

  ghost predicate IsSquareFraction(t: nat, k: nat, limit: nat) {
    exists p: nat, c: nat :: NthPrime(t, p) && SquareRoot(p, c, k, limit)
  }

  // ----- there is one such number

  lemma Grows(x: nat, y: nat)
    requires x <= y
    ensures Square(x) <= Square(y) && Cube(x) <= Cube(y)
  {
    Larger(x, y, x, y);
    Larger(x * x, y * y, x, y);
  }

  lemma SameParts(limit: nat, c: nat, k: nat, d: nat, j: nat)
    requires c * limit + k == d * limit + j && k < limit && j < limit
    ensures c == d && k == j
  {
    assert (c - d) * limit == j - k;
    Spread(c - d, limit);
  }

  lemma OneCubeRoot(p: nat, c: nat, k: nat, d: nat, j: nat, limit: nat)
    requires CubeRoot(p, c, k, limit) && CubeRoot(p, d, j, limit)
    ensures k == j
  {
    hide Cube;
    var x, y := c * limit + k, d * limit + j;
    if x < y {
      Grows(x + 1, y);
    } else if y < x {
      Grows(y + 1, x);
    }
    SameParts(limit, c, k, d, j);
  }

  /** A round constant is determined by its round. */
  lemma OneCubeFraction(t: nat, k: nat, j: nat, limit: nat)
    requires IsCubeFraction(t, k, limit) && IsCubeFraction(t, j, limit)
    ensures k == j
  {
    hide NthPrime, CubeRoot;
    var p, c :| NthPrime(t, p) && CubeRoot(p, c, k, limit);
    var q, d :| NthPrime(t, q) && CubeRoot(q, d, j, limit);
    OneNthPrime(t, p, q);
    OneCubeRoot(p, c, k, d, j, limit);
  }

  lemma OneSquareRoot(p: nat, c: nat, k: nat, d: nat, j: nat, limit: nat)
    requires SquareRoot(p, c, k, limit) && SquareRoot(p, d, j, limit)
    ensures k == j
  {
    hide Square;
    var x, y := c * limit + k, d * limit + j;
    if x < y {
      Grows(x + 1, y);
    } else if y < x {
      Grows(y + 1, x);
    }
    SameParts(limit, c, k, d, j);
  }

  lemma OneSquareFraction(t: nat, k: nat, j: nat, limit: nat)
    requires IsSquareFraction(t, k, limit) && IsSquareFraction(t, j, limit)
    ensures k == j
  {
    hide NthPrime, SquareRoot;
    var p, c :| NthPrime(t, p) && SquareRoot(p, c, k, limit);
    var q, d :| NthPrime(t, q) && SquareRoot(q, d, j, limit);
    OneNthPrime(t, p, q);
    OneSquareRoot(p, c, k, d, j, limit);
  }

  // ----- the first half of the bits

  lemma CubeTimes(x: nat, y: nat)
    ensures Cube(x * y) == Cube(x) * Cube(y) && Square(x * y) == Square(x) * Square(y)
  {
    assert x * y * (x * y) == (x * x) * (y * y);
    assert (x * x) * (y * y) * (x * y) == (x * x * x) * (y * y * y);
  }

  lemma Cancel(a: nat, b: nat, w: nat)
    requires w > 0
    ensures a * w <= b * w ==> a <= b
    ensures a * w < b * w ==> a < b
  {
    if a > b {
      Larger(b + 1, a, w, w);
    }
    if a >= b {
      Larger(b, a, w, w);
    }
  }

  const WIDE: nat := 0x1_0000_0000_0000_0000
  const NARROW: nat := 0x1_0000_0000

  /** Cutting a fraction of 64 bits short. */
  lemma HalfParts(c: nat, k: nat) returns (x: nat, y: nat)
    requires k < WIDE
    ensures x == c * WIDE + k && y == c * NARROW + k / NARROW && k / NARROW < NARROW
    ensures y * NARROW <= x && x + 1 <= (y + 1) * NARROW
  {
    x, y := c * WIDE + k, c * NARROW + k / NARROW;
    assert k == k / NARROW * NARROW + k % NARROW;
  }

  lemma Squeeze(a: nat, m: nat, p: nat, v: nat, n: nat, b: nat)
    requires v > 0 && a * v <= m <= p * (v * v) < n <= b * v
    ensures a <= p * v < b
  {
    assert p * (v * v) == p * v * v;
    Cancel(a, p * v, v);
    Cancel(p * v, b, v);
  }

  lemma CubeHalf(p: nat, c: nat, k: nat)
    requires CubeRoot(p, c, k, WIDE)
    ensures CubeRoot(p, c, k / NARROW, NARROW)
  {
    hide Cube, Square;
    var x, y := HalfParts(c, k);
    Grows(y * NARROW, x);
    Grows(x + 1, (y + 1) * NARROW);
    CubeTimes(y, NARROW);
    CubeTimes(y + 1, NARROW);
    WideIsSquare();
    Squeeze(Cube(y), Cube(x), p, Cube(NARROW), Cube(x + 1), Cube(y + 1));
  }

  lemma WideIsSquare()
    ensures Cube(WIDE) == Cube(NARROW) * Cube(NARROW) && Square(WIDE) == Square(NARROW) * Square(NARROW)
    ensures Cube(NARROW) > 0 && Square(NARROW) > 0
  {
  }

  lemma SquareHalf(p: nat, c: nat, k: nat)
    requires SquareRoot(p, c, k, WIDE)
    ensures SquareRoot(p, c, k / NARROW, NARROW)
  {
    hide Cube, Square;
    var x, y := HalfParts(c, k);
    Grows(y * NARROW, x);
    Grows(x + 1, (y + 1) * NARROW);
    CubeTimes(y, NARROW);
    CubeTimes(y + 1, NARROW);
    WideIsSquare();
    Squeeze(Square(y), Square(x), p, Square(NARROW), Square(x + 1), Square(y + 1));
  }

  // ----- the tables, row by row

  function CubeFloor(p: nat): nat {
    if p < 8 then 1 else if p < 27 then 2 else if p < 64 then 3 else if p < 125 then 4
    else if p < 216 then 5 else if p < 343 then 6 else 7
  }

  predicate CubeRow(row: seq<Word>, p: seq<nat>) {
    && |row| == |p| == 8
    && CubeRoot(p[0], CubeFloor(p[0]), row[0], WIDE) && CubeRoot(p[1], CubeFloor(p[1]), row[1], WIDE)
    && CubeRoot(p[2], CubeFloor(p[2]), row[2], WIDE) && CubeRoot(p[3], CubeFloor(p[3]), row[3], WIDE)
    && CubeRoot(p[4], CubeFloor(p[4]), row[4], WIDE) && CubeRoot(p[5], CubeFloor(p[5]), row[5], WIDE)
    && CubeRoot(p[6], CubeFloor(p[6]), row[6], WIDE) && CubeRoot(p[7], CubeFloor(p[7]), row[7], WIDE)
  }

  lemma Cubes0()
    ensures CubeRow(K512_0, ROW_0)
  {
  }

  lemma Cubes1()
    ensures CubeRow(K512_1, ROW_1)
  {
  }

  lemma Cubes2()
    ensures CubeRow(K512_2, ROW_2)
  {
  }

  lemma Cubes3()
    ensures CubeRow(K512_3, ROW_3)
  {
  }

  lemma Cubes4()
    ensures CubeRow(K512_4, ROW_4)
  {
  }

  lemma Cubes5()
    ensures CubeRow(K512_5, ROW_5)
  {
  }

  lemma Cubes6()
    ensures CubeRow(K512_6, ROW_6)
  {
  }

  lemma Cubes7()
    ensures CubeRow(K512_7, ROW_7)
  {
  }

  lemma Cubes8()
    ensures CubeRow(K512_8, ROW_8)
  {
  }

  lemma Cubes9()
    ensures CubeRow(K512_9, ROW_9)
  {
  }

  lemma RowFraction(row: seq<Word>, p: seq<nat>, from: nat, i: nat)
    requires i < 8 && CubeRow(row, p) && IsRow(from, p)
    ensures IsCubeFraction(from + i, row[i], WIDE)
  {
    hide CubeRoot, NthPrime;
    assert NthPrime(from + i, p[i]) && CubeRoot(p[i], CubeFloor(p[i]), row[i], WIDE);
  }

  lemma Cubes(r: nat)
    requires r < 10
    ensures CubeRow(Row512(r), PrimeRow(r))
  {
    hide CubeRow;
    match r
    case 0 => Cubes0();
    case 1 => Cubes1();
    case 2 => Cubes2();
    case 3 => Cubes3();
    case 4 => Cubes4();
    case 5 => Cubes5();
    case 6 => Cubes6();
    case 7 => Cubes7();
    case 8 => Cubes8();
    case _ => Cubes9();
  }

  /** Section 4.2.3: the round constants of SHA-512, and of SHA-384. */
  lemma Rounds512(t: nat)
    requires t < 80
    ensures |Sha512.k| == 80 && Sha384.k == Sha512.k && IsCubeFraction(t, Sha512.k[t], WIDE)
  {
    hide CubeRow, IsRow, IsCubeFraction, Row512, PrimeRow;
    var r := t / 8;
    Cubes(r);
    Rows(r);
    RowFraction(Row512(r), PrimeRow(r), 8 * r, t % 8);
    assert t == 8 * r + t % 8;
  }

  predicate HalfRow(a: seq<Word>, b: seq<Word>) {
    |a| == |b| == 8 && forall i :: 0 <= i < 8 ==> a[i] == b[i] / NARROW
  }

  lemma HalfRows(r: nat)
    requires r < 8
    ensures HalfRow(Row256(r), Row512(r))
  {
    match r
    case 0 => assert HalfRow(K256_0, K512_0);
    case 1 => assert HalfRow(K256_1, K512_1);
    case 2 => assert HalfRow(K256_2, K512_2);
    case 3 => assert HalfRow(K256_3, K512_3);
    case 4 => assert HalfRow(K256_4, K512_4);
    case 5 => assert HalfRow(K256_5, K512_5);
    case 6 => assert HalfRow(K256_6, K512_6);
    case _ => assert HalfRow(K256_7, K512_7);
  }

  /** Section 4.2.2: the round constants of SHA-256, the first halves of those of SHA-512. */
  lemma Rounds256(t: nat)
    requires t < 64
    ensures |Sha256.k| == 64 && IsCubeFraction(t, Sha256.k[t], NARROW)
  {
    hide NthPrime, CubeRoot, Row256, Row512;
    HalfRows(t / 8);
    Rounds512(t);
    var k := Sha512.k[t];
    assert Sha256.k[t] == k / NARROW;
    var p, c :| NthPrime(t, p) && CubeRoot(p, c, k, WIDE);
    CubeHalf(p, c, k);
  }

  // ----- the initial words

  function SquareFloor(p: nat): nat {
    if p < 4 then 1 else if p < 9 then 2 else if p < 16 then 3 else if p < 25 then 4
    else if p < 36 then 5 else if p < 49 then 6 else 7
  }

  predicate SquareRow(h: Regs, p: seq<nat>) {
    && |p| == 8
    && SquareRoot(p[0], SquareFloor(p[0]), h.a, WIDE) && SquareRoot(p[1], SquareFloor(p[1]), h.b, WIDE)
    && SquareRoot(p[2], SquareFloor(p[2]), h.c, WIDE) && SquareRoot(p[3], SquareFloor(p[3]), h.d, WIDE)
    && SquareRoot(p[4], SquareFloor(p[4]), h.e, WIDE) && SquareRoot(p[5], SquareFloor(p[5]), h.f, WIDE)
    && SquareRoot(p[6], SquareFloor(p[6]), h.g, WIDE) && SquareRoot(p[7], SquareFloor(p[7]), h.h, WIDE)
  }

  lemma Squares512()
    ensures SquareRow(Sha512.initial, ROW_0)
  {
  }

  lemma Squares384()
    ensures SquareRow(Sha384.initial, ROW_1)
  {
  }

  lemma RegsFraction(h: Regs, p: seq<nat>, from: nat, i: nat)
    requires i < 8 && SquareRow(h, p) && IsRow(from, p)
    ensures IsSquareFraction(from + i, WordOf(h, i), WIDE)
  {
    hide SquareRoot, NthPrime;
    assert NthPrime(from + i, p[i]) && SquareRoot(p[i], SquareFloor(p[i]), WordOf(h, i), WIDE);
  }

  lemma HalfInitial(i: nat)
    requires i < 8
    ensures WordOf(Sha256.initial, i) == WordOf(Sha512.initial, i) / NARROW
  {
  }

  /** Section 5.3: the initial words come from the first eight primes, for SHA-384 from the
      ninth to the sixteenth. */
  lemma InitialWords(i: nat)
    requires i < 8
    ensures IsSquareFraction(i, WordOf(Sha256.initial, i), NARROW)
    ensures IsSquareFraction(8 + i, WordOf(Sha384.initial, i), WIDE)
    ensures IsSquareFraction(i, WordOf(Sha512.initial, i), WIDE)
  {
    hide NthPrime, SquareRoot, SquareRow, IsRow, WordOf;
    Squares512();
    Squares384();
    Row0();
    Row1();
    RegsFraction(Sha512.initial, ROW_0, 0, i);
    RegsFraction(Sha384.initial, ROW_1, 8, i);
    HalfInitial(i);
    var h := WordOf(Sha512.initial, i);
    var p, c :| NthPrime(i, p) && SquareRoot(p, c, h, WIDE);
    SquareHalf(p, c, h);
  }

  // ----- the sigma functions

  /** Bit i of a word rotated or shifted right. */
  predicate TermBit(wide: bool, term: Term, x: Word, i: nat) {
    match term
    case Rotate(n) => Bit(x, (i + n) % Bits(wide))
    case Shift(n) => i + n < Bits(wide) && Bit(x, i + n)
  }

  lemma ApplyBit(wide: bool, term: Term, x: Word, i: nat)
    requires x < Limit(wide) && i < Bits(wide) && 0 < term.n < Bits(wide)
    ensures Bit(Apply(wide, term, x), i) <==> TermBit(wide, term, x, i)
  {
    hide Bit, RotateRight, ShiftRight;
    if term.Rotate? {
      RotateRightBit(wide, x, term.n, i);
    } else {
      ShiftRightBit(x, term.n, i);
      if i + term.n >= Bits(wide) {
        Power2IsLimit(wide);
        HighBit(x, Bits(wide), i + term.n);
      }
    }
  }

  lemma MixBit(wide: bool, terms: seq<Term>, x: Word, i: nat)
    requires x < Limit(wide) && i < Bits(wide) && |terms| == 3 && forall j :: 0 <= j < 3 ==> 0 < terms[j].n < Bits(wide)
    ensures Bit(Mix(wide, terms, x), i)
       <==> (TermBit(wide, terms[0], x, i) != TermBit(wide, terms[1], x, i)) != TermBit(wide, terms[2], x, i)
  {
    hide Bit, Apply, TermBit, Xor;
    MixThree(wide, terms, x);
    var a, b, c := Apply(wide, terms[0], x), Apply(wide, terms[1], x), Apply(wide, terms[2], x);
    XorBit(Xor(a, b), c, i);
    XorBit(a, b, i);
    ApplyBit(wide, terms[0], x, i);
    ApplyBit(wide, terms[1], x, i);
    ApplyBit(wide, terms[2], x, i);
  }

  lemma MixThree(wide: bool, terms: seq<Term>, x: Word)
    requires |terms| == 3
    ensures Mix(wide, terms, x)
         == Xor(Xor(Apply(wide, terms[0], x), Apply(wide, terms[1], x)), Apply(wide, terms[2], x))
  {
    hide Apply, Xor;
    assert terms[..2][..1] == terms[..1];
    assert Mix(wide, terms[..1], x) == Apply(wide, terms[0], x);
    assert Mix(wide, terms[..2], x) == Xor(Apply(wide, terms[0], x), Apply(wide, terms[1], x));
  }

  /** One of three bits, or all of them. */
  predicate Odd(a: bool, b: bool, c: bool) {
    (a && !b && !c) || (!a && b && !c) || (!a && !b && c) || (a && b && c)
  }

  /** Section 4.1.2. */
  lemma Sigmas256(x: Word, i: nat)
    requires x < NARROW && i < 32
    ensures Bit(Mix(false, Sha256.bigSigma0, x), i)
       <==> Odd(Bit(x, (i + 2) % 32), Bit(x, (i + 13) % 32), Bit(x, (i + 22) % 32))
    ensures Bit(Mix(false, Sha256.bigSigma1, x), i)
       <==> Odd(Bit(x, (i + 6) % 32), Bit(x, (i + 11) % 32), Bit(x, (i + 25) % 32))
    ensures Bit(Mix(false, Sha256.sigma0, x), i)
       <==> Odd(Bit(x, (i + 7) % 32), Bit(x, (i + 18) % 32), i + 3 < 32 && Bit(x, i + 3))
    ensures Bit(Mix(false, Sha256.sigma1, x), i)
       <==> Odd(Bit(x, (i + 17) % 32), Bit(x, (i + 19) % 32), i + 10 < 32 && Bit(x, i + 10))
  {
    hide Bit, Mix;
    MixBit(false, Sha256.bigSigma0, x, i);
    MixBit(false, Sha256.bigSigma1, x, i);
    MixBit(false, Sha256.sigma0, x, i);
    MixBit(false, Sha256.sigma1, x, i);
  }

  /** Section 4.1.3. */
  lemma Sigmas512(x: Word, i: nat)
    requires x < WIDE && i < 64
    ensures Bit(Mix(true, Sha512.bigSigma0, x), i)
       <==> Odd(Bit(x, (i + 28) % 64), Bit(x, (i + 34) % 64), Bit(x, (i + 39) % 64))
    ensures Bit(Mix(true, Sha512.bigSigma1, x), i)
       <==> Odd(Bit(x, (i + 14) % 64), Bit(x, (i + 18) % 64), Bit(x, (i + 41) % 64))
    ensures Bit(Mix(true, Sha512.sigma0, x), i)
       <==> Odd(Bit(x, (i + 1) % 64), Bit(x, (i + 8) % 64), i + 7 < 64 && Bit(x, i + 7))
    ensures Bit(Mix(true, Sha512.sigma1, x), i)
       <==> Odd(Bit(x, (i + 19) % 64), Bit(x, (i + 61) % 64), i + 6 < 64 && Bit(x, i + 6))
    ensures Sha384.bigSigma0 == Sha512.bigSigma0 && Sha384.bigSigma1 == Sha512.bigSigma1
    ensures Sha384.sigma0 == Sha512.sigma0 && Sha384.sigma1 == Sha512.sigma1
  {
    hide Bit, Mix;
    MixBit(true, Sha512.bigSigma0, x, i);
    MixBit(true, Sha512.bigSigma1, x, i);
    MixBit(true, Sha512.sigma0, x, i);
    MixBit(true, Sha512.sigma1, x, i);
  }
}
