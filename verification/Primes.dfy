/**
 Prime numbers, in order.
 */
module Primes {
  import opened Arithmetic

  predicate Divides(d: nat, n: nat)
    requires d > 0
  {
    n % d == 0
  }

  ghost predicate IsPrime(n: nat) {
    n >= 2 && forall d :: 2 <= d < n ==> !Divides(d, n)
  }

  ghost function PrimesBelow(n: nat): nat {
    if n == 0 then 0 else PrimesBelow(n - 1) + (if IsPrime(n - 1) then 1 else 0)
  }

  /** p is the prime with t primes below it. */
  ghost predicate NthPrime(t: nat, p: nat) {
    IsPrime(p) && PrimesBelow(p) == t
  }

  /** What is left when the multiples of the primes up to 19 are struck out. */
  predicate Survives(n: nat) {
    && n >= 2
    && (n == 2 || n % 2 != 0) && (n == 3 || n % 3 != 0) && (n == 5 || n % 5 != 0) && (n == 7 || n % 7 != 0)
    && (n == 11 || n % 11 != 0) && (n == 13 || n % 13 != 0) && (n == 17 || n % 17 != 0) && (n == 19 || n % 19 != 0)
  }

  lemma Struck(n: nat, q: nat)
    requires q >= 2 && n % q == 0 && n != q && n > 0
    ensures !IsPrime(n)
  {
    assert Divides(q, n);
  }

  lemma DividesTwice(n: nat, d: nat, q: nat)
    requires q > 0 && d > 0 && n % d == 0 && d % q == 0
    ensures n % q == 0
  {
    var a, b := n / d, d / q;
    assert n == a * d && d == b * q;
    assert n == (a * b) * q;
    Multiple(a * b, q);
  }

  /** A proper divisor, or the quotient by it, is less than 23. */
  lemma SmallDivisor(n: nat, d: nat) returns (e: nat)
    requires n < 529 && 2 <= d < n && n % d == 0
    ensures 2 <= e < 23 && e < n && n % e == 0
  {
    var q := n / d;
    assert n == q * d;
    if d < 23 {
      e := d;
    } else {
      e := q;
      Spread(q, d);
      if q >= 23 {
        Larger(23, q, 23, d);
      }
      Multiple(d, q);
    }
  }

  const SMALL: set<nat> := {2, 3, 5, 7, 11, 13, 17, 19}

  lemma SmallFactor(e: nat) returns (q: nat)
    requires 2 <= e < 23
    ensures q in SMALL && q <= e && e % q == 0
  {
    q := if e % 2 == 0 then 2 else if e % 3 == 0 then 3 else if e % 5 == 0 then 5 else if e % 7 == 0 then 7 else e;
  }

  lemma SurvivesAt(n: nat, q: nat)
    requires Survives(n) && q in SMALL && n % q == 0
    ensures n == q
  {
  }

  lemma SurvivorIsPrime(n: nat)
    requires Survives(n) && n < 529
    ensures IsPrime(n)
  {
    forall d | 2 <= d < n
      ensures !Divides(d, n)
    {
      if Divides(d, n) {
        hide Survives;
        var e := SmallDivisor(n, d);
        var q := SmallFactor(e);
        DividesTwice(n, e, q);
        SurvivesAt(n, q);
      }
    }
  }

  lemma StruckIsComposite(n: nat)
    requires !Survives(n)
    ensures !IsPrime(n)
  {
    if n >= 2 {
      var q := if n != 2 && n % 2 == 0 then 2 else if n != 3 && n % 3 == 0 then 3 else if n != 5 && n % 5 == 0 then 5
        else if n != 7 && n % 7 == 0 then 7 else if n != 11 && n % 11 == 0 then 11
        else if n != 13 && n % 13 == 0 then 13 else if n != 17 && n % 17 == 0 then 17 else 19;
      Struck(n, q);
    }
  }

  predicate NoneBetween(p: nat, q: nat) {
    forall n :: p < n < q ==> !Survives(n)
  }

  lemma {:induction false} Counted(p: nat, q: nat)
    requires IsPrime(p) && p < q && NoneBetween(p, q)
    ensures PrimesBelow(q) == PrimesBelow(p) + 1
    decreases q
  {
    if q > p + 1 {
      Counted(p, q - 1);
      StruckIsComposite(q - 1);
    }
  }

  /** The odd numbers behind p, fewer than seven of them, are struck. */
  predicate Gap(p: nat, g: nat) {
    && (g > 2 ==> !Survives(p + 2)) && (g > 4 ==> !Survives(p + 4)) && (g > 6 ==> !Survives(p + 6))
    && (g > 8 ==> !Survives(p + 8)) && (g > 10 ==> !Survives(p + 10)) && (g > 12 ==> !Survives(p + 12))
  }

  lemma GapBetween(p: nat, g: nat)
    requires p > 2 && p % 2 == 1 && g <= 14 && Gap(p, g)
    ensures NoneBetween(p, p + g)
  {
    hide Survives;
    forall n | p < n < p + g
      ensures !Survives(n)
    {
      if n % 2 == 0 {
        EvenIsStruck(n);
      } else {
        assert n == p + 2 || n == p + 4 || n == p + 6 || n == p + 8 || n == p + 10 || n == p + 12;
      }
    }
  }

  lemma EvenIsStruck(n: nat)
    requires n > 2 && n % 2 == 0
    ensures !Survives(n)
  {
  }

  /** The prime behind p is p + g. */
  lemma Next(t: nat, p: nat, g: nat)
    requires NthPrime(t, p) && p > 2 && p % 2 == 1 && 0 < g <= 14 && p + g < 529 && Survives(p + g) && Gap(p, g)
    ensures NthPrime(t + 1, p + g)
  {
    GapBetween(p, g);
    SurvivorIsPrime(p + g);
    Counted(p, p + g);
  }

  lemma TwoAndThree()
    ensures NthPrime(0, 2) && NthPrime(1, 3)
  {
    assert PrimesBelow(1) == 0 && PrimesBelow(2) == 0;
    SurvivorIsPrime(3);
  }

  lemma {:induction false} PrimesBelowGrows(p: nat, q: nat)
    requires IsPrime(p) && p < q
    ensures PrimesBelow(p) < PrimesBelow(q)
    decreases q
  {
    if q > p + 1 {
      PrimesBelowGrows(p, q - 1);
    }
  }

  /** There is one such prime at most. */
  lemma OneNthPrime(t: nat, p: nat, q: nat)
    requires NthPrime(t, p) && NthPrime(t, q)
    ensures p == q
  {
    if p < q {
      PrimesBelowGrows(p, q);
    } else if q < p {
      PrimesBelowGrows(q, p);
    }
  }

  // ----- the first eighty primes, in rows of eight

  const ROW_0: seq<nat> := [2, 3, 5, 7, 11, 13, 17, 19]
  const ROW_1: seq<nat> := [23, 29, 31, 37, 41, 43, 47, 53]
  const ROW_2: seq<nat> := [59, 61, 67, 71, 73, 79, 83, 89]
  const ROW_3: seq<nat> := [97, 101, 103, 107, 109, 113, 127, 131]
  const ROW_4: seq<nat> := [137, 139, 149, 151, 157, 163, 167, 173]
  const ROW_5: seq<nat> := [179, 181, 191, 193, 197, 199, 211, 223]
  const ROW_6: seq<nat> := [227, 229, 233, 239, 241, 251, 257, 263]
  const ROW_7: seq<nat> := [269, 271, 277, 281, 283, 293, 307, 311]
  const ROW_8: seq<nat> := [313, 317, 331, 337, 347, 349, 353, 359]
  const ROW_9: seq<nat> := [367, 373, 379, 383, 389, 397, 401, 409]

  function PrimeRow(r: nat): (row: seq<nat>)
    requires r < 10
    ensures |row| == 8
  {
    match r
    case 0 => ROW_0
    case 1 => ROW_1
    case 2 => ROW_2
    case 3 => ROW_3
    case 4 => ROW_4
    case 5 => ROW_5
    case 6 => ROW_6
    case 7 => ROW_7
    case 8 => ROW_8
    case _ => ROW_9
  }

  ghost predicate IsRow(from: nat, row: seq<nat>) {
    |row| == 8 && forall i :: 0 <= i < 8 ==> NthPrime(from + i, row[i])
  }

  lemma Row0()
    ensures IsRow(0, ROW_0) && NthPrime(8, 23)
  {
    hide NthPrime;
    TwoAndThree();
    Next(1, 3, 2);
    Next(2, 5, 2);
    Next(3, 7, 4);
    Next(4, 11, 2);
    Next(5, 13, 4);
    Next(6, 17, 2);
    Next(7, 19, 4);
  }

  lemma Row1()
    ensures IsRow(8, ROW_1) && NthPrime(16, 59)
  {
    hide NthPrime;
    Row0();
    Next(8, 23, 6);
    Next(9, 29, 2);
    Next(10, 31, 6);
    Next(11, 37, 4);
    Next(12, 41, 2);
    Next(13, 43, 4);
    Next(14, 47, 6);
    Next(15, 53, 6);
  }

  lemma Row2()
    ensures IsRow(16, ROW_2) && NthPrime(24, 97)
  {
    hide NthPrime;
    Row1();
    Next(16, 59, 2);
    Next(17, 61, 6);
    Next(18, 67, 4);
    Next(19, 71, 2);
    Next(20, 73, 6);
    Next(21, 79, 4);
    Next(22, 83, 6);
    Next(23, 89, 8);
  }

  lemma Row3()
    ensures IsRow(24, ROW_3) && NthPrime(32, 137)
  {
    hide NthPrime;
    Row2();
    Next(24, 97, 4);
    Next(25, 101, 2);
    Next(26, 103, 4);
    Next(27, 107, 2);
    Next(28, 109, 4);
    Next(29, 113, 14);
    Next(30, 127, 4);
    Next(31, 131, 6);
  }

  lemma Row4()
    ensures IsRow(32, ROW_4) && NthPrime(40, 179)
  {
    hide NthPrime;
    Row3();
    Next(32, 137, 2);
    Next(33, 139, 10);
    Next(34, 149, 2);
    Next(35, 151, 6);
    Next(36, 157, 6);
    Next(37, 163, 4);
    Next(38, 167, 6);
    Next(39, 173, 6);
  }

  lemma Row5()
    ensures IsRow(40, ROW_5) && NthPrime(48, 227)
  {
    hide NthPrime;
    Row4();
    Next(40, 179, 2);
    Next(41, 181, 10);
    Next(42, 191, 2);
    Next(43, 193, 4);
    Next(44, 197, 2);
    Next(45, 199, 12);
    Next(46, 211, 12);
    Next(47, 223, 4);
  }

  lemma Row6()
    ensures IsRow(48, ROW_6) && NthPrime(56, 269)
  {
    hide NthPrime;
    Row5();
    Next(48, 227, 2);
    Next(49, 229, 4);
    Next(50, 233, 6);
    Next(51, 239, 2);
    Next(52, 241, 10);
    Next(53, 251, 6);
    Next(54, 257, 6);
    Next(55, 263, 6);
  }

  lemma Row7()
    ensures IsRow(56, ROW_7) && NthPrime(64, 313)
  {
    hide NthPrime;
    Row6();
    Next(56, 269, 2);
    Next(57, 271, 6);
    Next(58, 277, 4);
    Next(59, 281, 2);
    Next(60, 283, 10);
    Next(61, 293, 14);
    Next(62, 307, 4);
    Next(63, 311, 2);
  }

  lemma Row8()
    ensures IsRow(64, ROW_8) && NthPrime(72, 367)
  {
    hide NthPrime;
    Row7();
    Next(64, 313, 4);
    Next(65, 317, 14);
    Next(66, 331, 6);
    Next(67, 337, 10);
    Next(68, 347, 2);
    Next(69, 349, 4);
    Next(70, 353, 6);
    Next(71, 359, 8);
  }

  lemma Row9()
    ensures IsRow(72, ROW_9) && NthPrime(80, 419)
  {
    hide NthPrime;
    Row8();
    Next(72, 367, 6);
    Next(73, 373, 6);
    Next(74, 379, 4);
    Next(75, 383, 6);
    Next(76, 389, 8);
    Next(77, 397, 4);
    Next(78, 401, 8);
    Next(79, 409, 10);
  }

  lemma Rows(r: nat)
    requires r < 10
    ensures IsRow(8 * r, PrimeRow(r))
  {
    hide IsRow;
    match r
    case 0 => Row0();
    case 1 => Row1();
    case 2 => Row2();
    case 3 => Row3();
    case 4 => Row4();
    case 5 => Row5();
    case 6 => Row6();
    case 7 => Row7();
    case 8 => Row8();
    case _ => Row9();
  }
}
