/**
 What a CRC register holds, said without the register: the remainder of a division of
 polynomials over bits.  A polynomial is the set of its exponents.
 */
module CrcPolynomials {
  import opened CrcTheory

  type Poly = set<nat>

  function Plus(a: Poly, b: Poly): Poly {
    (a - b) + (b - a)
  }

  /** p times x to the power k. */
  function Raise(p: Poly, k: nat): Poly {
    set e | e in p :: e + k
  }

  /** The exponents of a whose partner in b makes up k. */
  function Pairs(a: Poly, b: Poly, k: nat): set<nat> {
    set i | i in a && i <= k && k - i in b
  }

  function Sums(a: Poly, b: Poly): set<nat> {
    set i, j | i in a && j in b :: i + j
  }

  /** The product: an exponent is there if it comes about in an odd number of ways. */
  function Times(a: Poly, b: Poly): Poly {
    set k | k in Sums(a, b) && |Pairs(a, b, k)| % 2 == 1
  }

  lemma TimesHas(a: Poly, b: Poly, k: nat)
    ensures k in Times(a, b) <==> |Pairs(a, b, k)| % 2 == 1
  {
    if |Pairs(a, b, k)| % 2 == 1 {
      assert Pairs(a, b, k) != {};
      var i :| i in Pairs(a, b, k);
      assert i in a && k - i in b && k == i + (k - i);
    }
  }

  lemma PlusSize(a: set<nat>, b: set<nat>)
    ensures |Plus(a, b)| % 2 == (|a| + |b|) % 2
  {
    assert a == (a - b) + (a * b) && b == (b - a) + (a * b);
    assert |a| == |a - b| + |a * b| && |b| == |b - a| + |a * b|;
    assert |Plus(a, b)| == |a - b| + |b - a|;
  }

  lemma TimesPlusHas(a: Poly, b: Poly, g: Poly, k: nat)
    ensures k in Times(Plus(a, b), g) <==> (k in Times(a, g)) != (k in Times(b, g))
  {
    hide Times, Pairs, Plus;
    TimesHas(a, g, k);
    TimesHas(b, g, k);
    TimesHas(Plus(a, b), g, k);
    PairsPlus(a, b, g, k);
    PlusSize(Pairs(a, g, k), Pairs(b, g, k));
  }

  lemma TimesPlus(a: Poly, b: Poly, g: Poly)
    ensures Times(Plus(a, b), g) == Plus(Times(a, g), Times(b, g))
  {
    hide Times;
    forall k: nat
      ensures k in Times(Plus(a, b), g) <==> k in Plus(Times(a, g), Times(b, g))
    {
      TimesPlusHas(a, b, g, k);
    }
  }

  lemma PairsPlus(a: Poly, b: Poly, g: Poly, k: nat)
    ensures Pairs(Plus(a, b), g, k) == Plus(Pairs(a, g, k), Pairs(b, g, k))
  {
  }

  lemma TimesMonomial(k: nat, g: Poly)
    ensures Times({k}, g) == Raise(g, k)
  {
    forall e: nat
      ensures e in Times({k}, g) <==> e in Raise(g, k)
    {
      TimesHas({k}, g, e);
      if e >= k && e - k in g {
        assert Pairs({k}, g, e) == {k};
        assert e == (e - k) + k;
      } else {
        assert Pairs({k}, g, e) == {};
      }
    }
  }

  lemma TimesNothing(g: Poly)
    ensures Times({}, g) == {}
  {
  }

  // ----- division

  predicate Below(p: Poly, n: nat) {
    forall e :: e in p ==> e < n
  }

  /** g has degree n. */
  predicate HasDegree(g: Poly, n: nat) {
    n in g && Below(g, n + 1)
  }

  /** r is what is left when a is divided by g of degree n. */
  ghost predicate IsRemainder(a: Poly, g: Poly, n: nat, r: Poly) {
    Below(r, n) && exists q :: a == Plus(Times(q, g), r)
  }

  lemma {:induction false} Greatest(q: Poly) returns (m: nat)
    requires q != {}
    ensures m in q && Below(q, m + 1)
    decreases |q|
  {
    m :| m in q;
    var rest := q - {m};
    if rest != {} {
      var f := Greatest(rest);
      assert forall e :: e in q ==> e == m || e in rest;
      m := if m > f then m else f;
    } else {
      assert forall e :: e in q ==> e == m || e in rest;
    }
  }

  /** A product with g is nothing or has at least the degree of g. */
  lemma TimesDegree(q: Poly, g: Poly, n: nat)
    requires HasDegree(g, n) && q != {}
    ensures !Below(Times(q, g), n)
  {
    var m := Greatest(q);
    TimesHas(q, g, m + n);
    assert Pairs(q, g, m + n) == {m};
    assert m + n in Times(q, g);
  }

  /** There is one remainder. */
  lemma OneRemainder(a: Poly, g: Poly, n: nat, r: Poly, s: Poly)
    requires HasDegree(g, n) && IsRemainder(a, g, n, r) && IsRemainder(a, g, n, s)
    ensures r == s
  {
    hide Times;
    var q :| a == Plus(Times(q, g), r);
    var t :| a == Plus(Times(t, g), s);
    TimesPlus(q, t, g);
    Cancelled(a, Times(q, g), Times(t, g), r, s);
    if Plus(q, t) != {} {
      TimesDegree(Plus(q, t), g, n);
    } else {
      TimesNothing(g);
      PlusNothing(r, s);
    }
  }

  lemma Cancelled(a: Poly, x: Poly, y: Poly, r: Poly, s: Poly)
    requires a == Plus(x, r) && a == Plus(y, s)
    ensures Plus(x, y) == Plus(r, s)
    ensures forall n: nat :: Below(r, n) && Below(s, n) ==> Below(Plus(x, y), n)
  {
    forall e: nat
      ensures e in Plus(x, y) <==> e in Plus(r, s)
    {
      assert e in Plus(x, r) <==> e in Plus(y, s);
    }
  }

  lemma PlusNothing(a: Poly, b: Poly)
    requires Plus(a, b) == {}
    ensures a == b
  {
    assert forall e :: e in a && e !in b ==> e in Plus(a, b);
    assert forall e :: e in b && e !in a ==> e in Plus(a, b);
  }

  // ----- bits, most significant first, as a polynomial

  function PolyOf(bits: seq<bool>): Poly {
    set i | 0 <= i < |bits| && bits[i] :: |bits| - 1 - i
  }

  lemma PolyHas(bits: seq<bool>, e: nat)
    ensures e in PolyOf(bits) <==> e < |bits| && bits[|bits| - 1 - e]
  {
    if e < |bits| {
      assert |bits| - 1 - (|bits| - 1 - e) == e;
    }
  }

  /** A word is determined by its length and its polynomial. */
  lemma PolyInjective(a: seq<bool>, b: seq<bool>)
    requires |a| == |b| && PolyOf(a) == PolyOf(b)
    ensures a == b
  {
    forall i | 0 <= i < |a|
      ensures a[i] == b[i]
    {
      PolyHas(a, |a| - 1 - i);
      PolyHas(b, |a| - 1 - i);
    }
  }

  lemma PolyBelow(bits: seq<bool>)
    ensures Below(PolyOf(bits), |bits|)
  {
  }

  /** The polynomial that the register divides by: the bits of poly and one more on top. */
  function Generator(poly: seq<bool>): Poly {
    PolyOf([true] + poly)
  }

  lemma GeneratorDegree(poly: seq<bool>)
    ensures HasDegree(Generator(poly), |poly|)
  {
    PolyHas([true] + poly, |poly|);
    PolyBelow([true] + poly);
  }

  /** One shift takes x times the register modulo the generator. */
  lemma StepDivides(u: seq<bool>, poly: seq<bool>)
    requires |u| == |poly| > 0
    ensures Raise(PolyOf(u), 1) == Plus(if u[0] then Generator(poly) else {}, PolyOf(Step(u, poly)))
  {
    var s, n := Step(u, poly), |u|;
    forall e: nat
      ensures e in Raise(PolyOf(u), 1) <==> e in Plus(if u[0] then Generator(poly) else {}, PolyOf(s))
    {
      PolyHas(s, e);
      PolyHas([true] + poly, e);
      if e > 0 {
        PolyHas(u, e - 1);
        assert e == (e - 1) + 1;
      }
    }
  }

  lemma RaiseHas(p: Poly, k: nat, e: nat)
    ensures e in Raise(p, k) <==> e >= k && e - k in p
  {
    if e >= k && e - k in p {
      assert e == (e - k) + k;
    }
  }

  lemma RaisePlus(a: Poly, b: Poly, k: nat)
    ensures Raise(Plus(a, b), k) == Plus(Raise(a, k), Raise(b, k))
  {
    forall e: nat
      ensures e in Raise(Plus(a, b), k) <==> e in Plus(Raise(a, k), Raise(b, k))
    {
      RaiseHas(Plus(a, b), k, e);
      RaiseHas(a, k, e);
      RaiseHas(b, k, e);
    }
  }

  lemma RaiseTwice(p: Poly, j: nat, k: nat)
    ensures Raise(Raise(p, j), k) == Raise(p, j + k)
  {
    forall e: nat
      ensures e in Raise(Raise(p, j), k) <==> e in Raise(p, j + k)
    {
      RaiseHas(Raise(p, j), k, e);
      RaiseHas(p, j + k, e);
      if e >= k {
        RaiseHas(p, j, e - k);
      }
    }
  }

  /** What a register r and a message that is fed to it stand for together. */
  function Dividend(r: seq<bool>, message: seq<bool>): Poly {
    Plus(Raise(PolyOf(r), |message|), Raise(PolyOf(message), |r|))
  }

  /** Feeding the first bit adds it to the top of the register and multiplies by x. */
  lemma DividendStep(r: seq<bool>, m: seq<bool>, u: seq<bool>)
    requires |r| > 0 && m != [] && u == [r[0] != m[0]] + r[1..]
    ensures Dividend(r, m) == Plus(Raise(Raise(PolyOf(u), 1), |m| - 1), Raise(PolyOf(m[1..]), |r|))
  {
    var k, n, rest := |m| - 1, |r|, m[1..];
    RaiseTwice(PolyOf(u), 1, k);
    forall e: nat
      ensures e in Dividend(r, m) <==> e in Plus(Raise(PolyOf(u), k + 1), Raise(PolyOf(rest), n))
    {
      RaiseHas(PolyOf(r), k + 1, e);
      RaiseHas(PolyOf(m), n, e);
      RaiseHas(PolyOf(u), k + 1, e);
      RaiseHas(PolyOf(rest), n, e);
      if e >= k + 1 {
        PolyHas(r, e - (k + 1));
        PolyHas(u, e - (k + 1));
      }
      if e >= n {
        PolyHas(m, e - n);
        PolyHas(rest, e - n);
      }
    }
  }

  lemma Regroup(a: Poly, b: Poly, c: Poly, d: Poly)
    requires Plus(b, c) == d
    ensures Plus(Plus(a, b), c) == Plus(a, d)
  {
  }

  lemma RegroupRight(a: Poly, b: Poly, c: Poly)
    ensures Plus(a, Plus(b, c)) == Plus(Plus(a, b), c)
  {
  }

  /** The register after a message is the remainder of the dividend. */
  lemma {:induction false} FeedDivides(r: seq<bool>, m: seq<bool>, poly: seq<bool>) returns (q: Poly)
    requires |r| == |poly| > 0
    ensures Dividend(r, m) == Plus(Times(q, Generator(poly)), PolyOf(Feed(r, m, poly)))
    decreases |m|
  {
    hide Times, Generator, Step, PolyOf, Raise, Plus;
    var g := Generator(poly);
    if m == [] {
      q := {};
      TimesNothing(g);
      NothingFed(r);
    } else {
      var u, k := [r[0] != m[0]] + r[1..], |m| - 1;
      var s := Step(u, poly);
      var rest := FeedDivides(s, m[1..], poly);
      var top: Poly := if u[0] then {k} else {};
      q := Plus(top, rest);
      TimesPlus(top, rest, g);
      TopTimes(u[0], k, g);
      DividendStep(r, m, u);
      StepDivides(u, poly);
      var lead := if u[0] then g else {};
      RaisePlus(lead, PolyOf(s), k);
      Regroup(Raise(lead, k), Raise(PolyOf(s), k), Raise(PolyOf(m[1..]), |r|), Dividend(s, m[1..]));
      RegroupRight(Raise(lead, k), Times(rest, g), PolyOf(Feed(r, m, poly)));
    }
  }

  lemma TopTimes(b: bool, k: nat, g: Poly)
    ensures Times(if b then {k} else {}, g) == Raise(if b then g else {}, k)
  {
    hide Times;
    TimesMonomial(k, g);
    TimesNothing(g);
  }

  lemma NothingFed(r: seq<bool>)
    ensures Dividend(r, []) == Plus({}, PolyOf(r))
  {
    forall e: nat
      ensures e in Dividend(r, []) <==> e in PolyOf(r)
    {
      RaiseHas(PolyOf(r), 0, e);
      RaiseHas(PolyOf([]), |r|, e);
    }
  }

  /** A register holds the remainder of the division, and nothing else does. */
  lemma FeedIsRemainder(r: seq<bool>, m: seq<bool>, poly: seq<bool>, w: seq<bool>)
    requires |r| == |poly| == |w| > 0
    ensures w == Feed(r, m, poly) <==> IsRemainder(Dividend(r, m), Generator(poly), |poly|, PolyOf(w))
  {
    hide Times, Feed, Dividend, Generator, PolyOf, HasDegree, Below;
    var f := Feed(r, m, poly);
    var q := FeedDivides(r, m, poly);
    PolyBelow(f);
    GeneratorDegree(poly);
    assert IsRemainder(Dividend(r, m), Generator(poly), |poly|, PolyOf(f));
    if IsRemainder(Dividend(r, m), Generator(poly), |poly|, PolyOf(w)) {
      OneRemainder(Dividend(r, m), Generator(poly), |poly|, PolyOf(f), PolyOf(w));
      PolyInjective(f, w);
    }
  }
}
