/**
 Cyclic redundancy checks on shift registers of any width.  A register is its bits, most
 significant first; a message is a sequence of bits.  The routines of crc16.c, crc.c and
 CheckSumUtils.c are proved against these definitions in Crc.
 */
module CrcTheory {

  function Zeros(n: nat): (r: seq<bool>)
    ensures |r| == n && forall i :: 0 <= i < n ==> !r[i]
  {
    seq(n, _ => false)
  }

  function Xor(a: seq<bool>, b: seq<bool>): (r: seq<bool>)
    requires |a| == |b|
    ensures |r| == |a| && forall i :: 0 <= i < |a| ==> r[i] == (a[i] != b[i])
  {
    seq(|a|, i requires 0 <= i < |a| => a[i] != b[i])
  }

  function Shifted(r: seq<bool>): (s: seq<bool>)
    requires |r| > 0
    ensures |s| == |r|
  {
    r[1..] + [false]
  }

  /** One shift of the register: the bit that falls out decides whether the polynomial
      is subtracted. */
  function Step(r: seq<bool>, poly: seq<bool>): (s: seq<bool>)
    requires |r| == |poly| > 0
    ensures |s| == |r|
  {
    if r[0] then Xor(Shifted(r), poly) else Shifted(r)
  }

  function Steps(r: seq<bool>, k: nat, poly: seq<bool>): (s: seq<bool>)
    requires |r| == |poly| > 0
    ensures |s| == |r|
    decreases k
  {
    if k == 0 then r else Steps(Step(r, poly), k - 1, poly)
  }

  /** The CRC register after a message whose bits are added at the top. */
  function Feed(r: seq<bool>, bits: seq<bool>, poly: seq<bool>): (s: seq<bool>)
    requires |r| == |poly| > 0
    ensures |s| == |r|
    decreases |bits|
  {
    if bits == [] then r else Feed(Step([r[0] != bits[0]] + r[1..], poly), bits[1..], poly)
  }

  /** The register after a message whose bits are shifted in at the bottom. */
  function ShiftIn(r: seq<bool>, bits: seq<bool>, poly: seq<bool>): (s: seq<bool>)
    requires |r| == |poly| > 0
    ensures |s| == |r|
    decreases |bits|
  {
    if bits == [] then r else ShiftIn(Xor(Step(r, poly), Zeros(|r| - 1) + [bits[0]]), bits[1..], poly)
  }

  // ----- the register is linear, and reversible when the polynomial is odd

  lemma StepLinear(a: seq<bool>, b: seq<bool>, poly: seq<bool>)
    requires |a| == |b| == |poly| > 0
    ensures Step(Xor(a, b), poly) == Xor(Step(a, poly), Step(b, poly))
  {
  }

  lemma {:induction false} StepsLinear(a: seq<bool>, b: seq<bool>, k: nat, poly: seq<bool>)
    requires |a| == |b| == |poly| > 0
    ensures Steps(Xor(a, b), k, poly) == Xor(Steps(a, k, poly), Steps(b, k, poly))
    decreases k
  {
    if k > 0 {
      StepLinear(a, b, poly);
      StepsLinear(Step(a, poly), Step(b, poly), k - 1, poly);
    }
  }

  lemma StepInjective(a: seq<bool>, b: seq<bool>, poly: seq<bool>)
    requires |a| == |b| == |poly| > 0 && poly[|poly| - 1] && Step(a, poly) == Step(b, poly)
    ensures a == b
  {
    var n := |a|;
    assert Step(a, poly)[n - 1] == a[0] && Step(b, poly)[n - 1] == b[0];
    forall i | 1 <= i < n ensures a[i] == b[i] {
      assert Step(a, poly)[i - 1] == Step(b, poly)[i - 1];
    }
  }

  lemma {:induction false} StepsInjective(a: seq<bool>, b: seq<bool>, k: nat, poly: seq<bool>)
    requires |a| == |b| == |poly| > 0 && poly[|poly| - 1] && Steps(a, k, poly) == Steps(b, k, poly)
    ensures a == b
    decreases k
  {
    hide Step;
    if k > 0 {
      var x, y := Step(a, poly), Step(b, poly);
      StepsInjective(x, y, k - 1, poly);
      StepInjective(a, b, poly);
    }
  }

  lemma {:induction false} StepsMore(r: seq<bool>, k: nat, poly: seq<bool>)
    requires |r| == |poly| > 0
    ensures Steps(r, k + 1, poly) == Step(Steps(r, k, poly), poly)
    decreases k
  {
    if k > 0 { StepsMore(Step(r, poly), k - 1, poly); }
  }

  lemma {:induction false} FeedConcat(r: seq<bool>, a: seq<bool>, b: seq<bool>, poly: seq<bool>)
    requires |r| == |poly| > 0
    ensures Feed(r, a + b, poly) == Feed(Feed(r, a, poly), b, poly)
    decreases |a|
  {
    if a == [] {
      assert a + b == b;
    } else {
      assert (a + b)[1..] == a[1..] + b;
      FeedConcat(Step([r[0] != a[0]] + r[1..], poly), a[1..], b, poly);
    }
  }

  lemma FeedSnoc(r: seq<bool>, a: seq<bool>, bit: bool, poly: seq<bool>)
    requires |r| == |poly| > 0
    ensures var s := Feed(r, a, poly); Feed(r, a + [bit], poly) == Step([s[0] != bit] + s[1..], poly)
  {
    hide Step;
    FeedConcat(r, a, [bit], poly);
    assert [bit][1..] == [];
  }

  lemma FeedPrefix(r: seq<bool>, bits: seq<bool>, i: nat, poly: seq<bool>)
    requires |r| == |poly| > 0 && i < |bits|
    ensures var s := Feed(r, bits[..i], poly); Feed(r, bits[..i + 1], poly) == Step([s[0] != bits[i]] + s[1..], poly)
  {
    hide Feed, Step;
    FeedSnoc(r, bits[..i], bits[i], poly);
    assert bits[..i + 1] == bits[..i] + [bits[i]];
  }

  lemma {:induction false} ShiftInConcat(r: seq<bool>, a: seq<bool>, b: seq<bool>, poly: seq<bool>)
    requires |r| == |poly| > 0
    ensures ShiftIn(r, a + b, poly) == ShiftIn(ShiftIn(r, a, poly), b, poly)
    decreases |a|
  {
    if a == [] {
      assert a + b == b;
    } else {
      assert (a + b)[1..] == a[1..] + b;
      ShiftInConcat(Xor(Step(r, poly), Zeros(|r| - 1) + [a[0]]), a[1..], b, poly);
    }
  }

  // ----- as many bits as the register is wide can be added all at once

  /** A register with a word added at its top. */
  function Add(r: seq<bool>, w: seq<bool>): (s: seq<bool>)
    requires |w| <= |r|
    ensures |s| == |r|
  {
    Xor(r, w + Zeros(|r| - |w|))
  }

  lemma AddThenStep(r: seq<bool>, w: seq<bool>, poly: seq<bool>)
    requires |r| == |poly| > 0 && 0 < |w| <= |r|
    ensures Add(Step([r[0] != w[0]] + r[1..], poly), w[1..]) == Step(Add(r, w), poly)
  {
    var n := |r|;
    assert Add(r, w)[0] == (r[0] != w[0]);
    forall i | 0 <= i < n
      ensures Add(Step([r[0] != w[0]] + r[1..], poly), w[1..])[i] == Step(Add(r, w), poly)[i]
    {
    }
  }

  lemma {:induction false} FeedIsSteps(r: seq<bool>, w: seq<bool>, poly: seq<bool>)
    requires |r| == |poly| > 0 && |w| <= |r|
    ensures Feed(r, w, poly) == Steps(Add(r, w), |w|, poly)
    decreases |w|
  {
    if w == [] {
      assert Add(r, w) == r;
    } else {
      FeedIsSteps(Step([r[0] != w[0]] + r[1..], poly), w[1..], poly);
      AddThenStep(r, w, poly);
    }
  }

  lemma AddInjective(r: seq<bool>, v: seq<bool>, w: seq<bool>)
    requires |v| == |w| <= |r| && Add(r, v) == Add(r, w)
    ensures v == w
  {
    forall i | 0 <= i < |v| ensures v[i] == w[i] {
      assert Add(r, v)[i] == Add(r, w)[i];
    }
  }

  lemma MiddleDetected(s: seq<bool>, v: seq<bool>, w: seq<bool>, b: seq<bool>, poly: seq<bool>)
    requires |s| == |poly| > 0 && poly[|poly| - 1] && |v| == |w| <= |s| && v != w
    ensures Feed(Feed(s, v, poly), b, poly) != Feed(Feed(s, w, poly), b, poly)
  {
    if Feed(Feed(s, v, poly), b, poly) == Feed(Feed(s, w, poly), b, poly) {
      FeedInjective(Feed(s, v, poly), Feed(s, w, poly), b, poly);
      WordDetected(s, v, w, poly);
    }
  }

  lemma WordDetected(r: seq<bool>, v: seq<bool>, w: seq<bool>, poly: seq<bool>)
    requires |r| == |poly| > 0 && poly[|poly| - 1] && |v| == |w| <= |r|
    requires Feed(r, v, poly) == Feed(r, w, poly)
    ensures v == w
  {
    FeedIsSteps(r, v, poly);
    FeedIsSteps(r, w, poly);
    StepsInjective(Add(r, v), Add(r, w), |v|, poly);
    AddInjective(r, v, w);
  }

  lemma FeedParts(r: seq<bool>, m: seq<bool>, a: seq<bool>, v: seq<bool>, b: seq<bool>, poly: seq<bool>)
    requires |r| == |poly| > 0 && m == a + v + b
    ensures Feed(r, m, poly) == Feed(Feed(Feed(r, a, poly), v, poly), b, poly)
  {
    FeedConcat(r, a + v, b, poly);
    FeedConcat(r, a, v, poly);
  }

  /** Two messages of one length that differ, and only within a stretch no longer than
      the register, leave different registers: a CRC detects every such burst. */
  lemma BurstDetected(r: seq<bool>, m: seq<bool>, n: seq<bool>,
                      a: seq<bool>, v: seq<bool>, w: seq<bool>, b: seq<bool>, poly: seq<bool>)
    requires |r| == |poly| > 0 && poly[|poly| - 1]
    requires m == a + v + b && n == a + w + b && |v| == |w| <= |r| && v != w
    ensures Feed(r, m, poly) != Feed(r, n, poly)
  {
    FeedParts(r, m, a, v, b, poly);
    FeedParts(r, n, a, w, b, poly);
    MiddleDetected(Feed(r, a, poly), v, w, b, poly);
  }

  lemma {:induction false} FeedInjective(a: seq<bool>, b: seq<bool>, bits: seq<bool>, poly: seq<bool>)
    requires |a| == |b| == |poly| > 0 && poly[|poly| - 1] && Feed(a, bits, poly) == Feed(b, bits, poly)
    ensures a == b
    decreases |bits|
  {
    if bits != [] {
      var x := [a[0] != bits[0]] + a[1..];
      var y := [b[0] != bits[0]] + b[1..];
      FeedInjective(Step(x, poly), Step(y, poly), bits[1..], poly);
      StepInjective(x, y, poly);
      assert a[1..] == x[1..] == y[1..] == b[1..] && x[0] == y[0];
      assert a == [a[0]] + a[1..] && b == [b[0]] + b[1..];
    }
  }

  // ----- shifting in at the bottom, then as many zeros as the register is wide

  /** A lone bit walks up the register undisturbed until it falls out. */
  lemma {:induction false} LoneBit(n: nat, k: nat, bit: bool, poly: seq<bool>)
    requires |poly| == n > k
    ensures Steps(Zeros(n - 1) + [bit], k, poly) == Zeros(n - 1 - k) + [bit] + Zeros(k)
  {
    if k > 0 {
      LoneBit(n, k - 1, bit, poly);
      StepsMore(Zeros(n - 1) + [bit], k - 1, poly);
      var r := Zeros(n - k) + [bit] + Zeros(k - 1);
      assert !r[0];
      assert Zeros(n - 1 - (k - 1)) + [bit] + Zeros(k - 1) == r;
      assert Step(r, poly) == Shifted(r) == Zeros(n - 1 - k) + [bit] + Zeros(k);
    } else {
      assert Zeros(n - 1) + [bit] + Zeros(0) == Zeros(n - 1) + [bit];
    }
  }

  lemma FeedOne(s: seq<bool>, bit: bool, poly: seq<bool>)
    requires |s| == |poly| > 0
    ensures Feed(s, [bit], poly) == Xor(Step(s, poly), Step([bit] + Zeros(|s| - 1), poly))
  {
    var top := [bit] + Zeros(|s| - 1);
    assert [s[0] != bit] + s[1..] == Xor(s, top);
    assert [bit][1..] == [];
    assert Feed(s, [bit], poly) == Step(Xor(s, top), poly);
    StepLinear(s, top, poly);
  }

  lemma LoneBitOut(n: nat, bit: bool, poly: seq<bool>)
    requires |poly| == n > 0
    ensures Steps(Zeros(n - 1) + [bit], n, poly) == Step([bit] + Zeros(n - 1), poly)
  {
    LoneBit(n, n - 1, bit, poly);
    assert Zeros(0) + [bit] + Zeros(n - 1) == [bit] + Zeros(n - 1);
    StepsMore(Zeros(n - 1) + [bit], n - 1, poly);
  }

  lemma OneBit(c: seq<bool>, bit: bool, poly: seq<bool>)
    requires |c| == |poly| > 0
    ensures Feed(Steps(c, |c|, poly), [bit], poly) == Steps(Xor(Step(c, poly), Zeros(|c| - 1) + [bit]), |c|, poly)
  {
    FeedOne(Steps(c, |c|, poly), bit, poly);
    StepsLinear(Step(c, poly), Zeros(|c| - 1) + [bit], |c|, poly);
    LoneBitOut(|c|, bit, poly);
    StepsMore(c, |c|, poly);
  }

  lemma {:induction false} ShiftInIsFeed(c: seq<bool>, bits: seq<bool>, poly: seq<bool>)
    requires |c| == |poly| > 0
    ensures Steps(ShiftIn(c, bits, poly), |c|, poly) == Feed(Steps(c, |c|, poly), bits, poly)
    decreases |bits|
  {
    if bits != [] {
      var d := Xor(Step(c, poly), Zeros(|c| - 1) + [bits[0]]);
      ShiftInIsFeed(d, bits[1..], poly);
      OneBit(c, bits[0], poly);
      FeedConcat(Steps(c, |c|, poly), [bits[0]], bits[1..], poly);
      assert [bits[0]] + bits[1..] == bits;
    }
  }

  lemma {:induction false} ShiftInZeros(c: seq<bool>, k: nat, poly: seq<bool>)
    requires |c| == |poly| > 0
    ensures ShiftIn(c, Zeros(k), poly) == Steps(c, k, poly)
    decreases k
  {
    if k > 0 {
      assert Zeros(k)[1..] == Zeros(k - 1);
      assert Xor(Step(c, poly), Zeros(|c| - 1) + [Zeros(k)[0]]) == Step(c, poly);
      ShiftInZeros(Step(c, poly), k - 1, poly);
    }
  }

  lemma {:induction false} ZeroStays(n: nat, k: nat, poly: seq<bool>)
    requires |poly| == n > 0
    ensures Steps(Zeros(n), k, poly) == Zeros(n)
  {
    if k > 0 {
      assert Step(Zeros(n), poly) == Zeros(n);
      ZeroStays(n, k - 1, poly);
    }
  }

  /** From a zero register, shifting a message in at the bottom and then one register
      width of zeros computes the CRC of the message. */
  lemma ShiftInComputesCrc(bits: seq<bool>, poly: seq<bool>)
    requires |poly| > 0
    ensures ShiftIn(Zeros(|poly|), bits + Zeros(|poly|), poly) == Feed(Zeros(|poly|), bits, poly)
  {
    var n := |poly|;
    ShiftInConcat(Zeros(n), bits, Zeros(n), poly);
    ShiftInZeros(ShiftIn(Zeros(n), bits, poly), n, poly);
    ShiftInIsFeed(Zeros(n), bits, poly);
    ZeroStays(n, n, poly);
  }
}
