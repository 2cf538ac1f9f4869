/**
 Which texts parse_number of utility/cjson/cJSON.c reads as numbers, and what number each of
 them is: sign, digits, decimal point and exponent, as the C standard lays them down for
 strtod and section 6 of RFC 8259 for JSON.
 */
module JsonNumbers {
  import opened JsonText
  import opened JsonGrammar
  import opened JsonRoundTrip

  // ----- digits

  predicate AllDecimal(t: string) {
    forall i :: 0 <= i < |t| ==> '0' <= t[i] <= '9'
  }

  /** The number that decimal digits spell. */
  function Numeral(t: string): nat
    requires AllDecimal(t)
  {
    if t == "" then 0
    else
      var d := t[|t| - 1];
      10 * Numeral(t[..|t| - 1])
      + (if d == '1' then 1 else if d == '2' then 2 else if d == '3' then 3 else if d == '4' then 4 else if d == '5' then 5
         else if d == '6' then 6 else if d == '7' then 7 else if d == '8' then 8 else if d == '9' then 9 else 0)
  }

  // ----- numbers in parts

  datatype Shift = NoShift | Shift(letter: char, sign: string, digits: string)

  /** The parts of a number: an optional sign, digits, an optional point with digits, and an
      optional exponent of a letter, an optional sign and digits. */
  datatype Parts = Parts(sign: string, whole: string, point: bool, fraction: string, shift: Shift)

  predicate IsSign(t: string) {
    t == "" || t == "+" || t == "-"
  }

  predicate IsNumber(x: Parts) {
    && IsSign(x.sign) && AllDecimal(x.whole) && AllDecimal(x.fraction)
    && |x.whole| + |x.fraction| > 0
    && (!x.point ==> x.fraction == "")
    && IsShift(x.shift)
  }

  predicate IsShift(e: Shift) {
    e.Shift? ==> (e.letter == 'e' || e.letter == 'E') && IsSign(e.sign) && AllDecimal(e.digits) && e.digits != ""
  }

  function PointPart(x: Parts): string {
    if x.point then "." + x.fraction else ""
  }

  function ShiftPart(e: Shift): string {
    if e.NoShift? then "" else [e.letter] + (e.sign + e.digits)
  }

  function Spelled(x: Parts): string {
    x.sign + (x.whole + (PointPart(x) + ShiftPart(x.shift)))
  }

  function TenTo(k: int): real
    decreases if k < 0 then -k else k
  {
    if k == 0 then 1.0 else if k > 0 then 10.0 * TenTo(k - 1) else TenTo(k + 1) / 10.0
  }

  function ShiftOf(e: Shift): int
    requires IsShift(e)
  {
    if e.NoShift? then 0
    else
      var n: int := Numeral(e.digits);
      if e.sign == "-" then -n else n
  }

  /** The digits in front of and behind the point, moved by the exponent. */
  function ValueOf(x: Parts): real
    requires IsNumber(x)
  {
    var m := Numeral(x.whole + x.fraction) as real * TenTo(ShiftOf(x.shift) - |x.fraction|);
    if x.sign == "-" then -m else m
  }

  /** A letter, an optional sign and a digit. */
  predicate ExponentAt(t: string, q: nat) {
    q + 1 < |t| && (t[q] == 'e' || t[q] == 'E')
    && (IsDigit(t[q + 1]) || (q + 2 < |t| && (t[q + 1] == '+' || t[q + 1] == '-') && IsDigit(t[q + 2])))
  }

  /** The number x in t does not go on at q. */
  predicate Stops(x: Parts, t: string, q: nat) {
    && (q < |t| ==> !IsDigit(t[q]))
    && (x.shift.NoShift? && !x.point && q < |t| ==> t[q] != '.')
    && (x.shift.NoShift? ==> !ExponentAt(t, q))
  }

  // ----- reading the parts

  lemma {:induction false} CountIs(t: string, i: nat, digits: string)
    requires At(t, i, digits) && AllDecimal(digits) && (i + |digits| < |t| ==> !IsDigit(t[i + |digits|]))
    ensures i <= |t| && CountDigits(t, i) == |digits|
    decreases |digits|
  {
    if digits != "" {
      assert digits == digits[..1] + digits[1..];
      AtSplit(t, i, digits[..1], digits[1..]);
      AtChar(t, i, digits, 0);
      CountIs(t, i + 1, digits[1..]);
    }
  }

  lemma NumeralNext(w: string, c: char)
    requires AllDecimal(w) && IsDigit(c)
    ensures AllDecimal(w + [c]) && Numeral(w + [c]) == 10 * Numeral(w) + (c as int - '0' as int)
  {
    var t := w + [c];
    assert t[..|t| - 1] == w && t[|t| - 1] == c;
  }

  /** Digits behind the digits w. */
  lemma {:induction false} DigitsAre(t: string, i: nat, w: string, digits: string)
    requires At(t, i, digits) && AllDecimal(digits) && AllDecimal(w)
    requires forall k :: i <= k < i + |digits| ==> IsDigit(t[k])
    ensures AllDecimal(w + digits) && DigitsValue(t, i, |digits|, Numeral(w)) == Numeral(w + digits)
    decreases |digits|
  {
    hide Numeral;
    if digits == "" {
      assert w + digits == w;
    } else {
      var c, rest := digits[0], digits[1..];
      assert digits == digits[..1] + rest;
      AtSplit(t, i, digits[..1], rest);
      AtChar(t, i, digits, 0);
      NumeralNext(w, c);
      DigitsAre(t, i + 1, w + [c], rest);
      assert w + [c] + rest == w + digits;
    }
  }

  lemma {:induction false} ScaleIs(m: real, k: int)
    ensures Scale(m, k) == m * TenTo(k)
    decreases if k < 0 then -k else k
  {
    if k > 0 {
      ScaleIs(10.0 * m, k - 1);
    } else if k < 0 {
      ScaleIs(m / 10.0, k + 1);
      assert m / 10.0 * TenTo(k + 1) == m * (TenTo(k + 1) / 10.0);
    }
  }

  lemma NumberOf(t: string, i: nat, digits: string)
    requires At(t, i, digits) && AllDecimal(digits) && (i + |digits| < |t| ==> !IsDigit(t[i + |digits|]))
    ensures i <= |t| && CountDigits(t, i) == |digits| && DigitsValue(t, i, |digits|, 0) == Numeral(digits)
  {
    CountIs(t, i, digits);
    DigitsAre(t, i, "", digits);
    assert "" + digits == digits;
  }

  lemma DigitFirst(digits: string)
    requires AllDecimal(digits) && digits != ""
    ensures digits[0] != '+' && digits[0] != '-'
  {
  }

  lemma ExponentFrom(t: string, i: nat, j: nat, n: nat)
    requires i < |t| && (t[i] == 'e' || t[i] == 'E') && j == i + 1 + Signed(t, i + 1) && n == CountDigits(t, j) > 0
    ensures i + 1 < |t|
    ensures var value: int := DigitsValue(t, j, n, 0);
      Exponent(t, i) == (j + n, if t[i + 1] == '-' then -value else value)
  {
    hide DigitsValue, CountDigits;
  }

  lemma ShiftIs(t: string, i: nat, e: Shift)
    requires IsShift(e) && e.Shift? && At(t, i, ShiftPart(e))
    requires i + |ShiftPart(e)| < |t| ==> !IsDigit(t[i + |ShiftPart(e)|])
    ensures i <= |t| && Exponent(t, i) == (i + |ShiftPart(e)|, ShiftOf(e))
  {
    hide At, Numeral, DigitsValue, CountDigits, ExponentAt, Exponent, Signed, AllDecimal, IsSign, IsDigit;
    DigitFirst(e.digits);
    AtSplit(t, i, [e.letter], e.sign + e.digits);
    AtSplit(t, i + 1, e.sign, e.digits);
    AtChar(t, i, [e.letter], 0);
    SignIs(t, i + 1, e.sign, e.digits);
    NumberOf(t, i + 1 + |e.sign|, e.digits);
    ExponentFrom(t, i, i + 1 + |e.sign|, |e.digits|);
  }

  lemma NoExponent(t: string, i: nat)
    requires i <= |t| && !ExponentAt(t, i)
    ensures Exponent(t, i) == (i, 0)
  {
  }

  /** A sign in front of something that is no sign. */
  lemma SignIs(t: string, i: nat, sign: string, rest: string)
    requires IsSign(sign) && At(t, i, sign) && At(t, i + |sign|, rest) && rest != "" && rest[0] != '+' && rest[0] != '-'
    ensures i + |sign| < |t| && Signed(t, i) == |sign| && (t[i] == '-' <==> sign == "-")
  {
    AtChar(t, i + |sign|, rest, 0);
    if sign != "" {
      AtChar(t, i, sign, 0);
    }
  }

  /** The digits end where the exponent part begins. */
  lemma DigitsEnd(t: string, q: nat, x: Parts)
    requires IsShift(x.shift) && At(t, q, ShiftPart(x.shift)) && Stops(x, t, q + |ShiftPart(x.shift)|)
    ensures q < |t| ==> !IsDigit(t[q]) && (!x.point ==> t[q] != '.')
  {
    hide At, ExponentAt;
    if x.shift.Shift? {
      AtChar(t, q, ShiftPart(x.shift), 0);
    }
  }

  /** The exponent part, or none. */
  lemma ShiftAny(t: string, q: nat, x: Parts)
    requires IsShift(x.shift) && At(t, q, ShiftPart(x.shift)) && Stops(x, t, q + |ShiftPart(x.shift)|)
    ensures q <= |t| && Exponent(t, q) == (q + |ShiftPart(x.shift)|, ShiftOf(x.shift))
  {
    hide At, ExponentAt, Exponent, Numeral;
    AtInside(t, q, ShiftPart(x.shift));
    if x.shift.NoShift? {
      NoExponent(t, q);
    } else {
      ShiftIs(t, q, x.shift);
    }
  }

  lemma NoneBehind(t: string, i: nat, m: nat)
    requires i <= |t|
    ensures DigitsValue(t, i, 0, m) == m
  {
  }

  /** The digits of x are read at i: how many are in front of the point and behind it, and
      their value. */
  predicate DigitsRead(t: string, i: nat, x: Parts)
    requires AllDecimal(x.whole + x.fraction)
  {
    && i <= |t| && CountDigits(t, i) == |x.whole|
    && var k := i + |x.whole|;
       && (x.point <==> PointAt(t, k))
       && var j := if x.point then k + 1 else k;
          && (if x.point then CountDigits(t, j) else 0) == |x.fraction|
          && DigitsValue(t, j, |x.fraction|, DigitsValue(t, i, |x.whole|, 0)) == Numeral(x.whole + x.fraction)
  }

  predicate PointAt(t: string, i: nat) {
    i < |t| && t[i] == '.'
  }

  lemma NoDigit()
    ensures !IsDigit('.')
  {
  }

  lemma DigitsWithPoint(t: string, i: nat, x: Parts)
    requires AllDecimal(x.whole) && AllDecimal(x.fraction) && x.point
    requires At(t, i, x.whole) && At(t, i + |x.whole|, "." + x.fraction)
    requires var q := i + |x.whole| + 1 + |x.fraction|; q < |t| ==> !IsDigit(t[q])
    ensures AllDecimal(x.whole + x.fraction) && DigitsRead(t, i, x)
  {
    hide At, Numeral, DigitsValue, CountDigits, AllDecimal, IsDigit;
    var k := i + |x.whole|;
    AtSplit(t, k, ".", x.fraction);
    AtChar(t, k, ".", 0);
    NoDigit();
    NumberOf(t, i, x.whole);
    CountIs(t, k + 1, x.fraction);
    DigitsAre(t, k + 1, x.whole, x.fraction);
  }

  lemma DigitsAlone(t: string, i: nat, x: Parts)
    requires AllDecimal(x.whole) && x.fraction == "" && !x.point && At(t, i, x.whole)
    requires var q := i + |x.whole|; q < |t| ==> !IsDigit(t[q]) && t[q] != '.'
    ensures AllDecimal(x.whole + x.fraction) && DigitsRead(t, i, x)
  {
    hide At, Numeral, DigitsValue, CountDigits, AllDecimal, IsDigit;
    NumberOf(t, i, x.whole);
    NoneBehind(t, i + |x.whole|, Numeral(x.whole));
    assert x.whole + x.fraction == x.whole;
  }

  lemma MantissaIs(t: string, i: nat, x: Parts)
    requires IsNumber(x) && At(t, i, x.whole + (PointPart(x) + ShiftPart(x.shift)))
    requires Stops(x, t, i + |x.whole| + |PointPart(x)| + |ShiftPart(x.shift)|)
    ensures AllDecimal(x.whole + x.fraction) && DigitsRead(t, i, x)
    ensures At(t, i + |x.whole| + |PointPart(x)|, ShiftPart(x.shift))
  {
    hide At, DigitsRead, IsShift, ShiftPart, Stops, AllDecimal, IsSign, IsDigit;
    var k := i + |x.whole|;
    AtSplit(t, i, x.whole, PointPart(x) + ShiftPart(x.shift));
    AtSplit(t, k, PointPart(x), ShiftPart(x.shift));
    DigitsEnd(t, k + |PointPart(x)|, x);
    if x.point {
      DigitsWithPoint(t, i, x);
    } else {
      DigitsAlone(t, i, x);
    }
  }

  lemma ValueIs(x: Parts)
    requires IsNumber(x)
    ensures var m := Numeral(x.whole + x.fraction) as real;
      Scale(if x.sign == "-" then -m else m, ShiftOf(x.shift) - |x.fraction|) == ValueOf(x)
  {
    hide Numeral, Scale, TenTo;
    var m := Numeral(x.whole + x.fraction) as real;
    var k := ShiftOf(x.shift) - |x.fraction|;
    ScaleIs(m, k);
    ScaleIs(-m, k);
    assert -m * TenTo(k) == -(m * TenTo(k));
  }

  lemma NoSignNext(x: Parts)
    requires IsNumber(x)
    ensures var rest := x.whole + (PointPart(x) + ShiftPart(x.shift)); rest != "" && rest[0] != '+' && rest[0] != '-'
  {
    if x.whole != "" {
      DigitFirst(x.whole);
    }
  }

  /** A number is read to its end, and as its value. */
  lemma NumberRead(t: string, x: Parts)
    requires IsNumber(x) && At(t, 0, Spelled(x)) && Stops(x, t, |Spelled(x)|)
    ensures Strtod(t) == Converted(|Spelled(x)|, ValueOf(x))
  {
    hide At, Numeral, DigitsValue, CountDigits, Exponent, ShiftPart, Scale, Stops, TenTo, ValueOf, Signed;
    hide AllDecimal, IsDigit, IsSign, IsShift;
    var rest := x.whole + (PointPart(x) + ShiftPart(x.shift));
    AtSplit(t, 0, x.sign, rest);
    NoSignNext(x);
    SignIs(t, 0, x.sign, rest);
    MantissaIs(t, |x.sign|, x);
    ShiftAny(t, |x.sign| + |x.whole| + |PointPart(x)|, x);
    ValueIs(x);
  }

  // ----- finding the parts

  lemma {:induction false} CountStops(t: string, i: nat)
    requires i <= |t|
    ensures var n := CountDigits(t, i); i + n < |t| ==> !IsDigit(t[i + n])
    decreases |t| - i
  {
    if i < |t| && IsDigit(t[i]) {
      CountStops(t, i + 1);
    }
  }

  lemma Taken(t: string, i: nat)
    requires i <= |t|
    ensures var n := CountDigits(t, i); AllDecimal(t[i..i + n])
  {
  }

  lemma NoneCounted(t: string, i: nat)
    requires i <= |t| && CountDigits(t, i) == 0
    ensures i < |t| ==> !IsDigit(t[i])
  {
  }

  lemma ShiftHere(t: string, i: nat) returns (e: Shift)
    requires i < |t| && (t[i] == 'e' || t[i] == 'E')
    requires var j := i + 1 + Signed(t, i + 1); CountDigits(t, j) > 0
    ensures var j := i + 1 + Signed(t, i + 1); var q := j + CountDigits(t, j);
      e.Shift? && IsShift(e) && ShiftPart(e) == t[i..q] && (q < |t| ==> !IsDigit(t[q]))
  {
    hide CountDigits;
    var j := i + 1 + Signed(t, i + 1);
    var q := j + CountDigits(t, j);
    CountStops(t, j);
    Taken(t, j);
    e := Shift(t[i], t[i + 1..j], t[j..q]);
    assert t[i..q] == [t[i]] + (t[i + 1..j] + t[j..q]);
  }

  /** The exponent part that is read. */
  lemma FoundShift(t: string, i: nat) returns (e: Shift)
    requires i <= |t|
    ensures var q := Exponent(t, i).0;
      && IsShift(e) && ShiftPart(e) == t[i..q]
      && (e.NoShift? ==> q == i && !ExponentAt(t, i))
      && (e.Shift? && q < |t| ==> !IsDigit(t[q]))
  {
    hide CountDigits, DigitsValue;
    e := NoShift;
    if i < |t| && (t[i] == 'e' || t[i] == 'E') {
      var j := i + 1 + Signed(t, i + 1);
      if CountDigits(t, j) > 0 {
        hide IsShift, ShiftPart;
        e := ShiftHere(t, i);
      } else {
        NoneCounted(t, j);
      }
    }
  }

  /** Where the digits and the point from i on end. */
  function DigitsStop(t: string, i: nat): (stop: nat)
    requires i <= |t|
    ensures i + CountDigits(t, i) <= stop <= |t|
  {
    var k := i + CountDigits(t, i);
    if PointAt(t, k) then k + 1 + CountDigits(t, k + 1) else k
  }

  predicate SomeDigits(t: string, i: nat)
    requires i <= |t|
  {
    var k := i + CountDigits(t, i);
    k > i || (PointAt(t, k) && CountDigits(t, k + 1) > 0)
  }

  lemma Consumed(t: string)
    requires Strtod(t).consumed > 0
    ensures var i := Signed(t, 0); SomeDigits(t, i) && Strtod(t).consumed == Exponent(t, DigitsStop(t, i)).0
  {
    hide CountDigits, DigitsValue, Exponent, Scale;
  }

  lemma AllOfNone()
    ensures AllDecimal("")
  {
  }

  /** The digits that are read, up to the exponent part. */
  lemma FoundDigits(t: string, i: nat) returns (x: Parts)
    requires i <= |t| && SomeDigits(t, i)
    ensures AllDecimal(x.whole) && AllDecimal(x.fraction) && |x.whole| + |x.fraction| > 0
    ensures (!x.point ==> x.fraction == "") && x.whole + PointPart(x) == t[i..DigitsStop(t, i)]
    ensures var q := DigitsStop(t, i); q < |t| ==> !IsDigit(t[q]) && (!x.point ==> t[q] != '.')
  {
    hide CountDigits, AllDecimal, IsDigit;
    var k := i + CountDigits(t, i);
    CountStops(t, i);
    Taken(t, i);
    AllOfNone();
    x := Parts("", t[i..k], PointAt(t, k), "", NoShift);
    if PointAt(t, k) {
      CountStops(t, k + 1);
      Taken(t, k + 1);
      var stop := DigitsStop(t, i);
      x := x.(fraction := t[k + 1..stop]);
      PointJoins(t, i, k, stop);
    }
  }

  lemma PointJoins(t: string, i: nat, k: nat, stop: nat)
    requires i <= k < stop <= |t| && t[k] == '.'
    ensures t[i..stop] == t[i..k] + ("." + t[k + 1..stop])
  {
  }

  lemma PartsJoin(t: string, i: nat, k: nat, q: nat, x: Parts)
    requires i <= k <= q <= |t|
    requires x.sign == t[..i] && x.whole + PointPart(x) == t[i..k] && ShiftPart(x.shift) == t[k..q]
    ensures Spelled(x) == t[..q]
  {
    hide PointPart, ShiftPart;
    var a, b, c := x.whole, PointPart(x), ShiftPart(x.shift);
    assert a + (b + c) == a + b + c;
    assert t[..i] + (t[i..k] + t[k..q]) == t[..q];
  }

  lemma SignFound(t: string)
    ensures IsSign(t[..Signed(t, 0)])
  {
  }

  /** The parts of what is read. */
  lemma FoundNumber(t: string) returns (x: Parts)
    requires Strtod(t).consumed > 0
    ensures IsNumber(x) && Spelled(x) == t[..Strtod(t).consumed] && Stops(x, t, Strtod(t).consumed)
  {
    hide Strtod, CountDigits, Exponent, ExponentAt, AllDecimal, IsSign, IsShift, ShiftPart, PointPart, Spelled;
    hide SomeDigits, DigitsStop, IsDigit;
    var i := Signed(t, 0);
    Consumed(t);
    SignFound(t);
    var digits := FoundDigits(t, i);
    var e := FoundShift(t, DigitsStop(t, i));
    x := digits.(sign := t[..i], shift := e);
    SamePoint(digits, x);
    PartsJoin(t, i, DigitsStop(t, i), Strtod(t).consumed, x);
  }

  lemma SamePoint(x: Parts, y: Parts)
    requires x.point == y.point && x.fraction == y.fraction
    ensures PointPart(x) == PointPart(y)
  {
  }

  /** strtod reads a number of this length and value if and only if the text begins with its
      parts and they do not go on. */
  lemma StrtodExactly(t: string, len: nat, value: real)
    requires len > 0
    ensures Strtod(t) == Converted(len, value)
       <==> exists x :: IsNumber(x) && ValueOf(x) == value && |Spelled(x)| == len
                     && At(t, 0, Spelled(x)) && Stops(x, t, len)
  {
    hide Strtod, IsNumber, ValueOf, Spelled, Stops;
    if Strtod(t) == Converted(len, value) {
      var x := FoundNumber(t);
      assert At(t, 0, Spelled(x));
      NumberRead(t, x);
    }
    if x :| IsNumber(x) && ValueOf(x) == value && |Spelled(x)| == len && At(t, 0, Spelled(x)) && Stops(x, t, len) {
      NumberRead(t, x);
    }
  }

  // ----- numbers in JSON text

  lemma SpelledChars(x: Parts)
    requires IsNumber(x)
    ensures forall i :: 0 <= i < |Spelled(x)| ==> IsNumberChar(Spelled(x)[i])
  {
    var e := ShiftPart(x.shift);
    assert forall i :: 0 <= i < |e| ==> IsNumberChar(e[i]);
  }

  /** A number of at most 63 characters in front of something else is read as its value. */
  lemma NumberParsed(s: string, p: nat, x: Parts)
    requires IsNumber(x) && |Spelled(x)| <= NUMBER_LIMIT
    requires Terminated(s) && At(s, p, Spelled(x)) && p + |Spelled(x)| < |s| && s[p + |Spelled(x)|] !in "0123456789+-.eE"
    ensures ParseNumber(s, p) == Ok(Number(ValueOf(x)), p + |Spelled(x)|)
  {
    hide Strtod, IsNumber, ValueOf, Spelled;
    SpelledChars(x);
    var t := Spelled(x);
    NumberCharIs(s[p + |t|]);
    NumberCharsAre(t, s, p, NUMBER_LIMIT);
    assert At(t, 0, t) && Stops(x, t, |t|);
    NumberRead(t, x);
    SpelledSome(x);
  }

  lemma NumberCharIs(c: char)
    ensures IsNumberChar(c) ==> c in "0123456789+-.eE"
  {
    if IsDigit(c) {
      assert c == "0123456789+-.eE"[c as int - '0' as int];
    }
    assert "0123456789+-.eE"[10..] == "+-.eE";
  }

  lemma SpelledSome(x: Parts)
    requires IsNumber(x)
    ensures |Spelled(x)| > 0
  {
  }

  const NUMBER_CHARS := "0123456789+-.eE"

  /** The first 63 number characters from p on, or all of them if they are fewer. */
  predicate NumberRun(s: string, p: nat, t: string) {
    && At(s, p, t) && |t| <= 63 && (forall i :: 0 <= i < |t| ==> t[i] in NUMBER_CHARS)
    && (|t| < 63 && p + |t| < |s| ==> s[p + |t|] !in NUMBER_CHARS)
  }

  lemma NumberCharExactly(c: char)
    ensures IsNumberChar(c) <==> c in NUMBER_CHARS
  {
    NumberCharIs(c);
    if c in NUMBER_CHARS {
      assert NUMBER_CHARS == "0123456789" + "+-.eE";
      assert AllDecimal("0123456789");
    }
  }

  lemma {:induction false} RunIs(s: string, p: nat, n: nat, t: string)
    requires At(s, p, t) && |t| <= n && (forall i :: 0 <= i < |t| ==> IsNumberChar(t[i]))
    requires |t| < n && p + |t| < |s| ==> !IsNumberChar(s[p + |t|])
    ensures p <= |s| && NumberChars(s, p, n) == t
    decreases |t|
  {
    hide At;
    AtInside(s, p, t);
    if t != "" {
      assert t == t[..1] + t[1..];
      AtSplit(s, p, t[..1], t[1..]);
      AtChar(s, p, t, 0);
      RunIs(s, p + 1, n - 1, t[1..]);
    }
  }

  lemma {:induction false} RunStops(s: string, p: nat, n: nat)
    requires p <= |s|
    ensures var t := NumberChars(s, p, n); |t| < n && p + |t| < |s| ==> !IsNumberChar(s[p + |t|])
    decreases n
  {
    if n > 0 && p < |s| && IsNumberChar(s[p]) {
      RunStops(s, p + 1, n - 1);
    }
  }

  lemma NumberRunExactly(s: string, p: nat, t: string)
    requires p <= |s|
    ensures NumberChars(s, p, 63) == t <==> NumberRun(s, p, t)
  {
    hide At, NumberChars, IsNumberChar;
    forall c: char
      ensures IsNumberChar(c) <==> c in NUMBER_CHARS
    {
      NumberCharExactly(c);
    }
    NumberCharsFacts(s, p, 63);
    RunStops(s, p, 63);
    if NumberRun(s, p, t) {
      RunIs(s, p, 63, t);
    }
  }

  /** The number value stands in s from p up to q, read from at most 63 characters. */
  ghost predicate NumberAt(s: string, p: nat, q: nat, value: real) {
    exists x: Parts, t: string ::
      && NumberRun(s, p, t) && IsNumber(x) && Spelled(x) <= t && Stops(x, t, |Spelled(x)|)
      && ValueOf(x) == value && q == p + |Spelled(x)|
  }

  lemma ParseNumberExactly(s: string, p: nat, q: nat, value: real)
    requires Terminated(s) && p < |s|
    ensures ParseNumber(s, p) == Ok(Number(value), q) <==> NumberAt(s, p, q, value)
  {
    hide Strtod, IsNumber, ValueOf, Spelled, Stops, NumberChars, NumberRun;
    var t := NumberChars(s, p, 63);
    NumberRunExactly(s, p, t);
    if ParseNumber(s, p) == Ok(Number(value), q) {
      var x := FoundNumber(t);
      NumberRead(t, x);
      assert NumberRun(s, p, t) && Spelled(x) <= t;
    }
    if NumberAt(s, p, q, value) {
      var x: Parts, u: string :| NumberRun(s, p, u) && IsNumber(x) && Spelled(x) <= u && Stops(x, u, |Spelled(x)|)
        && ValueOf(x) == value && q == p + |Spelled(x)|;
      NumberRunExactly(s, p, u);
      NumberRead(u, x);
      SpelledSome(x);
    }
  }
}
