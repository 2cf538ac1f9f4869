/**
 Unicode escapes in strings: section 7 of RFC 8259 against section 3 of RFC 3629.
 */
module JsonUnicode {
  import opened JsonText
  import opened JsonGrammar
  import opened JsonRoundTrip

  /** A code point that is not half of a surrogate pair. */
  predicate IsScalar(code: nat) {
    code < 0xD800 || 0xE000 <= code < 0x11_0000
  }

  /** One UTF-16 unit as an escape. */
  function UnitEscape(n: nat): (t: string)
    requires n < 0x1_0000
    ensures |t| == 6
  {
    [BACKSLASH, 'u', HexDigit(n / 0x1000), HexDigit(n / 0x100 % 0x10), HexDigit(n / 0x10 % 0x10), HexDigit(n % 0x10)]
  }

  /** A code point as one escape, or as the two of its surrogate pair. */
  function Escape(code: nat): string
    requires IsScalar(code)
  {
    if code < 0x1_0000 then UnitEscape(code)
    else UnitEscape(0xD800 + (code - 0x1_0000) / 0x400) + UnitEscape(0xDC00 + (code - 0x1_0000) % 0x400)
  }

  lemma UnitBack(n: nat, s: string, p: nat)
    requires n < 0x1_0000 && At(s, p, UnitEscape(n))
    ensures p + 6 <= |s| && s[p] == BACKSLASH && s[p + 1] == 'u' && Hex4(s, p + 2) == n
  {
    var t := UnitEscape(n);
    AtChar(s, p, t, 0);
    AtChar(s, p, t, 1);
    AtChar(s, p, t, 2);
    AtChar(s, p, t, 3);
    AtChar(s, p, t, 4);
    AtChar(s, p, t, 5);
    HexBack(n / 0x1000);
    HexBack(n / 0x100 % 0x10);
    HexBack(n / 0x10 % 0x10);
    HexBack(n % 0x10);
    FourDigits(n);
  }

  lemma FourDigits(n: nat)
    ensures 0x1000 * (n / 0x1000) + 0x100 * (n / 0x100 % 0x10) + 0x10 * (n / 0x10 % 0x10) + n % 0x10 == n
  {
    assert n == 0x10 * (n / 0x10) + n % 0x10;
    assert n / 0x10 == 0x10 * (n / 0x100) + n / 0x10 % 0x10;
    assert n / 0x100 == 0x10 * (n / 0x1000) + n / 0x100 % 0x10;
  }

  /** The escape of a code point, surrogate pair or not, is read as its UTF-8 form. */
  lemma EscapeDecodes(code: nat, s: string, q: nat, end: nat)
    requires IsScalar(code) && At(s, q, Escape(code)) && q + |Escape(code)| <= end < |s|
    ensures StepAt(s, q, end) == Step(Utf8(code), |Escape(code)|)
  {
    hide At, UnitEscape, Utf8, Hex4;
    if code < 0x1_0000 {
      UnitBack(code, s, q);
    } else {
      var x := code - 0x1_0000;
      AtSplit(s, q, UnitEscape(0xD800 + x / 0x400), UnitEscape(0xDC00 + x % 0x400));
      UnitBack(0xD800 + x / 0x400, s, q);
      UnitBack(0xDC00 + x % 0x400, s, q + 6);
      Halves(x);
    }
  }

  // ----- escapes in any spelling

  /** c is the hexadecimal digit of n, with either case of letters. */
  predicate IsDigitOf(c: char, n: nat) {
    n < 16 && (c == "0123456789abcdef"[n] || c == "0123456789ABCDEF"[n])
  }

  lemma DigitValue(c: char)
    ensures IsHex(c) ==> IsDigitOf(c, HexValue(c))
    ensures forall n: nat :: IsDigitOf(c, n) ==> IsHex(c) && HexValue(c) == n
  {
  }

  predicate FourDigitsOf(s: string, p: nat, n: nat)
    requires p + 4 <= |s|
  {
    && n < 0x1_0000
    && IsDigitOf(s[p], n / 0x1000) && IsDigitOf(s[p + 1], n / 0x100 % 0x10)
    && IsDigitOf(s[p + 2], n / 0x10 % 0x10) && IsDigitOf(s[p + 3], n % 0x10)
  }

  /** Four characters are read as the number whose digits they are, and as zero if they are
      not the digits of any number. */
  lemma Hex4Exactly(s: string, p: nat, n: nat)
    requires p + 4 <= |s|
    ensures FourDigitsOf(s, p, n) ==> Hex4(s, p) == n
    ensures (forall m: nat :: !FourDigitsOf(s, p, m)) ==> Hex4(s, p) == 0
  {
    hide IsDigitOf, HexValue, IsHex;
    DigitValue(s[p]);
    DigitValue(s[p + 1]);
    DigitValue(s[p + 2]);
    DigitValue(s[p + 3]);
    FourDigits(n);
    if AllHex(s, p) {
      var a, b, c, d := HexValue(s[p]), HexValue(s[p + 1]), HexValue(s[p + 2]), HexValue(s[p + 3]);
      Joined(a, b, c, d);
      assert FourDigitsOf(s, p, 0x1000 * a + 0x100 * b + 0x10 * c + d);
    }
  }

  lemma Joined(a: nat, b: nat, c: nat, d: nat)
    requires a < 16 && b < 16 && c < 16 && d < 16
    ensures var n := 0x1000 * a + 0x100 * b + 0x10 * c + d;
      n < 0x1_0000 && n / 0x1000 == a && n / 0x100 % 0x10 == b && n / 0x10 % 0x10 == c && n % 0x10 == d
  {
    var n := 0x1000 * a + 0x100 * b + 0x10 * c + d;
    LastDigit(0x100 * a + 0x10 * b + c, d);
    LastDigit(0x10 * a + b, c);
    LastDigit(a, b);
    assert n / 0x100 == n / 0x10 / 0x10 && n / 0x1000 == n / 0x100 / 0x10;
  }

  lemma LastDigit(q: nat, d: nat)
    requires d < 16
    ensures (0x10 * q + d) / 0x10 == q && (0x10 * q + d) % 0x10 == d
  {
  }

  /** A \u escape of the unit n at p, whatever the case of its digits. */
  predicate IsUnit(s: string, p: nat, n: nat) {
    p + 6 <= |s| && s[p] == BACKSLASH && s[p + 1] == 'u' && FourDigitsOf(s, p + 2, n)
  }

  /** Escapes of a code point at q: of the point itself, or of its surrogate pair. */
  predicate IsEscape(s: string, q: nat, code: nat)
    requires IsScalar(code)
  {
    if code < 0x1_0000 then IsUnit(s, q, code)
    else
      && IsUnit(s, q, 0xD800 + (code - 0x1_0000) / 0x400)
      && IsUnit(s, q + 6, 0xDC00 + (code - 0x1_0000) % 0x400)
  }

  /** An escape of a code point in any spelling is read as its UTF-8 form. */
  lemma AnyEscapeDecodes(code: nat, s: string, q: nat, end: nat)
    requires IsScalar(code) && IsEscape(s, q, code) && q + |Escape(code)| <= end < |s|
    ensures StepAt(s, q, end) == Step(Utf8(code), |Escape(code)|)
  {
    hide Utf8, Hex4, FourDigitsOf;
    if code < 0x1_0000 {
      Hex4Exactly(s, q + 2, code);
    } else {
      var x := code - 0x1_0000;
      Hex4Exactly(s, q + 2, 0xD800 + x / 0x400);
      Hex4Exactly(s, q + 8, 0xDC00 + x % 0x400);
      Halves(x);
    }
  }

  /** The escapes of one character, section 7 of RFC 8259: the letter and the code point. */
  const SHORT_ESCAPES: set<(char, nat)> :=
    {('\"', 0x22), ('\\', 0x5C), ('/', 0x2F), ('b', 0x08), ('f', 0x0C), ('n', 0x0A), ('r', 0x0D), ('t', 0x09)}

  predicate IsShort(c: char, code: nat) {
    (c, code) in SHORT_ESCAPES
  }

  /** A backslash and a letter stand for the code point in the table; there are no others but
      \u. */
  lemma ShortEscapes(s: string, q: nat, end: nat, c: char, code: nat)
    requires q < end < |s| && s[q] == BACKSLASH && s[q + 1] == c && code < 0x80
    ensures IsShort(c, code) ==> StepAt(s, q, end) == Step([code as char], 2)
    ensures c != 'u' && (forall k: nat :: !IsShort(c, k)) ==> StepAt(s, q, end) == Bad
  {
    hide Literal;
    if c == '\"' || c == '\\' || c == '/' || c == 'b' || c == 'f' || c == 'n' || c == 'r' || c == 't' {
      var k: nat := if c == '\"' then 0x22 else if c == '\\' then 0x5C else if c == '/' then 0x2F else if c == 'b' then 8
        else if c == 'f' then 12 else if c == 'n' then 10 else if c == 'r' then 13 else 9;
      assert IsShort(c, k);
    }
  }

  /** A short escape other than that of the slash. */
  ghost predicate HasShort(code: nat) {
    exists letter :: IsShort(letter, code) && letter != '/'
  }

  lemma ShortCodes(code: nat)
    ensures HasShort(code) <==> code in {0x22, 0x5C, 0x08, 0x0C, 0x0A, 0x0D, 0x09}
  {
    assert IsShort('\"', 0x22) && IsShort('\\', 0x5C) && IsShort('b', 0x08) && IsShort('f', 0x0C);
    assert IsShort('n', 0x0A) && IsShort('r', 0x0D) && IsShort('t', 0x09);
  }

  lemma ShortPrinted(c: char, letter: char)
    requires IsShort(letter, c as int) && letter != '/'
    ensures Escaped(c) == [BACKSLASH, letter]
  {
  }

  lemma HexDigitOf(n: nat)
    requires n < 16
    ensures IsDigitOf(HexDigit(n), n) && HexDigit(n) !in "ABCDEF"
  {
    assert HexDigit(n) == "0123456789abcdef"[n];
  }

  lemma SmallDigits(code: nat)
    requires code < 0x20
    ensures code / 0x1000 == 0 && code / 0x100 % 0x10 == 0 && code / 0x10 % 0x10 == code / 16
  {
  }

  lemma ControlPrinted(code: nat, s: string)
    requires code < 0x20 && s == [BACKSLASH, 'u', '0', '0', HexDigit(code / 16), HexDigit(code % 16)]
    ensures IsUnit(s, 0, code) && forall i :: 0 <= i < |s| ==> s[i] !in "ABCDEF"
  {
    hide HexDigit, IsDigitOf;
    SmallDigits(code);
    ZeroDigit();
    HexDigitOf(code / 16);
    HexDigitOf(code % 16);
  }

  lemma ZeroDigit()
    ensures IsDigitOf('0', 0)
  {
  }

  /** What is printed for a character: a short escape where there is one, except for the slash,
      a \u escape in lower case for the other control characters, and else the character. */
  lemma EscapedExactly(c: char, code: nat)
    requires code == c as int
    ensures forall letter :: IsShort(letter, code) && letter != '/' ==> Escaped(c) == [BACKSLASH, letter]
    ensures code < 0x20 && !HasShort(code) ==>
      |Escaped(c)| == 6 && IsUnit(Escaped(c), 0, code) && forall i :: 0 <= i < 6 ==> Escaped(c)[i] !in "ABCDEF"
    ensures code >= 0x20 && !HasShort(code) ==> Escaped(c) == [c]
  {
    hide IsShort, HasShort, IsUnit;
    forall letter | IsShort(letter, code) && letter != '/'
      ensures Escaped(c) == [BACKSLASH, letter]
    {
      ShortPrinted(c, letter);
    }
    ShortCodes(code);
    if code < 0x20 && !HasShort(code) {
      ControlPrinted(code, Escaped(c));
    }
  }

  lemma Halves(x: nat)
    requires x < 0x10_0000
    ensures (0xD800 + x / 0x400) % 0x400 * 0x400 + (0xDC00 + x % 0x400) % 0x400 == x
  {
    var hi, lo := x / 0x400, x % 0x400;
    assert x == hi * 0x400 + lo;
    assert (0xD800 + hi) % 0x400 == hi && (0xDC00 + lo) % 0x400 == lo;
  }

  /** A trailing byte carries six bits. */
  predicate IsTrail(c: char) {
    0x80 <= c as int < 0xC0
  }

  /** The bits that a sequence of one to four bytes carries, or none if it is malformed. */
  function Utf8Bits(t: string): Option<nat> {
    if |t| == 1 && t[0] as int < 0x80 then Some(t[0] as int)
    else if |t| == 2 && 0xC0 <= t[0] as int < 0xE0 && IsTrail(t[1]) then
      Some(0x40 * (t[0] as int - 0xC0) + (t[1] as int - 0x80))
    else if |t| == 3 && 0xE0 <= t[0] as int < 0xF0 && IsTrail(t[1]) && IsTrail(t[2]) then
      Some(0x1000 * (t[0] as int - 0xE0) + 0x40 * (t[1] as int - 0x80) + (t[2] as int - 0x80))
    else if |t| == 4 && 0xF0 <= t[0] as int < 0xF8 && IsTrail(t[1]) && IsTrail(t[2]) && IsTrail(t[3]) then
      Some(0x4_0000 * (t[0] as int - 0xF0) + 0x1000 * (t[1] as int - 0x80) + 0x40 * (t[2] as int - 0x80)
           + (t[3] as int - 0x80))
    else None
  }

  /** The smallest code point that needs so many bytes. */
  function LeastOf(n: nat): nat {
    if n == 1 then 0 else if n == 2 then 0x80 else if n == 3 then 0x800 else 0x1_0000
  }

  /** Section 3 of RFC 3629: the code point of a sequence that is well formed, no longer than
      it need be, and not half of a surrogate pair. */
  function Utf8Value(t: string): Option<nat> {
    var bits := Utf8Bits(t);
    if bits.Some? && LeastOf(|t|) <= bits.value && IsScalar(bits.value) then bits else None
  }

  lemma SixBits(code: nat)
    ensures code == 0x40 * (code / 0x40) + code % 0x40
    ensures code == 0x1000 * (code / 0x1000) + 0x40 * (code / 0x40 % 0x40) + code % 0x40
    ensures code == 0x4_0000 * (code / 0x4_0000) + 0x1000 * (code / 0x1000 % 0x40) + 0x40 * (code / 0x40 % 0x40) + code % 0x40
  {
    var a, b := code / 0x40, code / 0x1000;
    DivTwice(code);
    DivThrice(code);
    assert code == 0x40 * a + code % 0x40;
    assert a == 0x40 * (a / 0x40) + a % 0x40;
    assert b == 0x40 * (b / 0x40) + b % 0x40;
  }

  lemma DivTwice(x: nat)
    ensures x / 0x40 / 0x40 == x / 0x1000
  {
  }

  lemma DivThrice(x: nat)
    ensures x / 0x1000 / 0x40 == x / 0x4_0000
  {
  }

  /** The bytes written for a code point carry it. */
  lemma Utf8Carries(code: nat)
    requires code < 0x11_0000
    ensures Utf8Bits(Utf8(code)) == Some(code) && LeastOf(|Utf8(code)|) <= code
  {
    SixBits(code);
    if code < 0x80 {
    } else if code < 0x800 {
      assert Utf8(code)[0] as int == 0xC0 + code / 0x40;
    } else if code < 0x1_0000 {
      assert Utf8(code)[0] as int == 0xE0 + code / 0x1000;
    } else {
      assert Utf8(code)[0] as int == 0xF0 + code / 0x4_0000;
    }
  }

  /** Two sequences of the same length that carry the same bits are the same. */
  lemma SameBits(t: string, u: string)
    requires |t| == |u| && Utf8Bits(t).Some? && Utf8Bits(t) == Utf8Bits(u)
    ensures t == u
  {
    if |t| == 2 {
      Digits(t[0] as int, t[1] as int - 0x80, u[0] as int, u[1] as int - 0x80);
    } else if |t| == 3 {
      Digits(0x40 * t[0] as int + (t[1] as int - 0x80), t[2] as int - 0x80,
             0x40 * u[0] as int + (u[1] as int - 0x80), u[2] as int - 0x80);
      Digits(t[0] as int, t[1] as int - 0x80, u[0] as int, u[1] as int - 0x80);
    } else if |t| == 4 {
      Digits(0x1000 * t[0] as int + 0x40 * (t[1] as int - 0x80) + (t[2] as int - 0x80), t[3] as int - 0x80,
             0x1000 * u[0] as int + 0x40 * (u[1] as int - 0x80) + (u[2] as int - 0x80), u[3] as int - 0x80);
      Digits(0x40 * t[0] as int + (t[1] as int - 0x80), t[2] as int - 0x80,
             0x40 * u[0] as int + (u[1] as int - 0x80), u[2] as int - 0x80);
      Digits(t[0] as int, t[1] as int - 0x80, u[0] as int, u[1] as int - 0x80);
    }
  }

  lemma Digits(a: int, b: int, c: int, d: int)
    requires 0 <= b < 0x40 && 0 <= d < 0x40
    ensures 0x40 * a + b == 0x40 * c + d ==> a == c && b == d
  {
  }

  lemma Utf8Length(code: nat, n: nat)
    requires 1 <= n <= 4 && LeastOf(n) <= code < 0x11_0000 && (n < 4 ==> code < LeastOf(n + 1))
    ensures |Utf8(code)| == n
  {
  }

  lemma BitsBound(t: string)
    requires Utf8Bits(t).Some?
    ensures 1 <= |t| <= 4 && (|t| < 4 ==> Utf8Bits(t).value < LeastOf(|t| + 1))
  {
  }

  /** A sequence of bytes is the UTF-8 form of a code point by RFC 3629 if and only if it is
      what the code writes for that code point. */
  lemma Utf8Exactly(t: string, code: nat)
    ensures Utf8Value(t) == Some(code) <==> IsScalar(code) && t == Utf8(code)
  {
    hide Utf8, Utf8Bits;
    if IsScalar(code) {
      Utf8Carries(code);
      if Utf8Value(t) == Some(code) {
        BitsBound(t);
        Utf8Length(code, |t|);
        SameBits(t, Utf8(code));
      }
    }
  }
}
