/**
 What the recursive parser of utility/cjson/cJSON.c accepts and returns, as functions of a
 text that ends with its NUL.
 */
module JsonGrammar {
  import opened JsonText

  datatype Parsed<T> = Fail | Ok(value: T, next: nat)

  predicate Terminated(s: string) {
    |s| > 0 && s[|s| - 1] == NUL
  }

  predicate At(s: string, p: nat, t: string) {
    p + |t| <= |s| && s[p..p + |t|] == t
  }

  // ----- white space

  /** The first character from p on that is above a blank, or the end. */
  function Skip(s: string, p: nat): (q: nat)
    requires p <= |s|
    ensures p <= q <= |s|
    ensures q < |s| ==> s[q] > ' '
    decreases |s| - p
  {
    if p < |s| && s[p] <= ' ' then Skip(s, p + 1) else p
  }

  /** At the end of the buffer the cursor steps back onto the last character. */
  function SkipSpace(s: string, p: nat): (q: nat)
    requires p < |s|
    ensures p <= q < |s|
  {
    if Skip(s, p) == |s| then |s| - 1 else Skip(s, p)
  }

  // ----- strings

  /** The first pass over a string: the closing quote, and how many units come before it,
      counting a backslash and the character after it as one. */
  datatype Scanned = Broken | Closed(end: nat, units: nat)

  function Scan(s: string, p: nat): (r: Scanned)
    ensures r.Closed? ==> p <= r.end < |s| && s[r.end] == QUOTE
    ensures r.Closed? ==> r.end - p <= 2 * r.units && r.units <= r.end - p
    decreases |s| - p
  {
    if p >= |s| then Broken
    else if s[p] == QUOTE then Closed(p, 0)
    else if s[p] == BACKSLASH then
      if p + 1 >= |s| then Broken else OneMore(Scan(s, p + 2))
    else OneMore(Scan(s, p + 1))
  }

  function OneMore(r: Scanned): Scanned {
    if r.Closed? then Closed(r.end, r.units + 1) else r
  }

  predicate IsHex(c: char) {
    '0' <= c <= '9' || 'A' <= c <= 'F' || 'a' <= c <= 'f'
  }

  function HexValue(c: char): (n: nat)
    requires IsHex(c)
    ensures n < 16
  {
    if '0' <= c <= '9' then c as int - '0' as int
    else if 'A' <= c <= 'F' then 10 + c as int - 'A' as int
    else 10 + c as int - 'a' as int
  }

  predicate AllHex(s: string, p: nat)
    requires p + 4 <= |s|
  {
    IsHex(s[p]) && IsHex(s[p + 1]) && IsHex(s[p + 2]) && IsHex(s[p + 3])
  }

  /** Four hexadecimal digits; anything else counts as zero. */
  function Hex4(s: string, p: nat): (n: nat)
    requires p + 4 <= |s|
    ensures n < 0x1_0000
  {
    if AllHex(s, p) then
      0x1000 * HexValue(s[p]) + 0x100 * HexValue(s[p + 1]) + 0x10 * HexValue(s[p + 2]) + HexValue(s[p + 3])
    else 0
  }

  /** The UTF-8 form of a code point, table 3-6 of the Unicode standard. */
  function Utf8(code: nat): (t: string)
    requires code < 0x11_0000
    ensures 1 <= |t| <= 4
  {
    if code < 0x80 then [code as char]
    else if code < 0x800 then [(0xC0 + code / 0x40) as char, (0x80 + code % 0x40) as char]
    else if code < 0x1_0000 then
      [(0xE0 + code / 0x1000) as char, (0x80 + code / 0x40 % 0x40) as char, (0x80 + code % 0x40) as char]
    else
      [(0xF0 + code / 0x4_0000) as char, (0x80 + code / 0x1000 % 0x40) as char,
       (0x80 + code / 0x40 % 0x40) as char, (0x80 + code % 0x40) as char]
  }

  /** One step of the second pass: the bytes written and the characters consumed. */
  datatype Step = Bad | Step(bytes: string, size: nat)

  /** A \u escape at q, or a surrogate pair of them. */
  function Literal(s: string, q: nat, end: nat): (r: Step)
    requires q < end < |s|
    ensures r.Step? ==> 1 <= |r.bytes| <= 4 && (r.size == 6 || r.size == 12) && q + r.size <= end
  {
    if end - q < 6 then Bad
    else
      var first := Hex4(s, q + 2);
      if 0xDC00 <= first <= 0xDFFF then Bad
      else if 0xD800 <= first <= 0xDBFF then
        if end - (q + 6) < 6 || s[q + 6] != BACKSLASH || s[q + 7] != 'u' then Bad
        else
          var second := Hex4(s, q + 8);
          if second < 0xDC00 || second > 0xDFFF then Bad
          else Step(Utf8(0x1_0000 + first % 0x400 * 0x400 + second % 0x400), 12)
      else Step(Utf8(first), 6)
  }

  function StepAt(s: string, q: nat, end: nat): (r: Step)
    requires q < end < |s|
    ensures r.Step? ==> r.size >= 1 && q + r.size <= end + 1
  {
    if s[q] != BACKSLASH then Step([s[q]], 1)
    else match s[q + 1]
      case 'b' => Step([BACKSPACE], 2)
      case 'f' => Step([FORMFEED], 2)
      case 'n' => Step(['\n'], 2)
      case 'r' => Step(['\r'], 2)
      case 't' => Step(['\t'], 2)
      case '\"' => Step([QUOTE], 2)
      case '\\' => Step([BACKSLASH], 2)
      case '/' => Step(['/'], 2)
      case 'u' => Literal(s, q, end)
      case _ => Bad
  }

  /** The second pass from q up to the closing quote at end. */
  function Decode(s: string, q: nat, end: nat): Option<string>
    requires end < |s|
    decreases end - q
  {
    if q >= end then Some("")
    else
      var step := StepAt(s, q, end);
      if step.Bad? then None
      else
        var rest := Decode(s, q + step.size, end);
        if rest.None? then None else Some(step.bytes + rest.value)
  }

  /** A string ends for its readers at the first NUL that an escape puts into it. */
  function ParseString(s: string, p: nat): (r: Parsed<string>)
    requires Terminated(s) && p < |s|
    ensures r.Ok? ==> p < r.next < |s| && NulFree(r.value)
  {
    if s[p] != QUOTE then Fail
    else
      var scanned := Scan(s, p + 1);
      if scanned.Broken? then Fail
      else
        var text := Decode(s, p + 1, scanned.end);
        if text.None? then Fail else Ok(UpToNul(text.value), scanned.end + 1)
  }

  // ----- numbers

  predicate IsDigit(c: char) {
    '0' <= c <= '9'
  }

  predicate IsNumberChar(c: char) {
    IsDigit(c) || c == '+' || c == '-' || c == 'e' || c == 'E' || c == '.'
  }

  /** parse_number copies at most this many characters. */
  const NUMBER_LIMIT: nat := 63

  /** The number characters from p on, at most n of them. */
  function NumberChars(s: string, p: nat, n: nat): string
    requires p <= |s|
    decreases n
  {
    if n > 0 && p < |s| && IsNumberChar(s[p]) then [s[p]] + NumberChars(s, p + 1, n - 1) else ""
  }

  function CountDigits(t: string, i: nat): (n: nat)
    requires i <= |t|
    ensures i + n <= |t| && forall k :: i <= k < i + n ==> IsDigit(t[k])
    decreases |t| - i
  {
    if i < |t| && IsDigit(t[i]) then 1 + CountDigits(t, i + 1) else 0
  }

  /** The value of n digits from i on, behind the digits of m. */
  function DigitsValue(t: string, i: nat, n: nat, m: nat): nat
    requires i + n <= |t| && forall k :: i <= k < i + n ==> IsDigit(t[k])
    decreases n
  {
    if n == 0 then m else assert IsDigit(t[i]); DigitsValue(t, i + 1, n - 1, 10 * m + (t[i] as int - '0' as int))
  }

  /** m times ten to the power k. */
  function Scale(m: real, k: int): real
    decreases if k < 0 then -k else k
  {
    if k == 0 then m else if k > 0 then Scale(10.0 * m, k - 1) else Scale(m / 10.0, k + 1)
  }

  /** What strtod makes of a text: how much of it it consumes, and the value. */
  datatype Converted = Converted(consumed: nat, value: real)

  function Signed(t: string, i: nat): nat
    requires i <= |t|
  {
    if i < |t| && (t[i] == '-' || t[i] == '+') then 1 else 0
  }

  function Strtod(t: string): (r: Converted)
    ensures r.consumed <= |t|
  {
    var i := Signed(t, 0);
    var a := CountDigits(t, i);
    var dot := if i + a < |t| && t[i + a] == '.' then 1 else 0;
    var b := if dot == 1 then CountDigits(t, i + a + 1) else 0;
    if a + b == 0 then Converted(0, 0.0)
    else
      var m := DigitsValue(t, i + a + dot, b, DigitsValue(t, i, a, 0));
      var mantissa := if i == 1 && t[0] == '-' then -(m as real) else m as real;
      var stop := i + a + dot + b;
      var e := Exponent(t, stop);
      Converted(e.0, Scale(mantissa, e.1 - b))
  }

  /** The exponent part from i on, if there is one: where it ends, and its value. */
  function Exponent(t: string, i: nat): (r: (nat, int))
    requires i <= |t|
    ensures i <= r.0 <= |t|
  {
    if i < |t| && (t[i] == 'e' || t[i] == 'E') then
      var j := i + 1 + Signed(t, i + 1);
      var n := CountDigits(t, j);
      var value: int := DigitsValue(t, j, n, 0);
      if n == 0 then (i, 0)
      else (j + n, if t[i + 1] == '-' then -value else value)
    else (i, 0)
  }

  /** A number ends before the NUL does. */
  lemma {:induction false} NumberInside(s: string, p: nat, n: nat)
    requires Terminated(s) && p < |s|
    ensures p + |NumberChars(s, p, n)| < |s|
    decreases n
  {
    if n > 0 && IsNumberChar(s[p]) {
      NumberInside(s, p + 1, n - 1);
    }
  }

  function ParseNumber(s: string, p: nat): (r: Parsed<Json>)
    requires Terminated(s) && p < |s|
    ensures r.Ok? ==> p < r.next < |s|
  {
    var t := NumberChars(s, p, NUMBER_LIMIT);
    var number := Strtod(t);
    if number.consumed == 0 then Fail
    else
      NumberInside(s, p, NUMBER_LIMIT);
      Ok(Number(number.value), p + number.consumed)
  }

  // ----- values

  predicate StartsNumber(c: char) {
    c == '-' || IsDigit(c)
  }

  function ParseValue(s: string, p: nat, depth: nat): (r: Parsed<Json>)
    requires Terminated(s) && p < |s|
    ensures r.Ok? ==> p < r.next < |s|
    decreases |s| - p, 2
  {
    if At(s, p, "null") then assert s[p + 3] == 'l'; Ok(Null, p + 4)
    else if At(s, p, "false") then assert s[p + 4] == 'e'; Ok(False, p + 5)
    else if At(s, p, "true") then assert s[p + 3] == 'e'; Ok(True, p + 4)
    else if s[p] == QUOTE then
      var text := ParseString(s, p);
      if text.Fail? then Fail else Ok(String(text.value), text.next)
    else if StartsNumber(s[p]) then ParseNumber(s, p)
    else if s[p] == '[' then ParseArray(s, p, depth)
    else if s[p] == '{' then ParseObject(s, p, depth)
    else Fail
  }

  function ParseArray(s: string, p: nat, depth: nat): (r: Parsed<Json>)
    requires Terminated(s) && p < |s| && s[p] == '['
    ensures r.Ok? ==> p < r.next < |s|
    decreases |s| - p, 1
  {
    if depth >= NESTING_LIMIT then Fail
    else
      var q := SkipSpace(s, p + 1);
      if s[q] == ']' then Ok(Array(NoItems), q + 1)
      else
        var items := ParseItems(s, q, depth + 1);
        if items.Fail? then Fail else Ok(Array(items.value), items.next)
  }

  /** The items from p up to and with the closing bracket. */
  function ParseItems(s: string, p: nat, depth: nat): (r: Parsed<Items>)
    requires Terminated(s) && p < |s|
    ensures r.Ok? ==> p < r.next < |s|
    decreases |s| - p, 3
  {
    var head := ParseValue(s, SkipSpace(s, p), depth);
    if head.Fail? then Fail
    else
      var q := SkipSpace(s, head.next);
      if s[q] == ',' then
        var tail := ParseItems(s, q + 1, depth);
        if tail.Fail? then Fail else Ok(Item(head.value, tail.value), tail.next)
      else if s[q] == ']' then Ok(Item(head.value, NoItems), q + 1)
      else Fail
  }

  function ParseObject(s: string, p: nat, depth: nat): (r: Parsed<Json>)
    requires Terminated(s) && p < |s| && s[p] == '{'
    ensures r.Ok? ==> p < r.next < |s|
    decreases |s| - p, 1
  {
    if depth >= NESTING_LIMIT then Fail
    else
      var q := SkipSpace(s, p + 1);
      if s[q] == '}' then Ok(Object(NoMembers), q + 1)
      else
        var members := ParseMembers(s, q, depth + 1);
        if members.Fail? then Fail else Ok(Object(members.value), members.next)
  }

  /** The members from p up to and with the closing brace. */
  function ParseMembers(s: string, p: nat, depth: nat): (r: Parsed<Members>)
    requires Terminated(s) && p < |s|
    ensures r.Ok? ==> p < r.next < |s|
    decreases |s| - p, 3
  {
    var name := ParseString(s, SkipSpace(s, p));
    if name.Fail? then Fail
    else
      var colon := SkipSpace(s, name.next);
      if s[colon] != ':' then Fail
      else
        var value := ParseValue(s, SkipSpace(s, colon + 1), depth);
        if value.Fail? then Fail
        else
          var q := SkipSpace(s, value.next);
          if s[q] == ',' then
            var rest := ParseMembers(s, q + 1, depth);
            if rest.Fail? then Fail else Ok(Member(name.value, value.value, rest.value), rest.next)
          else if s[q] == '}' then Ok(Member(name.value, value.value, NoMembers), q + 1)
          else Fail
  }

  // ----- whole texts

  /** cJSON_Parse, or cJSON_ParseWithOpts with its result and the end of what was read. */
  function Parse(text: string, requireEnd: bool): (r: Parsed<Json>)
    requires NulFree(text)
  {
    var s := text + [NUL];
    var start := if |s| > 4 && s[..3] == BYTE_ORDER_MARK then 3 else 0;
    var r := ParseValue(s, SkipSpace(s, start), 0);
    if r.Fail? then Fail
    else if requireEnd then
      var end := SkipSpace(s, r.next);
      if s[end] == NUL then Ok(r.value, end) else Fail
    else r
  }

  const BYTE_ORDER_MARK: string := [0xEF as char, 0xBB as char, 0xBF as char]
}
