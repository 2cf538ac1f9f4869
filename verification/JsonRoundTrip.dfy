/**
 Parsing the text of a value gives the value back.
 */
module JsonRoundTrip {
  import opened JsonText
  import opened JsonGrammar

  // ----- texts at positions

  lemma AtSplit(s: string, p: nat, a: string, b: string)
    requires At(s, p, a + b)
    ensures At(s, p, a) && At(s, p + |a|, b)
  {
    assert s[p..p + |a|] == (a + b)[..|a|] == a;
    assert s[p + |a|..p + |a| + |b|] == (a + b)[|a|..] == b;
  }

  lemma AtInside(s: string, p: nat, t: string)
    requires At(s, p, t)
    ensures p + |t| <= |s|
  {
  }

  lemma AtChar(s: string, p: nat, t: string, i: nat)
    requires At(s, p, t) && i < |t|
    ensures p + i < |s| && s[p + i] == t[i]
  {
    assert s[p..p + |t|][i] == t[i];
  }

  lemma {:induction false} SkipBlanks(s: string, p: nat, t: string)
    requires At(s, p, t) && p + |t| < |s| && s[p + |t|] > ' '
    requires forall i :: 0 <= i < |t| ==> t[i] <= ' '
    ensures SkipSpace(s, p) == Skip(s, p) == p + |t|
    decreases |t|
  {
    if t != "" {
      AtSplit(s, p, t[..1], t[1..]);
      assert t == t[..1] + t[1..];
      AtChar(s, p, t, 0);
      SkipBlanks(s, p + 1, t[1..]);
    }
  }

  lemma SkipNothing(s: string, p: nat)
    requires p < |s| && s[p] > ' '
    ensures SkipSpace(s, p) == p
  {
  }

  // ----- strings

  lemma ScanEscaped(c: char, s: string, p: nat)
    requires At(s, p, Escaped(c)) && Scan(s, p + |Escaped(c)|).Closed?
    ensures Scan(s, p).Closed? && Scan(s, p).end == Scan(s, p + |Escaped(c)|).end
  {
    hide At;
    var e := Escaped(c);
    AtChar(s, p, e, 0);
    if |e| == 6 {
      ScanHex(c, s, p);
    }
  }

  /** The four characters behind a backslash and a u. */
  lemma ScanHex(c: char, s: string, p: nat)
    requires |Escaped(c)| == 6 && At(s, p, Escaped(c)) && Scan(s, p + 6).Closed?
    ensures Scan(s, p + 2).Closed? && Scan(s, p + 2).end == Scan(s, p + 6).end
  {
    hide At, Scan;
    var e := Escaped(c);
    AtChar(s, p, e, 2);
    AtChar(s, p, e, 3);
    AtChar(s, p, e, 4);
    AtChar(s, p, e, 5);
    ScanPlain(s, p + 5);
    ScanPlain(s, p + 4);
    ScanPlain(s, p + 3);
    ScanPlain(s, p + 2);
  }

  lemma ScanEnd(s: string, p: nat)
    requires p < |s| && s[p] == QUOTE
    ensures Scan(s, p) == Closed(p, 0)
  {
  }

  lemma ScanPlain(s: string, p: nat)
    requires p < |s| && s[p] != QUOTE && s[p] != BACKSLASH
    ensures Scan(s, p) == OneMore(Scan(s, p + 1))
  {
  }

  lemma HexBack(n: nat)
    requires n < 16
    ensures IsHex(HexDigit(n)) && HexValue(HexDigit(n)) == n
  {
  }

  lemma StepEscaped(c: char, s: string, p: nat, end: nat)
    requires At(s, p, Escaped(c)) && p + |Escaped(c)| <= end < |s|
    ensures StepAt(s, p, end) == Step([c], |Escaped(c)|)
  {
    var e := Escaped(c);
    AtChar(s, p, e, 0);
    if |e| >= 2 {
      AtChar(s, p, e, 1);
    }
    if |e| == 6 {
      LiteralEscaped(c, s, p, end);
    }
  }

  lemma LiteralEscaped(c: char, s: string, p: nat, end: nat)
    requires c < ' ' && At(s, p, Escaped(c)) && |Escaped(c)| == 6 && p + 6 <= end < |s|
    ensures Literal(s, p, end) == Step([c], 6)
  {
    var e := Escaped(c);
    AtChar(s, p, e, 2);
    AtChar(s, p, e, 3);
    AtChar(s, p, e, 4);
    AtChar(s, p, e, 5);
    HexBack(0);
    HexBack(c as int / 16);
    HexBack(c as int % 16);
    assert Hex4(s, p + 2) == c as int;
  }

  /** The two passes over an escaped text find its end and its characters. */
  lemma {:induction false} EscapedBack(text: string, s: string, p: nat, end: nat)
    requires At(s, p, EscapedAll(text)) && end == p + |EscapedAll(text)| < |s| && s[end] == QUOTE
    ensures Scan(s, p).Closed? && Scan(s, p).end == end
    ensures Decode(s, p, end) == Some(text)
    decreases text
  {
    hide At, Escaped, StepAt, Scan;
    if text == "" {
      ScanEnd(s, p);
    } else {
      var e := Escaped(text[0]);
      AtSplit(s, p, e, EscapedAll(text[1..]));
      EscapedBack(text[1..], s, p + |e|, end);
      ScanEscaped(text[0], s, p);
      StepEscaped(text[0], s, p, end);
      assert text == [text[0]] + text[1..];
    }
  }

  lemma Enclosed(e: string)
    ensures [QUOTE] + e + [QUOTE] == [QUOTE] + (e + [QUOTE])
  {
  }

  lemma QuotedBack(text: string, s: string, p: nat)
    requires Terminated(s) && At(s, p, Quoted(text)) && p < |s| && NulFree(text)
    ensures ParseString(s, p) == Ok(text, p + |Quoted(text)|)
  {
    WithoutNul(text);
    hide EscapedAll, Scan, Decode, At, UpToNul, NulFree;
    var e := EscapedAll(text);
    Enclosed(e);
    AtSplit(s, p, [QUOTE], e + [QUOTE]);
    AtSplit(s, p + 1, e, [QUOTE]);
    AtChar(s, p, [QUOTE], 0);
    AtChar(s, p + 1 + |e|, [QUOTE], 0);
    EscapedBack(text, s, p + 1, p + 1 + |e|);
  }

  // ----- numbers

  function Power(k: nat): (p: nat)
    ensures p > 0
  {
    if k == 0 then 1 else 10 * Power(k - 1)
  }

  lemma {:induction false} DigitsShape(n: nat, k: nat)
    requires n < Power(k) && k > 0
    ensures |Digits(n)| <= k && forall i :: 0 <= i < |Digits(n)| ==> IsDigit(Digits(n)[i])
    decreases k
  {
    if n >= 10 {
      DigitsShape(n / 10, k - 1);
    }
  }

  lemma {:induction false} NumberCharsAre(t: string, s: string, p: nat, n: nat)
    requires At(s, p, t) && p + |t| < |s| && |t| <= n && !IsNumberChar(s[p + |t|])
    requires forall i :: 0 <= i < |t| ==> IsNumberChar(t[i])
    ensures NumberChars(s, p, n) == t
    decreases |t|
  {
    if t != "" {
      assert t == t[..1] + t[1..];
      AtSplit(s, p, t[..1], t[1..]);
      AtChar(s, p, t, 0);
      NumberCharsAre(t[1..], s, p + 1, n - 1);
    }
  }

  lemma {:induction false} NumberCharsFacts(s: string, p: nat, n: nat)
    requires p <= |s|
    ensures var t := NumberChars(s, p, n);
      |t| <= n && At(s, p, t) && forall i :: 0 <= i < |t| ==> IsNumberChar(t[i])
    decreases n
  {
    if n > 0 && p < |s| && IsNumberChar(s[p]) {
      hide At;
      NumberCharsFacts(s, p + 1, n - 1);
      AtOneMore(s, p, NumberChars(s, p + 1, n - 1));
    }
  }

  lemma AtOneMore(s: string, p: nat, t: string)
    requires p < |s| && At(s, p + 1, t)
    ensures At(s, p, [s[p]] + t)
  {
  }

  lemma {:induction false} DigitsValueLast(t: string, i: nat, n: nat, m: nat)
    requires i + n + 1 <= |t| && forall k :: i <= k < i + n + 1 ==> IsDigit(t[k])
    ensures DigitsValue(t, i, n + 1, m) == 10 * DigitsValue(t, i, n, m) + (t[i + n] as int - '0' as int)
    decreases n
  {
    if n > 0 {
      DigitsValueLast(t, i + 1, n - 1, 10 * m + (t[i] as int - '0' as int));
    }
  }

  lemma {:induction false} DigitsBack(n: nat, t: string, i: nat)
    requires At(t, i, Digits(n)) && forall k :: i <= k < i + |Digits(n)| ==> IsDigit(t[k])
    ensures DigitsValue(t, i, |Digits(n)|, 0) == n
    decreases n
  {
    var len := |Digits(n)|;
    AtChar(t, i, Digits(n), len - 1);
    if n >= 10 {
      AtSplit(t, i, Digits(n / 10), [Digit(n % 10)]);
      DigitsBack(n / 10, t, i);
      DigitsValueLast(t, i, len - 1, 0);
    } else {
      DigitsValueLast(t, i, 0, 0);
    }
  }

  lemma {:induction false} CountAll(t: string, i: nat)
    requires i <= |t| && forall k :: i <= k < |t| ==> IsDigit(t[k])
    ensures CountDigits(t, i) == |t| - i
    decreases |t| - i
  {
    if i < |t| {
      CountAll(t, i + 1);
    }
  }

  lemma StrtodDecimal(n: int, k: nat)
    requires -n < Power(k) && n < Power(k) && k > 0
    ensures Strtod(Decimal(n)) == Converted(|Decimal(n)|, n as real)
    ensures |Decimal(n)| <= k + 1 && forall i :: 0 <= i < |Decimal(n)| ==> IsNumberChar(Decimal(n)[i])
    ensures |Decimal(n)| > 0 && StartsNumber(Decimal(n)[0])
  {
    var t, m := Decimal(n), if n < 0 then -n else n;
    var i := if n < 0 then 1 else 0;
    DigitsShape(m, k);
    assert At(t, i, Digits(m));
    assert forall j :: i <= j < |t| ==> t[j] == Digits(m)[j - i];
    CountAll(t, i);
    DigitsBack(m, t, i);
  }

  lemma FifteenDigits(k: nat)
    requires k == 15
    ensures Power(k) == 1_000_000_000_000_000
  {
    assert Power(k - 10) == 100_000 by {
      assert Power(k - 13) == 100;
    }
    assert Power(k - 8) == 10_000_000;
    assert Power(k - 6) == 1_000_000_000;
    assert Power(k - 4) == 100_000_000_000;
    assert Power(k - 2) == 10_000_000_000_000;
  }

  lemma NumberBack(n: int, s: string, p: nat)
    requires -1_000_000_000_000_000 < n < 1_000_000_000_000_000
    requires Terminated(s) && At(s, p, Decimal(n)) && p + |Decimal(n)| < |s| && !IsNumberChar(s[p + |Decimal(n)|])
    ensures ParseNumber(s, p) == Ok(Number(n as real), p + |Decimal(n)|)
    ensures |Decimal(n)| > 0 && StartsNumber(Decimal(n)[0])
  {
    hide Strtod, Decimal;
    ghost var k := 15;
    FifteenDigits(k);
    StrtodDecimal(n, k);
    NumberCharsAre(Decimal(n), s, p, NUMBER_LIMIT);
  }

  // ----- values

  /** A text starts with a character that is neither blank nor a closing bracket. */
  lemma TextStarts(v: Json, format: bool, depth: nat)
    requires Printable(v)
    ensures |Text(v, format, depth)| > 0
    ensures Text(v, format, depth)[0] > ' ' && Text(v, format, depth)[0] != ']'
  {
    if v.Number? {
      DecimalStarts(v.value.Floor);
    }
  }

  lemma DecimalStarts(n: int)
    requires -1_000_000_000_000_000 < n < 1_000_000_000_000_000
    ensures |Decimal(n)| > 0 && StartsNumber(Decimal(n)[0])
  {
    ghost var k := 15;
    FifteenDigits(k);
    StrtodDecimal(n, k);
  }

  /** What the text of v must be followed by to be read back: a character that does not
      continue a number. */
  predicate Separated(v: Json, s: string, p: nat) {
    p < |s| && (v.Number? ==> !IsNumberChar(s[p]))
  }

  /** The first character decides how a value is parsed. */
  lemma Dispatch(s: string, p: nat, depth: nat)
    requires Terminated(s) && p < |s|
    ensures s[p] == QUOTE ==>
      ParseValue(s, p, depth)
      == var r := ParseString(s, p); if r.Fail? then Fail else Ok(String(r.value), r.next)
    ensures StartsNumber(s[p]) ==> ParseValue(s, p, depth) == ParseNumber(s, p)
    ensures s[p] == '[' ==> ParseValue(s, p, depth) == ParseArray(s, p, depth)
    ensures s[p] == '{' ==> ParseValue(s, p, depth) == ParseObject(s, p, depth)
  {
    hide ParseString, ParseNumber, ParseArray, ParseObject;
    assert At(s, p, "null") ==> s[p] == 'n';
    assert At(s, p, "false") ==> s[p] == 'f';
    assert At(s, p, "true") ==> s[p] == 't';
  }

  function Unless<T>(tooDeep: bool, value: T, next: nat): Parsed<T> {
    if tooDeep then Fail else Ok(value, next)
  }

  /** The parser reads the text of v at p, whatever follows it, as v, unless v nests too
      deep. */
  lemma {:induction false} ValueBack(v: Json, format: bool, d: nat, s: string, p: nat, depth: nat)
    requires Terminated(s) && Printable(v) && At(s, p, Text(v, format, d))
    requires Separated(v, s, p + |Text(v, format, d)|) && depth <= NESTING_LIMIT
    ensures ParseValue(s, p, depth) == Unless(depth + Nesting(v) > NESTING_LIMIT, v, p + |Text(v, format, d)|)
    decreases v, 1
  {
    hide ParseValue, ParseString, ParseNumber, ParseArray, ParseObject, Decimal, Quoted, ItemsText, MembersText, At;
    TextStarts(v, format, d);
    AtChar(s, p, Text(v, format, d), 0);
    match v
    case Null => WordBack(s, p, depth);
    case False => WordBack(s, p, depth);
    case True => WordBack(s, p, depth);
    case Number(x) =>
      NumberBack(x.Floor, s, p);
      Dispatch(s, p, depth);
    case String(text) =>
      QuotedStarts(text);
      QuotedBack(text, s, p);
      Dispatch(s, p, depth);
    case Array(items) =>
      ArrayBack(items, format, d, s, p, depth);
      Dispatch(s, p, depth);
    case Object(members) =>
      ObjectBack(members, format, d, s, p, depth);
      Dispatch(s, p, depth);
  }

  lemma WordBack(s: string, p: nat, depth: nat)
    requires Terminated(s) && p < |s|
    ensures At(s, p, "null") ==> ParseValue(s, p, depth) == Ok(Null, p + 4)
    ensures At(s, p, "false") ==> ParseValue(s, p, depth) == Ok(False, p + 5)
    ensures At(s, p, "true") ==> ParseValue(s, p, depth) == Ok(True, p + 4)
  {
    hide At, ParseString, ParseNumber, ParseArray, ParseObject;
    if At(s, p, "false") {
      FalseNotNull(s, p);
    }
    if At(s, p, "true") {
      TrueNotOthers(s, p);
    }
  }

  lemma FalseNotNull(s: string, p: nat)
    requires At(s, p, "false")
    ensures !At(s, p, "null")
  {
    AtChar(s, p, "false", 0);
    if At(s, p, "null") {
      AtChar(s, p, "null", 0);
    }
  }

  lemma TrueNotOthers(s: string, p: nat)
    requires At(s, p, "true")
    ensures !At(s, p, "null") && !At(s, p, "false")
  {
    AtChar(s, p, "true", 0);
    if At(s, p, "null") {
      AtChar(s, p, "null", 0);
    }
    if At(s, p, "false") {
      AtChar(s, p, "false", 0);
    }
  }

  lemma QuotedStarts(text: string)
    ensures |Quoted(text)| > 0 && Quoted(text)[0] == QUOTE
  {
  }

  // ----- arrays

  lemma ArrayShape(items: Items, format: bool, d: nat)
    ensures Text(Array(items), format, d) == "[" + (ItemsText(items, format, d + 1) + "]")
  {
    hide ItemsText;
  }

  lemma ItemsShape(items: Items, format: bool, d: nat)
    requires items.Item?
    ensures ItemsText(items, format, d) + "]" == Text(items.head, format, d) + (ItemsRest(items.tail, format, d) + "]")
  {
    hide Text, ItemsRest;
  }

  lemma RestShape(tail: Items, format: bool, d: nat)
    ensures tail.Item? ==>
      ItemsRest(tail, format, d) + "]" == "," + (Gap(format) + (ItemsText(tail, format, d) + "]"))
    ensures tail.NoItems? ==> ItemsRest(tail, format, d) + "]" == "]"
  {
    hide ItemsText;
  }

  /** The blank behind a comma between items. */
  function Gap(format: bool): (t: string)
    ensures forall i :: 0 <= i < |t| ==> t[i] <= ' '
  {
    if format then " " else ""
  }

  lemma {:induction false} ArrayBack(items: Items, format: bool, d: nat, s: string, p: nat, depth: nat)
    requires Terminated(s) && PrintableItems(items) && At(s, p, Text(Array(items), format, d))
    requires p + |Text(Array(items), format, d)| < |s| && depth <= NESTING_LIMIT
    ensures p < |s| && s[p] == '['
    ensures ParseArray(s, p, depth)
         == Unless(depth + 1 + ItemsNesting(items) > NESTING_LIMIT, Array(items), p + |Text(Array(items), format, d)|)
    decreases items, 2
  {
    hide Text, ItemsText, ParseItems, ParseArray, At, SkipSpace, ItemsNesting;
    var body := ItemsText(items, format, d + 1);
    ArrayShape(items, format, d);
    AtSplit(s, p, "[", body + "]");
    AtChar(s, p, "[", 0);
    if items.Item? {
      ItemsStart(items, format, d + 1);
      AtChar(s, p + 1, body + "]", 0);
      SkipNothing(s, p + 1);
      assert body + "]" == "" + (body + "]");
      if depth < NESTING_LIMIT {
        ItemsBack(items, format, d + 1, s, p + 1, depth + 1, "");
      }
    } else {
      NoItemsText(format, d + 1);
      AtChar(s, p + 1, body + "]", 0);
      SkipNothing(s, p + 1);
    }
    ArrayStep(s, p, depth);
  }

  /** The body of ParseArray, once its parts are known. */
  lemma ArrayStep(s: string, p: nat, depth: nat)
    requires Terminated(s) && p + 1 < |s| && s[p] == '['
    ensures var q := SkipSpace(s, p + 1);
      if depth >= NESTING_LIMIT then ParseArray(s, p, depth) == Fail
      else if s[q] == ']' then ParseArray(s, p, depth) == Ok(Array(NoItems), q + 1)
      else ParseArray(s, p, depth)
           == var items := ParseItems(s, q, depth + 1);
              if items.Fail? then Fail else Ok(Array(items.value), items.next)
  {
    hide ParseItems, SkipSpace;
  }

  lemma NoItemsText(format: bool, d: nat)
    ensures ItemsText(NoItems, format, d) == "" && ItemsNesting(NoItems) == 0
  {
  }

  lemma ItemsStart(items: Items, format: bool, d: nat)
    requires items.Item? && PrintableItems(items)
    ensures |ItemsText(items, format, d)| > 0
    ensures ItemsText(items, format, d)[0] > ' ' && ItemsText(items, format, d)[0] != ']'
  {
    hide Text, ItemsRest;
    TextStarts(items.head, format, d);
  }

  /** Items behind some blanks, up to the closing bracket. */
  lemma {:induction false} ItemsBack(items: Items, format: bool, d: nat, s: string, p: nat, depth: nat, blanks: string)
    requires Terminated(s) && items.Item? && PrintableItems(items)
    requires forall i :: 0 <= i < |blanks| ==> blanks[i] <= ' '
    requires At(s, p, blanks + (ItemsText(items, format, d) + "]")) && depth <= NESTING_LIMIT
    requires p + |blanks| + |ItemsText(items, format, d)| + 1 < |s|
    ensures ParseItems(s, p, depth)
         == Unless(depth + ItemsNesting(items) > NESTING_LIMIT, items, p + |blanks| + |ItemsText(items, format, d)| + 1)
    decreases items, 1
  {
    hide Text, ItemsText, ItemsRest, ParseItems, ParseValue, At, SkipSpace, Gap, Separated, Nesting;
    var q, r := ItemsLayout(items, format, d, s, p, blanks);
    ValueBack(items.head, format, d, s, q, depth);
    if items.tail.Item? {
      ItemsBack(items.tail, format, d, s, r + 1, depth, Gap(format));
    }
    ItemsStep(s, p, depth);
  }

  /** Where the first item starts, where it ends, and what comes behind it. */
  lemma ItemsLayout(items: Items, format: bool, d: nat, s: string, p: nat, blanks: string) returns (q: nat, r: nat)
    requires items.Item? && PrintableItems(items)
    requires forall i :: 0 <= i < |blanks| ==> blanks[i] <= ' '
    requires At(s, p, blanks + (ItemsText(items, format, d) + "]"))
    ensures p < |s| && SkipSpace(s, p) == q == p + |blanks|
    ensures At(s, q, Text(items.head, format, d)) && r == q + |Text(items.head, format, d)|
    ensures Separated(items.head, s, r) && SkipSpace(s, r) == r
    ensures if items.tail.Item? then
        && s[r] == ',' && At(s, r + 1, Gap(format) + (ItemsText(items.tail, format, d) + "]"))
        && |ItemsText(items, format, d)| == r - q + 1 + |Gap(format)| + |ItemsText(items.tail, format, d)|
      else s[r] == ']' && |ItemsText(items, format, d)| == r - q
  {
    hide Text, ItemsText, ItemsRest, At, SkipSpace, Gap;
    var head, more := Text(items.head, format, d), ItemsRest(items.tail, format, d);
    q := p + |blanks|;
    ItemsShape(items, format, d);
    AtSplit(s, p, blanks, head + (more + "]"));
    AtSplit(s, q, head, more + "]");
    TextStarts(items.head, format, d);
    AtChar(s, q, head, 0);
    SkipBlanks(s, p, blanks);
    r := q + |head|;
    RestShape(items.tail, format, d);
    AtChar(s, r, more + "]", 0);
    SkipNothing(s, r);
    if items.tail.Item? {
      AtSplit(s, r, ",", Gap(format) + (ItemsText(items.tail, format, d) + "]"));
    }
  }

  /** The body of ParseItems, once its parts are known. */
  lemma ItemsStep(s: string, p: nat, depth: nat)
    requires Terminated(s) && p < |s|
    ensures var head := ParseValue(s, SkipSpace(s, p), depth);
      if head.Fail? then ParseItems(s, p, depth) == Fail
      else
        var q := SkipSpace(s, head.next);
        && (s[q] == ',' ==>
              ParseItems(s, p, depth)
              == var tail := ParseItems(s, q + 1, depth);
                 if tail.Fail? then Fail else Ok(Item(head.value, tail.value), tail.next))
        && (s[q] == ']' ==> ParseItems(s, p, depth) == Ok(Item(head.value, NoItems), q + 1))
  {
    hide ParseValue, SkipSpace;
  }

  // ----- objects

  function Indent(format: bool, d: nat): (t: string)
    ensures forall i :: 0 <= i < |t| ==> t[i] <= ' '
  {
    if format then Tabs(d) else ""
  }

  function Newline(format: bool): (t: string)
    ensures forall i :: 0 <= i < |t| ==> t[i] <= ' '
  {
    if format then "\n" else ""
  }

  function Colon(format: bool): (t: string)
    ensures |t| > 0 && t[0] == ':' && forall i :: 1 <= i < |t| ==> t[i] <= ' '
  {
    if format then ":\t" else ":"
  }

  /** The text of some members behind their indentation. */
  function Named(members: Members, format: bool, d: nat): string
    requires members.Member?
    decreases members, 0
  {
    Quoted(members.name) + (Colon(format) + (Text(members.value, format, d) + After(members.rest, format, d)))
  }

  /** What comes behind a member's value. */
  function After(rest: Members, format: bool, d: nat): string
    decreases rest, 1
  {
    if rest.Member? then "," + ((Newline(format) + Indent(format, d)) + Named(rest, format, d)) else Newline(format)
  }

  lemma {:induction false} MembersStart(members: Members, format: bool, d: nat)
    requires members.Member?
    ensures MembersText(members, format, d) == Indent(format, d) + Named(members, format, d)
    decreases members
  {
    hide Text, Quoted;
    if members.rest.Member? {
      MembersStart(members.rest, format, d);
    }
    RegroupMember(Indent(format, d), Quoted(members.name), Colon(format), Text(members.value, format, d),
                  if members.rest.Member? then "," else "", Newline(format), MembersText(members.rest, format, d));
  }

  lemma RegroupMember(a: string, b: string, c: string, e: string, f: string, g: string, h: string)
    ensures a + b + c + e + f + g + h == a + (b + (c + (e + (f + (g + h)))))
  {
  }

  lemma ObjectShape(members: Members, format: bool, d: nat)
    ensures members.Member? ==>
      Text(Object(members), format, d)
      == "{" + ((Newline(format) + Indent(format, d + 1)) + (Named(members, format, d + 1) + (Indent(format, d) + "}")))
    ensures members.NoMembers? ==>
      Text(Object(members), format, d) == "{" + ((Newline(format) + Indent(format, d)) + "}")
  {
    hide Named, MembersText, Tabs, Newline, Indent;
    OpenShape(format);
    IndentShape(format, d);
    if members.Member? {
      MembersStart(members, format, d + 1);
      RegroupObject(Newline(format), Indent(format, d + 1), Named(members, format, d + 1), Indent(format, d));
    } else {
      NoMembersText(format, d + 1);
      RegroupEmpty(Newline(format), Indent(format, d));
    }
  }

  lemma IndentShape(format: bool, d: nat)
    ensures Indent(format, d) == if format then Tabs(d) else ""
  {
  }

  lemma OpenShape(format: bool)
    ensures (if format then "{\n" else "{") == "{" + Newline(format)
  {
  }

  lemma NoMembersText(format: bool, d: nat)
    ensures MembersText(NoMembers, format, d) == ""
  {
  }

  lemma RegroupEmpty(n: string, t: string)
    ensures "{" + n + "" + t + "}" == "{" + ((n + t) + "}")
  {
    assert "{" + n + "" == "{" + n;
  }

  lemma RegroupObject(n: string, i: string, m: string, t: string)
    ensures "{" + n + (i + m) + t + "}" == "{" + ((n + i) + (m + (t + "}")))
  {
  }

  lemma {:induction false} ObjectBack(members: Members, format: bool, d: nat, s: string, p: nat, depth: nat)
    requires Terminated(s) && PrintableMembers(members) && At(s, p, Text(Object(members), format, d))
    requires p + |Text(Object(members), format, d)| < |s| && depth <= NESTING_LIMIT
    ensures p < |s| && s[p] == '{'
    ensures ParseObject(s, p, depth)
         == Unless(depth + 1 + MembersNesting(members) > NESTING_LIMIT, Object(members),
                   p + |Text(Object(members), format, d)|)
    decreases members, 2
  {
    hide Text, Named, ParseMembers, ParseObject, At, SkipSpace, Indent;
    var q := ObjectLayout(members, format, d, s, p);
    if members.Member? && depth < NESTING_LIMIT {
      MembersBack(members, format, d + 1, s, q, depth + 1, "", Indent(format, d) + "}");
    }
    ObjectStep(s, p, depth);
  }

  /** Where the first name or the closing brace is. */
  lemma ObjectLayout(members: Members, format: bool, d: nat, s: string, p: nat) returns (q: nat)
    requires At(s, p, Text(Object(members), format, d))
    ensures p + 1 < |s| && s[p] == '{' && SkipSpace(s, p + 1) == q
    ensures Closes(Indent(format, d) + "}")
    ensures if members.Member? then
        && s[q] == QUOTE && At(s, q, "" + (Named(members, format, d + 1) + (Indent(format, d) + "}")))
        && p + |Text(Object(members), format, d)| == q + |Named(members, format, d + 1)| + |Indent(format, d) + "}"|
      else s[q] == '}' && p + |Text(Object(members), format, d)| == q + 1
  {
    hide Text, Named, At, SkipSpace, Indent, Newline, Closes;
    ObjectShape(members, format, d);
    CloseCloses(Indent(format, d));
    if members.Member? {
      var blanks := Newline(format) + Indent(format, d + 1);
      var named := Named(members, format, d + 1) + (Indent(format, d) + "}");
      NamedStarts(members, format, d + 1);
      OpenLayout(s, p, blanks, named);
      q := p + 1 + |blanks|;
      assert named == "" + named;
    } else {
      var blanks := Newline(format) + Indent(format, d);
      OpenLayout(s, p, blanks, "}");
      q := p + 1 + |blanks|;
    }
  }

  lemma CloseCloses(indent: string)
    requires forall i :: 0 <= i < |indent| ==> indent[i] <= ' '
    ensures Closes(indent + "}")
  {
  }

  lemma OpenLayout(s: string, p: nat, blanks: string, named: string)
    requires At(s, p, "{" + (blanks + named)) && |named| > 0 && named[0] > ' '
    requires forall i :: 0 <= i < |blanks| ==> blanks[i] <= ' '
    ensures p + 1 + |blanks| < |s| && s[p] == '{' && SkipSpace(s, p + 1) == p + 1 + |blanks|
    ensures At(s, p + 1 + |blanks|, named) && s[p + 1 + |blanks|] == named[0]
  {
    hide At, SkipSpace;
    AtSplit(s, p, "{", blanks + named);
    AtChar(s, p, "{", 0);
    AtSplit(s, p + 1, blanks, named);
    AtChar(s, p + 1 + |blanks|, named, 0);
    SkipBlanks(s, p + 1, blanks);
  }

  /** The body of ParseObject, once its parts are known. */
  lemma ObjectStep(s: string, p: nat, depth: nat)
    requires Terminated(s) && p + 1 < |s| && s[p] == '{'
    ensures var q := SkipSpace(s, p + 1);
      if depth >= NESTING_LIMIT then ParseObject(s, p, depth) == Fail
      else if s[q] == '}' then ParseObject(s, p, depth) == Ok(Object(NoMembers), q + 1)
      else ParseObject(s, p, depth)
           == var members := ParseMembers(s, q, depth + 1);
              if members.Fail? then Fail else Ok(Object(members.value), members.next)
  {
    hide ParseMembers, SkipSpace;
  }

  lemma NamedStarts(members: Members, format: bool, d: nat)
    requires members.Member?
    ensures |Named(members, format, d)| > 0 && Named(members, format, d)[0] == QUOTE
  {
    hide Text, After;
  }

  /** Blanks and the closing brace. */
  predicate Closes(close: string) {
    |close| > 0 && close[|close| - 1] == '}' && forall i :: 0 <= i < |close| - 1 ==> close[i] <= ' '
  }

  /** Members behind some blanks, up to the closing brace. */
  lemma {:induction false} MembersBack(members: Members, format: bool, d: nat, s: string, p: nat, depth: nat,
                                       blanks: string, close: string)
    requires Terminated(s) && members.Member? && PrintableMembers(members) && Closes(close)
    requires forall i :: 0 <= i < |blanks| ==> blanks[i] <= ' '
    requires At(s, p, blanks + (Named(members, format, d) + close))
    requires depth <= NESTING_LIMIT
    requires p + |blanks| + |Named(members, format, d)| + |close| < |s|
    ensures ParseMembers(s, p, depth)
         == Unless(depth + MembersNesting(members) > NESTING_LIMIT, members,
                   p + |blanks| + |Named(members, format, d)| + |close|)
    decreases members, 1
  {
    hide Text, Named, After, ParseMembers, ParseValue, ParseString, At, SkipSpace, Quoted, Closes;
    var q, r, u, w := MemberLayout(members, format, d, s, p, blanks, close);
    QuotedBack(members.name, s, q);
    AfterBack(members, format, d, s, w, depth, close);
    ValueBack(members.value, format, d, s, u, depth);
    MembersStep(s, p, depth);
  }

  /** Where the first member's name, colon and value start, and where the value ends. */
  lemma MemberLayout(members: Members, format: bool, d: nat, s: string, p: nat, blanks: string, close: string)
    returns (q: nat, r: nat, u: nat, w: nat)
    requires members.Member? && PrintableMembers(members)
    requires forall i :: 0 <= i < |blanks| ==> blanks[i] <= ' '
    requires At(s, p, blanks + (Named(members, format, d) + close))
    ensures p < |s| && SkipSpace(s, p) == q == p + |blanks|
    ensures At(s, q, Quoted(members.name)) && r == q + |Quoted(members.name)|
    ensures r + 1 < |s| && s[r] == ':' && SkipSpace(s, r) == r && SkipSpace(s, r + 1) == u
    ensures At(s, u, Text(members.value, format, d)) && w == u + |Text(members.value, format, d)|
    ensures At(s, w, After(members.rest, format, d) + close)
    ensures q + |Named(members, format, d)| == w + |After(members.rest, format, d)|
  {
    hide Text, Named, After, At, SkipSpace, Quoted, Colon;
    var name, colon, value := Quoted(members.name), Colon(format), Text(members.value, format, d);
    var after := After(members.rest, format, d) + close;
    NamedShape(members, format, d, close);
    q := p + |blanks|;
    AtSplit(s, p, blanks, name + (colon + (value + after)));
    AtSplit(s, q, name, colon + (value + after));
    QuotedStarts(members.name);
    AtChar(s, q, name, 0);
    SkipBlanks(s, p, blanks);
    r := q + |name|;
    AtSplit(s, r, colon, value + after);
    TextStarts(members.value, format, d);
    u := r + |colon|;
    AtChar(s, u, value + after, 0);
    ColonBack(s, r, colon);
    w := u + |value|;
    AtSplit(s, u, value, after);
  }

  lemma NamedShape(members: Members, format: bool, d: nat, close: string)
    requires members.Member?
    ensures Named(members, format, d) + close
         == Quoted(members.name) + (Colon(format) + (Text(members.value, format, d) + (After(members.rest, format, d) + close)))
  {
    hide Text, After, Quoted, Colon;
  }

  /** The colon and the blank behind it. */
  lemma ColonBack(s: string, r: nat, colon: string)
    requires At(s, r, colon) && r + |colon| < |s| && s[r + |colon|] > ' '
    requires |colon| > 0 && colon[0] == ':' && forall i :: 1 <= i < |colon| ==> colon[i] <= ' '
    ensures r + 1 < |s| && s[r] == ':' && SkipSpace(s, r) == r && SkipSpace(s, r + 1) == r + |colon|
  {
    hide At, SkipSpace;
    AtChar(s, r, colon, 0);
    assert colon == colon[..1] + colon[1..];
    AtSplit(s, r, colon[..1], colon[1..]);
    SkipNothing(s, r);
    SkipBlanks(s, r + 1, colon[1..]);
  }

  /** What ParseMembers does behind a value: go on behind a comma, or end at the brace. */
  lemma {:induction false} AfterBack(members: Members, format: bool, d: nat, s: string, p: nat, depth: nat, close: string)
    requires Terminated(s) && members.Member? && PrintableMembers(members) && Closes(close)
    requires At(s, p, After(members.rest, format, d) + close)
    requires depth <= NESTING_LIMIT
    requires p + |After(members.rest, format, d)| + |close| < |s|
    ensures Separated(members.value, s, p)
    ensures var q := SkipSpace(s, p);
      var end := p + |After(members.rest, format, d)| + |close|;
      if members.rest.Member? then
        && s[q] == ',' && q + 1 < |s|
        && ParseMembers(s, q + 1, depth)
           == Unless(depth + MembersNesting(members.rest) > NESTING_LIMIT, members.rest, end)
      else s[q] == '}' && q + 1 == end
    decreases members, 0
  {
    hide Named, ParseMembers, At, SkipSpace, Indent, Newline;
    var rest := members.rest;
    AfterShape(rest, format, d, close);
    AtChar(s, p, After(rest, format, d) + close, 0);
    if rest.Member? {
      var blanks, named := Newline(format) + Indent(format, d), Named(rest, format, d) + close;
      AtSplit(s, p, ",", blanks + named);
      SkipNothing(s, p);
      MembersBack(rest, format, d, s, p + 1, depth, blanks, close);
    } else {
      var blanks := Newline(format) + close[..|close| - 1];
      AtSplit(s, p, blanks, "}");
      AtChar(s, p + |blanks|, "}", 0);
      SkipBlanks(s, p, blanks);
    }
  }

  lemma AfterShape(rest: Members, format: bool, d: nat, close: string)
    requires Closes(close)
    ensures rest.Member? ==>
      After(rest, format, d) + close == "," + ((Newline(format) + Indent(format, d)) + (Named(rest, format, d) + close))
    ensures rest.NoMembers? ==> After(rest, format, d) + close == (Newline(format) + close[..|close| - 1]) + "}"
  {
    hide Named, Indent;
  }

  /** The body of ParseMembers, once its parts are known. */
  lemma MembersStep(s: string, p: nat, depth: nat)
    requires Terminated(s) && p < |s| && ParseString(s, SkipSpace(s, p)).Ok?
    requires var colon := SkipSpace(s, ParseString(s, SkipSpace(s, p)).next);
      s[colon] == ':' && colon + 1 < |s|
    ensures var name := ParseString(s, SkipSpace(s, p));
      var value := ParseValue(s, SkipSpace(s, SkipSpace(s, name.next) + 1), depth);
      if value.Fail? then ParseMembers(s, p, depth) == Fail
      else
        var q := SkipSpace(s, value.next);
        && (s[q] == ',' ==>
              ParseMembers(s, p, depth)
              == var rest := ParseMembers(s, q + 1, depth);
                 if rest.Fail? then Fail else Ok(Member(name.value, value.value, rest.value), rest.next))
        && (s[q] == '}' ==> ParseMembers(s, p, depth) == Ok(Member(name.value, value.value, NoMembers), q + 1))
  {
    hide ParseValue, ParseString, SkipSpace;
  }

  // ----- whole texts

  /** Parsing the compact or the formatted text of a value consumes all of it and gives
      the value back, member order and repeated names included, if and only if the value
      nests no deeper than the limit. */
  lemma PrintParse(v: Json, format: bool, requireEnd: bool)
    requires Printable(v)
    ensures NulFree(Text(v, format, 0))
    ensures Parse(Text(v, format, 0), requireEnd)
         == if Nesting(v) <= 1000 then Ok(v, |Text(v, format, 0)|) else Fail
  {
    hide Text, ParseValue, At;
    var t := Text(v, format, 0);
    TextNulFree(v, format, 0);
    var s := t + [NUL];
    TextStarts(v, format, 0);
    TextNotMark(v, format, 0);
    assert s[0] == t[0];
    AtFront(t, [NUL]);
    SkipNothing(s, 0);
    ValueBack(v, format, 0, s, 0, 0);
    assert SkipSpace(s, |t|) == |t|;
  }

  lemma AtFront(t: string, rest: string)
    ensures At(t + rest, 0, t)
  {
  }

  lemma TextNotMark(v: Json, format: bool, depth: nat)
    requires Printable(v)
    ensures |Text(v, format, depth)| > 0 && Text(v, format, depth)[0] != BYTE_ORDER_MARK[0]
  {
    if v.Number? {
      DecimalStarts(v.value.Floor);
    }
  }

  // ----- no text contains a NUL

  lemma NulFreeConcat(a: string, b: string)
    requires NulFree(a) && NulFree(b)
    ensures NulFree(a + b)
  {
  }

  lemma EscapedNulFree(c: char)
    requires c != NUL
    ensures NulFree(Escaped(c))
  {
  }

  lemma {:induction false} EscapedAllNulFree(text: string)
    requires NulFree(text)
    ensures NulFree(EscapedAll(text))
  {
    hide Escaped;
    if text != "" {
      EscapedNulFree(text[0]);
      EscapedAllNulFree(text[1..]);
      NulFreeConcat(Escaped(text[0]), EscapedAll(text[1..]));
    }
  }

  lemma QuotedNulFree(text: string)
    requires NulFree(text)
    ensures NulFree(Quoted(text))
  {
    hide EscapedAll;
    EscapedAllNulFree(text);
  }

  lemma {:induction false} DigitsNulFree(n: nat)
    ensures NulFree(Digits(n))
  {
    if n >= 10 {
      DigitsNulFree(n / 10);
    }
  }

  lemma DecimalNulFree(n: int)
    ensures NulFree(Decimal(n))
  {
    hide Digits;
    DigitsNulFree(if n < 0 then -n else n);
  }

  lemma {:induction false} TextNulFree(v: Json, format: bool, d: nat)
    requires Printable(v)
    ensures NulFree(Text(v, format, d))
    decreases v, 1
  {
    hide Decimal, Quoted, ItemsText, MembersText;
    match v
    case Null =>
    case False =>
    case True =>
    case Number(x) => DecimalNulFree(x.Floor);
    case String(text) => QuotedNulFree(text);
    case Array(items) => ItemsNulFree(items, format, d + 1);
    case Object(members) => MembersNulFree(members, format, d + 1);
  }

  lemma {:induction false} ItemsNulFree(items: Items, format: bool, d: nat)
    requires PrintableItems(items)
    ensures NulFree(ItemsText(items, format, d))
    decreases items, 0
  {
    hide Text;
    if items.Item? {
      TextNulFree(items.head, format, d);
      ItemsNulFree(items.tail, format, d);
    }
  }

  lemma {:induction false} MembersNulFree(members: Members, format: bool, d: nat)
    requires PrintableMembers(members)
    ensures NulFree(MembersText(members, format, d))
    decreases members, 0
  {
    hide Text, Quoted;
    if members.Member? {
      QuotedNulFree(members.name);
      TextNulFree(members.value, format, d);
      MembersNulFree(members.rest, format, d);
    }
  }
}
