/**
 What the parser can produce, and that printing it and parsing that again changes nothing.
 */
module JsonReparse {
  import opened JsonText
  import opened JsonGrammar
  import opened JsonRoundTrip

  /** Every number in the value is an integer of magnitude below 10^15. */
  predicate WholeNumbers(v: Json) {
    match v
    case Number(x) => Whole(x)
    case Array(items) => WholeItems(items)
    case Object(members) => WholeMembers(members)
    case _ => true
  }

  predicate WholeItems(items: Items) {
    items.Item? ==> WholeNumbers(items.head) && WholeItems(items.tail)
  }

  predicate WholeMembers(members: Members) {
    members.Member? ==> WholeNumbers(members.value) && WholeMembers(members.rest)
  }

  /** What is parsed at some depth nests no deeper than the limit leaves, and has no NUL in
      its strings and names. */
  lemma {:induction false} ParsedValue(s: string, p: nat, depth: nat)
    requires Terminated(s) && p < |s| && depth <= NESTING_LIMIT && ParseValue(s, p, depth).Ok?
    ensures var v := ParseValue(s, p, depth).value;
      depth + Nesting(v) <= NESTING_LIMIT && (WholeNumbers(v) ==> Printable(v))
    decreases |s| - p, 2
  {
    hide ParseItems, ParseMembers, ParseString, ParseNumber, At, SkipSpace;
    if ParseValue(s, p, depth).value.Array? {
      ArrayFrom(s, p, depth);
      var q := SkipSpace(s, p + 1);
      if s[q] != ']' {
        ParsedItems(s, q, depth + 1);
      }
    } else if ParseValue(s, p, depth).value.Object? {
      ObjectFrom(s, p, depth);
      var q := SkipSpace(s, p + 1);
      if s[q] != '}' {
        ParsedMembers(s, q, depth + 1);
      }
    } else if ParseValue(s, p, depth).value.String? {
      StringFrom(s, p, depth);
    }
  }

  lemma ArrayFrom(s: string, p: nat, depth: nat)
    requires Terminated(s) && p < |s| && ParseValue(s, p, depth).Ok? && ParseValue(s, p, depth).value.Array?
    ensures s[p] == '[' && ParseValue(s, p, depth) == ParseArray(s, p, depth) && depth < NESTING_LIMIT
  {
    hide ParseItems, ParseMembers, ParseString, SkipSpace;
    NumberIsNumber(s, p);
  }

  lemma ObjectFrom(s: string, p: nat, depth: nat)
    requires Terminated(s) && p < |s| && ParseValue(s, p, depth).Ok? && ParseValue(s, p, depth).value.Object?
    ensures s[p] == '{' && ParseValue(s, p, depth) == ParseObject(s, p, depth) && depth < NESTING_LIMIT
  {
    hide ParseItems, ParseMembers, ParseString, SkipSpace;
    NumberIsNumber(s, p);
  }

  lemma StringFrom(s: string, p: nat, depth: nat)
    requires Terminated(s) && p < |s| && ParseValue(s, p, depth).Ok? && ParseValue(s, p, depth).value.String?
    ensures NulFree(ParseValue(s, p, depth).value.text)
  {
    hide ParseItems, ParseMembers, SkipSpace, Scan, Decode;
    NumberIsNumber(s, p);
  }

  lemma NumberIsNumber(s: string, p: nat)
    requires Terminated(s) && p < |s|
    ensures ParseNumber(s, p).Ok? ==> ParseNumber(s, p).value.Number?
  {
    hide Strtod, NumberChars;
  }

  lemma {:induction false} ParsedItems(s: string, p: nat, depth: nat)
    requires Terminated(s) && p < |s| && depth <= NESTING_LIMIT && ParseItems(s, p, depth).Ok?
    ensures var items := ParseItems(s, p, depth).value;
      depth + ItemsNesting(items) <= NESTING_LIMIT && (WholeItems(items) ==> PrintableItems(items))
    decreases |s| - p, 3
  {
    hide ParseValue, SkipSpace;
    var head := ParseValue(s, SkipSpace(s, p), depth);
    ParsedValue(s, SkipSpace(s, p), depth);
    var q := SkipSpace(s, head.next);
    if s[q] == ',' {
      ParsedItems(s, q + 1, depth);
    }
  }

  lemma {:induction false} ParsedMembers(s: string, p: nat, depth: nat)
    requires Terminated(s) && p < |s| && depth <= NESTING_LIMIT && ParseMembers(s, p, depth).Ok?
    ensures var members := ParseMembers(s, p, depth).value;
      depth + MembersNesting(members) <= NESTING_LIMIT && (WholeMembers(members) ==> PrintableMembers(members))
    decreases |s| - p, 3
  {
    hide ParseValue, SkipSpace, ParseString;
    var name := ParseString(s, SkipSpace(s, p));
    var colon := SkipSpace(s, name.next);
    var value := ParseValue(s, SkipSpace(s, colon + 1), depth);
    ParsedValue(s, SkipSpace(s, colon + 1), depth);
    var q := SkipSpace(s, value.next);
    if s[q] == ',' {
      ParsedMembers(s, q + 1, depth);
    }
  }

  lemma Parsed(text: string, requireEnd: bool)
    requires NulFree(text) && Parse(text, requireEnd).Ok?
    ensures var v := Parse(text, requireEnd).value;
      Nesting(v) <= NESTING_LIMIT && (WholeNumbers(v) ==> Printable(v))
  {
    hide ParseValue, SkipSpace, Printable, Nesting;
    var s := text + [NUL];
    var start := if |s| > 4 && s[..3] == BYTE_ORDER_MARK then 3 else 0;
    ParsedValue(s, SkipSpace(s, start), 0);
  }

  /** Whatever text a value with such numbers was parsed from, printing it and parsing that
      gives the value again. */
  lemma ParsePrintParse(text: string, requireEnd: bool, format: bool)
    requires NulFree(text) && Parse(text, requireEnd).Ok? && WholeNumbers(Parse(text, requireEnd).value)
    ensures var v := Parse(text, requireEnd).value;
      NulFree(Text(v, format, 0)) && Parse(Text(v, format, 0), true) == Ok(v, |Text(v, format, 0)|)
  {
    hide Parse, Text, Printable, Nesting;
    Parsed(text, requireEnd);
    PrintParse(Parse(text, requireEnd).value, format, true);
  }

  predicate HasText(v: Json, text: string) {
    NulFree(text) && Parse(text, true).Ok? && Parse(text, true).value == v
  }

  /** A value with such numbers can be parsed from some text if and only if its strings have
      no NUL and it nests no deeper than the limit. */
  lemma ParsedExactly(v: Json)
    requires WholeNumbers(v)
    ensures (exists text :: HasText(v, text)) <==> Printable(v) && Nesting(v) <= 1000
  {
    hide Parse, Text, Printable, Nesting, WholeNumbers;
    if text :| HasText(v, text) {
      Parsed(text, true);
    }
    if Printable(v) && Nesting(v) <= NESTING_LIMIT {
      PrintParse(v, false, true);
      assert HasText(v, Text(v, false, 0));
    }
  }
}
