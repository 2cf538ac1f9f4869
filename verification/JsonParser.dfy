/**
 The recursive parser of utility/cjson/cJSON.c as it runs: a cursor over the text, two
 passes over each string, and lists that grow at the end.
 */
module JsonParser {
  import opened JsonText
  import opened JsonGrammar

  // ----- how much room a string needs

  /** At q the second pass can write no more than r characters up to the closing quote:
      r counts the units from q on, or q is inside a unit and r counts that one too. */
  ghost predicate Budget(s: string, q: nat, end: nat, r: nat) {
    Scan(s, q) == Closed(end, r) || (r > 0 && Scan(s, q + 1) == Closed(end, r - 1))
  }

  lemma BudgetLeft(s: string, q: nat, end: nat, r: nat)
    requires Budget(s, q, end, r) && q < end
    ensures r > 0
  {
  }

  /** One character that is no backslash uses up one. */
  lemma BudgetOne(s: string, q: nat, end: nat, r: nat)
    requires Budget(s, q, end, r) && q < end < |s| && s[q] != BACKSLASH
    ensures r > 0 && Budget(s, q + 1, end, r - 1)
  {
  }

  /** Any two characters use up one. */
  lemma BudgetTwo(s: string, q: nat, end: nat, r: nat) returns (left: nat)
    requires Budget(s, q, end, r) && q + 2 <= end < |s|
    ensures left + 1 <= r && Budget(s, q + 2, end, left)
  {
    if Scan(s, q) == Closed(end, r) {
      if s[q] == BACKSLASH {
        left := r - 1;
      } else if s[q + 1] == BACKSLASH {
        left := r - 1;
        assert Scan(s, q + 1) == Closed(end, r - 1);
      } else {
        left := r - 2;
        assert Scan(s, q + 1) == Closed(end, r - 1);
      }
    } else if s[q + 1] == BACKSLASH {
      left := r - 1;
    } else {
      left := r - 2;
    }
  }

  lemma BudgetMany(s: string, q: nat, end: nat, r: nat, k: nat) returns (left: nat)
    requires Budget(s, q, end, r) && q + 2 * k <= end < |s|
    ensures left + k <= r && Budget(s, q + 2 * k, end, left)
    decreases k
  {
    hide Budget;
    if k == 0 {
      left := r;
    } else {
      var next := BudgetTwo(s, q, end, r);
      left := BudgetMany(s, q + 2, end, next, k - 1);
    }
  }

  /** A step of the second pass writes no more than the budget it uses up, wherever the
      two passes stand. */
  lemma StepFits(s: string, q: nat, end: nat, r: nat) returns (left: nat)
    requires Budget(s, q, end, r) && q < end < |s| && StepAt(s, q, end).Step?
    ensures |StepAt(s, q, end).bytes| + left <= r
    ensures q + StepAt(s, q, end).size <= end ==> Budget(s, q + StepAt(s, q, end).size, end, left)
  {
    hide Budget, Literal, Utf8;
    BudgetLeft(s, q, end, r);
    var step := StepAt(s, q, end);
    if s[q] != BACKSLASH {
      BudgetOne(s, q, end, r);
      left := r - 1;
    } else if s[q + 1] == 'u' {
      LiteralSize(s, q, end);
      left := BudgetMany(s, q, end, r, if step.size == 6 then 3 else 6);
    } else if q + 2 <= end {
      left := BudgetTwo(s, q, end, r);
    } else {
      left := 0;
    }
  }

  lemma LiteralSize(s: string, q: nat, end: nat)
    requires q < end < |s| && Literal(s, q, end).Step?
    ensures Literal(s, q, end).size == 6 ==> |Literal(s, q, end).bytes| <= 3
  {
  }

  // ----- UTF-8

  /** code without its last k groups of six bits. */
  function Shifted(code: nat, k: nat): nat {
    if k == 0 then code else Shifted(code, k - 1) / 0x40
  }

  lemma ShiftedIs(code: nat)
    ensures Shifted(code, 0) == code && Shifted(code, 1) == code / 0x40
    ensures Shifted(code, 2) == code / 0x1000 && Shifted(code, 3) == code / 0x4_0000
  {
    assert Shifted(code, 1) == Shifted(code, 0) / 0x40;
    assert Shifted(code, 2) == Shifted(code, 1) / 0x40;
    assert Shifted(code, 3) == Shifted(code, 2) / 0x40;
  }

  function FirstMark(length: nat): nat {
    if length == 2 then 0xC0 else if length == 3 then 0xE0 else 0xF0
  }

  lemma Utf8Bytes(code: nat, j: nat)
    requires code < 0x11_0000 && j < |Utf8(code)|
    ensures j > 0 ==> Utf8(code)[j] == (0x80 + Shifted(code, |Utf8(code)| - 1 - j) % 0x40) as char
    ensures j == 0 && |Utf8(code)| > 1 ==>
      FirstMark(|Utf8(code)|) + Shifted(code, |Utf8(code)| - 1) < 0x100
      && Utf8(code)[0] == (FirstMark(|Utf8(code)|) + Shifted(code, |Utf8(code)| - 1)) as char
    ensures |Utf8(code)| == 1 ==> code < 0x80 && Utf8(code)[0] == code as char
  {
    ShiftedIs(code);
  }

  /** Writes the UTF-8 form of a code point, last byte first. */
  method EncodeUtf8(codepoint: nat, length: nat, output: array<char>, out: nat)
    requires codepoint < 0x11_0000 && length == |Utf8(codepoint)| && out + length <= output.Length
    modifies output
    ensures output[..out + length] == old(output[..out]) + Utf8(codepoint)
  {
    hide Utf8;
    var code, position := codepoint, length - 1;
    assert Shifted(codepoint, 0) == codepoint;
    while position > 0
      invariant 0 <= position <= length - 1 && code == Shifted(codepoint, length - 1 - position)
      invariant output[..out] == old(output[..out])
      invariant forall j :: position < j < length ==> output[out + j] == Utf8(codepoint)[j]
    {
      Utf8Bytes(codepoint, position);
      output[out + position] := (0x80 + code % 0x40) as char;
      code := code / 0x40;
      position := position - 1;
    }
    Utf8Bytes(codepoint, 0);
    if length > 1 {
      output[out] := (FirstMark(length) + code) as char;
    } else {
      output[out] := (code % 0x80) as char;
    }
    assert output[..out] == old(output[..out]);
  }

  // ----- lists that grow at the end

  function Behind(front: Items, r: Parsed<Items>): Parsed<Items> {
    if r.Fail? then Fail else Ok(JoinItems(front, r.value), r.next)
  }

  function BehindMembers(front: Members, r: Parsed<Members>): Parsed<Members> {
    if r.Fail? then Fail else Ok(JoinMembers(front, r.value), r.next)
  }

  class ParseBuffer {
    const content: string
    var offset: nat
    var depth: nat

    ghost predicate Valid()
      reads this`offset
    {
      Terminated(content) && offset < |content|
    }

    constructor (text: string)
      ensures content == text + [NUL] && Valid() && offset == 0 && depth == 0
    {
      content := text + [NUL];
      offset, depth := 0, 0;
    }

    method SkipWhitespace()
      requires Valid()
      modifies this`offset
      ensures Valid() && offset == SkipSpace(content, old(offset))
    {
      while offset < |content| && content[offset] <= ' '
        invariant old(offset) <= offset <= |content|
        invariant Skip(content, old(offset)) == Skip(content, offset)
      {
        offset := offset + 1;
      }
      if offset == |content| {
        offset := offset - 1;
      }
    }

    /** Four hexadecimal digits, or zero. */
    method ParseHex4(p: nat) returns (h: nat)
      requires p + 4 <= |content|
      ensures h == Hex4(content, p)
    {
      h := 0;
      var i := 0;
      while i < 4
        invariant 0 <= i <= 4
        invariant forall k :: p <= k < p + i ==> IsHex(content[k])
        invariant i > 0 ==> h == (if i < 4 then 0x10 else 1) * Prefix(content, p, i)
        invariant i == 0 ==> h == 0
      {
        var c := content[p + i];
        if !IsHex(c) {
          return 0;
        }
        h := h + HexValue(c);
        if i < 3 {
          h := 0x10 * h;
        }
        i := i + 1;
      }
      PrefixFour(content, p, i);
    }

    /** Copies the number characters at the cursor, and a NUL behind them. */
    method CopyNumber(copy: array<char>) returns (i: nat)
      requires Valid() && copy.Length > 0
      modifies copy
      ensures i < copy.Length && copy[i] == NUL
      ensures copy[..i] == NumberChars(content, offset, copy.Length - 1)
    {
      hide IsNumberChar, NumberChars;
      i := 0;
      ghost var all := NumberChars(content, offset, copy.Length - 1);
      assert copy[..0] == "" && all == "" + all;
      while i < copy.Length - 1 && offset + i < |content| && IsNumberChar(content[offset + i])
        invariant 0 <= i <= copy.Length - 1 && offset + i <= |content|
        invariant all == copy[..i] + NumberChars(content, offset + i, copy.Length - 1 - i)
      {
        var c := content[offset + i];
        ghost var front := copy[..i];
        NumberCharsStep(content, offset + i, copy.Length - 1 - i, front);
        copy[i] := c;
        assert copy[..i + 1] == front + [c];
        i := i + 1;
      }
      NumberCharsStep(content, offset + i, copy.Length - 1 - i, copy[..i]);
      copy[i] := NUL;
    }

    /** Copies the number at the cursor and converts it. */
    method ParseNumber() returns (ok: bool, v: Json)
      requires Valid()
      modifies this`offset
      ensures var r := JsonGrammar.ParseNumber(content, old(offset));
        ok == r.Ok? && (ok ==> v == r.value && offset == r.next && Valid())
    {
      hide Strtod, NumberChars;
      var copy := new char[NUMBER_LIMIT + 1];
      var i := CopyNumber(copy);
      var number := Strtod(copy[..i]);
      if number.consumed == 0 {
        return false, Null;
      }
      ok, v := true, Number(number.value);
      offset := offset + number.consumed;
    }

    /** A \u escape: how many characters it takes, or zero, and what it writes. */
    method Utf16Literal(q: nat, end: nat, output: array<char>, out: nat) returns (size: nat, written: nat)
      requires q < end < |content|
      requires var r := Literal(content, q, end); out + (if r.Step? then |r.bytes| else 0) <= output.Length
      modifies output
      ensures var r := Literal(content, q, end);
        && (r.Bad? ==> size == 0 && written == 0)
        && (r.Step? ==> size == r.size && written == |r.bytes|
                        && output[..out + written] == old(output[..out]) + r.bytes)
    {
      hide Hex4, Utf8;
      if end - q < 6 {
        return 0, 0;
      }
      var first := ParseHex4(q + 2);
      if 0xDC00 <= first <= 0xDFFF {
        return 0, 0;
      }
      var codepoint := first;
      size := 6;
      if 0xD800 <= first <= 0xDBFF {
        size := 12;
        if end - (q + 6) < 6 || content[q + 6] != BACKSLASH || content[q + 7] != 'u' {
          return 0, 0;
        }
        var second := ParseHex4(q + 8);
        if second < 0xDC00 || second > 0xDFFF {
          return 0, 0;
        }
        codepoint := 0x1_0000 + first % 0x400 * 0x400 + second % 0x400;
      }
      written := if codepoint < 0x80 then 1 else if codepoint < 0x800 then 2 else if codepoint < 0x1_0000 then 3 else 4;
      Utf8Length(codepoint);
      EncodeUtf8(codepoint, written, output, out);
    }

    /** The first pass: the closing quote, and how many backslashes were skipped. */
    method FindEnd(p: nat) returns (ok: bool, end: nat, skipped: nat)
      requires Terminated(content) && p < |content|
      ensures var r := Scan(content, p);
        ok == r.Closed? && (ok ==> end == r.end && end - p - skipped == r.units)
    {
      end, skipped := p, 0;
      ghost var units := 0;
      while end < |content| && content[end] != QUOTE
        invariant p <= end <= |content| && end - p - skipped == units
        invariant Scan(content, p) == MoreUnits(Scan(content, end), units)
      {
        if content[end] == BACKSLASH {
          if end + 1 >= |content| {
            return false, 0, 0;
          }
          skipped := skipped + 1;
          end := end + 1;
        }
        end := end + 1;
        units := units + 1;
      }
      if end >= |content| || content[end] != QUOTE {
        return false, 0, 0;
      }
      ok := true;
    }

    /** A string in quotes.  The second pass writes into an array of the size that the first
        pass computed, and stays inside it whatever the escapes are. */
    method ParseString() returns (ok: bool, text: string)
      requires Valid()
      modifies this`offset
      ensures var r := JsonGrammar.ParseString(content, old(offset));
        ok == r.Ok? && (ok ==> text == r.value && offset == r.next && Valid())
    {
      hide Scan, Decode, UpToNul;
      text := "";
      if content[offset] != QUOTE {
        return false, "";
      }
      var found, end, skipped := FindEnd(offset + 1);
      if !found {
        return false, "";
      }
      var allocation := (end - offset) - skipped;
      var output := new char[allocation + 1];
      var decoded, out := DecodeInto(offset + 1, end, output, Scan(content, offset + 1).units);
      if !decoded {
        return false, "";
      }
      output[out] := NUL;
      ok, text := true, UpToNul(output[..out]);
      offset := end + 1;
    }

    /** One character or escape sequence of the second pass; size is zero if it is bad. */
    method OneStep(q: nat, end: nat, output: array<char>, out: nat) returns (size: nat, written: nat)
      requires q < end < |content|
      requires var r := StepAt(content, q, end); out + (if r.Step? then |r.bytes| else 0) < output.Length
      modifies output
      ensures var r := StepAt(content, q, end);
        && (r.Bad? ==> size == 0)
        && (r.Step? ==> size == r.size && written == |r.bytes|
                        && output[..out + written] == old(output[..out]) + r.bytes)
    {
      hide Literal;
      size, written := 2, 1;
      if content[q] != BACKSLASH {
        size := 1;
        output[out] := content[q];
      } else {
        match content[q + 1]
        case 'b' => output[out] := BACKSPACE;
        case 'f' => output[out] := FORMFEED;
        case 'n' => output[out] := '\n';
        case 'r' => output[out] := '\r';
        case 't' => output[out] := '\t';
        case '\"' => output[out] := content[q + 1];
        case '\\' => output[out] := content[q + 1];
        case '/' => output[out] := content[q + 1];
        case 'u' => size, written := Utf16Literal(q, end, output, out);
        case _ => size, written := 0, 0;
      }
    }

    /** The second pass: writes the characters up to the closing quote. */
    method DecodeInto(start: nat, end: nat, output: array<char>, ghost units: nat) returns (ok: bool, out: nat)
      requires start <= end < |content| && Scan(content, start) == Closed(end, units) && output.Length == units + 2
      modifies output
      ensures var r := Decode(content, start, end);
        ok == r.Some? && (ok ==> out <= units && output[..out] == r.value)
    {
      hide Scan, Literal, StepAt;
      var q := start;
      out := 0;
      ghost var left := units;
      BudgetStart(content, start, end, units);
      PrependNothing(Decode(content, start, end));
      assert output[..0] == "";
      while q < end
        invariant q <= end + 1 && out + left <= units
        invariant q <= end ==> Budget(content, q, end, left)
        invariant Decode(content, start, end) == Prepend(output[..out], Decode(content, q, end))
        decreases end + 1 - q
      {
        ghost var step, front := StepAt(content, q, end), output[..out];
        if step.Step? {
          left := StepFits(content, q, end, left);
        }
        var size, written := OneStep(q, end, output, out);
        if size == 0 {
          return false, 0;
        }
        PrependPrepend(front, step.bytes, Decode(content, q + size, end));
        q, out := q + size, out + written;
      }
      ok := true;
    }

    /** A value at the cursor. */
    method ParseValue() returns (ok: bool, v: Json)
      requires Valid()
      modifies this`offset, this`depth
      ensures var r := JsonGrammar.ParseValue(content, old(offset), old(depth));
        ok == r.Ok? && (ok ==> v == r.value && offset == r.next && depth == old(depth) && Valid())
      decreases |content| - offset, 1
    {
      hide JsonGrammar.ParseArray, JsonGrammar.ParseObject, JsonGrammar.ParseNumber, JsonGrammar.ParseString;
      if At(content, offset, "null") {
        assert content[offset + 3] == 'l';
        ok, v := true, Null;
        offset := offset + 4;
      } else if At(content, offset, "false") {
        assert content[offset + 4] == 'e';
        ok, v := true, False;
        offset := offset + 5;
      } else if At(content, offset, "true") {
        assert content[offset + 3] == 'e';
        ok, v := true, True;
        offset := offset + 4;
      } else if content[offset] == QUOTE {
        var text;
        ok, text := ParseString();
        v := String(text);
      } else if StartsNumber(content[offset]) {
        ok, v := ParseNumber();
      } else if content[offset] == '[' {
        ok, v := ParseArray();
      } else if content[offset] == '{' {
        ok, v := ParseObject();
      } else {
        ok, v := false, Null;
      }
    }

    /** An array: the items are attached at the end of a list. */
    method ParseArray() returns (ok: bool, v: Json)
      requires Valid() && content[offset] == '['
      modifies this`offset, this`depth
      ensures var r := JsonGrammar.ParseArray(content, old(offset), old(depth));
        ok == r.Ok? && (ok ==> v == r.value && offset == r.next && depth == old(depth) && Valid())
      decreases |content| - offset, 0
    {
      hide JsonGrammar.ParseItems, SkipSpace;
      if depth >= NESTING_LIMIT {
        return false, Null;
      }
      depth := depth + 1;
      offset := offset + 1;
      SkipWhitespace();
      var items := NoItems;
      if content[offset] != ']' {
        ok, items := ParseItems();
        if !ok {
          return false, Null;
        }
      }
      depth := depth - 1;
      ok, v := true, Array(items);
      offset := offset + 1;
    }

    /** The loop over the items, from the first one to the closing bracket. */
    method ParseItems() returns (ok: bool, items: Items)
      requires Valid() && offset > 0
      modifies this`offset, this`depth
      ensures var r := JsonGrammar.ParseItems(content, old(offset), old(depth));
        && ok == r.Ok?
        && (ok ==> items == r.value && offset + 1 == r.next && depth == old(depth) && Valid() && content[offset] == ']')
      decreases |content| - offset, 2
    {
      hide SkipSpace, JsonGrammar.ParseItems, JsonGrammar.ParseValue, Behind;
      ghost var all := JsonGrammar.ParseItems(content, offset, depth);
      items := NoItems;
      BehindNothing(all);
      offset := offset - 1;
      var more := true;
      while more
        invariant depth == old(depth) && old(offset) <= offset + 1 && offset < |content|
        invariant more ==> offset + 1 < |content| && all == Behind(items, JsonGrammar.ParseItems(content, offset + 1, depth))
        invariant !more ==> all == if content[offset] == ']' then Ok(items, offset + 1) else Fail
        decreases |content| - offset, more
      {
        ItemsStep(content, offset + 1, depth, items);
        offset := offset + 1;
        SkipWhitespace();
        var parsed, v := ParseValue();
        if !parsed {
          return false, NoItems;
        }
        SkipWhitespace();
        items := AppendItem(items, v);
        more := content[offset] == ',';
      }
      ok := content[offset] == ']';
    }

    /** An object: the members are attached at the end of a list. */
    method ParseObject() returns (ok: bool, v: Json)
      requires Valid() && content[offset] == '{'
      modifies this`offset, this`depth
      ensures var r := JsonGrammar.ParseObject(content, old(offset), old(depth));
        ok == r.Ok? && (ok ==> v == r.value && offset == r.next && depth == old(depth) && Valid())
      decreases |content| - offset, 0
    {
      hide JsonGrammar.ParseMembers, SkipSpace;
      if depth >= NESTING_LIMIT {
        return false, Null;
      }
      depth := depth + 1;
      offset := offset + 1;
      SkipWhitespace();
      var members := NoMembers;
      if content[offset] != '}' {
        ok, members := ParseMembers();
        if !ok {
          return false, Null;
        }
      }
      depth := depth - 1;
      ok, v := true, Object(members);
      offset := offset + 1;
    }

    /** A name with its colon, up to the value. */
    method ParseName() returns (ok: bool, name: string)
      requires Valid()
      modifies this`offset
      ensures var r := JsonGrammar.ParseString(content, SkipSpace(content, old(offset)));
        && ok == (r.Ok? && content[SkipSpace(content, r.next)] == ':')
        && (ok ==> name == r.value && SkipSpace(content, r.next) + 1 < |content|
                   && offset == SkipSpace(content, SkipSpace(content, r.next) + 1) && Valid())
    {
      hide SkipSpace, JsonGrammar.ParseString;
      SkipWhitespace();
      ok, name := ParseString();
      if !ok {
        return;
      }
      SkipWhitespace();
      if content[offset] != ':' {
        return false, "";
      }
      offset := offset + 1;
      SkipWhitespace();
    }

    /** The loop over the members, from the first one to the closing brace. */
    method ParseMembers() returns (ok: bool, members: Members)
      requires Valid() && offset > 0
      modifies this`offset, this`depth
      ensures var r := JsonGrammar.ParseMembers(content, old(offset), old(depth));
        && ok == r.Ok?
        && (ok ==> members == r.value && offset + 1 == r.next && depth == old(depth) && Valid() && content[offset] == '}')
      decreases |content| - offset, 2
    {
      hide SkipSpace, JsonGrammar.ParseMembers, JsonGrammar.ParseValue, JsonGrammar.ParseString, BehindMembers;
      ghost var all := JsonGrammar.ParseMembers(content, offset, depth);
      members := NoMembers;
      BehindNoMembers(all);
      offset := offset - 1;
      var more := true;
      while more
        invariant depth == old(depth) && old(offset) <= offset + 1 && offset < |content|
        invariant more ==>
          offset + 1 < |content| && all == BehindMembers(members, JsonGrammar.ParseMembers(content, offset + 1, depth))
        invariant !more ==> all == if content[offset] == '}' then Ok(members, offset + 1) else Fail
        decreases |content| - offset, more
      {
        MembersStep(content, offset + 1, depth, members);
        offset := offset + 1;
        var parsed, name := ParseName();
        if !parsed {
          return false, NoMembers;
        }
        var v;
        parsed, v := ParseValue();
        if !parsed {
          return false, NoMembers;
        }
        SkipWhitespace();
        members := AppendMember(members, name, v);
        more := content[offset] == ',';
      }
      ok := content[offset] == '}';
    }
  }

  /** The value of the first n of four digits. */
  function Prefix(s: string, p: nat, n: nat): nat
    requires p + n <= |s| && forall k :: p <= k < p + n ==> IsHex(s[k])
  {
    if n == 0 then 0 else 0x10 * Prefix(s, p, n - 1) + HexValue(s[p + n - 1])
  }

  lemma PrefixFour(s: string, p: nat, n: nat)
    requires n == 4 && p + n <= |s| && forall k :: p <= k < p + n ==> IsHex(s[k])
    ensures Prefix(s, p, n) == Hex4(s, p)
  {
    assert Prefix(s, p, n - 3) == HexValue(s[p]);
    assert Prefix(s, p, n - 2) == 0x10 * HexValue(s[p]) + HexValue(s[p + 1]);
  }

  lemma Utf8Length(code: nat)
    requires code < 0x11_0000
    ensures |Utf8(code)| == if code < 0x80 then 1 else if code < 0x800 then 2 else if code < 0x1_0000 then 3 else 4
  {
  }

  function MoreUnits(r: Scanned, n: nat): Scanned {
    if r.Closed? then Closed(r.end, r.units + n) else r
  }

  lemma BudgetStart(s: string, q: nat, end: nat, r: nat)
    requires Scan(s, q) == Closed(end, r)
    ensures Budget(s, q, end, r)
  {
  }

  lemma BehindNothing(r: Parsed<Items>)
    ensures Behind(NoItems, r) == r
  {
  }

  /** One turn of the loop over items. */
  lemma ItemsStep(s: string, p: nat, depth: nat, front: Items)
    requires Terminated(s) && p < |s|
    ensures var head := JsonGrammar.ParseValue(s, SkipSpace(s, p), depth);
      var all := Behind(front, JsonGrammar.ParseItems(s, p, depth));
      if head.Fail? then all == Fail
      else
        var q := SkipSpace(s, head.next);
        if s[q] == ',' then
          q + 1 < |s| && all == Behind(AppendItem(front, head.value), JsonGrammar.ParseItems(s, q + 1, depth))
        else all == if s[q] == ']' then Ok(AppendItem(front, head.value), q + 1) else Fail
  {
    hide JsonGrammar.ParseValue, SkipSpace;
    var head := JsonGrammar.ParseValue(s, SkipSpace(s, p), depth);
    if head.Ok? {
      var q := SkipSpace(s, head.next);
      JoinAppendedItem(front, head.value, NoItems);
      if s[q] == ',' {
        var tail := JsonGrammar.ParseItems(s, q + 1, depth);
        if tail.Ok? {
          JoinAppendedItem(front, head.value, tail.value);
        }
      }
    }
  }

  lemma BehindNoMembers(r: Parsed<Members>)
    ensures BehindMembers(NoMembers, r) == r
  {
  }

  /** One turn of the loop over members. */
  lemma MembersStep(s: string, p: nat, depth: nat, front: Members)
    requires Terminated(s) && p < |s|
    ensures var name := JsonGrammar.ParseString(s, SkipSpace(s, p));
      var all := BehindMembers(front, JsonGrammar.ParseMembers(s, p, depth));
      if name.Fail? then all == Fail
      else
        var colon := SkipSpace(s, name.next);
        if s[colon] != ':' then all == Fail
        else
          colon + 1 < |s|
          && var value := JsonGrammar.ParseValue(s, SkipSpace(s, colon + 1), depth);
             if value.Fail? then all == Fail
             else
               var q := SkipSpace(s, value.next);
               var grown := AppendMember(front, name.value, value.value);
               if s[q] == ',' then
                 q + 1 < |s| && all == BehindMembers(grown, JsonGrammar.ParseMembers(s, q + 1, depth))
               else all == if s[q] == '}' then Ok(grown, q + 1) else Fail
  {
    hide JsonGrammar.ParseValue, JsonGrammar.ParseString, SkipSpace;
    var name := JsonGrammar.ParseString(s, SkipSpace(s, p));
    if name.Ok? {
      var colon := SkipSpace(s, name.next);
      if s[colon] == ':' {
        var value := JsonGrammar.ParseValue(s, SkipSpace(s, colon + 1), depth);
        if value.Ok? {
          var q := SkipSpace(s, value.next);
          JoinAppendedMember(front, name.value, value.value, NoMembers);
          if s[q] == ',' {
            var rest := JsonGrammar.ParseMembers(s, q + 1, depth);
            if rest.Ok? {
              JoinAppendedMember(front, name.value, value.value, rest.value);
            }
          }
        }
      }
    }
  }

  lemma NumberCharsStep(s: string, p: nat, n: nat, front: string)
    requires p <= |s|
    ensures if n > 0 && p < |s| && IsNumberChar(s[p]) then
        front + NumberChars(s, p, n) == (front + [s[p]]) + NumberChars(s, p + 1, n - 1)
      else front + NumberChars(s, p, n) == front
  {
  }

  /** cJSON_ParseWithOpts, with the end of what was read. */
  method ParseText(text: string, requireEnd: bool) returns (r: Parsed<Json>)
    requires NulFree(text)
    ensures r == Parse(text, requireEnd)
  {
    hide JsonGrammar.ParseValue, SkipSpace;
    var buffer := new ParseBuffer(text);
    if 4 < |buffer.content| && buffer.content[..3] == BYTE_ORDER_MARK {
      buffer.offset := 3;
    }
    buffer.SkipWhitespace();
    var ok, v := buffer.ParseValue();
    if !ok {
      return Fail;
    }
    if requireEnd {
      buffer.SkipWhitespace();
      if buffer.content[buffer.offset] != NUL {
        return Fail;
      }
    }
    return Ok(v, buffer.offset);
  }
}
