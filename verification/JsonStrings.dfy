/**
 Which texts parse_string of utility/cjson/cJSON.c reads as strings, and what string each of
 them is, in the terms of section 7 of RFC 8259.
 */
module JsonStrings {
  import opened JsonText
  import opened JsonGrammar
  import opened JsonRoundTrip
  import opened JsonUnicode

  // ----- one character or escape

  ghost predicate NoDigits(s: string, p: nat)
    requires p + 4 <= |s|
  {
    forall k: nat :: !FourDigitsOf(s, p, k)
  }

  ghost predicate IsShortOf(letter: char, bytes: string) {
    exists code: nat :: IsShort(letter, code) && bytes == [code as char]
  }

  ghost predicate EscapeAt(s: string, q: nat, n: nat, bytes: string) {
    exists code: nat :: IsScalar(code) && IsEscape(s, q, code) && n == (if code < 0x1_0000 then 6 else 12)
                     && bytes == Utf8(code)
  }

  /** The n characters from q on stand for bytes: a character for itself, an escape of one
      letter for the character in the table, and escapes of a code point for its UTF-8 form,
      all of it in front of the quote at end; a \u without digits is read as a NUL. */
  ghost predicate Stands(s: string, q: nat, end: nat, n: nat, bytes: string)
    requires q < end < |s|
  {
    || (n == 1 && s[q] != '\\' && bytes == [s[q]])
    || (n == 2 && s[q] == '\\' && IsShortOf(s[q + 1], bytes))
    || (q + n <= end && EscapeAt(s, q, n, bytes))
    || (n == 6 && q + 6 <= end && s[q] == '\\' && s[q + 1] == 'u' && NoDigits(s, q + 2) && bytes == ['\0'])
  }

  lemma DigitsRead(s: string, p: nat)
    requires p + 4 <= |s|
    ensures Hex4(s, p) != 0 ==> FourDigitsOf(s, p, Hex4(s, p))
    ensures FourDigitsOf(s, p, Hex4(s, p)) || NoDigits(s, p)
  {
    hide FourDigitsOf, Hex4;
    if k: nat :| FourDigitsOf(s, p, k) {
      Hex4Exactly(s, p, k);
    } else {
      Hex4Exactly(s, p, 0);
    }
  }

  lemma PairCode(first: nat, second: nat)
    requires 0xD800 <= first <= 0xDBFF && 0xDC00 <= second <= 0xDFFF
    ensures var code := 0x1_0000 + first % 0x400 * 0x400 + second % 0x400;
      && 0x1_0000 <= code < 0x11_0000
      && 0xD800 + (code - 0x1_0000) / 0x400 == first && 0xDC00 + (code - 0x1_0000) % 0x400 == second
  {
    var a, b := first - 0xD800, second - 0xDC00;
    assert first % 0x400 == a && second % 0x400 == b;
  }

  lemma LiteralStands(s: string, q: nat, end: nat)
    requires q < end < |s| && s[q] == '\\' && s[q + 1] == 'u' && Literal(s, q, end).Step?
    ensures var r := Literal(s, q, end); Stands(s, q, end, r.size, r.bytes)
  {
    hide FourDigitsOf, Hex4, Utf8;
    var first := Hex4(s, q + 2);
    DigitsRead(s, q + 2);
    if 0xD800 <= first <= 0xDBFF {
      var second := Hex4(s, q + 8);
      DigitsRead(s, q + 8);
      PairCode(first, second);
      var code := 0x1_0000 + first % 0x400 * 0x400 + second % 0x400;
      assert IsScalar(code) && IsEscape(s, q, code);
    } else if FourDigitsOf(s, q + 2, first) {
      assert IsScalar(first) && IsEscape(s, q, first);
    } else {
      NulForm();
    }
  }

  lemma NulForm()
    ensures Utf8(0) == ['\0']
  {
  }

  lemma ShortStands(s: string, q: nat, end: nat)
    requires q < end < |s| && s[q] == '\\' && s[q + 1] != 'u'
    ensures StepAt(s, q, end).Step? ==> StepAt(s, q, end).size == 2 && IsShortOf(s[q + 1], StepAt(s, q, end).bytes)
  {
    hide IsShort;
    var c := s[q + 1];
    if code: nat :| IsShort(c, code) {
      ShortSmall(c, code);
      ShortEscapes(s, q, end, c, code);
    } else {
      ShortEscapes(s, q, end, c, 0);
    }
  }

  lemma ShortSmall(c: char, code: nat)
    requires IsShort(c, code)
    ensures code < 0x80 && c != 'u'
  {
  }

  /** One step of the second pass takes what stands for the bytes it writes. */
  lemma StepExactly(s: string, q: nat, end: nat, n: nat, bytes: string)
    requires q < end < |s|
    ensures StepAt(s, q, end) == Step(bytes, n) <==> Stands(s, q, end, n, bytes)
  {
    hide IsShort, Hex4, Utf8, FourDigitsOf;
    if StepAt(s, q, end) == Step(bytes, n) {
      if s[q] == '\\' {
        if s[q + 1] == 'u' {
          LiteralStands(s, q, end);
        } else {
          ShortStands(s, q, end);
        }
      }
    }
    if Stands(s, q, end, n, bytes) {
      StandsStep(s, q, end, n, bytes);
    }
  }

  lemma ShortStep(s: string, q: nat, end: nat, bytes: string)
    requires q < end < |s| && s[q] == '\\' && IsShortOf(s[q + 1], bytes)
    ensures StepAt(s, q, end) == Step(bytes, 2)
  {
    var code: nat :| IsShort(s[q + 1], code) && bytes == [code as char];
    ShortEscapes(s, q, end, s[q + 1], code);
  }

  lemma StandsStep(s: string, q: nat, end: nat, n: nat, bytes: string)
    requires q < end < |s| && Stands(s, q, end, n, bytes)
    ensures StepAt(s, q, end) == Step(bytes, n)
  {
    hide IsShort, Hex4, Utf8, FourDigitsOf, Escape, IsEscape;
    if n == 2 && s[q] == '\\' && IsShortOf(s[q + 1], bytes) {
      ShortStep(s, q, end, bytes);
    } else if q + n <= end && EscapeAt(s, q, n, bytes) {
      var code: nat :| IsScalar(code) && IsEscape(s, q, code) && n == (if code < 0x1_0000 then 6 else 12)
                    && bytes == Utf8(code);
      EscapeSize(code);
      AnyEscapeDecodes(code, s, q, end);
    } else if s[q] == '\\' {
      Hex4Exactly(s, q + 2, 0);
      NulForm();
    }
  }

  lemma EscapeSize(code: nat)
    requires IsScalar(code)
    ensures |Escape(code)| == if code < 0x1_0000 then 6 else 12
  {
  }

  // ----- whole strings

  /** What stands between q and end, one after the other: lengths and bytes. */
  ghost predicate AllStand(s: string, q: nat, end: nat, xs: seq<(nat, string)>)
    requires end < |s|
    decreases |xs|
  {
    if xs == [] then q >= end
    else q < end && Stands(s, q, end, xs[0].0, xs[0].1) && AllStand(s, q + xs[0].0, end, xs[1..])
  }

  function BytesOf(xs: seq<(nat, string)>): string {
    if xs == [] then "" else xs[0].1 + BytesOf(xs[1..])
  }

  lemma {:induction false} DecodeFound(s: string, q: nat, end: nat) returns (xs: seq<(nat, string)>)
    requires end < |s| && Decode(s, q, end).Some?
    ensures AllStand(s, q, end, xs) && Some(BytesOf(xs)) == Decode(s, q, end)
    decreases end - q
  {
    hide StepAt, Stands;
    if q >= end {
      xs := [];
    } else {
      var step := StepAt(s, q, end);
      StepExactly(s, q, end, step.size, step.bytes);
      var rest := DecodeFound(s, q + step.size, end);
      xs := [(step.size, step.bytes)] + rest;
      assert xs[1..] == rest;
    }
  }

  lemma {:induction false} DecodeThrough(s: string, q: nat, end: nat, xs: seq<(nat, string)>)
    requires end < |s| && AllStand(s, q, end, xs)
    ensures Decode(s, q, end) == Some(BytesOf(xs))
    decreases |xs|
  {
    hide StepAt, Stands;
    if xs != [] {
      StepExactly(s, q, end, xs[0].0, xs[0].1);
      DecodeThrough(s, q + xs[0].0, end, xs[1..]);
    }
  }

  /** Every quote in t has a backslash in front of it that is not itself behind such a one. */
  predicate Unquoted(t: string) {
    t == "" || (t[0] != '\"' && if t[0] == '\\' then |t| > 1 && Unquoted(t[2..]) else Unquoted(t[1..]))
  }

  lemma {:induction false} ScanFound(s: string, p: nat)
    requires Scan(s, p).Closed?
    ensures Unquoted(s[p..Scan(s, p).end])
    decreases |s| - p
  {
    var end := Scan(s, p).end;
    if s[p] != QUOTE {
      var n := if s[p] == BACKSLASH then 2 else 1;
      ScanFound(s, p + n);
      assert s[p..end][n..] == s[p + n..end];
    }
  }

  lemma {:induction false} ScanThrough(s: string, p: nat, end: nat)
    requires p <= end < |s| && s[end] == '\"' && Unquoted(s[p..end])
    ensures Scan(s, p).Closed? && Scan(s, p).end == end
    decreases end - p
  {
    if p < end {
      var n := if s[p] == BACKSLASH then 2 else 1;
      assert s[p..end][n..] == s[p + n..end];
      ScanThrough(s, p + n, end);
    }
  }

  /** text is what stands in front of the first NUL of bytes. */
  predicate CutAtNul(bytes: string, text: string) {
    NulFree(text) && text <= bytes && (|text| < |bytes| ==> bytes[|text|] == '\0')
  }

  lemma {:induction false} UpToNulExactly(bytes: string, text: string)
    ensures UpToNul(bytes) == text <==> CutAtNul(bytes, text)
    decreases |bytes|
  {
    if bytes != "" && bytes[0] != NUL {
      if text != "" && text[0] == bytes[0] {
        UpToNulExactly(bytes[1..], text[1..]);
        assert text == [text[0]] + text[1..] && bytes == [bytes[0]] + bytes[1..];
        CutOneMore(bytes, text);
      }
    }
  }

  lemma CutOneMore(bytes: string, text: string)
    requires bytes != "" && bytes[0] != NUL && text != "" && text[0] == bytes[0]
    ensures CutAtNul(bytes, text) <==> CutAtNul(bytes[1..], text[1..])
  {
    assert text == [text[0]] + text[1..] && bytes == [bytes[0]] + bytes[1..];
    assert text[1..] <= bytes[1..] ==> text <= bytes;
  }

  /** The string text stands in s from the quote at p up to q. */
  ghost predicate StringAt(s: string, p: nat, q: nat, text: string) {
    && p + 2 <= q <= |s| && s[p] == '\"' && s[q - 1] == '\"' && Unquoted(s[p + 1..q - 1])
    && exists xs :: AllStand(s, p + 1, q - 1, xs) && CutAtNul(BytesOf(xs), text)
  }

  lemma ParseStringExactly(s: string, p: nat, q: nat, text: string)
    requires Terminated(s) && p < |s|
    ensures ParseString(s, p) == Ok(text, q) <==> StringAt(s, p, q, text)
  {
    hide Scan, Decode, Unquoted, CutAtNul, UpToNul, AllStand, BytesOf;
    if ParseString(s, p) == Ok(text, q) {
      ScanFound(s, p + 1);
      var xs := DecodeFound(s, p + 1, q - 1);
      UpToNulExactly(BytesOf(xs), text);
    }
    if StringAt(s, p, q, text) {
      var xs :| AllStand(s, p + 1, q - 1, xs) && CutAtNul(BytesOf(xs), text);
      ScanThrough(s, p + 1, q - 1);
      DecodeThrough(s, p + 1, q - 1, xs);
      UpToNulExactly(BytesOf(xs), text);
    }
  }
}
