/**
 Minifying keeps the meaning of every text that the parser accepts.
 */
module JsonMinifyParse {
  import opened JsonText
  import opened JsonGrammar
  import opened JsonRoundTrip
  import opened JsonMinify

  /** From p of s and from r of m on, m is the minified text. */
  ghost predicate Synced(s: string, p: nat, m: string, r: nat) {
    p < |s| && r <= |m| && Minified(s, p) == Some(m[r..])
  }

  lemma SyncEnd(s: string, p: nat, m: string, r: nat)
    requires Synced(s, p, m, r) && s[p] == NUL
    ensures r == |m|
  {
    assert m[r..] == "";
  }

  /** One step of the minifier keeps a part of the text, and the two stay in step. */
  lemma SyncStep(s: string, p: nat, m: string, r: nat)
    requires Synced(s, p, m, r) && s[p] != NUL
    ensures Next(s, p).Some?
    ensures var kept := Next(s, p).value.0;
      At(m, r, kept) && Synced(s, Next(s, p).value.1, m, r + |kept|)
  {
    hide Next;
    MinifiedStep(s, p);
    var kept, rest := Next(s, p).value.0, Minified(s, Next(s, p).value.1).value;
    assert m[r..] == kept + rest;
    assert |m[r..]| == |kept| + |rest|;
    assert m[r..r + |kept|] == m[r..][..|kept|] == kept;
    assert m[r + |kept|..] == m[r..][|kept|..] == rest;
  }

  /** A plain character is kept. */
  lemma SyncPlain(s: string, p: nat, m: string, r: nat)
    requires Synced(s, p, m, r) && IsPlain(s[p])
    ensures r < |m| && m[r] == s[p] && Synced(s, p + 1, m, r + 1)
  {
    hide Synced, At;
    SyncedHere(s, p, m, r);
    SyncStep(s, p, m, r);
    AtChar(m, r, [s[p]], 0);
  }

  lemma SyncedHere(s: string, p: nat, m: string, r: nat)
    requires Synced(s, p, m, r)
    ensures p < |s| && r <= |m|
  {
  }

  lemma {:induction false} SyncWord(s: string, p: nat, m: string, r: nat, t: string)
    requires Synced(s, p, m, r) && At(s, p, t) && forall i :: 0 <= i < |t| ==> IsPlain(t[i])
    ensures At(m, r, t) && Synced(s, p + |t|, m, r + |t|)
    decreases |t|
  {
    hide Synced, IsPlain;
    SyncedHere(s, p, m, r);
    if t != "" {
      AtChar(s, p, t, 0);
      assert t == t[..1] + t[1..];
      AtSplit(s, p, t[..1], t[1..]);
      SyncPlain(s, p, m, r);
      SyncWord(s, p + 1, m, r + 1, t[1..]);
      AtJoin(m, r, t[..1], t[1..]);
    }
  }

  lemma AtJoin(s: string, p: nat, a: string, b: string)
    requires At(s, p, a) && At(s, p + |a|, b)
    ensures At(s, p, a + b)
  {
    assert s[p..p + |a + b|] == s[p..p + |a|] + s[p + |a|..p + |a| + |b|];
  }

  // ----- white space

  /** Behind white space the two texts go on with the same character. */
  lemma {:induction false} SkipSync(s: string, p: nat, m: string, r: nat) returns (r2: nat)
    requires IsText(s) && Synced(s, p, m, r)
    requires s[SkipSpace(s, p)] != '/'
    ensures r <= |m| && r2 <= |m| && Synced(s, SkipSpace(s, p), m, r2)
    ensures SkipSpace(m + [NUL], r) == r2 && (m + [NUL])[r2] == s[SkipSpace(s, p)]
    decreases |s| - p
  {
    hide Synced, At, IsBlank;
    SyncedHere(s, p, m, r);
    if s[p] > ' ' {
      r2 := r;
      SkipNothing(s, p);
      FirstKept(s, p, m, r);
      SkipNothing(m + [NUL], r);
    } else if s[p] == NUL {
      SyncEnd(s, p, m, r);
      r2 := r;
      SkipLast(s, p);
      SkipLast(m + [NUL], r);
    } else {
      SyncStep(s, p, m, r);
      SkipMore(s, p);
      if IsBlank(s[p]) {
        BlankNext(s, p);
        r2 := SkipSync(s, p + 1, m, r);
      } else {
        ControlNext(s, p);
        AtChar(m, r, [s[p]], 0);
        SkipMore(m + [NUL], r);
        r2 := SkipSync(s, p + 1, m, r + 1);
      }
    }
  }

  lemma SkipLast(s: string, p: nat)
    requires Terminated(s) && p == |s| - 1
    ensures SkipSpace(s, p) == p
  {
  }

  lemma SkipMore(s: string, p: nat)
    requires p + 1 < |s| && s[p] <= ' '
    ensures SkipSpace(s, p) == SkipSpace(s, p + 1)
  {
  }

  lemma BlankNext(s: string, p: nat)
    requires p < |s| && IsBlank(s[p])
    ensures Next(s, p) == Some(("", p + 1))
  {
  }

  lemma ControlNext(s: string, p: nat)
    requires p < |s| && s[p] <= ' ' && !IsBlank(s[p])
    ensures Next(s, p) == Some(([s[p]], p + 1))
  {
  }

  lemma FirstKept(s: string, p: nat, m: string, r: nat)
    requires Synced(s, p, m, r) && s[p] > ' ' && s[p] != '/'
    ensures r < |m| && m[r] == s[p]
  {
    hide Synced, At;
    SyncedHere(s, p, m, r);
    SyncStep(s, p, m, r);
    var kept := Next(s, p).value.0;
    if s[p] == QUOTE {
      assert kept[0] == s[p];
    }
    AtChar(m, r, kept, 0);
  }

  // ----- strings

  /** From a to end, t has the characters of s, d places further on. */
  ghost predicate Shifted(s: string, a: nat, end: nat, t: string, d: int) {
    end < |s| && 0 <= a + d && end + d < |t| && forall x :: a <= x <= end ==> s[x] == t[x + d]
  }

  lemma {:induction false} ScanShifted(s: string, p: nat, end: nat, t: string, d: int)
    requires Scan(s, p).Closed? && Scan(s, p).end == end && Shifted(s, p, end, t, d)
    ensures p + d >= 0 && Scan(t, p + d) == Closed(end + d, Scan(s, p).units)
    decreases |s| - p
  {
    if s[p] == QUOTE {
    } else if s[p] == BACKSLASH {
      ScanShifted(s, p + 2, end, t, d);
    } else {
      ScanShifted(s, p + 1, end, t, d);
    }
  }

  lemma LiteralShifted(s: string, q: nat, end: nat, t: string, d: int)
    requires q < end && Shifted(s, q, end, t, d)
    ensures q + d >= 0 && end + d < |t| && Literal(t, q + d, end + d) == Literal(s, q, end)
  {
    hide Utf8;
    assert s[q] == t[q + d];
    if end - q >= 6 {
      Hex4Shifted(s, q + 2, end, t, d);
      if end - q >= 12 {
        assert s[q + 6] == t[q + 6 + d] && s[q + 7] == t[q + 7 + d];
        Hex4Shifted(s, q + 8, end, t, d);
      }
    }
  }

  lemma Hex4Shifted(s: string, p: nat, end: nat, t: string, d: int)
    requires Shifted(s, p, end, t, d) && p + 4 <= end
    ensures p + d >= 0 && p + 4 + d <= |t| && Hex4(t, p + d) == Hex4(s, p)
  {
    assert s[p] == t[p + d] && s[p + 1] == t[p + 1 + d] && s[p + 2] == t[p + 2 + d] && s[p + 3] == t[p + 3 + d];
  }

  lemma StepShifted(s: string, q: nat, end: nat, t: string, d: int)
    requires q < end && Shifted(s, q, end, t, d)
    ensures q + d >= 0 && end + d < |t| && StepAt(t, q + d, end + d) == StepAt(s, q, end)
  {
    hide Literal;
    assert s[q] == t[q + d] && s[q + 1] == t[q + 1 + d] && s[end] == t[end + d];
    LiteralShifted(s, q, end, t, d);
  }

  lemma {:induction false} DecodeShifted(s: string, q: nat, end: nat, t: string, d: int)
    requires q <= end + 1 && Shifted(s, q, end, t, d) && 0 <= end + d < |t| && q + d >= 0
    ensures Decode(t, q + d, end + d) == Decode(s, q, end)
    decreases end + 1 - q
  {
    hide StepAt;
    if q < end {
      StepShifted(s, q, end, t, d);
      var step := StepAt(s, q, end);
      if step.Step? {
        DecodeShifted(s, q + step.size, end, t, d);
      }
    }
  }

  /** A string literal is kept and read the same. */
  lemma StringSync(s: string, p: nat, m: string, r: nat) returns (r2: nat)
    requires IsText(s) && Synced(s, p, m, r) && ParseString(s, p).Ok?
    ensures r2 <= |m| && ParseString(m + [NUL], r) == Ok(ParseString(s, p).value, r2)
    ensures Synced(s, ParseString(s, p).next, m, r2)
  {
    hide Synced, Scan, Decode, StringEnd, Minified, UpToNul;
    SyncedHere(s, p, m, r);
    var end, t, d := Scan(s, p + 1).end, m + [NUL], r - p;
    StringEndIsScan(s, p + 1);
    SyncStep(s, p, m, r);
    var kept := s[p..end + 1];
    r2 := r + |kept|;
    assert s[end] == QUOTE && end + 1 < |s|;
    forall x | p <= x <= end
      ensures 0 <= x + d < |t| && s[x] == t[x + d]
    {
      AtChar(m, r, kept, x - p);
    }
    assert Shifted(s, p + 1, end, t, d);
    ScanShifted(s, p + 1, end, t, d);
    DecodeShifted(s, p + 1, end, t, d);
  }

  // ----- numbers

  /** What comes behind white space at q does not continue a number. */
  ghost predicate Followed(s: string, q: nat) {
    q < |s| && !IsNumberChar(s[SkipSpace(s, q)]) && s[SkipSpace(s, q)] != '/'
  }

  lemma NotFollowedByNumber(s: string, q: nat)
    requires Followed(s, q)
    ensures !IsNumberChar(s[q])
  {
  }

  lemma NumberSync(s: string, p: nat, m: string, r: nat) returns (r2: nat)
    requires IsText(s) && Synced(s, p, m, r) && ParseNumber(s, p).Ok? && Followed(s, ParseNumber(s, p).next)
    ensures r2 <= |m| && ParseNumber(m + [NUL], r) == Ok(ParseNumber(s, p).value, r2)
    ensures Synced(s, ParseNumber(s, p).next, m, r2)
  {
    hide Synced, Strtod, NumberChars, At, Followed, SkipSpace;
    SyncedHere(s, p, m, r);
    var t, next := NumberChars(s, p, NUMBER_LIMIT), ParseNumber(s, p).next;
    NumberCharsFacts(s, p, NUMBER_LIMIT);
    NotFollowedByNumber(s, next);
    if next < p + |t| {
      AtChar(s, p, t, next - p);
    }
    SyncWord(s, p, m, r, t);
    r2 := r + |t|;
    SyncedHere(s, next, m, r2);
    BehindNumber(s, next, m, r2);
    AtFrontOf(m, r, t);
    NumberCharsAre(t, m + [NUL], r, NUMBER_LIMIT);
  }

  lemma AtFrontOf(m: string, r: nat, t: string)
    requires At(m, r, t)
    ensures At(m + [NUL], r, t)
  {
  }

  lemma BehindNumber(s: string, q: nat, m: string, r: nat)
    requires IsText(s) && Synced(s, q, m, r) && Followed(s, q)
    ensures r <= |m| && !IsNumberChar((m + [NUL])[r])
  {
    hide Synced;
    SyncedHere(s, q, m, r);
    var r3 := SkipSync(s, q, m, r);
    if (m + [NUL])[r] > ' ' {
      SkipNothing(m + [NUL], r);
    }
  }

  // ----- values

  /** A value starts with none of the characters that the minifier treats specially, but a
      quote. */
  lemma ValueStart(s: string, p: nat, depth: nat)
    requires Terminated(s) && p < |s| && ParseValue(s, p, depth).Ok?
    ensures s[p] > ' ' && s[p] != '/' && s[p] != BYTE_ORDER_MARK[0]
  {
    hide ParseString, ParseNumber, ParseArray, ParseObject, At;
    WordStarts(s, p);
  }

  lemma WordStarts(s: string, p: nat)
    ensures At(s, p, "null") ==> p < |s| && s[p] == 'n'
    ensures At(s, p, "false") ==> p < |s| && s[p] == 'f'
    ensures At(s, p, "true") ==> p < |s| && s[p] == 't'
  {
    if At(s, p, "null") {
      AtChar(s, p, "null", 0);
    }
    if At(s, p, "false") {
      AtChar(s, p, "false", 0);
    }
    if At(s, p, "true") {
      AtChar(s, p, "true", 0);
    }
  }

  /** A value of the text is the same value of the minified text. */
  lemma {:induction false} ValueSync(s: string, p: nat, depth: nat, m: string, r: nat) returns (r2: nat)
    requires IsText(s) && Synced(s, p, m, r) && ParseValue(s, p, depth).Ok? && Followed(s, ParseValue(s, p, depth).next)
    ensures r <= |m| && r2 <= |m| && ParseValue(m + [NUL], r, depth) == Ok(ParseValue(s, p, depth).value, r2)
    ensures Synced(s, ParseValue(s, p, depth).next, m, r2)
    decreases |s| - p, 2
  {
    hide Synced, ParseString, ParseNumber, ParseArray, ParseObject, At, Followed;
    SyncedHere(s, p, m, r);
    var t := m + [NUL];
    WordStarts(s, p);
    if At(s, p, "null") {
      r2 := WordSync(s, p, m, r, depth, "null");
    } else if At(s, p, "false") {
      r2 := WordSync(s, p, m, r, depth, "false");
    } else if At(s, p, "true") {
      r2 := WordSync(s, p, m, r, depth, "true");
    } else {
      ValueStart(s, p, depth);
      FirstKept(s, p, m, r);
      Dispatch(s, p, depth);
      Dispatch(t, r, depth);
      if s[p] == QUOTE {
        r2 := StringSync(s, p, m, r);
      } else if StartsNumber(s[p]) {
        r2 := NumberSync(s, p, m, r);
      } else if s[p] == '[' {
        r2 := ArraySync(s, p, depth, m, r);
      } else {
        r2 := ObjectSync(s, p, depth, m, r);
      }
    }
  }

  lemma WordSync(s: string, p: nat, m: string, r: nat, depth: nat, word: string) returns (r2: nat)
    requires IsText(s) && Synced(s, p, m, r) && At(s, p, word)
    requires word == "null" || word == "false" || word == "true"
    ensures r <= |m| && r2 == r + |word| <= |m| && Synced(s, p + |word|, m, r2)
    ensures ParseValue(m + [NUL], r, depth)
         == Ok(if word == "null" then Null else if word == "false" then False else True, r2)
  {
    hide Synced, At;
    SyncedHere(s, p, m, r);
    SyncWord(s, p, m, r, word);
    r2 := r + |word|;
    SyncedHere(s, p + |word|, m, r2);
    AtFrontOf(m, r, word);
    WordBack(m + [NUL], r, depth);
  }

  lemma {:induction false} ArraySync(s: string, p: nat, depth: nat, m: string, r: nat) returns (r2: nat)
    requires IsText(s) && Synced(s, p, m, r) && s[p] == '[' && ParseArray(s, p, depth).Ok?
    ensures r < |m| && m[r] == '[' && r2 <= |m|
    ensures ParseArray(m + [NUL], r, depth) == Ok(ParseArray(s, p, depth).value, r2)
    ensures Synced(s, ParseArray(s, p, depth).next, m, r2)
    decreases |s| - p, 1
  {
    hide Synced, ParseItems, ParseArray, SkipSpace;
    SyncPlain(s, p, m, r);
    SyncedHere(s, p + 1, m, r + 1);
    ArrayStep(s, p, depth);
    ArrayStep(m + [NUL], r, depth);
    var q := SkipSpace(s, p + 1);
    if s[q] != ']' {
      ItemsStartAt(s, q, depth + 1);
    }
    var c := SkipSync(s, p + 1, m, r + 1);
    if s[q] == ']' {
      SyncPlain(s, q, m, c);
      r2 := c + 1;
    } else {
      r2 := ItemsSync(s, q, depth + 1, m, c);
    }
  }

  lemma ItemsStartAt(s: string, p: nat, depth: nat)
    requires Terminated(s) && p < |s| && ParseItems(s, p, depth).Ok?
    ensures ParseValue(s, SkipSpace(s, p), depth).Ok? && s[SkipSpace(s, p)] > ' ' && s[SkipSpace(s, p)] != '/'
    ensures s[p] > ' ' ==> s[p] != '/'
  {
    hide SkipSpace, ParseValue;
    ItemsStep(s, p, depth);
    ValueStart(s, SkipSpace(s, p), depth);
    if s[p] > ' ' {
      SkipNothing(s, p);
    }
  }

  lemma {:induction false} ItemsSync(s: string, p: nat, depth: nat, m: string, r: nat) returns (r2: nat)
    requires IsText(s) && Synced(s, p, m, r) && ParseItems(s, p, depth).Ok?
    ensures r <= |m| && r2 <= |m| && ParseItems(m + [NUL], r, depth) == Ok(ParseItems(s, p, depth).value, r2)
    ensures Synced(s, ParseItems(s, p, depth).next, m, r2)
    decreases |s| - p, 3
  {
    hide Synced, ParseItems, ParseValue, SkipSpace, Followed;
    var t := m + [NUL];
    SyncedHere(s, p, m, r);
    ItemsStartAt(s, p, depth);
    ItemsStep(s, p, depth);
    ItemsStep(t, r, depth);
    var q := SkipSpace(s, p);
    var next := ParseValue(s, q, depth).next;
    var c := SkipSpace(s, next);
    ItemsEnd(s, p, depth);
    FollowedBy(s, next);
    var a := SkipSync(s, p, m, r);
    var b := ValueSync(s, q, depth, m, a);
    var e := SkipSync(s, next, m, b);
    SyncPlain(s, c, m, e);
    if s[c] == ',' {
      r2 := ItemsSync(s, c + 1, depth, m, e + 1);
    } else {
      r2 := e + 1;
    }
  }

  lemma FollowedBy(s: string, q: nat)
    requires q < |s| && s[SkipSpace(s, q)] in {',', ']', '}', NUL}
    ensures Followed(s, q)
  {
  }

  lemma ItemsEnd(s: string, p: nat, depth: nat)
    requires Terminated(s) && p < |s| && ParseItems(s, p, depth).Ok? && ParseValue(s, SkipSpace(s, p), depth).Ok?
    ensures var c := SkipSpace(s, ParseValue(s, SkipSpace(s, p), depth).next);
      (s[c] == ',' && c + 1 < |s| && ParseItems(s, c + 1, depth).Ok?) || s[c] == ']'
  {
    hide SkipSpace, ParseValue;
  }

  // ----- objects

  lemma {:induction false} ObjectSync(s: string, p: nat, depth: nat, m: string, r: nat) returns (r2: nat)
    requires IsText(s) && Synced(s, p, m, r) && s[p] == '{' && ParseObject(s, p, depth).Ok?
    ensures r < |m| && m[r] == '{' && r2 <= |m|
    ensures ParseObject(m + [NUL], r, depth) == Ok(ParseObject(s, p, depth).value, r2)
    ensures Synced(s, ParseObject(s, p, depth).next, m, r2)
    decreases |s| - p, 1
  {
    hide Synced, ParseMembers, ParseObject, SkipSpace;
    SyncPlain(s, p, m, r);
    SyncedHere(s, p + 1, m, r + 1);
    ObjectStep(s, p, depth);
    ObjectStep(m + [NUL], r, depth);
    var q := SkipSpace(s, p + 1);
    if s[q] != '}' {
      MembersStartAt(s, q, depth + 1);
      SpaceEnd(s, p + 1);
    }
    var c := SkipSync(s, p + 1, m, r + 1);
    if s[q] == '}' {
      SyncPlain(s, q, m, c);
      r2 := c + 1;
    } else {
      r2 := MembersSync(s, q, depth + 1, m, c);
    }
  }

  /** Where white space ends, it stays ended. */
  lemma SpaceEnd(s: string, p: nat)
    requires p < |s|
    ensures SkipSpace(s, SkipSpace(s, p)) == SkipSpace(s, p)
  {
    var q := SkipSpace(s, p);
    if Skip(s, p) == |s| {
      LastSkipped(s, p);
    }
  }

  lemma {:induction false} LastSkipped(s: string, p: nat)
    requires p < |s| && Skip(s, p) == |s|
    ensures Skip(s, |s| - 1) == |s|
    decreases |s| - p
  {
    if p < |s| - 1 {
      LastSkipped(s, p + 1);
    }
  }

  lemma MembersStartAt(s: string, p: nat, depth: nat)
    requires Terminated(s) && p < |s| && ParseMembers(s, p, depth).Ok?
    ensures var name := ParseString(s, SkipSpace(s, p));
      && name.Ok? && s[SkipSpace(s, p)] == QUOTE
      && s[SkipSpace(s, name.next)] == ':' && SkipSpace(s, name.next) + 1 < |s|
      && ParseValue(s, SkipSpace(s, SkipSpace(s, name.next) + 1), depth).Ok?
  {
    hide SkipSpace, ParseValue, Scan, Decode;
  }

  lemma MembersEnd(s: string, p: nat, depth: nat, next: nat)
    requires Terminated(s) && p < |s| && next < |s| && ParseMembers(s, p, depth).Ok?
    requires var name := ParseString(s, SkipSpace(s, p));
      && name.Ok? && s[SkipSpace(s, name.next)] == ':' && SkipSpace(s, name.next) + 1 < |s|
      && ParseValue(s, SkipSpace(s, SkipSpace(s, name.next) + 1), depth).Ok?
      && ParseValue(s, SkipSpace(s, SkipSpace(s, name.next) + 1), depth).next == next
    ensures var c := SkipSpace(s, next);
      (s[c] == ',' && c + 1 < |s| && ParseMembers(s, c + 1, depth).Ok?) || s[c] == '}'
  {
    hide SkipSpace, ParseValue, ParseString;
  }

  lemma {:induction false} MembersSync(s: string, p: nat, depth: nat, m: string, r: nat) returns (r2: nat)
    requires IsText(s) && Synced(s, p, m, r) && ParseMembers(s, p, depth).Ok?
    ensures r <= |m| && r2 <= |m| && ParseMembers(m + [NUL], r, depth) == Ok(ParseMembers(s, p, depth).value, r2)
    ensures Synced(s, ParseMembers(s, p, depth).next, m, r2)
    decreases |s| - p, 3
  {
    hide Synced, ParseMembers, ParseValue, ParseString, SkipSpace, Followed;
    var t := m + [NUL];
    SyncedHere(s, p, m, r);
    MembersStartAt(s, p, depth);
    MembersStep(s, p, depth);
    var q := SkipSpace(s, p);
    var colon := SkipSpace(s, ParseString(s, q).next);
    var u := SkipSpace(s, colon + 1);
    var next := ParseValue(s, u, depth).next;
    var c := SkipSpace(s, next);
    MembersEnd(s, p, depth, next);
    FollowedBy(s, next);
    ValueStart(s, u, depth);
    var a := SkipSync(s, p, m, r);
    var b := StringSync(s, q, m, a);
    SyncedHere(s, ParseString(s, q).next, m, b);
    var k := SkipSync(s, ParseString(s, q).next, m, b);
    SyncPlain(s, colon, m, k);
    SyncedHere(s, colon + 1, m, k + 1);
    var v := SkipSync(s, colon + 1, m, k + 1);
    var w := ValueSync(s, u, depth, m, v);
    var e := SkipSync(s, next, m, w);
    SyncPlain(s, c, m, e);
    MembersStep(t, r, depth);
    if s[c] == ',' {
      r2 := MembersSync(s, c + 1, depth, m, e + 1);
    } else {
      r2 := e + 1;
    }
  }

  // ----- accepted texts can be minified

  /** From p on the text does not end inside a string or a comment. */
  ghost predicate Fine(s: string, p: nat) {
    Minified(s, p).Some?
  }

  lemma FinePlain(s: string, p: nat)
    requires p < |s| && IsPlain(s[p]) && Fine(s, p + 1)
    ensures Fine(s, p)
  {
  }

  lemma {:induction false} FineWord(s: string, p: nat, t: string)
    requires At(s, p, t) && Fine(s, p + |t|) && forall i :: 0 <= i < |t| ==> IsPlain(t[i])
    ensures Fine(s, p)
    decreases |t|
  {
    hide Fine, IsPlain, At;
    if t != "" {
      AtChar(s, p, t, 0);
      assert t == t[..1] + t[1..];
      AtSplit(s, p, t[..1], t[1..]);
      FineWord(s, p + 1, t[1..]);
      FinePlain(s, p);
    }
  }

  lemma {:induction false} FineSkip(s: string, p: nat)
    requires IsText(s) && p < |s| && Fine(s, SkipSpace(s, p))
    ensures Fine(s, p)
    decreases |s| - p
  {
    if s[p] <= ' ' && s[p] != NUL {
      SkipMore(s, p);
      FineSkip(s, p + 1);
    } else if s[p] > ' ' {
      SkipNothing(s, p);
    }
  }

  lemma FineString(s: string, p: nat)
    requires IsText(s) && p < |s| && ParseString(s, p).Ok? && Fine(s, ParseString(s, p).next)
    ensures Fine(s, p)
  {
    hide Scan, Decode, StringEnd;
    var end := Scan(s, p + 1).end;
    assert s[end] == QUOTE && end < |s| - 1;
    StringEndIsScan(s, p + 1);
  }

  lemma FineNumber(s: string, p: nat)
    requires IsText(s) && p < |s| && ParseNumber(s, p).Ok? && Fine(s, ParseNumber(s, p).next)
    ensures Fine(s, p)
  {
    hide Fine, Strtod, NumberChars, At;
    var t, n := NumberChars(s, p, NUMBER_LIMIT), ParseNumber(s, p).next - p;
    NumberCharsFacts(s, p, NUMBER_LIMIT);
    assert t == t[..n] + t[n..];
    AtSplit(s, p, t[..n], t[n..]);
    FineWord(s, p, t[..n]);
  }

  lemma {:induction false} FineValue(s: string, p: nat, depth: nat)
    requires IsText(s) && p < |s| && ParseValue(s, p, depth).Ok? && Fine(s, ParseValue(s, p, depth).next)
    ensures Fine(s, p)
    decreases |s| - p, 2
  {
    hide Fine, ParseString, ParseNumber, ParseArray, ParseObject, At;
    if At(s, p, "null") {
      FineWord(s, p, "null");
    } else if At(s, p, "false") {
      FineWord(s, p, "false");
    } else if At(s, p, "true") {
      FineWord(s, p, "true");
    } else if s[p] == QUOTE {
      FineString(s, p);
    } else if StartsNumber(s[p]) {
      FineNumber(s, p);
    } else if s[p] == '[' {
      FineArray(s, p, depth);
    } else {
      FineObject(s, p, depth);
    }
  }

  lemma {:induction false} FineArray(s: string, p: nat, depth: nat)
    requires IsText(s) && p < |s| && s[p] == '[' && ParseArray(s, p, depth).Ok? && Fine(s, ParseArray(s, p, depth).next)
    ensures Fine(s, p)
    decreases |s| - p, 1
  {
    hide Fine, ParseItems, SkipSpace;
    var q := SkipSpace(s, p + 1);
    if s[q] == ']' {
      FinePlain(s, q);
    } else {
      FineItems(s, q, depth + 1);
    }
    FineSkip(s, p + 1);
    FinePlain(s, p);
  }

  lemma {:induction false} FineItems(s: string, p: nat, depth: nat)
    requires IsText(s) && p < |s| && ParseItems(s, p, depth).Ok? && Fine(s, ParseItems(s, p, depth).next)
    ensures Fine(s, p)
    decreases |s| - p, 3
  {
    hide Fine, ParseItems, ParseValue, SkipSpace;
    ItemsStartAt(s, p, depth);
    ItemsEnd(s, p, depth);
    ItemsStep(s, p, depth);
    var q := SkipSpace(s, p);
    var next := ParseValue(s, q, depth).next;
    var c := SkipSpace(s, next);
    if s[c] == ',' {
      FineItems(s, c + 1, depth);
    }
    FinePlain(s, c);
    FineSkip(s, next);
    FineValue(s, q, depth);
    FineSkip(s, p);
  }

  lemma {:induction false} FineObject(s: string, p: nat, depth: nat)
    requires IsText(s) && p < |s| && s[p] == '{' && ParseObject(s, p, depth).Ok? && Fine(s, ParseObject(s, p, depth).next)
    ensures Fine(s, p)
    decreases |s| - p, 1
  {
    hide Fine, ParseMembers, SkipSpace;
    var q := SkipSpace(s, p + 1);
    if s[q] == '}' {
      FinePlain(s, q);
    } else {
      FineMembers(s, q, depth + 1);
    }
    FineSkip(s, p + 1);
    FinePlain(s, p);
  }

  lemma {:induction false} FineMembers(s: string, p: nat, depth: nat)
    requires IsText(s) && p < |s| && ParseMembers(s, p, depth).Ok? && Fine(s, ParseMembers(s, p, depth).next)
    ensures Fine(s, p)
    decreases |s| - p, 3
  {
    hide Fine, ParseMembers, ParseValue, ParseString, SkipSpace;
    MembersStartAt(s, p, depth);
    MembersStep(s, p, depth);
    var q := SkipSpace(s, p);
    var after := ParseString(s, q).next;
    var colon := SkipSpace(s, after);
    var u := SkipSpace(s, colon + 1);
    var next := ParseValue(s, u, depth).next;
    var c := SkipSpace(s, next);
    MembersEnd(s, p, depth, next);
    if s[c] == ',' {
      FineMembers(s, c + 1, depth);
    }
    FinePlain(s, c);
    FineSkip(s, next);
    FineValue(s, u, depth);
    FineSkip(s, colon + 1);
    FinePlain(s, colon);
    FineSkip(s, after);
    FineString(s, q);
    FineSkip(s, p);
  }

  // ----- whole texts

  lemma {:induction false} MinifiedNulFree(s: string, p: nat)
    requires IsText(s) && Minified(s, p).Some?
    ensures NulFree(Minified(s, p).value)
    decreases |s| - p
  {
    MinifiedStep(s, p);
    if s[p] != NUL {
      var next := Next(s, p).value;
      KeptNulFree(s, p);
      MinifiedNulFree(s, next.1);
      NulFreeConcat(next.0, Minified(s, next.1).value);
    }
  }

  lemma KeptNulFree(s: string, p: nat)
    requires IsText(s) && p < |s| && s[p] != NUL && Next(s, p).Some? && Next(s, p).value.1 < |s|
    ensures NulFree(Next(s, p).value.0)
  {
    hide StringEnd, LineEnd, CommentEnd;
    NextAdvances(s, p);
  }

  /** The parts of a text that the parser accepts to its end. */
  lemma Accepted(text: string) returns (start: nat, next: nat)
    requires NulFree(text) && Parse(text, true).Ok?
    ensures IsText(text + [NUL]) && start < next < |text + [NUL]|
    ensures start == if |text| >= 4 && text[..3] == BYTE_ORDER_MARK then 3 else 0
    ensures var s := text + [NUL];
      && ParseValue(s, SkipSpace(s, start), 0) == Ok(Parse(text, true).value, next)
      && s[SkipSpace(s, next)] == NUL
  {
    hide ParseValue, SkipSpace;
    var s := text + [NUL];
    start := if |s| > 4 && s[..3] == BYTE_ORDER_MARK then 3 else 0;
    assert |text| >= 4 ==> s[..3] == text[..3];
    next := ParseValue(s, SkipSpace(s, start), 0).next;
  }

  lemma MarkPlain()
    ensures forall i :: 0 <= i < |BYTE_ORDER_MARK| ==> IsPlain(BYTE_ORDER_MARK[i])
  {
  }

  lemma FineText(s: string, start: nat, next: nat, v: Json)
    requires IsText(s) && start < next < |s| && ParseValue(s, SkipSpace(s, start), 0) == Ok(v, next)
    requires s[SkipSpace(s, next)] == NUL && (start == 0 || (start == 3 && At(s, 0, BYTE_ORDER_MARK)))
    ensures Fine(s, 0)
  {
    hide ParseValue, SkipSpace, At;
    assert Fine(s, SkipSpace(s, next));
    hide Fine;
    FineSkip(s, next);
    FineValue(s, SkipSpace(s, start), 0);
    FineSkip(s, start);
    if start == 3 {
      MarkPlain();
      FineWord(s, 0, BYTE_ORDER_MARK);
    }
  }

  /** Every text that the parser accepts to its end can be minified, and the minified text
      is accepted to its end with the same value. */
  lemma MinifyKeepsMeaning(text: string) returns (m: string)
    requires NulFree(text) && Parse(text, true).Ok?
    ensures Minified(text + [NUL], 0) == Some(m) && NulFree(m)
    ensures Parse(m, true) == Ok(Parse(text, true).value, |m|)
  {
    hide ParseValue, SkipSpace, At, Minified, Followed;
    var s, v := text + [NUL], Parse(text, true).value;
    var start, next := Accepted(text);
    if start == 3 {
      AtFront(text[..3], s[3..]);
      assert s == text[..3] + s[3..];
    }
    FineText(s, start, next, v);
    m := Minified(s, 0).value;
    assert m[0..] == m;
    assert Synced(s, 0, m, 0);
    MinifiedNulFree(s, 0);
    hide Synced;
    if start == 3 {
      MarkPlain();
      SyncWord(s, 0, m, 0, BYTE_ORDER_MARK);
    }
    var r3 := TailSync(s, start, next, v, m, start);
    MinifiedParse(start, v, m, r3);
  }

  /** From the start of the value to the end of the text. */
  lemma TailSync(s: string, start: nat, next: nat, v: Json, m: string, r: nat) returns (r3: nat)
    requires IsText(s) && start < next < |s| && ParseValue(s, SkipSpace(s, start), 0) == Ok(v, next)
    requires s[SkipSpace(s, next)] == NUL && Synced(s, start, m, r)
    ensures r < |m| && r3 <= |m| && SkipSpace(m + [NUL], r) < |m| && r3 > SkipSpace(m + [NUL], r)
    ensures ParseValue(m + [NUL], SkipSpace(m + [NUL], r), 0) == Ok(v, r3)
    ensures SkipSpace(m + [NUL], r3) == |m|
    ensures m[r] <= ' ' || m[r] == s[SkipSpace(s, start)]
    ensures s[SkipSpace(s, start)] != BYTE_ORDER_MARK[0]
  {
    hide ParseValue, SkipSpace, Synced, Followed;
    SyncedHere(s, start, m, r);
    ValueStart(s, SkipSpace(s, start), 0);
    FollowedBy(s, next);
    var t := m + [NUL];
    var r2 := SkipSync(s, start, m, r);
    r3 := ValueSync(s, SkipSpace(s, start), 0, m, r2);
    var r4 := SkipSync(s, next, m, r3);
    SyncEnd(s, SkipSpace(s, next), m, r4);
    if t[r] > ' ' {
      SkipNothing(t, r);
    }
  }

  lemma MinifiedParse(start: nat, v: Json, m: string, r3: nat)
    requires NulFree(m) && r3 <= |m| && start < |m|
    requires start == 3 ==> At(m, 0, BYTE_ORDER_MARK)
    requires start == 0 || start == 3
    requires start == 0 ==> m[0] <= ' ' || m[0] != BYTE_ORDER_MARK[0]
    requires ParseValue(m + [NUL], SkipSpace(m + [NUL], start), 0) == Ok(v, r3) && SkipSpace(m + [NUL], r3) == |m|
    ensures Parse(m, true) == Ok(v, |m|)
  {
    hide ParseValue, SkipSpace;
    var t := m + [NUL];
    if start == 3 {
      assert t[..3] == m[0..0 + 3] == BYTE_ORDER_MARK;
    } else {
      assert t[0] == m[0];
      assert |t| > 4 ==> t[..3][0] == m[0];
    }
  }
}
