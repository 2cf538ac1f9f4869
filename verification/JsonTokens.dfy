/**
 The texts of values by their tokens: exactly which texts the parser accepts, and what the
 printers write.
 */
module JsonTokens {
  import opened JsonText
  import opened JsonGrammar
  import opened JsonRoundTrip
  import opened JsonReparse
  import S = JsonStrings
  import N = JsonNumbers

  datatype Token =
    | LeftBrace | RightBrace | LeftBracket | RightBracket | Comma | Colon
    | NullWord | FalseWord | TrueWord
    | Str(text: string)
    | Num(value: real)

  /** The tokens of a value, section 2 of RFC 8259. */
  function Tokens(v: Json): (ts: seq<Token>)
    ensures |ts| > 0
  {
    match v
    case Null => [NullWord]
    case False => [FalseWord]
    case True => [TrueWord]
    case Number(x) => [Num(x)]
    case String(text) => [Str(text)]
    case Array(items) => [LeftBracket] + ItemTokens(items) + [RightBracket]
    case Object(members) => [LeftBrace] + MemberTokens(members) + [RightBrace]
  }

  function ItemTokens(items: Items): seq<Token> {
    if items.NoItems? then []
    else Tokens(items.head) + if items.tail.NoItems? then [] else [Comma] + ItemTokens(items.tail)
  }

  function MemberTokens(members: Members): seq<Token> {
    if members.NoMembers? then []
    else
      [Str(members.name), Colon] + Tokens(members.value)
      + if members.rest.NoMembers? then [] else [Comma] + MemberTokens(members.rest)
  }

  /** The tokens behind an item, up to and with the closing bracket. */
  function BehindItem(tail: Items): (ts: seq<Token>)
    ensures |ts| > 0
  {
    if tail.NoItems? then [RightBracket] else [Comma] + (ItemTokens(tail) + [RightBracket])
  }

  function BehindMember(rest: Members): (ts: seq<Token>)
    ensures |ts| > 0
  {
    if rest.NoMembers? then [RightBrace] else [Comma] + (MemberTokens(rest) + [RightBrace])
  }

  lemma ItemTokensShape(items: Items)
    requires items.Item?
    ensures ItemTokens(items) + [RightBracket] == Tokens(items.head) + BehindItem(items.tail)
  {
    var one := Tokens(items.head);
    hide Tokens;
    if items.tail.NoItems? {
      assert one + [] == one;
    } else {
      Regroup(one, [Comma], ItemTokens(items.tail), [RightBracket]);
    }
  }

  lemma MemberTokensShape(members: Members)
    requires members.Member?
    ensures MemberTokens(members) + [RightBrace]
         == [Str(members.name)] + ([Colon] + (Tokens(members.value) + BehindMember(members.rest)))
  {
    var one := Tokens(members.value);
    hide Tokens;
    var front := [Str(members.name), Colon];
    NameFirst(Str(members.name), one + BehindMember(members.rest));
    if members.rest.NoMembers? {
      assert front + one + [] + [RightBrace] == front + (one + [RightBrace]);
    } else {
      Regroup(front + one, [Comma], MemberTokens(members.rest), [RightBrace]);
      RegroupLeft(front, one, BehindMember(members.rest));
    }
  }

  lemma Regroup(a: seq<Token>, b: seq<Token>, c: seq<Token>, d: seq<Token>)
    ensures a + (b + c) + d == a + (b + (c + d))
  {
  }

  lemma RegroupLeft(a: seq<Token>, b: seq<Token>, c: seq<Token>)
    ensures a + b + c == a + (b + c)
  {
  }

  lemma NameFirst(name: Token, ts: seq<Token>)
    ensures [name, Colon] + ts == [name] + ([Colon] + ts)
  {
  }

  // ----- tokens in a text

  /** How a token is spelled that is always spelled the same. */
  function Spelling(t: Token): string {
    match t
    case LeftBrace => "{"
    case RightBrace => "}"
    case LeftBracket => "["
    case RightBracket => "]"
    case Comma => ","
    case Colon => ":"
    case NullWord => "null"
    case FalseWord => "false"
    case TrueWord => "true"
    case Str(_) => ""
    case Num(_) => ""
  }

  /** The token t stands in s from p up to q. */
  ghost predicate TokenAt(s: string, p: nat, q: nat, t: Token) {
    && Terminated(s) && p < |s|
    && match t
       case Str(text) => S.StringAt(s, p, q, text)
       case Num(x) => (s[p] == '-' || '0' <= s[p] <= '9') && N.NumberAt(s, p, q, x)
       case _ => At(s, p, Spelling(t)) && q == p + |Spelling(t)|
  }

  /** Nothing but blanks and control characters between p and q. */
  predicate Gap(s: string, p: nat, q: nat) {
    p <= q < |s| && (forall i :: p <= i < q ==> s[i] <= ' ') && s[q] > ' '
  }

  /** The tokens stand in s from p up to q, in this order, with gaps between them. */
  ghost predicate Lexes(s: string, p: nat, q: nat, ts: seq<Token>)
    decreases |ts|
  {
    if |ts| == 0 then false
    else if |ts| == 1 then TokenAt(s, p, q, ts[0])
    else exists r: nat, next: nat :: TokenAt(s, p, r, ts[0]) && Gap(s, r, next) && Lexes(s, next, q, ts[1..])
  }

  lemma {:induction false} LexesJoin(s: string, p: nat, q: nat, a: seq<Token>, next: nat, end: nat, b: seq<Token>)
    requires Lexes(s, p, q, a) && Gap(s, q, next) && Lexes(s, next, end, b)
    ensures Lexes(s, p, end, a + b)
    decreases |a|
  {
    hide TokenAt, Gap;
    assert |b| > 0;
    if |a| == 1 {
      assert (a + b)[1..] == b;
    } else {
      var r: nat, n: nat :| TokenAt(s, p, r, a[0]) && Gap(s, r, n) && Lexes(s, n, q, a[1..]);
      LexesJoin(s, n, q, a[1..], next, end, b);
      assert (a + b)[1..] == a[1..] + b;
    }
  }

  lemma {:induction false} LexesSplit(s: string, p: nat, end: nat, a: seq<Token>, b: seq<Token>)
    returns (q: nat, next: nat)
    requires |a| > 0 && |b| > 0 && Lexes(s, p, end, a + b)
    ensures Lexes(s, p, q, a) && Gap(s, q, next) && Lexes(s, next, end, b)
    decreases |a|
  {
    hide TokenAt, Gap;
    var r: nat, n: nat :| TokenAt(s, p, r, (a + b)[0]) && Gap(s, r, n) && Lexes(s, n, end, (a + b)[1..]);
    assert (a + b)[1..] == a[1..] + b;
    if |a| == 1 {
      q, next := r, n;
      assert a[1..] + b == b;
    } else {
      q, next := LexesSplit(s, n, end, a[1..], b);
    }
  }

  lemma LexesOne(s: string, p: nat, q: nat, t: Token)
    ensures Lexes(s, p, q, [t]) <==> TokenAt(s, p, q, t)
  {
  }

  /** A bracket, a comma or a colon. */
  lemma MarkAt(s: string, p: nat, t: Token)
    requires Terminated(s) && p < |s| && |Spelling(t)| == 1
    ensures s[p] == Spelling(t)[0] <==> Lexes(s, p, p + 1, [t])
  {
    LexesOne(s, p, p + 1, t);
    assert s[p..p + 1] == [s[p]] && Spelling(t) == [Spelling(t)[0]];
  }

  lemma GapSkips(s: string, p: nat, q: nat)
    requires p < |s|
    ensures Gap(s, p, q) ==> SkipSpace(s, p) == q
    ensures s[SkipSpace(s, p)] > ' ' ==> Gap(s, p, SkipSpace(s, p))
  {
    SkipBlank(s, p);
    if Gap(s, p, q) {
      SkipTo(s, p, q);
    }
  }

  lemma {:induction false} SkipBlank(s: string, p: nat)
    requires p <= |s|
    ensures forall i :: p <= i < Skip(s, p) ==> s[i] <= ' '
    decreases |s| - p
  {
    if p < |s| && s[p] <= ' ' {
      SkipBlank(s, p + 1);
    }
  }

  lemma {:induction false} SkipTo(s: string, p: nat, q: nat)
    requires Gap(s, p, q)
    ensures Skip(s, p) == q
    decreases q - p
  {
    if p < q {
      SkipTo(s, p + 1, q);
    }
  }

  // ----- what is accepted has the tokens of its value

  lemma {:induction false} ParsedLexes(s: string, p: nat, depth: nat)
    requires Terminated(s) && p < |s| && ParseValue(s, p, depth).Ok?
    ensures Lexes(s, p, ParseValue(s, p, depth).next, Tokens(ParseValue(s, p, depth).value))
    decreases |s| - p, 2
  {
    hide ParseItems, ParseMembers, ParseString, ParseNumber, SkipSpace, Lexes, TokenAt, At, Gap;
    var r := ParseValue(s, p, depth);
    if r.value.Array? {
      ArrayFrom(s, p, depth);
      var q := SkipSpace(s, p + 1);
      var first, ts := q, ItemTokens(r.value.items);
      if s[q] == ']' {
        MarkAt(s, q, RightBracket);
        GapSkips(s, p + 1, q);
        assert [] + [RightBracket] == [RightBracket];
      } else {
        first := ItemsLex(s, q, depth + 1);
        GapFrom(s, p + 1, q, first);
      }
      MarkAt(s, p, LeftBracket);
      LexesJoin(s, p, p + 1, [LeftBracket], first, r.next, ts + [RightBracket]);
      assert [LeftBracket] + (ts + [RightBracket]) == [LeftBracket] + ts + [RightBracket];
    } else if r.value.Object? {
      ParsedObjectLexes(s, p, depth);
    } else {
      ScalarFrom(s, p, depth);
      LexesOne(s, p, r.next, Tokens(r.value)[0]);
      assert Tokens(r.value) == [Tokens(r.value)[0]];
    }
  }

  lemma {:induction false} ParsedObjectLexes(s: string, p: nat, depth: nat)
    requires Terminated(s) && p < |s| && ParseValue(s, p, depth).Ok? && ParseValue(s, p, depth).value.Object?
    ensures Lexes(s, p, ParseValue(s, p, depth).next, Tokens(ParseValue(s, p, depth).value))
    decreases |s| - p, 1
  {
    hide ParseItems, ParseMembers, ParseString, ParseNumber, SkipSpace, Lexes, TokenAt, At, Gap;
    var r := ParseValue(s, p, depth);
    ObjectFrom(s, p, depth);
    var q := SkipSpace(s, p + 1);
    var first, ts := q, MemberTokens(r.value.members);
    if s[q] == '}' {
      MarkAt(s, q, RightBrace);
      GapSkips(s, p + 1, q);
      assert [] + [RightBrace] == [RightBrace];
    } else {
      first := MembersLex(s, q, depth + 1);
      GapFrom(s, p + 1, q, first);
    }
    MarkAt(s, p, LeftBrace);
    LexesJoin(s, p, p + 1, [LeftBrace], first, r.next, ts + [RightBrace]);
    assert [LeftBrace] + (ts + [RightBrace]) == [LeftBrace] + ts + [RightBrace];
  }

  /** Skipping to q and from there to a token is one gap. */
  lemma GapFrom(s: string, p: nat, q: nat, first: nat)
    requires p < |s| && q == SkipSpace(s, p) && Gap(s, q, first)
    ensures Gap(s, p, first)
  {
    hide SkipSpace;
    GapSkips(s, p, q);
    SkipLands(s, p);
  }

  lemma SkipLands(s: string, p: nat)
    requires p < |s|
    ensures SkipSpace(s, p) + 1 == |s| || s[SkipSpace(s, p)] > ' '
  {
  }

  lemma ScalarFrom(s: string, p: nat, depth: nat)
    requires Terminated(s) && p < |s| && ParseValue(s, p, depth).Ok?
    requires !ParseValue(s, p, depth).value.Array? && !ParseValue(s, p, depth).value.Object?
    ensures var r := ParseValue(s, p, depth); |Tokens(r.value)| == 1 && TokenAt(s, p, r.next, Tokens(r.value)[0])
  {
    hide ParseItems, ParseMembers, ParseString, ParseNumber, SkipSpace, S.StringAt, N.NumberAt;
    NumberIsNumber(s, p);
    var r := ParseValue(s, p, depth);
    if r.value.String? {
      S.ParseStringExactly(s, p, r.next, r.value.text);
    } else if r.value.Number? {
      N.ParseNumberExactly(s, p, r.next, r.value.value);
    }
  }

  lemma {:induction false} ItemsLex(s: string, p: nat, depth: nat) returns (first: nat)
    requires Terminated(s) && p < |s| && ParseItems(s, p, depth).Ok?
    ensures Gap(s, p, first)
    ensures Lexes(s, first, ParseItems(s, p, depth).next, ItemTokens(ParseItems(s, p, depth).value) + [RightBracket])
    decreases |s| - p, 3
  {
    hide ParseValue, SkipSpace, Lexes, Gap;
    first := SkipSpace(s, p);
    var head := ParseValue(s, first, depth);
    ParsedLexes(s, first, depth);
    LexStarts(s, first, head.next, Tokens(head.value));
    GapSkips(s, p, first);
    var q := SkipSpace(s, head.next);
    GapSkips(s, head.next, q);
    ItemTokensShape(ParseItems(s, p, depth).value);
    hide ItemTokens, Tokens;
    if s[q] == ',' {
      var tail := ParseItems(s, q + 1, depth);
      var next := ItemsLex(s, q + 1, depth);
      MarkAt(s, q, Comma);
      LexesJoin(s, q, q + 1, [Comma], next, tail.next, ItemTokens(tail.value) + [RightBracket]);
      assert tail.value.Item?;
    } else {
      MarkAt(s, q, RightBracket);
    }
    LexesJoin(s, first, head.next, Tokens(head.value), q, ParseItems(s, p, depth).next,
              BehindItem(ParseItems(s, p, depth).value.tail));
  }

  /** A token does not start with a blank. */
  lemma LexStarts(s: string, p: nat, q: nat, ts: seq<Token>)
    requires Lexes(s, p, q, ts)
    ensures p < |s| && s[p] > ' '
  {
    hide N.NumberAt, S.AllStand, S.Unquoted;
    if !ts[0].Str? && !ts[0].Num? {
      AtChar(s, p, Spelling(ts[0]), 0);
    }
  }

  lemma {:induction false} MembersLex(s: string, p: nat, depth: nat) returns (first: nat)
    requires Terminated(s) && p < |s| && ParseMembers(s, p, depth).Ok?
    ensures Gap(s, p, first)
    ensures Lexes(s, first, ParseMembers(s, p, depth).next, MemberTokens(ParseMembers(s, p, depth).value) + [RightBrace])
    decreases |s| - p, 3
  {
    hide ParseValue, ParseString, SkipSpace, Lexes, Gap;
    first := SkipSpace(s, p);
    var name := ParseString(s, first);
    var colon := SkipSpace(s, name.next);
    var start := SkipSpace(s, colon + 1);
    var value := ParseValue(s, start, depth);
    var one := NameLexes(s, p, first, name.value, name.next, colon, start, depth);
    var q := SkipSpace(s, value.next);
    GapSkips(s, value.next, q);
    MemberTokensShape(ParseMembers(s, p, depth).value);
    hide MemberTokens, Tokens;
    if s[q] == ',' {
      var rest := ParseMembers(s, q + 1, depth);
      var next := MembersLex(s, q + 1, depth);
      MarkAt(s, q, Comma);
      LexesJoin(s, q, q + 1, [Comma], next, rest.next, MemberTokens(rest.value) + [RightBrace]);
      assert rest.value.Member?;
    } else {
      MarkAt(s, q, RightBrace);
    }
    var behind := BehindMember(ParseMembers(s, p, depth).value.rest);
    LexesJoin(s, first, value.next, one, q, ParseMembers(s, p, depth).next, behind);
    NameFirst(Str(name.value), Tokens(value.value));
    RegroupLeft([Str(name.value)], [Colon] + Tokens(value.value), behind);
    RegroupLeft([Colon], Tokens(value.value), behind);
  }

  /** A name, a colon and a value. */
  lemma {:induction false} NameLexes(s: string, p: nat, first: nat, name: string, end: nat, colon: nat, start: nat, depth: nat)
    returns (one: seq<Token>)
    requires Terminated(s) && p < |s| && first == SkipSpace(s, p) && ParseString(s, first) == Ok(name, end)
    requires colon == SkipSpace(s, end) && s[colon] == ':' && colon + 1 < |s| && start == SkipSpace(s, colon + 1)
    requires ParseValue(s, start, depth).Ok? && start > p
    ensures Gap(s, p, first) && one == [Str(name), Colon] + Tokens(ParseValue(s, start, depth).value)
    ensures Lexes(s, first, ParseValue(s, start, depth).next, one)
    decreases |s| - p, 1
  {
    hide ParseValue, ParseString, SkipSpace, Lexes, Gap, TokenAt, At;
    var value := ParseValue(s, start, depth);
    StringLexes(s, first, end, name);
    GapSkips(s, p, first);
    GapSkips(s, end, colon);
    ParsedLexes(s, start, depth);
    LexStarts(s, start, value.next, Tokens(value.value));
    GapSkips(s, colon + 1, start);
    MarkAt(s, colon, Colon);
    var ts := Tokens(value.value);
    hide Tokens;
    LexesJoin(s, colon, colon + 1, [Colon], start, value.next, ts);
    LexesJoin(s, first, end, [Str(name)], colon, value.next, [Colon] + ts);
    one := [Str(name), Colon] + ts;
    NameFirst(Str(name), ts);
  }

  lemma StringLexes(s: string, p: nat, q: nat, text: string)
    requires Terminated(s) && p < |s| && ParseString(s, p) == Ok(text, q)
    ensures Lexes(s, p, q, [Str(text)]) && s[p] > ' '
  {
    hide S.StringAt;
    S.ParseStringExactly(s, p, q, text);
    LexesOne(s, p, q, Str(text));
  }

  // ----- a text with the tokens of a value is accepted

  /** What the first character tells about the first token. */
  lemma FirstToken(s: string, p: nat, q: nat, ts: seq<Token>)
    requires Lexes(s, p, q, ts)
    ensures p < |s| && s[p] > ' ' && (s[p] == ']' <==> ts[0] == RightBracket) && (s[p] == '}' <==> ts[0] == RightBrace)
  {
    hide N.NumberAt, S.AllStand, S.Unquoted;
    if !ts[0].Str? && !ts[0].Num? {
      AtChar(s, p, Spelling(ts[0]), 0);
    }
  }

  lemma TokensStart(v: Json)
    ensures Tokens(v)[0] != RightBracket && Tokens(v)[0] != RightBrace
  {
  }

  lemma {:induction false} LexesParsed(v: Json, s: string, p: nat, q: nat, depth: nat)
    requires Terminated(s) && Lexes(s, p, q, Tokens(v)) && depth + Nesting(v) <= NESTING_LIMIT
    ensures p < |s| && ParseValue(s, p, depth) == Ok(v, q)
    decreases v, 2
  {
    hide ParseItems, ParseMembers, ParseString, ParseNumber, SkipSpace, Lexes, TokenAt, At, Gap, ParseValue;
    FirstToken(s, p, q, Tokens(v));
    match v
    case Array(items) => ArrayLexed(items, s, p, q, depth);
    case Object(members) => ObjectLexed(members, s, p, q, depth);
    case _ =>
      LexesOne(s, p, q, Tokens(v)[0]);
      assert Tokens(v) == [Tokens(v)[0]];
      ScalarLexed(v, s, p, q, depth);
  }

  lemma ScalarLexed(v: Json, s: string, p: nat, q: nat, depth: nat)
    requires !v.Array? && !v.Object? && TokenAt(s, p, q, Tokens(v)[0])
    ensures ParseValue(s, p, depth) == Ok(v, q)
  {
    hide ParseString, ParseNumber, ParseArray, ParseObject, N.NumberAt, S.AllStand, S.Unquoted;
    Dispatch(s, p, depth);
    if v.String? {
      S.ParseStringExactly(s, p, q, v.text);
    } else if v.Number? {
      N.ParseNumberExactly(s, p, q, v.value);
    }
    if v.Null? || v.False? || v.True? {
      AtChar(s, p, Spelling(Tokens(v)[0]), 0);
    }
  }

  lemma {:induction false} ArrayLexed(items: Items, s: string, p: nat, q: nat, depth: nat)
    requires Terminated(s) && Lexes(s, p, q, Tokens(Array(items))) && depth + 1 + ItemsNesting(items) <= NESTING_LIMIT
    ensures p < |s| && ParseValue(s, p, depth) == Ok(Array(items), q)
    decreases items, 1
  {
    hide ParseItems, ParseValue, SkipSpace, Lexes, TokenAt, At, Gap;
    var ts := ItemTokens(items);
    assert [LeftBracket] + ts + [RightBracket] == [LeftBracket] + (ts + [RightBracket]);
    var r, first := LexesSplit(s, p, q, [LeftBracket], ts + [RightBracket]);
    MarkIs(s, p, r, LeftBracket);
    GapSkips(s, p + 1, first);
    FirstToken(s, first, q, ts + [RightBracket]);
    ArrayStep(s, p, depth);
    if items.NoItems? {
      assert ts + [RightBracket] == [RightBracket];
      MarkIs(s, first, q, RightBracket);
    } else {
      ItemsStart(items);
      ItemsLexed(items, s, first, q, depth + 1);
    }
  }

  lemma ItemsStart(items: Items)
    requires items.Item?
    ensures ItemTokens(items) != [] && ItemTokens(items)[0] != RightBracket
  {
    TokensStart(items.head);
  }

  lemma MarkIs(s: string, p: nat, q: nat, t: Token)
    requires Lexes(s, p, q, [t]) && |Spelling(t)| == 1
    ensures p < |s| && s[p] == Spelling(t)[0] && q == p + 1 < |s|
  {
    LexesOne(s, p, q, t);
    AtChar(s, p, Spelling(t), 0);
  }

  lemma ArrayStep(s: string, p: nat, depth: nat)
    requires Terminated(s) && p < |s| && s[p] == '['
    ensures ParseValue(s, p, depth) == ParseArray(s, p, depth)
  {
    hide ParseArray;
    Dispatch(s, p, depth);
  }

  lemma ObjectStep(s: string, p: nat, depth: nat)
    requires Terminated(s) && p < |s| && s[p] == '{'
    ensures ParseValue(s, p, depth) == ParseObject(s, p, depth)
  {
    hide ParseObject;
    Dispatch(s, p, depth);
  }

  lemma {:induction false} ItemsLexed(items: Items, s: string, p: nat, q: nat, depth: nat)
    requires Terminated(s) && items.Item? && Lexes(s, p, q, ItemTokens(items) + [RightBracket])
    requires depth + ItemsNesting(items) <= NESTING_LIMIT
    ensures p < |s| && ParseItems(s, p, depth) == Ok(items, q)
    decreases items, 0
  {
    hide ParseValue, ParseItems, SkipSpace, Lexes, TokenAt, At, Gap, Tokens;
    var one, behind := Tokens(items.head), BehindItem(items.tail);
    ItemTokensShape(items);
    hide ItemTokens;
    FirstToken(s, p, q, one + behind);
    GapHere(s, p);
    var r, next := LexesSplit(s, p, q, one, behind);
    LexesParsed(items.head, s, p, r, depth);
    GapSkips(s, r, next);
    ItemsStep(s, p, depth);
    if items.tail.NoItems? {
      MarkIs(s, next, q, RightBracket);
    } else {
      var more := ItemTokens(items.tail) + [RightBracket];
      var comma, first := LexesSplit(s, next, q, [Comma], more);
      MarkIs(s, next, comma, Comma);
      ItemsLexed(items.tail, s, first, q, depth);
      ItemsAfterGap(s, next + 1, first, depth);
    }
  }

  lemma GapHere(s: string, p: nat)
    requires p < |s| && s[p] > ' '
    ensures SkipSpace(s, p) == p
  {
  }

  lemma ItemsAfterGap(s: string, p: nat, q: nat, depth: nat)
    requires Terminated(s) && p < |s| && Gap(s, p, q)
    ensures ParseItems(s, p, depth) == ParseItems(s, q, depth)
  {
    hide ParseValue, SkipSpace;
    GapSkips(s, p, q);
    GapHere(s, q);
  }

  lemma MembersAfterGap(s: string, p: nat, q: nat, depth: nat)
    requires Terminated(s) && p < |s| && Gap(s, p, q)
    ensures ParseMembers(s, p, depth) == ParseMembers(s, q, depth)
  {
    hide ParseValue, ParseString, SkipSpace;
    GapSkips(s, p, q);
    GapHere(s, q);
  }

  lemma {:induction false} ObjectLexed(members: Members, s: string, p: nat, q: nat, depth: nat)
    requires Terminated(s) && Lexes(s, p, q, Tokens(Object(members))) && depth + 1 + MembersNesting(members) <= NESTING_LIMIT
    ensures p < |s| && ParseValue(s, p, depth) == Ok(Object(members), q)
    decreases members, 1
  {
    hide ParseMembers, ParseValue, SkipSpace, Lexes, TokenAt, At, Gap;
    var ts := MemberTokens(members);
    assert [LeftBrace] + ts + [RightBrace] == [LeftBrace] + (ts + [RightBrace]);
    var r, first := LexesSplit(s, p, q, [LeftBrace], ts + [RightBrace]);
    MarkIs(s, p, r, LeftBrace);
    GapSkips(s, p + 1, first);
    FirstToken(s, first, q, ts + [RightBrace]);
    ObjectStep(s, p, depth);
    if members.NoMembers? {
      assert ts + [RightBrace] == [RightBrace];
      MarkIs(s, first, q, RightBrace);
    } else {
      MembersLexed(members, s, first, q, depth + 1);
    }
  }

  lemma StringIs(s: string, p: nat, q: nat, text: string)
    requires Lexes(s, p, q, [Str(text)])
    ensures Terminated(s) && p < |s| && ParseString(s, p) == Ok(text, q)
  {
    hide ParseString, S.StringAt;
    LexesOne(s, p, q, Str(text));
    S.ParseStringExactly(s, p, q, text);
  }

  /** A name and a colon in front of other tokens. */
  lemma NameSplit(s: string, p: nat, q: nat, name: string, ts: seq<Token>) returns (start: nat)
    requires |ts| > 0 && Lexes(s, p, q, [Str(name)] + ([Colon] + ts))
    ensures Terminated(s) && p < |s| && ParseString(s, p).Ok? && ParseString(s, p).value == name
    ensures var colon := SkipSpace(s, ParseString(s, p).next);
      s[colon] == ':' && colon + 1 < |s| && start == SkipSpace(s, colon + 1)
    ensures Lexes(s, start, q, ts)
  {
    hide ParseString, SkipSpace, Lexes, TokenAt, At, Gap;
    var end, colon := LexesSplit(s, p, q, [Str(name)], [Colon] + ts);
    StringIs(s, p, end, name);
    GapSkips(s, end, colon);
    var after;
    after, start := LexesSplit(s, colon, q, [Colon], ts);
    MarkIs(s, colon, after, Colon);
    GapSkips(s, colon + 1, start);
  }

  lemma {:induction false} MembersLexed(members: Members, s: string, p: nat, q: nat, depth: nat)
    requires Terminated(s) && members.Member? && Lexes(s, p, q, MemberTokens(members) + [RightBrace])
    requires depth + MembersNesting(members) <= NESTING_LIMIT
    ensures p < |s| && ParseMembers(s, p, depth) == Ok(members, q)
    decreases members, 0
  {
    hide ParseValue, ParseMembers, ParseString, SkipSpace, Lexes, TokenAt, At, Gap, Tokens;
    var one, behind := Tokens(members.value), BehindMember(members.rest);
    MemberTokensShape(members);
    hide MemberTokens;
    FirstToken(s, p, q, MemberTokens(members) + [RightBrace]);
    GapHere(s, p);
    var start := NameSplit(s, p, q, members.name, one + behind);
    var r, next := LexesSplit(s, start, q, one, behind);
    LexesParsed(members.value, s, start, r, depth);
    GapSkips(s, r, next);
    BehindLexed(members.rest, s, next, q, depth);
    MembersStep(s, p, depth);
  }

  /** The closing brace, or a comma and the other members. */
  lemma {:induction false} BehindLexed(rest: Members, s: string, p: nat, q: nat, depth: nat)
    requires Terminated(s) && Lexes(s, p, q, BehindMember(rest)) && depth + MembersNesting(rest) <= NESTING_LIMIT
    ensures p + 1 < |s|
    ensures rest.NoMembers? ==> s[p] == '}' && q == p + 1
    ensures rest.Member? ==> s[p] == ',' && ParseMembers(s, p + 1, depth) == Ok(rest, q)
    decreases rest, 1
  {
    hide ParseValue, ParseMembers, ParseString, SkipSpace, Lexes, TokenAt, At, Gap, MemberTokens;
    if rest.NoMembers? {
      MarkIs(s, p, q, RightBrace);
    } else {
      var comma, first := LexesSplit(s, p, q, [Comma], MemberTokens(rest) + [RightBrace]);
      MarkIs(s, p, comma, Comma);
      MembersLexed(rest, s, first, q, depth);
      MembersAfterGap(s, p + 1, first, depth);
    }
  }

  // ----- whole texts

  /** Nothing but blanks and control characters from p up to the NUL. */
  predicate OnlyBlank(s: string, p: nat) {
    p < |s| && forall i :: p <= i < |s| - 1 ==> s[i] <= ' '
  }

  /** The byte order mark that a text may start with. */
  function StartOf(s: string): nat {
    if |s| > 4 && s[..3] == [0xEF as char, 0xBB as char, 0xBF as char] then 3 else 0
  }

  /** The text is the tokens of v with blanks around them. */
  ghost predicate IsTextOf(text: string, v: Json) {
    var s := text + [NUL];
    exists p: nat, q: nat :: Gap(s, StartOf(s), p) && Lexes(s, p, q, Tokens(v)) && OnlyBlank(s, q)
  }

  lemma BlankSkips(s: string, p: nat)
    requires Terminated(s) && p < |s| && (forall i :: 0 <= i < |s| - 1 ==> s[i] != NUL)
    ensures OnlyBlank(s, p) <==> s[SkipSpace(s, p)] == NUL
  {
    SkipBlank(s, p);
    if OnlyBlank(s, p) && Skip(s, p) < |s| {
      assert s[Skip(s, p)] > ' ';
    }
  }

  /** A text is parsed to its end as v if and only if it is the tokens of v, with nothing but
      blanks around them, and v nests no deeper than 1000 levels. */
  lemma ParsedIffTokens(text: string, v: Json)
    requires NulFree(text)
    ensures (Parse(text, true).Ok? && Parse(text, true).value == v) <==> IsTextOf(text, v) && Nesting(v) <= 1000
  {
    hide ParseValue, SkipSpace, Lexes, Gap, OnlyBlank, Tokens, Nesting;
    var s := text + [NUL];
    var start := StartOf(s);
    if Parse(text, true).Ok? && Parse(text, true).value == v {
      var p := SkipSpace(s, start);
      var r := ParseValue(s, p, 0);
      ParsedLexes(s, p, 0);
      ParsedValue(s, p, 0);
      FirstToken(s, p, r.next, Tokens(v));
      GapSkips(s, start, p);
      BlankSkips(s, r.next);
    }
    if IsTextOf(text, v) && Nesting(v) <= NESTING_LIMIT {
      var p: nat, q: nat :| Gap(s, start, p) && Lexes(s, p, q, Tokens(v)) && OnlyBlank(s, q);
      GapSkips(s, start, p);
      LexesParsed(v, s, p, q, 0);
      BlankInside(s, q);
      BlankSkips(s, q);
    }
  }

  lemma BlankInside(s: string, p: nat)
    requires OnlyBlank(s, p)
    ensures p < |s|
  {
  }
}
