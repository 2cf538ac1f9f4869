/**
 What the two printers of utility/cjson/cJSON.c write, token by token: nothing between tokens
 in the compact text, and in the formatted text what the tokens on both sides and the
 nesting call for.
 */
module JsonLayout {
  import opened JsonText
  import opened JsonTokens
  import R = JsonRoundTrip

  /** The arrays and objects around a token, outermost first; true for objects. */
  type Stack = seq<bool>

  function Written(t: Token): string {
    match t
    case Str(text) => Quoted(text)
    case Num(x) => Decimal(x.Floor)
    case _ => Spelling(t)
  }

  /** What is open behind a token. */
  function Opened(stack: Stack, t: Token): Stack {
    match t
    case LeftBrace => stack + [true]
    case LeftBracket => stack + [false]
    case RightBrace => if stack == [] then [] else stack[..|stack| - 1]
    case RightBracket => if stack == [] then [] else stack[..|stack| - 1]
    case _ => stack
  }

  /** What the formatted text has between two tokens, with these containers open: a new line
      and its tabs behind an opening brace, behind a comma in an object and in front of a
      closing brace, a blank behind a comma in an array, a tab behind a colon. */
  function Between(a: Token, b: Token, stack: Stack): string {
    if b == RightBrace then "\n" + Tabs(if stack == [] then 0 else |stack| - 1)
    else if a == LeftBrace || (a == Comma && stack != [] && stack[|stack| - 1]) then "\n" + Tabs(|stack|)
    else if a == Comma then " "
    else if a == Colon then "\t"
    else ""
  }

  function Laid(ts: seq<Token>, stack: Stack, format: bool): string {
    if ts == [] then ""
    else if |ts| == 1 then Written(ts[0])
    else
      var open := Opened(stack, ts[0]);
      Written(ts[0]) + (if format then Between(ts[0], ts[1], open) else "") + Laid(ts[1..], open, format)
  }

  /** The tokens behind a whole value, with what is in front of them. */
  function Behind(rest: seq<Token>, stack: Stack, format: bool): string {
    if rest == [] then ""
    else (if format && rest[0] == RightBrace then "\n" + Tabs(if stack == [] then 0 else |stack| - 1) else "")
         + Laid(rest, stack, format)
  }

  /** One token in front of others. */
  lemma LaidFirst(t: Token, rest: seq<Token>, stack: Stack, format: bool)
    ensures rest == [] ==> Laid([t] + rest, stack, format) == Written(t)
    ensures rest != [] ==>
      Laid([t] + rest, stack, format)
      == Written(t) + (if format then Between(t, rest[0], Opened(stack, t)) else "") + Laid(rest, Opened(stack, t), format)
  {
    hide Written, Between, Opened;
    assert ([t] + rest)[1..] == rest;
  }

  /** A token that ends a value. */
  lemma LaidLast(t: Token, rest: seq<Token>, stack: Stack, format: bool)
    requires t != LeftBrace && t != Comma && t != Colon
    ensures Laid([t] + rest, stack, format) == Written(t) + Behind(rest, Opened(stack, t), format)
  {
    hide Written, Opened, Laid;
    LaidFirst(t, rest, stack, format);
    if rest == [] {
      assert Written(t) + "" == Written(t);
    } else {
      Assoc(Written(t), if format then Between(t, rest[0], Opened(stack, t)) else "", Laid(rest, Opened(stack, t), format));
    }
  }

  lemma {:induction false} LaidValue(v: Json, rest: seq<Token>, stack: Stack, format: bool)
    ensures Laid(Tokens(v) + rest, stack, format) == Text(v, format, |stack|) + Behind(rest, stack, format)
    decreases v, 3
  {
    hide Quoted, Decimal, Laid, Behind, ItemsText, MembersText;
    match v
    case Array(items) => LaidArray(items, rest, stack, format);
    case Object(members) => LaidObject(members, rest, stack, format);
    case _ =>
      assert Tokens(v) == [Tokens(v)[0]];
      LaidLast(Tokens(v)[0], rest, stack, format);
  }

  lemma {:induction false} LaidArray(items: Items, rest: seq<Token>, stack: Stack, format: bool)
    ensures Laid(Tokens(Array(items)) + rest, stack, format)
         == Text(Array(items), format, |stack|) + Behind(rest, stack, format)
    decreases items, 2
  {
    hide Laid, Behind, ItemsText, ItemTokens;
    var ts, inner, d := ItemTokens(items) + [RightBracket], stack + [false], |stack|;
    assert [LeftBracket] + ItemTokens(items) + [RightBracket] + rest == [LeftBracket] + (ts + rest);
    LaidFirst(LeftBracket, ts + rest, stack, format);
    if items.NoItems? {
      NoItemTokens(format, d + 1);
      assert ts + rest == [RightBracket] + rest;
      LaidLast(RightBracket, rest, inner, format);
    } else {
      FirstItem(items);
      LaidItems(items, rest, inner, format);
    }
    assert inner[..|inner| - 1] == stack;
    Assoc("[" + ItemsText(items, format, d + 1), "]", Behind(rest, stack, format));
    assert "[" + "" == "[" && "[" + (ItemsText(items, format, d + 1) + "]") == "[" + ItemsText(items, format, d + 1) + "]";
    Assoc("[", ItemsText(items, format, d + 1) + "]", Behind(rest, stack, format));
    assert "" + "]" == "]";
  }

  lemma NoItemTokens(format: bool, d: nat)
    ensures ItemTokens(NoItems) == [] && ItemsText(NoItems, format, d) == ""
    ensures MemberTokens(NoMembers) == [] && MembersText(NoMembers, format, d) == ""
  {
  }

  lemma FirstItem(items: Items)
    requires items.Item?
    ensures ItemTokens(items) != [] && ItemTokens(items)[0] != RightBrace
  {
    TokensStart(items.head);
  }

  /** The items of an array with its closing bracket. */
  lemma {:induction false} LaidItems(items: Items, rest: seq<Token>, stack: Stack, format: bool)
    requires items.Item? && stack != [] && !stack[|stack| - 1]
    ensures Laid(ItemTokens(items) + [RightBracket] + rest, stack, format)
         == ItemsText(items, format, |stack|) + "]" + Behind(rest, stack[..|stack| - 1], format)
    decreases items, 1
  {
    hide Laid, Behind, ItemTokens, Tokens, Text;
    var d, outer := |stack|, stack[..|stack| - 1];
    var one, head := Tokens(items.head), Text(items.head, format, d);
    var end := Behind(rest, outer, format);
    ItemTokensShape(items);
    Joined(one, BehindItem(items.tail), rest);
    LaidValue(items.head, BehindItem(items.tail) + rest, stack, format);
    if items.tail.NoItems? {
      BehindMark(RightBracket, rest, stack, format);
      LaidLast(RightBracket, rest, stack, format);
      assert head + "" == head;
      Assoc(head, "]", end);
    } else {
      var more := ItemTokens(items.tail) + [RightBracket] + rest;
      assert BehindItem(items.tail) + rest == [Comma] + more;
      BehindMark(Comma, more, stack, format);
      LaidFirst(Comma, more, stack, format);
      FirstItem(items.tail);
      LaidItems(items.tail, rest, stack, format);
      var gap, text := if format then " " else "", ItemsText(items.tail, format, d);
      assert "," + gap == if format then ", " else ",";
      Five(head, "," + gap, text, "]", end);
    }
  }

  lemma Joined(a: seq<Token>, b: seq<Token>, c: seq<Token>)
    ensures a + b + c == a + (b + c)
  {
  }

  lemma Five(a: string, b: string, c: string, d: string, e: string)
    ensures a + (b + (c + d + e)) == a + (b + c) + d + e
  {
  }

  /** Nothing comes in front of a token that is not a closing brace. */
  lemma BehindMark(t: Token, rest: seq<Token>, stack: Stack, format: bool)
    requires t != RightBrace
    ensures Behind([t] + rest, stack, format) == Laid([t] + rest, stack, format)
  {
    hide Laid;
    assert "" + Laid([t] + rest, stack, format) == Laid([t] + rest, stack, format);
  }

  lemma {:induction false} LaidObject(members: Members, rest: seq<Token>, stack: Stack, format: bool)
    ensures Laid(Tokens(Object(members)) + rest, stack, format)
         == Text(Object(members), format, |stack|) + Behind(rest, stack, format)
    decreases members, 2
  {
    hide Laid, Behind, Text, MembersText, MemberTokens, Tabs;
    var ts, inner, d := MemberTokens(members) + [RightBrace], stack + [true], |stack|;
    ObjectText(members, format, d);
    var end := Behind(rest, stack, format);
    assert [LeftBrace] + MemberTokens(members) + [RightBrace] + rest == [LeftBrace] + (ts + rest);
    assert inner[..|inner| - 1] == stack;
    LaidFirst(LeftBrace, ts + rest, stack, format);
    if members.NoMembers? {
      NoItemTokens(format, d + 1);
      assert ts + rest == [RightBrace] + rest;
      LaidLast(RightBrace, rest, inner, format);
      EmptyObject(R.Newline(format), R.Indent(format, d), end);
    } else {
      FirstMember(members);
      LaidMembers(members, rest, inner, format);
      FullObject(R.Newline(format), R.Indent(format, d + 1), Laid(ts + rest, inner, format),
                 MembersText(members, format, d + 1), R.Indent(format, d), end);
    }
  }

  lemma ObjectText(members: Members, format: bool, d: nat)
    ensures Text(Object(members), format, d)
         == ("{" + R.Newline(format)) + MembersText(members, format, d + 1) + R.Indent(format, d) + "}"
  {
    hide MembersText, Tabs;
    assert "{" + R.Newline(format) == if format then "{\n" else "{";
  }

  lemma EmptyObject(n: string, t: string, end: string)
    ensures "{" + (n + t) + ("}" + end) == ("{" + n) + "" + t + "}" + end
    ensures "" + "" == ""
  {
    assert ("{" + n) + "" == "{" + n;
  }

  lemma FullObject(n: string, t: string, laid: string, m: string, close: string, end: string)
    requires t + laid == m + (close + "}") + end
    ensures "{" + (n + t) + laid == ("{" + n) + m + close + "}" + end
    ensures "" + "" == ""
  {
    assert "{" + (n + t) + laid == ("{" + n) + (t + laid);
    assert ("{" + n) + (m + (close + "}") + end) == ("{" + n) + m + close + "}" + end;
  }

  lemma FirstMember(members: Members)
    requires members.Member?
    ensures MemberTokens(members) != [] && MemberTokens(members)[0] != RightBrace
  {
  }

  /** The members of an object with its closing brace. */
  lemma {:induction false} LaidMembers(members: Members, rest: seq<Token>, stack: Stack, format: bool)
    requires members.Member? && stack != [] && stack[|stack| - 1]
    ensures R.Indent(format, |stack|) + Laid(MemberTokens(members) + [RightBrace] + rest, stack, format)
         == MembersText(members, format, |stack|) + (R.Indent(format, |stack| - 1) + "}")
            + Behind(rest, stack[..|stack| - 1], format)
    decreases members, 1
  {
    hide Laid, Behind, MemberTokens, Tokens, Text, Quoted, MembersText, R.Indent, R.Newline, BehindMember;
    var d, behind := |stack|, BehindMember(members.rest) + rest;
    var value := Text(members.value, format, d);
    MemberTokensShape(members);
    JoinedName(Str(members.name), Tokens(members.value), BehindMember(members.rest), rest);
    LaidName(members.name, members.value, behind, stack, format);
    LaidValue(members.value, behind, stack, format);
    LaidBehind(members.rest, rest, stack, format);
    MemberShape(members, format, d);
    Seven(R.Indent(format, d), Quoted(members.name), if format then ":\t" else ":", value,
          if members.rest.Member? then "," else "", R.Newline(format), MembersText(members.rest, format, d),
          R.Indent(format, d - 1) + "}" + Behind(rest, stack[..d - 1], format));
    Assoc(MembersText(members, format, d), R.Indent(format, d - 1) + "}", Behind(rest, stack[..d - 1], format));
  }

  lemma JoinedName(name: Token, a: seq<Token>, b: seq<Token>, c: seq<Token>)
    ensures [name] + ([Colon] + (a + b)) + c == [name] + ([Colon] + (a + (b + c)))
  {
  }

  lemma LaidName(name: string, value: Json, behind: seq<Token>, stack: Stack, format: bool)
    ensures Laid([Str(name)] + ([Colon] + (Tokens(value) + behind)), stack, format)
         == Quoted(name) + ((if format then ":\t" else ":") + Laid(Tokens(value) + behind, stack, format))
  {
    hide Laid, Quoted;
    var ts := Tokens(value) + behind;
    LaidFirst(Str(name), [Colon] + ts, stack, format);
    LaidFirst(Colon, ts, stack, format);
    TokensStart(value);
    assert ":" + "\t" == ":\t" && ":" + "" == ":" && Quoted(name) + "" == Quoted(name);
  }

  lemma MemberShape(members: Members, format: bool, d: nat)
    requires members.Member?
    ensures MembersText(members, format, d)
         == R.Indent(format, d) + Quoted(members.name) + (if format then ":\t" else ":") + Text(members.value, format, d)
            + (if members.rest.Member? then "," else "") + R.Newline(format) + MembersText(members.rest, format, d)
  {
    hide Quoted, Text, Tabs;
  }

  /** The closing brace on its line, or the other members on theirs. */
  lemma {:induction false} LaidBehind(members: Members, rest: seq<Token>, stack: Stack, format: bool)
    requires stack != [] && stack[|stack| - 1]
    ensures Behind(BehindMember(members) + rest, stack, format)
         == (if members.Member? then "," else "") + (R.Newline(format) + (MembersText(members, format, |stack|)
            + (R.Indent(format, |stack| - 1) + "}" + Behind(rest, stack[..|stack| - 1], format))))
    decreases members, 2
  {
    hide Laid, Behind, MemberTokens, MembersText, Tabs;
    var d, outer := |stack|, stack[..|stack| - 1];
    var end, close := Behind(rest, outer, format), R.Indent(format, d - 1);
    if members.NoMembers? {
      NoItemTokens(format, d);
      BehindBrace(rest, stack, format);
      LaidLast(RightBrace, rest, stack, format);
      CloseShape(R.Newline(format), close, end);
    } else {
      var more := MemberTokens(members) + [RightBrace] + rest;
      assert BehindMember(members) + rest == [Comma] + more;
      BehindMark(Comma, more, stack, format);
      LaidFirst(Comma, more, stack, format);
      FirstMember(members);
      LaidMembers(members, rest, stack, format);
      CommaShape(R.Newline(format), R.Indent(format, d), Laid(more, stack, format));
      Assoc(MembersText(members, format, d), close + "}", end);
    }
  }

  lemma CloseShape(n: string, close: string, end: string)
    ensures n + close + ("}" + end) == "" + (n + ("" + (close + "}" + end)))
  {
  }

  lemma CommaShape(n: string, t: string, laid: string)
    ensures "," + (n + t) + laid == "," + (n + (t + laid))
  {
  }

  lemma BehindBrace(rest: seq<Token>, stack: Stack, format: bool)
    requires stack != []
    ensures Behind([RightBrace] + rest, stack, format)
         == R.Newline(format) + R.Indent(format, |stack| - 1) + Laid([RightBrace] + rest, stack, format)
  {
    hide Laid, Tabs;
    assert "" + "" == "";
  }

  lemma Seven(t: string, name: string, colon: string, value: string, comma: string, n: string, m: string, end: string)
    ensures t + (name + (colon + (value + (comma + (n + (m + end)))))) == t + name + colon + value + comma + n + m + end
  {
  }

  /** The texts of a value are its tokens, laid out. */
  lemma TextIsLaid(v: Json, format: bool)
    ensures Text(v, format, 0) == Laid(Tokens(v), [], format)
  {
    hide Text, Laid, Tokens;
    LaidValue(v, [], [], format);
    assert Tokens(v) + [] == Tokens(v) && Text(v, format, 0) + "" == Text(v, format, 0);
  }
}
