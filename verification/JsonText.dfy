/**
 JSON values and the text that utility/cjson/cJSON.c prints for them.  Characters stand
 for bytes.
 */
module JsonText {

  const NUL: char := '\0'
  const QUOTE: char := '\"'
  const BACKSLASH: char := '\\'
  const BACKSPACE: char := 8 as char
  const FORMFEED: char := 12 as char

  /** How deep arrays and objects may nest when they are parsed. */
  const NESTING_LIMIT: nat := 1000

  /** A value; the items of an array and the members of an object are sibling chains. */
  datatype Json =
    | Null
    | False
    | True
    | Number(value: real)
    | String(text: string)
    | Array(items: Items)
    | Object(members: Members)

  datatype Items = NoItems | Item(head: Json, tail: Items)

  datatype Members = NoMembers | Member(name: string, value: Json, rest: Members)

  datatype Option<T> = None | Some(value: T)

  // ----- lists that grow at the end

  function AppendItem(items: Items, last: Json): Items {
    if items.NoItems? then Item(last, NoItems) else Item(items.head, AppendItem(items.tail, last))
  }

  function JoinItems(front: Items, back: Items): Items {
    if front.NoItems? then back else Item(front.head, JoinItems(front.tail, back))
  }

  lemma {:induction false} JoinAppendedItem(front: Items, v: Json, back: Items)
    ensures JoinItems(AppendItem(front, v), back) == JoinItems(front, Item(v, back))
    ensures JoinItems(front, Item(v, NoItems)) == AppendItem(front, v)
  {
    if front.Item? {
      JoinAppendedItem(front.tail, v, back);
    }
  }

  /** cJSON_AddItemToObject. */
  function AppendMember(members: Members, name: string, last: Json): Members {
    if members.NoMembers? then Member(name, last, NoMembers)
    else Member(members.name, members.value, AppendMember(members.rest, name, last))
  }

  function JoinMembers(front: Members, back: Members): Members {
    if front.NoMembers? then back else Member(front.name, front.value, JoinMembers(front.rest, back))
  }

  lemma {:induction false} JoinAppendedMember(front: Members, name: string, v: Json, back: Members)
    ensures JoinMembers(AppendMember(front, name, v), back) == JoinMembers(front, Member(name, v, back))
    ensures JoinMembers(front, Member(name, v, NoMembers)) == AppendMember(front, name, v)
  {
    if front.Member? {
      JoinAppendedMember(front.rest, name, v, back);
    }
  }

  lemma {:induction false} JoinNoMembers(front: Members)
    ensures JoinMembers(front, NoMembers) == front
  {
    if front.Member? {
      JoinNoMembers(front.rest);
    }
  }

  // ----- partial texts

  function Prepend(front: string, rest: Option<string>): Option<string> {
    if rest.None? then None else Some(front + rest.value)
  }

  lemma PrependPrepend(a: string, b: string, rest: Option<string>)
    ensures Prepend(a, Prepend(b, rest)) == Prepend(a + b, rest)
  {
    if rest.Some? {
      assert a + (b + rest.value) == a + b + rest.value;
    }
  }

  lemma PrependNothing(rest: Option<string>)
    ensures Prepend("", rest) == rest
  {
    if rest.Some? {
      assert "" + rest.value == rest.value;
    }
  }

  // ----- the values that have a text

  predicate NulFree(s: string) {
    forall i :: 0 <= i < |s| ==> s[i] != NUL
  }

  lemma Assoc(a: string, b: string, c: string)
    ensures a + b + c == a + (b + c)
  {
  }

  /** What a C string of these bytes is for whoever reads it. */
  function UpToNul(s: string): (t: string)
    ensures NulFree(t)
  {
    if s == "" || s[0] == NUL then "" else [s[0]] + UpToNul(s[1..])
  }

  lemma {:induction false} WithoutNul(s: string)
    requires NulFree(s)
    ensures UpToNul(s) == s
  {
    if s != "" {
      WithoutNul(s[1..]);
    }
  }

  /** Integers of magnitude below 10^15. */
  predicate Whole(x: real) {
    x.Floor as real == x && -1_000_000_000_000_000 < x.Floor < 1_000_000_000_000_000
  }

  predicate Printable(v: Json) {
    match v
    case Number(x) => Whole(x)
    case String(text) => NulFree(text)
    case Array(items) => PrintableItems(items)
    case Object(members) => PrintableMembers(members)
    case _ => true
  }

  predicate PrintableItems(items: Items) {
    items.Item? ==> Printable(items.head) && PrintableItems(items.tail)
  }

  predicate PrintableMembers(members: Members) {
    members.Member? ==> NulFree(members.name) && Printable(members.value) && PrintableMembers(members.rest)
  }

  /** The number of arrays and objects around the innermost value, v included. */
  function Nesting(v: Json): nat {
    match v
    case Array(items) => 1 + ItemsNesting(items)
    case Object(members) => 1 + MembersNesting(members)
    case _ => 0
  }

  function ItemsNesting(items: Items): nat {
    if items.NoItems? then 0 else Max(Nesting(items.head), ItemsNesting(items.tail))
  }

  function MembersNesting(members: Members): nat {
    if members.NoMembers? then 0 else Max(Nesting(members.value), MembersNesting(members.rest))
  }

  function Max(a: nat, b: nat): nat {
    if a < b then b else a
  }

  // ----- strings and numbers

  function HexDigit(n: nat): char
    requires n < 16
  {
    if n < 10 then '0' + n as char else 'a' + (n - 10) as char
  }

  /** A character between quotes. */
  function Escaped(c: char): (s: string)
    ensures 1 <= |s| <= 6
  {
    if c == QUOTE || c == BACKSLASH then [BACKSLASH, c]
    else if c == BACKSPACE then [BACKSLASH, 'b']
    else if c == FORMFEED then [BACKSLASH, 'f']
    else if c == '\n' then [BACKSLASH, 'n']
    else if c == '\r' then [BACKSLASH, 'r']
    else if c == '\t' then [BACKSLASH, 't']
    else if c < ' ' then [BACKSLASH, 'u', '0', '0', HexDigit(c as int / 16), HexDigit(c as int % 16)]
    else [c]
  }

  function EscapedAll(text: string): string {
    if text == "" then "" else Escaped(text[0]) + EscapedAll(text[1..])
  }

  function Quoted(text: string): string {
    [QUOTE] + EscapedAll(text) + [QUOTE]
  }

  function Digit(n: nat): char
    requires n < 10
  {
    '0' + n as char
  }

  function Digits(n: nat): (s: string)
    ensures |s| >= 1
  {
    if n < 10 then [Digit(n)] else Digits(n / 10) + [Digit(n % 10)]
  }

  function Decimal(n: int): string {
    if n < 0 then ['-'] + Digits(-n) else Digits(n)
  }

  // ----- whole values

  function Tabs(n: nat): (s: string)
    ensures |s| == n
  {
    seq(n, _ => '\t')
  }

  /** The text of v, compact or formatted, at the given depth. */
  function Text(v: Json, format: bool, depth: nat): string
    decreases v, 0
  {
    match v
    case Null => "null"
    case False => "false"
    case True => "true"
    case Number(x) => Decimal(x.Floor)
    case String(text) => Quoted(text)
    case Array(items) => "[" + ItemsText(items, format, depth + 1) + "]"
    case Object(members) =>
      (if format then "{\n" else "{") + MembersText(members, format, depth + 1)
      + (if format then Tabs(depth) else "") + "}"
  }

  function ItemsText(items: Items, format: bool, depth: nat): string
    decreases items, 0
  {
    match items
    case NoItems => ""
    case Item(head, tail) => Text(head, format, depth) + ItemsRest(tail, format, depth)
  }

  /** The items behind one that has been printed. */
  function ItemsRest(tail: Items, format: bool, depth: nat): string
    decreases tail, 1
  {
    if tail.NoItems? then "" else (if format then ", " else ",") + ItemsText(tail, format, depth)
  }

  function MembersText(members: Members, format: bool, depth: nat): string
    decreases members, 0
  {
    match members
    case NoMembers => ""
    case Member(name, value, rest) =>
      (if format then Tabs(depth) else "") + Quoted(name) + (if format then ":\t" else ":")
      + Text(value, format, depth)
      + (if rest.Member? then "," else "") + (if format then "\n" else "")
      + MembersText(rest, format, depth)
  }
}
