/**
 cJSON_Minify of utility/cjson/cJSON.c: a text loses its blanks and comments in place.
 */
module JsonMinify {
  import opened JsonText
  import opened JsonGrammar
  import opened JsonRoundTrip

  predicate IsBlank(c: char) {
    c == ' ' || c == '\t' || c == '\r' || c == '\n'
  }

  /** The end of the line, or of the text. */
  function LineEnd(s: string, p: nat): Option<nat>
    decreases |s| - p
  {
    if p >= |s| then None
    else if s[p] == NUL || s[p] == '\n' then Some(p)
    else LineEnd(s, p + 1)
  }

  /** Behind the end of a comment. */
  function CommentEnd(s: string, p: nat): Option<nat>
    decreases |s| - p
  {
    if p >= |s| || s[p] == NUL then None
    else if s[p] == '*' && p + 1 < |s| && s[p + 1] == '/' then Some(p + 2)
    else CommentEnd(s, p + 1)
  }

  /** Behind the closing quote of a string whose opening quote is behind us. */
  function StringEnd(s: string, p: nat): (r: Option<nat>)
    ensures r.Some? ==> p < r.value <= |s|
    decreases |s| - p
  {
    if p >= |s| || s[p] == NUL then None
    else if s[p] == QUOTE then Some(p + 1)
    else if s[p] == BACKSLASH then
      if p + 1 >= |s| || s[p + 1] == NUL then None else StringEnd(s, p + 2)
    else StringEnd(s, p + 1)
  }

  /** What is kept of the characters at p, and where it goes on; nothing if the text ends
      inside a string or a comment. */
  function Next(s: string, p: nat): Option<(string, nat)>
    requires p < |s|
  {
    if IsBlank(s[p]) then Some(("", p + 1))
    else if s[p] == '/' && p + 1 < |s| && s[p + 1] == '/' then
      var end := LineEnd(s, p);
      if end.None? then None else Some(("", end.value))
    else if s[p] == '/' && p + 1 < |s| && s[p + 1] == '*' then
      var end := CommentEnd(s, p);
      if end.None? then None else Some(("", end.value))
    else if s[p] == QUOTE then
      var end := StringEnd(s, p + 1);
      if end.None? then None else Some((s[p..end.value], end.value))
    else Some(([s[p]], p + 1))
  }

  lemma {:induction false} LineEndAt(s: string, p: nat)
    ensures LineEnd(s, p).Some? ==> p <= LineEnd(s, p).value < |s|
    decreases |s| - p
  {
    if p < |s| && s[p] != NUL && s[p] != '\n' {
      LineEndAt(s, p + 1);
    }
  }

  lemma {:induction false} CommentEndAt(s: string, p: nat)
    ensures CommentEnd(s, p).Some? ==> p + 2 <= CommentEnd(s, p).value <= |s|
    decreases |s| - p
  {
    if p < |s| && s[p] != NUL {
      CommentEndAt(s, p + 1);
    }
  }

  lemma NextAdvances(s: string, p: nat)
    requires p < |s| && s[p] != NUL && Next(s, p).Some?
    ensures p < Next(s, p).value.1 <= |s|
    ensures |Next(s, p).value.0| <= Next(s, p).value.1 - p
  {
    LineEndAt(s, p);
    CommentEndAt(s, p);
    if s[p] == '/' && p + 1 < |s| && s[p + 1] == '/' {
      LineEndAt(s, p + 1);
    }
  }

  /** What is left of the text from p up to its NUL. */
  function Minified(s: string, p: nat): Option<string>
    decreases |s| - p
  {
    if p >= |s| then None
    else if s[p] == NUL then Some("")
    else
      var next := Next(s, p);
      if next.None? then None
      else
        NextAdvances(s, p);
        Prepend(next.value.0, Minified(s, next.value.1))
  }

  // ----- minifying printed text

  /** At p of s, minifying keeps t of the next n characters. */
  ghost predicate Keeps(s: string, p: nat, n: nat, t: string) {
    p + n < |s| && Minified(s, p) == Prepend(t, Minified(s, p + n))
  }

  lemma KeepsBoth(s: string, p: nat, n: nat, t: string, m: nat, u: string)
    requires Keeps(s, p, n, t) && Keeps(s, p + n, m, u)
    ensures Keeps(s, p, n + m, t + u)
  {
    PrependPrepend(t, u, Minified(s, p + n + m));
  }

  predicate IsPlain(c: char) {
    !IsBlank(c) && c != '/' && c != QUOTE && c != NUL
  }

  lemma {:induction false} KeepsPlain(s: string, p: nat, t: string)
    requires At(s, p, t) && p + |t| < |s| && forall i :: 0 <= i < |t| ==> IsPlain(t[i])
    ensures Keeps(s, p, |t|, t)
    decreases |t|
  {
    hide At;
    if t == "" {
      PrependNothing(Minified(s, p));
    } else {
      assert t == t[..1] + t[1..];
      AtSplit(s, p, t[..1], t[1..]);
      AtChar(s, p, t, 0);
      KeepsPlain(s, p + 1, t[1..]);
      assert t[..1] == [s[p]];
      KeepsBoth(s, p, 1, t[..1], |t| - 1, t[1..]);
    }
  }

  lemma {:induction false} KeepsNoBlank(s: string, p: nat, t: string)
    requires At(s, p, t) && p + |t| < |s| && forall i :: 0 <= i < |t| ==> IsBlank(t[i])
    ensures Keeps(s, p, |t|, "")
    decreases |t|
  {
    hide At;
    if t == "" {
      PrependNothing(Minified(s, p));
    } else {
      assert t == t[..1] + t[1..];
      AtSplit(s, p, t[..1], t[1..]);
      AtChar(s, p, t, 0);
      KeepsNoBlank(s, p + 1, t[1..]);
      PrependNothing(Minified(s, p + 1));
      assert Keeps(s, p, 1, "");
      KeepsBoth(s, p, 1, "", |t| - 1, "");
    }
  }

  lemma {:induction false} StringEndIsScan(s: string, p: nat)
    requires Scan(s, p).Closed? && forall i :: p <= i < Scan(s, p).end ==> s[i] != NUL
    ensures StringEnd(s, p) == Some(Scan(s, p).end + 1)
    decreases |s| - p
  {
    if s[p] == QUOTE {
    } else if s[p] == BACKSLASH {
      StringEndIsScan(s, p + 2);
    } else {
      StringEndIsScan(s, p + 1);
    }
  }

  lemma KeepsQuoted(s: string, p: nat, text: string)
    requires At(s, p, Quoted(text)) && p + |Quoted(text)| < |s| && NulFree(text)
    ensures Keeps(s, p, |Quoted(text)|, Quoted(text))
  {
    hide At, EscapedAll;
    var e := EscapedAll(text);
    assert Quoted(text) == [QUOTE] + (e + [QUOTE]);
    AtSplit(s, p, [QUOTE], e + [QUOTE]);
    AtSplit(s, p + 1, e, [QUOTE]);
    AtChar(s, p, [QUOTE], 0);
    AtChar(s, p + 1 + |e|, [QUOTE], 0);
    EscapedBack(text, s, p + 1, p + 1 + |e|);
    EscapedAllNulFree(text);
    AtNulFree(s, p + 1, e);
    StringEndIsScan(s, p + 1);
    AtIs(s, p, Quoted(text));
  }

  lemma AtIs(s: string, p: nat, t: string)
    requires At(s, p, t)
    ensures s[p..p + |t|] == t
  {
  }

  lemma AtNulFree(s: string, p: nat, t: string)
    requires At(s, p, t) && NulFree(t)
    ensures forall i :: p <= i < p + |t| ==> s[i] != NUL
  {
    forall i | p <= i < p + |t|
      ensures s[i] != NUL
    {
      AtChar(s, p, t, i - p);
    }
  }

  /** Minifying the formatted text of v inside any text leaves its compact text. */
  lemma {:induction false} KeepsValue(v: Json, d: nat, s: string, p: nat)
    requires Printable(v) && At(s, p, Text(v, true, d)) && p + |Text(v, true, d)| < |s|
    ensures Keeps(s, p, |Text(v, true, d)|, Text(v, false, d))
    decreases v, 1
  {
    hide At, Decimal, Quoted, ItemsText, MembersText, Keeps;
    match v
    case Null => KeepsPlain(s, p, "null");
    case False => KeepsPlain(s, p, "false");
    case True => KeepsPlain(s, p, "true");
    case Number(x) =>
      DecimalPlain(x.Floor);
      KeepsPlain(s, p, Decimal(x.Floor));
    case String(text) => KeepsQuoted(s, p, text);
    case Array(items) => KeepsArray(items, d, s, p);
    case Object(members) => KeepsObject(members, d, s, p);
  }

  lemma {:induction false} DigitsPlain(n: nat)
    ensures forall i :: 0 <= i < |Digits(n)| ==> IsPlain(Digits(n)[i])
  {
    if n >= 10 {
      DigitsPlain(n / 10);
    }
  }

  lemma DecimalPlain(n: int)
    ensures forall i :: 0 <= i < |Decimal(n)| ==> IsPlain(Decimal(n)[i])
  {
    hide Digits;
    DigitsPlain(if n < 0 then -n else n);
  }

  lemma {:induction false} KeepsArray(items: Items, d: nat, s: string, p: nat)
    requires PrintableItems(items) && At(s, p, Text(Array(items), true, d)) && p + |Text(Array(items), true, d)| < |s|
    ensures Keeps(s, p, |Text(Array(items), true, d)|, Text(Array(items), false, d))
    decreases items, 2
  {
    hide At, Text, ItemsText, Keeps;
    var body, compact := ItemsText(items, true, d + 1), ItemsText(items, false, d + 1);
    ArrayShape(items, true, d);
    ArrayShape(items, false, d);
    AtSplit(s, p, "[", body + "]");
    AtSplit(s, p + 1, body, "]");
    KeepsPlain(s, p, "[");
    KeepsItems(items, d + 1, s, p + 1);
    KeepsPlain(s, p + 1 + |body|, "]");
    KeepsBoth(s, p + 1, |body|, compact, 1, "]");
    KeepsBoth(s, p, 1, "[", |body| + 1, compact + "]");
  }

  lemma {:induction false} KeepsItems(items: Items, d: nat, s: string, p: nat)
    requires PrintableItems(items) && At(s, p, ItemsText(items, true, d)) && p + |ItemsText(items, true, d)| < |s|
    ensures Keeps(s, p, |ItemsText(items, true, d)|, ItemsText(items, false, d))
    decreases items, 1
  {
    hide At, Text, Keeps;
    if items.NoItems? {
      KeepsPlain(s, p, "");
    } else {
      var head, rest := Text(items.head, true, d), ItemsRest(items.tail, true, d);
      AtSplit(s, p, head, rest);
      KeepsValue(items.head, d, s, p);
      KeepsRest(items.tail, d, s, p + |head|);
      KeepsBoth(s, p, |head|, Text(items.head, false, d), |rest|, ItemsRest(items.tail, false, d));
    }
  }

  lemma {:induction false} KeepsRest(tail: Items, d: nat, s: string, p: nat)
    requires PrintableItems(tail) && At(s, p, ItemsRest(tail, true, d)) && p + |ItemsRest(tail, true, d)| < |s|
    ensures Keeps(s, p, |ItemsRest(tail, true, d)|, ItemsRest(tail, false, d))
    decreases tail, 2
  {
    hide At, ItemsText, Keeps;
    if tail.NoItems? {
      KeepsPlain(s, p, "");
    } else {
      var more, compact := ItemsText(tail, true, d), ItemsText(tail, false, d);
      assert ", " + more == "," + (" " + more);
      AtSplit(s, p, ",", " " + more);
      AtSplit(s, p + 1, " ", more);
      KeepsPlain(s, p, ",");
      KeepsNoBlank(s, p + 1, " ");
      KeepsItems(tail, d, s, p + 2);
      KeepsBoth(s, p + 1, 1, "", |more|, compact);
      assert "" + compact == compact;
      KeepsBoth(s, p, 1, ",", 1 + |more|, compact);
    }
  }

  lemma {:induction false} KeepsObject(members: Members, d: nat, s: string, p: nat)
    requires PrintableMembers(members) && At(s, p, Text(Object(members), true, d))
    requires p + |Text(Object(members), true, d)| < |s|
    ensures Keeps(s, p, |Text(Object(members), true, d)|, Text(Object(members), false, d))
    decreases members, 2
  {
    hide At, Text, MembersText, Keeps, Tabs;
    var body, compact, tabs := MembersText(members, true, d + 1), MembersText(members, false, d + 1), Tabs(d);
    BracesShape(members, d);
    AtSplit(s, p, "{", "\n" + (body + (tabs + "}")));
    AtSplit(s, p + 1, "\n", body + (tabs + "}"));
    AtSplit(s, p + 2, body, tabs + "}");
    AtSplit(s, p + 2 + |body|, tabs, "}");
    KeepsPlain(s, p, "{");
    KeepsNoBlank(s, p + 1, "\n");
    KeepsMembers(members, d + 1, s, p + 2);
    TabsBlank(d);
    KeepsNoBlank(s, p + 2 + |body|, tabs);
    KeepsPlain(s, p + 2 + |body| + |tabs|, "}");
    KeepsBoth(s, p, 1, "{", 1, "");
    KeepsBoth(s, p, 2, "{" + "", |body|, compact);
    KeepsBoth(s, p, 2 + |body|, "{" + "" + compact, |tabs|, "");
    KeepsBoth(s, p, 2 + |body| + |tabs|, "{" + "" + compact + "", 1, "}");
    assert "{" + "" + compact + "" + "}" == "{" + compact + "}";
  }

  lemma TabsBlank(n: nat)
    ensures forall i :: 0 <= i < |Tabs(n)| ==> IsBlank(Tabs(n)[i])
  {
  }

  lemma BracesShape(members: Members, d: nat)
    ensures Text(Object(members), true, d) == "{" + ("\n" + (MembersText(members, true, d + 1) + (Tabs(d) + "}")))
    ensures Text(Object(members), false, d) == "{" + MembersText(members, false, d + 1) + "}"
  {
    hide MembersText, Tabs;
    assert "{\n" == "{" + "\n";
  }

  lemma {:induction false} KeepsMembers(members: Members, d: nat, s: string, p: nat)
    requires PrintableMembers(members) && At(s, p, MembersText(members, true, d))
    requires p + |MembersText(members, true, d)| < |s|
    ensures Keeps(s, p, |MembersText(members, true, d)|, MembersText(members, false, d))
    decreases members, 1
  {
    hide At, Text, Keeps, MembersText, Quoted, Tabs;
    if members.NoMembers? {
      NoMembersText(true, d);
      NoMembersText(false, d);
      KeepsPlain(s, p, "");
    } else {
      var tabs, name, value := Tabs(d), Quoted(members.name), Text(members.value, true, d);
      var rest := MembersText(members.rest, true, d);
      var comma := if members.rest.Member? then "," else "";
      MemberShape(members, d, comma);
      AtMember(s, p, tabs, name, value, comma, rest);
      var q := p + |tabs|;
      var r := q + |name|;
      var u := r + 2 + |value|;
      TabsBlank(d);
      KeepsNoBlank(s, p, tabs);
      KeepsQuoted(s, q, members.name);
      KeepsColon(s, r);
      KeepsValue(members.value, d, s, r + 2);
      KeepsMembers(members.rest, d, s, u + |comma| + 1);
      KeepsPlain(s, u, comma);
      KeepsNoBlank(s, u + |comma|, "\n");
      KeepsMember(s, p, |tabs|, name, |value|, Text(members.value, false, d), comma,
                  |rest|, MembersText(members.rest, false, d));
    }
  }

  /** Where the pieces of a member are. */
  lemma AtMember(s: string, p: nat, tabs: string, name: string, value: string, comma: string, rest: string)
    requires At(s, p, tabs + (name + (":\t" + (value + (comma + ("\n" + rest))))))
    ensures var r := p + |tabs| + |name|;
      var u := r + 2 + |value|;
      && At(s, p, tabs) && At(s, p + |tabs|, name) && At(s, r, ":\t") && At(s, r + 2, value)
      && At(s, u, comma) && At(s, u + |comma|, "\n") && At(s, u + |comma| + 1, rest)
  {
    hide At;
    AtSplit(s, p, tabs, name + (":\t" + (value + (comma + ("\n" + rest)))));
    var r := p + |tabs| + |name|;
    AtSplit(s, p + |tabs|, name, ":\t" + (value + (comma + ("\n" + rest))));
    AtSplit(s, r, ":\t", value + (comma + ("\n" + rest)));
    var u := r + 2 + |value|;
    AtSplit(s, r + 2, value, comma + ("\n" + rest));
    AtSplit(s, u, comma, "\n" + rest);
    AtSplit(s, u + |comma|, "\n", rest);
  }

  lemma KeepsColon(s: string, p: nat)
    requires At(s, p, ":\t") && p + 2 < |s|
    ensures Keeps(s, p, 2, ":")
  {
    hide At, Keeps;
    assert ":\t" == ":" + "\t";
    AtSplit(s, p, ":", "\t");
    KeepsPlain(s, p, ":");
    KeepsNoBlank(s, p + 1, "\t");
    KeepsBoth(s, p, 1, ":", 1, "");
    assert ":" + "" == ":";
  }

  /** The pieces of a member, one after another. */
  lemma KeepsMember(s: string, p: nat, tabs: nat, name: string, value: nat, compact: string, comma: string,
                    rest: nat, more: string)
    requires Keeps(s, p, tabs, "") && Keeps(s, p + tabs, |name|, name) && Keeps(s, p + tabs + |name|, 2, ":")
    requires Keeps(s, p + tabs + |name| + 2, value, compact)
    requires Keeps(s, p + tabs + |name| + 2 + value, |comma|, comma)
    requires Keeps(s, p + tabs + |name| + 2 + value + |comma|, 1, "")
    requires Keeps(s, p + tabs + |name| + 2 + value + |comma| + 1, rest, more)
    ensures Keeps(s, p, tabs + |name| + 2 + value + |comma| + 1 + rest, name + ":" + compact + comma + more)
  {
    hide Keeps;
    KeepsBoth(s, p, tabs, "", |name|, name);
    KeepsBoth(s, p, tabs + |name|, "" + name, 2, ":");
    KeepsBoth(s, p, tabs + |name| + 2, "" + name + ":", value, compact);
    KeepsBoth(s, p, tabs + |name| + 2 + value, "" + name + ":" + compact, |comma|, comma);
    KeepsBoth(s, p, tabs + |name| + 2 + value + |comma|, "" + name + ":" + compact + comma, 1, "");
    KeepsBoth(s, p, tabs + |name| + 2 + value + |comma| + 1, "" + name + ":" + compact + comma + "", rest, more);
    assert "" + name + ":" + compact + comma + "" + more == name + ":" + compact + comma + more;
  }

  lemma MemberShape(members: Members, d: nat, comma: string)
    requires members.Member? && comma == if members.rest.Member? then "," else ""
    ensures MembersText(members, true, d)
         == Tabs(d) + (Quoted(members.name) + (":\t" + (Text(members.value, true, d)
            + (comma + ("\n" + MembersText(members.rest, true, d))))))
    ensures MembersText(members, false, d)
         == Quoted(members.name) + ":" + Text(members.value, false, d) + comma + MembersText(members.rest, false, d)
  {
    hide Text, Quoted, Tabs;
    RegroupMember(Tabs(d), Quoted(members.name), ":\t", Text(members.value, true, d), comma, "\n",
                  MembersText(members.rest, true, d));
    DropEmpty(Quoted(members.name) + ":" + Text(members.value, false, d) + comma, MembersText(members.rest, false, d));
    assert "" + Quoted(members.name) == Quoted(members.name);
  }

  lemma DropEmpty(a: string, b: string)
    ensures a + "" + b == a + b
  {
    assert a + "" == a;
  }

  /** Minifying the formatted text of a value gives exactly its compact text. */
  lemma MinifyFormatted(v: Json)
    requires Printable(v)
    ensures Minified(Text(v, true, 0) + [NUL], 0) == Some(Text(v, false, 0))
  {
    hide Text, At;
    var t := Text(v, true, 0);
    AtFront(t, [NUL]);
    KeepsValue(v, 0, t + [NUL], 0);
    assert Minified(t + [NUL], |t|) == Some("");
    assert Text(v, false, 0) + "" == Text(v, false, 0);
  }

  // ----- in place

  /** The reader is at r, the writer no further than r, and what the reader has not seen is
      as it was. */
  ghost predicate Ahead(json: array<char>, s: string, r: nat, w: nat)
    reads json
  {
    w <= r <= json.Length == |s| && json[r..] == s[r..]
  }

  lemma AheadAt(json: array<char>, s: string, r: nat, w: nat, k: nat)
    requires Ahead(json, s, r, w) && r <= k < |s|
    ensures json[k] == s[k]
  {
    assert json[r..][k - r] == s[r..][k - r];
  }

  method CopyOne(json: array<char>, r: nat, w: nat, ghost s: string)
    requires Ahead(json, s, r, w) && r < |s|
    modifies json
    ensures Ahead(json, s, r + 1, w + 1) && json[..w + 1] == old(json[..w]) + [s[r]]
  {
    AheadAt(json, s, r, w, r);
    ghost var before := json[..];
    json[w] := json[r];
    assert json[r + 1..] == before[r..][1..] == s[r + 1..];
    assert json[..w + 1] == before[..w] + [s[r]];
  }

  /** A C string: one NUL, at the end. */
  predicate IsText(s: string) {
    Terminated(s) && forall i :: 0 <= i < |s| - 1 ==> s[i] != NUL
  }

  lemma TextGoesOn(s: string, p: nat)
    requires IsText(s) && p < |s|
    ensures s[p] == NUL <==> p + 1 == |s|
  {
  }

  /** Copies a string literal with its quotes.  In a literal that is not closed the reader
      comes to the end of the array. */
  method CopyString(json: array<char>, r: nat, w: nat, ghost s: string) returns (read: nat, write: nat)
    requires Ahead(json, s, r, w) && IsText(s) && r < |s| && s[r] == QUOTE
    modifies json
    ensures Ahead(json, s, read, write) && r < read
    ensures StringEnd(s, r + 1).Some? ==> read == StringEnd(s, r + 1).value && json[..write] == old(json[..w]) + s[r..read]
    ensures StringEnd(s, r + 1).None? ==> read == |s|
  {
    hide Ahead, StringEnd, IsText, Copying;
    ghost var front := CopyStart(json, s, r, w);
    CopyNext(json, r, r, w, front, s);
    read, write := r + 1, w + 1;
    while read < json.Length
      invariant r < read <= |s| == json.Length && Copying(json, s, r, read, write, front)
      invariant StringEnd(s, read) == StringEnd(s, r + 1)
      decreases |s| - read
    {
      StringStep(s, read);
      CopyAt(json, s, r, read, write, front);
      if json[read] == NUL || json[read] == QUOTE {
        CopyNext(json, r, read, write, front, s);
        read, write := read + 1, write + 1;
        CopyEnd(json, s, r, read, write, front);
        return;
      }
      if json[read] == BACKSLASH {
        CopyNext(json, r, read, write, front, s);
        read, write := read + 1, write + 1;
      }
      CopyNext(json, r, read, write, front, s);
      read, write := read + 1, write + 1;
    }
    NoStringEnd(s, read);
    CopyEnd(json, s, r, read, write, front);
  }

  /** A literal that started at p has been copied behind front up to r. */
  ghost predicate Copying(json: array<char>, s: string, p: nat, r: nat, w: nat, front: string)
    reads json
  {
    p <= r && Ahead(json, s, r, w) && json[..w] == front + s[p..r]
  }

  lemma CopyStart(json: array<char>, s: string, r: nat, w: nat) returns (front: string)
    requires Ahead(json, s, r, w)
    ensures json.Length == |s| && w <= |s| && front == json[..w] && Copying(json, s, r, r, w, front)
  {
    front := json[..w];
    assert front == front + s[r..r];
  }

  lemma CopyAt(json: array<char>, s: string, p: nat, r: nat, w: nat, front: string)
    requires Copying(json, s, p, r, w, front) && r < |s|
    ensures r < json.Length && json[r] == s[r]
  {
    hide Ahead;
    AheadBounds(json, s, r, w);
    AheadAt(json, s, r, w, r);
  }

  lemma CopyEnd(json: array<char>, s: string, p: nat, r: nat, w: nat, front: string)
    requires Copying(json, s, p, r, w, front)
    ensures Ahead(json, s, r, w) && w <= json.Length == |s| && p <= r <= |s| && json[..w] == front + s[p..r]
  {
  }

  lemma NoStringEnd(s: string, p: nat)
    requires p >= |s|
    ensures StringEnd(s, p).None?
  {
  }

  lemma StringStep(s: string, p: nat)
    requires IsText(s) && p < |s|
    ensures s[p] == NUL ==> StringEnd(s, p).None? && p + 1 == |s|
    ensures s[p] == QUOTE ==> StringEnd(s, p) == Some(p + 1)
    ensures s[p] == BACKSLASH ==> p + 1 < |s| && StringEnd(s, p) == StringEnd(s, p + 2)
    ensures s[p] != QUOTE && s[p] != BACKSLASH ==> StringEnd(s, p) == StringEnd(s, p + 1)
  {
    TextGoesOn(s, p);
    if p + 1 < |s| {
      TextGoesOn(s, p + 1);
    }
  }

  /** One more character of a literal that started at p. */
  method CopyNext(json: array<char>, p: nat, r: nat, w: nat, ghost front: string, ghost s: string)
    requires r < |s| && Copying(json, s, p, r, w, front)
    modifies json
    ensures r + 1 <= |s| == json.Length && Copying(json, s, p, r + 1, w + 1, front)
  {
    hide Ahead;
    AheadBounds(json, s, r, w);
    CopyOne(json, r, w, s);
    AheadBounds(json, s, r + 1, w + 1);
    assert front + s[p..r] + [s[r]] == front + s[p..r + 1];
  }

  lemma AheadBounds(json: array<char>, s: string, r: nat, w: nat)
    requires Ahead(json, s, r, w)
    ensures w <= r <= |s| == json.Length
  {
  }

  method SkipLine(json: array<char>, r: nat, w: nat, ghost s: string) returns (read: nat)
    requires Ahead(json, s, r, w) && IsText(s) && r < |s|
    ensures Ahead(json, s, read, w) && LineEnd(s, r) == Some(read)
  {
    hide IsText;
    read := r;
    while true
      invariant r <= read < |s| && Ahead(json, s, read, w) && LineEnd(s, read) == LineEnd(s, r)
      decreases |s| - read
    {
      AheadAt(json, s, read, w, read);
      TextGoesOn(s, read);
      if json[read] == NUL || json[read] == '\n' {
        break;
      }
      AheadNext(json, s, read, w, read + 1);
      read := read + 1;
    }
  }

  /** In a comment that is not closed the reader jumps over the end of the array. */
  method SkipComment(json: array<char>, r: nat, w: nat, ghost s: string) returns (read: nat)
    requires Ahead(json, s, r, w) && IsText(s) && r < |s|
    ensures CommentEnd(s, r).Some? ==> Ahead(json, s, read, w) && read == CommentEnd(s, r).value
    ensures CommentEnd(s, r).None? ==> read == |s| + 1
  {
    hide IsText;
    read := r;
    while true
      invariant r <= read < |s| && Ahead(json, s, read, w) && CommentEnd(s, read) == CommentEnd(s, r)
      decreases |s| - read
    {
      AheadAt(json, s, read, w, read);
      TextGoesOn(s, read);
      if json[read] == NUL {
        return read + 2;
      }
      AheadAt(json, s, read, w, read + 1);
      if json[read] == '*' && json[read + 1] == '/' {
        break;
      }
      AheadNext(json, s, read, w, read + 1);
      read := read + 1;
    }
    AheadNext(json, s, read, w, read + 2);
    read := read + 2;
  }

  lemma AheadNext(json: array<char>, s: string, r: nat, w: nat, k: nat)
    requires Ahead(json, s, r, w) && r <= k <= |s|
    ensures Ahead(json, s, k, w)
  {
    assert json[k..] == json[r..][k - r..];
    assert s[k..] == s[r..][k - r..];
  }

  /** One turn of the loop. */
  lemma MinifiedStep(s: string, p: nat)
    requires p < |s|
    ensures s[p] == NUL ==> Minified(s, p) == Some("")
    ensures s[p] != NUL && Next(s, p).None? ==> Minified(s, p).None?
    ensures s[p] != NUL && Next(s, p).Some? ==>
      && p < Next(s, p).value.1 <= |s|
      && Minified(s, p) == Prepend(Next(s, p).value.0, Minified(s, Next(s, p).value.1))
  {
    hide Next;
    if s[p] != NUL && Next(s, p).Some? {
      NextAdvances(s, p);
    }
  }

  /** Between two turns: the reader is inside the text and what has been written, with what
      is to come, is the result; or it has left the text and there is no result. */
  ghost predicate Between(json: array<char>, s: string, read: nat, into: nat)
    reads json
  {
    && json.Length == |s|
    && (read < |s| ==> Ahead(json, s, read, into) && Minified(s, 0) == Prepend(json[..into], Minified(s, read)))
    && (read >= |s| ==> Minified(s, 0).None?)
  }

  /** A turn that keeps t and goes on at p. */
  lemma Turned(json: array<char>, s: string, read: nat, front: string, p: nat, into: nat, t: string)
    requires read < |s| == json.Length && s[read] != NUL && Minified(s, 0) == Prepend(front, Minified(s, read))
    requires Next(s, read) == Some((t, p)) && Ahead(json, s, p, into) && json[..into] == front + t
    ensures Between(json, s, p, into)
  {
    hide Next, Ahead;
    MinifiedStep(s, read);
    PrependPrepend(front, t, Minified(s, p));
  }

  /** A turn that leaves the text. */
  lemma Left(json: array<char>, s: string, read: nat, front: string, p: nat, into: nat)
    requires read < |s| == json.Length && s[read] != NUL && Minified(s, 0) == Prepend(front, Minified(s, read))
    requires Next(s, read).None? && p >= |s|
    ensures Between(json, s, p, into)
  {
    hide Next;
    MinifiedStep(s, read);
  }

  /** One turn of the loop, at a character that is not the NUL. */
  method Turn(json: array<char>, read: nat, into: nat, ghost s: string) returns (r: nat, w: nat)
    requires IsText(s) && read < |s| && s[read] != NUL && Between(json, s, read, into)
    modifies json
    ensures Between(json, s, r, w) && r > read
  {
    hide Minified, StringEnd, LineEnd, CommentEnd, IsText, Ahead, Between;
    Unpack(json, s, read, into);
    ghost var front := json[..into];
    AheadAt(json, s, read, into, read);
    TextGoesOn(s, read);
    AheadAt(json, s, read, into, read + 1);
    assert front + "" == front;
    w := into;
    if IsBlank(json[read]) {
      r := read + 1;
      AheadNext(json, s, read, into, r);
      Turned(json, s, read, front, r, w, "");
    } else if json[read] == '/' && json[read + 1] == '/' {
      r := SkipLine(json, read, into, s);
      Turned(json, s, read, front, r, w, "");
      MinifiedStep(s, read);
    } else if json[read] == '/' && json[read + 1] == '*' {
      r := SkipComment(json, read, into, s);
      CommentEndAt(s, read);
      if CommentEnd(s, read).Some? {
        Turned(json, s, read, front, r, w, "");
      } else {
        Left(json, s, read, front, r, w);
      }
    } else if json[read] == QUOTE {
      r, w := CopyString(json, read, into, s);
      if StringEnd(s, read + 1).Some? {
        Turned(json, s, read, front, r, w, s[read..r]);
      } else {
        AheadBounds(json, s, r, w);
        Left(json, s, read, front, r, w);
      }
    } else {
      CopyOne(json, read, into, s);
      r, w := read + 1, into + 1;
      Turned(json, s, read, front, r, w, [s[read]]);
    }
  }

  lemma Unpack(json: array<char>, s: string, read: nat, into: nat)
    requires Between(json, s, read, into) && read < |s|
    ensures Ahead(json, s, read, into) && into <= read && json.Length == |s|
    ensures Minified(s, 0) == Prepend(json[..into], Minified(s, read))
  {
  }

  /** The text loses its blanks and comments; the writer never passes the reader.  The
      reader stays inside the text if and only if the text does not end in a string or a
      block comment; inside is false at the point where it would read behind the NUL. */
  method Minify(json: array<char>) returns (inside: bool)
    requires IsText(json[..])
    modifies json
    ensures inside <==> Minified(old(json[..]), 0).Some?
    ensures inside ==> var m := Minified(old(json[..]), 0).value;
      |m| < json.Length && json[..|m|] == m && json[|m|] == NUL
  {
    hide Minified, IsText, Between, Ahead;
    ghost var s := json[..];
    var read: nat, into: nat := 0, 0;
    Begun(json, s);
    while read < json.Length
      invariant Between(json, s, read, into) && json.Length == |s|
      decreases |s| - read
    {
      Unpack(json, s, read, into);
      AheadAt(json, s, read, into, read);
      if json[read] == NUL {
        MinifiedStep(s, read);
        json[into] := NUL;
        return true;
      }
      read, into := Turn(json, read, into, s);
    }
    Outside(json, s, read, into);
    return false;
  }

  lemma Begun(json: array<char>, s: string)
    requires json[..] == s && IsText(s)
    ensures Between(json, s, 0, 0)
  {
    hide Minified;
    PrependNothing(Minified(s, 0));
    assert json[..0] == "" && json[0..] == s[0..];
  }

  lemma Outside(json: array<char>, s: string, read: nat, into: nat)
    requires Between(json, s, read, into) && read >= |s|
    ensures Minified(s, 0).None?
  {
  }

  /** Texts that the reader leaves: an open string, an escape before the NUL, an open
      comment. */
  lemma LeavesText()
    ensures Minified([QUOTE, NUL], 0).None?
    ensures Minified([QUOTE, BACKSLASH, NUL], 0).None?
    ensures Minified(['/', '*', NUL], 0).None?
  {
    assert StringEnd([QUOTE, BACKSLASH, NUL], 1).None?;
    assert CommentEnd(['/', '*', NUL], 1).None?;
  }
}
