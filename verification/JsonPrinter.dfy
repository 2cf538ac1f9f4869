/**
 The printer of utility/cjson/cJSON.c as it runs: one buffer that grows by reallocation, or
 that the caller gave and that may not grow.
 */
module JsonPrinter {
  import opened JsonText
  import opened JsonRoundTrip

  const INT_MAX: nat := 0x7FFF_FFFF

  /** How much room behind the cursor printing v takes: its text, the NUL, and one more
      byte that everything but a number asks for. */
  function Need(v: Json, format: bool, depth: nat): nat {
    |Text(v, format, depth)| + if v.Number? then 1 else 2
  }

  class PrintBuffer {
    const noalloc: bool
    const format: bool
    var buffer: array<char>
    var length: nat
    var offset: nat
    var depth: nat

    ghost predicate Valid()
      reads this`buffer, this`length, this`offset
    {
      && length <= buffer.Length
      && (offset < length || offset == 0)
      && length <= INT_MAX
    }

    /** The largest buffer there can be. */
    function Capacity(): nat
      reads this`length
    {
      if noalloc then length else INT_MAX
    }

    /** What has been printed for good. */
    function Done(): (s: string)
      requires offset <= buffer.Length
      reads this`buffer, this`offset, buffer
      ensures |s| == offset
    {
      buffer[..offset]
    }

    /** The buffer holds base and t and a NUL, with the cursor somewhere in t. */
    ghost predicate Wrote(base: string, t: string)
      reads this`buffer, this`length, this`offset, buffer
    {
      && |base| + |t| < length <= buffer.Length
      && buffer[..|base| + |t|] == base + t
      && buffer[|base| + |t|] == NUL
      && |base| <= offset <= |base| + |t|
    }

    /** What no printing method changes: the mode, and a given buffer behind its length. */
    twostate predicate Kept()
      reads this, buffer
    {
      && (buffer == old(buffer) || (!noalloc && fresh(buffer)))
      && (noalloc ==> buffer == old(buffer) && length == old(length))
      && (noalloc && old(length) <= old(buffer.Length) ==> buffer[length..] == old(buffer[length..]))
    }

    constructor Allocate(format: bool, size: nat, prebuffer: nat)
      requires prebuffer <= size && prebuffer <= INT_MAX
      ensures Valid() && !noalloc && this.format == format && offset == 0 && depth == 0 && fresh(buffer)
    {
      noalloc, this.format := false, format;
      buffer := new char[size];
      length, offset, depth := prebuffer, 0, 0;
    }

    constructor Given(format: bool, buf: array<char>, len: nat)
      requires len <= buf.Length && len <= INT_MAX
      ensures Valid() && noalloc && this.format == format && offset == 0 && depth == 0 && buffer == buf && length == len
    {
      noalloc, this.format := true, format;
      buffer := buf;
      length, offset, depth := len, 0, 0;
    }

    /** Makes room for needed bytes and one more behind the cursor. */
    method Ensure(needed: nat) returns (ok: bool)
      requires Valid()
      modifies this`buffer, this`length
      ensures Valid() && Kept() && Done() == old(Done())
      ensures ok <==> offset + needed + 1 <= Capacity()
      ensures ok ==> offset + needed + 1 <= length
    {
      if length > 0 && offset >= length {
        return false;
      }
      if needed > INT_MAX {
        return false;
      }
      var total := needed + offset + 1;
      if total <= length {
        return true;
      }
      if noalloc {
        return false;
      }
      var size := 2 * total;
      if total > INT_MAX / 2 {
        if total <= INT_MAX {
          size := INT_MAX;
        } else {
          return false;
        }
      }
      var larger := new char[size];
      forall i | 0 <= i < offset {
        larger[i] := buffer[i];
      }
      length := size;
      buffer := larger;
      return true;
    }

    /** Copies t into the buffer. */
    method Put(at: nat, t: string)
      requires at + |t| <= length <= buffer.Length
      modifies buffer
      ensures buffer[..at] == old(buffer[..at]) && buffer[at..at + |t|] == t
      ensures buffer[at + |t|..] == old(buffer[at + |t|..])
    {
      forall i | 0 <= i < |t| {
        buffer[at + i] := t[i];
      }
    }

    /** Prints t behind the cursor and a NUL behind t, and moves the cursor by moved. */
    method Emit(t: string, moved: nat)
      requires Valid() && offset + |t| < length && moved <= |t|
      modifies buffer, this`offset
      ensures Valid() && Kept() && Wrote(old(Done()), t) && offset == old(offset) + moved
    {
      ghost var base := Done();
      Put(offset, t + [NUL]);
      assert buffer[..|base| + |t|] == base + t;
      offset := offset + moved;
    }

    /** What is written behind something done counts as written together with it. */
    lemma WroteMore(base: string, t: string, u: string)
      requires Wrote(base + t, u)
      ensures Wrote(base, t + u)
    {
      assert base + t + u == base + (t + u);
    }

    /** Moves the cursor to the NUL. */
    method UpdateOffset(ghost base: string, ghost t: string)
      requires Valid() && Wrote(base, t) && NulFree(t)
      modifies this`offset
      ensures Valid() && Wrote(base, t) && offset == |base| + |t| && Done() == base + t
    {
      NoNulInside(buffer[..], base, t);
      while buffer[offset] != NUL
        invariant |base| <= offset <= |base| + |t|
        decreases |base| + |t| - offset
      {
        offset := offset + 1;
      }
    }

    /** Writes one character of a string, escaped if it has to be. */
    method PutEscaped(at: nat, c: char) returns (next: nat)
      requires at + |Escaped(c)| <= length <= buffer.Length
      modifies buffer
      ensures next == at + |Escaped(c)|
      ensures buffer[..next] == old(buffer[..at]) + Escaped(c) && buffer[next..] == old(buffer[next..])
    {
      var e: string;
      if c >= ' ' && c != QUOTE && c != BACKSLASH {
        e := [c];
      } else {
        match c
        case '\\' => e := [BACKSLASH, BACKSLASH];
        case '\"' => e := [BACKSLASH, QUOTE];
        case '\n' => e := [BACKSLASH, 'n'];
        case '\r' => e := [BACKSLASH, 'r'];
        case '\t' => e := [BACKSLASH, 't'];
        case _ =>
          if c == BACKSPACE {
            e := [BACKSLASH, 'b'];
          } else if c == FORMFEED {
            e := [BACKSLASH, 'f'];
          } else {
            e := [BACKSLASH, 'u', '0', '0', HexDigit(c as int / 16), HexDigit(c as int % 16)];
          }
      }
      assert e == Escaped(c);
      next := at + |e|;
      PutFrom(at, e);
    }

    /** Put, with the front of the buffer in one piece. */
    method PutFrom(at: nat, t: string)
      requires at + |t| <= length <= buffer.Length
      modifies buffer
      ensures buffer[..at + |t|] == old(buffer[..at]) + t && buffer[at + |t|..] == old(buffer[at + |t|..])
    {
      Put(at, t);
      assert buffer[..at + |t|] == buffer[..at] + buffer[at..at + |t|];
    }

    /** Writes text with its escapes. */
    method PutEscapedAll(at: nat, text: string)
      requires at + |EscapedAll(text)| <= length <= buffer.Length
      modifies buffer
      ensures buffer[..at + |EscapedAll(text)|] == old(buffer[..at]) + EscapedAll(text)
      ensures buffer[at + |EscapedAll(text)|..] == old(buffer[at + |EscapedAll(text)|..])
    {
      hide Escaped, EscapedAll;
      ghost var front, all, written := buffer[..at], EscapedAll(text), "";
      var i, next := 0, at;
      assert text[i..] == text;
      assert front == front + written;
      while i < |text|
        invariant 0 <= i <= |text| && next == at + |written|
        invariant all == written + EscapedAll(text[i..])
        invariant buffer[..next] == front + written
        invariant buffer[next..] == old(buffer[next..])
      {
        ghost var e, before := Escaped(text[i]), buffer[..];
        EscapedStep(text, i, written);
        var after := PutEscaped(next, text[i]);
        assert front + written + e == front + (written + e);
        SameEnd(before, old(buffer[..]), next, after);
        next := after;
        written := written + e;
        i := i + 1;
      }
      NothingEscaped(text, i);
    }

    /** The extra characters that escaping takes. */
    static method CountEscapes(text: string) returns (n: nat)
      ensures |text| + n == |EscapedAll(text)|
    {
      hide Escaped, EscapedAll;
      n := 0;
      var i := 0;
      assert text[i..] == text;
      while i < |text|
        invariant 0 <= i <= |text| && |EscapedAll(text)| == i + n + |EscapedAll(text[i..])|
      {
        var c := text[i];
        EscapedStep(text, i, "");
        EscapedLength(c);
        if c == QUOTE || c == BACKSLASH || c == BACKSPACE || c == FORMFEED || c == '\n' || c == '\r' || c == '\t' {
          n := n + 1;
        } else if c < ' ' {
          n := n + 5;
        }
        i := i + 1;
      }
      NothingEscaped(text, i);
    }

    /** A string in quotes, with the NUL behind it and the cursor in front of it. */
    method PrintString(text: string) returns (ok: bool)
      requires Valid()
      modifies this`buffer, this`length, buffer
      ensures Valid() && Kept()
      ensures ok <==> offset + |Quoted(text)| + 2 <= Capacity()
      ensures ok ==> Wrote(old(Done()), Quoted(text))
    {
      hide Escaped, EscapedAll;
      var escapes := CountEscapes(text);
      var outputLength := |text| + escapes;
      ok := Ensure(outputLength + 3);
      if !ok {
        return;
      }
      PutQuoted(text, escapes);
    }

    method PutQuoted(text: string, escapes: nat)
      requires Valid() && offset + |Quoted(text)| < length && |text| + escapes == |EscapedAll(text)|
      modifies buffer
      ensures Kept() && Wrote(old(Done()), Quoted(text))
    {
      hide Escaped, EscapedAll;
      ghost var base, all, before := Done(), EscapedAll(text), buffer[..];
      var n := |text| + escapes;
      PutFrom(offset, [QUOTE]);
      ghost var first := buffer[..];
      if escapes == 0 {
        PlainEscaped(text);
        PutFrom(offset + 1, text);
      } else {
        PutEscapedAll(offset + 1, text);
      }
      ghost var second := buffer[..];
      PutFrom(offset + 1 + n, [QUOTE, NUL]);
      SameEnd(first, before, offset + 1, length);
      SameEnd(second, first, offset + 1 + n, length);
      SameEnd(buffer[..], second, offset + 3 + n, length);
      QuotedShape(base, all, buffer[..]);
    }

    /** A number: the cursor ends behind it. */
    method PrintNumber(x: real) returns (ok: bool)
      requires Valid() && Whole(x)
      modifies this`buffer, this`length, this`offset, buffer
      ensures Valid() && Kept()
      ensures ok <==> old(offset) + |Decimal(x.Floor)| + 1 <= Capacity()
      ensures ok ==> Wrote(old(Done()), Decimal(x.Floor))
      ensures !ok ==> offset == old(offset)
    {
      hide Decimal;
      var text := Decimal(x.Floor);
      ok := Ensure(|text|);
      if ok {
        Emit(text, |text|);
      }
    }

    /** One of the three literal names. */
    method PrintWord(word: string) returns (ok: bool)
      requires Valid()
      modifies this`buffer, this`length, this`offset, buffer
      ensures Valid() && Kept() && offset == old(offset)
      ensures ok <==> offset + |word| + 2 <= Capacity()
      ensures ok ==> Wrote(old(Done()), word)
    {
      ok := Ensure(|word| + 1);
      if ok {
        Emit(word, 0);
      }
    }

    /** Separators and brackets: t goes behind the cursor, and the cursor behind t.  Some of
        them get a NUL behind them. */
    method PrintMark(t: string, extra: nat, closed: bool) returns (ok: bool)
      requires Valid() && (closed ==> extra > 0)
      modifies this`buffer, this`length, this`offset, buffer
      ensures Valid() && Kept()
      ensures ok <==> old(offset) + |t| + extra + 1 <= Capacity()
      ensures ok ==> Done() == old(Done()) + t
    {
      ok := Ensure(|t| + extra);
      if ok {
        if closed {
          ghost var base := Done();
          Emit(t, |t|);
          assert Done() == base + t;
        } else {
          Open(t);
        }
      }
    }

    /** Prints t behind the cursor and no NUL behind it. */
    method Open(t: string)
      requires Valid() && offset + |t| < length
      modifies buffer, this`offset
      ensures Valid() && Kept() && Done() == old(Done()) + t
    {
      ghost var before := buffer[..];
      PutFrom(offset, t);
      SameEnd(buffer[..], before, offset + |t|, length);
      offset := offset + |t|;
    }

    /** Renders v behind the cursor, if there is room for it. */
    method PrintValue(v: Json) returns (ok: bool)
      requires Valid() && Printable(v)
      modifies this, buffer
      ensures Kept()
      ensures ok <==> old(offset) + Need(v, format, old(depth)) <= Capacity()
      ensures ok ==> Valid() && depth == old(depth) && Wrote(old(Done()), Text(v, format, depth))
      decreases v, 1
    {
      hide Quoted, Decimal, ItemsText, MembersText, Wrote;
      match v
      case Null => ok := PrintWord("null");
      case False => ok := PrintWord("false");
      case True => ok := PrintWord("true");
      case Number(x) => ok := PrintNumber(x);
      case String(text) => ok := PrintString(text);
      case Array(items) => ok := PrintArray(items);
      case Object(members) => ok := PrintObject(members);
    }

    /** Renders v and moves the cursor behind it. */
    method PrintAdvance(v: Json) returns (ok: bool)
      requires Valid() && Printable(v)
      modifies this, buffer
      ensures Kept()
      ensures ok <==> old(offset) + Need(v, format, old(depth)) <= Capacity()
      ensures ok ==> Valid() && depth == old(depth) && Done() == old(Done()) + Text(v, format, depth)
      decreases v, 2
    {
      hide Text, Wrote;
      ghost var base := Done();
      ok := PrintValue(v);
      if ok {
        TextNulFree(v, format, depth);
        UpdateOffset(base, Text(v, format, depth));
      }
    }

    /** A closing bracket with what comes before it; the cursor stays. */
    method PrintClose(t: string) returns (ok: bool)
      requires Valid()
      modifies this`buffer, this`length, this`offset, buffer
      ensures Valid() && Kept() && offset == old(offset)
      ensures ok <==> offset + |t| + 2 <= Capacity()
      ensures ok ==> Wrote(old(Done()), t)
    {
      ok := Ensure(|t| + 1);
      if ok {
        Emit(t, 0);
      }
    }

    method PrintArray(items: Items) returns (ok: bool)
      requires Valid() && PrintableItems(items)
      modifies this, buffer
      ensures Kept()
      ensures ok <==> old(offset) + |Text(Array(items), format, old(depth))| + 2 <= Capacity()
      ensures ok ==> Valid() && depth == old(depth) && Wrote(old(Done()), Text(Array(items), format, depth))
      decreases items, 4
    {
      hide Text, ItemsText, Wrote, Done;
      ghost var base, body := Done(), ItemsText(items, format, depth + 1);
      ArrayShape(items, format, depth);
      ok := OpenItems(items);
      if !ok {
        return;
      }
      ok := PrintClose("]");
      depth := depth - 1;
      if ok {
        assert base + "[" + body == base + ("[" + body);
        WroteMore(base, "[" + body, "]");
        assert "[" + body + "]" == "[" + (body + "]");
      }
    }

    method OpenItems(items: Items) returns (ok: bool)
      requires Valid() && PrintableItems(items)
      modifies this, buffer
      ensures Kept()
      ensures !ok ==> old(offset) + |ItemsText(items, format, old(depth) + 1)| + 3 > Capacity()
      ensures ok ==> Valid() && depth == old(depth) + 1 && Done() == old(Done()) + "[" + ItemsText(items, format, depth)
      decreases items, 3, 1
    {
      hide ItemsText, Done;
      ok := PrintMark("[", 0, false);
      if ok {
        depth := depth + 1;
        ok := PrintItems(items);
      }
    }

    /** The loop over the items and the commas between them. */
    method PrintItems(items: Items) returns (ok: bool)
      requires Valid() && PrintableItems(items)
      modifies this, buffer
      ensures Kept()
      ensures !ok ==> old(offset) + |ItemsText(items, format, old(depth))| + 2 > Capacity()
      ensures ok ==> Valid() && depth == old(depth) && Done() == old(Done()) + ItemsText(items, format, depth)
      decreases items, 3, 0
    {
      hide Text, ItemsText, Need;
      ghost var all := Done() + ItemsText(items, format, depth);
      var current := items;
      ok := true;
      NoItemsText(format, depth);
      while current.Item?
        invariant Valid() && Kept() && depth == old(depth) && Capacity() == old(Capacity())
        invariant current == items || current < items
        invariant PrintableItems(current)
        invariant all == Done() + ItemsText(current, format, depth)
        decreases current
      {
        var separator := if current.tail.NoItems? then "" else if format then ", " else ",";
        ItemsParts(current, format, depth, Done(), separator);
        NeedAtMost(current.head, format, depth);
        ok := PrintAdvance(current.head);
        if !ok {
          return;
        }
        if current.tail.Item? {
          ok := PrintMark(separator, 1, true);
          if !ok {
            return;
          }
        }
        current := current.tail;
      }
    }

    method PrintObject(members: Members) returns (ok: bool)
      requires Valid() && PrintableMembers(members)
      modifies this, buffer
      ensures Kept()
      ensures ok <==> old(offset) + |Text(Object(members), format, old(depth))| + 2 <= Capacity()
      ensures ok ==> Valid() && depth == old(depth) && Wrote(old(Done()), Text(Object(members), format, depth))
      decreases members, 4
    {
      hide Text, MembersText, Wrote, Tabs, Done;
      ghost var base, body := Done(), MembersText(members, format, depth + 1);
      ghost var open := if format then "{\n" else "{";
      ObjectParts(members, format, depth);
      ok := OpenMembers(members);
      if !ok {
        return;
      }
      var close := (if format then Tabs(depth - 1) else "") + "}";
      ok := PrintClose(close);
      depth := depth - 1;
      if ok {
        assert base + open + body == base + (open + body);
        WroteMore(base, open + body, close);
      }
    }

    method OpenMembers(members: Members) returns (ok: bool)
      requires Valid() && PrintableMembers(members)
      modifies this, buffer
      ensures Kept()
      ensures !ok ==> old(offset) + (if format then 2 else 1) + |MembersText(members, format, old(depth) + 1)| + 2 > Capacity()
      ensures ok ==> Valid() && depth == old(depth) + 1
      ensures ok ==> Done() == old(Done()) + (if format then "{\n" else "{") + MembersText(members, format, depth)
      decreases members, 3, 1
    {
      hide MembersText, Done;
      ok := PrintMark(if format then "{\n" else "{", 1, false);
      if ok {
        depth := depth + 1;
        ok := PrintMembers(members);
      }
    }

    /** The loop over the members. */
    method PrintMembers(members: Members) returns (ok: bool)
      requires Valid() && PrintableMembers(members)
      modifies this, buffer
      ensures Kept()
      ensures !ok ==> old(offset) + |MembersText(members, format, old(depth))| + 2 > Capacity()
      ensures ok ==> Valid() && depth == old(depth) && Done() == old(Done()) + MembersText(members, format, depth)
      decreases members, 3, 0
    {
      hide MembersText, MemberText;
      ghost var all := Done() + MembersText(members, format, depth);
      var current := members;
      ok := true;
      NoMembersText(format, depth);
      while current.Member?
        invariant Valid() && Kept() && depth == old(depth) && Capacity() == old(Capacity())
        invariant current == members || current < members
        invariant PrintableMembers(current)
        invariant all == Done() + MembersText(current, format, depth)
        decreases current
      {
        MembersParts(current, format, depth, Done());
        ok := PrintMember(current);
        if !ok {
          return;
        }
        current := current.rest;
      }
    }

    /** One member with its indentation, and the comma and line end behind it. */
    method PrintMember(member: Members) returns (ok: bool)
      requires Valid() && member.Member? && PrintableMembers(member)
      modifies this, buffer
      ensures Kept()
      ensures !ok ==> old(offset) + |MemberText(member, format, old(depth))| + 2 > Capacity()
      ensures ok ==> Valid() && depth == old(depth) && Done() == old(Done()) + MemberText(member, format, depth)
      decreases member, 2
    {
      hide Text, Quoted, Tabs, Need, NameText, Done;
      ghost var base, name, value := Done(), NameText(member.name, format, depth), Text(member.value, format, depth);
      ok := PrintName(member.name);
      if !ok {
        return;
      }
      NeedAtMost(member.value, format, depth);
      ok := PrintAdvance(member.value);
      if !ok {
        return;
      }
      var mark := (if member.rest.Member? then "," else "") + (if format then "\n" else "");
      RegroupThree(base, name, value, mark);
      ok := PrintMark(mark, 1, true);
    }

    /** A member's name, with its indentation and its colon. */
    method PrintName(name: string) returns (ok: bool)
      requires Valid() && NulFree(name)
      modifies this, buffer
      ensures Kept()
      ensures !ok ==> old(offset) + |NameText(name, format, old(depth))| + 1 > Capacity()
      ensures ok ==> Valid() && depth == old(depth) && Done() == old(Done()) + NameText(name, format, depth)
    {
      hide Quoted, Tabs, Wrote, Done;
      ghost var start := Done();
      ok := true;
      if format {
        ok := PrintMark(Tabs(depth), 0, false);
        if !ok {
          return;
        }
      }
      ghost var base := Done();
      ok := PrintString(name);
      if !ok {
        return;
      }
      QuotedNulFree(name);
      UpdateOffset(base, Quoted(name));
      RegroupThree(start, if format then Tabs(depth) else "", Quoted(name), if format then ":\t" else ":");
      ok := PrintMark(if format then ":\t" else ":", 0, false);
    }
  }

  lemma RegroupThree(base: string, a: string, b: string, c: string)
    ensures base + a + b + c == base + (a + b + c) && base + "" == base
  {
  }

  lemma EscapedStep(text: string, i: nat, written: string)
    requires i < |text|
    ensures written + EscapedAll(text[i..]) == (written + Escaped(text[i])) + EscapedAll(text[i + 1..])
  {
    hide Escaped;
    assert text[i..][0] == text[i] && text[i..][1..] == text[i + 1..];
    assert written + (Escaped(text[i]) + EscapedAll(text[i + 1..])) == (written + Escaped(text[i])) + EscapedAll(text[i + 1..]);
  }

  lemma QuotedShape(base: string, all: string, s: string)
    requires |base| + |all| + 3 <= |s|
    requires s[..|base| + |all| + 3] == base + [QUOTE] + all + [QUOTE, NUL]
    ensures s[..|base| + |all| + 2] == base + ([QUOTE] + all + [QUOTE]) && s[|base| + |all| + 2] == NUL
  {
    var t := base + [QUOTE] + all + [QUOTE, NUL];
    assert t == base + ([QUOTE] + all + [QUOTE]) + [NUL];
    assert s[|base| + |all| + 2] == t[|base| + |all| + 2];
    assert s[..|base| + |all| + 2] == t[..|base| + |all| + 2];
  }

  lemma EscapedLength(c: char)
    ensures |Escaped(c)| == if c == QUOTE || c == BACKSLASH || c == BACKSPACE || c == FORMFEED
                               || c == '\n' || c == '\r' || c == '\t' then 2 else if c < ' ' then 6 else 1
  {
  }

  /** When nothing needs an escape, the text stays as it is. */
  lemma {:induction false} PlainEscaped(text: string)
    ensures |EscapedAll(text)| >= |text|
    ensures |EscapedAll(text)| == |text| ==> EscapedAll(text) == text
  {
    if text != "" {
      PlainEscaped(text[1..]);
      EscapedLength(text[0]);
    }
  }

  lemma NothingEscaped(text: string, i: nat)
    requires i == |text|
    ensures EscapedAll(text[i..]) == ""
  {
  }

  lemma SameEnd(s: string, t: string, from: nat, end: nat)
    requires from <= end <= |s| == |t| && s[from..] == t[from..]
    ensures s[end..] == t[end..]
  {
    assert s[end..] == s[from..][end - from..];
    assert t[end..] == t[from..][end - from..];
  }

  lemma NoNulInside(s: string, base: string, t: string)
    requires |base| + |t| <= |s| && s[..|base| + |t|] == base + t && NulFree(t)
    ensures forall i :: |base| <= i < |base| + |t| ==> s[i] != NUL
  {
    forall i | |base| <= i < |base| + |t|
      ensures s[i] != NUL
    {
      assert s[i] == s[..|base| + |t|][i] == t[i - |base|];
    }
  }

  /** The next item, the separator behind it and the rest, and what that says about room. */
  lemma ItemsParts(items: Items, format: bool, d: nat, done: string, separator: string)
    requires items.Item? && PrintableItems(items)
    requires separator == if items.tail.NoItems? then "" else if format then ", " else ","
    ensures done + ItemsText(items, format, d)
         == done + Text(items.head, format, d) + separator + ItemsText(items.tail, format, d)
    ensures items.tail.Item? ==> |ItemsText(items.tail, format, d)| > 0
    ensures items.tail.NoItems? ==> separator == "" && ItemsText(items.tail, format, d) == ""
  {
    hide Text;
    if items.tail.Item? {
      ItemsStart(items.tail, format, d);
    }
    assert done + (Text(items.head, format, d) + (separator + ItemsText(items.tail, format, d)))
        == done + Text(items.head, format, d) + separator + ItemsText(items.tail, format, d);
    assert separator + ItemsText(items.tail, format, d) == ItemsRest(items.tail, format, d);
  }

  lemma NeedAtMost(v: Json, format: bool, d: nat)
    ensures Need(v, format, d) <= |Text(v, format, d)| + 2
  {
  }

  function NameText(name: string, format: bool, d: nat): string {
    (if format then Tabs(d) else "") + Quoted(name) + (if format then ":\t" else ":")
  }

  /** The text of the first member, with what comes behind it. */
  function MemberText(member: Members, format: bool, d: nat): string
    requires member.Member?
  {
    NameText(member.name, format, d) + Text(member.value, format, d)
    + ((if member.rest.Member? then "," else "") + (if format then "\n" else ""))
  }

  lemma MembersParts(members: Members, format: bool, d: nat, done: string)
    requires members.Member?
    ensures done + MembersText(members, format, d)
         == done + MemberText(members, format, d) + MembersText(members.rest, format, d)
  {
    hide Text, Quoted, Tabs;
    assert MembersText(members, format, d) == MemberText(members, format, d) + MembersText(members.rest, format, d);
  }

  lemma ObjectParts(members: Members, format: bool, d: nat)
    ensures Text(Object(members), format, d)
         == (if format then "{\n" else "{") + MembersText(members, format, d + 1) + ((if format then Tabs(d) else "") + "}")
  {
    hide MembersText, Tabs;
  }

  /** cJSON_Print and cJSON_PrintUnformatted: the whole text, unless it is too long for an
      int. */
  method Print(v: Json, format: bool) returns (ok: bool, text: string)
    requires Printable(v)
    ensures ok <==> |Text(v, format, 0)| + (if v.Number? then 1 else 2) <= 0x7FFF_FFFF
    ensures ok ==> text == Text(v, format, 0)
  {
    hide Text;
    var p := new PrintBuffer.Allocate(format, 256, 0);
    ok := p.PrintAdvance(v);
    text := if ok then p.Done() else "";
  }

  /** cJSON_PrintPreallocated: succeeds if and only if the text and what has to come behind
      it fit, and never writes at or behind len. */
  method PrintPreallocated(v: Json, buf: array?<char>, len: int, format: bool) returns (ok: bool)
    requires Printable(v) && len <= INT_MAX && (buf != null ==> len <= buf.Length)
    modifies buf
    ensures ok <==> buf != null && |Text(v, format, 0)| + (if v.Number? then 1 else 2) <= len
    ensures ok ==> |Text(v, format, 0)| < len && buf[..|Text(v, format, 0)|] == Text(v, format, 0)
    ensures ok ==> buf[|Text(v, format, 0)|] == NUL
    ensures buf != null && len >= 0 ==> buf[len..] == old(buf[len..])
    ensures buf != null && len < 0 ==> buf[..] == old(buf[..])
  {
    hide Text;
    if len < 0 || buf == null {
      return false;
    }
    var p := new PrintBuffer.Given(format, buf, len);
    ok := p.PrintValue(v);
    if ok {
      assert "" + Text(v, format, 0) == Text(v, format, 0);
    }
  }
}
