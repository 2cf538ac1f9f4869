/**
 JSON Pointers of utility/cjson/cJSON_Utils.c, which follow RFC 6901.  A node of a value is
 named by the child indices that lead to it from the root, which stand for its address.
 */
module JsonPointer {
  import opened JsonText
  import G = JsonGrammar
  import R = JsonRoundTrip
  import opened JsonMerge
  import opened JsonOrder

  type Path = seq<nat>

  /** cJSON_GetArrayItem. */
  function ItemAt(items: Items, i: nat): Option<Json> {
    if items.NoItems? then None
    else if i == 0 then Some(items.head)
    else ItemAt(items.tail, i - 1)
  }

  function MemberAt(members: Members, i: nat): Option<Members> {
    if members.NoMembers? then None
    else if i == 0 then Some(members)
    else MemberAt(members.rest, i - 1)
  }

  // ----- from a node to a pointer

  function EncodedChar(c: char): string {
    if c == '/' then "~1" else if c == '~' then "~0" else [c]
  }

  /** A name as a reference token, section 3 of RFC 6901. */
  function Encoded(name: string): string {
    if name == "" then "" else EncodedChar(name[0]) + Encoded(name[1..])
  }

  /** cJSONUtils_FindPointerFromObjectTo, at the node here: every child is searched for the
      target, in order. */
  function FindPointer(v: Json, here: Path, target: Path): Option<string>
    decreases v, 1
  {
    if here == target then Some("")
    else match v
      case Array(items) => FindInItems(items, 0, here, target)
      case Object(members) => FindInMembers(members, 0, here, target)
      case _ => None
  }

  function FindInItems(items: Items, c: nat, here: Path, target: Path): Option<string>
    decreases items, 0
  {
    if items.NoItems? then None
    else
      var found := FindPointer(items.head, here + [c], target);
      if found.Some? then Some("/" + Digits(c) + found.value)
      else FindInItems(items.tail, c + 1, here, target)
  }

  function FindInMembers(members: Members, c: nat, here: Path, target: Path): Option<string>
    decreases members, 0
  {
    if members.NoMembers? then None
    else
      var found := FindPointer(members.value, here + [c], target);
      if found.Some? then Some("/" + Encoded(members.name) + found.value)
      else FindInMembers(members.rest, c + 1, here, target)
  }

  /** The pointer of the node at the end of a path, if there is one. */
  function PathText(v: Json, path: Path): Option<string>
    decreases |path|
  {
    if path == [] then Some("")
    else match v
      case Array(items) =>
        var child := ItemAt(items, path[0]);
        if child.None? then None else Prepend("/" + Digits(path[0]), PathText(child.value, path[1..]))
      case Object(members) =>
        var child := MemberAt(members, path[0]);
        if child.None? || child.value.NoMembers? then None
        else Prepend("/" + Encoded(child.value.name), PathText(child.value.value, path[1..]))
      case _ => None
  }

  /** The search finds nothing below a node that is not on the way. */
  lemma {:induction false} FindElsewhere(v: Json, here: Path, target: Path)
    requires !(here <= target)
    ensures FindPointer(v, here, target) == None
    decreases v, 1
  {
    match v
    case Array(items) => ItemsElsewhere(items, 0, here, target);
    case Object(members) => MembersElsewhere(members, 0, here, target);
    case _ =>
  }

  lemma {:induction false} ItemsElsewhere(items: Items, c: nat, here: Path, target: Path)
    requires here <= target && |here| < |target| ==> c > target[|here|]
    requires here != target
    ensures FindInItems(items, c, here, target) == None
    decreases items, 0
  {
    if items.Item? {
      FindElsewhere(items.head, here + [c], target);
      ItemsElsewhere(items.tail, c + 1, here, target);
    }
  }

  lemma {:induction false} MembersElsewhere(members: Members, c: nat, here: Path, target: Path)
    requires here <= target && |here| < |target| ==> c > target[|here|]
    requires here != target
    ensures FindInMembers(members, c, here, target) == None
    decreases members, 0
  {
    if members.Member? {
      FindElsewhere(members.value, here + [c], target);
      MembersElsewhere(members.rest, c + 1, here, target);
    }
  }

  /** The search builds the pointer of the node it looks for. */
  lemma {:induction false} FindIsPathText(v: Json, here: Path, path: Path)
    ensures FindPointer(v, here, here + path) == PathText(v, path)
    decreases v, 1
  {
    if path == [] {
      assert here + path == here;
    } else {
      assert here + path != here by { assert |here + path| > |here|; }
      match v
      case Array(items) => ItemsFound(items, 0, here, path);
      case Object(members) => MembersFound(members, 0, here, path);
      case _ =>
    }
  }

  lemma {:induction false} ItemsFound(items: Items, c: nat, here: Path, path: Path)
    requires path != [] && c <= path[0]
    ensures FindInItems(items, c, here, here + path)
         == (var child := ItemAt(items, path[0] - c);
             if child.None? then None else Prepend("/" + Digits(path[0]), PathText(child.value, path[1..])))
    decreases items, 0
  {
    hide Digits;
    if items.Item? {
      if c == path[0] {
        assert here + path == (here + [c]) + path[1..];
        FindIsPathText(items.head, here + [c], path[1..]);
        if PathText(items.head, path[1..]).None? {
          ItemsElsewhere(items.tail, c + 1, here, here + path);
        }
      } else {
        NotOnTheWay(here, c, path);
        FindElsewhere(items.head, here + [c], here + path);
        ItemsFound(items.tail, c + 1, here, path);
      }
    }
  }

  lemma NotOnTheWay(here: Path, c: nat, path: Path)
    requires path != [] && c != path[0]
    ensures !(here + [c] <= here + path)
  {
    assert (here + [c])[|here|] == c && (here + path)[|here|] == path[0];
  }

  lemma {:induction false} MembersFound(members: Members, c: nat, here: Path, path: Path)
    requires path != [] && c <= path[0]
    ensures FindInMembers(members, c, here, here + path)
         == (var child := MemberAt(members, path[0] - c);
             if child.None? || child.value.NoMembers? then None
             else Prepend("/" + Encoded(child.value.name), PathText(child.value.value, path[1..])))
    decreases members, 0
  {
    hide Encoded;
    if members.Member? {
      if c == path[0] {
        assert here + path == (here + [c]) + path[1..];
        FindIsPathText(members.value, here + [c], path[1..]);
        if PathText(members.value, path[1..]).None? {
          MembersElsewhere(members.rest, c + 1, here, here + path);
        }
      } else {
        NotOnTheWay(here, c, path);
        FindElsewhere(members.value, here + [c], here + path);
        MembersFound(members.rest, c + 1, here, path);
      }
    }
  }

  // ----- from a pointer to a node

  /** cJSONUtils_Pstrcasecmp: the rest of a name from i on against the token at p. */
  predicate Matches(name: string, i: nat, s: string, p: nat)
    requires i <= |name| && p <= |s|
    decreases |name| - i
  {
    if i < |name| && p < |s| && s[p] != '/' then
      if s[p] == '~' then
        p + 1 < |s|
        && ((s[p + 1] == '0' && name[i] == '~') || (s[p + 1] == '1' && name[i] == '/'))
        && Matches(name, i + 1, s, p + 2)
      else FoldChar(name[i]) == FoldChar(s[p]) && Matches(name, i + 1, s, p + 1)
    else (p < |s| && s[p] != '/') == (i < |name|)
  }

  /** The next slash, or the end. */
  function TokenEnd(s: string, p: nat): (q: nat)
    requires p <= |s|
    ensures p <= q <= |s|
    decreases |s| - p
  {
    if p < |s| && s[p] != '/' then TokenEnd(s, p + 1) else p
  }

  /** The first member from c on whose name matches the token at p. */
  function FirstMatch(members: Members, c: nat, s: string, p: nat): Option<(nat, Json)>
    requires p <= |s|
  {
    if members.NoMembers? then None
    else if Matches(members.name, 0, s, p) then Some((c, members.value))
    else FirstMatch(members.rest, c + 1, s, p)
  }

  /** cJSONUtils_GetPointer, at the node here and the position p of the pointer. */
  function Resolve(v: Json, here: Path, s: string, p: nat): Option<Path>
    requires p <= |s|
    decreases |s| - p
  {
    if p == |s| || s[p] != '/' then Some(here)
    else match v
      case Array(items) =>
        var n := G.CountDigits(s, p + 1);
        var q := p + 1 + n;
        if q < |s| && s[q] != '/' then None
        else
          var which := G.DigitsValue(s, p + 1, n, 0);
          var child := ItemAt(items, which);
          if child.None? then None else Resolve(child.value, here + [which], s, q)
      case Object(members) =>
        var child := FirstMatch(members, 0, s, p + 1);
        if child.None? then None else Resolve(child.value.1, here + [child.value.0], s, TokenEnd(s, p + 1))
      case _ => None
  }

  // ----- tokens

  predicate Ends(s: string, p: nat) {
    p == |s| || (p < |s| && s[p] == '/')
  }

  lemma FoldCharSlash(c: char)
    ensures FoldChar(c) == '/' <==> c == '/'
    ensures FoldChar(c) == '~' <==> c == '~'
  {
  }

  /** An encoded name matches the names that are equal to it up to case, and no others. */
  lemma {:induction false} MatchesEncoded(name: string, i: nat, token: string, s: string, p: nat)
    requires i <= |name| && G.At(s, p, Encoded(token)) && Ends(s, p + |Encoded(token)|)
    ensures Matches(name, i, s, p) <==> Fold(name[i..]) == Fold(token)
    decreases token
  {
    hide G.At;
    if token != "" {
      var c := EncodedChar(token[0]);
      R.AtSplit(s, p, c, Encoded(token[1..]));
      R.AtChar(s, p, c, 0);
      if |c| == 2 {
        R.AtChar(s, p, c, 1);
      }
      FoldCharSlash(token[0]);
      if i < |name| {
        FoldCharSlash(name[i]);
        MatchesEncoded(name, i + 1, token[1..], s, p + |c|);
        FoldCons(name[i..], token);
        assert name[i..][1..] == name[i + 1..];
      } else {
        assert |Fold(name[i..])| == 0 && |Fold(token)| > 0;
      }
    } else {
      assert i < |name| ==> |Fold(name[i..])| > 0;
      assert Fold(token) == "";
    }
  }

  lemma FoldCons(a: string, b: string)
    requires a != "" && b != ""
    ensures Fold(a) == Fold(b) <==> FoldChar(a[0]) == FoldChar(b[0]) && Fold(a[1..]) == Fold(b[1..])
  {
    assert Fold(a) == [FoldChar(a[0])] + Fold(a[1..]);
    assert Fold(b) == [FoldChar(b[0])] + Fold(b[1..]);
    if Fold(a) == Fold(b) {
      assert Fold(a)[0] == Fold(b)[0];
      assert Fold(a)[1..] == Fold(a[1..]) && Fold(b)[1..] == Fold(b[1..]);
    }
  }

  lemma {:induction false} TokenEndEncoded(token: string, s: string, p: nat)
    requires G.At(s, p, Encoded(token)) && Ends(s, p + |Encoded(token)|)
    ensures TokenEnd(s, p) == p + |Encoded(token)|
    decreases token
  {
    hide G.At;
    if token != "" {
      var c := EncodedChar(token[0]);
      R.AtSplit(s, p, c, Encoded(token[1..]));
      R.AtChar(s, p, c, 0);
      if |c| == 2 {
        R.AtChar(s, p, c, 1);
      }
      TokenEndEncoded(token[1..], s, p + |c|);
    }
  }

  /** Among distinct names the token of a member finds that member. */
  lemma {:induction false} FirstMatchFinds(members: Members, c: nat, k: nat, s: string, p: nat)
    requires Distinct(members) && MemberAt(members, k).Some? && MemberAt(members, k).value.Member?
    requires var name := MemberAt(members, k).value.name; G.At(s, p, Encoded(name)) && Ends(s, p + |Encoded(name)|)
    ensures FirstMatch(members, c, s, p) == Some((c + k, MemberAt(members, k).value.value))
    decreases k
  {
    hide G.At, Matches, Encoded;
    var target := MemberAt(members, k).value;
    MatchesEncoded(members.name, 0, target.name, s, p);
    assert members.name[0..] == members.name;
    if k > 0 {
      MemberName(members.rest, k - 1);
      FirstMatchFinds(members.rest, c + 1, k - 1, s, p);
    }
  }

  lemma {:induction false} MemberName(members: Members, k: nat)
    requires MemberAt(members, k).Some? && MemberAt(members, k).value.Member?
    ensures Fold(MemberAt(members, k).value.name) in Names(members)
    decreases k
  {
    if k > 0 {
      MemberName(members.rest, k - 1);
    }
  }

  lemma PathTextStarts(v: Json, path: Path)
    requires PathText(v, path).Some?
    ensures PathText(v, path).value == "" || PathText(v, path).value[0] == '/'
  {
    hide Digits, Encoded;
  }

  lemma {:induction false} ItemProper(items: Items, i: nat)
    requires AllProperItems(items) && ItemAt(items, i).Some?
    ensures AllProper(ItemAt(items, i).value)
    decreases i
  {
    if i > 0 {
      ItemProper(items.tail, i - 1);
    }
  }

  lemma {:induction false} MemberProper(members: Members, i: nat)
    requires AllProperMembers(members) && MemberAt(members, i).Some? && MemberAt(members, i).value.Member?
    ensures AllProper(MemberAt(members, i).value.value)
    decreases i
  {
    if i > 0 {
      MemberProper(members.rest, i - 1);
    }
  }

  lemma {:induction false} CountDigitsAre(t: string, s: string, p: nat)
    requires G.At(s, p, t) && Ends(s, p + |t|) && forall i :: 0 <= i < |t| ==> G.IsDigit(t[i])
    ensures G.CountDigits(s, p) == |t|
    decreases |t|
  {
    hide G.At;
    if t != "" {
      assert t == t[..1] + t[1..];
      R.AtSplit(s, p, t[..1], t[1..]);
      R.AtChar(s, p, t, 0);
      CountDigitsAre(t[1..], s, p + 1);
    }
  }

  lemma {:induction false} AllDigits(n: nat)
    ensures forall i :: 0 <= i < |Digits(n)| ==> G.IsDigit(Digits(n)[i])
  {
    if n >= 10 {
      AllDigits(n / 10);
    }
  }

  /** A decimal index is read back. */
  lemma IndexBack(n: nat, s: string, p: nat)
    requires G.At(s, p, Digits(n)) && Ends(s, p + |Digits(n)|)
    ensures G.CountDigits(s, p) == |Digits(n)|
    ensures G.DigitsValue(s, p, G.CountDigits(s, p), 0) == n
  {
    hide G.At, Digits;
    AllDigits(n);
    CountDigitsAre(Digits(n), s, p);
    R.DigitsBack(n, s, p);
  }

  /** Resolving the pointer of a node ends at that node. */
  lemma {:induction false} ResolveBack(v: Json, path: Path, here: Path, s: string, p: nat)
    requires AllProper(v) && PathText(v, path).Some?
    requires G.At(s, p, PathText(v, path).value) && p + |PathText(v, path).value| == |s|
    ensures Resolve(v, here, s, p) == Some(here + path)
    decreases |path|
  {
    hide G.At, Digits, Encoded, FirstMatch, Ends;
    if path == [] {
      assert here + path == here;
    } else {
      assert here + path == (here + [path[0]]) + path[1..];
      match v
      case Array(items) =>
        var child := ItemAt(items, path[0]).value;
        var token, rest := Digits(path[0]), PathText(child, path[1..]).value;
        TokenLayout(s, p, token, rest, child, path[1..]);
        IndexBack(path[0], s, p + 1);
        ItemProper(items, path[0]);
        ResolveBack(child, path[1..], here + [path[0]], s, p + 1 + |token|);
      case Object(members) =>
        var member := MemberAt(members, path[0]).value;
        var token, rest := Encoded(member.name), PathText(member.value, path[1..]).value;
        TokenLayout(s, p, token, rest, member.value, path[1..]);
        FirstMatchFinds(members, 0, path[0], s, p + 1);
        TokenEndEncoded(member.name, s, p + 1);
        MemberProper(members, path[0]);
        ResolveBack(member.value, path[1..], here + [path[0]], s, p + 1 + |token|);
    }
  }

  lemma TokenLayout(s: string, p: nat, token: string, rest: string, child: Json, path: Path)
    requires PathText(child, path) == Some(rest) && G.At(s, p, "/" + token + rest) && p + 1 + |token| + |rest| == |s|
    ensures p < |s| && s[p] == '/' && G.At(s, p + 1, token) && G.At(s, p + 1 + |token|, rest)
    ensures Ends(s, p + 1 + |token|)
    ensures p + 1 + |token| < |s| ==> s[p + 1 + |token|] == '/'
  {
    hide G.At, PathText;
    assert "/" + token + rest == "/" + (token + rest);
    R.AtSplit(s, p, "/", token + rest);
    R.AtChar(s, p, "/", 0);
    R.AtSplit(s, p + 1, token, rest);
    PathTextStarts(child, path);
    if rest != "" {
      R.AtChar(s, p + 1 + |token|, rest, 0);
    }
  }

  /** In a value whose object names are distinct up to case, the pointer that the search
      builds for a node resolves to that node, and there is a pointer for exactly the
      nodes of the value. */
  lemma FindThenGet(v: Json, target: Path)
    requires AllProper(v)
    ensures FindPointer(v, [], target) == PathText(v, target)
    ensures FindPointer(v, [], target).Some? ==> Resolve(v, [], FindPointer(v, [], target).value, 0) == Some(target)
  {
    hide FindPointer, Resolve, PathText;
    assert [] + target == target;
    FindIsPathText(v, [], target);
    if PathText(v, target).Some? {
      var s := PathText(v, target).value;
      assert G.At(s, 0, s);
      ResolveBack(v, target, [], s, 0);
    }
  }

  // ----- the cursor loops

  /** cJSONUtils_GetPointer as it runs. */
  method GetPointer(v: Json, s: string) returns (found: Option<Path>)
    ensures found == Resolve(v, [], s, 0)
  {
    hide FirstMatch, TokenEnd;
    var node, here: Path, p := v, [], 0;
    while p < |s| && s[p] == '/'
      invariant 0 <= p <= |s| && Resolve(v, [], s, 0) == Resolve(node, here, s, p)
      decreases |s| - p
    {
      p := p + 1;
      if node.Array? {
        var start: nat, which: nat := p, 0;
        while p < |s| && G.IsDigit(s[p])
          invariant start <= p <= |s| && G.CountDigits(s, start) == p - start + G.CountDigits(s, p)
          invariant G.DigitsValue(s, start, G.CountDigits(s, start), 0)
                 == G.DigitsValue(s, p, G.CountDigits(s, p), which)
        {
          which := 10 * which + (s[p] as int - '0' as int);
          p := p + 1;
        }
        if p < |s| && s[p] != '/' {
          return None;
        }
        var child := ItemAt(node.items, which);
        if child.None? {
          return None;
        }
        node, here := child.value, here + [which];
      } else if node.Object? {
        var hit := Search(node.members, s, p);
        if hit.None? {
          return None;
        }
        node, here := hit.value.1, here + [hit.value.0];
        p := Advance(s, p);
      } else {
        return None;
      }
    }
    return Some(here);
  }

  method Search(members: Members, s: string, p: nat) returns (found: Option<(nat, Json)>)
    requires p <= |s|
    ensures found == FirstMatch(members, 0, s, p)
  {
    hide Matches;
    var current, c := members, 0;
    while current.Member? && !Matches(current.name, 0, s, p)
      invariant FirstMatch(members, 0, s, p) == FirstMatch(current, c, s, p)
      decreases current
    {
      current, c := current.rest, c + 1;
    }
    return if current.NoMembers? then None else Some((c, current.value));
  }

  method Advance(s: string, p: nat) returns (q: nat)
    requires p <= |s|
    ensures q == TokenEnd(s, p)
  {
    q := p;
    while q < |s| && s[q] != '/'
      invariant p <= q <= |s| && TokenEnd(s, p) == TokenEnd(s, q)
    {
      q := q + 1;
    }
  }
}
