/**
 Which node every pointer leads to, in the terms of RFC 6901: the reference tokens between
 the slashes of a pointer, decoded as section 4 says, followed from the root of a value.
 */
module JsonPointerExact {
  import opened JsonText
  import G = JsonGrammar
  import R = JsonRoundTrip
  import opened JsonNumbers
  import opened JsonMerge
  import opened JsonPointer

  // ----- reference tokens

  predicate SlashFree(t: string) {
    forall i :: 0 <= i < |t| ==> t[i] != '/'
  }

  /** The name that a token stands for; there is none if a tilde is not followed by 0 or 1. */
  function Decoded(t: string): Option<string> {
    if t == "" then Some("")
    else if t[0] != '~' then Prepend([t[0]], Decoded(t[1..]))
    else if |t| > 1 && t[1] == '0' then Prepend("~", Decoded(t[2..]))
    else if |t| > 1 && t[1] == '1' then Prepend("/", Decoded(t[2..]))
    else None
  }

  lemma {:induction false} DecodedEncoded(name: string)
    ensures SlashFree(Encoded(name)) && Decoded(Encoded(name)) == Some(name)
  {
    if name != "" {
      DecodedEncoded(name[1..]);
      var t, n := Encoded(name), |EncodedChar(name[0])|;
      assert t[n..] == Encoded(name[1..]);
      assert name == [name[0]] + name[1..];
    }
  }

  /** The first character of a name and how much of the token it takes. */
  lemma FirstDecoded(t: string) returns (n: nat, c: char)
    requires t != "" && SlashFree(t) && Decoded(t).Some?
    ensures 0 < n <= |t| && EncodedChar(c) == t[..n]
    ensures Decoded(t[n..]).Some? && Decoded(t).value == [c] + Decoded(t[n..]).value
  {
    n := if t[0] == '~' then 2 else 1;
    c := if n == 1 then t[0] else if t[1] == '0' then '~' else '/';
  }

  lemma {:induction false} EncodedDecoded(t: string)
    requires SlashFree(t) && Decoded(t).Some?
    ensures Encoded(Decoded(t).value) == t
  {
    if t != "" {
      hide Decoded, EncodedChar;
      var n, c := FirstDecoded(t);
      EncodedDecoded(t[n..]);
      var rest := Decoded(t[n..]).value;
      assert ([c] + rest)[1..] == rest;
      assert t == t[..n] + t[n..];
    }
  }

  /** A token stands for a name if and only if it is the name encoded. */
  lemma DecodedExactly(t: string, name: string)
    requires SlashFree(t)
    ensures Decoded(t) == Some(name) <==> t == Encoded(name)
  {
    DecodedEncoded(name);
    if Decoded(t).Some? {
      EncodedDecoded(t);
    }
  }

  // ----- following tokens

  function PointerOf(tokens: seq<string>): string {
    if tokens == [] then "" else "/" + tokens[0] + PointerOf(tokens[1..])
  }

  predicate AllSlashFree(tokens: seq<string>) {
    forall i :: 0 <= i < |tokens| ==> SlashFree(tokens[i])
  }

  /** Every text that starts with a slash is a pointer of some tokens. */
  lemma {:induction false} IsPointer(s: string) returns (tokens: seq<string>)
    requires s == "" || s[0] == '/'
    ensures AllSlashFree(tokens) && s == PointerOf(tokens)
    decreases |s|
  {
    if s == "" {
      tokens := [];
    } else {
      var end := TokenEnd(s, 1);
      TokenEndAt(s, 1);
      var rest := IsPointer(s[end..]);
      tokens := [s[1..end]] + rest;
      assert tokens[1..] == rest;
      assert s == "/" + s[1..end] + s[end..];
    }
  }

  lemma {:induction false} TokenEndAt(s: string, p: nat)
    requires p <= |s|
    ensures SlashFree(s[p..TokenEnd(s, p)]) && Ends(s, TokenEnd(s, p))
    decreases |s| - p
  {
    if p < |s| && s[p] != '/' {
      TokenEndAt(s, p + 1);
      var end := TokenEnd(s, p);
      assert s[p..end] == [s[p]] + s[p + 1..end];
    }
  }

  /** The k-th member is the first whose name is key up to case. */
  ghost predicate FirstNamed(members: Members, key: string, k: nat) {
    && NameOf(members, k) == Some(Fold(key))
    && forall i: nat :: i < k ==> NameOf(members, i) != Some(Fold(key))
  }

  function NameOf(members: Members, k: nat): Option<string> {
    var m := MemberAt(members, k);
    if m.None? || m.value.NoMembers? then None else Some(Fold(m.value.name))
  }

  /** The tokens lead from v along path: at an object each stands for the name of the child, at
      an array it is the decimal index of the child. */
  ghost predicate Leads(v: Json, tokens: seq<string>, path: Path)
    decreases |tokens|
  {
    if tokens == [] then path == []
    else
      && path != []
      && match v
         case Array(items) =>
           && AllDecimal(tokens[0]) && path[0] == Numeral(tokens[0]) && ItemAt(items, path[0]).Some?
           && Leads(ItemAt(items, path[0]).value, tokens[1..], path[1..])
         case Object(members) =>
           && Decoded(tokens[0]).Some? && FirstNamed(members, Decoded(tokens[0]).value, path[0])
           && Leads(MemberAt(members, path[0]).value.value, tokens[1..], path[1..])
         case _ => false
  }

  // ----- one token

  /** A token matches exactly the names equal up to case to what it stands for. */
  lemma MatchesToken(name: string, t: string, s: string, p: nat)
    requires SlashFree(t) && G.At(s, p, t) && Ends(s, p + |t|)
    ensures Matches(name, 0, s, p) <==> Decoded(t).Some? && Fold(name) == Fold(Decoded(t).value)
  {
    hide G.At, Matches, Fold;
    if Decoded(t).Some? {
      EncodedDecoded(t);
      MatchesEncoded(name, 0, Decoded(t).value, s, p);
      assert name[0..] == name;
    } else {
      BadToken(name, 0, t, s, p);
    }
  }

  lemma {:induction false} BadToken(name: string, i: nat, t: string, s: string, p: nat)
    requires i <= |name| && SlashFree(t) && G.At(s, p, t) && Ends(s, p + |t|) && Decoded(t).None?
    ensures !Matches(name, i, s, p)
    decreases |t|
  {
    hide G.At, FoldChar;
    R.AtChar(s, p, t, 0);
    R.AtInside(s, p, t);
    var n := if t[0] == '~' then 2 else 1;
    if n == 2 && |t| > 1 {
      R.AtChar(s, p, t, 1);
    }
    if i < |name| && (n == 1 || (|t| > 1 && (t[1] == '0' || t[1] == '1'))) {
      assert t == t[..n] + t[n..];
      R.AtSplit(s, p, t[..n], t[n..]);
      BadToken(name, i + 1, t[n..], s, p + n);
    }
  }

  lemma {:induction false} FirstMatchToken(members: Members, c: nat, t: string, s: string, p: nat)
    requires SlashFree(t) && G.At(s, p, t) && Ends(s, p + |t|)
    ensures var m := FirstMatch(members, c, s, p);
      && (m.Some? ==> Decoded(t).Some? && m.value.0 >= c && FirstNamed(members, Decoded(t).value, m.value.0 - c)
                      && MemberAt(members, m.value.0 - c).value.value == m.value.1)
      && (m.None? ==> Decoded(t).None? || forall k: nat :: !FirstNamed(members, Decoded(t).value, k))
    decreases members
  {
    hide G.At, Matches, Decoded, Fold;
    if members.Member? {
      MatchesToken(members.name, t, s, p);
      FirstMatchToken(members.rest, c + 1, t, s, p);
      if Decoded(t).Some? {
        NamedHere(members, Decoded(t).value);
        if FirstMatch(members, c, s, p).None? {
          forall k: nat
            ensures !FirstNamed(members, Decoded(t).value, k)
          {
            if k > 0 {
              assert FirstNamed(members.rest, Decoded(t).value, k - 1)
                <==> FirstNamed(members, Decoded(t).value, k - 1 + 1);
            }
          }
        }
      }
    }
  }

  lemma NamedHere(members: Members, key: string)
    requires members.Member?
    ensures Fold(members.name) == Fold(key) ==> FirstNamed(members, key, 0)
    ensures Fold(members.name) != Fold(key) ==> !FirstNamed(members, key, 0)
    ensures Fold(members.name) != Fold(key) ==>
      forall k: nat :: FirstNamed(members.rest, key, k) <==> FirstNamed(members, key, k + 1)
  {
    hide Fold;
    assert forall i: nat :: NameOf(members, i + 1) == NameOf(members.rest, i);
    forall k: nat | Fold(members.name) != Fold(key)
      ensures FirstNamed(members.rest, key, k) <==> FirstNamed(members, key, k + 1)
    {
      if FirstNamed(members.rest, key, k) {
        forall i: nat | i < k + 1
          ensures NameOf(members, i) != Some(Fold(key))
        {
          if i > 0 {
            assert NameOf(members, (i - 1) + 1) == NameOf(members.rest, i - 1);
          }
        }
      }
    }
  }

  // ----- whole pointers

  /** An index is decimal digits up to the end of the token. */
  lemma IndexToken(t: string, s: string, p: nat)
    requires SlashFree(t) && G.At(s, p, t) && Ends(s, p + |t|)
    ensures p <= |s|
    ensures Ends(s, p + G.CountDigits(s, p)) <==> AllDecimal(t)
    ensures AllDecimal(t) ==> G.CountDigits(s, p) == |t| && G.DigitsValue(s, p, |t|, 0) == Numeral(t)
  {
    hide G.At;
    R.AtInside(s, p, t);
    if AllDecimal(t) {
      CountDigitsAre(t, s, p);
      DigitsAre(s, p, "", t);
      assert "" + t == t;
    } else {
      NotAllDigits(t, s, p);
    }
  }

  lemma {:induction false} NotAllDigits(t: string, s: string, p: nat)
    requires SlashFree(t) && G.At(s, p, t) && !AllDecimal(t)
    ensures p <= |s| && !Ends(s, p + G.CountDigits(s, p))
    decreases |t|
  {
    hide G.At;
    R.AtInside(s, p, t);
    R.AtChar(s, p, t, 0);
    if G.IsDigit(t[0]) {
      assert t == t[..1] + t[1..];
      R.AtSplit(s, p, t[..1], t[1..]);
      NotAllDigits(t[1..], s, p + 1);
    }
  }

  lemma {:induction false} TokenEndIs(t: string, s: string, p: nat)
    requires SlashFree(t) && G.At(s, p, t) && Ends(s, p + |t|)
    ensures p <= |s| && TokenEnd(s, p) == p + |t|
    decreases |t|
  {
    hide G.At;
    R.AtInside(s, p, t);
    if t != "" {
      R.AtChar(s, p, t, 0);
      assert t == t[..1] + t[1..];
      R.AtSplit(s, p, t[..1], t[1..]);
      TokenEndIs(t[1..], s, p + 1);
    }
  }

  /** Where the first token of a pointer is, and where the others are. */
  lemma PointerLayout(tokens: seq<string>, s: string, p: nat)
    requires tokens != [] && G.At(s, p, PointerOf(tokens)) && p + |PointerOf(tokens)| == |s|
    ensures p < |s| && s[p] == '/' && G.At(s, p + 1, tokens[0])
    ensures var q := p + 1 + |tokens[0]|;
      Ends(s, q) && G.At(s, q, PointerOf(tokens[1..])) && q + |PointerOf(tokens[1..])| == |s|
  {
    hide G.At;
    var t, rest := tokens[0], PointerOf(tokens[1..]);
    assert "/" + t + rest == "/" + (t + rest);
    R.AtSplit(s, p, "/", t + rest);
    R.AtChar(s, p, "/", 0);
    R.AtSplit(s, p + 1, t, rest);
    if tokens[1..] != [] {
      assert rest[0] == '/';
      R.AtChar(s, p + 1 + |t|, rest, 0);
    }
  }

  /** Resolving goes on from where it is. */
  lemma {:induction false} ResolveExtends(v: Json, here: Path, s: string, p: nat)
    requires p <= |s|
    ensures Resolve(v, here, s, p).Some? ==> here <= Resolve(v, here, s, p).value
    decreases |s| - p
  {
    hide FirstMatch;
    if p < |s| && s[p] == '/' {
      match v
      case Array(items) =>
        var n := G.CountDigits(s, p + 1);
        var which := G.DigitsValue(s, p + 1, n, 0);
        if ItemAt(items, which).Some? && Ends(s, p + 1 + n) {
          ResolveExtends(ItemAt(items, which).value, here + [which], s, p + 1 + n);
        }
      case Object(members) =>
        var child := FirstMatch(members, 0, s, p + 1);
        if child.Some? {
          ResolveExtends(child.value.1, here + [child.value.0], s, TokenEnd(s, p + 1));
        }
      case _ =>
    }
  }

  lemma {:induction false} ResolveLeads(v: Json, here: Path, tokens: seq<string>, path: Path, s: string, p: nat)
    requires AllSlashFree(tokens) && G.At(s, p, PointerOf(tokens)) && p + |PointerOf(tokens)| == |s|
    ensures Resolve(v, here, s, p) == Some(here + path) <==> Leads(v, tokens, path)
    decreases |tokens|, 0
  {
    hide G.At, FirstMatch, FirstNamed, Decoded, TokenEnd, Numeral;
    if tokens == [] {
      EmptyPath(here, path);
    } else {
      PointerLayout(tokens, s, p);
      var t, rest := tokens[0], tokens[1..];
      var q := p + 1 + |t|;
      if v.Array? {
        IndexToken(t, s, p + 1);
        if AllDecimal(t) && ItemAt(v.items, Numeral(t)).Some? {
          StepLeads(ItemAt(v.items, Numeral(t)).value, here, Numeral(t), rest, path, s, q);
        }
      } else if v.Object? {
        FirstMatchToken(v.members, 0, t, s, p + 1);
        TokenEndIs(t, s, p + 1);
        var m := FirstMatch(v.members, 0, s, p + 1);
        if m.Some? {
          StepLeads(m.value.1, here, m.value.0, rest, path, s, q);
          if path != [] && FirstNamed(v.members, Decoded(t).value, path[0]) {
            OneFirst(v.members, Decoded(t).value, path[0], m.value.0);
          }
        }
      }
    }
  }

  lemma EmptyPath(here: Path, path: Path)
    ensures here == here + path <==> path == []
  {
    assert path != [] ==> |here + path| > |here|;
  }

  lemma OneFirst(members: Members, key: string, j: nat, k: nat)
    requires FirstNamed(members, key, j) && FirstNamed(members, key, k)
    ensures j == k
  {
  }

  /** The step to the child k, and then the others. */
  lemma {:induction false} StepLeads(child: Json, here: Path, k: nat, tokens: seq<string>, path: Path, s: string, q: nat)
    requires AllSlashFree(tokens) && G.At(s, q, PointerOf(tokens)) && q + |PointerOf(tokens)| == |s|
    ensures Resolve(child, here + [k], s, q) == Some(here + path)
       <==> path != [] && path[0] == k && Leads(child, tokens, path[1..])
    decreases |tokens|, 1
  {
    hide G.At, Leads, Resolve;
    ResolveExtends(child, here + [k], s, q);
    if path != [] && path[0] == k {
      assert here + path == (here + [k]) + path[1..];
      ResolveLeads(child, here + [k], tokens, path[1..], s, q);
    } else if path != [] {
      NotOnTheWay(here, k, path);
    }
  }

  /** Every pointer leads to the node that its tokens name, and nowhere if there is none. */
  lemma ResolveExactly(v: Json, tokens: seq<string>)
    requires AllSlashFree(tokens)
    ensures forall path :: Resolve(v, [], PointerOf(tokens), 0) == Some(path) <==> Leads(v, tokens, path)
    ensures Resolve(v, [], PointerOf(tokens), 0).None? <==> forall path :: !Leads(v, tokens, path)
  {
    hide Resolve, Leads;
    var s := PointerOf(tokens);
    assert G.At(s, 0, s);
    forall path
      ensures Resolve(v, [], s, 0) == Some(path) <==> Leads(v, tokens, path)
    {
      ResolveLeads(v, [], tokens, path, s, 0);
      assert [] + path == path;
    }
    if Resolve(v, [], s, 0).Some? {
      assert Leads(v, tokens, Resolve(v, [], s, 0).value);
    }
  }
}
