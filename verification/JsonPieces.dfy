/**
 What cJSON_Minify of utility/cjson/cJSON.c keeps of a text, piece by piece: blanks and
 comments go, string literals and everything else stay.
 */
module JsonPieces {
  import opened JsonText
  import opened JsonGrammar
  import opened JsonRoundTrip
  import opened JsonMinify

  datatype Piece =
    | Blank(c: char)
    | Line(text: string)
    | Block(text: string)
    | ShortBlock
    | Literal(text: string)
    | Other(c: char)

  function Spelled(x: Piece): (t: string)
    ensures |t| > 0
  {
    match x
    case Blank(c) => [c]
    case Line(text) => "//" + text
    case Block(text) => "/*" + (text + "*/")
    case ShortBlock => "/*/"
    case Literal(text) => ['\"'] + (text + ['\"'])
    case Other(c) => [c]
  }

  function Whole(xs: seq<Piece>): string {
    if xs == [] then "" else Spelled(xs[0]) + Whole(xs[1..])
  }

  /** The pieces that are kept. */
  function Kept(xs: seq<Piece>): string {
    if xs == [] then ""
    else (if xs[0].Literal? || xs[0].Other? then Spelled(xs[0]) else "") + Kept(xs[1..])
  }

  /** The text between the quotes of a literal: every quote in it is escaped. */
  predicate IsBody(t: string) {
    t == "" || (t[0] != '\"' && t[0] != '\0'
                && if t[0] == '\\' then |t| > 1 && t[1] != '\0' && IsBody(t[2..]) else IsBody(t[1..]))
  }

  /** The end of a block comment does not occur in t. */
  predicate NotClosed(t: string) {
    forall i :: 0 <= i < |t| - 1 ==> !(t[i] == '*' && t[i + 1] == '/')
  }

  /** x is a piece in front of the character next, a NUL at the end of the text.  A line comment
      goes up to the line end, the star that opens a block comment closes it if a slash
      follows, and a slash is other text only if it opens no comment. */
  predicate Fits(x: Piece, next: char) {
    match x
    case Blank(c) => c in {' ', '\t', '\r', '\n'}
    case Line(text) => '\n' !in text && '\0' !in text && (next == '\n' || next == '\0')
    case Block(text) => '\0' !in text && NotClosed("*" + text)
    case ShortBlock => true
    case Literal(text) => IsBody(text)
    case Other(c) => c !in {' ', '\t', '\r', '\n', '\"', '\0'} && (c == '/' ==> next != '/' && next != '*')
  }

  predicate AllFit(xs: seq<Piece>) {
    xs != [] ==> Fits(xs[0], (Whole(xs[1..]) + [NUL])[0]) && AllFit(xs[1..])
  }

  // ----- where a piece ends

  lemma {:induction false} LineEndIs(s: string, p: nat, t: string)
    requires At(s, p, t) && '\n' !in t && NUL !in t && p + |t| < |s| && (s[p + |t|] == '\n' || s[p + |t|] == NUL)
    ensures LineEnd(s, p) == Some(p + |t|)
    decreases |t|
  {
    hide At;
    if t != "" {
      AtChar(s, p, t, 0);
      assert t == t[..1] + t[1..];
      AtSplit(s, p, t[..1], t[1..]);
      LineEndIs(s, p + 1, t[1..]);
    }
  }

  lemma {:induction false} CommentEndIs(s: string, p: nat, t: string)
    requires At(s, p, t + "*/") && NUL !in t && NotClosed(t)
    ensures CommentEnd(s, p) == Some(p + |t| + 2)
    decreases |t|
  {
    hide At;
    var u := t + "*/";
    AtInside(s, p, u);
    AtChar(s, p, u, 0);
    AtChar(s, p, u, 1);
    if t != "" {
      assert u == u[..1] + (t[1..] + "*/");
      AtSplit(s, p, u[..1], t[1..] + "*/");
      CommentEndIs(s, p + 1, t[1..]);
    }
  }

  lemma {:induction false} StringEndIs(s: string, p: nat, t: string)
    requires At(s, p, t + [QUOTE]) && IsBody(t)
    ensures StringEnd(s, p) == Some(p + |t| + 1)
    decreases |t|
  {
    hide At;
    var u := t + [QUOTE];
    AtInside(s, p, u);
    AtChar(s, p, u, 0);
    if t != "" {
      var n := if t[0] == BACKSLASH then 2 else 1;
      AtChar(s, p, u, 1);
      assert u == u[..n] + (t[n..] + [QUOTE]);
      AtSplit(s, p, u[..n], t[n..] + [QUOTE]);
      StringEndIs(s, p + n, t[n..]);
    }
  }

  /** The minifier takes one piece at a time. */
  lemma NextPiece(s: string, p: nat, x: Piece)
    requires At(s, p, Spelled(x)) && p + |Spelled(x)| < |s| && Fits(x, s[p + |Spelled(x)|])
    ensures s[p] != NUL
    ensures Next(s, p) == Some((if x.Literal? || x.Other? then Spelled(x) else "", p + |Spelled(x)|))
  {
    hide LineEnd, CommentEnd, StringEnd, IsBody, NotClosed;
    var t := Spelled(x);
    AtChar(s, p, t, 0);
    if |t| > 1 {
      AtChar(s, p, t, 1);
    }
    match x
    case Blank(c) =>
    case Line(text) => LineEndIs(s, p, t);
    case Block(text) => BlockEnd(s, p, text);
    case ShortBlock => ShortBlockEnd(s, p);
    case Literal(text) =>
      AtSplit(s, p, [QUOTE], text + [QUOTE]);
      StringEndIs(s, p + 1, text);
    case Other(c) =>
  }

  lemma BlockEnd(s: string, p: nat, text: string)
    requires At(s, p, "/*" + (text + "*/")) && NUL !in text && NotClosed("*" + text)
    ensures CommentEnd(s, p) == Some(p + |text| + 4)
  {
    var t := "*" + text;
    assert "/*" + (text + "*/") == "/" + (t + "*/");
    AtSplit(s, p, "/", t + "*/");
    AtChar(s, p, "/", 0);
    AtInside(s, p + 1, t + "*/");
    CommentEndIs(s, p + 1, t);
  }

  lemma ShortBlockEnd(s: string, p: nat)
    requires At(s, p, "/*/")
    ensures CommentEnd(s, p) == Some(p + 3)
  {
    assert "/*/" == "/" + ("" + "*/");
    AtSplit(s, p, "/", "" + "*/");
    AtChar(s, p, "/", 0);
    AtInside(s, p + 1, "" + "*/");
    CommentEndIs(s, p + 1, "");
  }

  lemma CommentNext(s: string, p: nat)
    requires p < |s| && s[p] != NUL && s[p] != '*'
    ensures CommentEnd(s, p) == CommentEnd(s, p + 1)
  {
  }

  // ----- a text in pieces

  lemma {:induction false} PiecesKept(xs: seq<Piece>, s: string, p: nat)
    requires AllFit(xs) && At(s, p, Whole(xs)) && p + |Whole(xs)| < |s| && s[p + |Whole(xs)|] == NUL
    ensures Minified(s, p) == Some(Kept(xs))
    decreases |xs|
  {
    hide At, Next, Fits, Spelled;
    if xs != [] {
      var t, rest := Spelled(xs[0]), Whole(xs[1..]);
      AtSplit(s, p, t, rest);
      if rest != "" {
        AtChar(s, p + |t|, rest, 0);
      }
      NextPiece(s, p, xs[0]);
      PiecesKept(xs[1..], s, p + |t|);
    }
  }

  lemma {:induction false} LineEndFree(s: string, p: nat)
    requires LineEnd(s, p).Some?
    ensures var q := LineEnd(s, p).value;
      p <= q < |s| && '\n' !in s[p..q] && NUL !in s[p..q] && (s[q] == '\n' || s[q] == NUL)
    decreases |s| - p
  {
    if s[p] != NUL && s[p] != '\n' {
      LineEndFree(s, p + 1);
      var q := LineEnd(s, p).value;
      assert s[p..q] == [s[p]] + s[p + 1..q];
    }
  }

  lemma {:induction false} CommentEndFree(s: string, p: nat)
    requires CommentEnd(s, p).Some?
    ensures var q := CommentEnd(s, p).value;
      p + 2 <= q <= |s| && s[q - 2] == '*' && s[q - 1] == '/' && NUL !in s[p..q - 2]
      && forall i :: p <= i < q - 2 ==> !(s[i] == '*' && s[i + 1] == '/')
    decreases |s| - p
  {
    if !(s[p] == '*' && p + 1 < |s| && s[p + 1] == '/') {
      CommentEndFree(s, p + 1);
      var q := CommentEnd(s, p).value;
      assert s[p..q - 2] == [s[p]] + s[p + 1..q - 2];
    }
  }

  lemma {:induction false} StringEndBody(s: string, p: nat)
    requires StringEnd(s, p).Some?
    ensures var q := StringEnd(s, p).value; p < q <= |s| && s[q - 1] == QUOTE && IsBody(s[p..q - 1])
    decreases |s| - p
  {
    if s[p] != QUOTE {
      var n := if s[p] == BACKSLASH then 2 else 1;
      StringEndBody(s, p + n);
      var q := StringEnd(s, p).value;
      assert s[p..q - 1][n..] == s[p + n..q - 1];
    }
  }

  lemma LinePiece(s: string, p: nat) returns (x: Piece)
    requires p + 1 < |s| && s[p] == '/' && s[p + 1] == '/' && LineEnd(s, p).Some?
    ensures var q := LineEnd(s, p).value; p < q < |s| && Spelled(x) == s[p..q] && Fits(x, s[q])
  {
    hide LineEnd;
    LineEndFree(s, p);
    TwoSlashes(s, p);
    var q := LineEnd(s, p).value;
    x := Line(s[p + 2..q]);
    assert s[p..q] == "//" + s[p + 2..q];
  }

  lemma BlockPiece(s: string, p: nat) returns (x: Piece)
    requires p + 1 < |s| && s[p] == '/' && s[p + 1] == '*' && CommentEnd(s, p).Some?
    ensures var q := CommentEnd(s, p).value;
      p < q <= |s| && Spelled(x) == s[p..q] && forall next :: Fits(x, next)
  {
    hide CommentEnd, NotClosed, Spelled;
    CommentNext(s, p);
    CommentEndFree(s, p + 1);
    var q := CommentEnd(s, p).value;
    if q == p + 3 {
      x := ShortBlock;
      assert s[p..q] == "/*/";
      assert Spelled(x) == "/*/" by { ShortBlockSpelled(); }
    } else {
      var text := s[p + 2..q - 2];
      x := Block(text);
      assert s[p + 1..q - 2] == "*" + text;
      StaysOpen(s, p + 1, q - 2);
      BlockSpelled(s, p, q);
    }
  }

  lemma ShortBlockSpelled()
    ensures Spelled(ShortBlock) == "/*/"
  {
  }

  lemma BlockSpelled(s: string, p: nat, q: nat)
    requires p + 4 <= q <= |s| && s[p] == '/' && s[p + 1] == '*' && s[q - 2] == '*' && s[q - 1] == '/'
    ensures Spelled(Block(s[p + 2..q - 2])) == s[p..q]
  {
    assert s[p..q] == "/*" + (s[p + 2..q - 2] + "*/");
  }

  lemma StaysOpen(s: string, p: nat, q: nat)
    requires p <= q < |s| && forall i :: p <= i < q ==> !(s[i] == '*' && s[i + 1] == '/')
    ensures NotClosed(s[p..q])
  {
    var t := s[p..q];
    forall i | 0 <= i < |t| - 1
      ensures !(t[i] == '*' && t[i + 1] == '/')
    {
      assert t[i] == s[p + i] && t[i + 1] == s[p + i + 1];
    }
  }

  lemma LiteralPiece(s: string, p: nat, next: char) returns (x: Piece)
    requires p < |s| && s[p] == QUOTE && StringEnd(s, p + 1).Some?
    ensures Spelled(x) == s[p..StringEnd(s, p + 1).value] && Fits(x, next)
  {
    hide StringEnd, IsBody;
    StringEndBody(s, p + 1);
    var q := StringEnd(s, p + 1).value;
    x := Literal(s[p + 1..q - 1]);
    assert s[p..q] == [QUOTE] + (s[p + 1..q - 1] + [QUOTE]);
  }

  lemma SinglePiece(c: char, next: char) returns (x: Piece)
    requires c != QUOTE && c != NUL && (c == '/' ==> next != '/' && next != '*')
    ensures Spelled(x) == [c] && Fits(x, next)
  {
    x := if IsBlank(c) then Blank(c) else Other(c);
  }

  /** What the minifier takes is a piece. */
  lemma PieceAt(s: string, p: nat) returns (x: Piece)
    requires p < |s| && s[p] != NUL && Next(s, p).Some? && Next(s, p).value.1 < |s|
    ensures var q := Next(s, p).value.1; p < q && Spelled(x) == s[p..q] && Fits(x, s[q])
  {
    hide LineEnd, CommentEnd, StringEnd, Spelled, Fits;
    if s[p] == '/' && p + 1 < |s| && s[p + 1] == '/' {
      x := LinePiece(s, p);
    } else if s[p] == '/' && p + 1 < |s| && s[p + 1] == '*' {
      x := BlockPiece(s, p);
    } else if s[p] == QUOTE {
      x := LiteralPiece(s, p, s[Next(s, p).value.1]);
    } else {
      x := SinglePiece(s[p], s[p + 1]);
      assert s[p..p + 1] == [s[p]];
    }
  }

  lemma TwoSlashes(s: string, p: nat)
    requires p + 1 < |s| && s[p] == '/' && s[p + 1] == '/' && LineEnd(s, p).Some?
    ensures LineEnd(s, p).value >= p + 2
  {
    LineEndAt(s, p + 2);
  }

  lemma {:induction false} InPieces(s: string, p: nat) returns (xs: seq<Piece>)
    requires IsText(s) && p < |s| && Minified(s, p).Some?
    ensures AllFit(xs) && Whole(xs) + [NUL] == s[p..]
    decreases |s| - p
  {
    hide Next, Fits, Spelled;
    TextGoesOn(s, p);
    if s[p] == NUL {
      xs := [];
    } else {
      NextAdvances(s, p);
      var q := Next(s, p).value.1;
      MinifiedInside(s, q);
      var x := PieceAt(s, p);
      var rest := InPieces(s, q);
      xs := [x] + rest;
      assert xs[1..] == rest && s[p..] == s[p..q] + s[q..];
      assert (Whole(rest) + [NUL])[0] == s[q];
      assert Spelled(x) + Whole(rest) + [NUL] == Spelled(x) + (Whole(rest) + [NUL]);
    }
  }

  lemma MinifiedInside(s: string, p: nat)
    ensures Minified(s, p).Some? ==> p < |s|
  {
  }

  /** A text can be minified if and only if it is in pieces, and then the kept pieces stay. */
  lemma MinifiedExactly(text: string, kept: string)
    requires NulFree(text)
    ensures Minified(text + [NUL], 0) == Some(kept)
       <==> exists xs :: AllFit(xs) && Whole(xs) == text && Kept(xs) == kept
  {
    hide Minified, AllFit, Kept;
    var s := text + [NUL];
    if Minified(s, 0).Some? {
      var xs := InPieces(s, 0);
      assert Whole(xs) == (Whole(xs) + [NUL])[..|Whole(xs)|] && s[0..] == s;
      assert Whole(xs) == text;
      PiecesKept(xs, s, 0);
    }
    if xs :| AllFit(xs) && Whole(xs) == text && Kept(xs) == kept {
      assert At(s, 0, text);
      PiecesKept(xs, s, 0);
    }
  }

  lemma {:induction false} KeptJoin(a: seq<Piece>, b: seq<Piece>)
    ensures Kept(a + b) == Kept(a) + Kept(b)
    decreases |a|
  {
    hide Spelled;
    if a == [] {
      assert a + b == b;
    } else {
      KeptJoin(a[1..], b);
      assert (a + b)[1..] == a[1..] + b;
      Assoc(if a[0].Literal? || a[0].Other? then Spelled(a[0]) else "", Kept(a[1..]), Kept(b));
    }
  }

  /** A blank or a comment between pieces changes nothing. */
  lemma InsertedGoes(a: seq<Piece>, x: Piece, b: seq<Piece>)
    requires AllFit(a + b) && AllFit(a + ([x] + b)) && !x.Literal? && !x.Other?
    ensures Minified(Whole(a + ([x] + b)) + [NUL], 0) == Minified(Whole(a + b) + [NUL], 0)
  {
    hide Minified, AllFit, Whole, Spelled;
    KeptJoin(a, b);
    KeptJoin(a, [x] + b);
    assert ([x] + b)[1..] == b && Kept([x] + b) == Kept(b);
    PiecesKept(a + b, Whole(a + b) + [NUL], 0);
    PiecesKept(a + ([x] + b), Whole(a + ([x] + b)) + [NUL], 0);
  }
}
