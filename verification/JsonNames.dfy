/**
 How names are compared in utility/cjson/cJSON.c and cJSON_Utils.c: up to the case of the
 letters A to Z, and in the order of strcmp.
 */
module JsonNames {
  import opened JsonText
  import opened JsonMerge
  import opened JsonOrder

  const UPPER := "ABCDEFGHIJKLMNOPQRSTUVWXYZ"
  const LOWER := "abcdefghijklmnopqrstuvwxyz"

  /** c is the k-th letter, in upper or lower case. */
  predicate IsLetter(c: char, k: nat) {
    k < 26 && (c == UPPER[k] || c == LOWER[k])
  }

  /** The same character, or the two forms of one letter. */
  ghost predicate SameLetter(a: char, b: char) {
    a == b || exists k: nat :: IsLetter(a, k) && IsLetter(b, k)
  }

  lemma Letters(k: nat)
    requires k < 26
    ensures UPPER[k] == 'A' + k as char && LOWER[k] == 'a' + k as char
  {
  }

  lemma Folded(c: char, k: nat)
    requires IsLetter(c, k)
    ensures FoldChar(c) == 'a' + k as char
  {
    Letters(k);
  }

  /** A character that is folded is a letter. */
  lemma FoldedLetter(c: char)
    ensures FoldChar(c) != c ==> exists k: nat :: IsLetter(c, k) && IsLetter(FoldChar(c), k)
  {
    if 'A' <= c <= 'Z' {
      var k := c as int - 'A' as int;
      Letters(k);
      assert IsLetter(c, k) && IsLetter(FoldChar(c), k);
    }
  }

  lemma OneLetter(c: char, k: nat, j: nat)
    requires IsLetter(c, k) && IsLetter(c, j)
    ensures k == j
  {
    Folded(c, k);
    Folded(c, j);
  }

  lemma SameLetterFolds(a: char, b: char)
    ensures SameLetter(a, b) <==> FoldChar(a) == FoldChar(b)
  {
    hide FoldChar, IsLetter;
    if SameLetter(a, b) && a != b {
      var k: nat :| IsLetter(a, k) && IsLetter(b, k);
      Folded(a, k);
      Folded(b, k);
    }
    FoldedLetter(a);
    FoldedLetter(b);
    var c := FoldChar(a);
    if c == FoldChar(b) && c != a && c != b {
      var k: nat :| IsLetter(a, k) && IsLetter(c, k);
      var j: nat :| IsLetter(b, j) && IsLetter(c, j);
      OneLetter(c, k, j);
    }
  }

  /** Two names are the same up to case if and only if they are so letter by letter. */
  lemma SameName(a: string, b: string)
    ensures Fold(a) == Fold(b) <==> |a| == |b| && forall i :: 0 <= i < |a| ==> SameLetter(a[i], b[i])
  {
    hide FoldChar, SameLetter;
    if |a| == |b| {
      forall i | 0 <= i < |a|
        ensures SameLetter(a[i], b[i]) <==> Fold(a)[i] == Fold(b)[i]
      {
        SameLetterFolds(a[i], b[i]);
      }
    }
  }

  /** a and b agree up to n, and there a ends or has the smaller character. */
  predicate LessAt(a: string, b: string, n: nat) {
    n <= |a| && n < |b| && (forall i :: 0 <= i < n ==> a[i] == b[i]) && (n == |a| || a[n] < b[n])
  }

  /** The order of strcmp. */
  lemma {:induction false} LessExactly(a: string, b: string)
    ensures Less(a, b) <==> exists n: nat :: LessAt(a, b, n)
    decreases |a|
  {
    if a != "" && b != "" && a[0] == b[0] {
      LessExactly(a[1..], b[1..]);
      if n: nat :| LessAt(a[1..], b[1..], n) {
        Later(a, b, n + 1);
      }
      if n: nat :| LessAt(a, b, n) {
        Later(a, b, n);
      }
    } else if Less(a, b) {
      assert LessAt(a, b, 0);
    }
  }

  lemma Later(a: string, b: string, n: nat)
    requires a != "" && b != "" && a[0] == b[0] && n > 0
    ensures LessAt(a, b, n) <==> LessAt(a[1..], b[1..], n - 1)
  {
    if LessAt(a[1..], b[1..], n - 1) {
      forall i | 0 <= i < n
        ensures a[i] == b[i]
      {
        assert i > 0 ==> a[1..][i - 1] == b[1..][i - 1];
      }
    }
  }

  // ----- members of the same name

  /** The members with a name up to case, in order. */
  function Named(m: Members, key: string): seq<(string, Json)> {
    if m.NoMembers? then []
    else (if Fold(m.name) == key then [(m.name, m.value)] else []) + Named(m.rest, key)
  }

  function Backwards(s: seq<(string, Json)>): seq<(string, Json)> {
    if s == [] then [] else Backwards(s[1..]) + [s[0]]
  }

  /** No name is before the one in front of it. */
  predicate Ascends(m: Members) {
    m.Member? ==> NoneBelow(m.rest, m.name) && Ascends(m.rest)
  }

  predicate NoneBelow(m: Members, x: string) {
    m.Member? ==> !Before(m.name, x)
  }

  lemma BeforeOneWay(a: string, b: string)
    ensures Before(a, b) ==> !Before(b, a)
  {
    if Before(a, b) && Before(b, a) {
      LessTransitive(Fold(a), Fold(b), Fold(a));
      LessIrreflexive(Fold(a));
    }
  }

  lemma NoneBelowNext(m: Members, key: string)
    requires m.Member? && Ascends(m) && Less(key, Fold(m.name))
    ensures m.rest.Member? ==> Less(key, Fold(m.rest.name))
  {
    if m.rest.Member? {
      var x, y := Fold(m.name), Fold(m.rest.name);
      LessTotal(x, y);
      if Less(x, y) {
        LessTransitive(key, x, y);
      }
    }
  }

  lemma {:induction false} NoneNamed(m: Members, key: string)
    requires Ascends(m) && (m.Member? ==> Less(key, Fold(m.name)))
    ensures Named(m, key) == []
  {
    if m.Member? {
      LessIrreflexive(key);
      NoneBelowNext(m, key);
      NoneNamed(m.rest, key);
    }
  }

  lemma {:induction false} MergeAscends(a: Members, b: Members)
    requires Ascends(a) && Ascends(b)
    ensures Ascends(Merge(a, b))
    ensures forall x :: NoneBelow(a, x) && NoneBelow(b, x) ==> NoneBelow(Merge(a, b), x)
  {
    hide Before;
    if a.Member? && b.Member? {
      BeforeOneWay(a.name, b.name);
      if Before(a.name, b.name) {
        MergeAscends(a.rest, b);
      } else {
        MergeAscends(a, b.rest);
      }
    }
  }

  lemma {:induction false} MergeTies(a: Members, b: Members, key: string)
    requires Ascends(a) && Ascends(b)
    ensures Named(Merge(a, b), key) == Named(b, key) + Named(a, key)
  {
    hide Fold;
    if a.Member? && b.Member? {
      if Before(a.name, b.name) {
        MergeTies(a.rest, b, key);
        if Fold(a.name) == key {
          NoneNamed(b, key);
        }
      } else {
        MergeTies(a, b.rest, key);
      }
    }
  }

  lemma {:induction false} NamedSplit(m: Members, n: nat, key: string)
    ensures Named(m, key) == Named(Take(m, n), key) + Named(Drop(m, n), key)
  {
    hide Fold;
    if n > 0 && m.Member? {
      NamedSplit(m.rest, n - 1, key);
    }
  }

  lemma {:induction false} BackwardsJoin(a: seq<(string, Json)>, b: seq<(string, Json)>)
    ensures Backwards(a + b) == Backwards(b) + Backwards(a)
    decreases |a|
  {
    if a == [] {
      assert a + b == b;
    } else {
      BackwardsJoin(a[1..], b);
      assert (a + b)[1..] == a[1..] + b;
    }
  }

  lemma {:induction false} SortedOnce(m: Members, key: string)
    requires Sorted(m)
    ensures Ascends(m) && Backwards(Named(m, key)) == Named(m, key)
  {
    hide Fold;
    if m.Member? {
      SortedOnce(m.rest, key);
      if m.rest.Member? {
        BeforeOneWay(m.name, m.rest.name);
      }
      if Fold(m.name) == key {
        NoneNamed(m.rest, key);
        assert Named(m, key) == [(m.name, m.value)] && Backwards([(m.name, m.value)][1..]) == [];
      } else {
        assert Named(m, key) == Named(m.rest, key);
      }
    }
  }

  /** Sorting turns the order of members with the same name round. */
  lemma {:induction false} SortTies(m: Members, key: string)
    ensures Ascends(Sort(m)) && Named(Sort(m), key) == Backwards(Named(m, key))
    decreases Length(m)
  {
    hide Named, Backwards, Merge, Fold;
    if Sorted(m) {
      SortedOnce(m, key);
    } else {
      var half := (Length(m) + 1) / 2;
      UnsortedLong(m);
      TakeDropLength(m, half);
      var (a, b) := (Take(m, half), Drop(m, half));
      SortTies(a, key);
      SortTies(b, key);
      SortUnsorted(m);
      MergeAscends(Sort(a), Sort(b));
      MergeTies(Sort(a), Sort(b), key);
      NamedSplit(m, half, key);
      BackwardsJoin(Named(a, key), Named(b, key));
    }
  }
}
