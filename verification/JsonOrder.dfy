/**
 The order of object members in utility/cjson/cJSON_Utils.c: strcmp, its case-insensitive
 form, and the merge sort of a member chain, on values.
 */
module JsonOrder {
  import opened JsonText
  import opened JsonMerge

  /** strcmp(a, b) < 0. */
  predicate Less(a: string, b: string) {
    b != "" && (a == "" || a[0] < b[0] || (a[0] == b[0] && Less(a[1..], b[1..])))
  }

  lemma {:induction false} LessIrreflexive(a: string)
    ensures !Less(a, a)
  {
    if a != "" {
      LessIrreflexive(a[1..]);
    }
  }

  lemma {:induction false} LessTotal(a: string, b: string)
    ensures Less(a, b) || a == b || Less(b, a)
  {
    if a != "" && b != "" && a[0] == b[0] {
      LessTotal(a[1..], b[1..]);
      if a[1..] == b[1..] {
        assert a == [a[0]] + a[1..] == [b[0]] + b[1..] == b;
      }
    }
  }

  lemma {:induction false} LessTransitive(a: string, b: string, c: string)
    requires Less(a, b) && Less(b, c)
    ensures Less(a, c)
  {
    if a != "" && a[0] == b[0] == c[0] {
      LessTransitive(a[1..], b[1..], c[1..]);
    }
  }

  // ----- sizes, for termination

  function Size(v: Json): (n: nat)
    ensures n > 0
  {
    match v
    case Array(items) => 1 + ItemsSize(items)
    case Object(members) => 1 + MembersSize(members)
    case _ => 1
  }

  function ItemsSize(items: Items): nat {
    if items.NoItems? then 0 else Size(items.head) + ItemsSize(items.tail)
  }

  function MembersSize(members: Members): nat {
    if members.NoMembers? then 0 else 1 + Size(members.value) + MembersSize(members.rest)
  }

  // ----- merge sort

  function Length(members: Members): nat {
    if members.NoMembers? then 0 else 1 + Length(members.rest)
  }

  function Take(members: Members, n: nat): Members {
    if n == 0 || members.NoMembers? then NoMembers
    else Member(members.name, members.value, Take(members.rest, n - 1))
  }

  function Drop(members: Members, n: nat): Members {
    if n == 0 || members.NoMembers? then members else Drop(members.rest, n - 1)
  }

  predicate Before(a: string, b: string) {
    Less(Fold(a), Fold(b))
  }

  predicate Sorted(members: Members) {
    members.Member? && members.rest.Member? ==> Before(members.name, members.rest.name) && Sorted(members.rest)
  }

  function Merge(a: Members, b: Members): Members {
    if a.NoMembers? then b
    else if b.NoMembers? then a
    else if Before(a.name, b.name) then Member(a.name, a.value, Merge(a.rest, b))
    else Member(b.name, b.value, Merge(a, b.rest))
  }

  lemma {:induction false} TakeDropLength(members: Members, n: nat)
    requires n <= Length(members)
    ensures Length(Take(members, n)) == n && Length(Drop(members, n)) == Length(members) - n
  {
    if n > 0 {
      TakeDropLength(members.rest, n - 1);
    }
  }

  /** cJSONUtils_SortList: a chain in strict order stays as it is. */
  function Sort(members: Members): Members
    decreases Length(members)
  {
    if Sorted(members) then members
    else
      var half := (Length(members) + 1) / 2;
      TakeDropLength(members, half);
      Merge(Sort(Take(members, half)), Sort(Drop(members, half)))
  }

  lemma SortUnsorted(members: Members)
    requires !Sorted(members)
    ensures var half := (Length(members) + 1) / 2;
      Sort(members) == Merge(Sort(Take(members, half)), Sort(Drop(members, half)))
  {
    hide Merge, Take, Drop;
  }

  // ----- sorting keeps what the chain means

  /** The members of m are those of a and those of b. */
  ghost predicate Splits(m: Members, a: Members, b: Members) {
    SplitsFields(m, a, b) && SplitsKinds(m, a, b)
  }

  ghost predicate SplitsFields(m: Members, a: Members, b: Members) {
    && Names(m) == Names(a) + Names(b)
    && (Distinct(m) <==> Distinct(a) && Distinct(b) && Names(a) !! Names(b))
    && (Distinct(m) ==> Fields(m) == Fields(a) + Fields(b))
  }

  ghost predicate SplitsKinds(m: Members, a: Members, b: Members) {
    && MembersSize(m) == MembersSize(a) + MembersSize(b)
    && (AllProperMembers(m) <==> AllProperMembers(a) && AllProperMembers(b))
    && MemberNames(m) == MemberNames(a) + MemberNames(b)
    && (NoNullMembers(m) <==> NoNullMembers(a) && NoNullMembers(b))
  }

  /** One more member in front of the left part. */
  lemma SplitsLeft(m: Members, a: Members, b: Members)
    requires m.Member? && a.Member? && m.name == a.name && m.value == a.value && Splits(m.rest, a.rest, b)
    ensures Splits(m, a, b)
  {
    hide MeaningOf, Fold, Size, AllProper, AllNames, NoNulls, SplitsFields;
    SplitsLeftFields(m, a, b);
    hide Fields, Names, Distinct;
  }

  lemma SplitsLeftFields(m: Members, a: Members, b: Members)
    requires m.Member? && a.Member? && m.name == a.name && m.value == a.value && SplitsFields(m.rest, a.rest, b)
    ensures SplitsFields(m, a, b)
  {
    hide MeaningOf, Fold;
    assert Names(m) == Names(a) + Names(b);
    assert Distinct(m) <==> Distinct(a) && Distinct(b) && Names(a) !! Names(b);
    if Distinct(m) {
      assert Fields(m) == Fields(a) + Fields(b);
    }
  }

  /** One more member in front of the right part. */
  lemma SplitsRight(m: Members, a: Members, b: Members)
    requires m.Member? && b.Member? && m.name == b.name && m.value == b.value && Splits(m.rest, a, b.rest)
    ensures Splits(m, a, b)
  {
    hide MeaningOf, Fold, Size, AllProper, AllNames, NoNulls, SplitsFields;
    SplitsRightFields(m, a, b);
    hide Fields, Names, Distinct;
  }

  lemma SplitsRightFields(m: Members, a: Members, b: Members)
    requires m.Member? && b.Member? && m.name == b.name && m.value == b.value && SplitsFields(m.rest, a, b.rest)
    ensures SplitsFields(m, a, b)
  {
    hide MeaningOf, Fold;
    assert Names(m) == Names(a) + Names(b);
    assert Distinct(m) <==> Distinct(a) && Distinct(b) && Names(a) !! Names(b);
    if Distinct(m) {
      assert Fields(m) == Fields(a) + Fields(b);
    }
  }

  lemma {:induction false} TakeDropSplits(members: Members, n: nat)
    ensures Splits(members, Take(members, n), Drop(members, n))
  {
    if n > 0 && members.Member? {
      TakeDropSplits(members.rest, n - 1);
      hide Splits;
      SplitsLeft(members, Take(members, n), Drop(members, n));
    }
  }

  lemma {:induction false} MergeSplits(a: Members, b: Members)
    ensures Splits(Merge(a, b), a, b)
  {
    if a.Member? && b.Member? {
      hide Splits;
      if Before(a.name, b.name) {
        MergeSplits(a.rest, b);
        SplitsLeft(Merge(a, b), a, b);
      } else {
        MergeSplits(a, b.rest);
        SplitsRight(Merge(a, b), a, b);
      }
    }
  }

  /** Distinct names, everywhere in a value. */
  predicate AllProper(v: Json) {
    match v
    case Array(items) => AllProperItems(items)
    case Object(members) => Distinct(members) && AllProperMembers(members)
    case _ => true
  }

  predicate AllProperItems(items: Items) {
    items.Item? ==> AllProper(items.head) && AllProperItems(items.tail)
  }

  predicate AllProperMembers(members: Members) {
    members.Member? ==> AllProper(members.value) && AllProperMembers(members.rest)
  }

  /** The names of all members anywhere in a value, as they are spelled. */
  function AllNames(v: Json): set<string> {
    match v
    case Array(items) => ItemNames(items)
    case Object(members) => MemberNames(members)
    case _ => {}
  }

  function ItemNames(items: Items): set<string> {
    if items.NoItems? then {} else AllNames(items.head) + ItemNames(items.tail)
  }

  function MemberNames(members: Members): set<string> {
    if members.NoMembers? then {} else {members.name} + AllNames(members.value) + MemberNames(members.rest)
  }

  /** No null members in v and in the objects reached from it through objects. */
  predicate NoNulls(v: Json) {
    v.Object? ==> NoNullMembers(v.members)
  }

  predicate NoNullMembers(members: Members) {
    members.Member? ==> !members.value.Null? && NoNulls(members.value) && NoNullMembers(members.rest)
  }

  /** Two chains of the same members. */
  ghost predicate Same(m: Members, n: Members) {
    Splits(m, n, NoMembers)
  }

  lemma JoinSplits(m: Members, a: Members, b: Members, x: Members, y: Members, n: Members)
    requires Splits(m, a, b) && Same(x, a) && Same(y, b) && Splits(n, x, y)
    ensures Same(n, m)
  {
    hide Names, Fields, MembersSize, AllProperMembers, MemberNames, NoNullMembers, Distinct;
    Nothing();
    assert Fields(NoMembers).Keys == {};
    if Distinct(m) {
      assert Fields(n) == Fields(m) + Fields(NoMembers);
    }
  }

  lemma Nothing()
    ensures Names(NoMembers) == {} && Fields(NoMembers) == map[] && MembersSize(NoMembers) == 0 && Distinct(NoMembers)
    ensures AllProperMembers(NoMembers) && MemberNames(NoMembers) == {} && NoNullMembers(NoMembers)
  {
  }

  lemma UnsortedLong(m: Members)
    requires !Sorted(m)
    ensures Length(m) >= 2
  {
  }

  lemma SplitsDistinct(m: Members, a: Members, b: Members)
    requires Splits(m, a, b) && Distinct(m)
    ensures Distinct(a) && Distinct(b) && Names(a) !! Names(b)
  {
  }

  lemma SameItself(m: Members)
    ensures Same(m, m)
  {
    hide Names, Fields, MembersSize, AllProperMembers, MemberNames, NoNullMembers, Distinct;
    Nothing();
    assert Fields(m) + map[] == Fields(m);
  }

  /** What chains of the same members have in common. */
  lemma SameFacts(m: Members, n: Members)
    requires Same(m, n)
    ensures Names(m) == Names(n) && MembersSize(m) == MembersSize(n)
    ensures Distinct(m) <==> Distinct(n)
    ensures Distinct(m) ==> Fields(m) == Fields(n)
    ensures AllProperMembers(m) <==> AllProperMembers(n)
    ensures MemberNames(m) == MemberNames(n)
    ensures NoNullMembers(m) <==> NoNullMembers(n)
  {
    hide Names, Fields, MembersSize, AllProperMembers, MemberNames, NoNullMembers, Distinct;
    Nothing();
    if Distinct(n) {
      assert Fields(n) + map[] == Fields(n);
    }
  }

  /** Sorting only reorders. */
  lemma {:induction false} SortKeeps(members: Members)
    ensures Same(Sort(members), members)
    decreases Length(members)
  {
    hide Same, Splits, Merge, Take, Drop, Sorted;
    if Sorted(members) {
      SameItself(members);
    } else {
      UnsortedLong(members);
      var half := (Length(members) + 1) / 2;
      TakeDropLength(members, half);
      var a, b := Take(members, half), Drop(members, half);
      TakeDropSplits(members, half);
      SortKeeps(a);
      SortKeeps(b);
      MergeSplits(Sort(a), Sort(b));
      JoinSplits(members, a, b, Sort(a), Sort(b), Merge(Sort(a), Sort(b)));
    }
  }

  lemma {:induction false} MergeSorted(a: Members, b: Members)
    requires Sorted(a) && Sorted(b) && Names(a) !! Names(b)
    ensures Sorted(Merge(a, b))
  {
    if a.Member? && b.Member? {
      if Before(a.name, b.name) {
        MergeSorted(a.rest, b);
      } else {
        assert Fold(a.name) in Names(a) && Fold(b.name) in Names(b);
        LessTotal(Fold(a.name), Fold(b.name));
        MergeSorted(a, b.rest);
      }
    }
  }

  /** Distinct names come out in strict case-insensitive order. */
  lemma {:induction false} SortSorts(members: Members)
    requires Distinct(members)
    ensures Sorted(Sort(members))
    decreases Length(members)
  {
    hide Same, Splits, Merge, Take, Drop, Sorted, Distinct;
    if !Sorted(members) {
      UnsortedLong(members);
      var half := (Length(members) + 1) / 2;
      TakeDropLength(members, half);
      var a, b := Take(members, half), Drop(members, half);
      TakeDropSplits(members, half);
      SplitsDistinct(members, a, b);
      SortSorts(a);
      SortSorts(b);
      SortKeeps(a);
      SortKeeps(b);
      SameFacts(Sort(a), a);
      SameFacts(Sort(b), b);
      MergeSorted(Sort(a), Sort(b));
    }
  }

  /** A name before the first of a sorted chain is not in the chain. */
  lemma {:induction false} SortedAbove(members: Members, key: string)
    requires Sorted(members) && members.Member? && Less(key, Fold(members.name))
    ensures key !in Names(members)
  {
    LessIrreflexive(key);
    if members.rest.Member? {
      LessTransitive(key, Fold(members.name), Fold(members.rest.name));
      SortedAbove(members.rest, key);
    }
  }
}
