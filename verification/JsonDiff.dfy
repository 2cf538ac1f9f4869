/**
 Comparing values and generating merge patches, utility/cjson/cJSON_Utils.c.
 */
module JsonDiff {
  import opened JsonText
  import opened JsonMerge
  import opened JsonOrder

  // ----- comparing

  lemma SortSize(members: Members)
    ensures MembersSize(Sort(members)) == MembersSize(members)
  {
    hide Same, Sort;
    SortKeeps(members);
    SameFacts(Sort(members), members);
  }

  /** cJSONUtils_Compare: zero, or what the first difference is. */
  function Compare(a: Json, b: Json): int
    decreases Size(a), 1
  {
    match (a, b)
    case (Null, Null) => 0
    case (False, False) => 0
    case (True, True) => 0
    case (Number(x), Number(y)) => if x != y then -2 else 0
    case (String(x), String(y)) => if x != y then -3 else 0
    case (Array(x), Array(y)) => CompareItems(x, y)
    case (Object(x), Object(y)) =>
      SortSize(x);
      CompareMembers(Sort(x), Sort(y))
    case _ => -1
  }

  function CompareItems(x: Items, y: Items): int
    decreases ItemsSize(x), 2
  {
    if x.Item? && y.Item? then
      var err := Compare(x.head, y.head);
      if err != 0 then err else CompareItems(x.tail, y.tail)
    else if x.Item? || y.Item? then -4
    else 0
  }

  function CompareMembers(x: Members, y: Members): int
    decreases MembersSize(x), 2
  {
    if x.Member? && y.Member? then
      if Fold(x.name) != Fold(y.name) then -6
      else
        var err := Compare(x.value, y.value);
        if err != 0 then err else CompareMembers(x.rest, y.rest)
    else if x.Member? || y.Member? then -5
    else 0
  }

  /** Two values compare equal if and only if they mean the same. */
  lemma {:induction false} CompareMeans(a: Json, b: Json)
    requires AllProper(a) && AllProper(b)
    ensures Compare(a, b) == 0 <==> MeaningOf(a) == MeaningOf(b)
    decreases Size(a), 1
  {
    match (a, b)
    case (Array(x), Array(y)) => CompareItemsMeans(x, y);
    case (Object(x), Object(y)) =>
      SortSize(x);
      Arranged(x);
      Arranged(y);
      CompareMembersMeans(Sort(x), Sort(y));
    case _ =>
  }

  /** What the proofs need to know about a sorted chain. */
  lemma Arranged(x: Members)
    requires Distinct(x)
    ensures Distinct(Sort(x)) && Sorted(Sort(x)) && Fields(Sort(x)) == Fields(x) && Names(Sort(x)) == Names(x)
    ensures AllProperMembers(Sort(x)) <==> AllProperMembers(x)
    ensures MemberNames(Sort(x)) == MemberNames(x)
    ensures NoNullMembers(Sort(x)) <==> NoNullMembers(x)
    ensures MembersSize(Sort(x)) == MembersSize(x)
  {
    hide Same, Sort;
    SortKeeps(x);
    SameFacts(Sort(x), x);
    SortSorts(x);
  }

  lemma {:induction false} CompareItemsMeans(x: Items, y: Items)
    requires AllProperItems(x) && AllProperItems(y)
    ensures CompareItems(x, y) == 0 <==> ItemsMeaning(x) == ItemsMeaning(y)
    decreases ItemsSize(x), 2
  {
    if x.Item? && y.Item? {
      CompareMeans(x.head, y.head);
      CompareItemsMeans(x.tail, y.tail);
      ConsEqual(MeaningOf(x.head), ItemsMeaning(x.tail), MeaningOf(y.head), ItemsMeaning(y.tail));
    }
  }

  lemma ConsEqual(a: Meaning, s: seq<Meaning>, b: Meaning, t: seq<Meaning>)
    ensures [a] + s == [b] + t <==> a == b && s == t
  {
    if [a] + s == [b] + t {
      assert ([a] + s)[0] == ([b] + t)[0];
      assert ([a] + s)[1..] == s && ([b] + t)[1..] == t;
    }
  }

  lemma {:induction false} CompareMembersMeans(x: Members, y: Members)
    requires Distinct(x) && Distinct(y) && Sorted(x) && Sorted(y) && AllProperMembers(x) && AllProperMembers(y)
    ensures CompareMembers(x, y) == 0 <==> Fields(x) == Fields(y)
    decreases MembersSize(x), 2
  {
    if x.Member? && y.Member? {
      if Fold(x.name) == Fold(y.name) {
        CompareMeans(x.value, y.value);
        CompareMembersMeans(x.rest, y.rest);
        FieldsEqual(Fold(x.name), MeaningOf(x.value), Fields(x.rest), MeaningOf(y.value), Fields(y.rest));
      } else {
        NamesDiffer(x, y);
      }
    } else if x.Member? || y.Member? {
      assert Fields(x).Keys == Names(x) && Fields(y).Keys == Names(y);
      assert x.Member? ==> Fold(x.name) in Names(x);
      assert y.Member? ==> Fold(y.name) in Names(y);
    }
  }

  lemma FieldsEqual(key: string, a: Meaning, m: map<string, Meaning>, b: Meaning, n: map<string, Meaning>)
    requires key !in m && key !in n
    ensures m[key := a] == n[key := b] <==> a == b && m == n
  {
    if m[key := a] == n[key := b] {
      assert m[key := a][key] == n[key := b][key];
      assert m == m[key := a] - {key} == n[key := b] - {key} == n;
    }
  }

  /** Sorted chains that start with different names do not have the same names. */
  lemma NamesDiffer(x: Members, y: Members)
    requires x.Member? && y.Member? && Sorted(x) && Sorted(y) && Fold(x.name) != Fold(y.name)
    ensures Names(x) != Names(y) && Fields(x) != Fields(y)
  {
    assert Fold(x.name) in Names(x) && Fold(y.name) in Names(y);
    LessTotal(Fold(x.name), Fold(y.name));
    if Less(Fold(x.name), Fold(y.name)) {
      SortedAbove(y, Fold(x.name));
    } else {
      SortedAbove(x, Fold(y.name));
    }
    assert Fields(x).Keys == Names(x) && Fields(y).Keys == Names(y);
  }

  // ----- generating a patch

  /** cJSONUtils_GenerateMergePatch of two values; no patch is a NULL pointer. */
  function Generate(from: Json, to: Json): Option<Json>
    decreases Size(from), 1
  {
    if !to.Object? || !from.Object? then Some(to)
    else
      SortSize(from.members);
      var patch := Walk(Sort(from.members), Sort(to.members));
      if patch.NoMembers? then None else Some(Object(patch))
  }

  /** The walk over the two sorted chains.  Names are compared with their letter case. */
  function Walk(from: Members, to: Members): Members
    decreases MembersSize(from), 2, MembersSize(to)
  {
    if from.NoMembers? && to.NoMembers? then NoMembers
    else if to.NoMembers? || (from.Member? && Less(from.name, to.name)) then
      Member(from.name, Null, Walk(from.rest, to))
    else if from.NoMembers? || Less(to.name, from.name) then
      Member(to.name, to.value, Walk(from, to.rest))
    else if Compare(from.value, to.value) == 0 then Walk(from.rest, to.rest)
    else
      var patch := Generate(from.value, to.value);
      if patch.None? then Walk(from.rest, to.rest)
      else Member(to.name, patch.value, Walk(from.rest, to.rest))
  }

  /** What applying the generated patch to from gives. */
  function Patched(from: Json, to: Json): Json {
    var patch := Generate(from, to);
    if patch.None? then from else MergePatch(Some(from), patch.value)
  }

  // ----- when the patch turns from into to

  /** No step of the walk adds a member whose name, up to case, is still ahead in from, or
      one that is null or has null members. */
  predicate Safe(from: Json, to: Json)
    decreases Size(from), 1
  {
    if to.Object? && from.Object? then
      SortSize(from.members);
      SafeWalk(Sort(from.members), Sort(to.members))
    else NoNulls(to)
  }

  predicate SafeWalk(from: Members, to: Members)
    decreases MembersSize(from), 2, MembersSize(to)
  {
    if from.NoMembers? && to.NoMembers? then true
    else if to.NoMembers? || (from.Member? && Less(from.name, to.name)) then SafeWalk(from.rest, to)
    else if from.NoMembers? || Less(to.name, from.name) then
      Fold(to.name) !in Names(from) && !to.value.Null? && NoNulls(to.value) && SafeWalk(from, to.rest)
    else
      (Compare(from.value, to.value) == 0 || (!to.value.Null? && Safe(from.value, to.value)))
      && SafeWalk(from.rest, to.rest)
  }

  // ----- what the walk does to one key

  lemma {:induction false} Untouched(from: Members, to: Members, base: map<string, Meaning>, key: string)
    requires key !in Names(from) && key !in Names(to)
    ensures Get(AppliedAll(base, Walk(from, to)), key) == Get(base, key)
    decreases MembersSize(from), MembersSize(to)
  {
    hide Compare, Generate, Applied;
    if from.NoMembers? && to.NoMembers? {
    } else if to.NoMembers? || (from.Member? && Less(from.name, to.name)) {
      Untouched(from.rest, to, base - {Fold(from.name)}, key);
    } else if from.NoMembers? || Less(to.name, from.name) {
      var name := Fold(to.name);
      if to.value.Null? {
        Untouched(from, to.rest, base - {name}, key);
      } else {
        Untouched(from, to.rest, base[name := Applied(Lookup(base, name), to.value)], key);
      }
    } else {
      var name, patch := Fold(to.name), Generate(from.value, to.value);
      if Compare(from.value, to.value) == 0 || patch.None? {
        Untouched(from.rest, to.rest, base, key);
      } else if patch.value.Null? {
        Untouched(from.rest, to.rest, base - {name}, key);
      } else {
        Untouched(from.rest, to.rest, base[name := Applied(Lookup(base, name), patch.value)], key);
      }
    }
  }

  /** A key that only from still has is removed for good. */
  lemma {:induction false} Removed(from: Members, to: Members, base: map<string, Meaning>, key: string)
    requires Distinct(from) && key in Names(from) && key !in Names(to)
    ensures key !in AppliedAll(base, Walk(from, to))
    decreases MembersSize(from), MembersSize(to)
  {
    hide Compare, Generate, Applied;
    LessTotal(from.name, if to.Member? then to.name else from.name);
    if to.NoMembers? || Less(from.name, to.name) {
      var name := Fold(from.name);
      if key == name {
        Untouched(from.rest, to, base - {name}, key);
        assert Get(base - {name}, key) == None;
      } else {
        Removed(from.rest, to, base - {name}, key);
      }
    } else if Less(to.name, from.name) {
      var name := Fold(to.name);
      if to.value.Null? {
        Removed(from, to.rest, base - {name}, key);
      } else {
        Removed(from, to.rest, base[name := Applied(Lookup(base, name), to.value)], key);
      }
    } else {
      var name, patch := Fold(to.name), Generate(from.value, to.value);
      assert name in Names(to);
      if Compare(from.value, to.value) == 0 || patch.None? {
        Removed(from.rest, to.rest, base, key);
      } else if patch.value.Null? {
        Removed(from.rest, to.rest, base - {name}, key);
      } else {
        Removed(from.rest, to.rest, base[name := Applied(Lookup(base, name), patch.value)], key);
      }
    }
  }

  // ----- merging a copy into nothing

  lemma {:induction false} OtherKeys(base: map<string, Meaning>, patch: Members, key: string)
    requires key !in Names(patch)
    ensures Get(AppliedAll(base, patch), key) == Get(base, key)
    decreases patch
  {
    hide Applied;
    if patch.Member? {
      var name := Fold(patch.name);
      if patch.value.Null? {
        OtherKeys(base - {name}, patch.rest, key);
      } else {
        OtherKeys(base[name := Applied(Lookup(base, name), patch.value)], patch.rest, key);
      }
    }
  }

  /** A value merged into nothing stays as it is if and only if it has no null members. */
  lemma {:induction false} CopyMerged(v: Json)
    requires Proper(v)
    ensures Applied(VNull, v) == MeaningOf(v) <==> NoNulls(v)
    decreases v, 1
  {
    if v.Object? {
      CopyMergedAll(map[], v.members);
      assert map[] + Fields(v.members) == Fields(v.members);
    }
  }

  lemma {:induction false} CopyMergedAll(base: map<string, Meaning>, members: Members)
    requires Distinct(members) && ProperMembers(members) && base.Keys !! Names(members)
    ensures AppliedAll(base, members) == base + Fields(members) <==> NoNullMembers(members)
    decreases members, 0
  {
    hide Applied, MeaningOf;
    if members.NoMembers? {
      assert base + map[] == base;
    } else {
      var key, rest := Fold(members.name), members.rest;
      assert key in Fields(members) && (base + Fields(members))[key] == MeaningOf(members.value);
      if members.value.Null? {
        OtherKeys(base - {key}, rest, key);
        assert Get(AppliedAll(base, members), key) == None;
      } else {
        var merged := Applied(VNull, members.value);
        var next := base[key := merged];
        CopyMerged(members.value);
        OtherKeys(next, rest, key);
        assert Get(AppliedAll(base, members), key) == Some(merged);
        CopyMergedAll(next, rest);
        if merged == MeaningOf(members.value) {
          assert next + Fields(rest) == base + Fields(members);
        }
      }
    }
  }

  lemma {:induction false} AllProperIsProper(v: Json)
    requires AllProper(v)
    ensures Proper(v)
    decreases v, 1
  {
    if v.Object? {
      AllProperMembersAreProper(v.members);
    }
  }

  lemma {:induction false} AllProperMembersAreProper(members: Members)
    requires AllProperMembers(members)
    ensures ProperMembers(members)
    decreases members, 0
  {
    if members.Member? {
      AllProperIsProper(members.value);
      AllProperMembersAreProper(members.rest);
    }
  }

  // ----- the walk as a whole

  /** base has what from still has, and nothing that only to still has. */
  ghost predicate Pending(base: map<string, Meaning>, from: Members, to: Members) {
    && (forall key :: key in Names(from) ==> key in base && base[key] == Fields(from)[key])
    && (forall key :: key in Names(to) && key !in Names(from) ==> key !in base)
  }

  function Wanted(base: map<string, Meaning>, from: Members, to: Members): map<string, Meaning> {
    (base - Names(from)) + Fields(to)
  }

  lemma WantedWithout(base: map<string, Meaning>, from: Members, to: Members)
    requires from.Member? && Distinct(from) && Pending(base, from, to)
    ensures var next := base - {Fold(from.name)};
      Pending(next, from.rest, to) && Wanted(next, from.rest, to) == Wanted(base, from, to)
  {
    hide MeaningOf;
  }

  lemma WantedCopied(base: map<string, Meaning>, from: Members, to: Members, x: Meaning)
    requires to.Member? && Distinct(to) && Pending(base, from, to) && Fold(to.name) !in Names(from)
    ensures var next := base[Fold(to.name) := x];
      && Pending(next, from, to.rest)
      && (x == MeaningOf(to.value) ==> Wanted(next, from, to.rest) == Wanted(base, from, to))
  {
    hide MeaningOf;
  }

  lemma WantedMatched(base: map<string, Meaning>, from: Members, to: Members, x: Meaning)
    requires from.Member? && to.Member? && Distinct(from) && Distinct(to) && Fold(from.name) == Fold(to.name)
    requires Pending(base, from, to)
    ensures var next := base[Fold(to.name) := x];
      && Pending(next, from.rest, to.rest)
      && (x == MeaningOf(to.value) ==> Wanted(next, from.rest, to.rest) == Wanted(base, from, to))
  {
    hide MeaningOf;
  }

  lemma WantedAt(base: map<string, Meaning>, from: Members, to: Members)
    requires to.Member?
    ensures Get(Wanted(base, from, to), Fold(to.name)) == Some(MeaningOf(to.value))
  {
    hide MeaningOf;
  }

  /** The patch turns base into what is wanted if and only if the walk is safe. */
  lemma {:induction false} WalkApplies(base: map<string, Meaning>, from: Members, to: Members)
    requires Distinct(from) && Distinct(to) && AllProperMembers(from) && AllProperMembers(to)
    requires Pending(base, from, to)
    ensures AppliedAll(base, Walk(from, to)) == Wanted(base, from, to) <==> SafeWalk(from, to)
    decreases MembersSize(from), 2, MembersSize(to), 2
  {
    hide Compare, Generate, Applied, Safe, MeaningOf, Wanted, Pending;
    if from.Member? && to.Member? {
      LessTotal(from.name, to.name);
    }
    if from.NoMembers? && to.NoMembers? {
      WantedNothing(base, from, to);
    } else if to.NoMembers? || (from.Member? && Less(from.name, to.name)) {
      WantedWithout(base, from, to);
      WalkApplies(base - {Fold(from.name)}, from.rest, to);
    } else if from.NoMembers? || Less(to.name, from.name) {
      AddApplies(base, from, to);
    } else {
      MatchApplies(base, from, to);
    }
  }

  lemma WantedNothing(base: map<string, Meaning>, from: Members, to: Members)
    requires from.NoMembers? && to.NoMembers?
    ensures Wanted(base, from, to) == base
  {
  }

  /** A member of to is copied into the patch. */
  lemma {:induction false} AddApplies(base: map<string, Meaning>, from: Members, to: Members)
    requires Distinct(from) && Distinct(to) && AllProperMembers(from) && AllProperMembers(to)
    requires Pending(base, from, to) && to.Member?
    ensures AppliedAll(base, Member(to.name, to.value, Walk(from, to.rest))) == Wanted(base, from, to)
       <==> Fold(to.name) !in Names(from) && !to.value.Null? && NoNulls(to.value) && SafeWalk(from, to.rest)
    decreases MembersSize(from), 2, MembersSize(to), 1
  {
    hide Compare, Generate, Applied, Safe, MeaningOf, Walk, SafeWalk, Wanted;
    var key := Fold(to.name);
    var next := if to.value.Null? then base - {key} else base[key := Applied(Lookup(base, key), to.value)];
    assert AppliedAll(base, Member(to.name, to.value, Walk(from, to.rest))) == AppliedAll(next, Walk(from, to.rest));
    WantedAt(base, from, to);
    if key in Names(from) {
      Removed(from, to.rest, next, key);
      assert Get(AppliedAll(next, Walk(from, to.rest)), key) == None;
    } else {
      Untouched(from, to.rest, next, key);
      if !to.value.Null? {
        var x := Applied(VNull, to.value);
        assert Get(next, key) == Some(x);
        AllProperIsProper(to.value);
        CopyMerged(to.value);
        WantedCopied(base, from, to, x);
        WalkApplies(next, from, to.rest);
      }
    }
  }

  /** The two chains have the same name in front. */
  lemma {:induction false} MatchApplies(base: map<string, Meaning>, from: Members, to: Members)
    requires Distinct(from) && Distinct(to) && AllProperMembers(from) && AllProperMembers(to)
    requires Pending(base, from, to) && from.Member? && to.Member? && from.name == to.name
    ensures AppliedAll(base, Walk(from, to)) == Wanted(base, from, to) <==> SafeWalk(from, to)
    decreases MembersSize(from), 2, MembersSize(to), 1
  {
    hide Compare, Generate, Applied, Safe, MeaningOf, Wanted, Pending;
    var key := Fold(to.name);
    LessIrreflexive(to.name);
    CompareMeans(from.value, to.value);
    WantedAt(base, from, to);
    PendingAt(base, from, to);
    if Compare(from.value, to.value) == 0 {
      WantedMatched(base, from, to, MeaningOf(to.value));
      assert base[key := MeaningOf(to.value)] == base;
      WalkApplies(base, from.rest, to.rest);
    } else {
      GenerateNone(from.value, to.value);
      ChangeApplies(base, from, to);
    }
  }

  lemma PendingAt(base: map<string, Meaning>, from: Members, to: Members)
    requires Pending(base, from, to) && from.Member?
    ensures Fold(from.name) in base && base[Fold(from.name)] == MeaningOf(from.value)
  {
    hide MeaningOf;
    assert Fold(from.name) in Names(from);
  }

  /** The members in front have the same name and differ. */
  lemma {:induction false} ChangeApplies(base: map<string, Meaning>, from: Members, to: Members)
    requires Distinct(from) && Distinct(to) && AllProperMembers(from) && AllProperMembers(to)
    requires Pending(base, from, to) && from.Member? && to.Member? && from.name == to.name
    requires Compare(from.value, to.value) != 0 && Generate(from.value, to.value).Some?
    ensures AppliedAll(base, Member(to.name, Generate(from.value, to.value).value, Walk(from.rest, to.rest)))
            == Wanted(base, from, to)
       <==> !to.value.Null? && Safe(from.value, to.value) && SafeWalk(from.rest, to.rest)
    decreases MembersSize(from), 2, MembersSize(to), 0
  {
    hide Compare, Generate, Applied, Safe, MeaningOf, Walk, SafeWalk, Wanted, Pending;
    var key, patch := Fold(to.name), Generate(from.value, to.value).value;
    PendingAt(base, from, to);
    WantedAt(base, from, to);
    PatchNull(from.value, to.value);
    var next := if patch.Null? then base - {key} else base[key := Applied(Lookup(base, key), patch)];
    Untouched(from.rest, to.rest, next, key);
    if !patch.Null? {
      var x := Applied(MeaningOf(from.value), patch);
      assert Get(next, key) == Some(x);
      GenerateApplies(from.value, to.value);
      WantedMatched(base, from, to, x);
      WalkApplies(next, from.rest, to.rest);
    }
  }

  lemma PatchNull(from: Json, to: Json)
    requires Generate(from, to).Some?
    ensures Generate(from, to).value.Null? <==> to.Null?
  {
  }

  lemma {:induction false} WalkEmpty(from: Members, to: Members)
    requires Walk(from, to).NoMembers?
    ensures CompareMembers(from, to) == 0
    decreases MembersSize(from), 2, MembersSize(to)
  {
    hide Compare, Generate;
    if from.Member? && to.Member? {
      LessTotal(from.name, to.name);
      if Compare(from.value, to.value) != 0 {
        GenerateNone(from.value, to.value);
      }
      WalkEmpty(from.rest, to.rest);
    }
  }

  /** There is no patch only for values that compare equal. */
  lemma {:induction false} GenerateNone(from: Json, to: Json)
    ensures Generate(from, to).None? ==> from.Object? && to.Object? && Compare(from, to) == 0
    decreases Size(from), 1
  {
    if Generate(from, to).None? {
      SortSize(from.members);
      WalkEmpty(Sort(from.members), Sort(to.members));
    }
  }

  lemma WantedFrom(f: Members, t: Members)
    ensures Pending(Fields(f), f, t) && Wanted(Fields(f), f, t) == Fields(t)
  {
    hide MeaningOf;
  }

  /** The generated patch, applied to what from means, gives what to means if and only if
      the walk is safe. */
  lemma {:induction false} GenerateApplies(from: Json, to: Json)
    requires AllProper(from) && AllProper(to)
    ensures Generate(from, to).None? ==> MeaningOf(from) == MeaningOf(to) && Safe(from, to)
    ensures Generate(from, to).Some? ==>
      (Applied(MeaningOf(from), Generate(from, to).value) == MeaningOf(to) <==> Safe(from, to))
    decreases Size(from), 1
  {
    hide Compare, Walk, SafeWalk, Sort, Wanted, AllProperMembers, Distinct, CompareMembers;
    if from.Object? && to.Object? {
      var f, t := Sort(from.members), Sort(to.members);
      Arranged(from.members);
      Arranged(to.members);
      WantedFrom(f, t);
      WalkApplies(Fields(f), f, t);
      GenerateNone(from, to);
      if Generate(from, to).None? {
        CompareMeans(from, to);
      }
    } else {
      AllProperIsProper(to);
      CopyMerged(to);
    }
  }

  /** Diff then apply: the patch turns from into to, up to member order and letter case, if
      and only if the walk is safe. */
  lemma DiffApply(from: Json, to: Json)
    requires AllProper(from) && AllProper(to)
    ensures MeaningOf(Patched(from, to)) == MeaningOf(to) <==> Safe(from, to)
  {
    hide Generate, Safe, Applied, MergePatch;
    GenerateApplies(from, to);
    AllProperIsProper(from);
    var patch := Generate(from, to);
    if patch.Some? {
      MergePatchMeans(Some(from), patch.value);
    }
  }

  /** An upper-case name that strcmp puts before a lower-case one: the patch for the second
      value removes what it should keep. */
  lemma UpperCaseLost()
    ensures var from := Object(Member("a", Number(1.0), Member("B", Number(2.0), NoMembers)));
      var to := Object(Member("B", Number(2.0), NoMembers));
      AllProper(from) && AllProper(to) && NoNulls(to) && MeaningOf(Patched(from, to)) != MeaningOf(to)
  {
    var f, t := Member("a", Number(1.0), Member("B", Number(2.0), NoMembers)), Member("B", Number(2.0), NoMembers);
    assert Fold("a") == ['a'] && Fold("B") == ['b'];
    assert Fold("a")[0] != Fold("B")[0];
    assert Sorted(f) && Sorted(t) && Less("B", "a") && !Less("a", "B");
    assert Fold("B") in Names(f);
    assert !Safe(Object(f), Object(t));
    DiffApply(Object(f), Object(t));
  }
}
