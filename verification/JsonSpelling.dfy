/**
 Diff then apply with the spelling of names: when the patch that
 cJSONUtils_GenerateMergePatch of utility/cjson/cJSON_Utils.c builds gives the second value
 letter by letter, only the order of members aside.
 */
module JsonSpelling {
  import opened JsonText
  import opened JsonMerge
  import opened JsonOrder
  import opened JsonDiff

  // ----- what a value means when only member order does not count

  function ExactOf(v: Json): Meaning {
    match v
    case Null => VNull
    case False => VFalse
    case True => VTrue
    case Number(x) => VNumber(x)
    case String(text) => VString(text)
    case Array(items) => VArray(ExactItems(items))
    case Object(members) => VObject(ExactFields(members))
  }

  function ExactItems(items: Items): seq<Meaning> {
    if items.NoItems? then [] else [ExactOf(items.head)] + ExactItems(items.tail)
  }

  /** The first member with a name counts. */
  function ExactFields(members: Members): map<string, Meaning> {
    if members.NoMembers? then map[] else ExactFields(members.rest)[members.name := ExactOf(members.value)]
  }

  // ----- names on which the two orders of the program agree

  /** strcmp puts the names into the same order as the comparison without regard to case. */
  predicate OrdersAgree(names: set<string>) {
    forall a, b :: a in names && b in names ==> (Less(a, b) <==> Before(a, b))
  }

  /** Such names differ in more than letter case. */
  lemma SpelledOnce(names: set<string>, a: string, b: string)
    requires OrdersAgree(names) && a in names && b in names && Fold(a) == Fold(b)
    ensures a == b
  {
    LessTotal(a, b);
    LessIrreflexive(Fold(a));
  }

  /** The meaning up to case, spelled with the given names. */
  function Spelled(m: Meaning, names: set<string>): Meaning
    decreases m
  {
    match m
    case VArray(items) => VArray(seq(|items|, i requires 0 <= i < |items| => Spelled(items[i], names)))
    case VObject(fields) => VObject(
      map name | name in names && Fold(name) in fields :: name := Spelled(fields[Fold(name)], names))
    case _ => m
  }

  /** With names that differ in more than case, the meaning up to case and the names give the
      exact meaning. */
  lemma {:induction false} ExactIsSpelled(v: Json, names: set<string>)
    requires OrdersAgree(names) && AllNames(v) <= names
    ensures ExactOf(v) == Spelled(MeaningOf(v), names)
    decreases v, 1
  {
    match v
    case Array(items) => ExactItemsSpelled(items, names);
    case Object(members) => ExactFieldsSpelled(members, names);
    case _ =>
  }

  lemma {:induction false} ExactItemsSpelled(items: Items, names: set<string>)
    requires OrdersAgree(names) && ItemNames(items) <= names
    ensures VArray(ExactItems(items)) == Spelled(VArray(ItemsMeaning(items)), names)
    decreases items, 0
  {
    if items.Item? {
      hide OrdersAgree, MeaningOf, ExactOf, AllNames;
      ExactIsSpelled(items.head, names);
      ExactItemsSpelled(items.tail, names);
      SpelledItem(MeaningOf(items.head), ItemsMeaning(items.tail), names);
    }
  }

  lemma SpelledItem(head: Meaning, tail: seq<Meaning>, names: set<string>)
    ensures Spelled(VArray([head] + tail), names)
         == VArray([Spelled(head, names)] + Spelled(VArray(tail), names).items)
  {
    hide Fold;
    var all, rest := Spelled(VArray([head] + tail), names).items, Spelled(VArray(tail), names).items;
    assert |all| == 1 + |rest| && all[0] == Spelled(head, names);
    forall i | 0 <= i < |tail|
      ensures all[1 + i] == rest[i]
    {
      assert ([head] + tail)[1 + i] == tail[i];
    }
  }

  lemma {:induction false} ExactFieldsSpelled(members: Members, names: set<string>)
    requires OrdersAgree(names) && MemberNames(members) <= names
    ensures VObject(ExactFields(members)) == Spelled(VObject(Fields(members)), names)
    decreases members, 0
  {
    if members.Member? {
      ExactIsSpelled(members.value, names);
      ExactFieldsSpelled(members.rest, names);
      SpelledField(Fields(members.rest), members.name, MeaningOf(members.value), names);
    }
  }

  lemma SpelledField(fields: map<string, Meaning>, name: string, value: Meaning, names: set<string>)
    requires OrdersAgree(names) && name in names
    ensures Spelled(VObject(fields[Fold(name) := value]), names)
         == VObject(Spelled(VObject(fields), names).fields[name := Spelled(value, names)])
  {
    hide OrdersAgree, Fold;
    forall other | other in names && Fold(other) == Fold(name)
      ensures other == name
    {
      SpelledOnce(names, other, name);
    }
  }

  predicate HasSpelling(key: string, names: set<string>) {
    exists name :: name in names && Fold(name) == key
  }

  /** Every key of the meaning is one of the names up to case. */
  predicate Spellable(m: Meaning, names: set<string>)
    decreases m
  {
    match m
    case VArray(items) => forall i :: 0 <= i < |items| ==> Spellable(items[i], names)
    case VObject(fields) => forall key :: key in fields ==> HasSpelling(key, names) && Spellable(fields[key], names)
    case _ => true
  }

  lemma {:induction false} MeaningSpellable(v: Json, names: set<string>)
    requires AllNames(v) <= names
    ensures Spellable(MeaningOf(v), names)
    decreases v, 1
  {
    match v
    case Array(items) => ItemsSpellable(items, names);
    case Object(members) => FieldsSpellable(members, names);
    case _ =>
  }

  lemma {:induction false} ItemsSpellable(items: Items, names: set<string>)
    requires ItemNames(items) <= names
    ensures forall i :: 0 <= i < |ItemsMeaning(items)| ==> Spellable(ItemsMeaning(items)[i], names)
    decreases items, 0
  {
    if items.Item? {
      MeaningSpellable(items.head, names);
      ItemsSpellable(items.tail, names);
    }
  }

  lemma {:induction false} FieldsSpellable(members: Members, names: set<string>)
    requires MemberNames(members) <= names
    ensures forall key :: key in Fields(members) ==> HasSpelling(key, names) && Spellable(Fields(members)[key], names)
    decreases members, 0
  {
    if members.Member? {
      MeaningSpellable(members.value, names);
      FieldsSpellable(members.rest, names);
      assert members.name in names && HasSpelling(Fold(members.name), names);
    }
  }

  /** Spelling a meaning out loses nothing. */
  lemma {:induction false} SpelledInjective(m: Meaning, n: Meaning, names: set<string>)
    requires Spellable(m, names) && Spellable(n, names) && Spelled(m, names) == Spelled(n, names)
    ensures m == n
    decreases m
  {
    match (m, n)
    case (VArray(x), VArray(y)) =>
      forall i | 0 <= i < |x|
        ensures x[i] == y[i]
      {
        assert Spelled(m, names).items[i] == Spelled(x[i], names) && Spelled(n, names).items[i] == Spelled(y[i], names);
        SpelledInjective(x[i], y[i], names);
      }
    case (VObject(x), VObject(y)) =>
      forall key
        ensures key in x <==> key in y
        ensures key in x ==> x[key] == y[key]
      {
        if key in x || key in y {
          var name :| name in names && Fold(name) == key;
          assert name in Spelled(m, names).fields <==> key in x;
          assert name in Spelled(n, names).fields <==> key in y;
          SpelledInjective(x[key], y[key], names);
        }
      }
    case _ =>
  }

  /** Among such names, values mean the same exactly if and only if they do up to case. */
  lemma SameSpelling(v: Json, w: Json, names: set<string>)
    requires OrdersAgree(names) && AllNames(v) <= names && AllNames(w) <= names
    ensures ExactOf(v) == ExactOf(w) <==> MeaningOf(v) == MeaningOf(w)
  {
    hide OrdersAgree, Spelled, Spellable, ExactOf, MeaningOf, AllNames;
    ExactIsSpelled(v, names);
    ExactIsSpelled(w, names);
    MeaningSpellable(v, names);
    MeaningSpellable(w, names);
    if ExactOf(v) == ExactOf(w) {
      SpelledInjective(MeaningOf(v), MeaningOf(w), names);
    }
  }

  // ----- no operation makes up a name

  lemma {:induction false} FindNames(members: Members, key: string)
    ensures Find(members, key).Some? ==> AllNames(Find(members, key).value) <= MemberNames(members)
    ensures MemberNames(Without(members, key)) <= MemberNames(members)
  {
    if members.Member? {
      FindNames(members.rest, key);
    }
  }

  lemma {:induction false} AppendNames(members: Members, name: string, value: Json)
    ensures MemberNames(AppendMember(members, name, value)) == MemberNames(members) + {name} + AllNames(value)
  {
    if members.Member? {
      AppendNames(members.rest, name, value);
    }
  }

  lemma {:induction false} MergeNames(target: Option<Json>, patch: Json)
    ensures AllNames(MergePatch(target, patch)) <= (if target.Some? then AllNames(target.value) else {}) + AllNames(patch)
    decreases patch, 1
  {
    if patch.Object? {
      MergeMembersNames(if target.Some? && target.value.Object? then target.value.members else NoMembers, patch.members);
    }
  }

  lemma {:induction false} MergeMembersNames(target: Members, patch: Members)
    ensures MemberNames(MergeMembers(target, patch)) <= MemberNames(target) + MemberNames(patch)
    decreases patch, 0
  {
    if patch.Member? {
      hide AllNames;
      var key := Fold(patch.name);
      FindNames(target, key);
      if patch.value.Null? {
        MergeMembersNames(Without(target, key), patch.rest);
      } else {
        var merged := MergePatch(Find(target, key), patch.value);
        MergeNames(Find(target, key), patch.value);
        AppendNames(Without(target, key), patch.name, merged);
        MergeMembersNames(AppendMember(Without(target, key), patch.name, merged), patch.rest);
      }
    }
  }

  lemma SortNames(members: Members)
    ensures MemberNames(Sort(members)) == MemberNames(members)
  {
    hide Same, Sort;
    SortKeeps(members);
    SameFacts(Sort(members), members);
  }

  lemma {:induction false} GenerateNames(from: Json, to: Json)
    ensures Generate(from, to).Some? ==> AllNames(Generate(from, to).value) <= AllNames(from) + AllNames(to)
    decreases Size(from), 1
  {
    hide Sort, Walk;
    if from.Object? && to.Object? {
      SortSize(from.members);
      SortNames(from.members);
      SortNames(to.members);
      WalkNames(Sort(from.members), Sort(to.members));
    }
  }

  lemma {:induction false} WalkNames(from: Members, to: Members)
    ensures MemberNames(Walk(from, to)) <= MemberNames(from) + MemberNames(to)
    decreases MembersSize(from), 2, MembersSize(to)
  {
    hide Compare, Generate;
    if from.NoMembers? && to.NoMembers? {
    } else if to.NoMembers? || (from.Member? && Less(from.name, to.name)) {
      WalkNames(from.rest, to);
    } else if from.NoMembers? || Less(to.name, from.name) {
      WalkNames(from, to.rest);
    } else {
      GenerateNames(from.value, to.value);
      WalkNames(from.rest, to.rest);
    }
  }

  /** Every name in the patched value is one of the two values'. */
  lemma PatchedNames(from: Json, to: Json)
    ensures AllNames(Patched(from, to)) <= AllNames(from) + AllNames(to)
  {
    hide Generate, MergePatch, AllNames;
    GenerateNames(from, to);
    if Generate(from, to).Some? {
      MergeNames(Some(from), Generate(from, to).value);
    }
  }

  // ----- where the orders agree the walk is safe

  lemma {:induction false} AgreeSafe(from: Json, to: Json, names: set<string>)
    requires AllProper(from) && AllProper(to) && NoNulls(to)
    requires OrdersAgree(names) && AllNames(from) <= names && AllNames(to) <= names
    ensures Safe(from, to)
    decreases Size(from), 1
  {
    hide SafeWalk, Sort, OrdersAgree;
    if from.Object? && to.Object? {
      Arranged(from.members);
      Arranged(to.members);
      AgreeSafeWalk(Sort(from.members), Sort(to.members), names);
    }
  }

  lemma {:induction false} AgreeSafeWalk(from: Members, to: Members, names: set<string>)
    requires Sorted(from) && Sorted(to) && AllProperMembers(from) && AllProperMembers(to) && NoNullMembers(to)
    requires OrdersAgree(names) && MemberNames(from) <= names && MemberNames(to) <= names
    ensures SafeWalk(from, to)
    decreases MembersSize(from), 2, MembersSize(to)
  {
    hide Compare, Safe;
    if from.Member? && to.Member? {
      LessTotal(from.name, to.name);
      assert from.name in names && to.name in names;
    }
    if from.NoMembers? && to.NoMembers? {
    } else if to.NoMembers? || (from.Member? && Less(from.name, to.name)) {
      AgreeSafeWalk(from.rest, to, names);
    } else if from.NoMembers? || Less(to.name, from.name) {
      if from.Member? {
        SortedAbove(from, Fold(to.name));
      }
      AgreeSafeWalk(from, to.rest, names);
    } else {
      AgreeSafe(from.value, to.value, names);
      AgreeSafeWalk(from.rest, to.rest, names);
    }
  }

  lemma {:induction false} WalkNothing(from: Members, to: Members, names: set<string>)
    requires Distinct(from) && Distinct(to) && Sorted(from) && Sorted(to)
    requires AllProperMembers(from) && AllProperMembers(to) && Fields(from) == Fields(to)
    requires OrdersAgree(names) && MemberNames(from) <= names && MemberNames(to) <= names
    ensures Walk(from, to).NoMembers?
    decreases from
  {
    hide Compare, MeaningOf, Generate, OrdersAgree;
    assert Names(from) == Names(to);
    if from.Member? && to.Member? {
      if Fold(from.name) != Fold(to.name) {
        NamesDiffer(from, to);
      }
      SpelledOnce(names, from.name, to.name);
      LessIrreflexive(from.name);
      FieldsEqual(Fold(from.name), MeaningOf(from.value), Fields(from.rest), MeaningOf(to.value), Fields(to.rest));
      CompareMeans(from.value, to.value);
      WalkNothing(from.rest, to.rest, names);
    } else {
      NamesOfNone(from);
      NamesOfNone(to);
    }
  }

  lemma NamesOfNone(members: Members)
    ensures members.Member? ==> Fold(members.name) in Names(members)
  {
  }

  lemma NoneExactly(from: Json, to: Json, names: set<string>)
    requires AllProper(from) && AllProper(to)
    requires OrdersAgree(names) && AllNames(from) <= names && AllNames(to) <= names
    ensures Generate(from, to).None? <==> from.Object? && to.Object? && MeaningOf(from) == MeaningOf(to)
  {
    hide Walk, Sort, Compare, OrdersAgree;
    GenerateNone(from, to);
    if from.Object? && to.Object? {
      Arranged(from.members);
      Arranged(to.members);
      if Generate(from, to).None? {
        CompareMeans(from, to);
      } else if MeaningOf(from) == MeaningOf(to) {
        WalkNothing(Sort(from.members), Sort(to.members), names);
      }
    }
  }

  /** Diff then apply.  If strcmp and the comparison without regard to case put all the names
      of the two values into the same order, the patch gives the second value up to member
      order whenever that has no null members, and there is no patch exactly for objects
      that are equal up to member order. */
  lemma DiffApplyExact(from: Json, to: Json)
    requires AllProper(from) && AllProper(to) && OrdersAgree(AllNames(from) + AllNames(to))
    ensures NoNulls(to) ==> ExactOf(Patched(from, to)) == ExactOf(to)
    ensures Generate(from, to).None? <==> from.Object? && to.Object? && ExactOf(from) == ExactOf(to)
  {
    hide Generate, Safe, Patched, OrdersAgree, ExactOf, MeaningOf, AllProper, AllNames;
    var names := AllNames(from) + AllNames(to);
    if NoNulls(to) {
      AgreeSafe(from, to, names);
      DiffApply(from, to);
      PatchedNames(from, to);
      SameSpelling(Patched(from, to), to, names);
    }
    NoneExactly(from, to, names);
    SameSpelling(from, to, names);
  }

  /** No name anywhere in the value, in arrays too, has an upper-case letter. */
  predicate AllLower(v: Json) {
    forall name :: name in AllNames(v) ==> LowerName(name)
  }

  predicate LowerName(name: string) {
    forall i :: 0 <= i < |name| ==> !('A' <= name[i] <= 'Z')
  }

  lemma LowerFolds(name: string)
    ensures LowerName(name) <==> Fold(name) == name
  {
    if Fold(name) == name {
      assert forall i :: 0 <= i < |name| ==> name[i] == Fold(name)[i];
    }
  }

  /** Names without upper-case letters: the patch always works, nothing in it or in its
      result gets an upper-case letter, and there is none exactly for equal objects. */
  lemma DiffApplyLower(from: Json, to: Json)
    requires AllProper(from) && AllProper(to) && AllLower(from) && AllLower(to)
    ensures NoNulls(to) ==> ExactOf(Patched(from, to)) == ExactOf(to)
    ensures Generate(from, to).None? <==> from.Object? && to.Object? && ExactOf(from) == ExactOf(to)
    ensures AllLower(Patched(from, to))
  {
    hide Patched, AllNames, ExactOf, Fold, Generate, AllProper;
    forall name | name in AllNames(from) + AllNames(to)
      ensures Fold(name) == name
    {
      LowerFolds(name);
    }
    DiffApplyExact(from, to);
    PatchedNames(from, to);
  }

  /** The orders can agree on names with upper-case letters too. */
  lemma CapitalsAgree()
    ensures OrdersAgree({"Id", "name"}) && !OrdersAgree({"a", "B"})
  {
    assert Fold("Id") == "id" && Fold("name") == "name" && Fold("a") == "a" && Fold("B") == "b";
    assert Less("B", "a") && !Before("B", "a");
  }
}
