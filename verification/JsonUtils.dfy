/**
 The loops of cJSONUtils_Compare, cJSONUtils_MergePatch and cJSONUtils_GenerateMergePatch in
 utility/cjson/cJSON_Utils.c, proved against the functions that the theorems are about.
 */
module JsonUtils {
  import opened JsonText
  import opened JsonMerge
  import opened JsonOrder
  import opened JsonDiff

  method RunMergePatch(target: Option<Json>, patch: Json) returns (r: Json)
    ensures r == MergePatch(target, patch)
    decreases patch
  {
    if !patch.Object? {
      return patch;
    }
    var members := if target.Some? && target.value.Object? then target.value.members else NoMembers;
    ghost var all := MergeMembers(members, patch.members);
    var current := patch.members;
    while current.Member?
      invariant MergeMembers(members, current) == all
      invariant current == patch.members || current < patch.members
      decreases current
    {
      var key := Fold(current.name);
      if current.value.Null? {
        members := Without(members, key);
      } else {
        var merged := RunMergePatch(Find(members, key), current.value);
        members := AppendMember(Without(members, key), current.name, merged);
      }
      current := current.rest;
    }
    return Object(members);
  }

  /** Do two items have the same type tag? */
  predicate SameKind(a: Json, b: Json) {
    match a
    case Null => b.Null?
    case False => b.False?
    case True => b.True?
    case Number(_) => b.Number?
    case String(_) => b.String?
    case Array(_) => b.Array?
    case Object(_) => b.Object?
  }

  method RunCompare(a: Json, b: Json) returns (err: int)
    ensures err == Compare(a, b)
    decreases Size(a), 1
  {
    hide Sort;
    if !SameKind(a, b) {
      return -1;
    }
    match a
    case Number(x) => err := if x != b.value then -2 else 0;
    case String(x) => err := if x != b.text then -3 else 0;
    case Array(items) => err := RunCompareItems(items, b.items);
    case Object(members) =>
      SortSize(members);
      err := RunCompareMembers(Sort(members), Sort(b.members));
    case _ => err := 0;
  }

  method RunCompareItems(a: Items, b: Items) returns (err: int)
    ensures err == CompareItems(a, b)
    decreases ItemsSize(a), 2
  {
    hide Compare;
    var x, y := a, b;
    while x.Item? && y.Item?
      invariant CompareItems(x, y) == CompareItems(a, b) && ItemsSize(x) <= ItemsSize(a)
      decreases x
    {
      err := RunCompare(x.head, y.head);
      if err != 0 {
        return;
      }
      x, y := x.tail, y.tail;
    }
    return if x.Item? || y.Item? then -4 else 0;
  }

  method RunCompareMembers(a: Members, b: Members) returns (err: int)
    ensures err == CompareMembers(a, b)
    decreases MembersSize(a), 2
  {
    hide Compare;
    var x, y := a, b;
    while x.Member? && y.Member?
      invariant CompareMembers(x, y) == CompareMembers(a, b) && MembersSize(x) <= MembersSize(a)
      decreases x
    {
      if Fold(x.name) != Fold(y.name) {
        return -6;
      }
      err := RunCompare(x.value, y.value);
      if err != 0 {
        return;
      }
      x, y := x.rest, y.rest;
    }
    return if x.Member? || y.Member? then -5 else 0;
  }

  method RunGenerate(from: Json, to: Json) returns (patch: Option<Json>)
    ensures patch == Generate(from, to)
    decreases Size(from)
  {
    hide Sort, Compare;
    if !to.Object? || !from.Object? {
      return Some(to);
    }
    var f, t := Sort(from.members), Sort(to.members);
    SortSize(from.members);
    ghost var all := Walk(f, t);
    var members := NoMembers;
    while f.Member? || t.Member?
      invariant JoinMembers(members, Walk(f, t)) == all && MembersSize(f) <= MembersSize(from.members)
      decreases MembersSize(f) + MembersSize(t)
    {
      if t.NoMembers? || (f.Member? && Less(f.name, t.name)) {
        JoinAppendedMember(members, f.name, Null, Walk(f.rest, t));
        members, f := AppendMember(members, f.name, Null), f.rest;
      } else if f.NoMembers? || Less(t.name, f.name) {
        JoinAppendedMember(members, t.name, t.value, Walk(f, t.rest));
        members, t := AppendMember(members, t.name, t.value), t.rest;
      } else {
        var err := RunCompare(f.value, t.value);
        if err != 0 {
          var inner := RunGenerate(f.value, t.value);
          if inner.Some? {
            JoinAppendedMember(members, t.name, inner.value, Walk(f.rest, t.rest));
            members := AppendMember(members, t.name, inner.value);
          }
        }
        f, t := f.rest, t.rest;
      }
    }
    JoinNoMembers(members);
    return if members.NoMembers? then None else Some(Object(members));
  }
}
