/**
 Merge patches of utility/cjson/cJSON_Utils.c against section 2 of RFC 7396.
 */
module JsonMerge {
  import opened JsonText

  // ----- names

  /** tolower. */
  function FoldChar(c: char): char {
    if 'A' <= c <= 'Z' then c - 'A' + 'a' else c
  }

  /** A name as case-insensitive comparison sees it. */
  function Fold(name: string): (f: string)
    ensures |f| == |name|
  {
    seq(|name|, i requires 0 <= i < |name| => FoldChar(name[i]))
  }

  function Names(members: Members): set<string> {
    if members.NoMembers? then {} else {Fold(members.name)} + Names(members.rest)
  }

  /** No two members of the chain have the same name up to case. */
  predicate Distinct(members: Members) {
    members.Member? ==> Fold(members.name) !in Names(members.rest) && Distinct(members.rest)
  }

  /** Distinct names in v and in the objects reached from it through objects. */
  predicate Proper(v: Json) {
    v.Object? ==> Distinct(v.members) && ProperMembers(v.members)
  }

  predicate ProperMembers(members: Members) {
    members.Member? ==> Proper(members.value) && ProperMembers(members.rest)
  }

  // ----- what a value means when member order and letter case do not count

  datatype Meaning =
    | VNull
    | VFalse
    | VTrue
    | VNumber(value: real)
    | VString(text: string)
    | VArray(items: seq<Meaning>)
    | VObject(fields: map<string, Meaning>)

  function MeaningOf(v: Json): Meaning {
    match v
    case Null => VNull
    case False => VFalse
    case True => VTrue
    case Number(x) => VNumber(x)
    case String(text) => VString(text)
    case Array(items) => VArray(ItemsMeaning(items))
    case Object(members) => VObject(Fields(members))
  }

  function ItemsMeaning(items: Items): seq<Meaning> {
    if items.NoItems? then [] else [MeaningOf(items.head)] + ItemsMeaning(items.tail)
  }

  /** The first member with a name counts. */
  function Fields(members: Members): (m: map<string, Meaning>)
    ensures m.Keys == Names(members)
  {
    if members.NoMembers? then map[] else Fields(members.rest)[Fold(members.name) := MeaningOf(members.value)]
  }

  // ----- operations on a member chain

  /** cJSON_GetObjectItem. */
  function Find(members: Members, key: string): Option<Json> {
    if members.NoMembers? then None
    else if Fold(members.name) == key then Some(members.value)
    else Find(members.rest, key)
  }

  /** The chain without the member that Find returns. */
  function Without(members: Members, key: string): Members {
    if members.NoMembers? then NoMembers
    else if Fold(members.name) == key then members.rest
    else Member(members.name, members.value, Without(members.rest, key))
  }

  lemma {:induction false} FindMeans(members: Members, key: string)
    ensures Find(members, key).None? <==> key !in Names(members)
    ensures key in Names(members) ==> MeaningOf(Find(members, key).value) == Fields(members)[key]
    ensures key in Names(members) && ProperMembers(members) ==> Proper(Find(members, key).value)
  {
    if members.Member? && Fold(members.name) != key {
      FindMeans(members.rest, key);
    }
  }

  lemma {:induction false} WithoutMeans(members: Members, key: string)
    requires Distinct(members)
    ensures Names(Without(members, key)) == Names(members) - {key}
    ensures Distinct(Without(members, key)) && Fields(Without(members, key)) == Fields(members) - {key}
    ensures ProperMembers(members) ==> ProperMembers(Without(members, key))
  {
    if members.Member? {
      if Fold(members.name) == key {
        assert Fields(members) - {key} == Fields(members.rest);
      } else {
        WithoutMeans(members.rest, key);
      }
    }
  }

  lemma {:induction false} AppendedMeans(members: Members, name: string, value: Json)
    requires Distinct(members) && Fold(name) !in Names(members)
    ensures Names(AppendMember(members, name, value)) == Names(members) + {Fold(name)}
    ensures Distinct(AppendMember(members, name, value))
    ensures Fields(AppendMember(members, name, value)) == Fields(members)[Fold(name) := MeaningOf(value)]
    ensures ProperMembers(members) && Proper(value) ==> ProperMembers(AppendMember(members, name, value))
  {
    hide MeaningOf, Fold, Proper;
    if members.Member? {
      AppendedMeans(members.rest, name, value);
      UpdatesCommute(Fields(members.rest), Fold(members.name), MeaningOf(members.value), Fold(name), MeaningOf(value));
      hide Fields;
    }
  }

  lemma UpdatesCommute(fields: map<string, Meaning>, a: string, x: Meaning, b: string, y: Meaning)
    requires a != b
    ensures fields[b := y][a := x] == fields[a := x][b := y]
  {
  }

  // ----- merging as the program does it

  /** cJSONUtils_MergePatch; no target is a NULL pointer. */
  function MergePatch(target: Option<Json>, patch: Json): Json
    decreases patch, 1
  {
    if !patch.Object? then patch
    else
      var base := if target.Some? && target.value.Object? then target.value.members else NoMembers;
      Object(MergeMembers(base, patch.members))
  }

  /** The loop over the members of the patch. */
  function MergeMembers(target: Members, patch: Members): Members
    decreases patch, 0
  {
    if patch.NoMembers? then target
    else
      var key := Fold(patch.name);
      if patch.value.Null? then MergeMembers(Without(target, key), patch.rest)
      else
        var merged := MergePatch(Find(target, key), patch.value);
        MergeMembers(AppendMember(Without(target, key), patch.name, merged), patch.rest)
  }

  // ----- merging one member after another, on meanings

  function FieldsOf(t: Meaning): map<string, Meaning> {
    if t.VObject? then t.fields else map[]
  }

  function Lookup(fields: map<string, Meaning>, key: string): Meaning {
    if key in fields then fields[key] else VNull
  }

  function Applied(t: Meaning, patch: Json): Meaning
    decreases patch, 1
  {
    if !patch.Object? then MeaningOf(patch) else VObject(AppliedAll(FieldsOf(t), patch.members))
  }

  function AppliedAll(fields: map<string, Meaning>, patch: Members): map<string, Meaning>
    decreases patch, 0
  {
    if patch.NoMembers? then fields
    else
      var key := Fold(patch.name);
      if patch.value.Null? then AppliedAll(fields - {key}, patch.rest)
      else AppliedAll(fields[key := Applied(Lookup(fields, key), patch.value)], patch.rest)
  }

  /** For every patch, repeated names included, the chains mean what the maps say, and the
      names of the result stay distinct. */
  lemma {:induction false} MergePatchMeans(target: Option<Json>, patch: Json)
    requires target.Some? ==> Proper(target.value)
    ensures Proper(MergePatch(target, patch))
    ensures MeaningOf(MergePatch(target, patch))
         == Applied(if target.Some? then MeaningOf(target.value) else VNull, patch)
    decreases patch, 1
  {
    if patch.Object? {
      var base := if target.Some? && target.value.Object? then target.value.members else NoMembers;
      MergeMembersMeans(base, patch.members);
    }
  }

  lemma {:induction false} MergeMembersMeans(target: Members, patch: Members)
    requires Distinct(target) && ProperMembers(target)
    ensures Distinct(MergeMembers(target, patch)) && ProperMembers(MergeMembers(target, patch))
    ensures Fields(MergeMembers(target, patch)) == AppliedAll(Fields(target), patch)
    decreases patch, 0
  {
    if patch.Member? {
      var key := Fold(patch.name);
      WithoutMeans(target, key);
      if patch.value.Null? {
        MergeMembersMeans(Without(target, key), patch.rest);
      } else {
        FindMeans(target, key);
        var merged := MergePatch(Find(target, key), patch.value);
        MergePatchMeans(Find(target, key), patch.value);
        AppendedMeans(Without(target, key), patch.name, merged);
        assert (Fields(target) - {key})[key := MeaningOf(merged)] == Fields(target)[key := MeaningOf(merged)];
        MergeMembersMeans(AppendMember(Without(target, key), patch.name, merged), patch.rest);
      }
    }
  }

  // ----- section 2 of RFC 7396

  /** The MergePatch function of the RFC, all members of the patch at once. */
  function Rfc7396(t: Meaning, patch: Meaning): Meaning
    decreases patch
  {
    if !patch.VObject? then patch
    else
      var base := FieldsOf(t);
      VObject(map key | key in base.Keys + patch.fields.Keys && !(key in patch.fields && patch.fields[key].VNull?)
              :: if key in patch.fields then Rfc7396(Lookup(base, key), patch.fields[key]) else base[key])
  }

  function Get(fields: map<string, Meaning>, key: string): Option<Meaning> {
    if key in fields then Some(fields[key]) else None
  }

  /** What the RFC makes of one key. */
  function Outcome(base: map<string, Meaning>, patch: map<string, Meaning>, key: string): Option<Meaning> {
    if key !in patch then Get(base, key)
    else if patch[key].VNull? then None
    else Some(Rfc7396(Lookup(base, key), patch[key]))
  }

  /** With distinct names the order of the members does not matter. */
  lemma {:induction false} AppliedAt(fields: map<string, Meaning>, patch: Members, key: string)
    requires Distinct(patch) && ProperMembers(patch)
    ensures Get(AppliedAll(fields, patch), key) == Outcome(fields, Fields(patch), key)
    decreases patch, 0
  {
    hide Rfc7396;
    if patch.Member? {
      var name := Fold(patch.name);
      if patch.value.Null? {
        AppliedAt(fields - {name}, patch.rest, key);
      } else {
        AppliedIsRfc(Lookup(fields, name), patch.value);
        AppliedAt(fields[name := Applied(Lookup(fields, name), patch.value)], patch.rest, key);
      }
    }
  }

  lemma {:induction false} AppliedIsRfc(t: Meaning, patch: Json)
    requires Proper(patch)
    ensures Applied(t, patch) == Rfc7396(t, MeaningOf(patch))
    decreases patch, 1
  {
    if patch.Object? {
      var base, result := FieldsOf(t), AppliedAll(FieldsOf(t), patch.members);
      var wanted := Rfc7396(t, MeaningOf(patch)).fields;
      forall key
        ensures Get(result, key) == Get(wanted, key)
      {
        AppliedAt(base, patch.members, key);
        assert Get(wanted, key) == Outcome(base, Fields(patch.members), key);
      }
      SameFields(result, wanted);
    }
  }

  lemma SameFields(a: map<string, Meaning>, b: map<string, Meaning>)
    requires forall key :: Get(a, key) == Get(b, key)
    ensures a == b
  {
    forall key
      ensures key in a <==> key in b
      ensures key in a ==> a[key] == b[key]
    {
      assert Get(a, key) == Get(b, key);
    }
  }

  /** cJSONUtils_MergePatch computes the function of the RFC, on names up to case. */
  lemma MergePatchIsRfc(target: Json, patch: Json)
    requires Proper(target) && Proper(patch)
    ensures MeaningOf(MergePatch(Some(target), patch)) == Rfc7396(MeaningOf(target), MeaningOf(patch))
  {
    hide Rfc7396, MergePatch, Applied;
    MergePatchMeans(Some(target), patch);
    AppliedIsRfc(MeaningOf(target), patch);
  }

  /** Applying a patch to its own result changes nothing. */
  lemma {:induction false} RfcTwice(t: Meaning, patch: Meaning)
    ensures Rfc7396(Rfc7396(t, patch), patch) == Rfc7396(t, patch)
    decreases patch
  {
    if patch.VObject? {
      var once := Rfc7396(t, patch).fields;
      var twice := Rfc7396(Rfc7396(t, patch), patch).fields;
      forall key
        ensures Get(twice, key) == Get(once, key)
      {
        if key in patch.fields && !patch.fields[key].VNull? {
          RfcTwice(Lookup(FieldsOf(t), key), patch.fields[key]);
        }
      }
      SameFields(twice, once);
    }
  }

  lemma MergePatchTwice(target: Json, patch: Json)
    requires Proper(target) && Proper(patch)
    ensures Proper(MergePatch(Some(target), patch))
    ensures MeaningOf(MergePatch(Some(MergePatch(Some(target), patch)), patch)) == MeaningOf(MergePatch(Some(target), patch))
  {
    hide Rfc7396, MergePatch, Applied;
    var once := MergePatch(Some(target), patch);
    MergePatchMeans(Some(target), patch);
    MergePatchIsRfc(target, patch);
    MergePatchIsRfc(once, patch);
    RfcTwice(MeaningOf(target), MeaningOf(patch));
  }
}
