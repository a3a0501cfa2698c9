/** Edges from a library function's primary result to an action parameter:
    `non_null_schema` and `primary_output_matches` of `framework/component_matching.py`. */
module PrimaryEdges {
  import opened Options
  import opened JsonSchema
  import opened ComponentMatching
  import Sorting

  // ------------------------------------------------------------- non_null_schema

  function NonNullNames(names: seq<string>): seq<string> {
    if names == [] then []
    else (if names[0] == "null" then [] else [names[0]]) + NonNullNames(names[1..])
  }

  function NonNullMembers(members: seq<Schema>): seq<Schema> {
    if members == [] then []
    else (if members[0].types == OneType("null") then [] else [members[0]]) + NonNullMembers(members[1..])
  }

  /** `{**siblings, **member}`: every keyword of the member replaces the sibling's. */
  function Merge(siblings: Schema, member: Schema): Schema {
    Schema(
      if member.types.NoType? then siblings.types else member.types,
      if member.format.Some? then member.format else siblings.format,
      if member.values.Some? then member.values else siblings.values,
      if member.constant.Some? then member.constant else siblings.constant,
      if member.prefix.NoPrefix? then siblings.prefix else member.prefix,
      if member.items.NoItems? then siblings.items else member.items,
      if member.properties.NoProperties? then siblings.properties else member.properties,
      if member.required.Some? then member.required else siblings.required,
      if member.additional.NoAdditional? then siblings.additional else member.additional,
      if member.anyOf.NoUnion? then siblings.anyOf else member.anyOf,
      if member.oneOf.NoUnion? then siblings.oneOf else member.oneOf,
      if member.minLength.Some? then member.minLength else siblings.minLength,
      siblings.annotations + member.annotations,
      siblings.foreign + member.foreign)
  }

  function DropNullType(s: Schema): Schema {
    if s.types.ManyTypes? && |NonNullNames(s.types.names)| == 1
    then s.(types := OneType(NonNullNames(s.types.names)[0]))
    else s
  }

  function UnwrapAnyOf(s: Schema): Schema {
    if s.anyOf.Members? && |NonNullMembers(s.anyOf.members)| == 1
    then Merge(s.(anyOf := NoUnion), NonNullMembers(s.anyOf.members)[0])
    else s
  }

  function UnwrapOneOf(s: Schema): Schema {
    if s.oneOf.Members? && |NonNullMembers(s.oneOf.members)| == 1
    then Merge(s.(oneOf := NoUnion), NonNullMembers(s.oneOf.members)[0])
    else s
  }

  function Unwrapped(s: Schema): Schema {
    UnwrapOneOf(UnwrapAnyOf(DropNullType(s)))
  }

  function NonNullSchema(lit: Literal, s: Schema): Schema {
    Unwrapped(Normalized(lit, s))
  }

  predicate SemanticUnion(k: UnionKeyword)
    decreases k
  {
    k.Members? && exists i :: 0 <= i < |k.members| && Semantic(k.members[i])
  }

  /** `_semantic`: whether a schema says enough to suggest an edge. */
  predicate Semantic(s: Schema)
    decreases s
  {
    if s.format.Some? || s.values.Some? || s.constant.Some? then true
    else if s.types == OneType("array") then s.items.Items? && Semantic(s.items.schema)
    else if s.types == OneType("object") then
      s.properties.Properties?
      && exists name :: name in s.properties.schemas && name in RequiredNames(s) && Semantic(s.properties.schemas[name])
    else SemanticUnion(s.anyOf) || SemanticUnion(s.oneOf)
  }

  predicate PrimaryOutputMatches(lit: Literal, output: Schema, value: string, parameter: Schema) {
    var result := NonNullSchema(lit, output);
    && result.types == OneType("object")
    && value in RequiredNames(result)
    && value in PropertyMap(result)
    && Supported(PropertyMap(result)[value])
    && Supported(parameter)
    && Semantic(Normalized(lit, parameter))
    && Compatible(lit, PropertyMap(result)[value], Normalized(lit, parameter))
  }

  // ------------------------------------ unwrapping and normalizing change places

  lemma {:induction false} NonNullNamesCount(names: seq<string>, x: string)
    ensures multiset(NonNullNames(names))[x] == if x == "null" then 0 else multiset(names)[x]
  {
    if names != [] {
      NonNullNamesCount(names[1..], x);
      assert names == [names[0]] + names[1..];
    }
  }

  lemma SortingKeepsNonNullNames(names: seq<string>)
    ensures var sorted := Sorting.Sort(names, Sorting.StringLe);
            multiset(NonNullNames(sorted)) == multiset(NonNullNames(names))
  {
    var sorted := Sorting.Sort(names, Sorting.StringLe);
    forall x ensures multiset(NonNullNames(sorted))[x] == multiset(NonNullNames(names))[x] {
      NonNullNamesCount(sorted, x);
      NonNullNamesCount(names, x);
    }
  }

  lemma SameSingleton<T>(a: seq<T>, b: seq<T>)
    requires multiset(a) == multiset(b)
    ensures |a| == |b| && (|a| == 1 ==> a[0] == b[0])
  {
    assert |multiset(a)| == |multiset(b)|;
    if |a| == 1 {
      assert a[0] in multiset(b);
    }
  }

  lemma DropNullTypeCommutes(lit: Literal, s: Schema)
    ensures Normalized(lit, DropNullType(s)) == DropNullType(Normalized(lit, s))
  {
    if s.types.ManyTypes? {
      SortingKeepsNonNullNames(s.types.names);
      SameSingleton(NonNullNames(Sorting.Sort(s.types.names, Sorting.StringLe)), NonNullNames(s.types.names));
    }
    NormalizedParts(lit, s);
    NormalizedParts(lit, DropNullType(s));
  }

  lemma {:induction false} NonNullMembersCommute(lit: Literal, k: UnionKeyword)
    requires k.Members?
    ensures NormalizedUnion(lit, Members(NonNullMembers(k.members)))
            == Members(NonNullMembers(NormalizedUnion(lit, k).members))
    decreases |k.members|
  {
    hide Normalized, NormalizedUnion;
    if k.members == [] {
      NormalizedNoMembers(lit);
    } else {
      var first, rest := k.members[0], k.members[1..];
      NonNullMembersCommute(lit, Members(rest));
      NormalizedFirstMember(lit, first, rest);
      assert k == Members([first] + rest);
      NormalizedFirstMember(lit, first, NonNullMembers(rest));
      NormalizedKeepsOneType(lit, first, "null");
      var n := NormalizedUnion(lit, Members(rest)).members;
      NonNullStep(first, rest);
      NonNullStep(Normalized(lit, first), n);
    }
  }

  lemma NonNullStep(first: Schema, rest: seq<Schema>)
    ensures NonNullMembers([first] + rest)
            == if first.types == OneType("null") then NonNullMembers(rest) else [first] + NonNullMembers(rest)
  {
    assert ([first] + rest)[1..] == rest;
  }

  lemma NormalizedNoMembers(lit: Literal)
    ensures NormalizedUnion(lit, Members([])) == Members([])
  {
  }

  lemma NormalizedFirstMember(lit: Literal, first: Schema, rest: seq<Schema>)
    ensures NormalizedUnion(lit, Members(rest)).Members? && NormalizedUnion(lit, Members([first] + rest)).Members?
    ensures NormalizedUnion(lit, Members([first] + rest)).members
            == [Normalized(lit, first)] + NormalizedUnion(lit, Members(rest)).members
  {
    hide Normalized;
  }

  lemma MergeCommutes(lit: Literal, a: Schema, b: Schema)
    ensures Normalized(lit, Merge(a, b)) == Merge(Normalized(lit, a), Normalized(lit, b))
  {
    NormalizedParts(lit, a);
    NormalizedParts(lit, b);
    NormalizedParts(lit, Merge(a, b));
  }

  lemma UnwrapAnyOfCommutes(lit: Literal, s: Schema)
    ensures Normalized(lit, UnwrapAnyOf(s)) == UnwrapAnyOf(Normalized(lit, s))
  {
    NormalizedParts(lit, s);
    if s.anyOf.Members? {
      NonNullMembersCommute(lit, s.anyOf);
      var kept := NonNullMembers(s.anyOf.members);
      if |kept| == 1 {
        var siblings := s.(anyOf := NoUnion);
        MergeCommutes(lit, siblings, kept[0]);
        NormalizedParts(lit, siblings);
        assert Normalized(lit, siblings) == Normalized(lit, s).(anyOf := NoUnion);
        assert NormalizedUnion(lit, Members(kept)).members[0] == Normalized(lit, kept[0]);
      }
    }
  }

  lemma UnwrapOneOfCommutes(lit: Literal, s: Schema)
    ensures Normalized(lit, UnwrapOneOf(s)) == UnwrapOneOf(Normalized(lit, s))
  {
    NormalizedParts(lit, s);
    if s.oneOf.Members? {
      NonNullMembersCommute(lit, s.oneOf);
      var kept := NonNullMembers(s.oneOf.members);
      if |kept| == 1 {
        var siblings := s.(oneOf := NoUnion);
        MergeCommutes(lit, siblings, kept[0]);
        NormalizedParts(lit, siblings);
        assert Normalized(lit, siblings) == Normalized(lit, s).(oneOf := NoUnion);
        assert NormalizedUnion(lit, Members(kept)).members[0] == Normalized(lit, kept[0]);
      }
    }
  }

  lemma UnwrappedCommutes(lit: Literal, s: Schema)
    ensures NonNullSchema(lit, s) == Normalized(lit, Unwrapped(s))
  {
    DropNullTypeCommutes(lit, s);
    UnwrapAnyOfCommutes(lit, DropNullType(s));
    UnwrapOneOfCommutes(lit, UnwrapAnyOf(DropNullType(s)));
  }

  // --------------------------------------------- what unwrapping keeps of a value

  /** The keywords whose verdict does not depend on a neighbouring keyword. */
  ghost predicate IndependentKeywordsHold(m: Meaning, s: Schema, v: Json) {
    && ScalarKeywordsHold(m, s, v)
    && PropertiesHold(m, s.properties, v)
    && AnyOfHolds(m, s.anyOf, v)
    && OneOfHolds(m, s.oneOf, v)
    && (s.prefix.NoPrefix? ==> ItemsHold(m, s.items, 0, v))
  }

  lemma {:induction false} NonNullMemberIsKept(members: seq<Schema>, i: nat)
    requires i < |members| && members[i].types != OneType("null")
    ensures members[i] in NonNullMembers(members)
  {
    if i > 0 {
      NonNullMemberIsKept(members[1..], i - 1);
    }
  }

  lemma NullTypeRefuses(m: Meaning, s: Schema, v: Json)
    requires Valid(m, s, v) && v != JNull
    ensures s.types != OneType("null")
  {
  }

  /** A non-null value accepted by some member is accepted by the only member that is not null. */
  lemma OnlyMemberAccepts(m: Meaning, k: UnionKeyword, v: Json)
    requires k.Members? && |NonNullMembers(k.members)| == 1
    requires true in Verdicts(m, k, v) && v != JNull
    ensures Valid(m, NonNullMembers(k.members)[0], v)
  {
    hide Valid, NonNullMembers;
    var i :| 0 <= i < |k.members| && Verdicts(m, k, v)[i];
    assert Valid(m, k.members[i], v);
    NullTypeRefuses(m, k.members[i], v);
    NonNullMemberIsKept(k.members, i);
  }

  lemma {:induction false} NonNullTypeIsKept(names: seq<string>, v: Json)
    requires v != JNull && TypeHolds(ManyTypes(names), v)
    ensures exists i :: 0 <= i < |NonNullNames(names)| && HasType(v, NonNullNames(names)[i])
  {
    var kept := NonNullNames(names);
    if !HasType(v, names[0]) {
      var i :| 0 <= i < |names| && HasType(v, names[i]);
      assert names[i] == names[1..][i - 1];
      NonNullTypeIsKept(names[1..], v);
      var j :| 0 <= j < |NonNullNames(names[1..])| && HasType(v, NonNullNames(names[1..])[j]);
      assert kept[if names[0] == "null" then j else j + 1] == NonNullNames(names[1..])[j];
    } else {
      assert kept[0] == names[0];
    }
  }

  lemma DropNullTypeKeepsIndependent(m: Meaning, s: Schema, v: Json)
    requires IndependentKeywordsHold(m, s, v) && v != JNull
    ensures IndependentKeywordsHold(m, DropNullType(s), v)
  {
    if s.types.ManyTypes? {
      NonNullTypeIsKept(s.types.names, v);
    }
  }

  lemma UnwrapAnyOfKeepsIndependent(m: Meaning, s: Schema, v: Json)
    requires IndependentKeywordsHold(m, s, v) && v != JNull
    ensures IndependentKeywordsHold(m, UnwrapAnyOf(s), v)
  {
    hide NonNullMembers;
    if s.anyOf.Members? && |NonNullMembers(s.anyOf.members)| == 1 {
      OnlyMemberAccepts(m, s.anyOf, v);
    }
  }

  lemma UnwrapOneOfKeepsIndependent(m: Meaning, s: Schema, v: Json)
    requires IndependentKeywordsHold(m, s, v) && v != JNull
    ensures IndependentKeywordsHold(m, UnwrapOneOf(s), v)
  {
    hide NonNullMembers;
    if s.oneOf.Members? && |NonNullMembers(s.oneOf.members)| == 1 {
      assert true in Verdicts(m, s.oneOf, v);
      OnlyMemberAccepts(m, s.oneOf, v);
    }
  }

  lemma UnwrappedKeepsIndependent(m: Meaning, s: Schema, v: Json)
    requires IndependentKeywordsHold(m, s, v) && v != JNull
    ensures IndependentKeywordsHold(m, Unwrapped(s), v)
  {
    DropNullTypeKeepsIndependent(m, s, v);
    UnwrapAnyOfKeepsIndependent(m, DropNullType(s), v);
    UnwrapOneOfKeepsIndependent(m, UnwrapAnyOf(DropNullType(s)), v);
  }

  /** The promise of an inferred edge: a function result that is not null carries the primary
      field, and the field is an acceptable parameter. */
  lemma PrimaryEdgeIsSound(m: Meaning, lit: Literal, output: Schema, value: string, parameter: Schema, v: Json)
    requires Injective(lit)
    requires PrimaryOutputMatches(lit, output, value, parameter)
    requires Valid(m, output, v) && v != JNull
    ensures v.JObject? && value in v.fields && Valid(m, parameter, v.fields[value])
  {
    hide Unwrapped, Compatible, Normalized, Supported;
    var raw := Unwrapped(output);
    UnwrappedKeepsIndependent(m, output, v);
    UnwrappedCommutes(lit, output);
    NormalizedKeepsPropertyNames(lit, raw);
    NormalizedKeepsRequired(lit, raw, value);
    NormalizedKeepsOneType(lit, raw, "object");
    assert v.JObject? && value in v.fields;
    PrimaryFieldFits(m, lit, PropertyMap(raw)[value], parameter, v.fields[value]);
  }

  lemma NormalizedKeepsOneType(lit: Literal, s: Schema, name: string)
    ensures Normalized(lit, s).types == OneType(name) <==> s.types == OneType(name)
  {
  }

  lemma PrimaryFieldFits(m: Meaning, lit: Literal, declared: Schema, parameter: Schema, v: Json)
    requires Injective(lit) && Supported(Normalized(lit, declared)) && Supported(parameter)
    requires Compatible(lit, Normalized(lit, declared), Normalized(lit, parameter)) && Valid(m, declared, v)
    ensures Valid(m, parameter, v)
  {
    hide Compatible, Valid, Normalized, Plain;
    SupportedIsPlain(lit, declared);
    NormalizedKeepsMeaning(m, lit, declared, v);
    CompatibleIsSound(m, lit, Normalized(lit, declared), Normalized(lit, parameter), v);
    SupportedParameterIsPlain(parameter);
    NormalizedKeepsMeaning(m, lit, parameter, v);
  }

  lemma {:induction false} SupportedParameterIsPlain(s: Schema)
    requires Supported(s)
    ensures Plain(s)
    decreases s
  {
    if s.properties.Properties? {
      forall name | name in s.properties.schemas ensures Plain(s.properties.schemas[name]) {
        SupportedParameterIsPlain(s.properties.schemas[name]);
      }
    }
    if s.items.Items? {
      SupportedParameterIsPlain(s.items.schema);
    }
    SupportedUnionMembersArePlain(s.anyOf);
    SupportedUnionMembersArePlain(s.oneOf);
  }

  lemma {:induction false} SupportedUnionMembersArePlain(k: UnionKeyword)
    requires SupportedUnion(k)
    ensures PlainUnion(k)
    decreases k
  {
    if k.Members? {
      forall i | 0 <= i < |k.members| ensures Plain(k.members[i]) {
        SupportedParameterIsPlain(k.members[i]);
      }
    }
  }

  // ------------------------------------------------- whole validity and its limit

  lemma {:induction false} KeptMemberIsPlain(k: UnionKeyword, i: nat)
    requires k.Members? && PlainUnion(k) && i < |NonNullMembers(k.members)|
    ensures Plain(NonNullMembers(k.members)[i])
    decreases |k.members|
  {
    var tail := Members(k.members[1..]);
    assert forall j :: 0 <= j < |tail.members| ==> tail.members[j] == k.members[j + 1];
    assert PlainUnion(tail);
    if k.members[0].types == OneType("null") {
      KeptMemberIsPlain(tail, i);
    } else if i > 0 {
      KeptMemberIsPlain(tail, i - 1);
    }
  }

  lemma UnwrapAnyOfKeepsPlain(s: Schema)
    requires Plain(s)
    ensures Plain(UnwrapAnyOf(s))
  {
    if s.anyOf.Members? && |NonNullMembers(s.anyOf.members)| == 1 {
      KeptMemberIsPlain(s.anyOf, 0);
    }
  }

  lemma UnwrapOneOfKeepsPlain(s: Schema)
    requires Plain(s)
    ensures Plain(UnwrapOneOf(s))
  {
    if s.oneOf.Members? && |NonNullMembers(s.oneOf.members)| == 1 {
      KeptMemberIsPlain(s.oneOf, 0);
    }
  }

  /** The merge leaves `additionalProperties` over the names it was written for: the member
      does not bring `properties` that forget a sibling's name under the sibling's rule. */
  predicate MergeIsClean(siblings: Schema, member: Schema) {
    || siblings.additional.NoAdditional? || siblings.additional == AdditionalFlag(true)
    || !member.additional.NoAdditional? || member.properties.NoProperties?
    || PropertyMap(siblings).Keys <= PropertyMap(member).Keys
  }

  predicate UnwrapsCleanly(s: Schema) {
    var s2 := UnwrapAnyOf(s);
    && (s.anyOf.Members? && |NonNullMembers(s.anyOf.members)| == 1
        ==> MergeIsClean(s, NonNullMembers(s.anyOf.members)[0]))
    && (s2.oneOf.Members? && |NonNullMembers(s2.oneOf.members)| == 1
        ==> MergeIsClean(s2, NonNullMembers(s2.oneOf.members)[0]))
  }

  lemma UnwrapAnyOfKeepsValidity(m: Meaning, s: Schema, v: Json)
    requires Plain(s) && Valid(m, s, v) && v != JNull
    requires s.anyOf.Members? && |NonNullMembers(s.anyOf.members)| == 1
             ==> MergeIsClean(s, NonNullMembers(s.anyOf.members)[0])
    ensures Valid(m, UnwrapAnyOf(s), v)
  {
    if s.anyOf.Members? && |NonNullMembers(s.anyOf.members)| == 1 {
      OnlyMemberAccepts(m, s.anyOf, v);
      KeptMemberIsPlain(s.anyOf, 0);
    }
  }

  lemma UnwrapOneOfKeepsValidity(m: Meaning, s: Schema, v: Json)
    requires Plain(s) && Valid(m, s, v) && v != JNull
    requires s.oneOf.Members? && |NonNullMembers(s.oneOf.members)| == 1
             ==> MergeIsClean(s, NonNullMembers(s.oneOf.members)[0])
    ensures Valid(m, UnwrapOneOf(s), v)
  {
    if s.oneOf.Members? && |NonNullMembers(s.oneOf.members)| == 1 {
      assert true in Verdicts(m, s.oneOf, v);
      OnlyMemberAccepts(m, s.oneOf, v);
      KeptMemberIsPlain(s.oneOf, 0);
    }
  }

  lemma DropNullTypeKeepsValidity(m: Meaning, s: Schema, v: Json)
    requires Plain(s) && Valid(m, s, v) && v != JNull
    ensures Valid(m, DropNullType(s), v) && Plain(DropNullType(s))
  {
    if s.types.ManyTypes? {
      NonNullTypeIsKept(s.types.names, v);
    }
  }

  /** `non_null_schema` keeps every non-null value of a schema that unwraps cleanly. */
  lemma NonNullSchemaKeepsValues(m: Meaning, lit: Literal, s: Schema, v: Json)
    requires Plain(s) && UnwrapsCleanly(DropNullType(s))
    requires Valid(m, s, v) && v != JNull
    ensures Valid(m, NonNullSchema(lit, s), v)
  {
    var s1 := DropNullType(s);
    DropNullTypeKeepsValidity(m, s, v);
    UnwrapAnyOfKeepsValidity(m, s1, v);
    UnwrapAnyOfKeepsPlain(s1);
    UnwrapOneOfKeepsValidity(m, UnwrapAnyOf(s1), v);
    UnwrapOneOfKeepsPlain(UnwrapAnyOf(s1));
    UnwrappedCommutes(lit, s);
    NormalizedKeepsMeaning(m, lit, Unwrapped(s), v);
  }

  /** The only member of a union that is not null, if there is one. */
  function OnlyMember(k: UnionKeyword): seq<Schema> {
    if k.Members? && |NonNullMembers(k.members)| == 1 then NonNullMembers(k.members) else []
  }

  /** The schemas that unwrapping lays over each other: the schema itself, the only member of
      its `anyOf`, and the only member of the `oneOf` that is then there. */
  function Layers(s: Schema): seq<Schema> {
    var any := OnlyMember(s.anyOf);
    [s] + any + OnlyMember(if any != [] && any[0].oneOf.Members? then any[0].oneOf else s.oneOf)
  }

  /** The `additionalProperties` of the last layer that has one. */
  function LastAdditional(layers: seq<Schema>): AdditionalKeyword {
    if layers == [] then NoAdditional
    else
      var last := layers[|layers| - 1];
      if last.additional.NoAdditional? then LastAdditional(layers[..|layers| - 1]) else last.additional
  }

  /** The property names of the last layer that has `properties`. */
  function LastNames(layers: seq<Schema>): set<string> {
    if layers == [] then {}
    else
      var last := layers[|layers| - 1];
      if last.properties.NoProperties? then LastNames(layers[..|layers| - 1]) else last.properties.schemas.Keys
  }

  lemma LayerOver(layers: seq<Schema>, s: Schema, member: Schema)
    requires s.additional == LastAdditional(layers) && PropertyMap(s).Keys == LastNames(layers)
    ensures Merge(s, member).additional == LastAdditional(layers + [member])
    ensures PropertyMap(Merge(s, member)).Keys == LastNames(layers + [member])
  {
    assert (layers + [member])[..|layers + [member]| - 1] == layers;
  }

  lemma NoLayer(s: Schema)
    ensures s.additional == LastAdditional([s]) && PropertyMap(s).Keys == LastNames([s])
  {
    assert [s][..0] == [];
  }

  lemma AnyOfLayer(s: Schema)
    ensures var r, layers := UnwrapAnyOf(s), [s] + OnlyMember(s.anyOf);
            r.additional == LastAdditional(layers) && PropertyMap(r).Keys == LastNames(layers)
  {
    hide LastAdditional, LastNames;
    NoLayer(s);
    var any := OnlyMember(s.anyOf);
    assert [s] + [] == [s];
    if any != [] {
      var siblings := s.(anyOf := NoUnion);
      assert PropertyMap(siblings) == PropertyMap(s);
      LayerOver([s], siblings, any[0]);
      assert any == [any[0]];
    }
  }

  lemma OneOfLayer(s: Schema, layers: seq<Schema>)
    requires s.additional == LastAdditional(layers) && PropertyMap(s).Keys == LastNames(layers)
    ensures var r, all := UnwrapOneOf(s), layers + OnlyMember(s.oneOf);
            r.additional == LastAdditional(all) && PropertyMap(r).Keys == LastNames(all)
  {
    hide LastAdditional, LastNames;
    var one := OnlyMember(s.oneOf);
    assert layers + [] == layers;
    if one != [] {
      var siblings := s.(oneOf := NoUnion);
      assert PropertyMap(siblings) == PropertyMap(s);
      LayerOver(layers, siblings, one[0]);
      assert one == [one[0]];
    }
  }

  lemma SameLayer(s: Schema, s1: Schema, layers: seq<Schema>)
    requires s1.additional == s.additional && s1.properties == s.properties
    ensures LastAdditional([s1] + layers) == LastAdditional([s] + layers)
    ensures LastNames([s1] + layers) == LastNames([s] + layers)
    decreases |layers|
  {
    if layers != [] {
      var n := |layers| - 1;
      assert ([s1] + layers)[..n + 1] == [s1] + layers[..n];
      assert ([s] + layers)[..n + 1] == [s] + layers[..n];
      SameLayer(s, s1, layers[..n]);
    }
  }

  /** The `oneOf` that is there once the `anyOf` is unwrapped. */
  lemma OneOfBehindAnyOf(s: Schema)
    ensures var any := OnlyMember(s.anyOf);
            UnwrapAnyOf(s).oneOf == if any != [] && any[0].oneOf.Members? then any[0].oneOf else s.oneOf
  {
  }

  lemma DropNullTypeKeepsRest(s: Schema)
    ensures DropNullType(s) == s.(types := DropNullType(s).types)
  {
  }

  lemma UnwrappedHasLastLayers(s: Schema)
    ensures Unwrapped(s).additional == LastAdditional(Layers(s))
    ensures PropertyMap(Unwrapped(s)).Keys == LastNames(Layers(s))
  {
    hide LastAdditional, LastNames, UnwrapAnyOf, UnwrapOneOf, DropNullType, OnlyMember;
    var s1 := DropNullType(s);
    var any := OnlyMember(s.anyOf);
    DropNullTypeKeepsRest(s);
    AnyOfLayer(s1);
    OneOfBehindAnyOf(s1);
    var s2 := UnwrapAnyOf(s1);
    var one := OnlyMember(s2.oneOf);
    OneOfLayer(s2, [s1] + any);
    SameLayer(s, s1, any + one);
    assert [s1] + any + one == [s1] + (any + one);
    assert Layers(s) == [s] + (any + one);
  }

  /** Without that condition, a non-null value is kept exactly when it has no field that the
      last `additionalProperties` among the schema and its unwrapped members refuses beyond
      the names of the last `properties` among them. */
  lemma NonNullSchemaKeepsExactly(m: Meaning, lit: Literal, s: Schema, v: Json)
    requires Plain(s) && Valid(m, s, v) && v != JNull
    ensures Valid(m, NonNullSchema(lit, s), v) <==>
              AdditionalHolds(m, LastAdditional(Layers(s)), LastNames(Layers(s)), v)
  {
    hide LastAdditional, LastNames, Layers;
    UnwrappedHasLastLayers(s);
    KeptByAdditional(m, lit, s, v);
  }

  /** The only keyword of the result that can turn against a non-null value is its
      `additionalProperties`. */
  lemma KeptByAdditional(m: Meaning, lit: Literal, s: Schema, v: Json)
    requires Plain(s) && Valid(m, s, v) && v != JNull
    ensures var r := Unwrapped(s);
            Valid(m, NonNullSchema(lit, s), v) <==> AdditionalHolds(m, r.additional, PropertyMap(r).Keys, v)
  {
    var s1 := DropNullType(s);
    DropNullTypeKeepsValidity(m, s, v);
    UnwrapAnyOfKeepsPlain(s1);
    UnwrapOneOfKeepsPlain(UnwrapAnyOf(s1));
    UnwrappedKeepsIndependent(m, s, v);
    UnwrappedCommutes(lit, s);
    NormalizedKeepsMeaning(m, lit, Unwrapped(s), v);
  }

  const TypedObject := Anything.(types := OneType("object"))
  const TypedNull := Anything.(types := OneType("null"))
  const OpenMember := TypedObject.(properties := Properties(map["b" := Anything]), required := Some(["b"]))
  const ClosedOutput := Anything.(properties := Properties(map["a" := Anything, "b" := Anything]),
                                  additional := AdditionalFlag(false), anyOf := Members([OpenMember, TypedNull]))
  const FullAnswer := JObject(map["a" := JInteger(1), "b" := JInteger(1)])

  lemma AnythingGoes(m: Meaning, v: Json)
    ensures Valid(m, Anything, v)
  {
  }

  lemma OpenMemberAccepts(m: Meaning)
    ensures Valid(m, OpenMember, FullAnswer) && Plain(OpenMember)
  {
    AnythingGoes(m, JInteger(1));
  }

  lemma ClosedOutputAccepts(m: Meaning)
    ensures Plain(ClosedOutput) && Valid(m, ClosedOutput, FullAnswer)
  {
    hide Plain;
    OpenMemberAccepts(m);
    AnythingGoes(m, JInteger(1));
    ClosedOutputIsPlain(m);
    assert Verdicts(m, ClosedOutput.anyOf, FullAnswer)[0];
  }

  lemma ClosedOutputIsPlain(m: Meaning)
    ensures Plain(ClosedOutput)
  {
    OpenMemberAccepts(m);
    assert PlainUnion(Anything.anyOf) && PlainUnion(Anything.oneOf);
    assert Plain(Anything) && Plain(TypedNull);
  }

  lemma ClosedOutputLayers()
    ensures Layers(ClosedOutput) == [ClosedOutput, OpenMember]
    ensures LastAdditional(Layers(ClosedOutput)) == AdditionalFlag(false) && LastNames(Layers(ClosedOutput)) == {"b"}
    ensures Unwrapped(ClosedOutput).types == OneType("object") && Unwrapped(ClosedOutput).required == Some(["b"])
    ensures PropertyMap(Unwrapped(ClosedOutput)).Keys == {"b"}
  {
    var members := [OpenMember, TypedNull];
    assert members[1..] == [TypedNull] && [TypedNull][1..] == [];
    assert NonNullMembers([TypedNull]) == [];
    assert NonNullMembers(members) == [OpenMember];
    var layers := Layers(ClosedOutput);
    assert layers == [ClosedOutput, OpenMember] && layers[..1] == [ClosedOutput];
  }

  /** `{properties: {a, b}, additionalProperties: false, anyOf: [{object, properties: {b},
      required: [b]}, null]}` is a function output the catalog admits with the primary field
      `b`, and it accepts `{"a": 1, "b": 1}`; the unwrapped schema closes over `b` alone and
      refuses that value. */
  lemma NonNullSchemaCanLoseAValue(m: Meaning, lit: Literal)
    ensures var r := NonNullSchema(lit, ClosedOutput);
            r.types == OneType("object") && "b" in RequiredNames(r) && "b" in PropertyMap(r)
    ensures Plain(ClosedOutput) && Valid(m, ClosedOutput, FullAnswer)
    ensures !Valid(m, NonNullSchema(lit, ClosedOutput), FullAnswer)
  {
    hide Valid, Plain, Layers, LastAdditional, LastNames, NonNullSchema, Normalized, Unwrapped;
    var raw := Unwrapped(ClosedOutput);
    ClosedOutputAccepts(m);
    ClosedOutputLayers();
    UnwrappedCommutes(lit, ClosedOutput);
    NormalizedKeepsOneType(lit, raw, "object");
    NormalizedKeepsPropertyNames(lit, raw);
    NormalizedKeepsRequired(lit, raw, "b");
    NonNullSchemaKeepsExactly(m, lit, ClosedOutput, FullAnswer);
    assert "a" in FullAnswer.fields;
  }
}
