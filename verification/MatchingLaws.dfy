/** When `argument_schema_matches` and `primary_output_matches` must accept: the other half of what
    ComponentMatching and PrimaryEdges prove, on the schemas as they are written. */
module MatchingLaws {
  import opened Options
  import opened JsonSchema
  import opened ComponentMatching
  import opened PrimaryEdges
  import Sorting

  // ------------------------------------------------------------------ the vocabulary

  /** `sub` is `s`, or it is written somewhere inside it. */
  ghost predicate Within(sub: Schema, s: Schema)
    decreases s
  {
    || sub == s
    || (s.properties.Properties?
        && exists name :: name in s.properties.schemas && Within(sub, s.properties.schemas[name]))
    || (s.items.Items? && Within(sub, s.items.schema))
    || (s.anyOf.Members? && exists i :: 0 <= i < |s.anyOf.members| && Within(sub, s.anyOf.members[i]))
    || (s.oneOf.Members? && exists i :: 0 <= i < |s.oneOf.members| && Within(sub, s.oneOf.members[i]))
  }

  /** Only keywords the comparison understands, in the forms it understands. */
  predicate KnownKeywords(s: Schema) {
    s.foreign == map[] && s.prefix.NoPrefix? && !s.additional.AdditionalSchema? && !s.items.ItemsFlag?
  }

  /** So everywhere in a schema, and no `minLength`. */
  ghost predicate InVocabulary(s: Schema) {
    forall sub :: Within(sub, s) ==> KnownKeywords(sub) && sub.minLength.None?
  }

  lemma {:induction false} SupportedExactly(lit: Literal, s: Schema)
    ensures Supported(Normalized(lit, s)) <==> InVocabulary(s)
    decreases s
  {
    var n := Normalized(lit, s);
    NormalizedParts(lit, s);
    assert Within(s, s);
    if s.properties.Properties? {
      forall name | name in s.properties.schemas
        ensures Supported(n.properties.schemas[name]) <==> InVocabulary(s.properties.schemas[name])
      {
        SupportedExactly(lit, s.properties.schemas[name]);
      }
    }
    if s.items.Items? {
      assert n.items == Items(Normalized(lit, s.items.schema));
      SupportedExactly(lit, s.items.schema);
    }
    SupportedUnionExactly(lit, s.anyOf);
    SupportedUnionExactly(lit, s.oneOf);
    VocabularySplits(s);
  }

  ghost predicate UnionInVocabulary(k: UnionKeyword) {
    k.Members? ==> forall i :: 0 <= i < |k.members| ==> InVocabulary(k.members[i])
  }

  lemma {:induction false} SupportedUnionExactly(lit: Literal, k: UnionKeyword)
    ensures SupportedUnion(NormalizedUnion(lit, k)) <==> UnionInVocabulary(k)
    decreases k
  {
    if k.Members? {
      forall i | 0 <= i < |k.members|
        ensures Supported(NormalizedUnion(lit, k).members[i]) <==> InVocabulary(k.members[i])
      {
        SupportedExactly(lit, k.members[i]);
      }
    }
  }

  /** A schema is within the vocabulary when its own keywords and its subschemas are. */
  lemma VocabularySplits(s: Schema)
    ensures InVocabulary(s) <==>
              && KnownKeywords(s) && s.minLength.None?
              && (s.properties.Properties? ==>
                    forall name :: name in s.properties.schemas ==> InVocabulary(s.properties.schemas[name]))
              && (s.items.Items? ==> InVocabulary(s.items.schema))
              && UnionInVocabulary(s.anyOf) && UnionInVocabulary(s.oneOf)
  {
    assert Within(s, s);
  }

  /** The vocabulary of an argument schema: `minLength` may stand at its top. */
  ghost predicate ArgumentVocabulary(s: Schema) {
    InVocabulary(s.(minLength := None))
  }

  // ------------------------------------------------------------------ exactly when

  /** `enum` and `const` leave the value. */
  predicate Leaves(s: Schema, v: Json) {
    (s.values.Some? ==> v in s.values.value) && (s.constant.Some? ==> v == s.constant.value)
  }

  predicate Enumerates(s: Schema) {
    s.values.Some? || s.constant.Some?
  }

  /** If the target lists its values, the source lists its own, and the target has each of them. */
  ghost predicate ValuesNarrow(source: Schema, target: Schema) {
    Enumerates(target) ==> Enumerates(source) && forall v :: Leaves(source, v) ==> Leaves(target, v)
  }

  /** A text long enough for the source is long enough for the target. */
  predicate LengthsNarrow(source: Schema, target: Schema) {
    target.minLength.Some? && target.minLength.value > 0 ==>
      source.minLength.Some? && source.minLength.value >= target.minLength.value
  }

  predicate Closes(s: Schema) {
    s.additional == AdditionalFlag(false)
  }

  /** Every value the target's fields ask for, the source's fields give. */
  predicate FieldsMatch(lit: Literal, source: Schema, target: Schema) {
    && (forall name :: name in RequiredNames(target) ==> name in RequiredNames(source))
    && (Closes(target) ==> Closes(source) && PropertyMap(source).Keys <= PropertyMap(target).Keys)
    && (forall name :: name in PropertyMap(source) && name in PropertyMap(target) ==>
          ArgumentSchemaMatches(lit, PropertyMap(source)[name], PropertyMap(target)[name]))
    && (forall name :: name in PropertyMap(target) && name !in PropertyMap(source) ==>
          Closes(source) && name !in RequiredNames(target))
  }

  ghost predicate TypedSchemasMatch(lit: Literal, source: Schema, target: Schema) {
    && ArgumentVocabulary(source) && ArgumentVocabulary(target)
    && source.types == target.types && source.format == target.format
    && ValuesNarrow(source, target) && LengthsNarrow(source, target)
    && (source.types == OneType("array") ==>
          source.items.Items? && target.items.Items?
          && ArgumentSchemaMatches(lit, source.items.schema, target.items.schema))
    && (source.types == OneType("object") ==> FieldsMatch(lit, source, target))
  }

  lemma ValuesExactly(lit: Literal, source: Schema, target: Schema)
    requires Injective(lit)
    ensures var known, asked := Values(lit, Normalized(lit, source).(minLength := None)),
                                Values(lit, Normalized(lit, target).(minLength := None));
            (asked.Some? ==> known.Some? && known.value <= asked.value) <==> ValuesNarrow(source, target)
  {
    TextsAreValues(lit, source);
    TextsAreValues(lit, target);
    var known, asked := Values(lit, Normalized(lit, source).(minLength := None)),
                        Values(lit, Normalized(lit, target).(minLength := None));
    if asked.Some? && known.Some? && ValuesNarrow(source, target) {
      forall text | text in known.value ensures text in asked.value {
        var v :| Leaves(source, v) && lit(v) == text;
      }
    }
  }

  lemma TextsAreValues(lit: Literal, s: Schema)
    requires Injective(lit)
    ensures var texts := Values(lit, Normalized(lit, s).(minLength := None));
            && (texts.Some? <==> Enumerates(s))
            && (texts.Some? ==> forall v :: Leaves(s, v) <==> lit(v) in texts.value)
            && (texts.Some? ==> forall text :: text in texts.value ==> exists v :: Leaves(s, v) && lit(v) == text)
  {
    var n := Normalized(lit, s).(minLength := None);
    hide Sorting.Sort;
    if s.values.Some? {
      forall v ensures v in n.values.value <==> v in s.values.value {
        Sorting.SortKeepsMembers(s.values.value, LiteralLe(lit), v);
      }
    }
    var texts := Values(lit, n);
    if texts.Some? {
      forall text | text in texts.value ensures exists v :: Leaves(s, v) && lit(v) == text {
        if s.constant.Some? {
          assert lit(s.constant.value) == text;
          if s.values.Some? {
            var v :| v in n.values.value && lit(v) == text;
            assert v == s.constant.value;
          }
          assert Leaves(s, s.constant.value);
        } else {
          var v :| v in n.values.value && lit(v) == text;
          assert Leaves(s, v);
        }
      }
    }
  }

  predicate NoUnionHere(s: Schema) {
    s.anyOf.NoUnion? && s.oneOf.NoUnion? && !s.types.ManyTypes?
  }

  /** Top-level `minLength` aside, a schema matches what its normal form is compared as. */
  lemma MatchByParts(lit: Literal, source: Schema, target: Schema)
    ensures ArgumentSchemaMatches(lit, source, target) <==>
              && LengthsNarrow(source, target) && ArgumentVocabulary(source) && ArgumentVocabulary(target)
              && Compatible(lit, Normalized(lit, source.(minLength := None)),
                            Normalized(lit, target.(minLength := None)))
  {
    hide Compatible, Supported;
    SupportedExactly(lit, source.(minLength := None));
    SupportedExactly(lit, target.(minLength := None));
    NormalizedWithoutLength(lit, source);
    NormalizedWithoutLength(lit, target);
  }

  lemma NormalizedWithoutLength(lit: Literal, s: Schema)
    ensures Normalized(lit, s.(minLength := None)) == Normalized(lit, s).(minLength := None)
    ensures MinLength(Normalized(lit, s)) == if s.minLength.Some? then s.minLength.value else 0
  {
  }

  /** Inside a schema of the vocabulary there is no `minLength` to compare apart. */
  lemma InnerMatch(lit: Literal, source: Schema, target: Schema)
    requires InVocabulary(source) && InVocabulary(target)
    ensures ArgumentSchemaMatches(lit, source, target) <==>
              Compatible(lit, Normalized(lit, source), Normalized(lit, target))
  {
    MatchByParts(lit, source, target);
    VocabularySplits(source);
    VocabularySplits(target);
    assert source.(minLength := None) == source && target.(minLength := None) == target;
  }

  lemma InnerFieldsMatch(lit: Literal, source: Schema, target: Schema)
    requires InVocabulary(source) && InVocabulary(target)
    ensures ObjectMatches(lit, Normalized(lit, source), Normalized(lit, target)) <==> FieldsMatch(lit, source, target)
  {
    hide Compatible, ArgumentSchemaMatches, Normalized, InVocabulary, PropertyMap, RequiredNames;
    VocabularySplits(source);
    VocabularySplits(target);
    NormalizedKeepsPropertyNames(lit, source);
    NormalizedKeepsPropertyNames(lit, target);
    NormalizedKeepsAdditional(lit, source);
    NormalizedKeepsAdditional(lit, target);
    forall name ensures name in RequiredNames(Normalized(lit, source)) <==> name in RequiredNames(source)
                ensures name in RequiredNames(Normalized(lit, target)) <==> name in RequiredNames(target)
    {
      NormalizedKeepsRequired(lit, source, name);
      NormalizedKeepsRequired(lit, target, name);
    }
    forall name | name in PropertyMap(source) && name in PropertyMap(target)
      ensures Compatible(lit, Normalized(lit, PropertyMap(source)[name]), Normalized(lit, PropertyMap(target)[name]))
              <==> ArgumentSchemaMatches(lit, PropertyMap(source)[name], PropertyMap(target)[name])
    {
      FieldIsInVocabulary(source, name);
      FieldIsInVocabulary(target, name);
      InnerMatch(lit, PropertyMap(source)[name], PropertyMap(target)[name]);
    }
  }

  lemma FieldIsInVocabulary(s: Schema, name: string)
    requires InVocabulary(s) && name in PropertyMap(s)
    ensures InVocabulary(PropertyMap(s)[name])
  {
    VocabularySplits(s);
  }

  lemma NormalizedKeepsAdditional(lit: Literal, s: Schema)
    ensures Normalized(lit, s).additional == s.additional
  {
  }

  /** Of two schemas without a union the match is reported exactly when both are typed, within
      the vocabulary and of one type and format, the values and lengths of the source lie within
      those of the target, and so do items and fields, by matches of their own. */
  lemma TypedSchemasMatchExactly(lit: Literal, source: Schema, target: Schema)
    requires Injective(lit) && NoUnionHere(source) && NoUnionHere(target)
    ensures ArgumentSchemaMatches(lit, source, target) <==>
              source.types.OneType? && TypedSchemasMatch(lit, source, target)
  {
    hide ArgumentSchemaMatches, FieldsMatch, ObjectMatches, ValuesNarrow, Values;
    var inner, outer := source.(minLength := None), target.(minLength := None);
    MatchByParts(lit, source, target);
    ValuesExactly(lit, source, target);
    NormalizedWithoutLength(lit, source);
    NormalizedWithoutLength(lit, target);
    if ArgumentVocabulary(source) && ArgumentVocabulary(target) {
      VocabularySplits(inner);
      VocabularySplits(outer);
      InnerFieldsMatch(lit, inner, outer);
      assert FieldsMatch(lit, inner, outer) <==> FieldsMatch(lit, source, target) by {
        SameFields(lit, source, target);
      }
      if source.items.Items? && target.items.Items? {
        InnerMatch(lit, source.items.schema, target.items.schema);
      }
      NormalizedTypeIs(lit, inner);
      NormalizedTypeIs(lit, outer);
    }
  }

  lemma SameFields(lit: Literal, source: Schema, target: Schema)
    ensures FieldsMatch(lit, source.(minLength := None), target.(minLength := None))
            <==> FieldsMatch(lit, source, target)
  {
    hide ArgumentSchemaMatches;
    var inner, outer := source.(minLength := None), target.(minLength := None);
    assert PropertyMap(inner) == PropertyMap(source) && PropertyMap(outer) == PropertyMap(target);
    assert RequiredNames(inner) == RequiredNames(source) && RequiredNames(outer) == RequiredNames(target);
  }

  lemma NormalizedTypeIs(lit: Literal, s: Schema)
    requires NoUnionHere(s)
    ensures !IsUnion(Normalized(lit, s)) && Normalized(lit, s).types == s.types && Normalized(lit, s).format == s.format
    ensures Normalized(lit, s).items == if s.items.Items? then Items(Normalized(lit, s.items.schema)) else s.items
    ensures OnlySupportedKeys(Normalized(lit, s)) <==> s.foreign == map[] && s.minLength.None? && s.prefix.NoPrefix?
  {
  }

  /** A schema of type, format, enum, const and minLength, of a type without parts. */
  predicate IsScalar(s: Schema) {
    && s == Anything.(types := s.types, format := s.format, values := s.values, constant := s.constant,
                      minLength := s.minLength, annotations := s.annotations)
    && s.types.OneType? && s.types.name != "array" && s.types.name != "object"
  }

  lemma ScalarIsInVocabulary(s: Schema)
    requires IsScalar(s)
    ensures ArgumentVocabulary(s)
  {
    VocabularySplits(s.(minLength := None));
  }

  lemma ScalarsMatchExactly(lit: Literal, source: Schema, target: Schema)
    requires Injective(lit) && IsScalar(source) && IsScalar(target)
    ensures ArgumentSchemaMatches(lit, source, target) <==>
              && source.types == target.types && source.format == target.format
              && ValuesNarrow(source, target) && LengthsNarrow(source, target)
  {
    hide ArgumentSchemaMatches, ArgumentVocabulary, ValuesNarrow;
    ScalarIsInVocabulary(source);
    ScalarIsInVocabulary(target);
    TypedSchemasMatchExactly(lit, source, target);
  }

  /** A match is reported of a schema with itself exactly when it is within the vocabulary and
      its normal form is typed throughout, or a union. */
  lemma MatchesItselfExactly(lit: Literal, s: Schema)
    ensures ArgumentSchemaMatches(lit, s, s) <==>
              ArgumentVocabulary(s) && Comparable(Normalized(lit, s.(minLength := None)))
  {
    hide ArgumentSchemaMatches, ArgumentVocabulary, Normalized, Compatible, Comparable;
    MatchByParts(lit, s, s);
    CompatibleWithItself(lit, Normalized(lit, s.(minLength := None)));
  }

  // ------------------------------------------------------ narrower and wider schemas

  /** `s'` says what `s` says and more: fewer values, longer texts, more required names. */
  ghost predicate Narrows(s': Schema, s: Schema) {
    && s' == s.(values := s'.values, constant := s'.constant, minLength := s'.minLength, required := s'.required,
                annotations := s'.annotations)
    && ValuesNarrow(s', s) && LengthsNarrow(s', s)
    && forall name :: name in RequiredNames(s) ==> name in RequiredNames(s')
  }

  lemma VocabularyIgnores(s: Schema, s': Schema)
    requires InVocabulary(s)
    requires s'.properties == s.properties && s'.items == s.items && s'.anyOf == s.anyOf && s'.oneOf == s.oneOf
    requires s'.foreign == s.foreign && s'.prefix == s.prefix && s'.additional == s.additional && s'.minLength.None?
    ensures InVocabulary(s')
  {
    hide InVocabulary;
    VocabularySplits(s);
    VocabularySplits(s');
  }

  /** A match is kept when the source is narrowed. */
  lemma NarrowerSourceMatches(lit: Literal, source: Schema, source': Schema, target: Schema)
    requires Injective(lit) && NoUnionHere(source) && NoUnionHere(target)
    requires ArgumentSchemaMatches(lit, source, target) && Narrows(source', source)
    ensures ArgumentSchemaMatches(lit, source', target)
  {
    hide ArgumentSchemaMatches, InVocabulary;
    TypedSchemasMatchExactly(lit, source, target);
    TypedSchemasMatchExactly(lit, source', target);
    VocabularyIgnores(source.(minLength := None), source'.(minLength := None));
    assert PropertyMap(source') == PropertyMap(source);
  }

  /** And when the target is widened: more values, shorter texts, fewer required names. */
  lemma WiderTargetMatches(lit: Literal, source: Schema, target: Schema, target': Schema)
    requires Injective(lit) && NoUnionHere(source) && NoUnionHere(target)
    requires ArgumentSchemaMatches(lit, source, target) && Narrows(target, target')
    ensures ArgumentSchemaMatches(lit, source, target')
  {
    hide ArgumentSchemaMatches, InVocabulary;
    TypedSchemasMatchExactly(lit, source, target);
    TypedSchemasMatchExactly(lit, source, target');
    VocabularyIgnores(target.(minLength := None), target'.(minLength := None));
    assert PropertyMap(target') == PropertyMap(target);
  }

  /** And when the target describes one more optional field, if the source is closed and does
      not have it, or has it and it matches. */
  lemma OptionalFieldMatches(lit: Literal, source: Schema, target: Schema, name: string, field: Schema)
    requires Injective(lit) && NoUnionHere(source) && NoUnionHere(target)
    requires ArgumentSchemaMatches(lit, source, target) && InVocabulary(field)
    requires name !in PropertyMap(target) && name !in RequiredNames(target)
    requires if name in PropertyMap(source) then ArgumentSchemaMatches(lit, PropertyMap(source)[name], field)
             else Closes(source)
    ensures var target' := target.(properties := Properties(PropertyMap(target)[name := field]));
            ArgumentSchemaMatches(lit, source, target')
  {
    hide ArgumentSchemaMatches, InVocabulary;
    var target' := target.(properties := Properties(PropertyMap(target)[name := field]));
    TypedSchemasMatchExactly(lit, source, target);
    TypedSchemasMatchExactly(lit, source, target');
    VocabularySplits(target.(minLength := None));
    VocabularySplits(target'.(minLength := None));
    assert PropertyMap(target') == PropertyMap(target)[name := field];
  }

  function ArrayOf(item: Schema): Schema {
    Anything.(types := OneType("array"), items := Items(item))
  }

  /** Items match as arguments of their own do. */
  lemma ArraysMatchExactly(lit: Literal, source: Schema, target: Schema)
    requires Injective(lit)
    ensures ArgumentSchemaMatches(lit, ArrayOf(source), ArrayOf(target)) <==>
              InVocabulary(source) && InVocabulary(target) && ArgumentSchemaMatches(lit, source, target)
  {
    hide ArgumentSchemaMatches, InVocabulary;
    TypedSchemasMatchExactly(lit, ArrayOf(source), ArrayOf(target));
    VocabularySplits(ArrayOf(source));
    VocabularySplits(ArrayOf(target));
  }

  // ------------------------------------------------------------------ unions

  /** Equal up to annotations and the order of `required`, `type` and `enum`, at every level. */
  ghost predicate Alike(a: Schema, b: Schema)
    decreases a
  {
    && (a.format, a.constant, a.prefix, a.additional, a.minLength, a.foreign)
       == (b.format, b.constant, b.prefix, b.additional, b.minLength, b.foreign)
    && AlikeLists(a.required, b.required) && AlikeLists(a.values, b.values)
    && (if a.types.ManyTypes? then b.types.ManyTypes? && multiset(a.types.names) == multiset(b.types.names)
        else a.types == b.types)
    && (if a.items.Items? then b.items.Items? && Alike(a.items.schema, b.items.schema) else a.items == b.items)
    && (if a.properties.Properties? then
          && b.properties.Properties? && a.properties.schemas.Keys == b.properties.schemas.Keys
          && forall name :: name in a.properties.schemas ==>
               Alike(a.properties.schemas[name], b.properties.schemas[name])
        else a.properties == b.properties)
    && AlikeUnions(a.anyOf, b.anyOf) && AlikeUnions(a.oneOf, b.oneOf)
  }

  predicate AlikeLists<T(==)>(a: Option<seq<T>>, b: Option<seq<T>>) {
    if a.Some? then b.Some? && multiset(a.value) == multiset(b.value) else b.None?
  }

  ghost predicate AlikeUnions(a: UnionKeyword, b: UnionKeyword)
    decreases a
  {
    if a.Members? then
      && b.Members? && |a.members| == |b.members|
      && forall i :: 0 <= i < |a.members| ==> Alike(a.members[i], b.members[i])
    else a == b
  }

  lemma LiteralLeIsAntisymmetric(lit: Literal)
    requires Injective(lit)
    ensures Sorting.IsTotalPreorder(LiteralLe(lit))
    ensures forall a, b :: LiteralLe(lit)(a, b) && LiteralLe(lit)(b, a) ==> a == b
  {
    Sorting.StringLeIsTotalPreorder();
    forall a, b | LiteralLe(lit)(a, b) && LiteralLe(lit)(b, a) ensures a == b {
      Sorting.StringLeAntisymmetric(lit(a), lit(b));
    }
  }

  lemma SortedAlike<T(!new)>(a: seq<T>, b: seq<T>, le: (T, T) -> bool)
    requires Sorting.IsTotalPreorder(le) && forall x, y :: le(x, y) && le(y, x) ==> x == y
    ensures Sorting.Sort(a, le) == Sorting.Sort(b, le) <==> multiset(a) == multiset(b)
  {
    if multiset(a) == multiset(b) {
      Sorting.SortIgnoresArrangement(a, b, le);
    }
  }

  lemma SortedNamesAlike(a: seq<string>, b: seq<string>)
    ensures Sorting.Sort(a, Sorting.StringLe) == Sorting.Sort(b, Sorting.StringLe) <==> multiset(a) == multiset(b)
  {
    Sorting.StringLeIsTotalPreorder();
    forall x, y | Sorting.StringLe(x, y) && Sorting.StringLe(y, x) ensures x == y {
      Sorting.StringLeAntisymmetric(x, y);
    }
    SortedAlike(a, b, Sorting.StringLe);
  }

  /** What normalizing leaves different is different. */
  lemma {:induction false} NormalizedAlike(lit: Literal, a: Schema, b: Schema)
    requires Injective(lit)
    ensures Normalized(lit, a) == Normalized(lit, b) <==> Alike(a, b)
    decreases a
  {
    hide Injective, Sorting.Sort, Sorting.IsTotalPreorder;
    NormalizedParts(lit, a);
    NormalizedParts(lit, b);
    ListsAlike(lit, a, b);
    UnionsAlike(lit, a.anyOf, b.anyOf);
    UnionsAlike(lit, a.oneOf, b.oneOf);
    if a.items.Items? && b.items.Items? {
      NormalizedAlike(lit, a.items.schema, b.items.schema);
    }
    PropertiesAlike(lit, a.properties, b.properties);
  }

  lemma ListsAlike(lit: Literal, a: Schema, b: Schema)
    requires Injective(lit)
    ensures var m, n := Normalized(lit, a), Normalized(lit, b);
            && (m.required == n.required <==> AlikeLists(a.required, b.required))
            && (m.values == n.values <==> AlikeLists(a.values, b.values))
            && (m.types == n.types <==>
                  if a.types.ManyTypes? then b.types.ManyTypes? && multiset(a.types.names) == multiset(b.types.names)
                  else a.types == b.types)
  {
    hide Injective, Sorting.Sort, Sorting.IsTotalPreorder, NormalizedProperties, NormalizedItems, NormalizedUnion;
    SortedNamesAlike(RequiredNames(a), RequiredNames(b));
    LiteralLeIsAntisymmetric(lit);
    if a.values.Some? && b.values.Some? {
      SortedAlike(a.values.value, b.values.value, LiteralLe(lit));
    }
    if a.types.ManyTypes? && b.types.ManyTypes? {
      SortedNamesAlike(a.types.names, b.types.names);
    }
  }

  lemma {:induction false} PropertiesAlike(lit: Literal, a: PropertiesKeyword, b: PropertiesKeyword)
    requires Injective(lit)
    ensures NormalizedProperties(lit, a) == NormalizedProperties(lit, b) <==>
              if a.Properties? then
                && b.Properties? && a.schemas.Keys == b.schemas.Keys
                && forall name :: name in a.schemas ==> Alike(a.schemas[name], b.schemas[name])
              else a == b
    decreases a
  {
    hide Injective, Normalized, Alike;
    if a.Properties? && b.Properties? {
      var m, n := NormalizedProperties(lit, a).schemas, NormalizedProperties(lit, b).schemas;
      assert m.Keys == a.schemas.Keys && n.Keys == b.schemas.Keys;
      if a.schemas.Keys == b.schemas.Keys {
        forall name | name in a.schemas ensures m[name] == n[name] <==> Alike(a.schemas[name], b.schemas[name]) {
          NormalizedAlike(lit, a.schemas[name], b.schemas[name]);
        }
        assert m == n <==> forall name :: name in a.schemas ==> m[name] == n[name];
      }
    }
  }

  lemma {:induction false} UnionsAlike(lit: Literal, a: UnionKeyword, b: UnionKeyword)
    requires Injective(lit)
    ensures NormalizedUnion(lit, a) == NormalizedUnion(lit, b) <==> AlikeUnions(a, b)
    decreases a
  {
    hide Injective, Normalized, Alike;
    if a.Members? && b.Members? {
      var m, n := NormalizedUnion(lit, a).members, NormalizedUnion(lit, b).members;
      assert |m| == |a.members| && |n| == |b.members|;
      forall i | 0 <= i < |m| && i < |n| ensures m[i] == n[i] <==> Alike(a.members[i], b.members[i]) {
        NormalizedAlike(lit, a.members[i], b.members[i]);
      }
      if |m| != |n| {
      } else if m == n {
        forall i | 0 <= i < |a.members| ensures Alike(a.members[i], b.members[i]) {
          assert m[i] == n[i];
        }
      } else {
        var i :| 0 <= i < |m| && m[i] != n[i];
        assert !Alike(a.members[i], b.members[i]);
      }
    }
  }

  /** With a union on either side the match is reported exactly when both schemas are within the
      vocabulary and the same, up to annotations, order and the length at the top. */
  lemma UnionsMatchExactly(lit: Literal, source: Schema, target: Schema)
    requires Injective(lit) && !(NoUnionHere(source) && NoUnionHere(target))
    ensures ArgumentSchemaMatches(lit, source, target) <==>
              && LengthsNarrow(source, target) && ArgumentVocabulary(source) && ArgumentVocabulary(target)
              && Alike(source.(minLength := None), target.(minLength := None))
  {
    hide ArgumentSchemaMatches, ArgumentVocabulary, Alike, LengthsNarrow;
    var inner, outer := source.(minLength := None), target.(minLength := None);
    MatchByParts(lit, source, target);
    NormalizedAlike(lit, inner, outer);
    NormalizedKeepsUnions(lit, inner);
    NormalizedKeepsUnions(lit, outer);
  }

  lemma NormalizedKeepsUnions(lit: Literal, s: Schema)
    ensures IsUnion(Normalized(lit, s)) <==> !NoUnionHere(s)
  {
  }

  // ------------------------------------------------------------------ inferred edges

  /** `part` is `s`, or every value of `s` that has what `s` requires has a part `part` describes:
      an item of an array, a required field of an object, a member of a union. */
  ghost predicate Reached(part: Schema, s: Schema)
    decreases s
  {
    || part == s
    || (s.types == OneType("array") && s.items.Items? && Reached(part, s.items.schema))
    || (s.types == OneType("object") && s.properties.Properties?
        && exists name :: name in s.properties.schemas && name in RequiredNames(s)
                          && Reached(part, s.properties.schemas[name]))
    || (s.types != OneType("array") && s.types != OneType("object")
        && ((s.anyOf.Members? && exists i :: 0 <= i < |s.anyOf.members| && Reached(part, s.anyOf.members[i]))
            || (s.oneOf.Members? && exists i :: 0 <= i < |s.oneOf.members| && Reached(part, s.oneOf.members[i]))))
  }

  predicate SaysMore(s: Schema) {
    s.format.Some? || s.values.Some? || s.constant.Some?
  }

  /** A schema suggests an edge exactly when a format, an enum or a const is reached in it. */
  lemma {:induction false} SemanticExactly(lit: Literal, s: Schema)
    ensures Semantic(Normalized(lit, s)) <==> exists part :: Reached(part, s) && SaysMore(part)
    decreases s
  {
    hide Sorting.Sort;
    var n := Normalized(lit, s);
    NormalizedParts(lit, s);
    if SaysMore(s) {
      assert Reached(s, s);
    } else if s.types == OneType("array") {
      if s.items.Items? {
        assert n.items == Items(Normalized(lit, s.items.schema));
        SemanticExactly(lit, s.items.schema);
      }
    } else if s.types == OneType("object") {
      if s.properties.Properties? {
        forall name | name in s.properties.schemas
          ensures Semantic(n.properties.schemas[name]) <==>
                    exists part :: Reached(part, s.properties.schemas[name]) && SaysMore(part)
          ensures name in RequiredNames(n) <==> name in RequiredNames(s)
        {
          SemanticExactly(lit, s.properties.schemas[name]);
          NormalizedKeepsRequired(lit, s, name);
        }
      }
    } else {
      SemanticUnionExactly(lit, s.anyOf);
      SemanticUnionExactly(lit, s.oneOf);
    }
  }

  lemma {:induction false} SemanticUnionExactly(lit: Literal, k: UnionKeyword)
    ensures SemanticUnion(NormalizedUnion(lit, k)) <==>
              k.Members? && exists i, part :: 0 <= i < |k.members| && Reached(part, k.members[i]) && SaysMore(part)
    decreases k
  {
    if k.Members? {
      var n := NormalizedUnion(lit, k).members;
      forall i | 0 <= i < |k.members|
        ensures Semantic(n[i]) <==> exists part :: Reached(part, k.members[i]) && SaysMore(part)
      {
        SemanticExactly(lit, k.members[i]);
      }
    }
  }

  /** An edge is inferred exactly when the output is an object once null is taken off, the primary
      field is declared and required, matches the parameter as an argument, and the parameter says
      more than a type. */
  lemma EdgesAreInferredExactly(lit: Literal, output: Schema, value: string, parameter: Schema)
    ensures var result := Unwrapped(output);
            PrimaryOutputMatches(lit, output, value, parameter) <==>
              && result.types == OneType("object") && value in RequiredNames(result) && value in PropertyMap(result)
              && InVocabulary(PropertyMap(result)[value]) && InVocabulary(parameter)
              && ArgumentSchemaMatches(lit, PropertyMap(result)[value], parameter)
              && exists part :: Reached(part, parameter) && SaysMore(part)
  {
    hide ArgumentSchemaMatches, InVocabulary, Compatible, Supported, Unwrapped, Semantic, Reached, SaysMore, Normalized;
    var result := Unwrapped(output);
    UnwrappedCommutes(lit, output);
    NormalizedKeepsOneType(lit, result, "object");
    NormalizedKeepsRequired(lit, result, value);
    NormalizedKeepsPropertyNames(lit, result);
    SemanticExactly(lit, parameter);
    SupportedExactly(lit, parameter);
    SupportedAsWritten(lit, parameter);
    if value in PropertyMap(result) {
      SupportedExactly(lit, PropertyMap(result)[value]);
      if InVocabulary(PropertyMap(result)[value]) && InVocabulary(parameter) {
        InnerMatch(lit, PropertyMap(result)[value], parameter);
      }
    }
  }

  /** The parameter is looked at before it is normalized, which makes no difference. */
  lemma {:induction false} SupportedAsWritten(lit: Literal, s: Schema)
    ensures Supported(s) <==> Supported(Normalized(lit, s))
    decreases s
  {
    var n := Normalized(lit, s);
    NormalizedParts(lit, s);
    if s.properties.Properties? {
      forall name | name in s.properties.schemas
        ensures Supported(s.properties.schemas[name]) <==> Supported(n.properties.schemas[name])
      {
        SupportedAsWritten(lit, s.properties.schemas[name]);
      }
    }
    if s.items.Items? {
      assert n.items == Items(Normalized(lit, s.items.schema));
      SupportedAsWritten(lit, s.items.schema);
    }
    SupportedUnionAsWritten(lit, s.anyOf);
    SupportedUnionAsWritten(lit, s.oneOf);
  }

  lemma {:induction false} SupportedUnionAsWritten(lit: Literal, k: UnionKeyword)
    ensures SupportedUnion(k) <==> SupportedUnion(NormalizedUnion(lit, k))
    decreases k
  {
    if k.Members? {
      forall i | 0 <= i < |k.members|
        ensures Supported(k.members[i]) <==> Supported(NormalizedUnion(lit, k).members[i])
      {
        SupportedAsWritten(lit, k.members[i]);
      }
    }
  }

  /** The ways to write that a result may be null, and what is left of each. */
  lemma NullIsTakenOff(s: Schema, nothing: Schema, both: seq<string>, members: seq<Schema>)
    requires NoUnionHere(s) && s.types.OneType? && s.types.name != "null" && nothing.types == OneType("null")
    requires both == [s.types.name, "null"] || both == ["null", s.types.name]
    requires members == [s, nothing] || members == [nothing, s]
    ensures Unwrapped(s.(types := ManyTypes(both))) == s
    ensures Unwrapped(Anything.(anyOf := Members(members))) == s
    ensures Unwrapped(Anything.(oneOf := Members(members))) == s
  {
    OnlyNameLeft(both, s.types.name);
    OnlyMemberLeft(members, s);
    assert Anything.(anyOf := NoUnion) == Anything && Anything.(oneOf := NoUnion) == Anything;
    MergeWithNothing(s);
  }

  lemma OnlyNameLeft(both: seq<string>, name: string)
    requires name != "null" && (both == [name, "null"] || both == ["null", name])
    ensures NonNullNames(both) == [name]
  {
    assert both[1..][1..] == [];
    assert NonNullNames(both[1..]) == if both[1] == "null" then [] else [both[1]];
  }

  lemma OnlyMemberLeft(members: seq<Schema>, s: Schema)
    requires |members| == 2 && s.types != OneType("null")
    requires (members[0] == s && members[1].types == OneType("null"))
             || (members[1] == s && members[0].types == OneType("null"))
    ensures NonNullMembers(members) == [s]
  {
    assert members[1..][1..] == [];
    assert NonNullMembers(members[1..]) == if members[1].types == OneType("null") then [] else [members[1]];
  }

  lemma MergeWithNothing(s: Schema)
    ensures Merge(Anything, s) == s
  {
  }
}
