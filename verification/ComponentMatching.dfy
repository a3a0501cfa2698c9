/** The conservative schema matcher: `framework/component_matching.py`.

    Its promise is soundness. A match may be refused for a compatible pair, but a reported
    match means that every value of the source schema is a value of the target schema. */
module ComponentMatching {
  import opened Options
  import opened JsonSchema
  import Sorting

  /** The JSON text of a value (`_literal`). Two values with the same text are the same value. */
  type Literal = Json -> string

  ghost predicate Injective(lit: Literal) {
    forall a, b :: lit(a) == lit(b) ==> a == b
  }

  function LiteralLe(lit: Literal): (Json, Json) -> bool {
    (a, b) => Sorting.StringLe(lit(a), lit(b))
  }

  // ---------------------------------------------------------------- normal form

  function NormalizedProperties(lit: Literal, k: PropertiesKeyword): PropertiesKeyword
    decreases k
  {
    match k
    case NoProperties => NoProperties
    case Properties(schemas) => Properties(map name | name in schemas :: Normalized(lit, schemas[name]))
  }

  function NormalizedItems(lit: Literal, k: ItemsKeyword): ItemsKeyword
    decreases k
  {
    if k.Items? then Items(Normalized(lit, k.schema)) else k
  }

  function NormalizedUnion(lit: Literal, k: UnionKeyword): UnionKeyword
    decreases k
  {
    match k
    case NoUnion => NoUnion
    case Members(members) =>
      Members(seq(|members|, i requires 0 <= i < |members| => Normalized(lit, members[i])))
  }

  /** `_normalized`: annotations dropped, order-free lists sorted, subschemas likewise. */
  function Normalized(lit: Literal, s: Schema): Schema
    decreases s
  {
    s.(annotations := map[],
       properties := NormalizedProperties(lit, s.properties),
       items := NormalizedItems(lit, s.items),
       anyOf := NormalizedUnion(lit, s.anyOf),
       oneOf := NormalizedUnion(lit, s.oneOf),
       required := if s.required.Some? then Some(Sorting.Sort(s.required.value, Sorting.StringLe)) else None,
       types := if s.types.ManyTypes? then ManyTypes(Sorting.Sort(s.types.names, Sorting.StringLe)) else s.types,
       values := if s.values.Some? then Some(Sorting.Sort(s.values.value, LiteralLe(lit))) else None)
  }

  // ------------------------------------------------------------- the algorithm

  /** `_values`: the texts a schema's `enum` and `const` leave, or none when it has neither. */
  function Values(lit: Literal, s: Schema): Option<set<string>> {
    var listed := if s.values.Some? then Some(set v | v in s.values.value :: lit(v)) else None;
    if s.constant.None? then listed
    else
      var only := {lit(s.constant.value)};
      if listed.None? then Some(only) else Some(listed.value * only)
  }

  predicate IsUnion(s: Schema) {
    s.anyOf.Members? || s.oneOf.Members? || s.types.ManyTypes?
  }

  /** Whether a (normalized) schema uses nothing outside `_SUPPORTED` at its own level. */
  predicate OnlySupportedKeys(s: Schema) {
    s.foreign == map[] && s.annotations == map[] && s.minLength.None? && s.prefix.NoPrefix?
  }

  predicate Closed(s: Schema) {
    s.additional == AdditionalFlag(false)
  }

  predicate ObjectMatches(lit: Literal, source: Schema, target: Schema)
    decreases source, 0
  {
    var sourceProperties := PropertyMap(source);
    var targetProperties := PropertyMap(target);
    && (forall name :: name in RequiredNames(target) ==> name in RequiredNames(source))
    && (Closed(target) ==> Closed(source) && sourceProperties.Keys <= targetProperties.Keys)
    && !source.additional.AdditionalSchema?
    && !target.additional.AdditionalSchema?
    && forall name :: name in targetProperties ==>
         if name in sourceProperties then Compatible(lit, sourceProperties[name], targetProperties[name])
         else name !in RequiredNames(target) && Closed(source)
  }

  predicate Compatible(lit: Literal, source: Schema, target: Schema)
    decreases source, 1
  {
    if IsUnion(source) || IsUnion(target) then source == target
    else if source.types != target.types || source.types.NoType? || source.format != target.format
            || !OnlySupportedKeys(source) || !OnlySupportedKeys(target)
    then false
    else
      var sourceValues, targetValues := Values(lit, source), Values(lit, target);
      if targetValues.Some? && (sourceValues.None? || !(sourceValues.value <= targetValues.value)) then false
      else if source.types == OneType("array") then
        source.items.Items? && target.items.Items? && Compatible(lit, source.items.schema, target.items.schema)
      else if source.types == OneType("object") then ObjectMatches(lit, source, target)
      else true
  }

  predicate SupportedUnion(k: UnionKeyword)
    decreases k
  {
    k.Members? ==> forall i :: 0 <= i < |k.members| ==> Supported(k.members[i])
  }

  predicate Supported(s: Schema)
    decreases s
  {
    && s.foreign == map[] && s.minLength.None? && s.prefix.NoPrefix?
    && !s.additional.AdditionalSchema?
    && (s.properties.Properties? ==>
          forall name :: name in s.properties.schemas ==> Supported(s.properties.schemas[name]))
    && SupportedUnion(s.anyOf) && SupportedUnion(s.oneOf)
    && !s.items.ItemsFlag?
    && (s.items.Items? ==> Supported(s.items.schema))
  }

  function MinLength(s: Schema): nat {
    if s.minLength.Some? then s.minLength.value else 0
  }

  predicate ArgumentSchemaMatches(lit: Literal, source: Schema, target: Schema) {
    var source', target' := Normalized(lit, source), Normalized(lit, target);
    && MinLength(source') >= MinLength(target')
    && Supported(source'.(minLength := None))
    && Supported(target'.(minLength := None))
    && Compatible(lit, source'.(minLength := None), target'.(minLength := None))
  }

  // ------------------------------------- normalization does not change the meaning

  ghost predicate PlainUnion(k: UnionKeyword)
    decreases k
  {
    k.Members? ==> forall i :: 0 <= i < |k.members| ==> Plain(k.members[i])
  }

  /** No foreign keyword and no `prefixItems` here or in any subschema that normalization rewrites. */
  ghost predicate Plain(s: Schema)
    decreases s
  {
    && s.foreign == map[] && s.prefix.NoPrefix?
    && (s.properties.Properties? ==>
          forall name :: name in s.properties.schemas ==> Plain(s.properties.schemas[name]))
    && PlainUnion(s.anyOf) && PlainUnion(s.oneOf)
    && (s.items.Items? ==> Plain(s.items.schema))
  }

  lemma SortedNamesKeepType(names: seq<string>, v: Json)
    ensures TypeHolds(ManyTypes(Sorting.Sort(names, Sorting.StringLe)), v) <==> TypeHolds(ManyTypes(names), v)
  {
    var sorted := Sorting.Sort(names, Sorting.StringLe);
    forall i | 0 <= i < |names| && HasType(v, names[i]) ensures TypeHolds(ManyTypes(sorted), v) {
      Sorting.SortKeepsMembers(names, Sorting.StringLe, names[i]);
    }
    forall i | 0 <= i < |sorted| && HasType(v, sorted[i]) ensures TypeHolds(ManyTypes(names), v) {
      Sorting.SortKeepsMembers(names, Sorting.StringLe, sorted[i]);
    }
  }

  lemma NormalizedKeepsRequired(lit: Literal, s: Schema, name: string)
    ensures name in RequiredNames(Normalized(lit, s)) <==> name in RequiredNames(s)
  {
    if s.required.Some? {
      Sorting.SortKeepsMembers(s.required.value, Sorting.StringLe, name);
    }
  }

  lemma NormalizedKeepsScalars(m: Meaning, lit: Literal, s: Schema, v: Json)
    ensures ScalarKeywordsHold(m, Normalized(lit, s), v) <==> ScalarKeywordsHold(m, s, v)
  {
    hide TypeHolds, RequiredHolds, NormalizedProperties, NormalizedItems, NormalizedUnion, Sorting.Sort;
    if s.values.Some? {
      Sorting.SortKeepsMembers(s.values.value, LiteralLe(lit), v);
    }
    if s.types.ManyTypes? {
      SortedNamesKeepType(s.types.names, v);
    }
    NormalizedRequiresTheSame(lit, s, v);
  }

  lemma NormalizedRequiresTheSame(lit: Literal, s: Schema, v: Json)
    ensures RequiredHolds(Normalized(lit, s), v) <==> RequiredHolds(s, v)
  {
    hide Normalized, RequiredNames;
    forall name ensures name in RequiredNames(Normalized(lit, s)) <==> name in RequiredNames(s) {
      NormalizedKeepsRequired(lit, s, name);
    }
  }

  lemma {:induction false} NormalizedUnionKeepsVerdicts(m: Meaning, lit: Literal, k: UnionKeyword, v: Json)
    requires PlainUnion(k)
    ensures Verdicts(m, NormalizedUnion(lit, k), v) == Verdicts(m, k, v)
    decreases k
  {
    if k.Members? {
      var n := NormalizedUnion(lit, k);
      forall i | 0 <= i < |k.members|
        ensures Valid(m, n.members[i], v) == Valid(m, k.members[i], v)
      {
        NormalizedKeepsMeaning(m, lit, k.members[i], v);
      }
    }
  }

  lemma {:induction false} NormalizedPropertiesKeepMeaning(m: Meaning, lit: Literal, k: PropertiesKeyword, v: Json)
    requires k.Properties? ==> forall name :: name in k.schemas ==> Plain(k.schemas[name])
    ensures PropertiesHold(m, NormalizedProperties(lit, k), v) <==> PropertiesHold(m, k, v)
    decreases k
  {
    if v.JObject? && k.Properties? {
      var n := NormalizedProperties(lit, k);
      forall name | name in k.schemas && name in v.fields
        ensures Valid(m, n.schemas[name], v.fields[name]) <==> Valid(m, k.schemas[name], v.fields[name])
      {
        NormalizedKeepsMeaning(m, lit, k.schemas[name], v.fields[name]);
      }
    }
  }

  lemma {:induction false} NormalizedItemsKeepMeaning(m: Meaning, lit: Literal, k: ItemsKeyword, first: nat, v: Json)
    requires k.Items? ==> Plain(k.schema)
    ensures ItemsHold(m, NormalizedItems(lit, k), first, v) <==> ItemsHold(m, k, first, v)
    decreases k
  {
    if v.JArray? && k.Items? {
      var n := Normalized(lit, k.schema);
      assert NormalizedItems(lit, k) == Items(n);
      forall i | first <= i < |v.elements|
        ensures Valid(m, n, v.elements[i]) <==> Valid(m, k.schema, v.elements[i])
      {
        NormalizedKeepsMeaning(m, lit, k.schema, v.elements[i]);
      }
    }
  }

  lemma NormalizedParts(lit: Literal, s: Schema)
    ensures var n := Normalized(lit, s);
            && n.properties == NormalizedProperties(lit, s.properties)
            && n.items == NormalizedItems(lit, s.items)
            && n.anyOf == NormalizedUnion(lit, s.anyOf)
            && n.oneOf == NormalizedUnion(lit, s.oneOf)
  {
  }

  lemma NormalizedKeepsPropertyNames(lit: Literal, s: Schema)
    ensures PropertyMap(Normalized(lit, s)).Keys == PropertyMap(s).Keys
    ensures forall name :: name in PropertyMap(s) ==>
              PropertyMap(Normalized(lit, s))[name] == Normalized(lit, PropertyMap(s)[name])
  {
    assert Normalized(lit, s).properties == NormalizedProperties(lit, s.properties);
  }

  /** A normalized schema accepts exactly the values the schema accepts. */
  lemma {:induction false} NormalizedKeepsMeaning(m: Meaning, lit: Literal, s: Schema, v: Json)
    requires Plain(s)
    ensures Valid(m, Normalized(lit, s), v) <==> Valid(m, s, v)
    decreases s
  {
    hide Sorting.Sort, ScalarKeywordsHold, PropertiesHold, ItemsHold, Verdicts, RequiredNames;
    NormalizedParts(lit, s);
    NormalizedKeepsScalars(m, lit, s, v);
    NormalizedUnionKeepsVerdicts(m, lit, s.anyOf, v);
    NormalizedUnionKeepsVerdicts(m, lit, s.oneOf, v);
    NormalizedItemsKeepMeaning(m, lit, s.items, 0, v);
    NormalizedPropertiesKeepMeaning(m, lit, s.properties, v);
    NormalizedKeepsPropertyNames(lit, s);
  }

  lemma {:induction false} SupportedIsPlain(lit: Literal, s: Schema)
    requires Supported(Normalized(lit, s).(minLength := None))
    ensures Plain(s)
    decreases s
  {
    var n := Normalized(lit, s);
    NormalizedParts(lit, s);
    if s.properties.Properties? {
      forall name | name in s.properties.schemas ensures Plain(s.properties.schemas[name]) {
        assert Supported(n.properties.schemas[name]);
        SupportedIsPlain(lit, s.properties.schemas[name]);
      }
    }
    if s.items.Items? {
      assert n.items == Items(Normalized(lit, s.items.schema));
      SupportedIsPlain(lit, s.items.schema);
    }
    SupportedUnionIsPlain(lit, s.anyOf);
    SupportedUnionIsPlain(lit, s.oneOf);
  }

  lemma {:induction false} SupportedUnionIsPlain(lit: Literal, k: UnionKeyword)
    requires SupportedUnion(NormalizedUnion(lit, k))
    ensures PlainUnion(k)
    decreases k
  {
    if k.Members? {
      forall i | 0 <= i < |k.members| ensures Plain(k.members[i]) {
        assert Supported(NormalizedUnion(lit, k).members[i]);
        SupportedIsPlain(lit, k.members[i]);
      }
    }
  }

  // ------------------------------------------------------------------ soundness

  lemma ValuesBound(m: Meaning, lit: Literal, s: Schema, v: Json)
    requires Injective(lit)
    ensures (s.values.Some? ==> v in s.values.value) && (s.constant.Some? ==> v == s.constant.value)
            <==> (Values(lit, s).Some? ==> lit(v) in Values(lit, s).value)
  {
  }

  /** Soundness of `_compatible`: every value of the source is a value of the target. */
  lemma {:induction false} CompatibleIsSound(m: Meaning, lit: Literal, source: Schema, target: Schema, v: Json)
    requires Injective(lit)
    requires Compatible(lit, source, target) && Valid(m, source, v)
    ensures Valid(m, target, v)
    decreases source, 1
  {
    if !IsUnion(source) && !IsUnion(target) {
      ValuesBound(m, lit, source, v);
      ValuesBound(m, lit, target, v);
      if source.types == OneType("array") {
        forall i | 0 <= i < |v.elements| ensures Valid(m, target.items.schema, v.elements[i]) {
          CompatibleIsSound(m, lit, source.items.schema, target.items.schema, v.elements[i]);
        }
      } else if source.types == OneType("object") {
        ObjectMatchesIsSound(m, lit, source, target, v);
      }
    }
  }

  lemma {:induction false} ObjectMatchesIsSound(m: Meaning, lit: Literal, source: Schema, target: Schema, v: Json)
    requires Injective(lit)
    requires ObjectMatches(lit, source, target) && Valid(m, source, v) && v.JObject?
    requires OnlySupportedKeys(source) && OnlySupportedKeys(target)
    ensures RequiredHolds(target, v)
    ensures PropertiesHold(m, target.properties, v)
    ensures AdditionalHolds(m, target.additional, PropertyMap(target).Keys, v)
    decreases source, 0
  {
    if target.properties.Properties? {
      var schemas := target.properties.schemas;
      forall name | name in schemas && name in v.fields ensures Valid(m, schemas[name], v.fields[name]) {
        assert name in PropertyMap(target);
        if name in PropertyMap(source) {
          CompatibleIsSound(m, lit, PropertyMap(source)[name], schemas[name], v.fields[name]);
        }
      }
    }
  }

  /** `minLength` is checked apart from the rest of a schema. */
  lemma MinLengthSplits(m: Meaning, s: Schema, v: Json)
    requires s.foreign == map[]
    ensures Valid(m, s, v)
            <==> Valid(m, s.(minLength := None), v) && (v.JString? ==> MinLength(s) <= |v.s|)
  {
  }

  /** The promise of `argument_schema_matches`. */
  lemma ArgumentMatchIsSound(m: Meaning, lit: Literal, source: Schema, target: Schema, v: Json)
    requires Injective(lit)
    requires ArgumentSchemaMatches(lit, source, target)
    requires Valid(m, source, v)
    ensures Valid(m, target, v)
  {
    var source', target' := Normalized(lit, source), Normalized(lit, target);
    SupportedIsPlain(lit, source);
    SupportedIsPlain(lit, target);
    NormalizedKeepsMeaning(m, lit, source, v);
    MinLengthSplits(m, source', v);
    CompatibleIsSound(m, lit, source'.(minLength := None), target'.(minLength := None), v);
    MinLengthSplits(m, target', v);
    NormalizedKeepsMeaning(m, lit, target, v);
  }

  // ------------------------------------------------------------------ a preorder

  /** The schemas the matcher can compare at all: typed throughout, or a union. */
  predicate Comparable(s: Schema)
    decreases s
  {
    || IsUnion(s)
    || (&& s.types.OneType? && OnlySupportedKeys(s)
        && (s.types.name == "array" ==> s.items.Items? && Comparable(s.items.schema))
        && (s.types.name == "object" ==>
              && !s.additional.AdditionalSchema?
              && (s.properties.Properties? ==>
                    forall name :: name in s.properties.schemas ==> Comparable(s.properties.schemas[name]))))
  }

  /** The matcher accepts a schema against itself exactly when it is comparable. */
  lemma {:induction false} CompatibleWithItself(lit: Literal, s: Schema)
    ensures Compatible(lit, s, s) <==> Comparable(s)
    decreases s
  {
    if !IsUnion(s) && s.types.OneType? && OnlySupportedKeys(s) {
      if s.types.name == "array" && s.items.Items? {
        CompatibleWithItself(lit, s.items.schema);
      } else if s.types.name == "object" && s.properties.Properties? {
        forall name | name in s.properties.schemas
          ensures Compatible(lit, s.properties.schemas[name], s.properties.schemas[name])
                  <==> Comparable(s.properties.schemas[name])
        {
          CompatibleWithItself(lit, s.properties.schemas[name]);
        }
        var schemas := s.properties.schemas;
        assert ObjectMatches(lit, s, s) <==>
               (!s.additional.AdditionalSchema?
                && forall name :: name in schemas ==> Compatible(lit, schemas[name], schemas[name]));
      }
    }
  }

  lemma {:induction false} CompatibleIsTransitive(lit: Literal, a: Schema, b: Schema, c: Schema)
    requires Compatible(lit, a, b) && Compatible(lit, b, c)
    ensures Compatible(lit, a, c)
    decreases a
  {
    if !IsUnion(a) && !IsUnion(b) && !IsUnion(c) {
      if a.types == OneType("array") {
        CompatibleIsTransitive(lit, a.items.schema, b.items.schema, c.items.schema);
      } else if a.types == OneType("object") {
        var inA, inB, inC := PropertyMap(a), PropertyMap(b), PropertyMap(c);
        forall name | name in inC && name in inA ensures Compatible(lit, inA[name], inC[name]) {
          if name in inB {
            assert name in a.properties.schemas;
            CompatibleIsTransitive(lit, inA[name], inB[name], inC[name]);
          }
        }
        assert ObjectMatches(lit, a, c);
      }
    }
  }

  /** Arguments may be passed on: a chain of matches is a match. */
  lemma ArgumentMatchIsTransitive(lit: Literal, a: Schema, b: Schema, c: Schema)
    requires ArgumentSchemaMatches(lit, a, b) && ArgumentSchemaMatches(lit, b, c)
    ensures ArgumentSchemaMatches(lit, a, c)
  {
    CompatibleIsTransitive(lit, Normalized(lit, a).(minLength := None),
                           Normalized(lit, b).(minLength := None),
                           Normalized(lit, c).(minLength := None));
  }
}
