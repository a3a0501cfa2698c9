/** JSON values, the keywords of a JSON Schema that the matcher looks at, and what a schema
    means for a value (JSON Schema Draft 2020-12). */
module JsonSchema {
  import opened Options

  /** A number is whole, or it is the one decimal text of its value. */
  datatype Json =
    | JNull
    | JBool(b: bool)
    | JInteger(n: int)
    | JFraction(text: string)
    | JString(s: string)
    | JArray(elements: seq<Json>)
    | JObject(fields: map<string, Json>)

  datatype TypeKeyword = NoType | OneType(name: string) | ManyTypes(names: seq<string>)
  datatype ItemsKeyword = NoItems | Items(schema: Schema) | ItemsFlag(allowed: bool)
  datatype PrefixKeyword = NoPrefix | Prefix(schemas: seq<Schema>)
  datatype PropertiesKeyword = NoProperties | Properties(schemas: map<string, Schema>)
  datatype AdditionalKeyword = NoAdditional | AdditionalFlag(allowed: bool) | AdditionalSchema(schema: Schema)
  datatype UnionKeyword = NoUnion | Members(members: seq<Schema>)

  /** One schema object. `annotations` are keywords without effect on validity; `foreign`
      holds every keyword the matcher does not model. */
  datatype Schema = Schema(
    types: TypeKeyword,
    format: Option<string>,
    values: Option<seq<Json>>,
    constant: Option<Json>,
    prefix: PrefixKeyword,
    items: ItemsKeyword,
    properties: PropertiesKeyword,
    required: Option<seq<string>>,
    additional: AdditionalKeyword,
    anyOf: UnionKeyword,
    oneOf: UnionKeyword,
    minLength: Option<nat>,
    annotations: map<string, Json>,
    foreign: map<string, Json>)

  const Anything := Schema(NoType, None, None, None, NoPrefix, NoItems, NoProperties, None,
                           NoAdditional, NoUnion, NoUnion, None, map[], map[])

  /** What lies outside the model: which values a format accepts, and which values the
      foreign keywords of a schema accept. */
  datatype Meaning = Meaning(format: (string, Json) -> bool, foreign: (Schema, Json) -> bool)

  function PropertyMap(s: Schema): map<string, Schema> {
    if s.properties.Properties? then s.properties.schemas else map[]
  }

  function RequiredNames(s: Schema): seq<string> {
    if s.required.Some? then s.required.value else []
  }

  /** Section 6.1.1 of JSON Schema Validation: an integer is a number without fraction. */
  predicate HasType(v: Json, name: string) {
    match v
    case JNull => name == "null"
    case JBool(_) => name == "boolean"
    case JInteger(_) => name == "number" || name == "integer"
    case JFraction(_) => name == "number"
    case JString(_) => name == "string"
    case JArray(_) => name == "array"
    case JObject(_) => name == "object"
  }

  predicate TypeHolds(k: TypeKeyword, v: Json) {
    match k
    case NoType => true
    case OneType(name) => HasType(v, name)
    case ManyTypes(names) => exists i :: 0 <= i < |names| && HasType(v, names[i])
  }

  predicate RequiredHolds(s: Schema, v: Json) {
    v.JObject? ==> forall k :: k in RequiredNames(s) ==> k in v.fields
  }

  /** Keywords that look at the value alone, without a subschema. */
  predicate ScalarKeywordsHold(m: Meaning, s: Schema, v: Json) {
    && TypeHolds(s.types, v)
    && (s.format.Some? ==> m.format(s.format.value, v))
    && (s.values.Some? ==> v in s.values.value)
    && (s.constant.Some? ==> v == s.constant.value)
    && (s.minLength.Some? && v.JString? ==> s.minLength.value <= |v.s|)
    && RequiredHolds(s, v)
  }

  ghost predicate PropertiesHold(m: Meaning, k: PropertiesKeyword, v: Json)
    decreases k
  {
    k.Properties? && v.JObject? ==>
      forall name :: name in k.schemas && name in v.fields ==> Valid(m, k.schemas[name], v.fields[name])
  }

  function PrefixLength(k: PrefixKeyword): nat {
    if k.Prefix? then |k.schemas| else 0
  }

  /** `prefixItems` describes the first elements, each by its own schema. */
  ghost predicate PrefixHolds(m: Meaning, k: PrefixKeyword, v: Json)
    decreases k
  {
    v.JArray? && k.Prefix? ==>
      forall i :: 0 <= i < |k.schemas| && i < |v.elements| ==> Valid(m, k.schemas[i], v.elements[i])
  }

  /** `items` governs the elements from position `first` on. */
  ghost predicate ItemsHold(m: Meaning, k: ItemsKeyword, first: nat, v: Json)
    decreases k
  {
    v.JArray? ==>
      match k
      case NoItems => true
      case Items(item) => forall i :: first <= i < |v.elements| ==> Valid(m, item, v.elements[i])
      case ItemsFlag(allowed) => allowed || |v.elements| <= first
  }

  /** `additionalProperties` governs the fields `properties` does not name. */
  ghost predicate AdditionalHolds(m: Meaning, k: AdditionalKeyword, named: set<string>, v: Json)
    decreases k
  {
    v.JObject? ==>
      match k
      case NoAdditional => true
      case AdditionalFlag(allowed) => allowed || v.fields.Keys <= named
      case AdditionalSchema(extra) =>
        forall name :: name in v.fields && name !in named ==> Valid(m, extra, v.fields[name])
  }

  /** The verdict of every member of a union on one value. */
  ghost function Verdicts(m: Meaning, k: UnionKeyword, v: Json): (r: seq<bool>)
    ensures |r| == if k.Members? then |k.members| else 0
    decreases k, 0
  {
    match k
    case NoUnion => []
    case Members(members) => seq(|members|, i requires 0 <= i < |members| => Valid(m, members[i], v))
  }

  predicate ExactlyOne(verdicts: seq<bool>) {
    exists i :: 0 <= i < |verdicts| && verdicts[i]
                && forall j :: 0 <= j < |verdicts| && j != i ==> !verdicts[j]
  }

  ghost predicate AnyOfHolds(m: Meaning, k: UnionKeyword, v: Json)
    decreases k, 1
  {
    k.Members? ==> true in Verdicts(m, k, v)
  }

  ghost predicate OneOfHolds(m: Meaning, k: UnionKeyword, v: Json)
    decreases k, 1
  {
    k.Members? ==> ExactlyOne(Verdicts(m, k, v))
  }

  /** Validity of a value. `patternProperties` would narrow the reach of
      `additionalProperties`; where it occurs, its effect belongs to `foreign`. */
  ghost predicate Valid(m: Meaning, s: Schema, v: Json)
    decreases s
  {
    && ScalarKeywordsHold(m, s, v)
    && PropertiesHold(m, s.properties, v)
    && AnyOfHolds(m, s.anyOf, v)
    && OneOfHolds(m, s.oneOf, v)
    && PrefixHolds(m, s.prefix, v)
    && ItemsHold(m, s.items, PrefixLength(s.prefix), v)
    && ("patternProperties" !in s.foreign ==> AdditionalHolds(m, s.additional, PropertyMap(s).Keys, v))
    && (s.foreign != map[] ==> m.foreign(s, v))
  }

  // ------------------------------------------------------------ schemas of objects

  /** The types of the values that are not objects. */
  const OtherTypes := {"null", "boolean", "integer", "number", "string", "array"}

  /** `type` names no type but that of objects. */
  predicate OnlyObjects(k: TypeKeyword) {
    match k
    case NoType => false
    case OneType(name) => name !in OtherTypes
    case ManyTypes(names) => forall i :: 0 <= i < |names| ==> names[i] !in OtherTypes
  }

  /** A schema of type, properties, required and additionalProperties, annotations aside. */
  predicate FourKeywords(s: Schema) {
    s == Anything.(types := s.types, properties := s.properties, required := s.required,
                   additional := s.additional, annotations := s.annotations)
  }

  /** A value of a type that is not an object. */
  function Sample(name: string): Json {
    if name == "null" then JNull
    else if name == "boolean" then JBool(true)
    else if name == "integer" || name == "number" then JInteger(0)
    else if name == "string" then JString("")
    else JArray([])
  }

  /** A value some `type` admits beside objects. */
  function OtherSample(k: TypeKeyword): Json
    requires !OnlyObjects(k)
    decreases if k.ManyTypes? then |k.names| else 0
  {
    match k
    case NoType => JNull
    case OneType(name) => Sample(name)
    case ManyTypes(names) =>
      if names[0] in OtherTypes then Sample(names[0]) else OtherSample(ManyTypes(names[1..]))
  }

  lemma {:induction false} OtherSampleHasType(k: TypeKeyword)
    requires !OnlyObjects(k)
    ensures TypeHolds(k, OtherSample(k)) && !OtherSample(k).JObject?
    decreases if k.ManyTypes? then |k.names| else 0
  {
    if k.ManyTypes? && k.names[0] !in OtherTypes {
      var rest := ManyTypes(k.names[1..]);
      assert !OnlyObjects(rest);
      OtherSampleHasType(rest);
      var i :| 0 <= i < |rest.names| && HasType(OtherSample(k), rest.names[i]);
      assert k.names[i + 1] == rest.names[i];
    }
  }

  /** Every valid value of a schema is an object if its `type` names no other type; for a schema
      of the four keywords this is exact. */
  lemma ObjectsExactly(m: Meaning, s: Schema)
    ensures OnlyObjects(s.types) ==> forall v :: Valid(m, s, v) ==> v.JObject?
    ensures FourKeywords(s) && !OnlyObjects(s.types) ==>
              Valid(m, s, OtherSample(s.types)) && !OtherSample(s.types).JObject?
  {
    if !OnlyObjects(s.types) {
      OtherSampleHasType(s.types);
    }
  }
}
