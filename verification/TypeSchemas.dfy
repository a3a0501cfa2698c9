/** The JSON Schema rendering of the models file's types, and that it means what the types say
    (`framework/spec/types.py`). */
module TypeSchemas {
  import opened Options
  import TypeSpec
  import opened JsonSchema

  /** Every primitive name is one of the grammar's. */
  predicate WellFormed(t: TypeSpec.Type) {
    match t
    case Primitive(name) => name in TypeSpec.Primitives
    case ListOf(of) => WellFormed(of)
    case DictOf(key, value) => WellFormed(key) && WellFormed(value)
    case OptionalOf(inner) => WellFormed(inner)
    case EnumOf(_, _) => true
  }

  function PrimitiveSchema(name: string): Schema {
    if name == "int" then Anything.(types := OneType("integer"))
    else if name == "string" then Anything.(types := OneType("string"))
    else if name == "bool" then Anything.(types := OneType("boolean"))
    else if name == "float" then Anything.(types := OneType("number"))
    else if name == "datetime" then Anything.(types := OneType("string"), format := Some("date-time"))
    else if name == "uuid" then Anything.(types := OneType("string"), format := Some("uuid"))
    else Anything
  }

  function ListSchema(item: Schema): Schema {
    Anything.(types := OneType("array"), items := Items(item))
  }

  function DictSchema(value: Schema): Schema {
    Anything.(types := OneType("object"), additional := AdditionalSchema(value))
  }

  const NullSchema: Schema := Anything.(types := OneType("null"))

  function OptionalSchema(inner: Schema): Schema {
    Anything.(anyOf := Members([inner, NullSchema]))
  }

  function Strings(values: seq<string>): seq<Json> {
    seq(|values|, i requires 0 <= i < |values| => JString(values[i]))
  }

  function EnumSchema(values: seq<string>, default: Option<string>): Schema {
    Anything.(types := OneType("string"), values := Some(Strings(values)),
              annotations := if default.Some? then map["default" := JString(default.value)] else map[])
  }

  /** `_JsonSchemaRenderer` */
  function SchemaRenderer(): TypeSpec.Renderer<Schema> {
    TypeSpec.Renderer(
      PrimitiveSchema,
      ListSchema,
      (key, value) => DictSchema(value),
      OptionalSchema,
      EnumSchema)
  }

  function SchemaOf(t: TypeSpec.Type): Schema {
    TypeSpec.Fold(t, SchemaRenderer())
  }

  /** The values of a type. A dict says nothing about its keys beyond their being names. */
  ghost predicate Belongs(m: Meaning, v: Json, t: TypeSpec.Type)
    decreases t
  {
    match t
    case Primitive(name) =>
      && (name == "int" ==> v.JInteger?)
      && (name == "string" ==> v.JString?)
      && (name == "bool" ==> v.JBool?)
      && (name == "float" ==> v.JInteger? || v.JFraction?)
      && (name == "datetime" ==> v.JString? && m.format("date-time", v))
      && (name == "uuid" ==> v.JString? && m.format("uuid", v))
    case ListOf(of) => v.JArray? && forall i :: 0 <= i < |v.elements| ==> Belongs(m, v.elements[i], of)
    case DictOf(key, value) => v.JObject? && forall name :: name in v.fields ==> Belongs(m, v.fields[name], value)
    case OptionalOf(inner) => v.JNull? || Belongs(m, v, inner)
    case EnumOf(values, _) => v.JString? && v.s in values
  }

  /** The rendered schema accepts exactly the values of the type. */
  lemma {:induction false} SchemaMeansType(m: Meaning, t: TypeSpec.Type, v: Json)
    requires WellFormed(t)
    ensures Valid(m, SchemaOf(t), v) <==> Belongs(m, v, t)
    decreases t
  {
    hide Valid, TypeSpec.Fold;
    RenderedParts(t);
    match t
    case Primitive(name) => PrimitiveMeansType(m, name, v);
    case ListOf(of) =>
      ListMeansAll(m, SchemaOf(of), v);
      if v.JArray? {
        forall i | 0 <= i < |v.elements|
          ensures Valid(m, SchemaOf(of), v.elements[i]) <==> Belongs(m, v.elements[i], of)
        {
          SchemaMeansType(m, of, v.elements[i]);
        }
      }
    case DictOf(_, value) =>
      DictMeansAll(m, SchemaOf(value), v);
      if v.JObject? {
        forall name | name in v.fields
          ensures Valid(m, SchemaOf(value), v.fields[name]) <==> Belongs(m, v.fields[name], value)
        {
          SchemaMeansType(m, value, v.fields[name]);
        }
      }
    case OptionalOf(inner) =>
      SchemaMeansType(m, inner, v);
      OptionalMeansNullable(m, SchemaOf(inner), v);
    case EnumOf(values, default) => EnumMeansMember(m, values, default, v);
  }

  /** The fold renders a type from its rendered parts. */
  lemma RenderedParts(t: TypeSpec.Type)
    ensures match t
            case Primitive(name) => SchemaOf(t) == PrimitiveSchema(name)
            case ListOf(of) => SchemaOf(t) == ListSchema(SchemaOf(of))
            case DictOf(_, value) => SchemaOf(t) == DictSchema(SchemaOf(value))
            case OptionalOf(inner) => SchemaOf(t) == OptionalSchema(SchemaOf(inner))
            case EnumOf(values, default) => SchemaOf(t) == EnumSchema(values, default)
  {
  }

  /** A schema with nothing but a type and a format. */
  lemma TypedSchemaMeans(m: Meaning, s: Schema, v: Json)
    requires s == Anything.(types := s.types, format := s.format)
    ensures Valid(m, s, v) <==> TypeHolds(s.types, v) && (s.format.Some? ==> m.format(s.format.value, v))
  {
  }

  lemma PrimitiveMeansType(m: Meaning, name: string, v: Json)
    requires name in TypeSpec.Primitives
    ensures Valid(m, PrimitiveSchema(name), v) <==> Belongs(m, v, TypeSpec.Primitive(name))
  {
    hide Valid;
    TypedSchemaMeans(m, PrimitiveSchema(name), v);
  }

  lemma ListMeansAll(m: Meaning, item: Schema, v: Json)
    ensures Valid(m, ListSchema(item), v) <==>
              v.JArray? && forall i :: 0 <= i < |v.elements| ==> Valid(m, item, v.elements[i])
  {
  }

  lemma DictMeansAll(m: Meaning, value: Schema, v: Json)
    ensures Valid(m, DictSchema(value), v) <==>
              v.JObject? && forall name :: name in v.fields ==> Valid(m, value, v.fields[name])
  {
  }

  lemma OptionalMeansNullable(m: Meaning, inner: Schema, v: Json)
    ensures Valid(m, OptionalSchema(inner), v) <==> v.JNull? || Valid(m, inner, v)
  {
    var verdicts := Verdicts(m, OptionalSchema(inner).anyOf, v);
    assert verdicts[0] == Valid(m, inner, v);
    assert verdicts[1] == Valid(m, NullSchema, v);
    assert Valid(m, NullSchema, v) <==> v.JNull?;
  }

  lemma EnumMeansMember(m: Meaning, values: seq<string>, default: Option<string>, v: Json)
    ensures Valid(m, EnumSchema(values, default), v) <==> v.JString? && v.s in values
  {
    if v.JString? && v.s in values {
      var i :| 0 <= i < |values| && values[i] == v.s;
      assert Strings(values)[i] == v;
    }
    if v in Strings(values) {
      var i :| 0 <= i < |values| && Strings(values)[i] == v;
      assert values[i] == v.s;
    }
  }
}
