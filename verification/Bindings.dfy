/** Binding admission, `framework/bindings.py` and `framework/bindings_v2.py`, against what the
    generated channel code does with an admitted binding
    (`framework/templates/codegen/bindings.py.j2`).

    A raised error of either side is a false predicate or a missing value here. */
module Bindings {
  import opened Options
  import opened JsonSchema
  import opened ComponentMatching
  import opened PrimaryEdges

  // ------------------------------------------------------------------ data model

  /** `$name` or `$name.field`. */
  datatype Reference = Whole(context: string) | Field(context: string, name: string)

  datatype Part = Text(text: string) | Display(source: Reference, monthWord: bool)

  datatype Call = Call(action: string, args: map<string, Reference>, reply: seq<Part>)

  datatype Action = Action(name: string, input: Schema, output: Schema, errors: set<string>)
  datatype Message = Message(schema: Schema, recipient: Option<string>)
  datatype Manifest = Manifest(name: string, actions: seq<Action>, publishes: map<string, Message>)

  datatype LibraryFunction = LibraryFunction(name: string, input: Schema, output: Schema, value: string)

  datatype Filter = Filter(field: string, equals: string)

  datatype Command =
    | ParsedCreate(call: Call, parser: string, lang: string, presets: seq<Call>)
    | Listed(action: string, args: map<string, Reference>, filter: Option<Filter>,
             replyEach: seq<Part>, buttons: seq<Call>)
    | TextCreate(call: Call, onError: set<string>)

  datatype EventReply = EventReply(event: string, to: Reference, reply: seq<Part>)

  datatype Binding = Binding(version: nat, package: string, hasTimezone: bool,
                             commands: seq<Command>, events: seq<EventReply>)

  type Contexts = map<string, Schema>

  const TextSchema: Schema := TypedString.(minLength := Some(1))
  const ClockSchema: Schema := TypedString.(format := Some("date-time"))
  const TimezoneSchema: Schema := TypedString.(format := Some("x-iana-tz"))
  const TypedString: Schema := Anything.(types := OneType("string"))
  const PresetSchema: Schema := Anything.(properties := Properties(map["at" := ClockSchema]), required := Some(["at"]))

  // ------------------------------------------------------------------- admission

  /** The grammar of references: what the channel supplies is read whole, and everything else
      by one of its fields. */
  predicate InGrammar(ref: Reference) {
    match ref
    case Whole(context) => context in {"text", "clock", "timezone"}
    case Field(context, name) =>
      context in {"parsed", "item", "event", "result"} || (context == "preset" && name == "at")
  }

  predicate CallInGrammar(call: Call) {
    (forall name :: name in call.args ==> InGrammar(call.args[name])) && ReplyInGrammar(call.reply)
  }

  predicate ReplyInGrammar(reply: seq<Part>) {
    forall i :: 0 <= i < |reply| && reply[i].Display? ==> InGrammar(reply[i].source)
  }

  /** What reading a binding from its file has checked of the references. */
  predicate CommandInGrammar(command: Command) {
    match command
    case ParsedCreate(call, _, _, presets) =>
      CallInGrammar(call) && forall i :: 0 <= i < |presets| ==> CallInGrammar(presets[i])
    case Listed(_, args, _, replyEach, buttons) =>
      && (forall name :: name in args ==> InGrammar(args[name]))
      && ReplyInGrammar(replyEach)
      && forall i :: 0 <= i < |buttons| ==> CallInGrammar(buttons[i])
    case TextCreate(call, _) => CallInGrammar(call)
  }

  predicate HasField(s: Schema, name: string) {
    name in RequiredNames(s) && name in PropertyMap(s)
  }

  /** `_source`: the schema a reference stands for, or none where the code refuses. */
  function Source(ref: Reference, contexts: Contexts): Option<Schema> {
    if ref.context !in contexts then None
    else match ref
      case Whole(context) => Some(contexts[context])
      case Field(context, name) =>
        if HasField(contexts[context], name) then Some(PropertyMap(contexts[context])[name]) else None
  }

  /** `_action`: the first declared action of that qualified name. */
  function FindAction(name: string, packageName: string, actions: seq<Action>): Option<Action> {
    if actions == [] then None
    else if name == packageName + "." + actions[0].name then Some(actions[0])
    else FindAction(name, packageName, actions[1..])
  }

  function FindFunction(name: string, functions: seq<LibraryFunction>): Option<LibraryFunction> {
    if functions == [] then None
    else if name == functions[0].name then Some(functions[0])
    else FindFunction(name, functions[1..])
  }

  /** The declared action of a name, or one that offers nothing. */
  function ActionOf(name: string, manifest: Manifest): Action {
    var found := FindAction(name, manifest.name, manifest.actions);
    if found.Some? then found.value else Action("", Anything, Anything, {})
  }

  function FunctionOf(name: string, functions: seq<LibraryFunction>): LibraryFunction {
    var found := FindFunction(name, functions);
    if found.Some? then found.value else LibraryFunction("", Anything, Anything, "")
  }

  /** `_arguments` */
  predicate ArgumentsAdmitted(lit: Literal, args: map<string, Reference>, input: Schema, contexts: Contexts) {
    && input.properties.Properties?
    && args.Keys <= PropertyMap(input).Keys
    && (forall name :: name in RequiredNames(input) ==> name in args)
    && forall name :: name in args ==>
         && Source(args[name], contexts).Some?
         && name in PropertyMap(input)
         && ArgumentSchemaMatches(lit, Source(args[name], contexts).value, PropertyMap(input)[name])
  }

  /** `_reply`, and `_localized_reply` of version 2. */
  predicate ReplyAdmitted(lit: Literal, reply: seq<Part>, contexts: Contexts, hasTimezone: bool) {
    forall i :: 0 <= i < |reply| && reply[i].Display? ==>
      && Source(reply[i].source, contexts).Some?
      && ArgumentSchemaMatches(lit, Source(reply[i].source, contexts).value,
                               if reply[i].monthWord then ClockSchema else TypedString)
      && (reply[i].monthWord ==> hasTimezone)
  }

  /** `_call` and `_call_v2` */
  predicate CallAdmitted(lit: Literal, call: Call, manifest: Manifest, contexts: Contexts, hasTimezone: bool) {
    var action := FindAction(call.action, manifest.name, manifest.actions);
    && action.Some?
    && ArgumentsAdmitted(lit, call.args, action.value.input, contexts)
    && ReplyAdmitted(lit, call.reply, map["result" := action.value.output], hasTimezone)
  }

  const ParseArguments := map["text" := Whole("text"), "now" := Whole("clock"),
                              "tz" := Whole("timezone"), "lang" := Whole("language")]

  function ParseContexts(lang: string): Contexts {
    map["text" := TextSchema, "clock" := ClockSchema, "timezone" := TimezoneSchema,
        "language" := TypedString.(constant := Some(JString(lang)))]
  }

  /** The parser's result after the guard on `rest`, as the create call sees it. */
  function ParsedSchema(lit: Literal, parser: LibraryFunction): Schema {
    var parsed := NonNullSchema(lit, parser.output);
    var properties := PropertyMap(parsed);
    if "rest" in properties
    then parsed.(properties := Properties(properties["rest" := properties["rest"].(minLength := Some(1))]))
    else parsed
  }

  predicate ParsedCommandAdmitted(lit: Literal, command: Command, manifest: Manifest, functions: seq<LibraryFunction>)
    requires command.ParsedCreate?
  {
    var parser := FindFunction(command.parser, functions);
    var action := FindAction(command.call.action, manifest.name, manifest.actions);
    && command.parser == "textparse.when"
    && parser.Some?
    && ArgumentsAdmitted(lit, ParseArguments, parser.value.input, ParseContexts(command.lang))
    && (var parsed := NonNullSchema(lit, parser.value.output);
        HasField(parsed, "rest") && PropertyMap(parsed)["rest"].types == OneType("string"))
    && action.Some?
    && command.call.args == map["text" := Field("parsed", "rest"), "remind_at" := Field("parsed", "at")]
    && (var parameters := PropertyMap(action.value.input);
        PrimaryOutputMatches(lit, parser.value.output, parser.value.value,
                             if "remind_at" in parameters then parameters["remind_at"] else Anything))
    && CallAdmitted(lit, command.call, manifest, map["parsed" := ParsedSchema(lit, parser.value)], true)
    && forall i :: 0 <= i < |command.presets| ==>
         && command.presets[i].action == command.call.action
         && command.presets[i].args == map["text" := Whole("text"), "remind_at" := Field("preset", "at")]
         && CallAdmitted(lit, command.presets[i], manifest, map["text" := TextSchema, "preset" := PresetSchema], true)
  }

  /** The filter value is checked by a plain validator, which asserts no format. */
  function WithoutFormats(m: Meaning): Meaning {
    m.(format := (name: string, v: Json) => true)
  }

  ghost predicate ListedCommandAdmitted(m: Meaning, lit: Literal, command: Command, manifest: Manifest,
                                        hasTimezone: bool)
    requires command.Listed?
  {
    var action := FindAction(command.action, manifest.name, manifest.actions);
    && action.Some?
    && ArgumentsAdmitted(lit, command.args, action.value.input, map[])
    && action.value.output.types == OneType("array")
    && action.value.output.items.Items?
    && var item := action.value.output.items.schema;
    && (command.filter.Some? ==>
          && HasField(item, command.filter.value.field)
          && Valid(WithoutFormats(m), PropertyMap(item)[command.filter.value.field],
                   JString(command.filter.value.equals)))
    && ReplyAdmitted(lit, command.replyEach, map["item" := item], hasTimezone)
    && forall i :: 0 <= i < |command.buttons| ==>
         CallAdmitted(lit, command.buttons[i], manifest, map["item" := item], hasTimezone)
  }

  predicate TextCommandAdmitted(lit: Literal, command: Command, manifest: Manifest, hasTimezone: bool)
    requires command.TextCreate?
  {
    var action := FindAction(command.call.action, manifest.name, manifest.actions);
    && |command.call.args| == 1
    && (forall name :: name in command.call.args ==> command.call.args[name] == Whole("text"))
    && CallAdmitted(lit, command.call, manifest, map["text" := TextSchema], hasTimezone)
    && action.Some? && command.onError <= action.value.errors
  }

  predicate EventAdmitted(lit: Literal, event: EventReply, manifest: Manifest, hasTimezone: bool) {
    && event.event in manifest.publishes
    && var message := manifest.publishes[event.event];
    && message.recipient.Some?
    && event.to == Field("event", message.recipient.value)
    && var contexts := map["event" := message.schema];
    && Source(event.to, contexts).Some?
    && ArgumentSchemaMatches(lit, Source(event.to, contexts).value, TypedString)
    && ReplyAdmitted(lit, event.reply, contexts, hasTimezone)
  }

  /** `validate_binding` and `validate_binding_v2`. Version 1 always declares its timezone
      and has no text command; version 2 has no parsed command. */
  ghost predicate BindingAdmitted(m: Meaning, lit: Literal, binding: Binding, manifest: Manifest,
                                  functions: seq<LibraryFunction>)
  {
    && binding.package == manifest.name
    && (forall i :: 0 <= i < |binding.commands| ==> CommandInGrammar(binding.commands[i]))
    && (forall i :: 0 <= i < |binding.events| ==> ReplyInGrammar(binding.events[i].reply))
    && (forall i :: 0 <= i < |binding.commands| ==>
          match binding.commands[i]
          case ParsedCreate(_, _, _, _) =>
            binding.version == 1 && ParsedCommandAdmitted(lit, binding.commands[i], manifest, functions)
          case Listed(_, _, _, _, _) =>
            ListedCommandAdmitted(m, lit, binding.commands[i], manifest, binding.version == 1 || binding.hasTimezone)
          case TextCreate(_, _) =>
            binding.version == 2 && TextCommandAdmitted(lit, binding.commands[i], manifest, binding.hasTimezone))
    && forall i :: 0 <= i < |binding.events| ==>
         EventAdmitted(lit, binding.events[i], manifest, binding.version == 1 || binding.hasTimezone)
  }

  // --------------------------------------------------------------------- runtime

  type Values = map<string, Json>

  /** `reference`: a value looked up in the contexts, or none for a missing key. */
  function Resolve(ref: Reference, values: Values): Option<Json> {
    if ref.context !in values then None
    else match ref
      case Whole(context) => Some(values[context])
      case Field(context, name) =>
        var v := values[context];
        if v.JObject? && name in v.fields then Some(v.fields[name]) else None
  }

  /** The argument object `call` builds, or none if some reference cannot be resolved. */
  function BuiltArguments(args: map<string, Reference>, values: Values): Option<Json> {
    if forall name :: name in args ==> Resolve(args[name], values).Some?
    then Some(JObject(map name | name in args :: Resolve(args[name], values).value))
    else None
  }

  /** `check(action["input"], arguments)` passes. */
  ghost predicate CallSucceeds(m: Meaning, args: map<string, Reference>, input: Schema, values: Values) {
    var built := BuiltArguments(args, values);
    built.Some? && Valid(m, input, built.value)
  }

  /** Every displayed value is there, is text, and is an instant where a date is shown. */
  ghost predicate ReplyRenders(m: Meaning, reply: seq<Part>, values: Values) {
    forall i :: 0 <= i < |reply| && reply[i].Display? ==>
      var v := Resolve(reply[i].source, values);
      v.Some? && v.value.JString? && (reply[i].monthWord ==> m.format("date-time", v.value))
  }

  // ------------------------------------------------------------------- soundness

  /** What a reference needs from the value of its context. */
  ghost predicate Offers(m: Meaning, s: Schema, v: Json) {
    && v.JObject?
    && (forall name :: name in RequiredNames(s) ==> name in v.fields)
    && forall name :: name in PropertyMap(s) && name in v.fields && Plain(PropertyMap(s)[name]) ==>
         Valid(m, PropertyMap(s)[name], v.fields[name])
  }

  ghost predicate ContextHolds(m: Meaning, ref: Reference, contexts: Contexts, values: Values) {
    ref.context in contexts ==>
      && ref.context in values
      && if ref.Whole? then Valid(m, contexts[ref.context], values[ref.context])
         else Offers(m, contexts[ref.context], values[ref.context])
  }

  /** The keywords an action input is limited to. */
  predicate IsPlainInput(s: Schema) {
    FourKeywords(s) && s.types == OneType("object")
  }

  lemma ValidObjectOffers(m: Meaning, s: Schema, v: Json)
    requires Valid(m, s, v) && v.JObject?
    ensures Offers(m, s, v)
  {
  }

  lemma ReferenceIsSound(m: Meaning, lit: Literal, ref: Reference, contexts: Contexts, values: Values, target: Schema)
    requires Injective(lit)
    requires Source(ref, contexts).Some? && ArgumentSchemaMatches(lit, Source(ref, contexts).value, target)
    requires ContextHolds(m, ref, contexts, values)
    ensures Resolve(ref, values).Some? && Valid(m, target, Resolve(ref, values).value)
  {
    var source := Source(ref, contexts).value;
    SupportedIsPlain(lit, source);
    ArgumentMatchIsSound(m, lit, source, target, Resolve(ref, values).value);
  }

  /** The verdict of the keywords beyond type, properties, required and additionalProperties. */
  ghost predicate OtherKeywordsHold(m: Meaning, s: Schema, v: Json) {
    && (s.format.Some? ==> m.format(s.format.value, v))
    && (s.values.Some? ==> v in s.values.value)
    && (s.constant.Some? ==> v == s.constant.value)
    && AnyOfHolds(m, s.anyOf, v)
    && OneOfHolds(m, s.oneOf, v)
    && (s.foreign != map[] ==> m.foreign(s, v))
  }

  /** Admitted arguments always build an object, and the input schema of an action accepts it
      exactly when its keywords beyond those admission compares do. */
  lemma ArgumentsFitExactly(m: Meaning, lit: Literal, args: map<string, Reference>, input: Schema,
                            contexts: Contexts, values: Values)
    requires Injective(lit)
    requires input.types == OneType("object")
    requires forall name :: name in args ==> ContextHolds(m, args[name], contexts, values)
    requires ArgumentsAdmitted(lit, args, input, contexts)
    ensures var built := BuiltArguments(args, values);
            && built.Some?
            && (CallSucceeds(m, args, input, values) <==> OtherKeywordsHold(m, input, built.value))
  {
    hide ArgumentSchemaMatches, Valid, CallSucceeds, ContextHolds, Resolve, Source, Injective, OtherKeywordsHold,
      BuiltArguments;
    forall name | name in args
      ensures Resolve(args[name], values).Some?
      ensures Valid(m, PropertyMap(input)[name], Resolve(args[name], values).value)
    {
      ReferenceIsSound(m, lit, args[name], contexts, values, PropertyMap(input)[name]);
    }
    FittingArgumentsSucceed(m, args, input, values);
  }

  /** Admitted arguments always build an object the input schema accepts. */
  lemma ArgumentsAreSound(m: Meaning, lit: Literal, args: map<string, Reference>, input: Schema,
                          contexts: Contexts, values: Values)
    requires Injective(lit)
    requires IsPlainInput(input)
    requires forall name :: name in args ==> ContextHolds(m, args[name], contexts, values)
    requires ArgumentsAdmitted(lit, args, input, contexts)
    ensures CallSucceeds(m, args, input, values)
  {
    hide ArgumentSchemaMatches, Valid, CallSucceeds, ContextHolds, Resolve, Source, Injective, BuiltArguments,
      ArgumentsAdmitted;
    ArgumentsFitExactly(m, lit, args, input, contexts, values);
  }

  /** An object of known fields that each fit, with nothing required missing. */
  lemma FittingArgumentsSucceed(m: Meaning, args: map<string, Reference>, input: Schema, values: Values)
    requires input.types == OneType("object")
    requires forall name :: name in args ==>
               name in PropertyMap(input) && Resolve(args[name], values).Some?
               && Valid(m, PropertyMap(input)[name], Resolve(args[name], values).value)
    requires forall name :: name in RequiredNames(input) ==> name in args
    ensures BuiltArguments(args, values).Some?
    ensures CallSucceeds(m, args, input, values) <==> OtherKeywordsHold(m, input, BuiltArguments(args, values).value)
  {
    var built := BuiltArguments(args, values).value;
    assert RequiredHolds(input, built) && PropertiesHold(m, input.properties, built)
           && ItemsHold(m, input.items, PrefixLength(input.prefix), built)
           && PrefixHolds(m, input.prefix, built);
    assert built.fields.Keys <= PropertyMap(input).Keys;
    assert AdditionalHolds(m, input.additional, PropertyMap(input).Keys, built);
  }

  const EitherInput := TypedObject.(
    properties := Properties(map["a" := TypedString, "b" := TypedString]),
    anyOf := Members([Needing("a"), Needing("b")]))

  function Needing(name: string): Schema {
    TypedObject.(properties := Properties(map[name := TypedString]), required := Some([name]))
  }

  /** Admission looks no further than those keywords: a call without arguments is admitted for
      `{object, properties: {a, b}, anyOf: [{required: [a]}, {required: [b]}]}`, and refused. */
  lemma OtherKeywordsCanRefuse(m: Meaning, lit: Literal)
    ensures ArgumentsAdmitted(lit, map[], EitherInput, map[])
    ensures !CallSucceeds(m, map[], EitherInput, map[])
  {
    var built := JObject(map[]);
    assert BuiltArguments(map[], map[]) == Some(built) by {
      assert BuiltArguments(map[], map[]).value.fields == map[];
    }
    NeedingRefuses(m, "a");
    NeedingRefuses(m, "b");
    var verdicts := Verdicts(m, EitherInput.anyOf, built);
    assert !verdicts[0] && !verdicts[1];
    assert !AnyOfHolds(m, EitherInput.anyOf, built);
  }

  lemma NeedingRefuses(m: Meaning, name: string)
    ensures !Valid(m, Needing(name), JObject(map[]))
  {
    assert name in RequiredNames(Needing(name));
  }

  lemma ReplyIsSound(m: Meaning, lit: Literal, reply: seq<Part>, contexts: Contexts, values: Values, hasTimezone: bool)
    requires Injective(lit)
    requires forall i :: 0 <= i < |reply| && reply[i].Display? ==> ContextHolds(m, reply[i].source, contexts, values)
    requires ReplyAdmitted(lit, reply, contexts, hasTimezone)
    ensures ReplyRenders(m, reply, values)
  {
    forall i | 0 <= i < |reply| && reply[i].Display?
      ensures var v := Resolve(reply[i].source, values);
              v.Some? && v.value.JString? && (reply[i].monthWord ==> m.format("date-time", v.value))
    {
      ReferenceIsSound(m, lit, reply[i].source, contexts, values,
                       if reply[i].monthWord then ClockSchema else TypedString);
    }
  }

  predicate ReadsAField(reply: seq<Part>) {
    exists i :: 0 <= i < |reply| && reply[i].Display? && reply[i].source.Field?
  }

  /** An admitted reply to one value renders exactly when the value is an object or none of its
      fields is read. */
  lemma ReplyRendersExactly(m: Meaning, lit: Literal, reply: seq<Part>, context: string, schema: Schema, v: Json,
                            hasTimezone: bool)
    requires Injective(lit) && Valid(m, schema, v)
    requires ReplyAdmitted(lit, reply, map[context := schema], hasTimezone)
    ensures ReplyRenders(m, reply, map[context := v]) <==> (ReadsAField(reply) ==> v.JObject?)
  {
    hide Valid, ArgumentSchemaMatches, Injective, Offers;
    var contexts, values := map[context := schema], map[context := v];
    if ReadsAField(reply) ==> v.JObject? {
      forall i | 0 <= i < |reply| && reply[i].Display? ensures ContextHolds(m, reply[i].source, contexts, values) {
        if reply[i].source.Field? {
          ValidObjectOffers(m, schema, v);
        }
      }
      ReplyIsSound(m, lit, reply, contexts, values, hasTimezone);
    } else {
      var i :| 0 <= i < |reply| && reply[i].Display? && reply[i].source.Field?;
      assert Source(reply[i].source, contexts).Some?;
      assert Resolve(reply[i].source, values).None?;
    }
  }

  /** What a reply needs of the schema of the value it shows. */
  predicate ReplyNeeds(reply: seq<Part>, schema: Schema) {
    ReadsAField(reply) ==> OnlyObjects(schema.types)
  }

  /** An admitted reply to one value: if the reply reads no field, or the `type` of the schema
      names objects only, then every valid value can be shown. For schemas of the four keywords
      the condition is exact. */
  lemma RepliesCanBeShownExactly(m: Meaning, lit: Literal, reply: seq<Part>, context: string, schema: Schema,
                                 hasTimezone: bool)
    requires Injective(lit)
    requires ReplyAdmitted(lit, reply, map[context := schema], hasTimezone)
    ensures ReplyNeeds(reply, schema) ==>
              forall v :: Valid(m, schema, v) ==> ReplyRenders(m, reply, map[context := v])
    ensures FourKeywords(schema) ==>
              (ReplyNeeds(reply, schema) <==>
               forall v :: Valid(m, schema, v) ==> ReplyRenders(m, reply, map[context := v]))
  {
    hide Valid, Injective, ReplyAdmitted, ReplyRenders, ReadsAField, OnlyObjects, FourKeywords;
    ObjectsExactly(m, schema);
    forall v | Valid(m, schema, v)
      ensures ReplyRenders(m, reply, map[context := v]) <==> (ReadsAField(reply) ==> v.JObject?)
    {
      ReplyRendersExactly(m, lit, reply, context, schema, v, hasTimezone);
    }
  }

  /** An admitted call on values that fit its contexts: the action accepts the arguments, and
      what it answers within its output schema can be shown, if the reply reads no field of it
      or the output is declared an object; for outputs of the four keywords exactly then. */
  lemma CallIsSound(m: Meaning, lit: Literal, call: Call, manifest: Manifest, contexts: Contexts, values: Values,
                    hasTimezone: bool)
    requires Injective(lit)
    requires IsPlainInput(ActionOf(call.action, manifest).input)
    requires forall name :: name in call.args ==> ContextHolds(m, call.args[name], contexts, values)
    requires CallAdmitted(lit, call, manifest, contexts, hasTimezone)
    ensures var action := ActionOf(call.action, manifest);
            && CallSucceeds(m, call.args, action.input, values)
            && (ReplyNeeds(call.reply, action.output) ==> ReplyIsSafe(m, call, manifest))
            && (FourKeywords(action.output) ==>
                  (ReplyNeeds(call.reply, action.output) <==> ReplyIsSafe(m, call, manifest)))
  {
    var action := ActionOf(call.action, manifest);
    ArgumentsAreSound(m, lit, call.args, action.input, contexts, values);
    RepliesCanBeShownExactly(m, lit, call.reply, "result", action.output, hasTimezone);
  }

  /** Whatever the action of a call answers within its output schema can be shown. */
  ghost predicate ReplyIsSafe(m: Meaning, call: Call, manifest: Manifest) {
    forall result :: Valid(m, ActionOf(call.action, manifest).output, result) ==>
      ReplyRenders(m, call.reply, map["result" := result])
  }

  /** A parser result that is not null and passed the guard on `rest` fits the parsed context. */
  lemma ParsedValueFits(m: Meaning, lit: Literal, parser: LibraryFunction, v: Json)
    requires PassesGuard(v)
    ensures Valid(m, parser.output, v) && HasField(NonNullSchema(lit, parser.output), "rest") ==>
              Offers(m, ParsedSchema(lit, parser), v)
  {
    hide Valid, Plain, Normalized;
    if Valid(m, parser.output, v) && HasField(NonNullSchema(lit, parser.output), "rest") {
      ValidIsIndependent(m, parser.output, v);
      var raw := Unwrapped(parser.output);
      var parsed := NonNullSchema(lit, parser.output);
      UnwrappedKeepsIndependent(m, parser.output, v);
      UnwrappedCommutes(lit, parser.output);
      NormalizedKeepsPropertyNames(lit, raw);
      forall name ensures name in RequiredNames(parsed) <==> name in RequiredNames(raw) {
        NormalizedKeepsRequired(lit, raw, name);
      }
      forall name | name in PropertyMap(raw) && name in v.fields && Plain(PropertyMap(parsed)[name])
        ensures Valid(m, PropertyMap(parsed)[name], v.fields[name])
      {
        PlainBeforeNormalizing(lit, PropertyMap(raw)[name]);
        NormalizedKeepsMeaning(m, lit, PropertyMap(raw)[name], v.fields[name]);
      }
      TextFitsAsRest(m, PropertyMap(parsed)["rest"], v.fields["rest"]);
    }
  }

  lemma ValidIsIndependent(m: Meaning, s: Schema, v: Json)
    requires Valid(m, s, v)
    ensures IndependentKeywordsHold(m, s, v)
  {
  }

  /** A text that is not empty also fits the schema that asks for a character. */
  lemma TextFitsAsRest(m: Meaning, rest: Schema, text: Json)
    requires text.JString? && text.s != ""
    requires Plain(rest) ==> Valid(m, rest, text)
    ensures Plain(rest.(minLength := Some(1))) ==> Valid(m, rest.(minLength := Some(1)), text)
  {
    hide Valid;
    if Plain(rest.(minLength := Some(1))) {
      MinLengthSplits(m, rest, text);
      MinLengthSplits(m, rest.(minLength := Some(1)), text);
      assert rest.(minLength := Some(1)).(minLength := None) == rest.(minLength := None);
    }
  }

  lemma {:induction false} PlainBeforeNormalizing(lit: Literal, s: Schema)
    requires Plain(Normalized(lit, s))
    ensures Plain(s)
    decreases s
  {
    NormalizedParts(lit, s);
    var n := Normalized(lit, s);
    if s.properties.Properties? {
      forall name | name in s.properties.schemas ensures Plain(s.properties.schemas[name]) {
        assert Plain(n.properties.schemas[name]);
        PlainBeforeNormalizing(lit, s.properties.schemas[name]);
      }
    }
    if s.items.Items? {
      assert n.items == Items(Normalized(lit, s.items.schema));
      PlainBeforeNormalizing(lit, s.items.schema);
    }
    PlainUnionBeforeNormalizing(lit, s.anyOf);
    PlainUnionBeforeNormalizing(lit, s.oneOf);
  }

  lemma {:induction false} PlainUnionBeforeNormalizing(lit: Literal, k: UnionKeyword)
    requires PlainUnion(NormalizedUnion(lit, k))
    ensures PlainUnion(k)
    decreases k
  {
    if k.Members? {
      forall i | 0 <= i < |k.members| ensures Plain(k.members[i]) {
        assert Plain(NormalizedUnion(lit, k).members[i]);
        PlainBeforeNormalizing(lit, k.members[i]);
      }
    }
  }

  /** What the channel code supplies: non-empty text, an instant, a zone. */
  ghost predicate SuppliedInputs(m: Meaning, values: Values) {
    && "text" in values && values["text"].JString? && values["text"].s != ""
    && "clock" in values && values["clock"].JString? && m.format("date-time", values["clock"])
    && "timezone" in values && values["timezone"].JString? && m.format("x-iana-tz", values["timezone"])
  }

  lemma TextFits(m: Meaning, text: string)
    requires text != ""
    ensures Valid(m, TextSchema, JString(text))
  {
  }

  lemma ParserContextHolds(m: Meaning, lang: string, values: Values, name: string)
    requires SuppliedInputs(m, values) && name in ParseContexts(lang)
    ensures var all := values["language" := JString(lang)];
            name in all && Valid(m, ParseContexts(lang)[name], all[name])
  {
    var v := values["language" := JString(lang)][name];
  }

  /** What the lemmas below need of an admitted parsed command. */
  lemma ParsedCommandParts(lit: Literal, command: Command, manifest: Manifest, functions: seq<LibraryFunction>)
    requires command.ParsedCreate?
    requires ParsedCommandAdmitted(lit, command, manifest, functions)
    ensures ArgumentsAdmitted(lit, ParseArguments, FunctionOf(command.parser, functions).input,
                              ParseContexts(command.lang))
    ensures "at" in RequiredNames(NonNullSchema(lit, FunctionOf(command.parser, functions).output))
    ensures forall i :: 0 <= i < |command.presets| ==>
              ArgumentsAdmitted(lit, command.presets[i].args, ActionOf(command.call.action, manifest).input,
                                map["text" := TextSchema, "preset" := PresetSchema])
  {
    hide ReplyAdmitted, ArgumentSchemaMatches, NonNullSchema;
    var parser := FunctionOf(command.parser, functions);
    assert Source(command.call.args["remind_at"], map["parsed" := ParsedSchema(lit, parser)]).Some?;
    forall i | 0 <= i < |command.presets|
      ensures ArgumentsAdmitted(lit, command.presets[i].args, ActionOf(command.call.action, manifest).input,
                                map["text" := TextSchema, "preset" := PresetSchema])
    {
      assert CallAdmitted(lit, command.presets[i], manifest, map["text" := TextSchema, "preset" := PresetSchema], true);
    }
  }

  /** The parser of a parsed command is always called with arguments it accepts. */
  lemma ParserCallIsSound(m: Meaning, lit: Literal, command: Command, manifest: Manifest,
                          functions: seq<LibraryFunction>, values: Values)
    requires Injective(lit)
    requires command.ParsedCreate?
    requires IsPlainInput(FunctionOf(command.parser, functions).input)
    requires SuppliedInputs(m, values)
    requires ParsedCommandAdmitted(lit, command, manifest, functions)
    ensures CallSucceeds(m, ParseArguments, FunctionOf(command.parser, functions).input,
                         values["language" := JString(command.lang)])
  {
    hide *;
    ParsedCommandParts(lit, command, manifest, functions);
    var parser := FunctionOf(command.parser, functions);
    ParserContextsHold(m, command.lang, values);
    ArgumentsAreSound(m, lit, ParseArguments, parser.input, ParseContexts(command.lang),
                      values["language" := JString(command.lang)]);
  }

  lemma ParserContextsHold(m: Meaning, lang: string, values: Values)
    requires SuppliedInputs(m, values)
    ensures forall name :: name in ParseArguments ==>
              ContextHolds(m, ParseArguments[name], ParseContexts(lang), values["language" := JString(lang)])
  {
    hide Valid, SuppliedInputs;
    var all := values["language" := JString(lang)];
    assert forall name :: name in ParseArguments ==> ParseArguments[name].Whole?;
    forall name | name in ParseArguments ensures ContextHolds(m, ParseArguments[name], ParseContexts(lang), all) {
      if ParseArguments[name].context in ParseContexts(lang) {
        ParserContextHolds(m, lang, values, ParseArguments[name].context);
      }
    }
  }

  /** A value of the declared output carries whatever the unwrapped schema requires. */
  lemma RequiredFieldIsThere(m: Meaning, lit: Literal, output: Schema, v: Json, name: string)
    requires Valid(m, output, v) && v.JObject?
    requires name in RequiredNames(NonNullSchema(lit, output))
    ensures name in v.fields
  {
    UnwrappedKeepsIndependent(m, output, v);
    UnwrappedCommutes(lit, output);
    NormalizedKeepsRequired(lit, Unwrapped(output), name);
  }

  ghost predicate AnswerIsComplete(m: Meaning, command: Command, manifest: Manifest, functions: seq<LibraryFunction>,
                                   parsed: Json)
    requires command.ParsedCreate?
  {
    var primary := FunctionOf(command.parser, functions).value;
    var parameters := PropertyMap(ActionOf(command.call.action, manifest).input);
    && parsed.JObject? && "rest" in parsed.fields && "at" in parsed.fields && primary in parsed.fields
    && ("remind_at" in parameters ==> Valid(m, parameters["remind_at"], parsed.fields[primary]))
  }

  /** The generated guard lets the answer through: it found a text. */
  predicate PassesGuard(parsed: Json) {
    parsed.JObject? && "rest" in parsed.fields && parsed.fields["rest"].JString? && parsed.fields["rest"].s != ""
  }

  /** A parser answer that is not null is an object with the primary field, which fits
      `remind_at`, and with the text and instant the create call refers to. */
  lemma ParsedAnswerIsComplete(m: Meaning, lit: Literal, command: Command, manifest: Manifest,
                               functions: seq<LibraryFunction>, parsed: Json)
    requires Injective(lit)
    requires command.ParsedCreate?
    requires ParsedCommandAdmitted(lit, command, manifest, functions)
    ensures Valid(m, FunctionOf(command.parser, functions).output, parsed) && parsed != JNull ==>
              AnswerIsComplete(m, command, manifest, functions, parsed)
  {
    var parser := FunctionOf(command.parser, functions);
    var parameters := PropertyMap(ActionOf(command.call.action, manifest).input);
    ParsedCommandParts(lit, command, manifest, functions);
    if Valid(m, parser.output, parsed) && parsed != JNull {
      hide Valid, NonNullSchema;
      PrimaryEdgeIsSound(m, lit, parser.output, parser.value,
                         if "remind_at" in parameters then parameters["remind_at"] else Anything, parsed);
      RequiredFieldIsThere(m, lit, parser.output, parsed, "rest");
      RequiredFieldIsThere(m, lit, parser.output, parsed, "at");
    }
  }

  /** Once the guard on `rest` has passed, the answer creates with acceptable arguments. */
  lemma ParsedCommandIsSound(m: Meaning, lit: Literal, command: Command, manifest: Manifest,
                             functions: seq<LibraryFunction>, parsed: Json)
    requires Injective(lit)
    requires command.ParsedCreate?
    requires IsPlainInput(ActionOf(command.call.action, manifest).input)
    requires ParsedCommandAdmitted(lit, command, manifest, functions)
    ensures Valid(m, FunctionOf(command.parser, functions).output, parsed) && PassesGuard(parsed) ==>
              CallSucceeds(m, command.call.args, ActionOf(command.call.action, manifest).input, map["parsed" := parsed])
  {
    hide Valid, ArgumentSchemaMatches, CallSucceeds, Injective, IsPlainInput, Offers, NonNullSchema;
    var parser := FunctionOf(command.parser, functions);
    var contexts := map["parsed" := ParsedSchema(lit, parser)];
    if Valid(m, parser.output, parsed) && PassesGuard(parsed) {
      ParsedValueFits(m, lit, parser, parsed);
      forall name | name in command.call.args
        ensures ContextHolds(m, command.call.args[name], contexts, map["parsed" := parsed])
      {
      }
      ArgumentsAreSound(m, lit, command.call.args,
                        ActionOf(command.call.action, manifest).input, contexts, map["parsed" := parsed]);
    }
  }

  lemma PresetFits(m: Meaning, at: Json)
    requires at.JString? && m.format("date-time", at)
    ensures Offers(m, PresetSchema, JObject(map["at" := at]))
  {
  }

  lemma PresetIsValid(m: Meaning, at: Json)
    requires at.JString? && m.format("date-time", at)
    ensures Valid(m, PresetSchema, JObject(map["at" := at]))
  {
  }

  lemma PresetContextsHold(m: Meaning, args: map<string, Reference>, text: string, at: Json)
    requires text != "" && at.JString? && m.format("date-time", at)
    ensures forall name ::
              name in args && Source(args[name], map["text" := TextSchema, "preset" := PresetSchema]).Some? ==>
              ContextHolds(m, args[name], map["text" := TextSchema, "preset" := PresetSchema],
                           map["text" := JString(text), "preset" := JObject(map["at" := at])])
  {
    hide Valid, Offers;
    TextFits(m, text);
    PresetFits(m, at);
    PresetIsValid(m, at);
  }

  /** The presets offered for a null answer create with acceptable arguments. */
  lemma PresetIsSound(m: Meaning, lit: Literal, command: Command, manifest: Manifest, functions: seq<LibraryFunction>,
                      i: nat, text: string, at: Json)
    requires Injective(lit)
    requires command.ParsedCreate?
    requires IsPlainInput(ActionOf(command.call.action, manifest).input)
    requires i < |command.presets| && text != "" && at.JString? && m.format("date-time", at)
    requires ParsedCommandAdmitted(lit, command, manifest, functions)
    ensures CallSucceeds(m, command.presets[i].args, ActionOf(command.call.action, manifest).input,
                         map["text" := JString(text), "preset" := JObject(map["at" := at])])
  {
    hide Valid, Offers, ContextHolds, Source, ArgumentSchemaMatches, Injective, IsPlainInput, CallSucceeds,
      ParsedCommandAdmitted;
    var contexts := map["text" := TextSchema, "preset" := PresetSchema];
    var values := map["text" := JString(text), "preset" := JObject(map["at" := at])];
    ParsedCommandParts(lit, command, manifest, functions);
    PresetContextsHold(m, command.presets[i].args, text, at);
    ArgumentsAreSound(m, lit, command.presets[i].args,
                      ActionOf(command.call.action, manifest).input, contexts, values);
  }

  /** `item_choices` finds every field that the buttons refer to. */
  predicate ChoicesAreThere(buttons: seq<Call>, item: Json) {
    forall i, a :: 0 <= i < |buttons| && a in buttons[i].args ==>
      item.JObject? && buttons[i].args[a].Field? && buttons[i].args[a].name in item.fields
  }

  /** It keeps of an item only those fields. */
  function ItemContext(buttons: seq<Call>, item: Json): Json {
    if !item.JObject? then JObject(map[])
    else
      JObject(map name | name in item.fields
                         && exists i, a :: 0 <= i < |buttons| && a in buttons[i].args
                                           && buttons[i].args[a] == Field("item", name)
                :: item.fields[name])
  }

  /** The filter can look at an item. */
  predicate FilterApplies(filter: Option<Filter>, item: Json) {
    filter.Some? ==> item.JObject? && filter.value.field in item.fields
  }

  /** A listing looks into its items: to filter them, to show a field, or to keep one for a
      button. */
  predicate LooksIntoItems(command: Command)
    requires command.Listed?
  {
    || command.filter.Some?
    || ReadsAField(command.replyEach)
    || exists i, a :: 0 <= i < |command.buttons| && a in command.buttons[i].args
  }

  /** What a listing needs of the schema of its items. */
  predicate ListingNeeds(command: Command, items: Schema)
    requires command.Listed?
  {
    LooksIntoItems(command) ==> OnlyObjects(items.types)
  }

  /** An item can be filtered and shown, and offers what its buttons keep. */
  ghost predicate ItemIsShown(m: Meaning, command: Command, item: Json)
    requires command.Listed?
  {
    && FilterApplies(command.filter, item)
    && ReplyRenders(m, command.replyEach, map["item" := item])
    && ChoicesAreThere(command.buttons, item)
  }

  /** Buttons of a listing refer to fields of the item, and to nothing else. */
  lemma ButtonsReadItemFields(lit: Literal, button: Call, manifest: Manifest, schema: Schema, hasTimezone: bool)
    requires CallInGrammar(button)
    requires CallAdmitted(lit, button, manifest, map["item" := schema], hasTimezone)
    ensures forall a :: a in button.args ==> button.args[a].Field? && button.args[a].context == "item"
  {
    hide ReplyAdmitted, ArgumentSchemaMatches;
    forall a | a in button.args ensures button.args[a].Field? && button.args[a].context == "item" {
      assert Source(button.args[a], map["item" := schema]).Some? && InGrammar(button.args[a]);
    }
  }

  /** A value of the items schema can be filtered and shown, and offers what its buttons keep,
      exactly when it is an object or the listing does not look into it. */
  lemma ItemIsShownExactly(m: Meaning, lit: Literal, command: Command, manifest: Manifest, hasTimezone: bool,
                           item: Json)
    requires Injective(lit)
    requires command.Listed? && CommandInGrammar(command)
    requires ListedCommandAdmitted(m, lit, command, manifest, hasTimezone)
    requires Valid(m, ActionOf(command.action, manifest).output.items.schema, item)
    ensures ItemIsShown(m, command, item) <==> (LooksIntoItems(command) ==> item.JObject?)
  {
    hide Valid, Injective, ReplyRenders, ReadsAField, CallInGrammar, CallAdmitted, ReplyAdmitted, ArgumentsAdmitted;
    var schema := ActionOf(command.action, manifest).output.items.schema;
    ReplyRendersExactly(m, lit, command.replyEach, "item", schema, item, hasTimezone);
    forall i, a | 0 <= i < |command.buttons| && a in command.buttons[i].args
      ensures command.buttons[i].args[a].Field?
      ensures item.JObject? ==> command.buttons[i].args[a].name in item.fields
    {
      ButtonFieldIsThere(m, lit, command.buttons[i], manifest, schema, item, hasTimezone, a);
    }
    if item.JObject? {
      ValidObjectOffers(m, schema, item);
    }
  }

  lemma ButtonFieldIsThere(m: Meaning, lit: Literal, button: Call, manifest: Manifest, schema: Schema, item: Json,
                           hasTimezone: bool, a: string)
    requires CallInGrammar(button) && a in button.args
    requires CallAdmitted(lit, button, manifest, map["item" := schema], hasTimezone)
    requires Valid(m, schema, item)
    ensures button.args[a].Field? && (item.JObject? ==> button.args[a].name in item.fields)
  {
    hide ReplyAdmitted, ArgumentSchemaMatches;
    ButtonsReadItemFields(lit, button, manifest, schema, hasTimezone);
    assert Source(button.args[a], map["item" := schema]).Some?;
  }

  /** A listing: its action accepts the empty argument object, and of every array the action
      may answer, each element behind the `prefixItems` can be filtered and shown, offers what
      its buttons keep, and every button's action accepts the arguments built from that; given
      that the items are declared objects, or the listing does not look into them. */
  lemma ListedCommandIsSound(m: Meaning, lit: Literal, command: Command, manifest: Manifest,
                             hasTimezone: bool, answer: Json, k: nat)
    requires Injective(lit)
    requires command.Listed? && CommandInGrammar(command)
    requires ListedCommandAdmitted(m, lit, command, manifest, hasTimezone)
    requires var action := ActionOf(command.action, manifest);
             && IsPlainInput(action.input) && Valid(m, action.output, answer)
             && ListingNeeds(command, action.output.items.schema)
             && (answer.JArray? ==> PrefixLength(action.output.prefix) <= k < |answer.elements|)
    ensures command.args == map[]
    ensures CallSucceeds(m, command.args, ActionOf(command.action, manifest).input, map[])
    ensures answer.JArray? && ItemIsShown(m, command, answer.elements[k])
    ensures forall i :: 0 <= i < |command.buttons| ==>
              var target := FindAction(command.buttons[i].action, manifest.name, manifest.actions);
              target.Some? && (IsPlainInput(target.value.input) ==>
                CallSucceeds(m, command.buttons[i].args, target.value.input,
                             map["item" := ItemContext(command.buttons, answer.elements[k])]))
  {
    var action := ActionOf(command.action, manifest);
    var schema := action.output.items.schema;
    var item := answer.elements[k];
    hide Valid, Injective, ReplyRenders, ReadsAField, CallInGrammar, ReplyAdmitted, ArgumentsAdmitted, CallSucceeds,
      IsPlainInput, OnlyObjects, ItemIsShown, ItemContext, LooksIntoItems;
    ButtonsLookIntoItems(command);
    NoContextsNoArguments(lit, command.args, action.input);
    ArgumentsAreSound(m, lit, command.args, action.input, map[], map[]);
    ArraysAreArrays(m, action.output, answer);
    ElementIsValid(m, action.output, answer, k);
    ObjectsExactly(m, schema);
    ItemIsShownExactly(m, lit, command, manifest, hasTimezone, item);
    forall i | 0 <= i < |command.buttons|
      ensures var target := FindAction(command.buttons[i].action, manifest.name, manifest.actions);
              target.Some? && (IsPlainInput(target.value.input) ==>
                CallSucceeds(m, command.buttons[i].args, target.value.input,
                             map["item" := ItemContext(command.buttons, item)]))
    {
      ButtonIsSound(m, lit, command.buttons, i, manifest, schema, item, hasTimezone);
    }
  }

  /** A list output with nothing but `items`. */
  predicate PlainList(s: Schema) {
    && s == Anything.(types := s.types, items := s.items, annotations := s.annotations)
    && s.types == OneType("array") && s.items.Items?
  }

  /** For a list of items described by the four keywords the condition is exact: every item of
      every valid answer can be filtered and shown and offers what its buttons keep, if and only
      if the items are declared objects or the listing does not look into them. */
  lemma ListingCanBeShownExactly(m: Meaning, lit: Literal, command: Command, manifest: Manifest, hasTimezone: bool)
    requires Injective(lit)
    requires command.Listed? && CommandInGrammar(command)
    requires ListedCommandAdmitted(m, lit, command, manifest, hasTimezone)
    requires var output := ActionOf(command.action, manifest).output;
             PlainList(output) && FourKeywords(output.items.schema)
    ensures var output := ActionOf(command.action, manifest).output;
            ListingNeeds(command, output.items.schema) <==>
            forall answer, k ::
              Valid(m, output, answer) && answer.JArray? && 0 <= k < |answer.elements| ==>
                ItemIsShown(m, command, answer.elements[k])
  {
    hide Valid, Injective, ItemIsShown, CommandInGrammar, ListedCommandAdmitted;
    hide LooksIntoItems, OnlyObjects, OtherSample;
    var output := ActionOf(command.action, manifest).output;
    var schema := output.items.schema;
    ObjectsExactly(m, schema);
    if ListingNeeds(command, schema) {
      forall answer, k | Valid(m, output, answer) && answer.JArray? && 0 <= k < |answer.elements|
        ensures ItemIsShown(m, command, answer.elements[k])
      {
        ElementIsValid(m, output, answer, k);
        ItemIsShownExactly(m, lit, command, manifest, hasTimezone, answer.elements[k]);
      }
    } else {
      var item := OtherSample(schema.types);
      OneItemIsValid(m, output, item);
      ItemIsShownExactly(m, lit, command, manifest, hasTimezone, item);
      assert JArray([item]).elements[0] == item;
    }
  }

  lemma ElementIsValid(m: Meaning, output: Schema, answer: Json, k: nat)
    requires output.items.Items? && Valid(m, output, answer)
    requires answer.JArray? && PrefixLength(output.prefix) <= k < |answer.elements|
    ensures Valid(m, output.items.schema, answer.elements[k])
  {
  }

  lemma ButtonsLookIntoItems(command: Command)
    requires command.Listed?
    ensures forall i :: 0 <= i < |command.buttons| && command.buttons[i].args != map[] ==> LooksIntoItems(command)
  {
    forall i | 0 <= i < |command.buttons| && command.buttons[i].args != map[] ensures LooksIntoItems(command) {
      var a :| a in command.buttons[i].args;
    }
  }

  lemma OneItemIsValid(m: Meaning, output: Schema, item: Json)
    requires PlainList(output) && Valid(m, output.items.schema, item)
    ensures Valid(m, output, JArray([item]))
  {
  }

  /** The fields kept for the buttons resolve every reference as the whole item does. */
  lemma ItemContextIsEnough(buttons: seq<Call>, i: nat, item: Json)
    requires i < |buttons|
    requires forall a :: a in buttons[i].args ==> buttons[i].args[a].Field? && buttons[i].args[a].context == "item"
    ensures BuiltArguments(buttons[i].args, map["item" := ItemContext(buttons, item)])
            == BuiltArguments(buttons[i].args, map["item" := item])
  {
    var kept := map["item" := ItemContext(buttons, item)];
    var whole := map["item" := item];
    forall a | a in buttons[i].args
      ensures Resolve(buttons[i].args[a], kept) == Resolve(buttons[i].args[a], whole)
    {
      var ref := buttons[i].args[a];
      assert ref == Field("item", ref.name);
    }
    var left, right := BuiltArguments(buttons[i].args, kept), BuiltArguments(buttons[i].args, whole);
    assert left.Some? <==> right.Some?;
    if left.Some? {
      assert left.value.fields == right.value.fields;
    }
  }

  lemma ButtonIsSound(m: Meaning, lit: Literal, buttons: seq<Call>, i: nat, manifest: Manifest,
                      schema: Schema, item: Json, hasTimezone: bool)
    requires Injective(lit)
    requires i < |buttons| && CallInGrammar(buttons[i])
    requires Valid(m, schema, item) && (buttons[i].args != map[] ==> item.JObject?)
    requires CallAdmitted(lit, buttons[i], manifest, map["item" := schema], hasTimezone)
    ensures var target := ActionOf(buttons[i].action, manifest);
            IsPlainInput(target.input) ==>
              CallSucceeds(m, buttons[i].args, target.input, map["item" := ItemContext(buttons, item)])
  {
    var target := ActionOf(buttons[i].action, manifest);
    ButtonsReadItemFields(lit, buttons[i], manifest, schema, hasTimezone);
    if item.JObject? {
      ValidObjectOffers(m, schema, item);
    }
    if IsPlainInput(target.input) {
      ArgumentsAreSound(m, lit, buttons[i].args, target.input, map["item" := schema], map["item" := item]);
      ItemContextIsEnough(buttons, i, item);
    }
  }

  /** A text command passes any non-empty text to its action, as the one argument. */
  lemma TextCommandIsSound(m: Meaning, lit: Literal, command: Command, manifest: Manifest,
                           hasTimezone: bool, text: string)
    requires Injective(lit)
    requires command.TextCreate?
    requires IsPlainInput(ActionOf(command.call.action, manifest).input)
    requires text != ""
    requires TextCommandAdmitted(lit, command, manifest, hasTimezone)
    ensures exists name :: command.call.args.Keys == {name}
                           && BuiltArguments(command.call.args, map["text" := JString(text)])
                              == Some(JObject(map[name := JString(text)]))
    ensures CallSucceeds(m, command.call.args, ActionOf(command.call.action, manifest).input,
                         map["text" := JString(text)])
  {
    hide Valid, CallSucceeds, IsPlainInput, Injective, ArgumentSchemaMatches, ReplyAdmitted;
    TextFits(m, text);
    ArgumentsAreSound(m, lit, command.call.args, ActionOf(command.call.action, manifest).input,
                      map["text" := TextSchema], map["text" := JString(text)]);
    OneTextIsPassed(command.call.args, text);
  }

  lemma OneTextIsPassed(args: map<string, Reference>, text: string)
    requires |args| == 1 && forall name :: name in args ==> args[name] == Whole("text")
    ensures exists name :: args.Keys == {name}
                           && BuiltArguments(args, map["text" := JString(text)])
                                == Some(JObject(map[name := JString(text)]))
  {
    assert |args.Keys| == 1;
    var name :| name in args;
    assert args.Keys == {name} by {
      assert |args.Keys - {name}| == 0;
    }
    var built := BuiltArguments(args, map["text" := JString(text)]);
    assert built.value.fields == map[name := JString(text)];
  }

  /** An event that fits its message schema names its recipient as text and can be shown. */
  lemma EventIsSound(m: Meaning, lit: Literal, event: EventReply, manifest: Manifest,
                     hasTimezone: bool, payload: Json)
    requires Injective(lit)
    requires EventAdmitted(lit, event, manifest, hasTimezone)
    requires manifest.publishes[event.event].schema.types == OneType("object")
    requires Valid(m, manifest.publishes[event.event].schema, payload)
    ensures Resolve(event.to, map["event" := payload]).Some?
            && Resolve(event.to, map["event" := payload]).value.JString?
    ensures ReplyRenders(m, event.reply, map["event" := payload])
  {
    var schema := manifest.publishes[event.event].schema;
    assert payload.JObject?;
    ValidObjectOffers(m, schema, payload);
    ReferenceIsSound(m, lit, event.to, map["event" := schema], map["event" := payload], TypedString);
    ReplyRendersExactly(m, lit, event.reply, "event", schema, payload, hasTimezone);
  }

  // ---------------------------------------------------------- the whole binding

  /** Inputs within the keyword set that admission compares. */
  ghost predicate WithinKeywordSet(manifest: Manifest, functions: seq<LibraryFunction>) {
    && (forall i :: 0 <= i < |manifest.actions| ==> IsPlainInput(manifest.actions[i].input))
    && forall i :: 0 <= i < |functions| ==> IsPlainInput(functions[i].input)
  }

  /** What a validated package manifest guarantees of its messages. */
  predicate MessagesAreObjects(manifest: Manifest) {
    forall name :: name in manifest.publishes ==> manifest.publishes[name].schema.types == OneType("object")
  }

  lemma {:induction false} FoundActionIsDeclared(name: string, packageName: string, actions: seq<Action>)
    requires FindAction(name, packageName, actions).Some?
    ensures FindAction(name, packageName, actions).value in actions
  {
    if name != packageName + "." + actions[0].name {
      FoundActionIsDeclared(name, packageName, actions[1..]);
    }
  }

  lemma {:induction false} FoundFunctionIsDeclared(name: string, functions: seq<LibraryFunction>)
    requires FindFunction(name, functions).Some?
    ensures FindFunction(name, functions).value in functions
  {
    if name != functions[0].name {
      FoundFunctionIsDeclared(name, functions[1..]);
    }
  }

  ghost predicate AcceptsCall(m: Meaning, call: Call, manifest: Manifest, values: Values) {
    var action := FindAction(call.action, manifest.name, manifest.actions);
    action.Some? && CallSucceeds(m, call.args, action.value.input, values)
  }

  predicate CallNeeds(call: Call, manifest: Manifest) {
    ReplyNeeds(call.reply, ActionOf(call.action, manifest).output)
  }

  /** What a command needs of the outputs its actions declare: objects where it reads fields,
      and list items that no `prefixItems` takes out of the reach of `items`. */
  predicate CommandNeeds(command: Command, manifest: Manifest) {
    match command
    case ParsedCreate(call, _, _, presets) =>
      CallNeeds(call, manifest) && forall i :: 0 <= i < |presets| ==> CallNeeds(presets[i], manifest)
    case Listed(action, _, _, _, buttons) =>
      var output := ActionOf(action, manifest).output;
      && output.prefix.NoPrefix?
      && (output.items.Items? ==> ListingNeeds(command, output.items.schema))
      && forall i :: 0 <= i < |buttons| ==> CallNeeds(buttons[i], manifest)
    case TextCreate(call, _) => CallNeeds(call, manifest)
  }

  /** The values of a preset's call. */
  function PresetValues(text: string, at: string): Values {
    map["text" := JString(text), "preset" := JObject(map["at" := JString(at)])]
  }

  ghost predicate ParsedCommandIsSafe(m: Meaning, command: Command, manifest: Manifest, functions: seq<LibraryFunction>)
    requires command.ParsedCreate?
  {
    var parser := FindFunction(command.parser, functions);
    && parser.Some?
    && (forall values :: SuppliedInputs(m, values) ==>
          CallSucceeds(m, ParseArguments, parser.value.input, values["language" := JString(command.lang)]))
    && (forall parsed :: Valid(m, parser.value.output, parsed) && parsed != JNull ==>
          && parsed.JObject? && "rest" in parsed.fields
          && (PassesGuard(parsed) ==> AcceptsCall(m, command.call, manifest, map["parsed" := parsed])))
    && ReplyIsSafe(m, command.call, manifest)
    && (forall i, text, at ::
          0 <= i < |command.presets| && text != "" && m.format("date-time", JString(at)) ==>
            AcceptsCall(m, command.presets[i], manifest, PresetValues(text, at)))
    && forall i :: 0 <= i < |command.presets| ==> ReplyIsSafe(m, command.presets[i], manifest)
  }

  ghost predicate ItemIsSafe(m: Meaning, command: Command, manifest: Manifest, item: Json)
    requires command.Listed?
  {
    && ItemIsShown(m, command, item)
    && forall i :: 0 <= i < |command.buttons| ==>
         AcceptsCall(m, command.buttons[i], manifest, map["item" := ItemContext(command.buttons, item)])
  }

  ghost predicate ListedCommandIsSafe(m: Meaning, command: Command, manifest: Manifest)
    requires command.Listed?
  {
    && AcceptsCall(m, Call(command.action, command.args, []), manifest, map[])
    && (forall answer :: Valid(m, ActionOf(command.action, manifest).output, answer) ==>
          answer.JArray?
          && forall k :: 0 <= k < |answer.elements| ==> ItemIsSafe(m, command, manifest, answer.elements[k]))
    && forall i :: 0 <= i < |command.buttons| ==> ReplyIsSafe(m, command.buttons[i], manifest)
  }

  /** No call a command can lead to is refused by the input schema of its action, and what it
      shows can be shown. */
  ghost predicate CommandIsSafe(m: Meaning, command: Command, manifest: Manifest, functions: seq<LibraryFunction>) {
    match command
    case ParsedCreate(_, _, _, _) => ParsedCommandIsSafe(m, command, manifest, functions)
    case Listed(_, _, _, _, _) => ListedCommandIsSafe(m, command, manifest)
    case TextCreate(call, _) =>
      && (forall text :: text != "" ==> AcceptsCall(m, call, manifest, map["text" := JString(text)]))
      && ReplyIsSafe(m, call, manifest)
  }

  /** Every valid payload of the event names its recipient as text and can be shown. */
  ghost predicate EventIsSafe(m: Meaning, event: EventReply, manifest: Manifest) {
    && event.event in manifest.publishes
    && forall payload :: Valid(m, manifest.publishes[event.event].schema, payload) ==>
         var to := Resolve(event.to, map["event" := payload]);
         to.Some? && to.value.JString? && ReplyRenders(m, event.reply, map["event" := payload])
  }

  lemma AdmittedReplyIsSafe(m: Meaning, lit: Literal, call: Call, manifest: Manifest, contexts: Contexts,
                            hasTimezone: bool)
    requires Injective(lit) && CallAdmitted(lit, call, manifest, contexts, hasTimezone) && CallNeeds(call, manifest)
    ensures ReplyIsSafe(m, call, manifest)
  {
    hide Injective, ArgumentsAdmitted, ReplyAdmitted, Valid, ReplyNeeds, ReplyRenders, FourKeywords;
    RepliesCanBeShownExactly(m, lit, call.reply, "result", ActionOf(call.action, manifest).output, hasTimezone);
  }

  lemma PresetIsAccepted(m: Meaning, lit: Literal, command: Command, manifest: Manifest,
                         functions: seq<LibraryFunction>, i: nat, text: string, at: string)
    requires Injective(lit) && WithinKeywordSet(manifest, functions)
    requires command.ParsedCreate? && ParsedCommandAdmitted(lit, command, manifest, functions)
    requires i < |command.presets| && text != "" && m.format("date-time", JString(at))
    ensures AcceptsCall(m, command.presets[i], manifest, PresetValues(text, at))
  {
    hide Valid, CallSucceeds, ArgumentsAdmitted, ReplyAdmitted, PrimaryOutputMatches, NonNullSchema, Injective,
      IsPlainInput;
    FoundActionIsDeclared(command.call.action, manifest.name, manifest.actions);
    PresetIsSound(m, lit, command, manifest, functions, i, text, JString(at));
  }

  lemma PresetReplyIsSafe(m: Meaning, lit: Literal, command: Command, manifest: Manifest,
                          functions: seq<LibraryFunction>, i: nat)
    requires Injective(lit) && command.ParsedCreate? && ParsedCommandAdmitted(lit, command, manifest, functions)
    requires i < |command.presets| && CallNeeds(command.presets[i], manifest)
    ensures ReplyIsSafe(m, command.presets[i], manifest)
  {
    hide ArgumentsAdmitted, ReplyAdmitted, PrimaryOutputMatches, NonNullSchema, Injective, CallNeeds;
    AdmittedReplyIsSafe(m, lit, command.presets[i], manifest, map["text" := TextSchema, "preset" := PresetSchema],
                        true);
  }

  lemma AdmittedParsedCommandIsSafe(m: Meaning, lit: Literal, command: Command, manifest: Manifest,
                                    functions: seq<LibraryFunction>)
    requires Injective(lit) && WithinKeywordSet(manifest, functions)
    requires command.ParsedCreate? && CommandNeeds(command, manifest)
    requires ParsedCommandAdmitted(lit, command, manifest, functions)
    ensures ParsedCommandIsSafe(m, command, manifest, functions)
  {
    hide Valid, CallSucceeds, ArgumentsAdmitted, ReplyAdmitted, PrimaryOutputMatches, NonNullSchema, Injective,
      IsPlainInput, ReplyIsSafe, SuppliedInputs, CallNeeds;
    FoundActionIsDeclared(command.call.action, manifest.name, manifest.actions);
    FoundFunctionIsDeclared(command.parser, functions);
    var parser := FunctionOf(command.parser, functions);
    forall values | SuppliedInputs(m, values)
      ensures CallSucceeds(m, ParseArguments, parser.input, values["language" := JString(command.lang)])
    {
      ParserCallIsSound(m, lit, command, manifest, functions, values);
    }
    forall parsed | Valid(m, parser.output, parsed) && parsed != JNull
      ensures parsed.JObject? && "rest" in parsed.fields
      ensures PassesGuard(parsed) ==> AcceptsCall(m, command.call, manifest, map["parsed" := parsed])
    {
      ParsedAnswerIsComplete(m, lit, command, manifest, functions, parsed);
      if PassesGuard(parsed) {
        ParsedCommandIsSound(m, lit, command, manifest, functions, parsed);
      }
    }
    AdmittedReplyIsSafe(m, lit, command.call, manifest, map["parsed" := ParsedSchema(lit, parser)], true);
    forall i, text, at | 0 <= i < |command.presets| && text != "" && m.format("date-time", JString(at))
      ensures AcceptsCall(m, command.presets[i], manifest, PresetValues(text, at))
    {
      PresetIsAccepted(m, lit, command, manifest, functions, i, text, at);
    }
    forall i | 0 <= i < |command.presets| ensures ReplyIsSafe(m, command.presets[i], manifest) {
      PresetReplyIsSafe(m, lit, command, manifest, functions, i);
    }
  }

  lemma AdmittedItemIsSafe(m: Meaning, lit: Literal, command: Command, manifest: Manifest,
                           functions: seq<LibraryFunction>, hasTimezone: bool, answer: Json, k: nat)
    requires Injective(lit) && WithinKeywordSet(manifest, functions)
    requires command.Listed? && CommandInGrammar(command) && CommandNeeds(command, manifest)
    requires ListedCommandAdmitted(m, lit, command, manifest, hasTimezone)
    requires Valid(m, ActionOf(command.action, manifest).output, answer)
    requires answer.JArray? && k < |answer.elements|
    ensures ItemIsSafe(m, command, manifest, answer.elements[k])
  {
    hide Valid, CallSucceeds, ArgumentsAdmitted, ReplyAdmitted, Injective, IsPlainInput, ItemIsShown, CommandInGrammar,
      ListingNeeds, CallNeeds;
    FoundActionIsDeclared(command.action, manifest.name, manifest.actions);
    ListedCommandIsSound(m, lit, command, manifest, hasTimezone, answer, k);
    forall i | 0 <= i < |command.buttons|
      ensures AcceptsCall(m, command.buttons[i], manifest,
                          map["item" := ItemContext(command.buttons, answer.elements[k])])
    {
      FoundActionIsDeclared(command.buttons[i].action, manifest.name, manifest.actions);
    }
  }

  lemma ArraysAreArrays(m: Meaning, s: Schema, v: Json)
    requires s.types == OneType("array") && Valid(m, s, v)
    ensures v.JArray?
  {
  }

  lemma AdmittedListingIsSafe(m: Meaning, lit: Literal, command: Command, manifest: Manifest,
                              functions: seq<LibraryFunction>, hasTimezone: bool)
    requires Injective(lit) && WithinKeywordSet(manifest, functions)
    requires command.Listed? && CommandInGrammar(command) && CommandNeeds(command, manifest)
    requires ListedCommandAdmitted(m, lit, command, manifest, hasTimezone)
    ensures ListedCommandIsSafe(m, command, manifest)
  {
    hide Valid, CallSucceeds, ArgumentsAdmitted, ReplyAdmitted, Injective, IsPlainInput, ReplyIsSafe, ItemIsSafe,
      CommandInGrammar, CallNeeds, ListingNeeds;
    FoundActionIsDeclared(command.action, manifest.name, manifest.actions);
    var action := ActionOf(command.action, manifest);
    NoContextsNoArguments(lit, command.args, action.input);
    ArgumentsAreSound(m, lit, command.args, action.input, map[], map[]);
    forall answer | Valid(m, action.output, answer)
      ensures answer.JArray?
      ensures answer.JArray? ==>
                forall k :: 0 <= k < |answer.elements| ==> ItemIsSafe(m, command, manifest, answer.elements[k])
    {
      ArraysAreArrays(m, action.output, answer);
      forall k | 0 <= k < |answer.elements| ensures ItemIsSafe(m, command, manifest, answer.elements[k]) {
        AdmittedItemIsSafe(m, lit, command, manifest, functions, hasTimezone, answer, k);
      }
    }
    forall i | 0 <= i < |command.buttons| ensures ReplyIsSafe(m, command.buttons[i], manifest) {
      AdmittedReplyIsSafe(m, lit, command.buttons[i], manifest, map["item" := action.output.items.schema], hasTimezone);
    }
  }

  lemma NoContextsNoArguments(lit: Literal, args: map<string, Reference>, input: Schema)
    requires ArgumentsAdmitted(lit, args, input, map[])
    ensures args == map[]
  {
    assert forall name :: name in args ==> Source(args[name], map[]).Some?;
  }

  lemma AdmittedTextCommandIsSafe(m: Meaning, lit: Literal, command: Command, manifest: Manifest,
                                  functions: seq<LibraryFunction>, hasTimezone: bool)
    requires Injective(lit) && WithinKeywordSet(manifest, functions)
    requires command.TextCreate? && CommandNeeds(command, manifest)
    requires TextCommandAdmitted(lit, command, manifest, hasTimezone)
    ensures CommandIsSafe(m, command, manifest, functions)
  {
    hide Valid, CallSucceeds, ArgumentsAdmitted, ReplyAdmitted, Injective, IsPlainInput, ReplyIsSafe, CallNeeds;
    FoundActionIsDeclared(command.call.action, manifest.name, manifest.actions);
    forall text | text != "" ensures AcceptsCall(m, command.call, manifest, map["text" := JString(text)]) {
      TextCommandIsSound(m, lit, command, manifest, hasTimezone, text);
    }
    AdmittedReplyIsSafe(m, lit, command.call, manifest, map["text" := TextSchema], hasTimezone);
  }

  lemma AdmittedEventIsSafe(m: Meaning, lit: Literal, event: EventReply, manifest: Manifest, hasTimezone: bool)
    requires Injective(lit) && MessagesAreObjects(manifest) && EventAdmitted(lit, event, manifest, hasTimezone)
    ensures EventIsSafe(m, event, manifest)
  {
    hide Valid, Injective, ReplyRenders, ReplyAdmitted;
    forall payload | Valid(m, manifest.publishes[event.event].schema, payload)
      ensures var to := Resolve(event.to, map["event" := payload]); to.Some? && to.value.JString?
      ensures ReplyRenders(m, event.reply, map["event" := payload])
    {
      EventIsSound(m, lit, event, manifest, hasTimezone, payload);
    }
  }

  /** Admission of a binding whose actions declare objects where it reads fields: none of its
      commands can build an input its action rejects, every item of every valid list can be
      filtered, shown and acted on, and every reply of a command or an event can be shown. */
  lemma AdmittedBindingIsSafe(m: Meaning, lit: Literal, binding: Binding, manifest: Manifest,
                              functions: seq<LibraryFunction>)
    requires Injective(lit) && WithinKeywordSet(manifest, functions) && MessagesAreObjects(manifest)
    requires BindingAdmitted(m, lit, binding, manifest, functions)
    requires forall i :: 0 <= i < |binding.commands| ==> CommandNeeds(binding.commands[i], manifest)
    ensures forall i :: 0 <= i < |binding.commands| ==> CommandIsSafe(m, binding.commands[i], manifest, functions)
    ensures forall i :: 0 <= i < |binding.events| ==> EventIsSafe(m, binding.events[i], manifest)
  {
    hide Injective, WithinKeywordSet, MessagesAreObjects, ParsedCommandAdmitted, ListedCommandAdmitted,
      TextCommandAdmitted, EventAdmitted, ParsedCommandIsSafe, ListedCommandIsSafe, EventIsSafe, CommandInGrammar,
      CommandNeeds;
    var zoned := binding.version == 1 || binding.hasTimezone;
    forall i | 0 <= i < |binding.commands| ensures CommandIsSafe(m, binding.commands[i], manifest, functions) {
      match binding.commands[i] {
        case ParsedCreate(_, _, _, _) => AdmittedParsedCommandIsSafe(m, lit, binding.commands[i], manifest, functions);
        case Listed(_, _, _, _, _) => AdmittedListingIsSafe(m, lit, binding.commands[i], manifest, functions, zoned);
        case TextCreate(_, _) =>
          AdmittedTextCommandIsSafe(m, lit, binding.commands[i], manifest, functions, binding.hasTimezone);
      }
    }
    forall i | 0 <= i < |binding.events| ensures EventIsSafe(m, binding.events[i], manifest) {
      AdmittedEventIsSafe(m, lit, binding.events[i], manifest, zoned);
    }
  }

  // --------------------------------------------------------- what escapes admission

  const TitledItem := TypedObject.(properties := Properties(map["title" := TypedString]), required := Some(["title"]))
  const NullableItem := TitledItem.(types := ManyTypes(["object", "null"]))
  const NullableList := Anything.(types := OneType("array"), items := Items(NullableItem))
  const PrefixedList := Anything.(types := OneType("array"), prefix := Prefix([TypedNull]), items := Items(TitledItem))
  const ListingTitles := Listed("p.get", map[], None, [Display(Field("item", "title"), false)], [])
  const GettingTitle := Call("p.get", map[], [Display(Field("result", "title"), false)])

  /** A package with one action that takes nothing. */
  function Getting(output: Schema): Manifest {
    Manifest("p", [Action("get", TypedObject.(properties := Properties(map[])), output, {})], map[])
  }

  lemma ActionIsFound(output: Schema)
    ensures FindAction("p.get", "p", Getting(output).actions) == Some(Getting(output).actions[0])
    ensures IsPlainInput(Getting(output).actions[0].input)
  {
    assert "p" + "." + "get" == "p.get";
  }

  lemma StringsMatch(lit: Literal)
    ensures ArgumentSchemaMatches(lit, TypedString, TypedString)
  {
    CompatibleWithItself(lit, Normalized(lit, TypedString));
  }

  /** A reply with the title of an item or a result is admitted by properties and required. */
  lemma TitleIsAdmitted(lit: Literal, context: string, schema: Schema, hasTimezone: bool)
    requires HasField(schema, "title") && PropertyMap(schema)["title"] == TypedString
    ensures ReplyAdmitted(lit, [Display(Field(context, "title"), false)], map[context := schema], hasTimezone)
  {
    hide ArgumentSchemaMatches;
    StringsMatch(lit);
  }

  lemma NullHasNoTitle(m: Meaning, context: string)
    ensures !ReplyRenders(m, [Display(Field(context, "title"), false)], map[context := JNull])
  {
    var reply := [Display(Field(context, "title"), false)];
    assert Resolve(reply[0].source, map[context := JNull]).None?;
  }

  lemma NullIsNullable(m: Meaning)
    ensures Valid(m, NullableItem, JNull)
  {
    assert TypeHolds(NullableItem.types, JNull) by {
      assert HasType(JNull, NullableItem.types.names[1]);
    }
  }

  lemma ListingIsAdmitted(m: Meaning, lit: Literal, output: Schema, hasTimezone: bool)
    requires output.types == OneType("array") && output.items.Items?
    requires HasField(output.items.schema, "title") && PropertyMap(output.items.schema)["title"] == TypedString
    ensures CommandInGrammar(ListingTitles)
    ensures ListedCommandAdmitted(m, lit, ListingTitles, Getting(output), hasTimezone)
  {
    hide ReplyAdmitted, HasField;
    ActionIsFound(output);
    TitleIsAdmitted(lit, "item", output.items.schema, hasTimezone);
  }

  /** Items of type `[object, null]` with a required title are admitted for a listing that shows
      the title, and the valid answer `[null]` cannot be shown. */
  lemma NullableItemsEscapeAdmission(m: Meaning, lit: Literal, hasTimezone: bool)
    ensures CommandInGrammar(ListingTitles)
    ensures ListedCommandAdmitted(m, lit, ListingTitles, Getting(NullableList), hasTimezone)
    ensures Valid(m, NullableList, JArray([JNull]))
    ensures !ItemIsShown(m, ListingTitles, JArray([JNull]).elements[0])
  {
    ListingIsAdmitted(m, lit, NullableList, hasTimezone);
    NullHasNoTitle(m, "item");
    NullIsNullable(m);
  }

  /** So is a call whose reply shows the title of its result, and the valid answer null cannot
      be shown. */
  lemma NullableResultsEscapeAdmission(m: Meaning, lit: Literal, hasTimezone: bool)
    ensures CallInGrammar(GettingTitle)
    ensures CallAdmitted(lit, GettingTitle, Getting(NullableItem), map[], hasTimezone)
    ensures Valid(m, NullableItem, JNull) && !ReplyRenders(m, GettingTitle.reply, map["result" := JNull])
  {
    hide ReplyAdmitted;
    ActionIsFound(NullableItem);
    TitleIsAdmitted(lit, "result", NullableItem, hasTimezone);
    NullHasNoTitle(m, "result");
    NullIsNullable(m);
  }

  /** Admission looks at `items` alone: with `prefixItems: [{type: null}]` before items that are
      objects, the same listing is admitted, and again `[null]` cannot be shown. */
  lemma PrefixItemsEscapeAdmission(m: Meaning, lit: Literal, hasTimezone: bool)
    ensures CommandInGrammar(ListingTitles)
    ensures ListedCommandAdmitted(m, lit, ListingTitles, Getting(PrefixedList), hasTimezone)
    ensures OnlyObjects(PrefixedList.items.schema.types) && Valid(m, PrefixedList, JArray([JNull]))
    ensures !ItemIsShown(m, ListingTitles, JArray([JNull]).elements[0])
  {
    ListingIsAdmitted(m, lit, PrefixedList, hasTimezone);
    NullHasNoTitle(m, "item");
    assert Valid(m, TypedNull, JNull);
  }
}
