/** Which bindings `validate_binding` and `validate_binding_v2` must admit, and which they must
    refuse, in terms of what the manifest declares. */
module AdmissionLaws {
  import opened Options
  import opened JsonSchema
  import opened ComponentMatching
  import opened PrimaryEdges
  import opened MatchingLaws
  import opened Bindings

  // ------------------------------------------------------------------ parts of a binding

  /** What a reference stands for: a value supplied whole, or a required declared field. */
  ghost predicate Stands(ref: Reference, contexts: Contexts, schema: Schema) {
    match ref
    case Whole(context) => context in contexts && schema == contexts[context]
    case Field(context, name) =>
      && context in contexts && name in RequiredNames(contexts[context])
      && name in PropertyMap(contexts[context]) && schema == PropertyMap(contexts[context])[name]
  }

  lemma SourcesExactly(ref: Reference, contexts: Contexts, schema: Schema)
    ensures Source(ref, contexts) == Some(schema) <==> Stands(ref, contexts, schema)
  {
  }

  /** The action at position `k` is the first of this qualified name. */
  predicate FoundAt(name: string, packageName: string, actions: seq<Action>, action: Action, k: nat) {
    && k < |actions| && actions[k] == action && name == packageName + "." + action.name
    && forall j :: 0 <= j < k ==> name != packageName + "." + actions[j].name
  }

  /** The manifest declares the action under this qualified name, and no other before it. */
  ghost predicate Declares(manifest: Manifest, name: string, action: Action) {
    exists k: nat :: FoundAt(name, manifest.name, manifest.actions, action, k)
  }

  lemma {:induction false} FoundExactly(name: string, packageName: string, actions: seq<Action>, action: Action)
    ensures FindAction(name, packageName, actions) == Some(action) <==>
              exists k: nat :: FoundAt(name, packageName, actions, action, k)
  {
    if actions != [] {
      if name == packageName + "." + actions[0].name {
        assert FoundAt(name, packageName, actions, actions[0], 0);
      } else {
        FoundExactly(name, packageName, actions[1..], action);
        FoundBehindFirst(name, packageName, actions, action);
      }
    }
  }

  lemma FoundBehindFirst(name: string, packageName: string, actions: seq<Action>, action: Action)
    requires actions != [] && name != packageName + "." + actions[0].name
    ensures (exists k: nat :: FoundAt(name, packageName, actions, action, k)) <==>
            (exists k: nat :: FoundAt(name, packageName, actions[1..], action, k))
  {
    if k: nat :| FoundAt(name, packageName, actions, action, k) {
      assert FoundAt(name, packageName, actions[1..], action, k - 1);
    }
    if k: nat :| FoundAt(name, packageName, actions[1..], action, k) {
      assert forall j :: 0 < j <= k ==> actions[j] == actions[1..][j - 1];
      assert FoundAt(name, packageName, actions, action, k + 1);
    }
  }

  /** A schema can be shown as text exactly when it is a typed string without a format, within the
      vocabulary; and as a date exactly when its format is that of an instant. */
  lemma ShownExactly(lit: Literal, schema: Schema)
    requires Injective(lit)
    ensures ArgumentSchemaMatches(lit, schema, TypedString) <==>
              NoUnionHere(schema) && ArgumentVocabulary(schema) && schema.types == OneType("string")
              && schema.format.None?
    ensures ArgumentSchemaMatches(lit, schema, ClockSchema) <==>
              NoUnionHere(schema) && ArgumentVocabulary(schema) && schema.types == OneType("string")
              && schema.format == Some("date-time")
  {
    hide ArgumentSchemaMatches, ArgumentVocabulary, Alike;
    ScalarIsInVocabulary(TypedString);
    ScalarIsInVocabulary(ClockSchema);
    if NoUnionHere(schema) {
      TypedSchemasMatchExactly(lit, schema, TypedString);
      TypedSchemasMatchExactly(lit, schema, ClockSchema);
    } else {
      UnionsMatchExactly(lit, schema, TypedString);
      UnionsMatchExactly(lit, schema, ClockSchema);
      AlikeKeepsUnions(schema.(minLength := None), TypedString.(minLength := None));
      AlikeKeepsUnions(schema.(minLength := None), ClockSchema.(minLength := None));
    }
  }

  lemma AlikeKeepsUnions(a: Schema, b: Schema)
    ensures Alike(a, b) ==> (NoUnionHere(a) <==> NoUnionHere(b))
  {
    if Alike(a, b) {
      assert AlikeUnions(a.anyOf, b.anyOf) && AlikeUnions(a.oneOf, b.oneOf);
      assert a.anyOf.Members? <==> b.anyOf.Members?;
      assert a.oneOf.Members? <==> b.oneOf.Members?;
    }
  }

  /** Every part of a reply shows a text, or a date where the product has a timezone. */
  ghost predicate CanBeShown(reply: seq<Part>, contexts: Contexts, hasTimezone: bool) {
    forall i :: 0 <= i < |reply| && reply[i].Display? ==>
      exists schema ::
        && Stands(reply[i].source, contexts, schema)
        && NoUnionHere(schema) && ArgumentVocabulary(schema) && schema.types == OneType("string")
        && if reply[i].monthWord then hasTimezone && schema.format == Some("date-time") else schema.format.None?
  }

  lemma RepliesExactly(lit: Literal, reply: seq<Part>, contexts: Contexts, hasTimezone: bool)
    requires Injective(lit)
    ensures ReplyAdmitted(lit, reply, contexts, hasTimezone) <==> CanBeShown(reply, contexts, hasTimezone)
  {
    hide ArgumentSchemaMatches, ArgumentVocabulary, NoUnionHere;
    forall i | 0 <= i < |reply| && reply[i].Display?
      ensures forall schema ::
                Source(reply[i].source, contexts) == Some(schema) <==> Stands(reply[i].source, contexts, schema)
      ensures Source(reply[i].source, contexts).Some? ==>
                var schema := Source(reply[i].source, contexts).value;
                && (ArgumentSchemaMatches(lit, schema, TypedString) <==>
                      NoUnionHere(schema) && ArgumentVocabulary(schema) && schema.types == OneType("string")
                      && schema.format.None?)
                && (ArgumentSchemaMatches(lit, schema, ClockSchema) <==>
                      NoUnionHere(schema) && ArgumentVocabulary(schema) && schema.types == OneType("string")
                      && schema.format == Some("date-time"))
    {
      forall schema
        ensures Source(reply[i].source, contexts) == Some(schema) <==> Stands(reply[i].source, contexts, schema)
      {
        SourcesExactly(reply[i].source, contexts, schema);
      }
      if Source(reply[i].source, contexts).Some? {
        ShownExactly(lit, Source(reply[i].source, contexts).value);
      }
    }
  }

  /** Every argument is declared, every required one is given, and each is given something that
      matches it. */
  ghost predicate CanBeBuilt(lit: Literal, args: map<string, Reference>, input: Schema, contexts: Contexts) {
    && input.properties.Properties?
    && (forall name :: name in RequiredNames(input) ==> name in args)
    && forall name :: name in args ==>
         name in PropertyMap(input)
         && exists schema :: Stands(args[name], contexts, schema)
                             && ArgumentSchemaMatches(lit, schema, PropertyMap(input)[name])
  }

  lemma ArgumentsExactly(lit: Literal, args: map<string, Reference>, input: Schema, contexts: Contexts)
    ensures ArgumentsAdmitted(lit, args, input, contexts) <==> CanBeBuilt(lit, args, input, contexts)
  {
    hide ArgumentSchemaMatches;
    forall name | name in args
      ensures forall schema :: Source(args[name], contexts) == Some(schema) <==> Stands(args[name], contexts, schema)
    {
      forall schema ensures Source(args[name], contexts) == Some(schema) <==> Stands(args[name], contexts, schema) {
        SourcesExactly(args[name], contexts, schema);
      }
    }
    if CanBeBuilt(lit, args, input, contexts) {
      assert args.Keys <= PropertyMap(input).Keys;
    }
  }

  /** A call is admitted exactly when its action is declared, its arguments can be built from the
      contexts, and its reply can be shown from the output. */
  lemma CallsExactly(lit: Literal, call: Call, manifest: Manifest, contexts: Contexts, hasTimezone: bool)
    requires Injective(lit)
    ensures CallAdmitted(lit, call, manifest, contexts, hasTimezone) <==>
              exists action ::
                && Declares(manifest, call.action, action)
                && CanBeBuilt(lit, call.args, action.input, contexts)
                && CanBeShown(call.reply, map["result" := action.output], hasTimezone)
  {
    hide ArgumentsAdmitted, ReplyAdmitted, CanBeBuilt, CanBeShown, FindAction;
    forall action ensures FindAction(call.action, manifest.name, manifest.actions) == Some(action) <==>
                          Declares(manifest, call.action, action)
    {
      FoundExactly(call.action, manifest.name, manifest.actions, action);
    }
    var found := FindAction(call.action, manifest.name, manifest.actions);
    if found.Some? {
      ArgumentsExactly(lit, call.args, found.value.input, contexts);
      RepliesExactly(lit, call.reply, map["result" := found.value.output], hasTimezone);
    }
  }

  // ------------------------------------------------------------------ commands and events

  /** The text a user wrote, as the channel supplies it, may be passed to a scalar exactly when it
      is a string without format or fixed values, and asks for one character at most. */
  lemma TextIsPassedExactly(lit: Literal, parameter: Schema)
    requires Injective(lit) && IsScalar(parameter)
    ensures ArgumentSchemaMatches(lit, TextSchema, parameter) <==>
              && parameter.types == OneType("string") && parameter.format.None?
              && parameter.values.None? && parameter.constant.None?
              && (parameter.minLength.Some? ==> parameter.minLength.value <= 1)
  {
    ScalarsMatchExactly(lit, TextSchema, parameter);
  }

  /** A text command is admitted exactly when it passes the text, and nothing else, to a declared
      action that can be called with it alone, its reply can be shown, and its errors are those of
      the action. */
  lemma TextCommandsExactly(lit: Literal, command: Command, manifest: Manifest, hasTimezone: bool)
    requires Injective(lit) && command.TextCreate?
    ensures TextCommandAdmitted(lit, command, manifest, hasTimezone) <==>
              exists action, name ::
                && Declares(manifest, command.call.action, action)
                && command.call.args == map[name := Whole("text")]
                && action.input.properties.Properties? && name in PropertyMap(action.input)
                && (forall other :: other in RequiredNames(action.input) ==> other == name)
                && ArgumentSchemaMatches(lit, TextSchema, PropertyMap(action.input)[name])
                && CanBeShown(command.call.reply, map["result" := action.output], hasTimezone)
                && command.onError <= action.errors
  {
    hide ArgumentSchemaMatches, CanBeShown, CallAdmitted, FindAction;
    var call, contexts := command.call, map["text" := TextSchema];
    CallsExactly(lit, call, manifest, contexts, hasTimezone);
    forall action ensures FindAction(call.action, manifest.name, manifest.actions) == Some(action) <==>
                          Declares(manifest, call.action, action)
    {
      FoundExactly(call.action, manifest.name, manifest.actions, action);
    }
    hide Declares;
    if TextCommandAdmitted(lit, command, manifest, hasTimezone) {
      var name := OneName(call.args);
      var action := FindAction(call.action, manifest.name, manifest.actions).value;
      assert call.args == map[name := Whole("text")];
      assert Stands(call.args[name], contexts, TextSchema);
    }
    if action, name :|
      && Declares(manifest, call.action, action) && call.args == map[name := Whole("text")]
      && action.input.properties.Properties? && name in PropertyMap(action.input)
      && (forall other :: other in RequiredNames(action.input) ==> other == name)
      && ArgumentSchemaMatches(lit, TextSchema, PropertyMap(action.input)[name])
      && CanBeShown(call.reply, map["result" := action.output], hasTimezone) && command.onError <= action.errors
    {
      assert Stands(call.args[name], contexts, TextSchema);
      assert CanBeBuilt(lit, call.args, action.input, contexts);
    }
  }

  lemma OneName(args: map<string, Reference>) returns (name: string)
    requires |args| == 1
    ensures args.Keys == {name}
  {
    assert |args.Keys| == 1;
    name :| name in args;
    assert |args.Keys - {name}| == 0;
  }

  /** The action can be called without arguments and answers an array; the filter, if there is
      one, asks a required declared field for a value its schema accepts, formats aside; each item
      can be shown, and each button called from it. */
  ghost predicate CanBeListed(m: Meaning, lit: Literal, command: Command, manifest: Manifest, hasTimezone: bool,
                              action: Action)
    requires command.Listed?
  {
    && command.args == map[] && action.input.properties.Properties? && RequiredNames(action.input) == []
    && action.output.types == OneType("array") && action.output.items.Items?
    && var contexts := map["item" := action.output.items.schema];
    && (command.filter.Some? ==>
          exists field ::
            && Stands(Field("item", command.filter.value.field), contexts, field)
            && Valid(WithoutFormats(m), field, JString(command.filter.value.equals)))
    && CanBeShown(command.replyEach, contexts, hasTimezone)
    && forall i :: 0 <= i < |command.buttons| ==>
         CallAdmitted(lit, command.buttons[i], manifest, contexts, hasTimezone)
  }

  /** A listing is admitted exactly when its declared action can be listed. */
  lemma ListingsExactly(m: Meaning, lit: Literal, command: Command, manifest: Manifest, hasTimezone: bool)
    requires Injective(lit) && command.Listed?
    ensures ListedCommandAdmitted(m, lit, command, manifest, hasTimezone) <==>
              exists action ::
                && Declares(manifest, command.action, action)
                && CanBeListed(m, lit, command, manifest, hasTimezone, action)
  {
    hide CanBeListed, ListedCommandAdmitted;
    forall action ensures FindAction(command.action, manifest.name, manifest.actions) == Some(action) <==>
                          Declares(manifest, command.action, action)
    {
      FoundExactly(command.action, manifest.name, manifest.actions, action);
    }
    hide Declares, FindAction;
    var found := FindAction(command.action, manifest.name, manifest.actions);
    FoundCanBeListed(m, lit, command, manifest, hasTimezone);
  }

  lemma FoundCanBeListed(m: Meaning, lit: Literal, command: Command, manifest: Manifest, hasTimezone: bool)
    requires Injective(lit) && command.Listed?
    ensures var found := FindAction(command.action, manifest.name, manifest.actions);
            ListedCommandAdmitted(m, lit, command, manifest, hasTimezone) <==>
              found.Some? && CanBeListed(m, lit, command, manifest, hasTimezone, found.value)
  {
    hide ArgumentSchemaMatches, CanBeShown, CallAdmitted, FindAction, Valid, ReplyAdmitted, ArgumentsAdmitted;
    var found := FindAction(command.action, manifest.name, manifest.actions);
    if found.Some? {
      var action := found.value;
      ArgumentsExactly(lit, command.args, action.input, map[]);
      NothingIsBuilt(lit, command.args, action.input);
      if action.output.items.Items? {
        RepliesExactly(lit, command.replyEach, map["item" := action.output.items.schema], hasTimezone);
      }
    }
  }

  lemma NothingIsBuilt(lit: Literal, args: map<string, Reference>, input: Schema)
    ensures CanBeBuilt(lit, args, input, map[]) <==>
              args == map[] && input.properties.Properties? && RequiredNames(input) == []
  {
    hide ArgumentSchemaMatches;
    if RequiredNames(input) != [] {
      assert RequiredNames(input)[0] in RequiredNames(input);
    }
    if name :| name in args {
      assert forall schema :: !Stands(args[name], map[], schema);
    }
  }

  /** An event reply is admitted exactly when the package publishes the event with a recipient, a
      required plain string, the reply goes there, and it can be shown from the message. */
  lemma EventsExactly(lit: Literal, event: EventReply, manifest: Manifest, hasTimezone: bool)
    requires Injective(lit)
    ensures EventAdmitted(lit, event, manifest, hasTimezone) <==>
              && event.event in manifest.publishes
              && var message := manifest.publishes[event.event];
              && message.recipient.Some? && event.to == Field("event", message.recipient.value)
              && CanBeShown([Display(event.to, false)] + event.reply, map["event" := message.schema], hasTimezone)
  {
    hide ArgumentSchemaMatches, CanBeShown;
    if event.event in manifest.publishes {
      var contexts := map["event" := manifest.publishes[event.event].schema];
      var all := [Display(event.to, false)] + event.reply;
      RepliesExactly(lit, all, contexts, hasTimezone);
      assert ReplyAdmitted(lit, all, contexts, hasTimezone) <==>
             ReplyAdmitted(lit, event.reply, contexts, hasTimezone)
             && Source(event.to, contexts).Some?
             && ArgumentSchemaMatches(lit, Source(event.to, contexts).value, TypedString) by {
        FirstPart(lit, event.to, event.reply, contexts, hasTimezone);
      }
    }
  }

  lemma FirstPart(lit: Literal, to: Reference, reply: seq<Part>, contexts: Contexts, hasTimezone: bool)
    ensures ReplyAdmitted(lit, [Display(to, false)] + reply, contexts, hasTimezone) <==>
            ReplyAdmitted(lit, reply, contexts, hasTimezone)
            && Source(to, contexts).Some? && ArgumentSchemaMatches(lit, Source(to, contexts).value, TypedString)
  {
    hide ArgumentSchemaMatches;
    var all := [Display(to, false)] + reply;
    assert forall i :: 0 <= i < |reply| ==> all[i + 1] == reply[i];
    assert all[0] == Display(to, false);
  }

  // ------------------------------------------------------------------ whole bindings

  function OneCommand(binding: Binding, i: nat): Binding
    requires i < |binding.commands|
  {
    binding.(commands := [binding.commands[i]], events := [])
  }

  function OneEvent(binding: Binding, i: nat): Binding
    requires i < |binding.events|
  {
    binding.(commands := [], events := [binding.events[i]])
  }

  /** A binding is admitted exactly when it is one of the package, and each of its commands and
      events would be alone. */
  lemma BindingsPiecewise(m: Meaning, lit: Literal, binding: Binding, manifest: Manifest,
                          functions: seq<LibraryFunction>)
    ensures BindingAdmitted(m, lit, binding, manifest, functions) <==>
              && binding.package == manifest.name
              && (forall i :: 0 <= i < |binding.commands| ==>
                    BindingAdmitted(m, lit, OneCommand(binding, i), manifest, functions))
              && (forall i :: 0 <= i < |binding.events| ==>
                    BindingAdmitted(m, lit, OneEvent(binding, i), manifest, functions))
  {
    hide ParsedCommandAdmitted, ListedCommandAdmitted, TextCommandAdmitted, EventAdmitted, CommandInGrammar,
      ReplyInGrammar;
    forall i | 0 <= i < |binding.commands| ensures OneCommand(binding, i).commands[0] == binding.commands[i] {
    }
    forall i | 0 <= i < |binding.events| ensures OneEvent(binding, i).events[0] == binding.events[i] {
    }
  }

  /** A package that declares more, behind what it declares now. */
  ghost predicate DeclaresMore(more: Manifest, manifest: Manifest) {
    && more.name == manifest.name && manifest.actions <= more.actions
    && forall event :: event in manifest.publishes ==>
         event in more.publishes && more.publishes[event] == manifest.publishes[event]
  }

  lemma {:induction false} FoundStays(name: string, packageName: string, actions: seq<Action>, more: seq<Action>)
    requires actions <= more && FindAction(name, packageName, actions).Some?
    ensures FindAction(name, packageName, more) == FindAction(name, packageName, actions)
  {
    if name != packageName + "." + actions[0].name {
      FoundStays(name, packageName, actions[1..], more[1..]);
    }
  }

  lemma CallStays(lit: Literal, call: Call, manifest: Manifest, more: Manifest, contexts: Contexts, hasTimezone: bool)
    requires DeclaresMore(more, manifest) && CallAdmitted(lit, call, manifest, contexts, hasTimezone)
    ensures CallAdmitted(lit, call, more, contexts, hasTimezone)
    ensures FindAction(call.action, more.name, more.actions) == FindAction(call.action, manifest.name, manifest.actions)
  {
    hide ArgumentsAdmitted, ReplyAdmitted, FindAction;
    FoundStays(call.action, manifest.name, manifest.actions, more.actions);
  }

  lemma CommandStays(m: Meaning, lit: Literal, command: Command, manifest: Manifest, more: Manifest,
                     functions: seq<LibraryFunction>, hasTimezone: bool)
    requires DeclaresMore(more, manifest)
    ensures command.ParsedCreate? && ParsedCommandAdmitted(lit, command, manifest, functions) ==>
            ParsedCommandAdmitted(lit, command, more, functions)
    ensures command.Listed? && ListedCommandAdmitted(m, lit, command, manifest, hasTimezone) ==>
            ListedCommandAdmitted(m, lit, command, more, hasTimezone)
    ensures command.TextCreate? && TextCommandAdmitted(lit, command, manifest, hasTimezone) ==>
            TextCommandAdmitted(lit, command, more, hasTimezone)
  {
    hide ArgumentsAdmitted, ReplyAdmitted, CallAdmitted, FindAction, PrimaryOutputMatches, NonNullSchema, ParsedSchema;
    hide Valid;
    match command
    case ParsedCreate(call, _, _, presets) =>
      if ParsedCommandAdmitted(lit, command, manifest, functions) {
        var parsed := ParsedSchema(lit, FunctionOf(command.parser, functions));
        CallStays(lit, call, manifest, more, map["parsed" := parsed], true);
        forall i | 0 <= i < |presets|
          ensures CallAdmitted(lit, presets[i], more, map["text" := TextSchema, "preset" := PresetSchema], true)
        {
          CallStays(lit, presets[i], manifest, more, map["text" := TextSchema, "preset" := PresetSchema], true);
        }
      }
    case Listed(action, _, _, _, buttons) =>
      if ListedCommandAdmitted(m, lit, command, manifest, hasTimezone) {
        FoundStays(action, manifest.name, manifest.actions, more.actions);
        var item := ActionOf(action, manifest).output.items.schema;
        forall i | 0 <= i < |buttons| ensures CallAdmitted(lit, buttons[i], more, map["item" := item], hasTimezone) {
          CallStays(lit, buttons[i], manifest, more, map["item" := item], hasTimezone);
        }
      }
    case TextCreate(call, _) =>
      if TextCommandAdmitted(lit, command, manifest, hasTimezone) {
        CallStays(lit, call, manifest, more, map["text" := TextSchema], hasTimezone);
      }
  }

  /** What is admitted stays admitted when the package declares more actions and events. */
  lemma AdmissionStays(m: Meaning, lit: Literal, binding: Binding, manifest: Manifest, more: Manifest,
                       functions: seq<LibraryFunction>)
    requires BindingAdmitted(m, lit, binding, manifest, functions) && DeclaresMore(more, manifest)
    ensures BindingAdmitted(m, lit, binding, more, functions)
  {
    hide ParsedCommandAdmitted, ListedCommandAdmitted, TextCommandAdmitted, EventAdmitted, CommandInGrammar,
      ReplyInGrammar;
    forall i | 0 <= i < |binding.commands|
      ensures match binding.commands[i]
              case ParsedCreate(_, _, _, _) => ParsedCommandAdmitted(lit, binding.commands[i], more, functions)
              case Listed(_, _, _, _, _) =>
                ListedCommandAdmitted(m, lit, binding.commands[i], more, binding.version == 1 || binding.hasTimezone)
              case TextCreate(_, _) => TextCommandAdmitted(lit, binding.commands[i], more, binding.hasTimezone)
    {
      CommandStays(m, lit, binding.commands[i], manifest, more, functions, binding.version == 1 || binding.hasTimezone);
      CommandStays(m, lit, binding.commands[i], manifest, more, functions, binding.hasTimezone);
    }
    forall i | 0 <= i < |binding.events|
      ensures EventAdmitted(lit, binding.events[i], more, binding.version == 1 || binding.hasTimezone)
    {
      EventStays(lit, binding.events[i], manifest, more, binding.version == 1 || binding.hasTimezone);
    }
  }

  lemma EventStays(lit: Literal, event: EventReply, manifest: Manifest, more: Manifest, hasTimezone: bool)
    requires DeclaresMore(more, manifest) && EventAdmitted(lit, event, manifest, hasTimezone)
    ensures EventAdmitted(lit, event, more, hasTimezone)
  {
  }
}
