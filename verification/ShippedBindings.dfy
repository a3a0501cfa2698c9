/** The binding that the reminder package ships (`codegen_kit_reminders/bindings/default.yaml`) is
    admitted against the package's own manifest and the catalog's parser. */
module ShippedBindings {
  import opened Options
  import opened JsonSchema
  import opened ComponentMatching
  import opened PrimaryEdges
  import opened MatchingLaws
  import opened Bindings
  import opened AdmissionLaws

  // ------------------------------------------------------------------ what is declared

  const TypedObject: Schema := Anything.(types := OneType("object"))
  const Uuid: Schema := TypedString.(format := Some("uuid"))
  const States: Schema :=
    TypedString.(values := Some([JString("scheduled"), JString("cancelled"), JString("due"), JString("emitted")]))

  const Sometimes: Schema := Anything.(anyOf := Members([ClockSchema, Anything.(types := OneType("null"))]))

  const ReminderView: Schema :=
    TypedObject.(properties := Properties(map["id" := Uuid, "user_ref" := TypedString, "text" := TypedString,
                                              "remind_at" := ClockSchema, "state" := States,
                                              "created_at" := ClockSchema, "cancelled_at" := Sometimes,
                                              "due_at" := Sometimes, "emitted_at" := Sometimes]),
                 required := Some(["created_at", "id", "remind_at", "state", "text", "user_ref"]))

  function Taking(fields: map<string, Schema>, required: seq<string>): Schema {
    TypedObject.(properties := Properties(fields), required := Some(required), additional := AdditionalFlag(false))
  }

  const CreateInput: Schema := Taking(map["text" := TextSchema, "remind_at" := ClockSchema], ["remind_at", "text"])
  const CancelInput: Schema := Taking(map["reminder_id" := Uuid], ["reminder_id"])
  const ListOutput: Schema := Anything.(types := OneType("array"), items := Items(ReminderView))

  const DueMessage: Schema :=
    Taking(map["reminder_id" := Uuid, "user_ref" := TypedString, "text" := TypedString, "remind_at" := ClockSchema],
           ["reminder_id", "user_ref", "text", "remind_at"])

  const Reminders: Manifest :=
    Manifest("reminders",
             [Action("create", CreateInput, ReminderView, {}), Action("list", Taking(map[], []), ListOutput, {}),
              Action("cancel", CancelInput, ReminderView, {})],
             map["reminders.due" := Message(DueMessage, Some("user_ref"))])

  const Moment: Schema := Taking(map["at" := ClockSchema, "rest" := TypedString], ["at", "rest"])

  const When: LibraryFunction :=
    LibraryFunction("textparse.when",
                    Taking(map["text" := TypedString, "lang" := TypedString.(constant := Some(JString("en"))),
                               "now" := ClockSchema, "tz" := TimezoneSchema], ["text", "lang", "now", "tz"]),
                    Moment.(types := ManyTypes(["object", "null"])), "at")

  // ------------------------------------------------------------------ what is bound

  const Scheduled: seq<Part> :=
    [Text("Scheduled for "), Display(Field("result", "remind_at"), true), Text(": "),
     Display(Field("result", "text"), false)]

  const Preset: Call :=
    Call("reminders.create", map["text" := Whole("text"), "remind_at" := Field("preset", "at")], Scheduled)

  const Remind: Command :=
    ParsedCreate(Call("reminders.create", map["text" := Field("parsed", "rest"), "remind_at" := Field("parsed", "at")],
                      Scheduled),
                 "textparse.when", "en", [Preset, Preset, Preset])

  const Cancelling: Call :=
    Call("reminders.cancel", map["reminder_id" := Field("item", "id")],
         [Text("Cancelled: "), Display(Field("result", "text"), false)])

  const Listing: Command :=
    Listed("reminders.list", map[], Some(Filter("state", "scheduled")),
           [Display(Field("item", "remind_at"), true), Text(": "), Display(Field("item", "text"), false)], [Cancelling])

  const Due: EventReply :=
    EventReply("reminders.due", Field("event", "user_ref"),
               [Text("Reminder: "), Display(Field("event", "text"), false)])

  const Default: Binding := Binding(1, "reminders", true, [Remind, Listing], [Due])

  // ------------------------------------------------------------------ why it is admitted

  lemma ActionsAreDeclared()
    ensures Declares(Reminders, "reminders.create", Reminders.actions[0])
    ensures Declares(Reminders, "reminders.list", Reminders.actions[1])
    ensures Declares(Reminders, "reminders.cancel", Reminders.actions[2])
  {
    var names := ["reminders" + "." + "create", "reminders" + "." + "list", "reminders" + "." + "cancel"];
    assert names[0] == "reminders.create" && names[1] == "reminders.list" && names[2] == "reminders.cancel";
    assert |names[1]| == 14 && |names[0]| == 16 && names[0][11] == 'r' && names[2][11] == 'a';
    assert FoundAt("reminders.create", "reminders", Reminders.actions, Reminders.actions[0], 0);
    assert FoundAt("reminders.list", "reminders", Reminders.actions, Reminders.actions[1], 1);
    assert FoundAt("reminders.cancel", "reminders", Reminders.actions, Reminders.actions[2], 2);
  }

  /** A scalar without listed values and annotations is normal as it is. */
  lemma ScalarIsNormal(lit: Literal, s: Schema)
    requires IsScalar(s) && s.values.None? && s.annotations == map[]
    ensures Normalized(lit, s) == s
  {
  }

  lemma Scalars(lit: Literal)
    requires Injective(lit)
    ensures ArgumentSchemaMatches(lit, TextSchema, TextSchema) && ArgumentSchemaMatches(lit, TextSchema, TypedString)
    ensures ArgumentSchemaMatches(lit, ClockSchema, ClockSchema)
    ensures ArgumentSchemaMatches(lit, TimezoneSchema, TimezoneSchema)
    ensures ArgumentSchemaMatches(lit, Uuid, Uuid)
    ensures var en := TypedString.(constant := Some(JString("en"))); ArgumentSchemaMatches(lit, en, en)
  {
    hide ArgumentSchemaMatches;
    var en := TypedString.(constant := Some(JString("en")));
    ScalarsMatchExactly(lit, TextSchema, TextSchema);
    ScalarsMatchExactly(lit, TextSchema, TypedString);
    ScalarsMatchExactly(lit, ClockSchema, ClockSchema);
    ScalarsMatchExactly(lit, TimezoneSchema, TimezoneSchema);
    ScalarsMatchExactly(lit, Uuid, Uuid);
    ScalarsMatchExactly(lit, en, en);
  }

  /** Plain strings and instants can be shown. */
  lemma TextsCanBeShown()
    ensures ArgumentVocabulary(TypedString) && NoUnionHere(TypedString)
    ensures ArgumentVocabulary(ClockSchema) && NoUnionHere(ClockSchema)
  {
    ScalarIsInVocabulary(TypedString);
    ScalarIsInVocabulary(ClockSchema);
  }

  lemma RepliesCanBeShown()
    ensures CanBeShown(Scheduled, map["result" := ReminderView], true)
    ensures CanBeShown(Cancelling.reply, map["result" := ReminderView], true)
    ensures CanBeShown(Listing.replyEach, map["item" := ReminderView], true)
    ensures CanBeShown([Display(Due.to, false)] + Due.reply, map["event" := DueMessage], true)
  {
    hide ArgumentVocabulary;
    TextsCanBeShown();
    assert ReminderView.required.value[2] == "remind_at" && ReminderView.required.value[4] == "text";
    assert DueMessage.required.value[1] == "user_ref" && DueMessage.required.value[2] == "text";
    assert Stands(Field("result", "remind_at"), map["result" := ReminderView], ClockSchema);
    assert Stands(Field("result", "text"), map["result" := ReminderView], TypedString);
    assert Stands(Field("item", "remind_at"), map["item" := ReminderView], ClockSchema);
    assert Stands(Field("item", "text"), map["item" := ReminderView], TypedString);
    assert Stands(Field("event", "user_ref"), map["event" := DueMessage], TypedString);
    assert Stands(Field("event", "text"), map["event" := DueMessage], TypedString);
  }

  lemma EventIsAdmitted(lit: Literal)
    requires Injective(lit)
    ensures EventAdmitted(lit, Due, Reminders, true)
  {
    hide CanBeShown;
    RepliesCanBeShown();
    EventsExactly(lit, Due, Reminders, true);
  }

  lemma CancelIsAdmitted(lit: Literal)
    requires Injective(lit)
    ensures CallAdmitted(lit, Cancelling, Reminders, map["item" := ReminderView], true)
  {
    hide CanBeShown, ArgumentSchemaMatches, CallAdmitted;
    var contexts := map["item" := ReminderView];
    ActionsAreDeclared();
    RepliesCanBeShown();
    Scalars(lit);
    assert ReminderView.required.value[1] == "id";
    assert Stands(Field("item", "id"), contexts, Uuid);
    assert CanBeBuilt(lit, Cancelling.args, CancelInput, contexts);
    CallsExactly(lit, Cancelling, Reminders, contexts, true);
    assert Declares(Reminders, Cancelling.action, Reminders.actions[2]);
  }

  lemma ListingIsAdmittedHere(m: Meaning, lit: Literal)
    requires Injective(lit)
    ensures ListedCommandAdmitted(m, lit, Listing, Reminders, true)
  {
    hide CanBeShown, ArgumentSchemaMatches, CallAdmitted;
    ActionsAreDeclared();
    FoundExactly("reminders.list", "reminders", Reminders.actions, Reminders.actions[1]);
    RepliesCanBeShown();
    RepliesExactly(lit, Listing.replyEach, map["item" := ReminderView], true);
    CancelIsAdmitted(lit);
    assert CanBeBuilt(lit, map[], Taking(map[], []), map[]);
    ArgumentsExactly(lit, map[], Taking(map[], []), map[]);
    assert ReminderView.required.value[3] == "state";
    StateIsFiltered(m);
  }

  lemma StateIsFiltered(m: Meaning)
    ensures Valid(WithoutFormats(m), States, JString("scheduled"))
  {
    assert States.values.value[0] == JString("scheduled");
  }

  // ------------------------------------------------------------------ the parsed command

  lemma ParserCanBeCalled(lit: Literal)
    requires Injective(lit)
    ensures ArgumentsAdmitted(lit, ParseArguments, When.input, ParseContexts("en"))
  {
    hide ArgumentSchemaMatches;
    Scalars(lit);
    var contexts := ParseContexts("en");
    assert Stands(Whole("text"), contexts, TextSchema) && Stands(Whole("clock"), contexts, ClockSchema);
    assert Stands(Whole("timezone"), contexts, TimezoneSchema);
    assert Stands(Whole("language"), contexts, TypedString.(constant := Some(JString("en"))));
    assert When.input.required.value == ["text", "lang", "now", "tz"];
    ArgumentsExactly(lit, ParseArguments, When.input, contexts);
  }

  lemma MomentUnwraps()
    ensures Unwrapped(When.output) == Moment
  {
    NullIsTakenOff(Moment, Anything.(types := OneType("null")), ["object", "null"],
                   [Moment, Anything.(types := OneType("null"))]);
  }

  lemma MomentIsNormal(lit: Literal)
    ensures PropertyMap(Normalized(lit, Moment)) == map["at" := ClockSchema, "rest" := TypedString]
    ensures "at" in RequiredNames(Normalized(lit, Moment)) && "rest" in RequiredNames(Normalized(lit, Moment))
  {
    hide Normalized;
    NormalizedKeepsPropertyNames(lit, Moment);
    ScalarIsNormal(lit, ClockSchema);
    ScalarIsNormal(lit, TypedString);
    assert PropertyMap(Moment) == map["at" := ClockSchema, "rest" := TypedString];
    assert RequiredNames(Moment)[0] == "at" && RequiredNames(Moment)[1] == "rest";
    NormalizedKeepsRequired(lit, Moment, "at");
    NormalizedKeepsRequired(lit, Moment, "rest");
  }

  lemma ParsedIs(lit: Literal)
    ensures PropertyMap(NonNullSchema(lit, When.output)) == map["at" := ClockSchema, "rest" := TypedString]
    ensures HasField(NonNullSchema(lit, When.output), "rest")
    ensures PropertyMap(ParsedSchema(lit, When)) == map["at" := ClockSchema, "rest" := TextSchema]
    ensures HasField(ParsedSchema(lit, When), "at") && HasField(ParsedSchema(lit, When), "rest")
  {
    hide Normalized, Unwrapped;
    UnwrappedCommutes(lit, When.output);
    MomentUnwraps();
    MomentIsNormal(lit);
    assert TypedString.(minLength := Some(1)) == TextSchema;
  }

  lemma MomentIsInferred(lit: Literal)
    requires Injective(lit)
    ensures PrimaryOutputMatches(lit, When.output, "at", ClockSchema)
  {
    hide ArgumentSchemaMatches, InVocabulary;
    MomentUnwraps();
    Scalars(lit);
    ScalarIsInVocabulary(ClockSchema);
    assert ClockSchema.(minLength := None) == ClockSchema;
    assert Moment.required.value[0] == "at";
    assert Reached(ClockSchema, ClockSchema) && SaysMore(ClockSchema);
    EdgesAreInferredExactly(lit, When.output, "at", ClockSchema);
  }

  lemma CreateIsAdmitted(lit: Literal, call: Call, contexts: Contexts, text: Schema)
    requires Injective(lit)
    requires call.action == "reminders.create" && call.reply == Scheduled && call.args.Keys == {"text", "remind_at"}
    requires Stands(call.args["text"], contexts, text) && ArgumentSchemaMatches(lit, text, TextSchema)
    requires Stands(call.args["remind_at"], contexts, ClockSchema)
    ensures CallAdmitted(lit, call, Reminders, contexts, true)
  {
    hide CanBeShown, ArgumentSchemaMatches, CallAdmitted, Stands;
    ActionsAreDeclared();
    RepliesCanBeShown();
    Scalars(lit);
    assert CreateInput.required.value == ["remind_at", "text"];
    assert CanBeBuilt(lit, call.args, CreateInput, contexts);
    CallsExactly(lit, call, Reminders, contexts, true);
    assert Declares(Reminders, call.action, Reminders.actions[0]);
  }

  lemma RemindCallIsAdmitted(lit: Literal)
    requires Injective(lit)
    ensures CallAdmitted(lit, Remind.call, Reminders, map["parsed" := ParsedSchema(lit, When)], true)
  {
    hide CanBeShown, ArgumentSchemaMatches, CallAdmitted, NonNullSchema, ParsedSchema;
    ParsedIs(lit);
    Scalars(lit);
    var parsed := map["parsed" := ParsedSchema(lit, When)];
    assert Stands(Field("parsed", "rest"), parsed, TextSchema);
    assert Stands(Field("parsed", "at"), parsed, ClockSchema);
    CreateIsAdmitted(lit, Remind.call, parsed, TextSchema);
  }

  lemma PresetIsAdmitted(lit: Literal)
    requires Injective(lit)
    ensures CallAdmitted(lit, Preset, Reminders, map["text" := TextSchema, "preset" := PresetSchema], true)
  {
    hide CanBeShown, ArgumentSchemaMatches, CallAdmitted;
    Scalars(lit);
    var preset := map["text" := TextSchema, "preset" := PresetSchema];
    assert PresetSchema.required.value[0] == "at";
    assert Stands(Field("preset", "at"), preset, ClockSchema) && Stands(Whole("text"), preset, TextSchema);
    CreateIsAdmitted(lit, Preset, preset, TextSchema);
  }

  lemma RemindIsAdmitted(lit: Literal)
    requires Injective(lit)
    ensures ParsedCommandAdmitted(lit, Remind, Reminders, [When])
  {
    hide CallAdmitted, PrimaryOutputMatches, NonNullSchema, ArgumentsAdmitted, ParsedSchema;
    ActionsAreDeclared();
    FoundExactly("reminders.create", "reminders", Reminders.actions, Reminders.actions[0]);
    ParserCanBeCalled(lit);
    ParsedIs(lit);
    MomentIsInferred(lit);
    RemindCallIsAdmitted(lit);
    PresetIsAdmitted(lit);
  }

  lemma DefaultIsInGrammar()
    ensures CommandInGrammar(Remind) && CommandInGrammar(Listing) && ReplyInGrammar(Due.reply)
  {
  }

  /** The default binding is admitted, and by no other package. */
  lemma DefaultIsAdmitted(m: Meaning, lit: Literal)
    requires Injective(lit)
    ensures BindingAdmitted(m, lit, Default, Reminders, [When])
    ensures forall name :: name != "reminders" ==>
              !BindingAdmitted(m, lit, Default, Reminders.(name := name), [When])
  {
    hide ParsedCommandAdmitted, ListedCommandAdmitted, EventAdmitted, CommandInGrammar, ReplyInGrammar;
    DefaultIsInGrammar();
    RemindIsAdmitted(lit);
    ListingIsAdmittedHere(m, lit);
    EventIsAdmitted(lit);
    assert Default.commands[0] == Remind && Default.commands[1] == Listing && Default.events[0] == Due;
  }
}
