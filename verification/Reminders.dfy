/** The reminder package: due transition, transactional outbox, publication and the idempotent
    consumers of its event (`codegen_kit_reminders/runtime.py`, `api.py`, `identity.py` and
    `services/backend/src/core/idempotent_consumer.py`).

    Committed transactions are atomic steps; ticks, workers, callers and consumers interleave
    freely, and any worker may crash between two of its steps. */
module Reminders {
  import opened Options
  import opened Publications

  type Instant = int
  type Id = nat
  type Process = nat

  datatype ReminderState = Scheduled | Cancelled | Due | Emitted

  datatype Reminder = Reminder(
    user: string, text: string, remindAt: Instant, state: ReminderState, createdAt: Instant,
    cancelledAt: Option<Instant>, dueAt: Option<Instant>, emittedAt: Option<Instant>)

  /** Name-based identities are injective in the name (section 4.3 of RFC 4122). */
  datatype EventId = DueEventId(reminder: Id)

  datatype Emission = Emission(eventId: EventId, occurredAt: Instant, emittedAt: Option<Instant>)

  /** A published `reminders.due`. */
  datatype Event = Event(eventId: EventId, occurredAt: Instant, reminder: Id, user: string, text: string,
                         remindAt: Instant)

  datatype Tables = Tables(reminders: map<Id, Reminder>, emissions: map<Id, Emission>)

  // ----------------------------------------------------------------- transactions

  function Created(t: Tables, id: Id, user: string, text: string, remindAt: Instant, now: Instant): Tables {
    t.(reminders := t.reminders[id := Reminder(user, text, remindAt, Scheduled, now, None, None, None)])
  }

  predicate CanCancel(t: Tables, id: Id, user: string) {
    id in t.reminders && t.reminders[id].user == user && t.reminders[id].state == Scheduled
  }

  function AfterCancel(t: Tables, id: Id, user: string, now: Instant): Tables {
    if CanCancel(t, id, user)
    then t.(reminders := t.reminders[id := t.reminders[id].(state := Cancelled, cancelledAt := Some(now))])
    else t
  }

  predicate BecomesDue(t: Tables, id: Id, at: Instant) {
    id in t.reminders && t.reminders[id].state == Scheduled && t.reminders[id].remindAt <= at
  }

  function AfterTick(t: Tables, at: Instant): Tables {
    Tables(
      map id | id in t.reminders ::
        if BecomesDue(t, id, at) then t.reminders[id].(state := Due, dueAt := Some(at)) else t.reminders[id],
      map id | id in t.emissions.Keys + t.reminders.Keys && (id in t.emissions || BecomesDue(t, id, at)) ::
        if id in t.emissions then t.emissions[id] else Emission(DueEventId(id), at, None))
  }

  predicate IsPending(t: Tables, id: Id) {
    id in t.emissions && id in t.reminders && t.emissions[id].emittedAt.None?
  }

  function EventFor(t: Tables, id: Id): Event
    requires id in t.emissions && id in t.reminders
  {
    var e, r := t.emissions[id], t.reminders[id];
    Event(e.eventId, e.occurredAt, id, r.user, r.text, r.remindAt)
  }

  /** Both updates of a confirmation carry their own guard. */
  function Confirmed(t: Tables, id: Id, emittedAt: Instant): Tables {
    Tables(
      if id in t.reminders && t.reminders[id].state == Due
      then t.reminders[id := t.reminders[id].(state := Emitted, emittedAt := Some(emittedAt))] else t.reminders,
      if id in t.emissions && t.emissions[id].emittedAt.None?
      then t.emissions[id := t.emissions[id].(emittedAt := Some(emittedAt))] else t.emissions)
  }

  // ------------------------------------------------------------------- the machine

  /** Where the handling of one job delivery stands. */
  datatype Worker =
    | Ticking(at: Instant)
    | Transitioned
    | Publishing(rows: seq<Event>)
    | Confirming(event: Event, emittedAt: Instant, rest: seq<Event>)

  datatype Marker = Marker(group: string, eventId: EventId)
  datatype Effect = Effect(group: string, event: Event)

  datatype State = State(
    tables: Tables,
    workers: map<Process, Worker>,
    stream: seq<Event>,
    markers: set<Marker>,
    effects: seq<Effect>)

  datatype Step =
    | Create(id: Id, user: string, text: string, remindAt: Instant, now: Instant)
    | Cancel(id: Id, user: string, now: Instant)
    | ReceiveJob(p: Process, at: Instant)
    | Transition(p: Process)
    | ReadPending(p: Process, rows: seq<Event>)
    | Publish(p: Process, outcome: Outcome, now: Instant)
    | Confirm(p: Process)
    | Stop(p: Process)
    | Consume(group: string, k: nat)

  const Initial := State(Tables(map[], map[]), map[], [], {}, [])

  /** What reading the outbox may answer: exactly the pending rows, in some order. */
  ghost predicate IsSnapshot(t: Tables, rows: seq<Event>) {
    && (forall i :: 0 <= i < |rows| ==> IsPending(t, rows[i].reminder) && rows[i] == EventFor(t, rows[i].reminder))
    && (forall i, j :: 0 <= i < j < |rows| ==> rows[i].reminder != rows[j].reminder)
    && (forall id :: IsPending(t, id) ==> exists i :: 0 <= i < |rows| && rows[i].reminder == id)
  }

  ghost predicate Enabled(s: State, step: Step) {
    match step
    case Create(id, _, _, _, _) => id !in s.tables.reminders
    case Cancel(_, _, _) => true
    case ReceiveJob(p, _) => p !in s.workers
    case Transition(p) => p in s.workers && s.workers[p].Ticking?
    case ReadPending(p, rows) => p in s.workers && s.workers[p].Transitioned? && IsSnapshot(s.tables, rows)
    case Publish(p, _, _) => p in s.workers && s.workers[p].Publishing? && s.workers[p].rows != []
    case Confirm(p) => p in s.workers && s.workers[p].Confirming?
    case Stop(p) => p in s.workers
    case Consume(_, k) => k < |s.stream|
  }

  /** `consume_once`: the marker and the effect commit together or not at all. */
  function Consumed(s: State, group: string, event: Event): State {
    var marker := Marker(group, event.eventId);
    if marker in s.markers then s
    else s.(markers := s.markers + {marker}, effects := s.effects + [Effect(group, event)])
  }

  /** `Stop` ends a worker at any point: it crashed, or it had nothing left to do. */
  function Apply(s: State, step: Step): State
    requires Enabled(s, step)
  {
    match step
    case Create(id, user, text, remindAt, now) => s.(tables := Created(s.tables, id, user, text, remindAt, now))
    case Cancel(id, user, now) => s.(tables := AfterCancel(s.tables, id, user, now))
    case ReceiveJob(p, at) => s.(workers := s.workers[p := Ticking(at)])
    case Transition(p) => s.(tables := AfterTick(s.tables, s.workers[p].at), workers := s.workers[p := Transitioned])
    case ReadPending(p, rows) => s.(workers := s.workers[p := Publishing(rows)])
    case Publish(p, outcome, now) =>
      var event, rest := s.workers[p].rows[0], s.workers[p].rows[1..];
      (match outcome
       case Accepted => s.(stream := s.stream + [event], workers := s.workers[p := Confirming(event, now, rest)])
       case DeliveredButReportedFailed => s.(stream := s.stream + [event], workers := s.workers - {p})
       case NotDelivered => s.(workers := s.workers - {p}))
    case Confirm(p) =>
      s.(tables := Confirmed(s.tables, s.workers[p].event.reminder, s.workers[p].emittedAt),
         workers := s.workers[p := Publishing(s.workers[p].rest)])
    case Stop(p) => s.(workers := s.workers - {p})
    case Consume(group, k) => Consumed(s, group, s.stream[k])
  }

  ghost predicate IsRun(states: seq<State>, steps: seq<Step>) {
    && |states| == |steps| + 1
    && states[0] == Initial
    && forall i :: 0 <= i < |steps| ==> Enabled(states[i], steps[i]) && states[i + 1] == Apply(states[i], steps[i])
  }

  // ----------------------------------------------------------------- the invariant

  /** A reminder and its outbox row tell the same story. */
  predicate RowsAgree(t: Tables, id: Id)
    requires id in t.reminders
  {
    var r := t.reminders[id];
    && (r.state in {Scheduled, Cancelled} <==> id !in t.emissions)
    && (r.state == Cancelled <==> r.cancelledAt.Some?)
    && (r.state in {Scheduled, Cancelled} ==> r.dueAt.None? && r.emittedAt.None?)
    && (id in t.emissions ==>
          var e := t.emissions[id];
          && e.eventId == DueEventId(id)
          && r.dueAt == Some(e.occurredAt) && r.remindAt <= e.occurredAt
          && r.emittedAt == e.emittedAt
          && (r.state == Due <==> e.emittedAt.None?))
  }

  ghost predicate TablesAgree(t: Tables) {
    && t.emissions.Keys <= t.reminders.Keys
    && forall id :: id in t.reminders ==> RowsAgree(t, id)
  }

  /** An event says what the outbox row of its reminder says. */
  predicate IsTrue(t: Tables, e: Event) {
    e.reminder in t.emissions && e.reminder in t.reminders && e == EventFor(t, e.reminder)
  }

  function EventsOf(w: Worker): seq<Event> {
    match w
    case Publishing(rows) => rows
    case Confirming(event, _, rest) => [event] + rest
    case _ => []
  }

  ghost predicate WorkersAreSound(s: State) {
    forall p, e :: p in s.workers && e in EventsOf(s.workers[p]) ==> IsTrue(s.tables, e)
  }

  ghost predicate StreamIsSound(s: State) {
    && (forall e :: e in s.stream ==> IsTrue(s.tables, e))
    && (forall p :: p in s.workers && s.workers[p].Confirming? ==> s.workers[p].event in s.stream)
  }

  /** Nothing is recorded as emitted that was not published. */
  ghost predicate EmittedWasPublished(s: State) {
    forall id :: id in s.tables.emissions && s.tables.emissions[id].emittedAt.Some? ==>
      exists e :: e in s.stream && e.reminder == id
  }

  function EffectsOf(effects: seq<Effect>, group: string, id: EventId): nat {
    if effects == [] then 0
    else EffectsOf(effects[..|effects| - 1], group, id)
         + var last := effects[|effects| - 1];
           if last.group == group && last.event.eventId == id then 1 else 0
  }

  ghost predicate EffectsAreSound(s: State) {
    && (forall x :: x in s.effects ==> x.event in s.stream)
    && (forall group, id :: EffectsOf(s.effects, group, id) == if Marker(group, id) in s.markers then 1 else 0)
  }

  ghost predicate Inv(s: State) {
    TablesAgree(s.tables) && WorkersAreSound(s) && StreamIsSound(s) && EmittedWasPublished(s) && EffectsAreSound(s)
  }

  // ------------------------------------------- transactions keep the tables agreeing

  /** What every transaction leaves alone: identity and content of reminders, and of outbox
      rows once written; a cancelled reminder stays cancelled. */
  ghost predicate TablesOnlyGrow(before: Tables, after: Tables) {
    && (forall id :: id in before.reminders ==>
          && id in after.reminders
          && after.reminders[id].user == before.reminders[id].user
          && after.reminders[id].text == before.reminders[id].text
          && after.reminders[id].remindAt == before.reminders[id].remindAt
          && after.reminders[id].createdAt == before.reminders[id].createdAt
          && (before.reminders[id].state in {Cancelled, Emitted} ==> after.reminders[id] == before.reminders[id])
          && (before.reminders[id].state == Due ==> after.reminders[id].state in {Due, Emitted}))
    && (forall id :: id in before.emissions ==>
          && id in after.emissions
          && after.emissions[id].eventId == before.emissions[id].eventId
          && after.emissions[id].occurredAt == before.emissions[id].occurredAt
          && (before.emissions[id].emittedAt.Some? ==> after.emissions[id] == before.emissions[id]))
  }

  /** A creation adds one scheduled reminder. */
  lemma CreateAgrees(t: Tables, id: Id, user: string, text: string, remindAt: Instant, now: Instant)
    requires TablesAgree(t) && id !in t.reminders
    ensures var t' := Created(t, id, user, text, remindAt, now); TablesAgree(t') && TablesOnlyGrow(t, t')
  {
    var t' := Created(t, id, user, text, remindAt, now);
    forall k | k in t'.reminders ensures RowsAgree(t', k) {
      assert k in t.reminders ==> RowsAgree(t, k);
    }
  }

  /** A cancellation changes the caller's own scheduled reminder, and nothing else; a reminder
      of another user, or one that is not scheduled any more, stays as it is. */
  lemma CancelAgrees(t: Tables, id: Id, user: string, now: Instant)
    requires TablesAgree(t)
    ensures var t' := AfterCancel(t, id, user, now);
            && TablesAgree(t') && TablesOnlyGrow(t, t')
            && t'.emissions == t.emissions && t'.reminders.Keys == t.reminders.Keys
            && (forall k :: k in t.reminders && k != id ==> t'.reminders[k] == t.reminders[k])
            && (t' != t <==> id in t.reminders && t.reminders[id].user == user && t.reminders[id].state == Scheduled)
            && (t' != t ==> t'.reminders[id].state == Cancelled && t'.reminders[id].cancelledAt == Some(now))
  {
    var t' := AfterCancel(t, id, user, now);
    forall k | k in t'.reminders ensures RowsAgree(t', k) {
      assert RowsAgree(t, k);
    }
    assert CanCancel(t, id, user) ==> t'.reminders[id] != t.reminders[id];
  }

  /** What a tick at `at` leaves of a reminder: one that was scheduled up to that instant is
      due then, with a new unconfirmed outbox row of that instant; any other is untouched. */
  predicate Ticked(t: Tables, t': Tables, id: Id, at: Instant)
    requires id in t.reminders && id in t'.reminders
  {
    var r, r' := t.reminders[id], t'.reminders[id];
    if r.state == Scheduled && r.remindAt <= at then
      && r' == r.(state := Due, dueAt := Some(at))
      && id !in t.emissions && id in t'.emissions && t'.emissions[id] == Emission(DueEventId(id), at, None)
    else
      && r' == r
      && (id in t.emissions <==> id in t'.emissions)
      && (id in t.emissions ==> t'.emissions[id] == t.emissions[id])
  }

  lemma TickAgrees(t: Tables, at: Instant)
    requires TablesAgree(t)
    ensures var t' := AfterTick(t, at);
            && TablesAgree(t') && TablesOnlyGrow(t, t')
            && t'.reminders.Keys == t.reminders.Keys && t'.emissions.Keys <= t.reminders.Keys
            && (forall id :: id in t.reminders ==> Ticked(t, t', id, at))
            && (forall id :: id in t'.reminders && t'.reminders[id].state == Scheduled ==>
                at < t'.reminders[id].remindAt)
  {
    var t' := AfterTick(t, at);
    forall k | k in t'.reminders ensures RowsAgree(t', k) && Ticked(t, t', k, at) {
      assert RowsAgree(t, k);
    }
  }

  /** The two guards of a confirmation hold together or fail together. */
  lemma GuardsAgree(t: Tables, id: Id)
    requires TablesAgree(t)
    ensures id in t.reminders && t.reminders[id].state == Due <==> id in t.emissions && t.emissions[id].emittedAt.None?
    ensures id in t.emissions && t.emissions[id].emittedAt.Some? ==>
            id in t.reminders && t.reminders[id].state == Emitted
  {
    assert id in t.reminders ==> RowsAgree(t, id);
  }

  /** So its two updates succeed together or not at all. */
  lemma ConfirmAgrees(t: Tables, id: Id, emittedAt: Instant)
    requires TablesAgree(t)
    ensures var t' := Confirmed(t, id, emittedAt);
            && TablesAgree(t') && TablesOnlyGrow(t, t')
            && (t'.reminders != t.reminders <==> t'.emissions != t.emissions)
            && (id in t.emissions ==> t'.emissions[id].emittedAt.Some? && t'.reminders[id].state == Emitted)
  {
    GuardsAgree(t, id);
    if id in t.reminders && t.reminders[id].state == Due {
      ConfirmingBoth(t, id, emittedAt);
    } else {
      assert Confirmed(t, id, emittedAt) == t;
    }
  }

  lemma ConfirmingBoth(t: Tables, id: Id, emittedAt: Instant)
    requires TablesAgree(t) && id in t.reminders && t.reminders[id].state == Due
    ensures var t' := Confirmed(t, id, emittedAt);
            && TablesAgree(t') && TablesOnlyGrow(t, t')
            && id in t.emissions && t'.reminders != t.reminders && t'.emissions != t.emissions
            && t'.emissions[id].emittedAt.Some? && t'.reminders[id].state == Emitted
  {
    var t' := Confirmed(t, id, emittedAt);
    assert RowsAgree(t, id);
    assert t'.reminders[id] != t.reminders[id] && t'.emissions[id] != t.emissions[id];
    forall k | k in t'.reminders ensures RowsAgree(t', k) {
      assert RowsAgree(t, k);
    }
  }

  lemma TruthIsKept(t: Tables, t': Tables, e: Event)
    requires IsTrue(t, e) && TablesOnlyGrow(t, t')
    ensures IsTrue(t', e)
  {
  }

  lemma StepKeepsTables(s: State, step: Step)
    requires TablesAgree(s.tables) && Enabled(s, step)
    ensures TablesAgree(Apply(s, step).tables) && TablesOnlyGrow(s.tables, Apply(s, step).tables)
  {
    match step
    case Create(id, user, text, remindAt, now) => CreateAgrees(s.tables, id, user, text, remindAt, now);
    case Cancel(id, user, now) => CancelAgrees(s.tables, id, user, now);
    case Transition(p) => TickAgrees(s.tables, s.workers[p].at);
    case Confirm(p) => ConfirmAgrees(s.tables, s.workers[p].event.reminder, s.workers[p].emittedAt);
    case _ => assert Apply(s, step).tables == s.tables;
  }

  lemma StepKeepsWorkers(s: State, step: Step)
    requires TablesAgree(s.tables) && WorkersAreSound(s) && Enabled(s, step)
    ensures WorkersAreSound(Apply(s, step))
  {
    hide TablesAgree, RowsAgree, TablesOnlyGrow, StreamIsSound;
    var s' := Apply(s, step);
    StepKeepsTables(s, step);
    forall p, e | p in s'.workers && e in EventsOf(s'.workers[p]) ensures IsTrue(s'.tables, e) {
      if p in s.workers && e in EventsOf(s.workers[p]) {
        TruthIsKept(s.tables, s'.tables, e);
      }
    }
  }

  lemma StepKeepsEmitted(s: State, step: Step)
    requires TablesAgree(s.tables) && StreamIsSound(s) && EmittedWasPublished(s) && Enabled(s, step)
    ensures EmittedWasPublished(Apply(s, step))
  {
    hide TablesAgree, RowsAgree;
    var s' := Apply(s, step);
    forall id | id in s'.tables.emissions && s'.tables.emissions[id].emittedAt.Some?
      ensures exists e :: e in s'.stream && e.reminder == id
    {
      if id in s.tables.emissions && s.tables.emissions[id].emittedAt.Some? {
        var e :| e in s.stream && e.reminder == id;
        assert e in s'.stream;
      } else {
        assert step.Confirm? && s.workers[step.p].event in s'.stream;
      }
    }
  }

  lemma EffectsAppend(effects: seq<Effect>, x: Effect, group: string, id: EventId)
    ensures EffectsOf(effects + [x], group, id)
            == EffectsOf(effects, group, id) + if x.group == group && x.event.eventId == id then 1 else 0
  {
    assert (effects + [x])[..|effects + [x]| - 1] == effects;
  }

  /** Taking a marker makes the one count it stands for one, and leaves every other count. */
  lemma ConsumedCounts(s: State, group: string, event: Event, g: string, id: EventId)
    requires EffectsOf(s.effects, g, id) == if Marker(g, id) in s.markers then 1 else 0
    ensures var s' := Consumed(s, group, event);
            EffectsOf(s'.effects, g, id) == if Marker(g, id) in s'.markers then 1 else 0
  {
    hide EffectsOf;
    EffectsAppend(s.effects, Effect(group, event), g, id);
    if g == group && id == event.eventId {
      assert Marker(g, id) == Marker(group, event.eventId);
    } else {
      assert Marker(g, id) != Marker(group, event.eventId);
    }
  }

  lemma ConsumedKeepsEffects(s: State, group: string, event: Event)
    requires EffectsAreSound(s) && event in s.stream
    ensures EffectsAreSound(Consumed(s, group, event))
  {
    hide EffectsOf;
    var s' := Consumed(s, group, event);
    forall x | x in s'.effects ensures x.event in s'.stream {
      assert x in s.effects || x == Effect(group, event);
    }
    forall g, id ensures EffectsOf(s'.effects, g, id) == if Marker(g, id) in s'.markers then 1 else 0 {
      ConsumedCounts(s, group, event, g, id);
    }
  }

  lemma StepKeepsEffects(s: State, step: Step)
    requires EffectsAreSound(s) && Enabled(s, step)
    ensures EffectsAreSound(Apply(s, step))
  {
    var s' := Apply(s, step);
    match step
    case Consume(group, k) => ConsumedKeepsEffects(s, group, s.stream[k]);
    case _ => assert s'.effects == s.effects && s'.markers == s.markers && s.stream <= s'.stream;
  }

  lemma StepKeepsStream(s: State, step: Step)
    requires TablesAgree(s.tables) && WorkersAreSound(s) && StreamIsSound(s) && Enabled(s, step)
    ensures StreamIsSound(Apply(s, step))
  {
    var s' := Apply(s, step);
    StepKeepsTables(s, step);
    forall e | e in s'.stream ensures IsTrue(s'.tables, e) {
      if e in s.stream {
        TruthIsKept(s.tables, s'.tables, e);
      } else {
        assert e in EventsOf(s.workers[step.p]);
      }
    }
  }

  lemma StepKeepsInv(s: State, step: Step)
    requires Inv(s) && Enabled(s, step)
    ensures Inv(Apply(s, step))
  {
    StepKeepsTables(s, step);
    StepKeepsWorkers(s, step);
    StepKeepsStream(s, step);
    StepKeepsEmitted(s, step);
    StepKeepsEffects(s, step);
  }

  /** Every reachable state: reminders and outbox agree, and so do all copies in flight. */
  lemma {:induction false} RunKeepsInv(states: seq<State>, steps: seq<Step>, i: nat)
    requires IsRun(states, steps) && i < |states|
    ensures Inv(states[i])
  {
    if i > 0 {
      RunKeepsInv(states, steps, i - 1);
      StepKeepsInv(states[i - 1], steps[i - 1]);
    }
  }

  // ------------------------------------------------------------- what runs promise

  lemma {:induction false} RunOnlyGrows(states: seq<State>, steps: seq<Step>, i: nat, j: nat)
    requires IsRun(states, steps) && i <= j < |states|
    ensures TablesOnlyGrow(states[i].tables, states[j].tables)
    decreases j
  {
    if i < j {
      RunOnlyGrows(states, steps, i, j - 1);
      RunGrowsOneStep(states, steps, states[i].tables, j - 1);
    }
  }

  lemma RunGrowsOneStep(states: seq<State>, steps: seq<Step>, a: Tables, k: nat)
    requires IsRun(states, steps) && k < |steps|
    requires TablesOnlyGrow(a, states[k].tables)
    ensures TablesOnlyGrow(a, states[k + 1].tables)
  {
    RunKeepsInv(states, steps, k);
    GrowthExtends(a, states[k], steps[k]);
  }

  lemma GrowthExtends(a: Tables, s: State, step: Step)
    requires TablesOnlyGrow(a, s.tables) && Inv(s) && Enabled(s, step)
    ensures TablesOnlyGrow(a, Apply(s, step).tables)
  {
    StepKeepsTables(s, step);
  }

  /** All publications of one reminder are the same event: identity, occurrence, payload. */
  lemma PublicationsAgree(states: seq<State>, steps: seq<Step>, i: nat, e: Event, f: Event)
    requires IsRun(states, steps) && i < |states|
    requires e in states[i].stream && f in states[i].stream
    ensures e.eventId == f.eventId <==> e.reminder == f.reminder
    ensures e.reminder == f.reminder ==> e == f
    ensures e.remindAt <= e.occurredAt
  {
    RunKeepsInv(states, steps, i);
    assert RowsAgree(states[i].tables, e.reminder) && RowsAgree(states[i].tables, f.reminder);
  }

  /** A reminder's effects in a consumer group, over all its publications. */
  function ReminderEffects(effects: seq<Effect>, group: string, id: Id): nat {
    if effects == [] then 0
    else ReminderEffects(effects[..|effects| - 1], group, id)
         + var last := effects[|effects| - 1];
           if last.group == group && last.event.reminder == id then 1 else 0
  }

  lemma {:induction false} EffectsByReminder(t: Tables, effects: seq<Effect>, group: string, id: Id)
    requires TablesAgree(t) && forall x :: x in effects ==> IsTrue(t, x.event)
    ensures ReminderEffects(effects, group, id) == EffectsOf(effects, group, DueEventId(id))
  {
    if effects != [] {
      var last := effects[|effects| - 1];
      assert last in effects && RowsAgree(t, last.event.reminder);
      EffectsByReminder(t, effects[..|effects| - 1], group, id);
    }
  }

  lemma EffectsHappenOnceIn(s: State, group: string, id: Id)
    requires Inv(s)
    ensures ReminderEffects(s.effects, group, id) == if Marker(group, DueEventId(id)) in s.markers then 1 else 0
    ensures id in s.tables.reminders && s.tables.reminders[id].state == Cancelled ==>
              && ReminderEffects(s.effects, group, id) == 0
              && forall e :: e in s.stream ==> e.reminder != id
  {
    forall x | x in s.effects ensures IsTrue(s.tables, x.event) {
      assert x.event in s.stream;
    }
    EffectsByReminder(s.tables, s.effects, group, id);
    if id in s.tables.reminders && s.tables.reminders[id].state == Cancelled {
      assert RowsAgree(s.tables, id);
      NoEffects(s.effects, group, id);
    }
  }

  /** Exactly-once effect: in every run, a consumer group commits at most one effect for a
      reminder, and one exactly when it holds the marker; a cancelled reminder has none, now
      or later, and was never published. */
  lemma EffectsHappenOnce(states: seq<State>, steps: seq<Step>, i: nat, group: string, id: Id)
    requires IsRun(states, steps) && i < |states|
    ensures ReminderEffects(states[i].effects, group, id)
            == if Marker(group, DueEventId(id)) in states[i].markers then 1 else 0
    ensures id in states[i].tables.reminders && states[i].tables.reminders[id].state == Cancelled ==>
              && ReminderEffects(states[i].effects, group, id) == 0
              && forall e :: e in states[i].stream ==> e.reminder != id
  {
    RunKeepsInv(states, steps, i);
    EffectsHappenOnceIn(states[i], group, id);
  }

  lemma {:induction false} NoEffects(effects: seq<Effect>, group: string, id: Id)
    requires forall x :: x in effects ==> x.event.reminder != id
    ensures ReminderEffects(effects, group, id) == 0
  {
    if effects != [] {
      assert effects[|effects| - 1] in effects;
      NoEffects(effects[..|effects| - 1], group, id);
    }
  }

  /** Once cancelled, a reminder is never published and never has an effect. */
  lemma CancelledForGood(states: seq<State>, steps: seq<Step>, i: nat, j: nat, group: string, id: Id)
    requires IsRun(states, steps) && i <= j < |states|
    requires id in states[i].tables.reminders && states[i].tables.reminders[id].state == Cancelled
    ensures id in states[j].tables.reminders && states[j].tables.reminders[id] == states[i].tables.reminders[id]
    ensures ReminderEffects(states[j].effects, group, id) == 0
    ensures forall e :: e in states[j].stream ==> e.reminder != id
  {
    RunOnlyGrows(states, steps, i, j);
    EffectsHappenOnce(states, steps, j, group, id);
  }

  /** A reminder recorded as emitted was really published, with the recorded identity; once a
      group has consumed the publication, that group has its one effect. */
  lemma EmittedReachesTheStream(states: seq<State>, steps: seq<Step>, i: nat, id: Id)
    requires IsRun(states, steps) && i < |states|
    requires id in states[i].tables.reminders && states[i].tables.reminders[id].state == Emitted
    ensures id in states[i].tables.emissions && EventFor(states[i].tables, id) in states[i].stream
  {
    RunKeepsInv(states, steps, i);
    assert RowsAgree(states[i].tables, id);
    var e :| e in states[i].stream && e.reminder == id;
    assert IsTrue(states[i].tables, e);
  }

  lemma ConsumptionTakesEffect(states: seq<State>, steps: seq<Step>, i: nat, group: string, k: nat)
    requires IsRun(states, steps) && i < |steps| && steps[i] == Consume(group, k)
    ensures ReminderEffects(states[i + 1].effects, group, states[i].stream[k].reminder) == 1
  {
    var e := states[i].stream[k];
    RunKeepsInv(states, steps, i);
    assert IsTrue(states[i].tables, e) && RowsAgree(states[i].tables, e.reminder);
    EffectsHappenOnce(states, steps, i + 1, group, e.reminder);
  }
}
