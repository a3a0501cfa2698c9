/** The transactions and loops of the reminder package as the code runs them, uninterrupted:
    `codegen_kit_reminders/runtime.py`, `codegen_kit_reminders/api.py` and
    `services/backend/src/core/idempotent_consumer.py`. */
module ReminderRuntime {
  import opened Options
  import opened Publications
  import opened Reminders
  import Sorting

  const TickJob := "reminders.tick"

  datatype CancelAnswer = CancelledNow | NotFound | NotCancellable

  /** `ORDER BY remind_at, id` */
  predicate DueOrder(a: (Instant, Id), b: (Instant, Id)) {
    a.0 < b.0 || (a.0 == b.0 && a.1 <= b.1)
  }

  /** `ORDER BY occurred_at, reminder_id` */
  predicate OutboxOrder(a: Event, b: Event) {
    a.occurredAt < b.occurredAt || (a.occurredAt == b.occurredAt && a.reminder <= b.reminder)
  }

  /** The tables after confirming `rows` one by one, the k-th at `clock(k)`. */
  function ConfirmedAll(t: Tables, rows: seq<Event>, clock: nat -> Instant): Tables {
    if rows == [] then t
    else Confirmed(ConfirmedAll(t, rows[..|rows| - 1], clock), rows[|rows| - 1].reminder, clock(|rows| - 1))
  }

  /** A part of `AfterTick`: only the reminders in `done` have been taken. */
  function PartOfTick(t: Tables, at: Instant, done: set<Id>): Tables {
    Tables(
      map id | id in t.reminders ::
        if id in done && BecomesDue(t, id, at) then t.reminders[id].(state := Due, dueAt := Some(at))
        else t.reminders[id],
      map id | id in t.emissions.Keys + t.reminders.Keys
        && (id in t.emissions || (id in done && BecomesDue(t, id, at))) ::
        if id in t.emissions then t.emissions[id] else Emission(DueEventId(id), at, None))
  }

  lemma TickParts(t: Tables, at: Instant, done: set<Id>, id: Id)
    requires BecomesDue(t, id, at) && id !in done
    ensures id in PartOfTick(t, at, done).reminders
    ensures var part := PartOfTick(t, at, done);
            var r := part.reminders[id].(state := Due, dueAt := Some(at));
            var e := if id in part.emissions then part.emissions[id] else Emission(DueEventId(id), at, None);
            PartOfTick(t, at, done + {id}) == Tables(part.reminders[id := r], part.emissions[id := e])
  {
    var part, next := PartOfTick(t, at, done), PartOfTick(t, at, done + {id});
    var e := if id in part.emissions then part.emissions[id] else Emission(DueEventId(id), at, None);
    assert next.reminders == part.reminders[id := part.reminders[id].(state := Due, dueAt := Some(at))];
    assert next.emissions == part.emissions[id := e];
  }

  lemma NoPartOfTick(t: Tables, at: Instant)
    ensures PartOfTick(t, at, {}) == t
  {
    assert PartOfTick(t, at, {}).reminders == t.reminders;
    assert PartOfTick(t, at, {}).emissions == t.emissions;
  }

  lemma WholeTick(t: Tables, at: Instant, done: set<Id>)
    requires forall id :: BecomesDue(t, id, at) ==> id in done
    ensures PartOfTick(t, at, done) == AfterTick(t, at)
  {
    assert PartOfTick(t, at, done).reminders == AfterTick(t, at).reminders;
    assert PartOfTick(t, at, done).emissions == AfterTick(t, at).emissions;
  }

  function DueRows(t: Tables, ids: seq<Id>): seq<(Instant, Id)>
    requires forall i :: 0 <= i < |ids| ==> ids[i] in t.reminders
  {
    seq(|ids|, i requires 0 <= i < |ids| => (t.reminders[ids[i]].remindAt, ids[i]))
  }

  lemma DueOrderIsTotalPreorder()
    ensures Sorting.IsTotalPreorder(DueOrder)
  {
  }

  predicate HasRow(rows: seq<(Instant, Id)>, id: Id) {
    exists i :: 0 <= i < |rows| && rows[i].1 == id
  }

  lemma DueRowsHave(t: Tables, ids: seq<Id>, id: Id)
    requires forall i :: 0 <= i < |ids| ==> ids[i] in t.reminders
    ensures var rows := Sorting.Sort(DueRows(t, ids), DueOrder);
            id in ids <==> HasRow(rows, id)
  {
    hide Sorting.Sort, DueOrder;
    var keyed := DueRows(t, ids);
    var rows := Sorting.Sort(keyed, DueOrder);
    if id in ids {
      var i :| 0 <= i < |ids| && ids[i] == id;
      Sorting.SortKeepsMembers(keyed, DueOrder, keyed[i]);
    }
    if i :| 0 <= i < |rows| && rows[i].1 == id {
      Sorting.SortKeepsMembers(keyed, DueOrder, rows[i]);
      var k :| 0 <= k < |keyed| && keyed[k] == rows[i];
      assert ids[k] == id;
    }
  }

  lemma DueRowsSorted(t: Tables, ids: seq<Id>, at: Instant)
    requires forall i :: 0 <= i < |ids| ==> ids[i] in t.reminders && BecomesDue(t, ids[i], at)
    requires forall id :: BecomesDue(t, id, at) ==> id in ids
    requires forall i, j :: 0 <= i < j < |ids| ==> ids[i] != ids[j]
    ensures var rows := Sorting.Sort(DueRows(t, ids), DueOrder);
            && Sorting.SortedBy(rows, DueOrder)
            && (forall id :: BecomesDue(t, id, at) <==> HasRow(rows, id))
            && (forall i, j :: 0 <= i < j < |rows| ==> rows[i].1 != rows[j].1)
  {
    var keyed := DueRows(t, ids);
    var rows := Sorting.Sort(keyed, DueOrder);
    DueOrderIsTotalPreorder();
    hide Sorting.IsTotalPreorder, Sorting.Sort, DueOrder, BecomesDue;
    Sorting.SortIsSorted(keyed, DueOrder);
    SortKeepsDistinctIds(keyed);
    hide Sorting.SortedBy;
    forall id ensures BecomesDue(t, id, at) <==> HasRow(rows, id) {
      if id in ids {
        var k :| 0 <= k < |ids| && ids[k] == id;
        assert BecomesDue(t, id, at);
      }
      DueRowsHave(t, ids, id);
    }
  }

  /** The outbox rows of `ids`, joined with their reminders. */
  function Joined(t: Tables, ids: seq<Id>): seq<Event>
    requires forall i :: 0 <= i < |ids| ==> ids[i] in t.emissions && ids[i] in t.reminders
  {
    seq(|ids|, i requires 0 <= i < |ids| => EventFor(t, ids[i]))
  }

  lemma JoinedIsSnapshot(t: Tables, ids: seq<Id>)
    requires forall i :: 0 <= i < |ids| ==> ids[i] in t.emissions && ids[i] in t.reminders && IsPending(t, ids[i])
    requires forall id :: IsPending(t, id) ==> id in ids
    requires forall i, j :: 0 <= i < j < |ids| ==> ids[i] != ids[j]
    ensures IsSnapshot(t, Joined(t, ids))
  {
    var rows := Joined(t, ids);
    forall id | IsPending(t, id) ensures exists i :: 0 <= i < |rows| && rows[i].reminder == id {
      var i :| 0 <= i < |ids| && ids[i] == id;
      assert rows[i].reminder == id;
    }
  }

  /** The reminders of the rows from position `i` on. */
  function RemindersFrom(rows: seq<Event>, i: nat): set<Id> {
    set j | i <= j < |rows| :: rows[j].reminder
  }

  lemma ConfirmingShrinksPending(start: Tables, t: Tables, rows: seq<Event>, i: nat, emittedAt: Instant)
    requires IsSnapshot(start, rows) && i < |rows|
    requires forall id :: IsPending(t, id) <==> id in RemindersFrom(rows, i)
    ensures forall id :: IsPending(Confirmed(t, rows[i].reminder, emittedAt), id) <==> id in RemindersFrom(rows, i + 1)
  {
    var t' := Confirmed(t, rows[i].reminder, emittedAt);
    forall id ensures IsPending(t', id) <==> IsPending(t, id) && id != rows[i].reminder {
    }
    forall id ensures id in RemindersFrom(rows, i + 1) <==> id in RemindersFrom(rows, i) && id != rows[i].reminder {
      if id in RemindersFrom(rows, i) && id != rows[i].reminder {
        var j :| i <= j < |rows| && rows[j].reminder == id;
        assert j != i;
      }
    }
  }

  lemma NothingConfirmed(t: Tables, rows: seq<Event>, clock: nat -> Instant)
    requires IsSnapshot(t, rows)
    ensures ConfirmedAll(t, rows[..0], clock) == t
    ensures forall id :: IsPending(t, id) <==> id in RemindersFrom(rows, 0)
  {
  }

  lemma ConfirmedAllStep(t: Tables, rows: seq<Event>, clock: nat -> Instant, i: nat)
    requires i < |rows|
    ensures ConfirmedAll(t, rows[..i + 1], clock)
            == Confirmed(ConfirmedAll(t, rows[..i], clock), rows[i].reminder, clock(i))
  {
    assert rows[..i + 1][..i] == rows[..i];
  }

  lemma OneMoreConfirmed(start: Tables, rows: seq<Event>, clock: nat -> Instant, i: nat)
    requires IsSnapshot(start, rows) && i < |rows|
    requires var t := ConfirmedAll(start, rows[..i], clock);
             TablesAgree(t) && forall id :: IsPending(t, id) <==> id in RemindersFrom(rows, i)
    ensures var t := ConfirmedAll(start, rows[..i + 1], clock);
            && t == Confirmed(ConfirmedAll(start, rows[..i], clock), rows[i].reminder, clock(i))
            && TablesAgree(t) && forall id :: IsPending(t, id) <==> id in RemindersFrom(rows, i + 1)
  {
    hide *;
    var t := ConfirmedAll(start, rows[..i], clock);
    ConfirmAgrees(t, rows[i].reminder, clock(i));
    ConfirmingShrinksPending(start, t, rows, i, clock(i));
    ConfirmedAllStep(start, rows, clock, i);
  }

  /** The rows say of their reminders what was asked for. */
  ghost predicate Carry(reminders: map<Id, Reminder>, rows: seq<Event>) {
    forall i :: 0 <= i < |rows| ==>
      && rows[i].reminder in reminders
      && rows[i].user == reminders[rows[i].reminder].user
      && rows[i].text == reminders[rows[i].reminder].text
      && rows[i].remindAt == reminders[rows[i].reminder].remindAt
  }

  /** By occurrence, and at one instant by reminder. */
  ghost predicate ByOccurrence(rows: seq<Event>) {
    forall i, j :: 0 <= i < j < |rows| ==>
      rows[i].occurredAt < rows[j].occurredAt
      || (rows[i].occurredAt == rows[j].occurredAt && rows[i].reminder <= rows[j].reminder)
  }

  /** The first `done` rows are emitted, each at its own reading of the clock. */
  ghost predicate EmittedAt(reminders: map<Id, Reminder>, rows: seq<Event>, done: nat, clock: nat -> Instant) {
    forall i :: 0 <= i < done && i < |rows| ==>
      && rows[i].reminder in reminders
      && reminders[rows[i].reminder].state == Emitted && reminders[rows[i].reminder].emittedAt == Some(clock(i))
  }

  lemma SnapshotCarries(t: Tables, rows: seq<Event>)
    requires IsSnapshot(t, rows)
    ensures Carry(t.reminders, rows)
  {
    forall i | 0 <= i < |rows| ensures rows[i].reminder in t.reminders && rows[i] == EventFor(t, rows[i].reminder) {
      assert IsPending(t, rows[i].reminder);
    }
  }

  lemma OrderedByOccurrence(rows: seq<Event>)
    requires Sorting.SortedBy(rows, OutboxOrder)
    ensures ByOccurrence(rows)
  {
    assert forall i, j :: 0 <= i < j < |rows| ==> OutboxOrder(rows[i], rows[j]);
  }

  lemma TickKeepsRequests(t: Tables, at: Instant, rows: seq<Event>)
    requires Carry(AfterTick(t, at).reminders, rows)
    ensures Carry(t.reminders, rows)
  {
  }

  lemma OneMoreEmitted(start: Tables, t: Tables, rows: seq<Event>, done: nat, clock: nat -> Instant)
    requires TablesAgree(t) && IsSnapshot(start, rows) && done < |rows| && EmittedAt(t.reminders, rows, done, clock)
    requires IsPending(t, rows[done].reminder)
    ensures EmittedAt(Confirmed(t, rows[done].reminder, clock(done)).reminders, rows, done + 1, clock)
  {
    GuardsAgree(t, rows[done].reminder);
  }

  lemma NothingEmitted(reminders: map<Id, Reminder>, rows: seq<Event>, clock: nat -> Instant)
    ensures EmittedAt(reminders, rows, 0, clock)
  {
  }

  lemma FirstOfRest(rows: seq<Event>, i: nat)
    requires i < |rows|
    ensures rows[i].reminder in RemindersFrom(rows, i)
  {
  }

  class ReminderPackage {
    var reminders: map<Id, Reminder>
    var emissions: map<Id, Emission>
    var stream: seq<Event>

    function Now(): Tables
      reads this
    {
      Tables(reminders, emissions)
    }

    constructor ()
      ensures Now() == Tables(map[], map[]) && stream == []
    {
      reminders, emissions, stream := map[], map[], [];
    }

    method CreateReminder(id: Id, user: string, text: string, remindAt: Instant, now: Instant)
      requires id !in reminders
      modifies `reminders
      ensures Now() == Created(old(Now()), id, user, text, remindAt, now)
      ensures reminders == old(reminders)[id := Reminder(user, text, remindAt, Scheduled, now, None, None, None)]
    {
      reminders := reminders[id := Reminder(user, text, remindAt, Scheduled, now, None, None, None)];
    }

    /** Only the owner's scheduled reminder is cancelled; another user's answers like a missing one. */
    method CancelReminder(id: Id, user: string, now: Instant) returns (answer: CancelAnswer)
      modifies `reminders
      ensures Now() == AfterCancel(old(Now()), id, user, now)
      ensures answer == CancelledNow <==>
                id in old(reminders) && old(reminders)[id].user == user && old(reminders)[id].state == Scheduled
      ensures reminders == if answer == CancelledNow
                           then old(reminders)[id := old(reminders)[id].(state := Cancelled, cancelledAt := Some(now))]
                           else old(reminders)
      ensures answer == NotFound <==> id !in old(reminders) || old(reminders)[id].user != user
    {
      if id in reminders && reminders[id].user == user && reminders[id].state == Scheduled {
        reminders := reminders[id := reminders[id].(state := Cancelled, cancelledAt := Some(now))];
        answer := CancelledNow;
      } else if id !in reminders || reminders[id].user != user {
        answer := NotFound;
      } else {
        answer := NotCancellable;
      }
    }

    /** The scheduled reminders up to `at`, as the locking query returns them. */
    method SelectDue(at: Instant) returns (rows: seq<(Instant, Id)>)
      ensures forall id :: BecomesDue(Now(), id, at) <==> HasRow(rows, id)
      ensures forall i, j :: 0 <= i < j < |rows| ==> rows[i].1 != rows[j].1
      ensures Sorting.SortedBy(rows, DueOrder)
    {
      var ids := Sorting.ListOf(set id | id in reminders && reminders[id].state == Scheduled
                                && reminders[id].remindAt <= at);
      rows := Sorting.Sort(DueRows(Now(), ids), DueOrder);
      DueRowsSorted(Now(), ids, at);
    }

    /** `transition_due`: due state and outbox row in one transaction, before any publication. */
    method TransitionDue(at: Instant)
      modifies `reminders, `emissions
      ensures Now() == AfterTick(old(Now()), at)
    {
      hide AfterTick, PartOfTick, Sorting.SortedBy;
      ghost var start := Now();
      var rows := SelectDue(at);
      ghost var done: set<Id> := {};
      NoPartOfTick(start, at);
      for i := 0 to |rows|
        invariant done == set j | 0 <= j < i :: rows[j].1
        invariant Now() == PartOfTick(start, at, done)
      {
        var id := rows[i].1;
        assert HasRow(rows, id);
        assert BecomesDue(start, id, at) && id !in done;
        TickParts(start, at, done, id);
        reminders := reminders[id := reminders[id].(state := Due, dueAt := Some(at))];
        if id !in emissions {
          emissions := emissions[id := Emission(DueEventId(id), at, None)];
        } else {
          assert emissions == emissions[id := emissions[id]];
        }
        done := done + {id};
      }
      WholeTick(start, at, done);
    }

    /** `read_pending` */
    method ReadPending() returns (rows: seq<Event>)
      requires TablesAgree(Now())
      ensures IsSnapshot(Now(), rows) && Carry(reminders, rows) && ByOccurrence(rows)
    {
      var ids := Sorting.ListOf(set id | id in emissions && id in reminders && emissions[id].emittedAt.None?);
      rows := Sorting.Sort(Joined(Now(), ids), OutboxOrder);
      Sorting.SortIsSorted(Joined(Now(), ids), OutboxOrder);
      JoinedIsSnapshot(Now(), ids);
      SortKeepsSnapshot(Now(), Joined(Now(), ids));
      OrderedByOccurrence(rows);
      SnapshotCarries(Now(), rows);
    }

    /** `confirm_emission`: two guarded updates in one transaction. */
    method ConfirmEmission(id: Id, emittedAt: Instant)
      modifies `reminders, `emissions
      ensures Now() == Confirmed(old(Now()), id, emittedAt)
    {
      if id in emissions && emissions[id].emittedAt.None? {
        emissions := emissions[id := emissions[id].(emittedAt := Some(emittedAt))];
      }
      if id in reminders && reminders[id].state == Due {
        reminders := reminders[id := reminders[id].(state := Emitted, emittedAt := Some(emittedAt))];
      }
    }

    /** `publish_event`: the event leaves or does not; what is not reported as accepted raises. */
    method PublishEvent(event: Event, outcome: Outcome) returns (accepted: bool)
      modifies `stream
      ensures accepted == (outcome == Accepted)
      ensures stream == old(stream) + if outcome == NotDelivered then [] else [event]
    {
      if outcome != NotDelivered {
        stream := stream + [event];
      }
      accepted := outcome == Accepted;
    }

    /** `emit_pending` with the outcome of each publication: the rows are published and
        confirmed one by one in their order, up to the first that is not accepted. That one
        and those after it stay pending, also when it was delivered all the same. */
    method EmitPending(clock: nat -> Instant, outcomes: nat -> Outcome) returns (rows: seq<Event>, done: nat)
      requires TablesAgree(Now())
      modifies this
      ensures IsSnapshot(old(Now()), rows) && Carry(old(reminders), rows) && ByOccurrence(rows)
      ensures done <= |rows| && (forall i :: 0 <= i < done ==> outcomes(i) == Accepted)
      ensures done < |rows| ==> outcomes(done) != Accepted
      ensures stream == old(stream) + rows[..done]
                        + if done < |rows| && outcomes(done) != NotDelivered then [rows[done]] else []
      ensures Now() == ConfirmedAll(old(Now()), rows[..done], clock) && EmittedAt(reminders, rows, done, clock)
      ensures TablesAgree(Now()) && forall id :: IsPending(Now(), id) <==> id in RemindersFrom(rows, done)
    {
      hide TablesAgree, IsSnapshot, Confirmed, ConfirmedAll, IsPending, RemindersFrom, EmittedAt, Carry, ByOccurrence;
      rows := ReadPending();
      done := 0;
      ghost var start := Now();
      NothingConfirmed(start, rows, clock);
      assert EmittedAt(reminders, rows, 0, clock) by {
        NothingEmitted(reminders, rows, clock);
      }
      while done < |rows|
        invariant done <= |rows| && forall i :: 0 <= i < done ==> outcomes(i) == Accepted
        invariant stream == old(stream) + rows[..done]
        invariant Now() == ConfirmedAll(start, rows[..done], clock)
        invariant TablesAgree(Now()) && EmittedAt(reminders, rows, done, clock)
        invariant forall id :: IsPending(Now(), id) <==> id in RemindersFrom(rows, done)
      {
        var emittedAt := clock(done);
        var accepted := PublishEvent(rows[done], outcomes(done));
        if !accepted {
          return;
        }
        OneMoreConfirmed(start, rows, clock, done);
        assert rows[done].reminder in RemindersFrom(rows, done) by {
          FirstOfRest(rows, done);
        }
        OneMoreEmitted(start, Now(), rows, done, clock);
        ConfirmEmission(rows[done].reminder, emittedAt);
        assert rows[..done + 1] == rows[..done] + [rows[done]];
        done := done + 1;
      }
    }

    /** `handle_job_fired`: any job but the package's tick is ignored; a tick leaves nothing
        scheduled up to its instant, and nothing pending but the publication that was not
        accepted and those after it. */
    method HandleJobFired(name: string, at: Instant, clock: nat -> Instant, outcomes: nat -> Outcome)
      returns (rows: seq<Event>, done: nat)
      requires TablesAgree(Now())
      modifies this
      ensures name != TickJob ==> Now() == old(Now()) && stream == old(stream)
      ensures name == TickJob ==>
                && IsSnapshot(AfterTick(old(Now()), at), rows)
                && done <= |rows| && (done < |rows| ==> outcomes(done) != Accepted)
                && (forall i :: 0 <= i < done ==> outcomes(i) == Accepted)
                && stream == old(stream) + rows[..done]
                             + (if done < |rows| && outcomes(done) != NotDelivered then [rows[done]] else [])
                && Now() == ConfirmedAll(AfterTick(old(Now()), at), rows[..done], clock)
                && Carry(old(reminders), rows) && ByOccurrence(rows) && EmittedAt(reminders, rows, done, clock)
                && (forall id :: !BecomesDue(Now(), id, at))
                && (forall id :: IsPending(Now(), id) <==> id in RemindersFrom(rows, done))
      ensures TablesAgree(Now())
    {
      if name != TickJob {
        return [], 0;
      }
      hide TablesAgree, IsSnapshot, ConfirmedAll, IsPending, RemindersFrom, Carry, ByOccurrence, EmittedAt;
      TickAgrees(Now(), at);
      TransitionDue(at);
      ghost var due := Now();
      rows, done := EmitPending(clock, outcomes);
      TickKeepsRequests(old(Now()), at, rows);
      forall id ensures !BecomesDue(Now(), id, at) {
        ConfirmingSchedulesNothing(due, rows[..done], clock, id);
      }
    }
  }

  lemma {:induction false} ConfirmingSchedulesNothing(t: Tables, rows: seq<Event>, clock: nat -> Instant, id: Id)
    ensures var t' := ConfirmedAll(t, rows, clock);
            id in t'.reminders && t'.reminders[id].state == Scheduled ==>
              id in t.reminders && t.reminders[id] == t'.reminders[id]
  {
    if rows != [] {
      ConfirmingSchedulesNothing(t, rows[..|rows| - 1], clock, id);
    }
  }

  lemma SortKeepsDistinctIds(rows: seq<(Instant, Id)>)
    requires forall i, j :: 0 <= i < j < |rows| ==> rows[i].1 != rows[j].1
    ensures var sorted := Sorting.Sort(rows, DueOrder);
            forall i, j :: 0 <= i < j < |sorted| ==> sorted[i].1 != sorted[j].1
  {
    var sorted := Sorting.Sort(rows, DueOrder);
    forall i, j | 0 <= i < j < |sorted| ensures sorted[i].1 != sorted[j].1 {
      if sorted[i].1 == sorted[j].1 {
        Sorting.SortKeepsMembers(rows, DueOrder, sorted[i]);
        Sorting.SortKeepsMembers(rows, DueOrder, sorted[j]);
        var p :| 0 <= p < |rows| && rows[p] == sorted[i];
        var q :| 0 <= q < |rows| && rows[q] == sorted[j];
        assert p == q;
        Sorting.TwiceInOne(sorted, i, j);
        Sorting.MultiplicityGivesPositions(rows, sorted[i]);
      }
    }
  }

  lemma SortKeepsSnapshot(t: Tables, rows: seq<Event>)
    requires IsSnapshot(t, rows)
    ensures IsSnapshot(t, Sorting.Sort(rows, OutboxOrder))
  {
    var sorted := Sorting.Sort(rows, OutboxOrder);
    forall i | 0 <= i < |sorted|
      ensures IsPending(t, sorted[i].reminder) && sorted[i] == EventFor(t, sorted[i].reminder)
    {
      Sorting.SortKeepsMembers(rows, OutboxOrder, sorted[i]);
    }
    forall i, j | 0 <= i < j < |sorted| ensures sorted[i].reminder != sorted[j].reminder {
      if sorted[i].reminder == sorted[j].reminder {
        Sorting.TwiceInOne(sorted, i, j);
        Sorting.MultiplicityGivesPositions(rows, sorted[i]);
      }
    }
    forall id | IsPending(t, id) ensures exists i :: 0 <= i < |sorted| && sorted[i].reminder == id {
      var k :| 0 <= k < |rows| && rows[k].reminder == id;
      Sorting.SortKeepsMembers(rows, OutboxOrder, rows[k]);
    }
  }

  /** A state of the machine with these consumer tables. */
  function Holding(markers: set<Marker>, effects: seq<Effect>): State {
    Initial.(markers := markers, effects := effects)
  }

  /** A consumer's database: markers, and what the effects have written. */
  class IdempotentConsumer {
    var markers: set<Marker>
    var effects: seq<Effect>

    constructor ()
      ensures markers == {} && effects == []
    {
      markers, effects := {}, [];
    }

    /** `consume_once` in the caller's transaction: the marker is refused when it is already
        there; an effect that fails rolls the marker back with it. */
    method ConsumeOnce(group: string, event: Event, effectFails: bool) returns (ran: bool)
      modifies this
      ensures effectFails ==> !ran && markers == old(markers) && effects == old(effects)
      ensures !effectFails ==>
                && ran == (Marker(group, event.eventId) !in old(markers))
                && Holding(markers, effects) == Consumed(Holding(old(markers), old(effects)), group, event)
    {
      var savedMarkers, savedEffects := markers, effects;
      if Marker(group, event.eventId) in markers {
        return false;
      }
      markers := markers + {Marker(group, event.eventId)};
      if effectFails {
        markers, effects := savedMarkers, savedEffects;
        return false;
      }
      effects := effects + [Effect(group, event)];
      return true;
    }
  }
}
