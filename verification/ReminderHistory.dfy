/** Where everything in the reminder tables and in the stream comes from: each value that a run of
    `Reminders` leaves behind was handed to an earlier step of that run. */
module ReminderHistory {
  import opened Options
  import opened Publications
  import opened Reminders

  // ------------------------------------------------------------------ earlier steps

  /** The user asked for this reminder. */
  predicate WasAsked(steps: seq<Step>, i: nat, id: Id, user: string, text: string, remindAt: Instant,
                     createdAt: Instant)
  {
    exists k :: 0 <= k < i && k < |steps| && steps[k] == Create(id, user, text, remindAt, createdAt)
  }

  /** The user cancelled it. */
  predicate WasCancelled(steps: seq<Step>, i: nat, id: Id, user: string, at: Instant) {
    exists k :: 0 <= k < i && k < |steps| && steps[k] == Cancel(id, user, at)
  }

  /** A tick of this instant was received. */
  predicate WasReceived(steps: seq<Step>, i: nat, at: Instant) {
    exists k :: 0 <= k < i && k < |steps| && steps[k].ReceiveJob? && steps[k].at == at
  }

  /** A publication was accepted at this instant. */
  predicate WasAccepted(steps: seq<Step>, i: nat, now: Instant) {
    exists k :: 0 <= k < i && k < |steps| && steps[k].Publish? && steps[k].outcome == Accepted && steps[k].now == now
  }

  predicate ReminderHasHistory(steps: seq<Step>, i: nat, t: Tables, id: Id)
    requires id in t.reminders
  {
    var r := t.reminders[id];
    && WasAsked(steps, i, id, r.user, r.text, r.remindAt, r.createdAt)
    && (r.cancelledAt.Some? ==> WasCancelled(steps, i, id, r.user, r.cancelledAt.value))
    && (r.dueAt.Some? ==> WasReceived(steps, i, r.dueAt.value))
    && (r.emittedAt.Some? ==> WasAccepted(steps, i, r.emittedAt.value))
  }

  ghost predicate TablesHaveHistory(steps: seq<Step>, i: nat, t: Tables) {
    forall id :: id in t.reminders ==> ReminderHasHistory(steps, i, t, id)
  }

  ghost predicate WorkersHaveHistory(steps: seq<Step>, i: nat, s: State) {
    forall p :: p in s.workers ==>
      && (s.workers[p].Ticking? ==> WasReceived(steps, i, s.workers[p].at))
      && (s.workers[p].Confirming? ==> WasAccepted(steps, i, s.workers[p].emittedAt))
  }

  lemma HistoryGrows(steps: seq<Step>, i: nat, t: Tables, t': Tables, id: Id)
    requires id in t.reminders && ReminderHasHistory(steps, i, t, id)
    requires id in t'.reminders && t'.reminders[id] == t.reminders[id]
    ensures ReminderHasHistory(steps, i + 1, t', id)
  {
  }

  lemma CreationHasHistory(steps: seq<Step>, i: nat, t: Tables, t': Tables, id: Id)
    requires i < |steps| && steps[i].Create? && id == steps[i].id
    requires t' == Created(t, id, steps[i].user, steps[i].text, steps[i].remindAt, steps[i].now)
    ensures ReminderHasHistory(steps, i + 1, t', id)
  {
  }

  lemma CancelHasHistory(steps: seq<Step>, i: nat, t: Tables, t': Tables, id: Id)
    requires i < |steps| && steps[i].Cancel? && id == steps[i].id && id in t.reminders
    requires ReminderHasHistory(steps, i, t, id) && t' == AfterCancel(t, id, steps[i].user, steps[i].now)
    ensures ReminderHasHistory(steps, i + 1, t', id)
  {
  }

  lemma TickHasHistory(steps: seq<Step>, i: nat, t: Tables, at: Instant, id: Id)
    requires id in t.reminders && ReminderHasHistory(steps, i, t, id) && WasReceived(steps, i, at)
    ensures id in AfterTick(t, at).reminders && ReminderHasHistory(steps, i + 1, AfterTick(t, at), id)
  {
  }

  lemma ConfirmHasHistory(steps: seq<Step>, i: nat, t: Tables, other: Id, now: Instant, id: Id)
    requires id in t.reminders && ReminderHasHistory(steps, i, t, id) && WasAccepted(steps, i, now)
    ensures id in Confirmed(t, other, now).reminders && ReminderHasHistory(steps, i + 1, Confirmed(t, other, now), id)
  {
  }

  lemma TransactionKeepsHistory(states: seq<State>, steps: seq<Step>, i: nat, id: Id)
    requires IsRun(states, steps) && i < |steps|
    requires TablesHaveHistory(steps, i, states[i].tables) && WorkersHaveHistory(steps, i, states[i])
    requires id in states[i + 1].tables.reminders
    ensures ReminderHasHistory(steps, i + 1, states[i + 1].tables, id)
  {
    hide ReminderHasHistory, AfterTick, Confirmed, WasReceived, WasAccepted;
    var t, t' := states[i].tables, states[i + 1].tables;
    match steps[i]
    case Create(added, _, _, _, _) =>
      if id == added {
        CreationHasHistory(steps, i, t, t', id);
      } else {
        HistoryGrows(steps, i, t, t', id);
      }
    case Cancel(other, _, _) =>
      if id == other {
        CancelHasHistory(steps, i, t, t', id);
      } else {
        HistoryGrows(steps, i, t, t', id);
      }
    case Transition(p) =>
      TickKeepsReminders(t, states[i].workers[p].at);
      TickHasHistory(steps, i, t, states[i].workers[p].at, id);
    case Confirm(p) =>
      ConfirmKeepsReminders(t, states[i].workers[p].event.reminder, states[i].workers[p].emittedAt);
      ConfirmHasHistory(steps, i, t, states[i].workers[p].event.reminder, states[i].workers[p].emittedAt, id);
    case _ => HistoryGrows(steps, i, t, t', id);
  }

  lemma TickKeepsReminders(t: Tables, at: Instant)
    ensures AfterTick(t, at).reminders.Keys == t.reminders.Keys
  {
  }

  lemma ConfirmKeepsReminders(t: Tables, id: Id, now: Instant)
    ensures Confirmed(t, id, now).reminders.Keys == t.reminders.Keys
  {
  }

  lemma {:induction false} RunHasHistory(states: seq<State>, steps: seq<Step>, i: nat)
    requires IsRun(states, steps) && i < |states|
    ensures TablesHaveHistory(steps, i, states[i].tables) && WorkersHaveHistory(steps, i, states[i])
  {
    if i > 0 {
      RunHasHistory(states, steps, i - 1);
      forall id | id in states[i].tables.reminders ensures ReminderHasHistory(steps, i, states[i].tables, id) {
        TransactionKeepsHistory(states, steps, i - 1, id);
      }
      WorkersKeepHistory(states, steps, i - 1);
    }
  }

  lemma WorkersKeepHistory(states: seq<State>, steps: seq<Step>, i: nat)
    requires IsRun(states, steps) && i < |steps| && WorkersHaveHistory(steps, i, states[i])
    ensures WorkersHaveHistory(steps, i + 1, states[i + 1])
  {
    var s, s' := states[i], states[i + 1];
    forall p | p in s'.workers
      ensures s'.workers[p].Ticking? ==> WasReceived(steps, i + 1, s'.workers[p].at)
      ensures s'.workers[p].Confirming? ==> WasAccepted(steps, i + 1, s'.workers[p].emittedAt)
    {
      if p in s.workers && s.workers[p] == s'.workers[p] {
      } else if s'.workers[p].Ticking? {
        assert steps[i].ReceiveJob? && steps[i].at == s'.workers[p].at;
      } else if s'.workers[p].Confirming? {
        assert steps[i].Publish? && steps[i].outcome == Accepted && steps[i].now == s'.workers[p].emittedAt;
      }
    }
  }

  // ------------------------------------------------------------- what runs promise

  /** Every reminder is what its user asked for in an earlier step of the run; it was cancelled,
      became due and was emitted at the instants of the steps that did so. */
  lemma RemindersHaveHistory(states: seq<State>, steps: seq<Step>, i: nat, id: Id)
    requires IsRun(states, steps) && i < |states| && id in states[i].tables.reminders
    ensures var r := states[i].tables.reminders[id];
            && WasAsked(steps, i, id, r.user, r.text, r.remindAt, r.createdAt)
            && (r.state == Cancelled ==> r.cancelledAt.Some? && WasCancelled(steps, i, id, r.user, r.cancelledAt.value))
            && (r.state in {Due, Emitted} ==>
                  r.dueAt.Some? && r.remindAt <= r.dueAt.value && WasReceived(steps, i, r.dueAt.value))
            && (r.state == Emitted ==> r.emittedAt.Some? && WasAccepted(steps, i, r.emittedAt.value))
  {
    RunHasHistory(states, steps, i);
    RunKeepsInv(states, steps, i);
    assert ReminderHasHistory(steps, i, states[i].tables, id) && RowsAgree(states[i].tables, id);
  }

  /** Every published event was asked for: its user asked for a reminder with its text and its
      time, and it occurred at the instant of a tick that was received. */
  lemma PublicationsWereAsked(states: seq<State>, steps: seq<Step>, i: nat, e: Event)
    requires IsRun(states, steps) && i < |states| && e in states[i].stream
    ensures exists now :: WasAsked(steps, i, e.reminder, e.user, e.text, e.remindAt, now)
    ensures e.eventId == DueEventId(e.reminder)
    ensures e.remindAt <= e.occurredAt && WasReceived(steps, i, e.occurredAt)
  {
    RunKeepsInv(states, steps, i);
    assert IsTrue(states[i].tables, e) && RowsAgree(states[i].tables, e.reminder);
    RemindersHaveHistory(states, steps, i, e.reminder);
  }

  /** And so was everything a consumer group took effect for. */
  lemma EffectsWereAsked(states: seq<State>, steps: seq<Step>, i: nat, x: Effect)
    requires IsRun(states, steps) && i < |states| && x in states[i].effects
    ensures exists now :: WasAsked(steps, i, x.event.reminder, x.event.user, x.event.text, x.event.remindAt, now)
    ensures WasReceived(steps, i, x.event.occurredAt)
  {
    RunKeepsInv(states, steps, i);
    assert x.event in states[i].stream;
    PublicationsWereAsked(states, steps, i, x.event);
  }

  /** A reminder is asked for once, so what was asked for fixes the event. */
  lemma AskedOnce(states: seq<State>, steps: seq<Step>, j: nat, k: nat)
    requires IsRun(states, steps) && j < k < |steps| && steps[j].Create? && steps[k].Create?
    ensures steps[j].id != steps[k].id
  {
    RunOnlyGrows(states, steps, j + 1, k);
  }
}
