/** Where everything in the job ledger and its stream comes from: each value that a run of
    `JobLedger` leaves behind was handed to an earlier step of that run. */
module JobHistory {
  import opened Options
  import opened Publications
  import opened JobLedger

  /** A process was asked for this fire. */
  predicate WasAsked(steps: seq<Step>, i: nat, fire: Fire) {
    exists k :: 0 <= k < i && k < |steps| && steps[k].Begin? && steps[k].fire == fire
  }

  predicate Records(states: seq<State>, steps: seq<Step>, k: nat, fire: Fire, at: Instant) {
    && k < |steps| && k < |states| && steps[k].Record? && steps[k].at == at
    && steps[k].p in states[k].attempts && states[k].attempts[steps[k].p].fire == fire
    && fire.key !in states[k].rows
  }

  /** The command was recorded with this fire at this instant, when it was not yet known. */
  predicate WasRecorded(states: seq<State>, steps: seq<Step>, i: nat, fire: Fire, at: Instant) {
    exists k :: 0 <= k < i && Records(states, steps, k, fire, at)
  }

  predicate Dispatches(states: seq<State>, steps: seq<Step>, k: nat, key: Key, at: Instant) {
    && k < |steps| && k < |states| && steps[k].Commit? && steps[k].at == at
    && steps[k].p in states[k].attempts && states[k].attempts[steps[k].p].fire.key == key
    && states[k].attempts[steps[k].p].phase == Delivered
  }

  /** A process that had delivered the command's event committed at this instant. */
  predicate WasDispatched(states: seq<State>, steps: seq<Step>, i: nat, key: Key, at: Instant) {
    exists k :: 0 <= k < i && Dispatches(states, steps, k, key, at)
  }

  predicate Publishes(states: seq<State>, steps: seq<Step>, k: nat, key: Key) {
    && k < |steps| && k < |states| && steps[k].Publish?
    && steps[k].p in states[k].attempts && states[k].attempts[steps[k].p].fire.key == key
  }

  predicate WasAccepted(states: seq<State>, steps: seq<Step>, i: nat, key: Key) {
    exists k :: 0 <= k < i && Publishes(states, steps, k, key) && steps[k].outcome == Accepted
  }

  predicate RowHasHistory(states: seq<State>, steps: seq<Step>, i: nat, row: Row) {
    && WasAsked(steps, i, row.fire) && WasRecorded(states, steps, i, row.fire, row.acceptedAt)
    && (row.dispatchedAt.Some? ==>
          WasDispatched(states, steps, i, row.fire.key, row.dispatchedAt.value)
          && WasAccepted(states, steps, i, row.fire.key))
  }

  predicate AttemptHasHistory(states: seq<State>, steps: seq<Step>, i: nat, attempt: Attempt) {
    && WasAsked(steps, i, attempt.fire)
    && (attempt.phase == Delivered ==> WasAccepted(states, steps, i, attempt.fire.key))
  }

  ghost predicate HasHistory(states: seq<State>, steps: seq<Step>, i: nat, s: State) {
    && (forall key :: key in s.rows ==> RowHasHistory(states, steps, i, s.rows[key]))
    && (forall p :: p in s.attempts ==> AttemptHasHistory(states, steps, i, s.attempts[p]))
  }

  lemma RowHistoryGrows(states: seq<State>, steps: seq<Step>, i: nat, row: Row)
    requires RowHasHistory(states, steps, i, row)
    ensures RowHasHistory(states, steps, i + 1, row)
  {
  }

  lemma AttemptHistoryGrows(states: seq<State>, steps: seq<Step>, i: nat, attempt: Attempt)
    requires AttemptHasHistory(states, steps, i, attempt)
    ensures AttemptHasHistory(states, steps, i + 1, attempt)
  {
  }

  /** A row stays as it is, or is recorded by an attempt, or marked by one that has delivered. */
  lemma RowAfter(s: State, step: Step, key: Key)
    requires Enabled(s, step) && key in Apply(s, step).rows
    ensures var row := Apply(s, step).rows[key];
            || (key in s.rows && row == s.rows[key])
            || (step.Record? && key !in s.rows && s.attempts[step.p].fire.key == key
                && row == Row(s.attempts[step.p].fire, step.at, Undelivered, None))
            || (step.Commit? && key in s.rows && s.attempts[step.p].phase == Delivered
                && s.attempts[step.p].fire.key == key
                && row == s.rows[key].(status := Dispatched, dispatchedAt := Some(step.at)))
  {
  }

  /** An attempt has just begun, or goes on with its fire, and has delivered only if it has now. */
  lemma AttemptAfter(s: State, step: Step, p: Process)
    requires Enabled(s, step) && p in Apply(s, step).attempts
    ensures var attempt := Apply(s, step).attempts[p];
            || (step.Begin? && attempt == Attempt(step.fire, Started))
            || (p in s.attempts && attempt.fire == s.attempts[p].fire
                && (attempt.phase == Delivered ==>
                      s.attempts[p].phase == Delivered
                      || (step.Publish? && step.p == p && step.outcome == Accepted)))
  {
    var t := Apply(s, step);
    assert p in s.attempts && p != step.p ==> t.attempts[p] == s.attempts[p];
  }

  lemma StreamAfter(s: State, step: Step)
    requires Enabled(s, step)
    ensures var t := Apply(s, step);
            if step.Publish? && step.outcome != NotDelivered
            then t.stream == s.stream + [EventOf(s.rows[s.attempts[step.p].fire.key])] else t.stream == s.stream
  {
  }

  lemma RowKeepsHistory(states: seq<State>, steps: seq<Step>, i: nat, key: Key)
    requires IsRun(states, steps) && i < |steps| && HasHistory(states, steps, i, states[i])
    requires (forall k :: k in states[i].rows ==> states[i].rows[k].fire.key == k) && key in states[i + 1].rows
    ensures RowHasHistory(states, steps, i + 1, states[i + 1].rows[key])
  {
    hide Apply, AttemptHasHistory;
    var s, row, step := states[i], states[i + 1].rows[key], steps[i];
    RowAfter(s, step, key);
    if key in s.rows {
      RowHistoryGrows(states, steps, i, s.rows[key]);
      if row != s.rows[key] {
        MarkedHasHistory(states, steps, i, key, s.rows[key]);
      }
    } else {
      RecordedHasHistory(states, steps, i);
    }
  }

  lemma RecordedHasHistory(states: seq<State>, steps: seq<Step>, i: nat)
    requires i < |steps| && i < |states| && steps[i].Record? && Enabled(states[i], steps[i])
    requires states[i].attempts[steps[i].p].fire.key !in states[i].rows
    requires AttemptHasHistory(states, steps, i, states[i].attempts[steps[i].p])
    ensures var fire := states[i].attempts[steps[i].p].fire;
            RowHasHistory(states, steps, i + 1, Row(fire, steps[i].at, Undelivered, None))
  {
    assert Records(states, steps, i, states[i].attempts[steps[i].p].fire, steps[i].at);
  }

  lemma MarkedHasHistory(states: seq<State>, steps: seq<Step>, i: nat, key: Key, row: Row)
    requires i < |steps| && i < |states| && steps[i].Commit? && Enabled(states[i], steps[i])
    requires RowHasHistory(states, steps, i + 1, row) && row.fire.key == key
    requires var attempt := states[i].attempts[steps[i].p];
             attempt.fire.key == key && attempt.phase == Delivered && AttemptHasHistory(states, steps, i, attempt)
    ensures RowHasHistory(states, steps, i + 1, row.(status := Dispatched, dispatchedAt := Some(steps[i].at)))
  {
    assert Dispatches(states, steps, i, key, steps[i].at);
  }

  lemma AttemptKeepsHistory(states: seq<State>, steps: seq<Step>, i: nat, p: Process)
    requires IsRun(states, steps) && i < |steps| && HasHistory(states, steps, i, states[i])
    requires p in states[i + 1].attempts
    ensures AttemptHasHistory(states, steps, i + 1, states[i + 1].attempts[p])
  {
    hide Apply, RowHasHistory;
    var s, attempt, step := states[i], states[i + 1].attempts[p], steps[i];
    AttemptAfter(s, step, p);
    if step.Begin? && attempt == Attempt(step.fire, Started) {
    } else {
      AttemptHistoryGrows(states, steps, i, s.attempts[p]);
      if attempt.phase == Delivered && s.attempts[p].phase != Delivered {
        assert Publishes(states, steps, i, s.attempts[p].fire.key) && step.outcome == Accepted;
      }
    }
  }

  lemma RowsHaveTheirKeys(states: seq<State>, steps: seq<Step>, i: nat)
    requires IsRun(states, steps) && i < |states|
    ensures forall key :: key in states[i].rows ==> states[i].rows[key].fire.key == key
  {
    RunKeepsInv(states, steps, i);
  }

  lemma RunHasSizes(states: seq<State>, steps: seq<Step>)
    requires IsRun(states, steps)
    ensures |states| == |steps| + 1
  {
  }

  lemma StepHasHistory(states: seq<State>, steps: seq<Step>, i: nat)
    requires IsRun(states, steps) && i < |steps| && HasHistory(states, steps, i, states[i])
    ensures HasHistory(states, steps, i + 1, states[i + 1])
  {
    hide RowHasHistory, AttemptHasHistory, Apply, Enabled, IsRun;
    RunHasSizes(states, steps);
    RowsHaveTheirKeys(states, steps, i);
    var t := states[i + 1];
    forall key | key in t.rows ensures RowHasHistory(states, steps, i + 1, t.rows[key]) {
      RowKeepsHistory(states, steps, i, key);
    }
    forall p | p in t.attempts ensures AttemptHasHistory(states, steps, i + 1, t.attempts[p]) {
      AttemptKeepsHistory(states, steps, i, p);
    }
  }

  lemma {:induction false} RunHasHistory(states: seq<State>, steps: seq<Step>, i: nat)
    requires IsRun(states, steps) && i < |states|
    ensures HasHistory(states, steps, i, states[i])
  {
    hide Apply, Enabled, RowHasHistory, AttemptHasHistory;
    if i > 0 {
      hide HasHistory;
      RunHasHistory(states, steps, i - 1);
      StepHasHistory(states, steps, i - 1);
    }
  }

  /** The evidence of a command: it is what some fire asked for, accepted at the instant of the
      step that first recorded it; and if it is dispatched, at the instant of the commit of a
      process whose publication had been accepted. */
  lemma EvidenceIsTrue(states: seq<State>, steps: seq<Step>, i: nat, key: Key)
    requires IsRun(states, steps) && i < |states| && key in states[i].rows
    ensures var row := states[i].rows[key];
            && row.fire.key == key && WasAsked(steps, i, row.fire)
            && WasRecorded(states, steps, i, row.fire, row.acceptedAt)
            && (row.status == Dispatched <==> row.dispatchedAt.Some?)
            && (row.status == Dispatched ==>
                  WasDispatched(states, steps, i, key, row.dispatchedAt.value) && WasAccepted(states, steps, i, key))
  {
    RunHasHistory(states, steps, i);
    RunKeepsInv(states, steps, i);
  }

  /** Every emitted event is what some fire asked for, with the instant it was recorded at. */
  lemma EmissionsWereAsked(states: seq<State>, steps: seq<Step>, i: nat, e: JobFired)
    requires IsRun(states, steps) && i < |states| && e in states[i].stream
    ensures WasAsked(steps, i, e.fire) && WasRecorded(states, steps, i, e.fire, e.acceptedAt)
  {
    RunHasHistory(states, steps, i);
    RunKeepsInv(states, steps, i);
  }

  /** Publications and events: the stream holds one event for each publication that was not lost,
      in their order, each of the command it was made for. */
  function Delivering(steps: seq<Step>, states: seq<State>, i: nat): seq<Key>
    requires i <= |steps| && i <= |states|
  {
    if i == 0 then []
    else
      Delivering(steps, states, i - 1)
      + if steps[i - 1].Publish? && steps[i - 1].outcome != NotDelivered && steps[i - 1].p in states[i - 1].attempts
        then [states[i - 1].attempts[steps[i - 1].p].fire.key] else []
  }

  lemma {:induction false} StreamIsWhatWasDelivered(states: seq<State>, steps: seq<Step>, i: nat)
    requires IsRun(states, steps) && i < |states|
    ensures |states[i].stream| == |Delivering(steps, states, i)|
    ensures forall n :: 0 <= n < |states[i].stream| ==> states[i].stream[n].fire.key == Delivering(steps, states, i)[n]
  {
    hide Apply;
    if i > 0 {
      StreamIsWhatWasDelivered(states, steps, i - 1);
      RunKeepsInv(states, steps, i - 1);
      StreamAfter(states[i - 1], steps[i - 1]);
      if steps[i - 1].Publish? {
        PublisherIsKnown(states[i - 1], steps[i - 1]);
      }
    }
  }

  lemma PublisherIsKnown(s: State, step: Step)
    requires Inv(s) && Enabled(s, step) && step.Publish?
    ensures step.p in s.attempts && s.attempts[step.p].fire.key in s.rows
    ensures EventOf(s.rows[s.attempts[step.p].fire.key]).fire.key == s.attempts[step.p].fire.key
  {
  }
}
