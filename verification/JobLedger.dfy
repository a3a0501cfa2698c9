/** The job command ledger: record a fire, then emit it under the row lock
    (`services/backend/src/controllers/jobs.py`, `app/repositories/job_command.py`).

    Committed transactions are atomic steps, the row lock is explicit, and any process may
    crash between two steps. */
module JobLedger {
  import opened Options
  import opened Publications

  type Instant = int
  type Process = nat

  datatype Key = Key(product: string, command: string)
  datatype Fire = Fire(key: Key, name: string, arguments: string, run: string)
  datatype Status = Undelivered | Dispatched
  datatype Row = Row(fire: Fire, acceptedAt: Instant, status: Status, dispatchedAt: Option<Instant>)
  datatype JobFired = JobFired(fire: Fire, acceptedAt: Instant)

  type Rows = map<Key, Row>

  // -------------------------------------------------------- repository operations

  function Recorded(rows: Rows, fire: Fire, at: Instant): Rows {
    if fire.key in rows then rows else rows[fire.key := Row(fire, at, Undelivered, None)]
  }

  function MarkedDispatched(row: Row, at: Instant): Row {
    row.(status := Dispatched, dispatchedAt := Some(at))
  }

  function EventOf(row: Row): JobFired {
    JobFired(row.fire, row.acceptedAt)
  }

  // ------------------------------------------------------------------ the protocol

  /** Where a fire stands. From `Emitting` on it holds the row lock. */
  datatype Phase = Started | RowCommitted | Emitting | Delivered | Undeliverable | AlreadyDispatched

  datatype Attempt = Attempt(fire: Fire, phase: Phase)

  /** `lostCommits` and `falseFailures` count deliveries whose final commit never happened
      and deliveries the publisher was told had failed. */
  datatype State = State(
    rows: Rows,
    locks: map<Key, Process>,
    attempts: map<Process, Attempt>,
    stream: seq<JobFired>,
    lostCommits: multiset<Key>,
    falseFailures: multiset<Key>)

  datatype Step =
    | Begin(p: Process, fire: Fire)
    | Record(p: Process, at: Instant)
    | Lock(p: Process)
    | Publish(p: Process, outcome: Outcome)
    | Commit(p: Process, at: Instant)
    | Crash(p: Process)

  const Initial := State(map[], map[], map[], [], multiset{}, multiset{})

  predicate HoldsLock(phase: Phase) {
    phase !in {Started, RowCommitted}
  }

  predicate Enabled(s: State, step: Step) {
    match step
    case Begin(p, _) => p !in s.attempts
    case Record(p, _) => p in s.attempts && s.attempts[p].phase == Started
    case Lock(p) =>
      p in s.attempts && s.attempts[p].phase == RowCommitted
      && s.attempts[p].fire.key !in s.locks && s.attempts[p].fire.key in s.rows
    case Publish(p, _) => p in s.attempts && s.attempts[p].phase == Emitting && s.attempts[p].fire.key in s.rows
    case Commit(p, _) =>
      p in s.attempts && s.attempts[p].phase in {Delivered, Undeliverable, AlreadyDispatched}
      && s.attempts[p].fire.key in s.rows
    case Crash(p) => p in s.attempts
  }

  function WithPhase(s: State, p: Process, phase: Phase): State
    requires p in s.attempts
  {
    s.(attempts := s.attempts[p := s.attempts[p].(phase := phase)])
  }

  /** The transaction ends: the attempt is over and a lock it held is released. */
  function Ended(s: State, p: Process): State
    requires p in s.attempts
  {
    var key := s.attempts[p].fire.key;
    s.(attempts := s.attempts - {p},
       locks := if HoldsLock(s.attempts[p].phase) then s.locks - {key} else s.locks)
  }

  function Apply(s: State, step: Step): State
    requires Enabled(s, step)
  {
    match step
    case Begin(p, fire) => s.(attempts := s.attempts[p := Attempt(fire, Started)])
    case Record(p, at) => WithPhase(s, p, RowCommitted).(rows := Recorded(s.rows, s.attempts[p].fire, at))
    case Lock(p) =>
      var key := s.attempts[p].fire.key;
      var next := if s.rows[key].status == Dispatched then AlreadyDispatched else Emitting;
      WithPhase(s, p, next).(locks := s.locks[key := p])
    case Publish(p, outcome) =>
      var key := s.attempts[p].fire.key;
      var event := EventOf(s.rows[key]);
      (match outcome
       case Accepted => WithPhase(s, p, Delivered).(stream := s.stream + [event])
       case DeliveredButReportedFailed =>
         WithPhase(s, p, Undeliverable).(stream := s.stream + [event], falseFailures := s.falseFailures + multiset{key})
       case NotDelivered => WithPhase(s, p, Undeliverable))
    case Commit(p, at) =>
      var key := s.attempts[p].fire.key;
      var delivered := s.attempts[p].phase == Delivered;
      Ended(s, p).(rows := if delivered then s.rows[key := MarkedDispatched(s.rows[key], at)] else s.rows)
    case Crash(p) =>
      var key := s.attempts[p].fire.key;
      var delivered := s.attempts[p].phase == Delivered;
      Ended(s, p).(lostCommits := if delivered then s.lostCommits + multiset{key} else s.lostCommits)
  }

  /** A run: any interleaving of the steps of any number of processes. */
  ghost predicate IsRun(states: seq<State>, steps: seq<Step>) {
    && |states| == |steps| + 1
    && states[0] == Initial
    && forall i :: 0 <= i < |steps| ==> Enabled(states[i], steps[i]) && states[i + 1] == Apply(states[i], steps[i])
  }

  // ------------------------------------------------------------------ the invariant

  function Deliveries(stream: seq<JobFired>, key: Key): nat {
    if stream == [] then 0
    else Deliveries(stream[..|stream| - 1], key) + if stream[|stream| - 1].fire.key == key then 1 else 0
  }

  predicate IsDispatched(s: State, key: Key) {
    key in s.rows && s.rows[key].status == Dispatched
  }

  /** An attempt has delivered and has not yet committed. */
  predicate InFlight(s: State, key: Key) {
    key in s.locks && s.locks[key] in s.attempts && s.attempts[s.locks[key]].phase == Delivered
  }

  ghost predicate RowsAreSound(s: State) {
    forall key :: key in s.rows ==>
      s.rows[key].fire.key == key && (s.rows[key].status == Dispatched <==> s.rows[key].dispatchedAt.Some?)
  }

  ghost predicate LocksAreSound(s: State) {
    && (forall key :: key in s.locks ==>
          && s.locks[key] in s.attempts
          && s.attempts[s.locks[key]].fire.key == key && HoldsLock(s.attempts[s.locks[key]].phase))
    && (forall p :: p in s.attempts && HoldsLock(s.attempts[p].phase) ==>
          s.attempts[p].fire.key in s.locks && s.locks[s.attempts[p].fire.key] == p)
  }

  /** What an attempt claims about the row it works on. */
  predicate AttemptIsSound(s: State, p: Process)
    requires p in s.attempts
  {
    var key := s.attempts[p].fire.key;
    s.attempts[p].phase != Started ==>
      && key in s.rows
      && (HoldsLock(s.attempts[p].phase) ==>
            (s.rows[key].status == Dispatched <==> s.attempts[p].phase == AlreadyDispatched))
  }

  ghost predicate AttemptsAreSound(s: State) {
    forall p :: p in s.attempts ==> AttemptIsSound(s, p)
  }

  ghost predicate StreamIsSound(s: State) {
    forall i :: 0 <= i < |s.stream| ==>
      s.stream[i].fire.key in s.rows && s.stream[i] == EventOf(s.rows[s.stream[i].fire.key])
  }

  ghost predicate Conserved(s: State, key: Key) {
    Deliveries(s.stream, key)
    == (if IsDispatched(s, key) then 1 else 0) + (if InFlight(s, key) then 1 else 0)
       + s.lostCommits[key] + s.falseFailures[key]
  }

  ghost predicate Structured(s: State) {
    RowsAreSound(s) && LocksAreSound(s) && AttemptsAreSound(s) && StreamIsSound(s)
  }

  ghost predicate Inv(s: State) {
    Structured(s) && forall key :: Conserved(s, key)
  }

  /** A row keeps everything it was recorded with, and a dispatched row never changes. */
  ghost predicate RowsOnlyMature(before: Rows, after: Rows) {
    forall key :: key in before ==>
      && key in after
      && after[key].fire == before[key].fire && after[key].acceptedAt == before[key].acceptedAt
      && (before[key].status == Dispatched ==> after[key] == before[key])
  }

  lemma DeliveriesAppend(stream: seq<JobFired>, e: JobFired, key: Key)
    ensures Deliveries(stream + [e], key) == Deliveries(stream, key) + if e.fire.key == key then 1 else 0
  {
    assert (stream + [e])[..|stream + [e]| - 1] == stream;
  }

  lemma InitialInv()
    ensures Inv(Initial)
  {
  }

  lemma CommitKeepsRows(s: State, p: Process, at: Instant)
    requires Structured(s) && Enabled(s, Commit(p, at))
    ensures var t := Apply(s, Commit(p, at)); RowsAreSound(t) && RowsOnlyMature(s.rows, t.rows)
  {
    assert s.attempts[p].phase == Delivered ==> s.rows[s.attempts[p].fire.key].status == Undelivered;
  }

  lemma RecordKeepsRows(s: State, p: Process, at: Instant)
    requires RowsAreSound(s) && Enabled(s, Record(p, at))
    ensures var t := Apply(s, Record(p, at)); RowsAreSound(t) && RowsOnlyMature(s.rows, t.rows)
  {
  }

  lemma SameRows(s: State, t: State)
    requires RowsAreSound(s) && t.rows == s.rows
    ensures RowsAreSound(t) && RowsOnlyMature(s.rows, t.rows)
  {
  }

  lemma StepKeepsRows(s: State, step: Step)
    requires Structured(s) && Enabled(s, step)
    ensures RowsAreSound(Apply(s, step))
    ensures RowsOnlyMature(s.rows, Apply(s, step).rows)
  {
    if step.Commit? {
      CommitKeepsRows(s, step.p, step.at);
    } else if step.Record? {
      RecordKeepsRows(s, step.p, step.at);
    } else {
      hide RowsOnlyMature;
      SameRows(s, Apply(s, step));
    }
  }

  lemma LockKeepsLocks(s: State, p: Process)
    requires Structured(s) && Enabled(s, Lock(p))
    ensures LocksAreSound(Apply(s, Lock(p)))
  {
  }

  lemma EndKeepsLocks(s: State, step: Step)
    requires Structured(s) && Enabled(s, step) && (step.Commit? || step.Crash?)
    ensures LocksAreSound(Apply(s, step))
  {
    hide RowsAreSound, AttemptsAreSound, StreamIsSound;
    var t := Apply(s, step);
    assert t.locks == Ended(s, step.p).locks && t.attempts == Ended(s, step.p).attempts;
  }

  /** No other step takes or releases a lock. */
  lemma OtherStepKeepsLocks(s: State, step: Step)
    requires LocksAreSound(s) && Enabled(s, step) && (step.Begin? || step.Record? || step.Publish?)
    ensures LocksAreSound(Apply(s, step))
  {
    var t := Apply(s, step);
    assert t.locks == s.locks;
    if step.Begin? {
      BeginKeepsLocks(s, step.p, step.fire);
    } else {
      hide LocksAreSound;
      PhaseChangeKeepsLocks(s, step.p, t.attempts[step.p].phase);
      assert t.attempts == WithPhase(s, step.p, t.attempts[step.p].phase).attempts;
      SameLocks(WithPhase(s, step.p, t.attempts[step.p].phase), t);
    }
  }

  lemma BeginKeepsLocks(s: State, p: Process, fire: Fire)
    requires LocksAreSound(s) && Enabled(s, Begin(p, fire))
    ensures LocksAreSound(Apply(s, Begin(p, fire)))
  {
  }

  lemma SameLocks(s: State, t: State)
    requires LocksAreSound(s) && s.locks == t.locks && s.attempts == t.attempts
    ensures LocksAreSound(t)
  {
  }

  lemma PhaseChangeKeepsLocks(s: State, p: Process, phase: Phase)
    requires LocksAreSound(s) && p in s.attempts && HoldsLock(phase) == HoldsLock(s.attempts[p].phase)
    ensures LocksAreSound(WithPhase(s, p, phase))
  {
  }

  lemma StepKeepsLocks(s: State, step: Step)
    requires Structured(s) && Enabled(s, step)
    ensures LocksAreSound(Apply(s, step))
  {
    match step
    case Lock(p) => LockKeepsLocks(s, p);
    case Commit(_, _) => EndKeepsLocks(s, step);
    case Crash(_) => EndKeepsLocks(s, step);
    case _ => OtherStepKeepsLocks(s, step);
  }

  /** Ending a transaction changes no row another lock holder looks at. */
  lemma EndKeepsAttempts(s: State, step: Step)
    requires Structured(s) && Enabled(s, step) && (step.Commit? || step.Crash?)
    ensures AttemptsAreSound(Apply(s, step))
  {
    hide StreamIsSound, RowsAreSound;
    var t := Apply(s, step);
    StepKeepsRows(s, step);
    forall p | p in t.attempts ensures AttemptIsSound(t, p) {
      assert p != step.p && t.attempts[p] == s.attempts[p];
      var key := s.attempts[p].fire.key;
      if HoldsLock(s.attempts[p].phase) {
        assert AttemptIsSound(s, p) && s.locks[key] == p;
        EndLeavesOthersRows(s, step, key);
      } else {
        assert AttemptIsSound(s, p);
      }
    }
  }

  /** Only the row of a process that holds its lock is written. */
  lemma EndLeavesOthersRows(s: State, step: Step, key: Key)
    requires LocksAreSound(s) && Enabled(s, step) && (step.Commit? || step.Crash?)
    requires key in s.rows && key in s.locks && s.locks[key] != step.p
    ensures key in Apply(s, step).rows && Apply(s, step).rows[key] == s.rows[key]
  {
  }

  lemma OtherStepKeepsAttempt(s: State, step: Step, p: Process)
    requires Enabled(s, step) && !step.Commit? && !step.Crash?
    requires p in s.attempts && AttemptIsSound(s, p)
    ensures p in Apply(s, step).attempts && AttemptIsSound(Apply(s, step), p)
  {
    var t := Apply(s, step);
    if p != step.p {
      assert t.attempts[p] == s.attempts[p];
    }
  }

  lemma OtherStepKeepsAttempts(s: State, step: Step)
    requires AttemptsAreSound(s) && Enabled(s, step) && !step.Commit? && !step.Crash?
    ensures AttemptsAreSound(Apply(s, step))
  {
    var t := Apply(s, step);
    forall p | p in t.attempts ensures AttemptIsSound(t, p) {
      if p in s.attempts {
        OtherStepKeepsAttempt(s, step, p);
      } else {
        assert step.Begin? && t.attempts[p].phase == Started;
      }
    }
  }

  lemma StepKeepsAttempts(s: State, step: Step)
    requires Structured(s) && Enabled(s, step)
    ensures AttemptsAreSound(Apply(s, step))
  {
    if step.Commit? || step.Crash? {
      EndKeepsAttempts(s, step);
    } else {
      OtherStepKeepsAttempts(s, step);
    }
  }

  lemma StepKeepsStream(s: State, step: Step)
    requires Structured(s) && Enabled(s, step)
    ensures StreamIsSound(Apply(s, step))
  {
    StepKeepsRows(s, step);
    if step.Publish? {
      PublishKeepsStream(s, step.p, step.outcome);
    } else {
      assert Apply(s, step).stream == s.stream;
      OlderStreamStays(s, Apply(s, step));
    }
  }

  lemma PublishKeepsStream(s: State, p: Process, outcome: Outcome)
    requires StreamIsSound(s) && AttemptsAreSound(s) && RowsAreSound(s) && Enabled(s, Publish(p, outcome))
    ensures StreamIsSound(Apply(s, Publish(p, outcome)))
  {
  }

  /** Rows that only mature still tell the events that were emitted from them. */
  lemma OlderStreamStays(s: State, t: State)
    requires StreamIsSound(s) && t.stream == s.stream && RowsOnlyMature(s.rows, t.rows)
    ensures StreamIsSound(t)
  {
  }

  lemma PublishConserves(s: State, p: Process, outcome: Outcome, key: Key)
    requires Structured(s) && Conserved(s, key) && Enabled(s, Publish(p, outcome))
    ensures Conserved(Apply(s, Publish(p, outcome)), key)
  {
    hide StreamIsSound, Deliveries;
    var t := Apply(s, Publish(p, outcome));
    var own := s.attempts[p].fire.key;
    assert s.locks[own] == p;
    DeliveriesAppend(s.stream, EventOf(s.rows[own]), key);
    if key == own {
      assert !InFlight(s, key) && InFlight(t, key) == (outcome == Accepted);
    } else {
      assert InFlight(t, key) == InFlight(s, key);
    }
  }

  /** Whose delivery is in flight after a transaction has ended. */
  lemma EndedInFlight(s: State, step: Step, key: Key)
    requires Structured(s) && Enabled(s, step) && (step.Commit? || step.Crash?)
    ensures var own := s.attempts[step.p];
            InFlight(Apply(s, step), key) == (InFlight(s, key) && !(key == own.fire.key && HoldsLock(own.phase)))
    ensures var own := s.attempts[step.p];
            key == own.fire.key && HoldsLock(own.phase) ==> InFlight(s, key) == (own.phase == Delivered)
  {
    hide StreamIsSound, RowsAreSound, AttemptsAreSound;
    var t := Apply(s, step);
    var own := s.attempts[step.p];
    assert t.locks == Ended(s, step.p).locks && t.attempts == Ended(s, step.p).attempts;
    if key == own.fire.key && HoldsLock(own.phase) {
      assert s.locks[key] == step.p && key !in t.locks;
    } else {
      assert key in s.locks ==> s.locks[key] != step.p;
    }
  }

  lemma EndConserves(s: State, step: Step, key: Key)
    requires Structured(s) && Conserved(s, key) && Enabled(s, step) && (step.Commit? || step.Crash?)
    ensures Conserved(Apply(s, step), key)
  {
    hide StreamIsSound, RowsAreSound, LocksAreSound, Deliveries, InFlight;
    EndedInFlight(s, step, key);
    var own := s.attempts[step.p];
    assert own.phase == Delivered ==> !IsDispatched(s, own.fire.key);
  }

  /** Steps that neither publish nor end an attempt leave every delivery where it was. */
  lemma QuietStepConserves(s: State, step: Step, key: Key)
    requires Structured(s) && Conserved(s, key) && Enabled(s, step) && (step.Begin? || step.Record? || step.Lock?)
    ensures Conserved(Apply(s, step), key)
  {
    var t := Apply(s, step);
    assert InFlight(t, key) == InFlight(s, key);
    assert IsDispatched(t, key) == IsDispatched(s, key);
  }

  lemma StepConserves(s: State, step: Step, key: Key)
    requires Structured(s) && Conserved(s, key) && Enabled(s, step)
    ensures Conserved(Apply(s, step), key)
  {
    match step
    case Publish(p, outcome) => PublishConserves(s, p, outcome, key);
    case Commit(_, _) => EndConserves(s, step, key);
    case Crash(_) => EndConserves(s, step, key);
    case _ => QuietStepConserves(s, step, key);
  }

  /** Every step of every process keeps the invariant. */
  lemma StepKeepsInv(s: State, step: Step)
    requires Inv(s) && Enabled(s, step)
    ensures Inv(Apply(s, step))
  {
    StepKeepsRows(s, step);
    StepKeepsLocks(s, step);
    StepKeepsAttempts(s, step);
    StepKeepsStream(s, step);
    forall key ensures Conserved(Apply(s, step), key) {
      assert Conserved(s, key);
      StepConserves(s, step, key);
    }
  }

  lemma {:induction false} RunKeepsInv(states: seq<State>, steps: seq<Step>, i: nat)
    requires IsRun(states, steps) && i < |states|
    ensures Inv(states[i])
  {
    if i == 0 {
      InitialInv();
    } else {
      RunKeepsInv(states, steps, i - 1);
      StepKeepsInv(states[i - 1], steps[i - 1]);
    }
  }

  // -------------------------------------------------------------- what runs promise

  lemma RowsStay(rows: Rows)
    ensures RowsOnlyMature(rows, rows)
  {
  }

  lemma MaturingGoesOn(a: Rows, b: Rows, c: Rows)
    requires RowsOnlyMature(a, b) && RowsOnlyMature(b, c)
    ensures RowsOnlyMature(a, c)
  {
  }

  lemma {:induction false} RecordedRowsAreImmutable(states: seq<State>, steps: seq<Step>, i: nat, j: nat)
    requires IsRun(states, steps) && i <= j < |states|
    ensures RowsOnlyMature(states[i].rows, states[j].rows)
    decreases j
  {
    hide RowsOnlyMature, Apply, Enabled;
    if i == j {
      RowsStay(states[i].rows);
    } else {
      RecordedRowsAreImmutable(states, steps, i, j - 1);
      RowsMatureOneStep(states, steps, j - 1);
      MaturingGoesOn(states[i].rows, states[j - 1].rows, states[j].rows);
    }
  }

  lemma RowsMatureOneStep(states: seq<State>, steps: seq<Step>, k: nat)
    requires IsRun(states, steps) && k < |steps|
    ensures RowsOnlyMature(states[k].rows, states[k + 1].rows)
  {
    hide Structured, Apply, Enabled, RowsOnlyMature, Conserved;
    RunKeepsInv(states, steps, k);
    StepKeepsRows(states[k], steps[k]);
  }

  /** No emission precedes the committed row of its command, and it carries that row. */
  lemma EmissionsFollowTheirRows(states: seq<State>, steps: seq<Step>, i: nat, k: nat)
    requires IsRun(states, steps) && i < |states| && k < |states[i].stream|
    ensures var event := states[i].stream[k];
            event.fire.key in states[i].rows && event == EventOf(states[i].rows[event.fire.key])
    ensures i > 0 && k >= |states[i - 1].stream| ==> states[i].stream[k].fire.key in states[i - 1].rows
  {
    RunKeepsInv(states, steps, i);
    if i > 0 {
      RunKeepsInv(states, steps, i - 1);
    }
  }

  /** At most one process per command is between taking the lock and committing. */
  lemma OneEmitterPerCommand(states: seq<State>, steps: seq<Step>, i: nat, p: Process, q: Process)
    requires IsRun(states, steps) && i < |states|
    requires p in states[i].attempts && HoldsLock(states[i].attempts[p].phase)
    requires q in states[i].attempts && HoldsLock(states[i].attempts[q].phase)
    requires states[i].attempts[p].fire.key == states[i].attempts[q].fire.key
    ensures p == q
  {
    RunKeepsInv(states, steps, i);
  }

  lemma DispatchedStep(s: State, step: Step, key: Key)
    requires Structured(s) && Enabled(s, step) && IsDispatched(s, key)
    ensures IsDispatched(Apply(s, step), key)
    ensures Deliveries(Apply(s, step).stream, key) == Deliveries(s.stream, key)
  {
    StepKeepsRows(s, step);
    if step.Publish? {
      DeliveriesAppend(s.stream, EventOf(s.rows[s.attempts[step.p].fire.key]), key);
    }
  }

  /** A dispatched command was delivered, and is never emitted again. */
  lemma {:induction false} DispatchedIsTerminal(states: seq<State>, steps: seq<Step>, i: nat, j: nat, key: Key)
    requires IsRun(states, steps) && i <= j < |states|
    requires IsDispatched(states[i], key)
    ensures Deliveries(states[i].stream, key) >= 1
    ensures IsDispatched(states[j], key)
    ensures Deliveries(states[j].stream, key) == Deliveries(states[i].stream, key)
    decreases j
  {
    hide Structured, Deliveries, Apply, Enabled;
    RunKeepsInv(states, steps, i);
    assert Conserved(states[i], key);
    if i < j {
      DispatchedIsTerminal(states, steps, i, j - 1, key);
      RunKeepsInv(states, steps, j - 1);
      DispatchedStep(states[j - 1], steps[j - 1], key);
    }
  }

  /** With no attempt in flight, deliveries are accounted for exactly: one if the command is
      dispatched, one for every lost final commit and every delivery reported as failed. */
  lemma DeliveriesAreAccountedFor(states: seq<State>, steps: seq<Step>, i: nat, key: Key)
    requires IsRun(states, steps) && i < |states|
    requires forall p :: p in states[i].attempts ==> states[i].attempts[p].fire.key != key
    ensures Deliveries(states[i].stream, key)
            == (if IsDispatched(states[i], key) then 1 else 0) + states[i].lostCommits[key]
              + states[i].falseFailures[key]
  {
    RunKeepsInv(states, steps, i);
    assert Conserved(states[i], key);
  }

  predicate IsFault(step: Step) {
    step.Crash? || (step.Publish? && step.outcome == DeliveredButReportedFailed)
  }

  /** Without crashes and false failure reports no command is emitted twice. */
  lemma FaultFreeRunsEmitOnce(states: seq<State>, steps: seq<Step>, i: nat, key: Key)
    requires IsRun(states, steps) && i < |states|
    requires forall k :: 0 <= k < |steps| ==> !IsFault(steps[k])
    ensures Deliveries(states[i].stream, key) <= 1
    ensures Deliveries(states[i].stream, key) == 1 <==> IsDispatched(states[i], key) || InFlight(states[i], key)
  {
    RunKeepsInv(states, steps, i);
    assert Conserved(states[i], key);
    NothingLost(states, steps, i);
    assert InFlight(states[i], key) ==> states[i].attempts[states[i].locks[key]].fire.key == key;
  }

  lemma {:induction false} NothingLost(states: seq<State>, steps: seq<Step>, i: nat)
    requires IsRun(states, steps) && i < |states|
    requires forall k :: 0 <= k < |steps| ==> !IsFault(steps[k])
    ensures states[i].lostCommits == multiset{} && states[i].falseFailures == multiset{}
  {
    if i > 0 {
      NothingLost(states, steps, i - 1);
      assert !IsFault(steps[i - 1]);
    }
  }

  // ------------------------------------------------------------------ the code's form

  /** What a fire answers: 404 for a name without a declared schema, 422 for arguments the
      schema refuses, and otherwise the recorded evidence. */
  datatype Answer = NotDeclared | ArgumentsRefused | Evidence(row: Row)

  /** The declared jobs; each schema stands for the arguments it accepts. */
  type Schemas = map<string, string -> bool>

  predicate Admitted(schemas: Schemas, fire: Fire) {
    fire.name in schemas && schemas[fire.name](fire.arguments)
  }

  /** One backend process working on the ledger table and the stream, uninterrupted. */
  class JobsController {
    const schemas: Schemas
    var rows: Rows
    var stream: seq<JobFired>

    constructor (schemas: Schemas)
      ensures this.schemas == schemas && rows == map[] && stream == []
    {
      this.schemas, rows, stream := schemas, map[], [];
    }

    /** `record`: the existing row, or a new one; and whether this call created it. */
    method Record(fire: Fire, at: Instant) returns (row: Row, created: bool)
      modifies `rows
      ensures rows == Recorded(old(rows), fire, at)
      ensures fire.key in rows && row == rows[fire.key] && created == (fire.key !in old(rows))
      ensures rows == if created then old(rows)[fire.key := Row(fire, at, Undelivered, None)] else old(rows)
    {
      if fire.key in rows {
        return rows[fire.key], false;
      }
      row := Row(fire, at, Undelivered, None);
      rows := rows[fire.key := row];
      created := true;
    }

    /** `mark_dispatched` */
    method MarkDispatched(key: Key, at: Instant)
      requires key in rows
      modifies `rows
      ensures rows == old(rows)[key := MarkedDispatched(old(rows)[key], at)]
    {
      rows := rows[key := rows[key].(status := Dispatched, dispatchedAt := Some(at))];
    }

    /** `_emit`: the event leaves or does not; an error of the transport is reported, not raised. */
    method Emit(key: Key, outcome: Outcome) returns (delivered: bool)
      requires key in rows
      modifies `stream
      ensures delivered == (outcome == Accepted)
      ensures stream == if outcome == NotDelivered then old(stream) else old(stream) + [EventOf(rows[key])]
    {
      if outcome != NotDelivered {
        stream := stream + [JobFired(rows[key].fire, rows[key].acceptedAt)];
      }
      delivered := outcome == Accepted;
    }

    /** `_validate_arguments` */
    method ValidateArguments(name: string, arguments: string) returns (refusal: Option<Answer>)
      ensures refusal == Some(NotDeclared) <==> name !in schemas
      ensures refusal == Some(ArgumentsRefused) <==> name in schemas && !schemas[name](arguments)
      ensures refusal.None? || refusal.value in {NotDeclared, ArgumentsRefused}
    {
      if name !in schemas {
        return Some(NotDeclared);
      }
      refusal := if schemas[name](arguments) then None else Some(ArgumentsRefused);
    }

    /** `fire`, with the outcome its publication would have: a payload that is not admitted is
        refused before anything is recorded. */
    method Fire(fire: Fire, acceptedAt: Instant, outcome: Outcome, dispatchedAt: Instant) returns (answer: Answer)
      modifies `rows, `stream
      ensures answer.Evidence? <==> Admitted(schemas, fire)
      ensures answer == NotDeclared <==> fire.name !in schemas
      ensures !answer.Evidence? ==> rows == old(rows) && stream == old(stream)
      ensures answer.Evidence? ==>
                && (rows, stream) == Fired(old(rows), old(stream), fire, acceptedAt, outcome, dispatchedAt)
                && fire.key in rows && answer.row == rows[fire.key]
      ensures answer.Evidence? ==>
                var row := if fire.key in old(rows) then old(rows)[fire.key]
                           else Row(fire, acceptedAt, Undelivered, None);
                var sends := row.status != Dispatched && outcome != NotDelivered;
                && rows == old(rows)[fire.key := if row.status != Dispatched && outcome == Accepted
                                                 then Row(row.fire, row.acceptedAt, Dispatched, Some(dispatchedAt))
                                                 else row]
                && stream == old(stream) + if sends then [JobFired(row.fire, row.acceptedAt)] else []
    {
      var refusal := ValidateArguments(fire.name, fire.arguments);
      if refusal.Some? {
        return refusal.value;
      }
      var _, _ := Record(fire, acceptedAt);
      if rows[fire.key].status != Dispatched {
        var delivered := Emit(fire.key, outcome);
        if delivered {
          MarkDispatched(fire.key, dispatchedAt);
        }
      }
      answer := Evidence(rows[fire.key]);
    }

    /** `evidence`: the recorded command, of its own product only. */
    method Recall(key: Key) returns (row: Option<Row>)
      ensures row.Some? <==> key in rows
      ensures row.Some? ==> row.value == rows[key]
    {
      row := if key in rows then Some(rows[key]) else None;
    }
  }

  /** The protocol steps one uninterrupted fire goes through. */
  function FireSteps(rows: Rows, p: Process, fire: Fire, acceptedAt: Instant, outcome: Outcome,
                     dispatchedAt: Instant): seq<Step>
  {
    var row := Recorded(rows, fire, acceptedAt)[fire.key];
    [Begin(p, fire), Record(p, acceptedAt), Lock(p)]
    + (if row.status == Dispatched then [] else [Publish(p, outcome)])
    + [Commit(p, dispatchedAt)]
  }

  /** The table and the stream after the publication of a locked row and its commit. */
  function Published(rows: Rows, stream: seq<JobFired>, key: Key, outcome: Outcome, at: Instant): (Rows, seq<JobFired>)
    requires key in rows
  {
    if rows[key].status == Dispatched || outcome == NotDelivered then (rows, stream)
    else if outcome == Accepted then (rows[key := MarkedDispatched(rows[key], at)], stream + [EventOf(rows[key])])
    else (rows, stream + [EventOf(rows[key])])
  }

  /** The table and the stream after a whole fire. */
  function Fired(rows: Rows, stream: seq<JobFired>, fire: Fire, acceptedAt: Instant, outcome: Outcome,
                 dispatchedAt: Instant)
    : (Rows, seq<JobFired>)
  {
    Published(Recorded(rows, fire, acceptedAt), stream, fire.key, outcome, dispatchedAt)
  }

  predicate AllEnabled(s: State, steps: seq<Step>)
    decreases |steps|
  {
    steps == [] || (Enabled(s, steps[0]) && AllEnabled(Apply(s, steps[0]), steps[1..]))
  }

  function ApplyAll(s: State, steps: seq<Step>): State
    requires AllEnabled(s, steps)
    decreases |steps|
  {
    if steps == [] then s else ApplyAll(Apply(s, steps[0]), steps[1..])
  }

  lemma OneStep(s: State, steps: seq<Step>)
    requires steps != [] && Enabled(s, steps[0])
    ensures AllEnabled(s, steps) <==> AllEnabled(Apply(s, steps[0]), steps[1..])
    ensures AllEnabled(s, steps) ==> ApplyAll(s, steps) == ApplyAll(Apply(s, steps[0]), steps[1..])
  {
  }

  /** From the moment the row lock is held: publish unless dispatched, then commit. */
  lemma LockedFireFollowsTheProtocol(s: State, p: Process, outcome: Outcome, at: Instant)
    requires p in s.attempts && s.attempts[p].fire.key in s.rows
    requires var row := s.rows[s.attempts[p].fire.key];
             s.attempts[p].phase == if row.status == Dispatched then AlreadyDispatched else Emitting
    ensures var row := s.rows[s.attempts[p].fire.key];
            var steps := (if row.status == Dispatched then [] else [Publish(p, outcome)]) + [Commit(p, at)];
            && AllEnabled(s, steps)
            && var t := ApplyAll(s, steps);
            && (t.rows, t.stream) == Published(s.rows, s.stream, s.attempts[p].fire.key, outcome, at)
            && t.locks == s.locks - {s.attempts[p].fire.key} && t.attempts == s.attempts - {p}
  {
    var row := s.rows[s.attempts[p].fire.key];
    if row.status == Dispatched {
      var steps := [Commit(p, at)];
      assert [] + steps == steps;
      OneStep(s, steps);
    } else {
      var steps := [Publish(p, outcome), Commit(p, at)];
      assert [Publish(p, outcome)] + [Commit(p, at)] == steps && steps[1..] == [Commit(p, at)];
      OneStep(s, steps);
      OneStep(Apply(s, Publish(p, outcome)), [Commit(p, at)]);
    }
  }

  lemma FireTakesTheLock(s: State, p: Process, fire: Fire, at: Instant)
    requires Structured(s) && p !in s.attempts && fire.key !in s.locks
    ensures Enabled(s, Begin(p, fire))
    ensures var s1 := Apply(s, Begin(p, fire));
            && Enabled(s1, Record(p, at))
            && var s2 := Apply(s1, Record(p, at));
            && Enabled(s2, Lock(p))
            && var s3 := Apply(s2, Lock(p));
            && (s3.rows, s3.stream) == (Recorded(s.rows, fire, at), s.stream)
            && s3.attempts - {p} == s.attempts && s3.locks - {fire.key} == s.locks
            && p in s3.attempts && s3.attempts[p].fire == fire
            && s3.attempts[p].phase == if s3.rows[fire.key].status == Dispatched then AlreadyDispatched else Emitting
  {
  }

  /** What the controller computes is what the protocol does when nobody interferes. */
  lemma FireFollowsTheProtocol(s: State, p: Process, fire: Fire, acceptedAt: Instant, outcome: Outcome,
                               dispatchedAt: Instant)
    requires Structured(s) && p !in s.attempts && fire.key !in s.locks
    ensures var steps := FireSteps(s.rows, p, fire, acceptedAt, outcome, dispatchedAt);
            && AllEnabled(s, steps)
            && var t := ApplyAll(s, steps);
            && (t.rows, t.stream) == Fired(s.rows, s.stream, fire, acceptedAt, outcome, dispatchedAt)
            && t.locks == s.locks && t.attempts == s.attempts
  {
    hide AllEnabled, ApplyAll, Structured, Enabled, Apply, Published, MarkedDispatched;
    FireTakesTheLock(s, p, fire, acceptedAt);
    var s3 := Apply(Apply(Apply(s, Begin(p, fire)), Record(p, acceptedAt)), Lock(p));
    LockedFireFollowsTheProtocol(s3, p, outcome, dispatchedAt);
    var rest := (if s3.rows[fire.key].status == Dispatched then [] else [Publish(p, outcome)])
      + [Commit(p, dispatchedAt)];
    PrependThree(s, Begin(p, fire), Record(p, acceptedAt), Lock(p), rest);
    assert FireSteps(s.rows, p, fire, acceptedAt, outcome, dispatchedAt)
        == [Begin(p, fire), Record(p, acceptedAt), Lock(p)] + rest;
  }

  lemma PrependThree(s: State, a: Step, b: Step, c: Step, rest: seq<Step>)
    requires Enabled(s, a) && Enabled(Apply(s, a), b) && Enabled(Apply(Apply(s, a), b), c)
    requires AllEnabled(Apply(Apply(Apply(s, a), b), c), rest)
    ensures AllEnabled(s, [a, b, c] + rest)
    ensures ApplyAll(s, [a, b, c] + rest) == ApplyAll(Apply(Apply(Apply(s, a), b), c), rest)
  {
    hide Apply, Enabled, AllEnabled, ApplyAll;
    PrependStep(Apply(Apply(s, a), b), c, rest);
    PrependStep(Apply(s, a), b, [c] + rest);
    PrependStep(s, a, [b] + ([c] + rest));
    assert [a, b, c] + rest == [a] + ([b] + ([c] + rest));
  }

  lemma PrependStep(s: State, step: Step, rest: seq<Step>)
    requires Enabled(s, step) && AllEnabled(Apply(s, step), rest)
    ensures AllEnabled(s, [step] + rest) && ApplyAll(s, [step] + rest) == ApplyAll(Apply(s, step), rest)
  {
    assert ([step] + rest)[1..] == rest;
  }
}
