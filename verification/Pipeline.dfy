/** From the timer's slots to a consumer's effect: the timer loops
    (`services/backend/src/app/timers.py`), the job command ledger
    (`services/backend/src/controllers/jobs.py`) and the reminder package that consumes its events
    (`codegen_kit_reminders/runtime.py`), in one machine.

    Any number of loops read the clock at any time, callers fire jobs of their own, and every
    entry of the job stream may be delivered any number of times. Instants are microseconds. */
module Pipeline {
  import opened Options
  import Grid = TimerGrid
  import Ledger = JobLedger
  import Outbox = Reminders

  const Tick: string := "reminders.tick"

  /** One product: its timers, how instants are written up to the slot `last`, and how the
      arguments of a tick are made and read. */
  datatype Product = Product(
    name: string, timers: seq<Grid.Timer>, render: int -> string, width: nat, last: int,
    argumentsOf: string -> string, instantOf: string -> Option<int>)

  ghost predicate ValidProduct(product: Product) {
    && Grid.ValidTimers(product.timers)
    && Grid.RendersInstants(product.render, product.width, product.last)
    && forall slot :: 0 <= slot <= product.last ==>
         product.instantOf(product.argumentsOf(product.render(slot))) == Some(slot * Grid.Second)
  }

  // ------------------------------------------------------------------ what is sent

  function KeyOf(product: Product, f: Grid.Fire): Ledger.Key {
    Ledger.Key(product.name, Grid.CommandId(f.job, f.slot, product.render))
  }

  /** `timer_fire`. */
  function FireOf(product: Product, f: Grid.Fire): Ledger.Fire {
    Ledger.Fire(KeyOf(product, f), f.job, product.argumentsOf(product.render(f.slot)), Grid.TimerRun)
  }

  predicate IsTimerCommand(command: string) {
    Grid.TimerRun + ":" <= command
  }

  /** The instant of a delivered tick; other jobs and unreadable arguments have none. */
  function TickOf(product: Product, fired: Ledger.JobFired): Option<int> {
    if fired.fire.name == Tick then product.instantOf(fired.fire.arguments) else None
  }

  // ------------------------------------------------------------------- the machine

  /** `fired` is what the loops have attempted so far, each slot with the clock reading of its
      latest attempt. */
  datatype State = State(fired: map<Grid.Fire, int>, ledger: Ledger.State, outbox: Outbox.State)

  datatype Step =
    | TimerFires(p: Ledger.Process, k: nat, now: int)
    | CallerFires(p: Ledger.Process, fire: Ledger.Fire)
    | LedgerMoves(move: Ledger.Step)
    | Deliver(worker: Outbox.Process, n: nat)
    | OutboxMoves(turn: Outbox.Step)

  const Initial := State(map[], Ledger.Initial, Outbox.Initial)

  predicate ReadsClock(product: Product, step: Step) {
    step.TimerFires? ==>
      && step.k < |product.timers| && product.timers[step.k].every > 0 && step.now >= 0
      && Grid.SlotOf(step.now, product.timers[step.k].every) <= product.last
  }

  function Attempted(product: Product, step: Step): Grid.Fire
    requires step.TimerFires? && ReadsClock(product, step)
  {
    Grid.Fire(product.timers[step.k].job, Grid.SlotOf(step.now, product.timers[step.k].every))
  }

  /** What a step is for the ledger, if anything. */
  function LedgerStep(product: Product, step: Step): Option<Ledger.Step>
    requires ReadsClock(product, step)
  {
    match step
    case TimerFires(p, _, _) => Some(Ledger.Begin(p, FireOf(product, Attempted(product, step))))
    case CallerFires(p, fire) => Some(Ledger.Begin(p, fire))
    case LedgerMoves(move) => Some(move)
    case _ => None
  }

  /** What a step is for the reminder package, if anything. */
  function OutboxStep(product: Product, s: State, step: Step): Option<Outbox.Step> {
    match step
    case Deliver(worker, n) =>
      if n < |s.ledger.stream| && TickOf(product, s.ledger.stream[n]).Some?
      then Some(Outbox.ReceiveJob(worker, TickOf(product, s.ledger.stream[n]).value)) else None
    case OutboxMoves(turn) => Some(turn)
    case _ => None
  }

  ghost predicate Enabled(product: Product, s: State, step: Step) {
    && ReadsClock(product, step)
    && (step.LedgerMoves? ==> !step.move.Begin?)
    && (step.OutboxMoves? ==> !step.turn.ReceiveJob?)
    && (step.Deliver? ==> step.n < |s.ledger.stream|)
    && (LedgerStep(product, step).Some? ==> Ledger.Enabled(s.ledger, LedgerStep(product, step).value))
    && (OutboxStep(product, s, step).Some? ==> Outbox.Enabled(s.outbox, OutboxStep(product, s, step).value))
  }

  function Apply(product: Product, s: State, step: Step): State
    requires Enabled(product, s, step)
  {
    State(
      if step.TimerFires? then s.fired[Attempted(product, step) := step.now] else s.fired,
      if LedgerStep(product, step).Some? then Ledger.Apply(s.ledger, LedgerStep(product, step).value) else s.ledger,
      if OutboxStep(product, s, step).Some?
      then Outbox.Apply(s.outbox, OutboxStep(product, s, step).value) else s.outbox)
  }

  ghost predicate IsRun(product: Product, states: seq<State>, steps: seq<Step>) {
    && |states| == |steps| + 1
    && states[0] == Initial
    && forall i :: 0 <= i < |steps| ==>
         Enabled(product, states[i], steps[i]) && states[i + 1] == Apply(product, states[i], steps[i])
  }

  /** The identities of the core timer are its own. */
  ghost predicate CallersKeepOff(steps: seq<Step>) {
    forall i :: 0 <= i < |steps| && steps[i].CallerFires? ==> !IsTimerCommand(steps[i].fire.key.command)
  }

  /** What a loop attempts, whatever it remembers, are such steps: the slot of one of its
      timers at one of its readings. */
  lemma {:induction false} LoopsFireSlots(timers: seq<Grid.Timer>, clock: seq<int>, f: Grid.Fire)
    requires forall i :: 0 <= i < |timers| ==> timers[i].every > 0
    requires forall i :: 0 <= i < |clock| ==> clock[i] >= 0
    requires f in Grid.FiresAfter(timers, clock)
    ensures exists k, c :: 0 <= k < |timers| && 0 <= c < |clock| &&
                           f == Grid.Fire(timers[k].job, Grid.SlotOf(clock[c], timers[k].every))
  {
    hide Grid.SlotOf, Grid.DueFires, Grid.AttemptsAfter;
    var n := |clock| - 1;
    var attempts := Grid.AttemptsAfter(timers, clock[..n]);
    if f in Grid.DueFires(attempts, timers, clock[n]) {
      var k := CallFiresSlot(attempts, timers, clock[n], f);
      assert f == Grid.Fire(timers[k].job, Grid.SlotOf(clock[n], timers[k].every));
    } else {
      LoopsFireSlots(timers, clock[..n], f);
      var k, c :| 0 <= k < |timers| && 0 <= c < n &&
                  f == Grid.Fire(timers[k].job, Grid.SlotOf(clock[..n][c], timers[k].every));
      assert clock[..n][c] == clock[c];
    }
  }

  lemma {:induction false} CallFiresSlot(attempts: Grid.Attempts, timers: seq<Grid.Timer>, now: int, f: Grid.Fire)
    returns (k: nat)
    requires now >= 0 && forall i :: 0 <= i < |timers| ==> timers[i].every > 0
    requires f in Grid.DueFires(attempts, timers, now)
    ensures k < |timers| && f == Grid.Fire(timers[k].job, Grid.SlotOf(now, timers[k].every))
  {
    hide Grid.SlotOf;
    var n := |timers| - 1;
    if f in Grid.DueFires(attempts, timers[..n], now) {
      k := CallFiresSlot(attempts, timers[..n], now, f);
    } else {
      k := n;
    }
  }

  // ----------------------------------------------------------------- the invariant

  /** An attempted slot is a grid point of its timer, and had begun when it was attempted. */
  ghost predicate IsSlot(product: Product, f: Grid.Fire, now: int) {
    && 0 <= f.slot <= product.last && f.slot * Grid.Second <= now
    && exists k :: 0 <= k < |product.timers| && product.timers[k].job == f.job && product.timers[k].every > 0
                   && Grid.OnGrid(f.slot, product.timers[k].every)
                   && now < (f.slot + product.timers[k].every) * Grid.Second
  }

  ghost predicate FiredAreSlots(product: Product, s: State) {
    forall f :: f in s.fired ==> IsSlot(product, f, s.fired[f])
  }

  /** A fire the ledger has recorded, or is about to. */
  ghost predicate Known(ledger: Ledger.State, fire: Ledger.Fire) {
    || (exists key :: key in ledger.rows && ledger.rows[key].fire == fire)
    || (exists p :: p in ledger.attempts && ledger.attempts[p].fire == fire)
  }

  ghost predicate IsTimerFire(product: Product, s: State, fire: Ledger.Fire) {
    exists f :: f in s.fired && fire == FireOf(product, f)
  }

  ghost predicate TimerCommandsAreFires(product: Product, s: State) {
    forall fire :: Known(s.ledger, fire) && IsTimerCommand(fire.key.command) ==> IsTimerFire(product, s, fire)
  }

  /** The instants the reminder package works with. */
  ghost predicate TicksAt(outbox: Outbox.State, at: int) {
    || (exists p :: p in outbox.workers && outbox.workers[p] == Outbox.Ticking(at))
    || (exists id :: id in outbox.tables.emissions && outbox.tables.emissions[id].occurredAt == at)
  }

  ghost predicate WasFired(product: Product, ledger: Ledger.State, at: int) {
    exists fired :: fired in ledger.stream && TickOf(product, fired) == Some(at)
  }

  ghost predicate TicksWereFired(product: Product, s: State) {
    forall at :: TicksAt(s.outbox, at) ==> WasFired(product, s.ledger, at)
  }

  ghost predicate Inv(product: Product, s: State) {
    Ledger.Inv(s.ledger) && Outbox.Inv(s.outbox) && FiredAreSlots(product, s) && TicksWereFired(product, s)
  }

  lemma NoNewFires(ledger: Ledger.State, move: Ledger.Step, fire: Ledger.Fire)
    requires Ledger.Enabled(ledger, move) && Known(Ledger.Apply(ledger, move), fire)
    requires !(move.Begin? && move.fire == fire)
    ensures Known(ledger, fire)
  {
    hide Ledger.Apply, Ledger.Enabled;
    var after := Ledger.Apply(ledger, move);
    if key :| key in after.rows && after.rows[key].fire == fire {
      RowIsKnown(ledger, move, key);
    } else {
      var p :| p in after.attempts && after.attempts[p].fire == fire;
      AttemptIsKnown(ledger, move, p);
    }
  }

  /** A row comes from an earlier one, or from the attempt that records it. */
  lemma RowIsKnown(ledger: Ledger.State, move: Ledger.Step, key: Ledger.Key)
    requires Ledger.Enabled(ledger, move) && key in Ledger.Apply(ledger, move).rows
    ensures Known(ledger, Ledger.Apply(ledger, move).rows[key].fire)
  {
    var fire := Ledger.Apply(ledger, move).rows[key].fire;
    assert key in ledger.rows ==> ledger.rows[key].fire == fire;
    assert key !in ledger.rows ==> move.Record? && ledger.attempts[move.p].fire == fire;
  }

  lemma AttemptIsKnown(ledger: Ledger.State, move: Ledger.Step, p: Ledger.Process)
    requires Ledger.Enabled(ledger, move) && p in Ledger.Apply(ledger, move).attempts
    ensures var fire := Ledger.Apply(ledger, move).attempts[p].fire;
            Known(ledger, fire) || (move.Begin? && move.fire == fire)
  {
    var fire := Ledger.Apply(ledger, move).attempts[p].fire;
    assert p in ledger.attempts ==> ledger.attempts[p].fire == fire;
  }

  lemma NoNewTicks(outbox: Outbox.State, turn: Outbox.Step, at: int)
    requires Outbox.Enabled(outbox, turn) && TicksAt(Outbox.Apply(outbox, turn), at)
    requires !(turn.ReceiveJob? && turn.at == at)
    ensures TicksAt(outbox, at)
  {
    var after := Outbox.Apply(outbox, turn);
    if p :| p in after.workers && after.workers[p] == Outbox.Ticking(at) {
      assert p in outbox.workers && outbox.workers[p] == Outbox.Ticking(at);
    } else {
      var id :| id in after.tables.emissions && after.tables.emissions[id].occurredAt == at;
      if id in outbox.tables.emissions {
        assert outbox.tables.emissions[id].occurredAt == at;
      } else {
        assert turn.Transition? && outbox.workers[turn.p] == Outbox.Ticking(at);
      }
    }
  }

  lemma AttemptedIsSlot(product: Product, step: Step)
    requires step.TimerFires? && ReadsClock(product, step)
    ensures IsSlot(product, Attempted(product, step), step.now)
  {
    hide Grid.SlotOf, Grid.OnGrid;
    Grid.SlotContainsNow(step.now, product.timers[step.k].every);
  }

  lemma StepKeepsFired(product: Product, s: State, step: Step)
    requires FiredAreSlots(product, s) && Enabled(product, s, step)
    ensures FiredAreSlots(product, Apply(product, s, step))
  {
    hide IsSlot, Grid.SlotOf, LedgerStep, OutboxStep;
    if step.TimerFires? {
      AttemptedIsSlot(product, step);
    }
  }

  lemma StreamOnlyGrows(ledger: Ledger.State, move: Ledger.Step)
    requires Ledger.Enabled(ledger, move)
    ensures ledger.stream <= Ledger.Apply(ledger, move).stream
  {
  }

  lemma FiredStaysFired(product: Product, before: Ledger.State, after: Ledger.State, at: int)
    requires WasFired(product, before, at) && before.stream <= after.stream
    ensures WasFired(product, after, at)
  {
    var fired :| fired in before.stream && TickOf(product, fired) == Some(at);
    assert fired in after.stream;
  }

  lemma StepKeepsTicks(product: Product, s: State, step: Step)
    requires TicksWereFired(product, s) && Enabled(product, s, step)
    ensures TicksWereFired(product, Apply(product, s, step))
  {
    hide TicksAt, WasFired, Ledger.Apply, Ledger.Enabled, Outbox.Apply, Outbox.Enabled;
    var t := Apply(product, s, step);
    if LedgerStep(product, step).Some? {
      StreamOnlyGrows(s.ledger, LedgerStep(product, step).value);
    }
    forall at | TicksAt(t.outbox, at) ensures WasFired(product, t.ledger, at) {
      if step.Deliver? && TickOf(product, s.ledger.stream[step.n]) == Some(at) {
        DeliveredWasFired(product, t.ledger, step.n, at);
      } else {
        if OutboxStep(product, s, step).Some? {
          NoNewTicks(s.outbox, OutboxStep(product, s, step).value, at);
        }
        FiredStaysFired(product, s.ledger, t.ledger, at);
      }
    }
  }

  lemma DeliveredWasFired(product: Product, ledger: Ledger.State, n: nat, at: int)
    requires n < |ledger.stream| && TickOf(product, ledger.stream[n]) == Some(at)
    ensures WasFired(product, ledger, at)
  {
    assert ledger.stream[n] in ledger.stream;
  }

  lemma StepKeepsInv(product: Product, s: State, step: Step)
    requires Inv(product, s) && Enabled(product, s, step)
    ensures Inv(product, Apply(product, s, step))
  {
    hide Ledger.Inv, Outbox.Inv, FiredAreSlots, TicksWereFired, Ledger.Apply, Outbox.Apply;
    StepKeepsFired(product, s, step);
    StepKeepsTicks(product, s, step);
    if LedgerStep(product, step).Some? {
      Ledger.StepKeepsInv(s.ledger, LedgerStep(product, step).value);
    }
    if OutboxStep(product, s, step).Some? {
      Outbox.StepKeepsInv(s.outbox, OutboxStep(product, s, step).value);
    }
  }

  /** Every reachable state of the whole pipeline, whatever callers fire. */
  lemma {:induction false} RunKeepsInv(product: Product, states: seq<State>, steps: seq<Step>, i: nat)
    requires IsRun(product, states, steps) && i < |states|
    ensures Inv(product, states[i])
  {
    hide Enabled, Apply;
    if i == 0 {
      Ledger.InitialInv();
    } else {
      hide Inv;
      RunKeepsInv(product, states, steps, i - 1);
      StepKeepsInv(product, states[i - 1], steps[i - 1]);
    }
  }

  lemma TimerFireStays(product: Product, s: State, t: State, fire: Ledger.Fire)
    requires IsTimerFire(product, s, fire) && s.fired.Keys <= t.fired.Keys
    ensures IsTimerFire(product, t, fire)
  {
    var f :| f in s.fired && fire == FireOf(product, f);
    assert f in t.fired;
  }

  lemma StepKeepsCommands(product: Product, s: State, step: Step)
    requires TimerCommandsAreFires(product, s) && Enabled(product, s, step)
    requires step.CallerFires? ==> !IsTimerCommand(step.fire.key.command)
    ensures TimerCommandsAreFires(product, Apply(product, s, step))
  {
    hide Known, IsTimerFire, IsTimerCommand, Grid.SlotOf, OutboxStep, FireOf, Ledger.Apply, Ledger.Enabled;
    var t := Apply(product, s, step);
    forall fire | Known(t.ledger, fire) && IsTimerCommand(fire.key.command) ensures IsTimerFire(product, t, fire) {
      if step.TimerFires? && fire == FireOf(product, Attempted(product, step)) {
        OwnTimerFire(product, t, Attempted(product, step));
      } else {
        if LedgerStep(product, step).Some? {
          NoNewFires(s.ledger, LedgerStep(product, step).value, fire);
        }
        TimerFireStays(product, s, t, fire);
      }
    }
  }

  lemma OwnTimerFire(product: Product, s: State, f: Grid.Fire)
    requires f in s.fired
    ensures IsTimerFire(product, s, FireOf(product, f))
  {
  }

  lemma {:induction false} RunKeepsCommands(product: Product, states: seq<State>, steps: seq<Step>, i: nat)
    requires IsRun(product, states, steps) && CallersKeepOff(steps) && i < |states|
    ensures TimerCommandsAreFires(product, states[i])
  {
    hide Enabled, Apply;
    if i > 0 {
      RunKeepsCommands(product, states, steps, i - 1);
      hide TimerCommandsAreFires;
      StepKeepsCommands(product, states[i - 1], steps[i - 1]);
    }
  }

  // ------------------------------------------------------------- what runs promise

  lemma TimerKeysAreCommands(product: Product, f: Grid.Fire)
    ensures IsTimerCommand(KeyOf(product, f).command)
  {
    var x := Grid.TimerRun + ":";
    assert KeyOf(product, f).command == x + (f.job + ":" + product.render(f.slot));
  }

  lemma KeysAreOfSlots(product: Product, f: Grid.Fire, g: Grid.Fire)
    requires ValidProduct(product) && 0 <= f.slot <= product.last && 0 <= g.slot <= product.last
    ensures KeyOf(product, f) == KeyOf(product, g) <==> f == g
  {
    Grid.CommandIdIsInjective(f, g, product.render, product.width, product.last);
  }

  lemma RecordedTimerFire(product: Product, s: State, f: Grid.Fire)
    requires ValidProduct(product) && Inv(product, s) && TimerCommandsAreFires(product, s)
    requires 0 <= f.slot <= product.last && KeyOf(product, f) in s.ledger.rows
    ensures f in s.fired && s.ledger.rows[KeyOf(product, f)].fire == FireOf(product, f)
  {
    hide Outbox.Inv, TicksWereFired, Grid.CommandId, ValidProduct, IsTimerCommand;
    var fire := s.ledger.rows[KeyOf(product, f)].fire;
    TimerKeysAreCommands(product, f);
    assert fire.key == KeyOf(product, f) && Known(s.ledger, fire);
    var g :| g in s.fired && fire == FireOf(product, g);
    assert IsSlot(product, g, s.fired[g]);
    KeysAreOfSlots(product, f, g);
  }

  /** One slot, one row: however many loops attempt a slot, however often, the ledger has at
      most one row with its fire, under its own identity and only if the slot was attempted;
      and every `job_fired` of that identity is the same event, which carries the slot. */
  lemma OneSlotOneRow(product: Product, states: seq<State>, steps: seq<Step>, i: nat, f: Grid.Fire)
    requires ValidProduct(product) && IsRun(product, states, steps) && CallersKeepOff(steps) && i < |states|
    requires 0 <= f.slot <= product.last
    ensures var s, key := states[i], KeyOf(product, f);
            && (key in s.ledger.rows ==> f in s.fired && s.ledger.rows[key].fire == FireOf(product, f))
            && (forall k :: k in s.ledger.rows && s.ledger.rows[k].fire == FireOf(product, f) ==> k == key)
            && (forall fired :: fired in s.ledger.stream && fired.fire.key == key ==>
                key in s.ledger.rows
                && fired == Ledger.JobFired(FireOf(product, f), s.ledger.rows[key].acceptedAt)
                && fired.fire.key.product == product.name && fired.fire.name == f.job && fired.fire.run == "core-timer"
                && product.instantOf(fired.fire.arguments) == Some(f.slot * 1_000_000))
  {
    hide Enabled, Apply, Outbox.Inv, TicksWereFired, Grid.CommandId, TimerCommandsAreFires;
    var s := states[i];
    RunKeepsInv(product, states, steps, i);
    RunKeepsCommands(product, states, steps, i);
    if KeyOf(product, f) in s.ledger.rows {
      RecordedTimerFire(product, s, f);
    }
  }

  /** The instant of a tick that stands in the ledger under an identity of the timer. */
  lemma TickIsSlot(product: Product, s: State, fired: Ledger.JobFired, at: int) returns (f: Grid.Fire)
    requires ValidProduct(product) && Inv(product, s) && TimerCommandsAreFires(product, s)
    requires fired in s.ledger.stream && TickOf(product, fired) == Some(at) && IsTimerCommand(fired.fire.key.command)
    ensures f in s.fired && f.job == Tick && f.slot * Grid.Second == at && fired.fire == FireOf(product, f)
    ensures IsSlot(product, f, s.fired[f])
  {
    hide Outbox.Inv, TicksWereFired, IsTimerCommand, IsSlot, Grid.CommandId;
    assert fired.fire.key in s.ledger.rows && Known(s.ledger, fired.fire);
    f :| f in s.fired && fired.fire == FireOf(product, f);
    assert IsSlot(product, f, s.fired[f]);
    SlotIsInRange(product, f, s.fired[f]);
  }

  lemma SlotIsInRange(product: Product, f: Grid.Fire, now: int)
    requires IsSlot(product, f, now)
    ensures 0 <= f.slot <= product.last && f.slot * Grid.Second <= now
  {
  }

  /** No tick in the ledger but the timer's. */
  ghost predicate OnlyTheTimerTicks(s: State) {
    forall key :: key in s.ledger.rows && s.ledger.rows[key].fire.name == Tick ==> IsTimerCommand(key.command)
  }

  lemma PublishedWasFired(product: Product, s: State, e: Outbox.Event) returns (fired: Ledger.JobFired)
    requires Inv(product, s) && e in s.outbox.stream
    ensures fired in s.ledger.stream && TickOf(product, fired) == Some(e.occurredAt)
    ensures e.remindAt <= e.occurredAt
    ensures forall e' :: e' in s.outbox.stream && e'.reminder == e.reminder ==> e' == e
    ensures fired.fire.key in s.ledger.rows && s.ledger.rows[fired.fire.key].fire == fired.fire
  {
    hide FiredAreSlots;
    assert Outbox.IsTrue(s.outbox.tables, e) && Outbox.RowsAgree(s.outbox.tables, e.reminder);
    assert TicksAt(s.outbox, e.occurredAt);
    fired :| fired in s.ledger.stream && TickOf(product, fired) == Some(e.occurredAt);
  }

  /** The event carries the instant of an attempted slot, under whose identity the tick is
      recorded, and which had begun, and the reminder's time come, by the reading of the clock
      at which it was attempted. Job and instant leave one such slot only. */
  ghost predicate ComesFromSlot(product: Product, s: State, e: Outbox.Event, f: Grid.Fire) {
    && f in s.fired && f.job == Tick && f.slot * Grid.Second == e.occurredAt
    && IsSlot(product, f, s.fired[f]) && e.remindAt <= s.fired[f]
    && KeyOf(product, f) in s.ledger.rows && s.ledger.rows[KeyOf(product, f)].fire == FireOf(product, f)
  }

  /** From slot to effect, in every run: a group that has an effect of a reminder has exactly
      one; all publications of the reminder are the event that had it, which carries the instant
      of a published tick, not before the reminder's time. If nobody but the timer ticks, that
      tick is the fire of an attempted slot: no reminder comes early. */
  lemma OneSlotOneEffect(product: Product, states: seq<State>, steps: seq<Step>, i: nat, x: Outbox.Effect)
    requires ValidProduct(product) && IsRun(product, states, steps) && CallersKeepOff(steps) && i < |states|
    requires x in states[i].outbox.effects
    ensures Outbox.ReminderEffects(states[i].outbox.effects, x.group, x.event.reminder) == 1
    ensures forall e :: e in states[i].outbox.stream && e.reminder == x.event.reminder ==> e == x.event
    ensures x.event.remindAt <= x.event.occurredAt && WasFired(product, states[i].ledger, x.event.occurredAt)
    ensures OnlyTheTimerTicks(states[i]) ==> exists f :: ComesFromSlot(product, states[i], x.event, f)
  {
    hide Enabled, Apply, TimerCommandsAreFires, IsSlot, IsTimerCommand, FireOf;
    var s := states[i];
    RunKeepsInv(product, states, steps, i);
    RunKeepsCommands(product, states, steps, i);
    EffectIsTheOne(s.outbox, x);
    var fired := PublishedWasFired(product, s, x.event);
    if OnlyTheTimerTicks(s) {
      var f := TickIsSlot(product, s, fired, x.event.occurredAt);
      SlotIsInRange(product, f, s.fired[f]);
      FireHasItsKey(product, f);
      assert ComesFromSlot(product, s, x.event, f);
    }
  }

  lemma FireHasItsKey(product: Product, f: Grid.Fire)
    ensures FireOf(product, f).key == KeyOf(product, f)
  {
  }

  lemma EffectIsTheOne(outbox: Outbox.State, x: Outbox.Effect)
    requires Outbox.Inv(outbox) && x in outbox.effects
    ensures x.event in outbox.stream
    ensures Outbox.ReminderEffects(outbox.effects, x.group, x.event.reminder) == 1
  {
    Outbox.EffectsHappenOnceIn(outbox, x.group, x.event.reminder);
    EffectIsCounted(outbox.effects, x);
  }

  lemma {:induction false} EffectIsCounted(effects: seq<Outbox.Effect>, x: Outbox.Effect)
    requires x in effects
    ensures Outbox.ReminderEffects(effects, x.group, x.event.reminder) >= 1
  {
    if effects[|effects| - 1] != x {
      EffectIsCounted(effects[..|effects| - 1], x);
    }
  }
}
