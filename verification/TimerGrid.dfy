/** The core timer loop and its grids of slots (`services/backend/src/app/timers.py`).
    Instants are microseconds since the Unix epoch, slots whole seconds. */
module TimerGrid {

  const Second: int := 1_000_000
  const TimerRun: string := "core-timer"

  datatype Timer = Timer(job: string, every: int)
  datatype Fire = Fire(job: string, slot: int)

  type Attempts = map<string, int>

  /** `slot_instant`, from the epoch on. */
  function SlotOf(now: int, every: int): int
    requires now >= 0 && every > 0
  {
    var seconds := now / Second;
    seconds - seconds % every
  }

  predicate OnGrid(slot: int, every: int)
    requires every > 0
  {
    slot % every == 0
  }

  /** The slot that contains an instant is the one grid point with the instant in its period. */
  lemma SlotContainsNow(now: int, every: int)
    requires now >= 0 && every > 0
    ensures var slot := SlotOf(now, every);
            && slot >= 0 && OnGrid(slot, every)
            && slot * Second <= now < (slot + every) * Second
    ensures forall other :: OnGrid(other, every) && other * Second <= now < (other + every) * Second ==>
            other == SlotOf(now, every)
  {
    var seconds := now / Second;
    RoundDown(seconds, every);
    forall other | OnGrid(other, every) && other * Second <= now < (other + every) * Second
      ensures other == SlotOf(now, every)
    {
      assert other <= seconds < other + every;
      OneGridPoint(other, SlotOf(now, every), every, seconds);
    }
  }

  lemma RoundDown(seconds: int, every: int)
    requires seconds >= 0 && every > 0
    ensures var slot := seconds - seconds % every; OnGrid(slot, every) && 0 <= slot <= seconds < slot + every
  {
    var q := seconds / every;
    assert seconds - seconds % every == q * every;
    MultipleIsOnGrid(q, every);
    QuotientNotNegative(seconds, every);
  }

  lemma QuotientNotNegative(a: int, b: int)
    requires a >= 0 && b > 0
    ensures a - a % b >= 0
  {
    assert a % b <= a by {
      if a < b {
        assert a % b == a;
      }
    }
  }

  lemma MultipleIsOnGrid(q: int, every: int)
    requires every > 0
    ensures (q * every) % every == 0
  {
    assert q * every == every * q + 0;
    RemainderIsUnique(q * every, every, q, 0);
  }

  lemma RemainderIsUnique(a: int, b: int, q: int, r: int)
    requires b > 0 && a == b * q + r && 0 <= r < b
    ensures a / b == q && a % b == r
  {
    var d := a / b - q;
    assert a == b * (a / b) + a % b;
    assert b * d == r - a % b;
    MultipleIsFar(b, d);
  }

  lemma MultipleIsFar(b: int, d: int)
    requires b > 0
    ensures d >= 1 ==> b * d >= b
    ensures d <= -1 ==> b * d <= -b
  {
  }

  lemma {:induction false} ProductGrows(every: int, p: int, n: nat)
    requires every > 0
    ensures every * (p + n) >= every * p + n
    ensures n > 0 ==> every * (p + n) >= every * p + every
  {
    if n > 0 {
      ProductGrows(every, p, n - 1);
      assert every * (p + n) == every * (p + (n - 1)) + every;
    }
  }

  lemma ProductGap(p: int, q: int, every: int)
    requires every > 0
    ensures p < q ==> every * p + every <= every * q
    ensures p >= q ==> every * p >= every * q
  {
    if p < q {
      ProductGrows(every, p, q - p);
    } else {
      ProductGrows(every, q, p - q);
    }
  }

  lemma GridGap(a: int, b: int, every: int)
    requires every > 0 && OnGrid(a, every) && OnGrid(b, every) && a < b
    ensures a + every <= b
  {
    var p, q := a / every, b / every;
    assert a == every * p && b == every * q;
    ProductGap(p, q, every);
  }

  lemma OneGridPoint(a: int, b: int, every: int, seconds: int)
    requires every > 0 && OnGrid(a, every) && OnGrid(b, every)
    requires a <= seconds < a + every && b <= seconds < b + every
    ensures a == b
  {
    hide OnGrid;
    if a < b {
      GridGap(a, b, every);
    } else if b < a {
      GridGap(b, a, every);
    }
  }

  /** A later instant is in a later slot, or the same one. */
  lemma SlotsFollowTheClock(a: int, b: int, every: int)
    requires 0 <= a <= b && every > 0
    ensures SlotOf(a, every) <= SlotOf(b, every)
  {
    hide SlotOf, OnGrid;
    SlotContainsNow(a, every);
    SlotContainsNow(b, every);
    var s, t := SlotOf(a, every), SlotOf(b, every);
    if t < s {
      GridGap(t, s, every);
    }
  }

  // ------------------------------------------------------------------- one call

  ghost predicate ValidTimers(timers: seq<Timer>) {
    && timers != []
    && (forall i :: 0 <= i < |timers| ==> timers[i].every > 0)
    && (forall i, j :: 0 <= i < j < |timers| ==> timers[i].job != timers[j].job)
  }

  predicate IsDue(attempts: Attempts, timer: Timer, now: int)
    requires now >= 0 && timer.every > 0
  {
    timer.job !in attempts || attempts[timer.job] < SlotOf(now, timer.every)
  }

  /** The slots a call attempts, in the order of the timers. */
  function DueFires(attempts: Attempts, timers: seq<Timer>, now: int): seq<Fire>
    requires now >= 0 && forall i :: 0 <= i < |timers| ==> timers[i].every > 0
  {
    if timers == [] then []
    else
      var last := timers[|timers| - 1];
      DueFires(attempts, timers[..|timers| - 1], now)
      + if IsDue(attempts, last, now) then [Fire(last.job, SlotOf(now, last.every))] else []
  }

  function AfterCall(attempts: Attempts, timers: seq<Timer>, now: int): Attempts
    requires now >= 0 && forall i :: 0 <= i < |timers| ==> timers[i].every > 0
  {
    if timers == [] then attempts
    else
      var last := timers[|timers| - 1];
      var before := AfterCall(attempts, timers[..|timers| - 1], now);
      if IsDue(attempts, last, now) then before[last.job := SlotOf(now, last.every)] else before
  }

  function WaitFor(timer: Timer, now: int): int
    requires now >= 0 && timer.every > 0
  {
    (SlotOf(now, timer.every) + timer.every) * Second - now
  }

  /** The time to the nearest next slot. */
  ghost predicate IsWait(wait: int, timers: seq<Timer>, now: int)
    requires now >= 0 && forall i :: 0 <= i < |timers| ==> timers[i].every > 0
  {
    && (exists i :: 0 <= i < |timers| && wait == WaitFor(timers[i], now))
    && forall i :: 0 <= i < |timers| ==> wait <= WaitFor(timers[i], now)
  }

  lemma WaitIsPositive(wait: int, timers: seq<Timer>, now: int)
    requires now >= 0 && forall i :: 0 <= i < |timers| ==> timers[i].every > 0
    requires IsWait(wait, timers, now)
    ensures wait > 0
  {
    hide SlotOf, OnGrid;
    var i :| 0 <= i < |timers| && wait == WaitFor(timers[i], now);
    SlotContainsNow(now, timers[i].every);
  }

  lemma {:induction false} AfterCallOthers(attempts: Attempts, timers: seq<Timer>, now: int, job: string)
    requires now >= 0 && forall i :: 0 <= i < |timers| ==> timers[i].every > 0
    requires forall i :: 0 <= i < |timers| ==> timers[i].job != job
    ensures var after := AfterCall(attempts, timers, now);
            && (job in after <==> job in attempts)
            && (job in attempts ==> after[job] == attempts[job])
    ensures forall f :: f in DueFires(attempts, timers, now) ==> f.job != job
  {
    hide SlotOf, IsDue;
    if timers != [] {
      AfterCallOthers(attempts, timers[..|timers| - 1], now, job);
      assert timers[|timers| - 1].job != job;
    }
  }

  lemma {:induction false} AfterCallAt(attempts: Attempts, timers: seq<Timer>, now: int, k: nat)
    requires now >= 0 && forall i :: 0 <= i < |timers| ==> timers[i].every > 0
    requires forall i, j :: 0 <= i < j < |timers| ==> timers[i].job != timers[j].job
    requires k < |timers|
    ensures var after := AfterCall(attempts, timers, now);
            var job := timers[k].job;
            && job in after
            && after[job] == (if IsDue(attempts, timers[k], now) then SlotOf(now, timers[k].every) else attempts[job])
  {
    hide SlotOf;
    var n := |timers| - 1;
    var front := timers[..n];
    if k < n {
      AfterCallAt(attempts, front, now, k);
      assert front[k] == timers[k] && timers[n].job != timers[k].job;
    } else {
      AfterCallOthers(attempts, front, now, timers[n].job);
    }
  }

  // ------------------------------------------------------------------- any clock

  /** What the loop has attempted after reading the clock at each of `clock` in turn, whatever
      the readings are: forward, equal or backward. */
  function AttemptsAfter(timers: seq<Timer>, clock: seq<int>): Attempts
    requires forall i :: 0 <= i < |timers| ==> timers[i].every > 0
    requires forall i :: 0 <= i < |clock| ==> clock[i] >= 0
  {
    if clock == [] then map[]
    else AfterCall(AttemptsAfter(timers, clock[..|clock| - 1]), timers, clock[|clock| - 1])
  }

  function FiresAfter(timers: seq<Timer>, clock: seq<int>): seq<Fire>
    requires forall i :: 0 <= i < |timers| ==> timers[i].every > 0
    requires forall i :: 0 <= i < |clock| ==> clock[i] >= 0
  {
    if clock == [] then []
    else
      var front := clock[..|clock| - 1];
      FiresAfter(timers, front) + DueFires(AttemptsAfter(timers, front), timers, clock[|clock| - 1])
  }

  /** The slots of one job among the fires, in order. */
  function SlotsOf(fires: seq<Fire>, job: string): seq<int> {
    if fires == [] then []
    else
      var last := fires[|fires| - 1];
      SlotsOf(fires[..|fires| - 1], job) + if last.job == job then [last.slot] else []
  }

  predicate StrictlyIncreasing(s: seq<int>) {
    forall i, j :: 0 <= i < j < |s| ==> s[i] < s[j]
  }

  lemma {:induction false} SlotsOfConcat(a: seq<Fire>, b: seq<Fire>, job: string)
    ensures SlotsOf(a + b, job) == SlotsOf(a, job) + SlotsOf(b, job)
  {
    if b == [] {
      assert a + b == a;
    } else {
      SlotsOfConcat(a, b[..|b| - 1], job);
      assert (a + b)[..|a + b| - 1] == a + b[..|b| - 1];
    }
  }

  /** A call fires a job once when its slot is due, and not otherwise. */
  lemma {:induction false} DueFiresOf(attempts: Attempts, timers: seq<Timer>, now: int, k: nat)
    requires now >= 0 && forall i :: 0 <= i < |timers| ==> timers[i].every > 0
    requires forall i, j :: 0 <= i < j < |timers| ==> timers[i].job != timers[j].job
    requires k < |timers|
    ensures SlotsOf(DueFires(attempts, timers, now), timers[k].job)
            == if IsDue(attempts, timers[k], now) then [SlotOf(now, timers[k].every)] else []
  {
    hide SlotOf, IsDue, AfterCall, SlotsOf;
    var front, last := timers[..|timers| - 1], timers[|timers| - 1];
    var tail := if IsDue(attempts, last, now) then [Fire(last.job, SlotOf(now, last.every))] else [];
    SlotsOfConcat(DueFires(attempts, front, now), tail, timers[k].job);
    SlotsOfOne(last.job, SlotOf(now, last.every), timers[k].job);
    if k < |timers| - 1 {
      DueFiresOf(attempts, front, now, k);
      assert front[k] == timers[k] && last.job != timers[k].job;
    } else {
      AfterCallOthers(attempts, front, now, last.job);
      NoSlotsOf(DueFires(attempts, front, now), last.job);
    }
  }

  lemma SlotsOfOne(fired: string, slot: int, job: string)
    ensures SlotsOf([], job) == []
    ensures SlotsOf([Fire(fired, slot)], job) == if fired == job then [slot] else []
  {
    assert [Fire(fired, slot)][..0] == [];
  }

  lemma {:induction false} NoSlotsOf(fires: seq<Fire>, job: string)
    requires forall f :: f in fires ==> f.job != job
    ensures SlotsOf(fires, job) == []
  {
    if fires != [] {
      assert fires[|fires| - 1] in fires;
      NoSlotsOf(fires[..|fires| - 1], job);
    }
  }

  /** The slots of a job strictly increase and end with the one that is remembered. */
  ghost predicate Remembers(attempts: Attempts, fires: seq<Fire>, job: string) {
    var slots := SlotsOf(fires, job);
    && StrictlyIncreasing(slots)
    && (slots == [] <==> job !in attempts)
    && (slots != [] ==> attempts[job] == slots[|slots| - 1])
  }

  lemma RemembersOneMore(attempts: Attempts, after: Attempts, fires: seq<Fire>, more: seq<Fire>, job: string, slot: int)
    requires Remembers(attempts, fires, job)
    requires var due := job !in attempts || attempts[job] < slot;
             && SlotsOf(more, job) == SlotsOf(fires, job) + (if due then [slot] else [])
             && job in after && after[job] == if due then slot else attempts[job]
    ensures Remembers(after, more, job)
  {
    hide SlotsOf;
    assert SlotsOf(fires, job) + [] == SlotsOf(fires, job);
  }

  lemma CallKeepsRemembering(attempts: Attempts, fires: seq<Fire>, timers: seq<Timer>, now: int, k: nat)
    requires ValidTimers(timers) && k < |timers| && now >= 0
    requires Remembers(attempts, fires, timers[k].job)
    ensures Remembers(AfterCall(attempts, timers, now), fires + DueFires(attempts, timers, now), timers[k].job)
    ensures timers[k].job in AfterCall(attempts, timers, now)
  {
    hide SlotOf, AfterCall, DueFires, SlotsOf, Remembers;
    SlotsOfConcat(fires, DueFires(attempts, timers, now), timers[k].job);
    DueFiresOf(attempts, timers, now, k);
    AfterCallAt(attempts, timers, now, k);
    RemembersOneMore(attempts, AfterCall(attempts, timers, now), fires, fires + DueFires(attempts, timers, now),
                     timers[k].job, SlotOf(now, timers[k].every));
  }

  /** Whatever the clock does, the attempted slots of a job strictly increase, so no slot is
      attempted twice; the last of them is the one remembered. */
  lemma {:induction false} SlotsStrictlyIncrease(timers: seq<Timer>, clock: seq<int>, k: nat)
    requires ValidTimers(timers) && k < |timers|
    requires forall i :: 0 <= i < |clock| ==> clock[i] >= 0
    ensures Remembers(AttemptsAfter(timers, clock), FiresAfter(timers, clock), timers[k].job)
    ensures clock != [] ==> timers[k].job in AttemptsAfter(timers, clock)
  {
    hide Remembers;
    if clock == [] {
      NothingToRemember(timers[k].job);
    } else {
      var front, now := clock[..|clock| - 1], clock[|clock| - 1];
      SlotsStrictlyIncrease(timers, front, k);
      CallKeepsRemembering(AttemptsAfter(timers, front), FiresAfter(timers, front), timers, now, k);
    }
  }

  lemma NothingToRemember(job: string)
    ensures Remembers(map[], [], job)
  {
  }

  lemma NoSlots(job: string)
    ensures SlotsOf([], job) == []
  {
  }

  /** Every attempted slot is the one that contained some reading of the clock. */
  lemma {:induction false} SlotsComeFromTheClock(timers: seq<Timer>, clock: seq<int>, k: nat)
    requires ValidTimers(timers) && k < |timers|
    requires forall i :: 0 <= i < |clock| ==> clock[i] >= 0
    ensures forall slot :: slot in SlotsOf(FiresAfter(timers, clock), timers[k].job) ==>
              exists i :: 0 <= i < |clock| && slot == SlotOf(clock[i], timers[k].every)
  {
    hide SlotOf, IsDue, SlotsOf, DueFires, AttemptsAfter;
    if clock == [] {
      NoSlots(timers[k].job);
    } else {
      var front, now := clock[..|clock| - 1], clock[|clock| - 1];
      var attempts := AttemptsAfter(timers, front);
      SlotsComeFromTheClock(timers, front, k);
      SlotsOfConcat(FiresAfter(timers, front), DueFires(attempts, timers, now), timers[k].job);
      DueFiresOf(attempts, timers, now, k);
      forall slot | slot in SlotsOf(FiresAfter(timers, clock), timers[k].job)
        ensures exists i :: 0 <= i < |clock| && slot == SlotOf(clock[i], timers[k].every)
      {
        if slot in SlotsOf(FiresAfter(timers, front), timers[k].job) {
          var i :| 0 <= i < |front| && slot == SlotOf(front[i], timers[k].every);
          assert clock[i] == front[i];
        } else {
          assert slot == SlotOf(clock[|clock| - 1], timers[k].every);
        }
      }
    }
  }

  // ----------------------------------------------------------------- exact sleeps

  /** Each reading is the one before plus the wait the call returned. */
  ghost predicate SleepsExactly(timers: seq<Timer>, clock: seq<int>)
    requires forall i :: 0 <= i < |timers| ==> timers[i].every > 0
  {
    && (forall i :: 0 <= i < |clock| ==> clock[i] >= 0)
    && forall i :: 0 <= i < |clock| - 1 ==> IsWait(clock[i + 1] - clock[i], timers, clock[i])
  }

  /** The n-th grid point after `first`. */
  function GridPoint(first: int, every: int, n: nat): (slot: int)
    ensures slot == first + n * every
  {
    if n == 0 then first else GridPoint(first, every, n - 1) + every
  }

  /** The first n grid points from `first` on. */
  function GridFrom(first: int, every: int, n: nat): seq<int> {
    if n == 0 then [] else GridFrom(first, every, n - 1) + [GridPoint(first, every, n - 1)]
  }

  /** Sleeping exactly never skips a slot, and reaches a new one at its very start. */
  lemma NextReading(timers: seq<Timer>, now: int, wait: int, k: nat)
    requires ValidTimers(timers) && now >= 0 && IsWait(wait, timers, now) && k < |timers|
    ensures wait > 0
    ensures var every := timers[k].every;
            var slot, next := SlotOf(now, every), SlotOf(now + wait, every);
            next == slot || (next == slot + every && now + wait == next * Second)
  {
    hide SlotOf, OnGrid;
    WaitIsPositive(wait, timers, now);
    var every := timers[k].every;
    var slot, next := SlotOf(now, every), SlotOf(now + wait, every);
    SlotContainsNow(now, every);
    SlotContainsNow(now + wait, every);
    SlotsFollowTheClock(now, now + wait, every);
    assert now + wait <= (slot + every) * Second;
    if next != slot {
      GridGap(slot, next, every);
    }
  }

  /** With exact sleeps and instant fires, a job has attempted exactly the slots from the one
      the loop started in to the current one, each once, in order. */
  lemma {:induction false} EverySlotOnce(timers: seq<Timer>, clock: seq<int>, k: nat) returns (n: nat)
    requires ValidTimers(timers) && SleepsExactly(timers, clock) && clock != [] && k < |timers|
    ensures SlotsOf(FiresAfter(timers, clock), timers[k].job)
            == GridFrom(SlotOf(clock[0], timers[k].every), timers[k].every, n + 1)
    ensures SlotOf(clock[|clock| - 1], timers[k].every)
            == GridPoint(SlotOf(clock[0], timers[k].every), timers[k].every, n)
  {
    hide SlotOf, IsWait, IsDue, GridPoint, FiresAfter, SlotsOf, GridFrom;
    var every, job := timers[k].every, timers[k].job;
    var front, now := clock[..|clock| - 1], clock[|clock| - 1];
    CallFiresNewSlot(timers, clock, k);
    if |clock| == 1 {
      n := 0;
      StartOfGrid(SlotOf(now, every), every);
    } else {
      var last := |clock| - 2;
      var before := clock[last];
      assert before == front[|front| - 1];
      assert IsWait(clock[last + 1] - clock[last], timers, clock[last]);
      NextReading(timers, before, now - before, k);
      var m := EverySlotOnce(timers, front, k);
      LastOfGrid(SlotOf(clock[0], every), every, m);
      if SlotOf(now, every) == SlotOf(before, every) {
        n := m;
      } else {
        n := m + 1;
        NextOfGrid(SlotOf(clock[0], every), every, m);
      }
    }
  }

  /** One more reading adds its slot when that is past the last attempted one. */
  lemma CallFiresNewSlot(timers: seq<Timer>, clock: seq<int>, k: nat)
    requires ValidTimers(timers) && clock != [] && k < |timers|
    requires forall i :: 0 <= i < |clock| ==> clock[i] >= 0
    ensures var now := clock[|clock| - 1];
            var before := SlotsOf(FiresAfter(timers, clock[..|clock| - 1]), timers[k].job);
            var slot := SlotOf(now, timers[k].every);
            SlotsOf(FiresAfter(timers, clock), timers[k].job)
            == before + if before == [] || before[|before| - 1] < slot then [slot] else []
    ensures |clock| == 1 ==> SlotsOf(FiresAfter(timers, clock[..|clock| - 1]), timers[k].job) == []
  {
    hide SlotOf;
    var front, now := clock[..|clock| - 1], clock[|clock| - 1];
    var attempts := AttemptsAfter(timers, front);
    SlotsOfConcat(FiresAfter(timers, front), DueFires(attempts, timers, now), timers[k].job);
    DueFiresOf(attempts, timers, now, k);
    SlotsStrictlyIncrease(timers, front, k);
  }

  lemma StartOfGrid(first: int, every: int)
    ensures GridFrom(first, every, 1) == [first] && GridPoint(first, every, 0) == first
  {
    assert GridFrom(first, every, 0) == [];
  }

  lemma NextOfGrid(first: int, every: int, n: nat)
    ensures GridPoint(first, every, n + 1) == GridPoint(first, every, n) + every
    ensures GridFrom(first, every, n + 2) == GridFrom(first, every, n + 1) + [GridPoint(first, every, n + 1)]
  {
  }

  lemma LastOfGrid(first: int, every: int, n: nat)
    ensures var grid := GridFrom(first, every, n + 1); grid != [] && grid[|grid| - 1] == GridPoint(first, every, n)
  {
  }

  /** The loop gets past any instant, so no slot stays unattempted. */
  lemma {:induction false} TimeGoesOn(timers: seq<Timer>, clock: seq<int>)
    requires ValidTimers(timers) && SleepsExactly(timers, clock) && clock != []
    ensures clock[|clock| - 1] >= clock[0] + |clock| - 1
  {
    if |clock| > 1 {
      TimeGoesOn(timers, clock[..|clock| - 1]);
      var i := |clock| - 2;
      WaitIsPositive(clock[i + 1] - clock[i], timers, clock[i]);
    }
  }

  // ---------------------------------------------------------------- command identities

  /** `timer_command_id`, for a rendering of instants. */
  function CommandId(job: string, slot: int, render: int -> string): string {
    TimerRun + ":" + job + ":" + render(slot)
  }

  /** Instants are rendered injectively and in a fixed width (ISO 8601 to the second, four-digit
      years). */
  ghost predicate RendersInstants(render: int -> string, width: nat, last: int) {
    && (forall s :: 0 <= s <= last ==> |render(s)| == width)
    && (forall s, t :: 0 <= s < t <= last ==> render(s) != render(t))
  }

  lemma PartsOf(prefix: string, job: string, instant: string)
    ensures var x := prefix + job + ":" + instant;
            && |x| == |prefix| + |job| + 1 + |instant|
            && x[|prefix|..|x| - |instant| - 1] == job && x[|x| - |instant|..] == instant
  {
  }

  lemma CommandIdIsInjective(a: Fire, b: Fire, render: int -> string, width: nat, last: int)
    requires RendersInstants(render, width, last) && 0 <= a.slot <= last && 0 <= b.slot <= last
    ensures CommandId(a.job, a.slot, render) == CommandId(b.job, b.slot, render) <==> a == b
  {
    PartsOf(TimerRun + ":", a.job, render(a.slot));
    PartsOf(TimerRun + ":", b.job, render(b.slot));
  }

  /** No two fires of a run share a command identity, so the job ledger takes each as its own. */
  lemma FiresHaveTheirOwnIdentity(timers: seq<Timer>, clock: seq<int>, k: nat, i: nat, j: nat, render: int -> string,
                                  width: nat, last: int)
    requires ValidTimers(timers) && k < |timers| && (forall c :: 0 <= c < |clock| ==> clock[c] >= 0)
    requires RendersInstants(render, width, last)
    requires var slots := SlotsOf(FiresAfter(timers, clock), timers[k].job); i < j < |slots| && slots[j] <= last
    ensures var slots := SlotsOf(FiresAfter(timers, clock), timers[k].job);
            CommandId(timers[k].job, slots[i], render) != CommandId(timers[k].job, slots[j], render)
  {
    hide SlotOf, OnGrid, CommandId;
    var slots := SlotsOf(FiresAfter(timers, clock), timers[k].job);
    SlotsStrictlyIncrease(timers, clock, k);
    SlotsComeFromTheClock(timers, clock, k);
    assert slots[i] in slots;
    var c :| 0 <= c < |clock| && slots[i] == SlotOf(clock[c], timers[k].every);
    SlotContainsNow(clock[c], timers[k].every);
    CommandIdIsInjective(Fire(timers[k].job, slots[i]), Fire(timers[k].job, slots[j]), render, width, last);
  }

  // ------------------------------------------------------------------------ the loop

  /** Earlier timers of a call do not touch a later timer's slot. */
  lemma NotYetAttempted(attempts: Attempts, timers: seq<Timer>, now: int, i: nat)
    requires ValidTimers(timers) && now >= 0 && i < |timers|
    ensures var job := timers[i].job;
            var before := AfterCall(attempts, timers[..i], now);
            && (job in before <==> job in attempts)
            && (job in attempts ==> before[job] == attempts[job])
  {
    AfterCallOthers(attempts, timers[..i], now, timers[i].job);
  }

  /** One timer more: it fires when its slot lies past the last one attempted, as recorded so
      far. */
  lemma OneMoreTimer(attempts: Attempts, timers: seq<Timer>, now: int, i: nat)
    requires ValidTimers(timers) && now >= 0 && i < |timers|
    ensures var timer, slot := timers[i], SlotOf(now, timers[i].every);
            var before := AfterCall(attempts, timers[..i], now);
            var due := !(timer.job in before && slot <= before[timer.job]);
            && AfterCall(attempts, timers[..i + 1], now) == (if due then before[timer.job := slot] else before)
            && DueFires(attempts, timers[..i + 1], now)
               == DueFires(attempts, timers[..i], now) + if due then [Fire(timer.job, slot)] else []
  {
    hide SlotOf;
    assert timers[..i + 1][..i] == timers[..i] && timers[..i + 1][i] == timers[i];
    NotYetAttempted(attempts, timers, now, i);
  }

  lemma NoTimersYet(attempts: Attempts, timers: seq<Timer>, now: int)
    requires ValidTimers(timers) && now >= 0
    ensures AfterCall(attempts, timers[..0], now) == attempts && DueFires(attempts, timers[..0], now) == []
  {
  }

  lemma NoReadings(timers: seq<Timer>)
    requires ValidTimers(timers)
    ensures AttemptsAfter(timers, []) == map[] && FiresAfter(timers, []) == [] && SleepsExactly(timers, [])
  {
  }

  lemma OneMoreReading(timers: seq<Timer>, clock: seq<int>, now: int)
    requires ValidTimers(timers) && now >= 0 && forall c :: 0 <= c < |clock| ==> clock[c] >= 0
    ensures var before := AttemptsAfter(timers, clock);
            && AttemptsAfter(timers, clock + [now]) == AfterCall(before, timers, now)
            && FiresAfter(timers, clock + [now]) == FiresAfter(timers, clock) + DueFires(before, timers, now)
  {
    hide AfterCall, DueFires;
    assert (clock + [now])[..|clock|] == clock && (clock + [now])[|clock|] == now;
  }

  lemma OneMoreSleep(timers: seq<Timer>, clock: seq<int>, now: int)
    requires ValidTimers(timers) && now >= 0 && SleepsExactly(timers, clock)
    requires clock != [] ==> IsWait(now - clock[|clock| - 1], timers, clock[|clock| - 1])
    ensures SleepsExactly(timers, clock + [now])
  {
    hide IsWait;
  }

  class TimerLoop {
    const timers: seq<Timer>
    var attempted: Attempts
    var fired: seq<Fire>

    constructor (timers: seq<Timer>)
      requires ValidTimers(timers)
      ensures this.timers == timers && attempted == map[] && fired == []
    {
      this.timers, attempted, fired := timers, map[], [];
    }

    /** `fire_due`: every timer whose slot is unattempted fires once; the result is the time to
        the nearest next slot. */
    method FireDue(now: int) returns (wait: int)
      requires ValidTimers(timers) && now >= 0
      modifies this
      ensures attempted == AfterCall(old(attempted), timers, now)
      ensures fired == old(fired) + DueFires(old(attempted), timers, now)
      ensures IsWait(wait, timers, now) && wait > 0
    {
      hide SlotOf, IsDue, AfterCall, DueFires, WaitFor;
      ghost var start := attempted;
      NoTimersYet(start, timers, now);
      var nearest := WaitFor(timers[0], now);
      for i := 0 to |timers|
        invariant attempted == AfterCall(start, timers[..i], now)
        invariant fired == old(fired) + DueFires(start, timers[..i], now)
        invariant exists k :: 0 <= k < |timers| && nearest == WaitFor(timers[k], now)
        invariant forall k :: 0 <= k < i ==> nearest <= WaitFor(timers[k], now)
      {
        var timer := timers[i];
        OneMoreTimer(start, timers, now, i);
        var slot := SlotOf(now, timer.every);
        var ahead := WaitFor(timer, now);
        if ahead < nearest {
          nearest := ahead;
        }
        if !(timer.job in attempted && slot <= attempted[timer.job]) {
          attempted := attempted[timer.job := slot];
          fired := fired + [Fire(timer.job, slot)];
        }
      }
      assert timers[..|timers|] == timers;
      wait := nearest;
      WaitIsPositive(wait, timers, now);
    }

    /** `run` from the moment `start`, with exact sleeps, for `rounds` rounds: the clock readings. */
    method Run(start: int, rounds: nat) returns (clock: seq<int>)
      requires ValidTimers(timers) && start >= 0 && attempted == map[] && fired == []
      modifies this
      ensures |clock| == rounds && (rounds > 0 ==> clock[0] == start)
      ensures SleepsExactly(timers, clock)
      ensures attempted == AttemptsAfter(timers, clock) && fired == FiresAfter(timers, clock)
    {
      hide SlotOf, IsWait, AfterCall, DueFires, AttemptsAfter, FiresAfter, SleepsExactly;
      clock := [];
      NoReadings(timers);
      var now := start;
      for round := 0 to rounds
        invariant |clock| == round && now >= 0
        invariant forall c :: 0 <= c < round ==> clock[c] >= 0
        invariant round == 0 ==> now == start
        invariant round > 0 ==> clock[0] == start && IsWait(now - clock[round - 1], timers, clock[round - 1])
        invariant SleepsExactly(timers, clock)
        invariant attempted == AttemptsAfter(timers, clock) && fired == FiresAfter(timers, clock)
      {
        var wait := FireDue(now);
        OneMoreReading(timers, clock, now);
        OneMoreSleep(timers, clock, now);
        clock := clock + [now];
        now := now + wait;
      }
    }
  }
}
