/** Reminder times resolved against a clock and a zone (`codegen_kit_textparse/__init__.py`).
    Instants and local wall times are microseconds, counted from the epoch in UTC and on the
    local clock. */
module WallTime {
  import opened Options

  const Minute: int := 60_000_000
  const Hour: int := 3_600_000_000
  const Day: int := 86_400_000_000

  /** A zone: the offset at an instant, and the offset its local-time lookup takes for a wall
      time and a fold. */
  datatype Zone = Zone(offset: int -> int, localOffset: (int, bool) -> int)

  /** One change of offset, from `before` to `after`. */
  datatype Change = Change(at: int, before: int, after: int)

  function OffsetUnder(c: Change, instant: int): int {
    if instant < c.at then c.before else c.after
  }

  function Larger(a: int, b: int): int {
    if a < b then b else a
  }

  function Smaller(a: int, b: int): int {
    if a < b then a else b
  }

  /** Fold 0 takes the later reading of the change on the local clock, fold 1 the earlier one. */
  function LocalOffsetUnder(c: Change, wall: int, fold: bool): int {
    var changes := c.at + if fold then Smaller(c.before, c.after) else Larger(c.before, c.after);
    if wall < changes then c.before else c.after
  }

  /** Within a day of a wall time the zone behaves as if it had this one change. */
  ghost predicate OneChangeNear(zone: Zone, wall: int, c: Change) {
    && (forall u :: wall - Day < u < wall + Day ==> zone.offset(u) == OffsetUnder(c, u))
    && (forall fold :: zone.localOffset(wall, fold) == LocalOffsetUnder(c, wall, fold))
    && -Day < c.before < Day && -Day < c.after < Day
  }

  ghost predicate SettledNear(zone: Zone, wall: int) {
    exists c :: OneChangeNear(zone, wall, c)
  }

  /** Offsets under a day, and around every wall time at most one change within a day. */
  ghost predicate Regular(zone: Zone) {
    && (forall u :: -Day < zone.offset(u) < Day)
    && forall wall :: SettledNear(zone, wall)
  }

  function LocalOf(zone: Zone, instant: int): int {
    instant + zone.offset(instant)
  }

  /** The instant is the only one whose local time is `wall`. */
  ghost predicate OnlyInstant(zone: Zone, wall: int, instant: int) {
    forall u :: LocalOf(zone, u) == wall <==> u == instant
  }

  /** The instants of a wall time are those the two folds propose and that convert back. */
  lemma InstantsComeFromFolds(zone: Zone, wall: int, instant: int)
    requires Regular(zone)
    ensures LocalOf(zone, instant) == wall <==>
              exists fold :: instant == wall - zone.localOffset(wall, fold) && LocalOf(zone, instant) == wall
  {
    assert SettledNear(zone, wall);
    var c :| OneChangeNear(zone, wall, c);
    if LocalOf(zone, instant) == wall {
      assert zone.offset(instant) == OffsetUnder(c, instant);
      var fold := instant >= c.at;
      assert zone.localOffset(wall, fold) == LocalOffsetUnder(c, wall, fold);
      assert instant == wall - zone.localOffset(wall, fold);
    }
  }

  /** `_wall_time`: a wall time is admitted exactly when it identifies one instant; a skipped
      or repeated one is refused. */
  method ResolveWall(zone: Zone, wall: int) returns (r: Option<int>)
    requires Regular(zone)
    ensures r.Some? <==> exists u :: OnlyInstant(zone, wall, u)
    ensures r.Some? ==> OnlyInstant(zone, wall, r.value)
  {
    var instants: set<int> := {};
    var folds := [false, true];
    for i := 0 to |folds|
      invariant forall u :: u in instants <==>
                  exists k :: 0 <= k < i && u == wall - zone.localOffset(wall, folds[k]) && LocalOf(zone, u) == wall
    {
      var candidate := wall - zone.localOffset(wall, folds[i]);
      if LocalOf(zone, candidate) == wall {
        instants := instants + {candidate};
      }
    }
    forall u ensures u in instants <==> LocalOf(zone, u) == wall {
      InstantsComeFromFolds(zone, wall, u);
      if fold :| u == wall - zone.localOffset(wall, fold) && LocalOf(zone, u) == wall {
        assert folds[if fold then 1 else 0] == fold;
      }
    }
    forall u | OnlyInstant(zone, wall, u) ensures instants == {u} {
      assert LocalOf(zone, u) == wall;
      forall x ensures x in instants <==> x == u {
        assert LocalOf(zone, x) == wall <==> x == u;
      }
    }
    if |instants| != 1 {
      return None;
    }
    ghost var member := OneMember(instants);
    assert member in instants;
    var u :| u in instants;
    assert OnlyInstant(zone, wall, u);
    return Some(u);
  }

  lemma OneMember<T>(s: set<T>) returns (x: T)
    requires |s| == 1
    ensures s == {x}
  {
    assert s != {};
    x :| x in s;
    var rest := s - {x};
    assert s == rest + {x} && |rest| == 0;
  }

  // --------------------------------------------------------------------- the forms

  datatype Meridiem = AM | PM

  /** What the time expression of a text was matched as. */
  datatype Form =
    | Relative(count: nat, hours: bool)
    | Absolute(tomorrow: bool, hour: nat, minute: nat, meridiem: Option<Meridiem>)

  function LocalDay(zone: Zone, now: int): int {
    LocalOf(zone, now) / Day
  }

  /** The hour of the day, or none for one that does not exist. */
  function HourOfDay(hour: nat, meridiem: Option<Meridiem>): Option<nat> {
    if meridiem.None? then if hour <= 23 then Some(hour) else None
    else if !(1 <= hour <= 12) then None
    else Some(hour % 12 + if meridiem.value.PM? then 12 else 0)
  }

  /** The twelve-hour clock: of the two hours of the day it may mean, the one before noon with AM
      and the one after it with PM; without either, the hour is read as it is. */
  lemma HourOfDayExactly(hour: nat, meridiem: Option<Meridiem>, h: nat)
    ensures HourOfDay(hour, meridiem) == Some(h) <==>
              && h < 24
              && match meridiem
                 case None => h == hour
                 case Some(half) => 1 <= hour <= 12 && (h - hour) % 12 == 0 && (h < 12 <==> half == AM)
  {
  }

  function WallOf(day: int, hour: nat, minute: nat): int {
    day * Day + hour * Hour + minute * Minute
  }

  lemma Divides(a: int, b: int, q: int, r: int)
    requires b > 0 && a == b * q + r && 0 <= r < b
    ensures a / b == q && a % b == r
  {
    var d := a / b - q;
    assert a == b * (a / b) + a % b;
    assert b * d == r - a % b;
    MultipleIsFar(b, d);
  }

  lemma MultipleIsFar(b: int, d: int)
    requires b > 0
    ensures d >= 1 ==> b * d >= b
    ensures d <= -1 ==> b * d <= -b
  {
  }

  /** A wall time has the day, the hour and the minute it was made from, and nothing behind them. */
  lemma WallTimeShows(day: int, hour: nat, minute: nat)
    requires hour < 24 && minute < 60
    ensures var wall := WallOf(day, hour, minute);
            var inDay := wall % 86_400_000_000;
            && wall / 86_400_000_000 == day && inDay / 3_600_000_000 == hour
            && inDay % 3_600_000_000 == minute * 60_000_000
  {
    var wall, inDay := WallOf(day, hour, minute), hour * 3_600_000_000 + minute * 60_000_000;
    Divides(wall, 86_400_000_000, day, inDay);
    Divides(inDay, 3_600_000_000, hour, minute * 60_000_000);
  }

  /** Whatever local day comes after the current one, an instant that is the only one with its
      local time lies in the future. */
  lemma LaterDayIsLater(zone: Zone, now: int, wall: int, instant: int)
    requires Regular(zone) && OnlyInstant(zone, wall, instant)
    requires LocalOf(zone, now) < wall
    ensures now < instant
  {
    assert SettledNear(zone, wall);
    var c :| OneChangeNear(zone, wall, c);
    assert LocalOf(zone, instant) == wall;
    if wall - Day < now < wall + Day {
      // Had the clock gone back past the wall time since, the wall time would come twice.
      var again := wall - c.after;
      assert zone.offset(now) == OffsetUnder(c, now) && zone.offset(instant) == OffsetUnder(c, instant);
      assert zone.offset(again) == OffsetUnder(c, again);
      assert LocalOf(zone, again) == wall <==> again == instant;
    }
  }

  lemma NextDayIsAhead(zone: Zone, now: int, day: int, hour: nat, minute: nat)
    requires day > LocalDay(zone, now)
    ensures LocalOf(zone, now) < WallOf(day, hour, minute)
  {
    var local := LocalOf(zone, now);
    assert local < (local / Day + 1) * Day;
    assert (local / Day + 1) * Day <= day * Day;
  }

  /** `_absolute`: today's instant when it is still ahead, else tomorrow's; refused when the
      time of day does not exist, or when the wall time in question is skipped or repeated.
      An answer always lies ahead and is the only instant with the local time asked for. */
  method ResolveAbsolute(zone: Zone, now: int, tomorrow: bool, hour: nat, minute: nat, meridiem: Option<Meridiem>)
    returns (r: Option<int>)
    requires Regular(zone)
    ensures r.Some? ==> now < r.value
    ensures var h := HourOfDay(hour, meridiem);
            var today, next := LocalDay(zone, now), LocalDay(zone, now) + 1;
            if h.None? || minute > 59 then r.None?
            else if tomorrow then
              (forall u :: OnlyInstant(zone, WallOf(next, h.value, minute), u) <==> r == Some(u))
            else
              (forall u :: (OnlyInstant(zone, WallOf(today, h.value, minute), u) && now < u)
                           || (OnlyInstant(zone, WallOf(next, h.value, minute), u)
                               && exists past :: OnlyInstant(zone, WallOf(today, h.value, minute), past) && past <= now)
                           <==> r == Some(u))
  {
    var hourOfDay := hour;
    if meridiem.Some? {
      if !(1 <= hour <= 12) {
        return None;
      }
      hourOfDay := hour % 12 + if meridiem.value.PM? then 12 else 0;
    }
    if hourOfDay > 23 || minute > 59 {
      return None;
    }
    var today := LocalDay(zone, now);
    var day := today;
    if tomorrow {
      day := day + 1;
      NextDayIsAhead(zone, now, day, hourOfDay, minute);
    }
    ghost var asked := WallOf(day, hourOfDay, minute);
    r := ResolveWall(zone, WallOf(day, hourOfDay, minute));
    if r.None? {
      return;
    }
    OnlyOnce(zone, asked, r.value);
    if tomorrow {
      LaterDayIsLater(zone, now, asked, r.value);
    } else if r.value <= now {
      ghost var past := r.value;
      NextDayIsAhead(zone, now, day + 1, hourOfDay, minute);
      r := ResolveWall(zone, WallOf(day + 1, hourOfDay, minute));
      if r.Some? {
        LaterDayIsLater(zone, now, WallOf(day + 1, hourOfDay, minute), r.value);
        OnlyOnce(zone, WallOf(day + 1, hourOfDay, minute), r.value);
      }
    }
  }

  lemma OnlyOnce(zone: Zone, wall: int, instant: int)
    requires OnlyInstant(zone, wall, instant)
    ensures forall u :: OnlyInstant(zone, wall, u) ==> u == instant
  {
    assert LocalOf(zone, instant) == wall;
  }

  /** `_resolve`: a relative form counts from now, and only forward. */
  method Resolve(zone: Zone, now: int, form: Form) returns (r: Option<int>)
    requires Regular(zone)
    ensures r.Some? ==> now < r.value
    ensures form.Relative? ==>
              r == if form.count == 0 then None
                   else Some(now + form.count * if form.hours then 3_600_000_000 else 60_000_000)
    ensures form.Absolute? && r.Some? ==>
              && HourOfDay(form.hour, form.meridiem).Some?
              && var h := HourOfDay(form.hour, form.meridiem).value;
                 (exists day :: LocalDay(zone, now) <= day <= LocalDay(zone, now) + 1
                                && OnlyInstant(zone, WallOf(day, h, form.minute), r.value))
  {
    match form
    case Relative(count, hours) =>
      if count == 0 {
        return None;
      }
      r := Some(now + count * if hours then Hour else Minute);
    case Absolute(tomorrow, hour, minute, meridiem) =>
      r := ResolveAbsolute(zone, now, tomorrow, hour, minute, meridiem);
      if r.Some? {
        var h := HourOfDay(hour, meridiem).value;
        assert OnlyInstant(zone, WallOf(LocalDay(zone, now), h, minute), r.value)
               || OnlyInstant(zone, WallOf(LocalDay(zone, now) + 1, h, minute), r.value);
      }
  }

  // ------------------------------------------------------------------ gaps and folds

  /** Around a change, the wall times refused are exactly those the change skips or repeats. */
  lemma RefusedAroundAChange(zone: Zone, wall: int, c: Change)
    requires Regular(zone) && OneChangeNear(zone, wall, c)
    ensures (exists u :: OnlyInstant(zone, wall, u)) <==>
              !(c.at + Smaller(c.before, c.after) <= wall < c.at + Larger(c.before, c.after))
  {
    var early, late := wall - c.before, wall - c.after;
    assert zone.offset(early) == OffsetUnder(c, early) && zone.offset(late) == OffsetUnder(c, late);
    forall u | LocalOf(zone, u) == wall ensures u == early || u == late {
      assert zone.offset(u) == OffsetUnder(c, u);
    }
    if c.at + Smaller(c.before, c.after) <= wall < c.at + Larger(c.before, c.after) {
      forall u ensures !OnlyInstant(zone, wall, u) {
        assert OnlyInstant(zone, wall, u) ==> (LocalOf(zone, early) == wall <==> early == u);
        assert OnlyInstant(zone, wall, u) ==> (LocalOf(zone, late) == wall <==> late == u);
        assert OnlyInstant(zone, wall, u) ==> LocalOf(zone, u) == wall;
      }
    } else {
      var u := if early < c.at then early else late;
      assert LocalOf(zone, u) == wall;
      assert OnlyInstant(zone, wall, u);
    }
  }

  /** A zone with one change of offset. */
  function ZoneOf(c: Change): Zone {
    Zone(u => OffsetUnder(c, u), (wall, fold) => LocalOffsetUnder(c, wall, fold))
  }

  /** Such a zone is regular whatever its change is, so the results above hold of it. */
  lemma OneChangeIsRegular(c: Change)
    requires -Day < c.before < Day && -Day < c.after < Day
    ensures Regular(ZoneOf(c))
  {
    forall wall ensures SettledNear(ZoneOf(c), wall) {
      assert OneChangeNear(ZoneOf(c), wall, c);
    }
  }
}
