/** The automation scheduler: when a schedule runs next, what a tick does to the stored
    schedules, and what holds over every run of ticks and saves. */
module Scheduler {
  import opened Base
  import opened Calendar

  /** `padded`: the stored interval expression carries surrounding blanks, which the misfire
      grace does not trim. */
  datatype Kind =
    | Once(at: Instant)
    | Interval(seconds: nat, padded: bool)
    | OnCalendar(pattern: Pattern)

  datatype Schedule = Schedule(
    id: string, kind: Kind, zone: Zone, enabled: bool, skipMisfires: bool,
    nextRun: Option<Instant>, lastRun: Option<Instant>, lastKey: Option<Key>)

  predicate ValidKind(k: Kind) {
    match k
    case Once(_) => true
    case Interval(seconds, _) => 10 <= seconds <= 2_592_000
    case OnCalendar(pattern) => ValidPattern(pattern)
  }

  function NextRunAt(s: Schedule, after: Instant): Result<Option<Instant>> {
    if !s.enabled then Ok(None)
    else
      match s.kind
      case Once(at) => Ok(if at > after then Some(at) else None)
      case Interval(seconds, _) =>
        var base := if s.lastRun.Some? && s.lastRun.value > after then s.lastRun.value else after;
        Ok(Some(base + seconds * SECOND))
      case OnCalendar(pattern) =>
        var found := NextCalendar(pattern, s.zone, s.lastKey, after);
        if found.Ok? then Ok(Some(found.value)) else Err(found.error)
  }

  /** `next_run_at(..).ok().flatten()`. */
  function NextOrNone(s: Schedule, after: Instant): Option<Instant> {
    var next := NextRunAt(s, after);
    if next.Ok? then next.value else None
  }

  function OccurrenceKey(s: Schedule, scheduled: Instant): Key {
    if s.kind.OnCalendar? then WallKeyOf(s.zone, scheduled) else InstantKey(scheduled)
  }

  function Advance(s: Schedule, now: Instant, scheduled: Instant): Schedule {
    var ran := s.(lastRun := Some(now), lastKey := Some(OccurrenceKey(s, scheduled)));
    if s.kind.Once? then ran.(enabled := false, nextRun := None)
    else ran.(nextRun := NextOrNone(ran, now))
  }

  function Grace(s: Schedule): nat {
    match s.kind
    case Interval(seconds, padded) => (if padded then 15 else seconds) * SECOND
    case OnCalendar(_) => 120 * SECOND
    case Once(_) => 30 * SECOND
  }

  /** What one tick does to one schedule: its new value, and the occurrence it ran, if any. */
  function Tick(s: Schedule, now: Instant): (Schedule, Option<Instant>) {
    if !s.enabled then (s, None)
    else if s.nextRun.None? then
      var planned := s.(nextRun := NextOrNone(s, now));
      (if s.kind.Once? && planned.nextRun.None? then planned.(enabled := false) else planned, None)
    else if s.nextRun.value > now then (s, None)
    else
      var due := !s.skipMisfires || now - s.nextRun.value <= Grace(s);
      (Advance(s, now, s.nextRun.value), if due then s.nextRun else None)
  }

  /** `incoming` keeps the server's own cursors; a new schedule starts without any. */
  function PrepareForSave(incoming: Schedule, existing: Option<Schedule>, now: Instant): Result<Schedule> {
    if !ValidKind(incoming.kind) then Err(Validation)
    else if existing.Some? && existing.value.id != incoming.id then Err(Validation)
    else
      var kept := if existing.Some?
                  then incoming.(lastRun := existing.value.lastRun, lastKey := existing.value.lastKey)
                  else incoming.(lastRun := None, lastKey := None);
      var next := NextRunAt(kept, now);
      if next.Err? then Err(next.error)
      else
        var saved := kept.(nextRun := next.value);
        if saved.enabled && saved.nextRun.None? then Err(Validation) else Ok(saved)
  }

  // ---- the tick over all stored schedules -------------------------------------

  function Due(list: seq<Schedule>, now: Instant): seq<string> {
    if list == [] then []
    else
      var rest := list[..|list| - 1];
      var last := list[|list| - 1];
      Due(rest, now) + (if Tick(last, now).1.Some? then [last.id] else [])
  }

  lemma DueGrows(list: seq<Schedule>, i: nat, now: Instant)
    requires i < |list|
    ensures Due(list[..i + 1], now) == Due(list[..i], now) + (if Tick(list[i], now).1.Some? then [list[i].id] else [])
  {
    assert list[..i + 1][..i] == list[..i];
  }

  method CollectDuePlans(schedules: array<Schedule>, now: Instant) returns (changed: bool, due: seq<string>)
    modifies schedules
    ensures forall k :: 0 <= k < schedules.Length ==> schedules[k] == Tick(old(schedules[k]), now).0
    ensures due == Due(old(schedules[..]), now)
    ensures !changed ==> forall k :: 0 <= k < schedules.Length ==> schedules[k] == old(schedules[k])
  {
    changed, due := false, [];
    ghost var before := schedules[..];
    for i := 0 to schedules.Length
      invariant forall k :: 0 <= k < i ==> schedules[k] == Tick(before[k], now).0
      invariant forall k :: i <= k < schedules.Length ==> schedules[k] == before[k]
      invariant due == Due(before[..i], now)
      invariant !changed ==> forall k :: 0 <= k < schedules.Length ==> schedules[k] == before[k]
    {
      DueGrows(before, i, now);
      var s := schedules[i];
      if !s.enabled {
        continue;
      }
      if s.nextRun.None? {
        var planned := s.(nextRun := NextOrNone(s, now));
        schedules[i] := if s.kind.Once? && planned.nextRun.None? then planned.(enabled := false) else planned;
        changed := true;
        continue;
      }
      var scheduled := s.nextRun.value;
      if scheduled > now {
        continue;
      }
      if !s.skipMisfires || now - scheduled <= Grace(s) {
        due := due + [s.id];
      }
      schedules[i] := Advance(s, now, scheduled);
      changed := true;
    }
    assert before[..schedules.Length] == before;
  }

  /** The list of due plans is that of its parts, and a schedule is on it when its tick runs it. */
  lemma {:induction false} DueOfParts(a: seq<Schedule>, b: seq<Schedule>, now: Instant)
    ensures Due(a + b, now) == Due(a, now) + Due(b, now)
  {
    if b == [] {
      assert a + b == a;
    } else {
      var n := |b| - 1;
      assert (a + b)[..|a| + n] == a + b[..n];
      DueOfParts(a, b[..n], now);
    }
  }

  lemma DueOfOne(s: Schedule, now: Instant)
    ensures Due([s], now) == if Tick(s, now).1.Some? then [s.id] else []
  {
    assert [s][..0] == [];
  }

  // ---- what one tick does, exactly --------------------------------------------

  /** The next run has come. */
  predicate HasCome(s: Schedule, now: Instant) {
    s.enabled && s.nextRun.Some? && s.nextRun.value <= now
  }

  /** A tick runs a schedule if and only if its next run has come and it either does not skip misfires
      or is late by no more than two minutes (by the calendar), half a minute (once), or its own
      interval (15 seconds when the interval is stored with blanks); and then for that very run. */
  lemma TickRunsExactly(s: Schedule, now: Instant)
    ensures Tick(s, now).1.Some? <==>
              && HasCome(s, now)
              && (s.skipMisfires ==>
                    var late := now - s.nextRun.value;
                    match s.kind
                    case OnCalendar(_) => late <= 120 * SECOND
                    case Once(_) => late <= 30 * SECOND
                    case Interval(seconds, padded) => late <= (if padded then 15 else seconds) * SECOND)
    ensures Tick(s, now).1.Some? ==> Tick(s, now).1 == s.nextRun
  {
  }

  /** What a tick leaves when the next run has come, whether it was run or skipped: a one-off is over, an
      interval starts anew at the tick, and the calendar goes on with the earliest later occurrence. */
  lemma TickMovesOn(s: Schedule, now: Instant)
    requires HasCome(s, now)
    ensures var t := Tick(s, now).0;
            && t == s.(enabled := t.enabled, nextRun := t.nextRun, lastRun := Some(now), lastKey := t.lastKey)
            && t.lastKey == Some(if s.kind.OnCalendar? then WallKeyOf(s.zone, s.nextRun.value)
                                 else InstantKey(s.nextRun.value))
            && (t.enabled <==> !s.kind.Once?)
            && match s.kind
               case Once(_) => t.nextRun == None
               case Interval(seconds, _) => t.nextRun == Some(now + seconds * SECOND)
               case OnCalendar(pattern) =>
                 t.nextRun == (var found := NextCalendar(pattern, s.zone, t.lastKey, now);
                               if found.Ok? then Some(found.value) else None)
  {
  }

  /** And when it has not: nothing changes but that a missing next run is planned, and that a one-off
      whose time is over is switched off. */
  lemma TickWaits(s: Schedule, now: Instant)
    requires !HasCome(s, now)
    ensures var t := Tick(s, now).0;
            && Tick(s, now).1 == None
            && t == s.(enabled := t.enabled, nextRun := t.nextRun)
            && (!s.enabled || s.nextRun.Some? ==> t == s)
            && (s.enabled && s.nextRun.None? ==> t.nextRun == NextOrNone(s, now))
            && (t.enabled <==> s.enabled && !(s.nextRun.None? && s.kind.Once? && s.kind.at <= now))
  {
  }

  /** When a schedule runs next: a one-off at its time if that is to come, an interval after the later of
      the given instant and its last run, the calendar at its earliest occurrence. */
  lemma NextRunExactly(s: Schedule, after: Instant)
    ensures !s.enabled ==> NextRunAt(s, after) == Ok(None)
    ensures s.enabled && s.kind.Once? ==>
              NextRunAt(s, after) == Ok(if s.kind.at > after then Some(s.kind.at) else None)
    ensures s.enabled && s.kind.Interval? && (s.lastRun.None? || s.lastRun.value <= after) ==>
              NextRunAt(s, after) == Ok(Some(after + s.kind.seconds * SECOND))
    ensures s.enabled && s.kind.Interval? && s.lastRun.Some? && s.lastRun.value >= after ==>
              NextRunAt(s, after) == Ok(Some(s.lastRun.value + s.kind.seconds * SECOND))
    ensures s.enabled && s.kind.OnCalendar? ==>
              var found := NextCalendar(s.kind.pattern, s.zone, s.lastKey, after);
              NextRunAt(s, after) == if found.Ok? then Ok(Some(found.value)) else Err(found.error)
  {
  }

  /** A save takes over what was edited and keeps what has run: the cursors are those of the stored
      schedule, and none for a new one.  It is refused exactly for an invalid schedule, under another
      identifier, or when an enabled schedule would never run. */
  lemma SaveKeepsTheCursors(incoming: Schedule, existing: Option<Schedule>, now: Instant)
    ensures var kept := incoming.(lastRun := if existing.Some? then existing.value.lastRun else None,
                                  lastKey := if existing.Some? then existing.value.lastKey else None);
            var saved := PrepareForSave(incoming, existing, now);
            && (saved.Ok? <==>
                  && ValidKind(incoming.kind) && (existing.Some? ==> existing.value.id == incoming.id)
                  && (incoming.enabled ==> NextOrNone(kept, now).Some?))
            && (saved.Ok? ==> saved.value == kept.(nextRun := NextOrNone(kept, now)))
  {
  }

  // ---- one schedule over a run ------------------------------------------------

  /** A tick, or a save that changes nothing but perhaps the on/off switch. */
  datatype Op = TickAt(now: Instant) | SaveAt(now: Instant, enabled: bool)

  /** A run of the plan: for which occurrence, and when. */
  datatype Fire = Fire(scheduled: Instant, now: Instant)

  datatype Life = Life(schedule: Schedule, fires: seq<Fire>)

  function Apply(life: Life, op: Op): Life {
    match op
    case TickAt(now) =>
      var (s, fired) := Tick(life.schedule, now);
      Life(s, life.fires + (if fired.Some? then [Fire(fired.value, now)] else []))
    case SaveAt(now, enabled) =>
      var saved := PrepareForSave(life.schedule.(enabled := enabled), Some(life.schedule), now);
      if saved.Ok? then life.(schedule := saved.value) else life
  }

  function Run(life: Life, ops: seq<Op>): Life {
    if ops == [] then life else Apply(Run(life, ops[..|ops| - 1]), ops[|ops| - 1])
  }

  predicate Ordered(ops: seq<Op>, start: Instant) {
    && (forall i :: 0 <= i < |ops| ==> start <= ops[i].now)
    && (forall i, j :: 0 <= i <= j < |ops| ==> ops[i].now <= ops[j].now)
  }

  function Clock(ops: seq<Op>, start: Instant): Instant {
    if ops == [] then start else ops[|ops| - 1].now
  }

  /** `n` is a time such a schedule may run at, planned at `since`. */
  predicate Planned(kind: Kind, zone: Zone, n: Instant, since: Instant) {
    && n > since
    && match kind
       case Once(at) => n == at
       case Interval(seconds, _) => n >= since + seconds * SECOND
       case OnCalendar(pattern) => IsOccurrence(pattern, zone, n)
  }

  predicate Fired(kind: Kind, zone: Zone, f: Fire) {
    && f.scheduled <= f.now
    && (kind.OnCalendar? ==> IsOccurrence(kind.pattern, zone, f.scheduled))
  }

  /** How two runs of one schedule follow each other: the later occurrence comes after the earlier
      run, a full interval after it for an interval schedule, and never for a one-off. */
  predicate Follows(kind: Kind, f: Fire, g: Fire) {
    && f.now < g.scheduled
    && (kind.Interval? ==> g.scheduled >= f.now + kind.seconds * SECOND)
    && !kind.Once?
  }

  predicate AllBefore(fires: seq<Fire>, t: Instant) {
    forall i :: 0 <= i < |fires| ==> fires[i].now <= t
  }

  predicate FiresInv(kind: Kind, zone: Zone, fires: seq<Fire>) {
    && (forall i :: 0 <= i < |fires| ==> Fired(kind, zone, fires[i]))
    && (forall i, j :: 0 <= i < j < |fires| ==> Follows(kind, fires[i], fires[j]))
    && (kind.Once? ==> forall i :: 0 <= i < |fires| ==> fires[i].scheduled == kind.at)
  }

  /** The next run was planned at or after every run so far. */
  ghost predicate PlannedAfter(kind: Kind, zone: Zone, n: Instant, fires: seq<Fire>) {
    exists since :: Planned(kind, zone, n, since) && AllBefore(fires, since)
  }

  ghost predicate LifeInv(life: Life, now: Instant) {
    var s := life.schedule;
    && ValidKind(s.kind) && (s.kind.OnCalendar? ==> Coherent(s.zone))
    && AllBefore(life.fires, now)
    && FiresInv(s.kind, s.zone, life.fires)
    && (s.nextRun.Some? ==> PlannedAfter(s.kind, s.zone, s.nextRun.value, life.fires))
  }

  lemma NextIsPlanned(s: Schedule, after: Instant, fires: seq<Fire>)
    requires ValidKind(s.kind) && (s.kind.OnCalendar? ==> Coherent(s.zone))
    requires NextOrNone(s, after).Some? && AllBefore(fires, after)
    ensures PlannedAfter(s.kind, s.zone, NextOrNone(s, after).value, fires)
    ensures NextOrNone(s, after).value > after
  {
    if s.kind.OnCalendar? {
      NextCalendarIsTheEarliest(s.kind.pattern, s.zone, s.lastKey, after);
    }
    assert Planned(s.kind, s.zone, NextOrNone(s, after).value, after);
  }

  /** A planned run that comes due follows everything that ran before. */
  lemma RunsWhenDue(life: Life, now: Instant)
    requires LifeInv(life, now) && life.schedule.nextRun.Some? && life.schedule.nextRun.value <= now
    ensures var s := life.schedule;
            FiresInv(s.kind, s.zone, life.fires + [Fire(s.nextRun.value, now)])
  {
    var s := life.schedule;
    var n := s.nextRun.value;
    var since :| Planned(s.kind, s.zone, n, since) && AllBefore(life.fires, since);
    forall i | 0 <= i < |life.fires| ensures Follows(s.kind, life.fires[i], Fire(n, now)) {
      assert life.fires[i].now <= since;
      assert Fired(s.kind, s.zone, life.fires[i]);
    }
  }

  lemma TickKeepsLife(life: Life, now: Instant)
    requires LifeInv(life, now)
    ensures LifeInv(Apply(life, TickAt(now)), now)
  {
    var s := life.schedule;
    assert life.fires + [] == life.fires;
    if s.enabled && s.nextRun.None? && NextOrNone(s, now).Some? {
      NextIsPlanned(s, now, life.fires);
    }
    if s.enabled && s.nextRun.Some? && s.nextRun.value <= now {
      RunsWhenDue(life, now);
      var ran := s.(lastRun := Some(now), lastKey := Some(OccurrenceKey(s, s.nextRun.value)));
      if NextOrNone(ran, now).Some? {
        NextIsPlanned(ran, now, Apply(life, TickAt(now)).fires);
      }
    }
  }

  lemma SaveKeepsLife(life: Life, now: Instant, enabled: bool)
    requires LifeInv(life, now)
    ensures LifeInv(Apply(life, SaveAt(now, enabled)), now)
  {
    if NextOrNone(life.schedule.(enabled := enabled), now).Some? {
      NextIsPlanned(life.schedule.(enabled := enabled), now, life.fires);
    }
  }

  lemma {:induction false} LivesKeepTheirInvariant(life: Life, ops: seq<Op>, start: Instant)
    requires LifeInv(life, start) && Ordered(ops, start)
    ensures LifeInv(Run(life, ops), Clock(ops, start))
    ensures Run(life, ops).schedule.kind == life.schedule.kind && Run(life, ops).schedule.zone == life.schedule.zone
  {
    if ops != [] {
      var before := ops[..|ops| - 1];
      LivesKeepTheirInvariant(life, before, start);
      match ops[|ops| - 1]
      case TickAt(now) => TickKeepsLife(Run(life, before), now);
      case SaveAt(now, enabled) => SaveKeepsLife(Run(life, before), now, enabled);
    }
  }

  /** A newly saved schedule, on a run of ticks and re-saves: what ran, ran strictly after
      everything before it, and for an occurrence that came after the run before. */
  lemma RunsStrictlyIncrease(incoming: Schedule, start: Instant, ops: seq<Op>, i: nat, j: nat)
    requires PrepareForSave(incoming, None, start).Ok? && Ordered(ops, start)
    requires incoming.kind.OnCalendar? ==> Coherent(incoming.zone)
    requires i < j < |Run(Life(PrepareForSave(incoming, None, start).value, []), ops).fires|
    ensures var fires := Run(Life(PrepareForSave(incoming, None, start).value, []), ops).fires;
            && fires[i].scheduled <= fires[i].now < fires[j].scheduled <= fires[j].now
            && (incoming.kind.Interval? ==> fires[j].now - fires[i].now >= incoming.kind.seconds * SECOND)
            && (incoming.kind.OnCalendar? ==>
                  LocalDate(incoming.zone, fires[i].scheduled) < LocalDate(incoming.zone, fires[j].scheduled))
            && !incoming.kind.Once?
  {
    var life := Life(PrepareForSave(incoming, None, start).value, []);
    if NextOrNone(incoming.(lastRun := None, lastKey := None), start).Some? {
      NextIsPlanned(incoming.(lastRun := None, lastKey := None), start, []);
    }
    LivesKeepTheirInvariant(life, ops, start);
    var fires := Run(life, ops).fires;
    assert Follows(incoming.kind, fires[i], fires[j]);
    assert Fired(incoming.kind, incoming.zone, fires[i]) && Fired(incoming.kind, incoming.zone, fires[j]);
    if incoming.kind.OnCalendar? {
      LaterOccurrencesFallOnLaterDates(incoming.kind.pattern, incoming.zone, fires[i].scheduled, fires[j].scheduled);
    }
  }

  /** A schedule that skips misfires never runs later than its grace allows. */
  lemma {:induction false} SkippedMisfiresNeverRunLate(life: Life, ops: seq<Op>, i: nat)
    requires life.fires == [] && life.schedule.skipMisfires && i < |Run(life, ops).fires|
    ensures Run(life, ops).fires[i].now - Run(life, ops).fires[i].scheduled <= Grace(life.schedule)
  {
    PolicyStays(life, ops);
    var before := ops[..|ops| - 1];
    PolicyStays(life, before);
    if i < |Run(life, before).fires| {
      SkippedMisfiresNeverRunLate(life, before, i);
    }
  }

  lemma {:induction false} PolicyStays(life: Life, ops: seq<Op>)
    ensures Run(life, ops).schedule.kind == life.schedule.kind
    ensures Run(life, ops).schedule.skipMisfires == life.schedule.skipMisfires
    ensures |Run(life, ops).fires| >= |life.fires|
  {
    if ops != [] {
      PolicyStays(life, ops[..|ops| - 1]);
    }
  }

  /** A second pass at the same instant runs nothing, whatever the schedule was before. */
  lemma ASecondPassRunsNothing(s: Schedule, now: Instant)
    requires ValidKind(s.kind) && (s.kind.OnCalendar? ==> Coherent(s.zone))
    ensures Tick(Tick(s, now).0, now).1 == None
  {
    if s.enabled {
      var ran := if s.nextRun.None? then s
                 else s.(lastRun := Some(now), lastKey := Some(OccurrenceKey(s, s.nextRun.value)));
      if NextOrNone(ran, now).Some? { NextIsPlanned(ran, now, []); }
    }
  }

  // ---- running twice on one date of the clock ---------------------------------

  ghost predicate DatesNeverGoBack(z: Zone) {
    forall s, t :: s <= t ==> LocalDate(z, s) <= LocalDate(z, t)
  }

  /** Today is a day of the pattern and its wall time has not come yet. */
  predicate StillToCome(p: Pattern, z: Zone, now: Instant) {
    var today := LocalDate(z, now);
    var found := z.fromLocal(today * DAY + p.time);
    && (p.weekday.Some? ==> WeekdayOf(today) == p.weekday.value)
    && !found.Gap? && now < Earliest(found)
  }

  /** Occurrence dates never repeat, but the dates on which the plan actually runs can.  Then the
      earlier of the two runs was late, on a later date than its own, or the clock of the later one
      had been put back to before its own date.  Where dates never go back it was late, and today's
      wall time was still to come: the very condition under which the next run is planned for today. */
  lemma OnlyALateRunSharesItsDate(incoming: Schedule, start: Instant, ops: seq<Op>, i: nat, j: nat)
    requires PrepareForSave(incoming, None, start).Ok? && Ordered(ops, start)
    requires incoming.kind.OnCalendar? && Coherent(incoming.zone)
    requires i < j < |Run(Life(PrepareForSave(incoming, None, start).value, []), ops).fires|
    ensures var fires := Run(Life(PrepareForSave(incoming, None, start).value, []), ops).fires;
            var z := incoming.zone;
            var late := LocalDate(z, fires[i].scheduled) < LocalDate(z, fires[i].now);
            var back := LocalDate(z, fires[j].now) < LocalDate(z, fires[j].scheduled);
            LocalDate(z, fires[i].now) == LocalDate(z, fires[j].now) ==>
              && (late || back)
              && (DatesNeverGoBack(z) ==> late && StillToCome(incoming.kind.pattern, z, fires[i].now))
  {
    RunsStrictlyIncrease(incoming, start, ops, i, j);
    FiresAreOccurrences(incoming, start, ops, j);
    var fires := Run(Life(PrepareForSave(incoming, None, start).value, []), ops).fires;
    if DatesNeverGoBack(incoming.zone)
       && LocalDate(incoming.zone, fires[i].now) == LocalDate(incoming.zone, fires[j].now) {
      OccurrenceLaterToday(incoming.kind.pattern, incoming.zone, fires[i].now, fires[j].scheduled);
    }
  }

  lemma FiresAreOccurrences(incoming: Schedule, start: Instant, ops: seq<Op>, j: nat)
    requires PrepareForSave(incoming, None, start).Ok? && Ordered(ops, start)
    requires incoming.kind.OnCalendar? && Coherent(incoming.zone)
    requires j < |Run(Life(PrepareForSave(incoming, None, start).value, []), ops).fires|
    ensures IsOccurrence(incoming.kind.pattern, incoming.zone,
                         Run(Life(PrepareForSave(incoming, None, start).value, []), ops).fires[j].scheduled)
  {
    var life := Life(PrepareForSave(incoming, None, start).value, []);
    if NextOrNone(incoming.(lastRun := None, lastKey := None), start).Some? {
      NextIsPlanned(incoming.(lastRun := None, lastKey := None), start, []);
    }
    LivesKeepTheirInvariant(life, ops, start);
    assert Fired(incoming.kind, incoming.zone, Run(life, ops).fires[j]);
  }

  /** An occurrence later on today's date is today's own. */
  lemma OccurrenceLaterToday(p: Pattern, z: Zone, now: Instant, t: Instant)
    requires IsOccurrence(p, z, t) && now < t && LocalDate(z, t) == LocalDate(z, now)
    ensures StillToCome(p, z, now)
  {
    var local := z.toLocal(t);
    assert local == DateOf(local) * DAY + TimeOfDay(local);
  }

  /** After a run at `now` the next one is planned for the same date of the clock if and only if
      today's own wall time is still to come: exactly then a run that catches up is followed by a
      second one on that date. */
  lemma RunsAgainTodayIff(s: Schedule, now: Instant)
    requires s.enabled && s.kind.OnCalendar? && ValidPattern(s.kind.pattern) && Coherent(s.zone)
    requires s.nextRun.Some? && s.nextRun.value <= now && IsOccurrence(s.kind.pattern, s.zone, s.nextRun.value)
    ensures var next := Advance(s, now, s.nextRun.value).nextRun;
            next.Some? && LocalDate(s.zone, next.value) == LocalDate(s.zone, now)
            <==> StillToCome(s.kind.pattern, s.zone, now)
  {
    TodaysOccurrence(s.kind.pattern, s.zone, s.nextRun.value, now);
    NextIsTodayIff(s.kind.pattern, s.zone, Some(WallKeyOf(s.zone, s.nextRun.value)), now);
  }

  lemma NextIsTodayIff(p: Pattern, z: Zone, last: Option<Key>, now: Instant)
    requires ValidPattern(p) && Coherent(z)
    ensures var next := NextCalendar(p, z, last, now);
            next.Ok? && LocalDate(z, next.value) == LocalDate(z, now)
            <==> OnDate(p, z, last, now, LocalDate(z, now)).Some?
  {
    var date := SearchStopsAtTheFirstDate(p, z, last, now, 0);
    OnDateFindsTheEligible(p, z, last, now, date);
  }

  lemma TodaysOccurrence(p: Pattern, z: Zone, ran: Instant, now: Instant)
    requires ValidPattern(p) && Coherent(z) && ran <= now && IsOccurrence(p, z, ran)
    ensures OnDate(p, z, Some(WallKeyOf(z, ran)), now, LocalDate(z, now)).Some? <==> StillToCome(p, z, now)
  {
    if StillToCome(p, z, now) {
      var local := LocalDate(z, now) * DAY + p.time;
      var t := Earliest(z.fromLocal(local));
      DateAndTime(LocalDate(z, now), p.time);
      assert Shows(z.fromLocal(local), t);
      DifferentKeys(p, z, ran, t);
    }
  }

  /** Occurrences on different dates have different keys. */
  lemma DifferentKeys(p: Pattern, z: Zone, s: Instant, t: Instant)
    requires Coherent(z) && ValidPattern(p) && IsOccurrence(p, z, s) && IsOccurrence(p, z, t) && s < t
    ensures WallKeyOf(z, s) != WallKeyOf(z, t)
  {
    LaterOccurrencesFallOnLaterDates(p, z, s, t);
    var a, b := z.toLocal(s), z.toLocal(t);
    assert a == DateOf(a) * DAY + p.time && b == DateOf(b) * DAY + p.time;
    assert b - a >= DAY;
  }

  const UTC: Zone := Zone("UTC", t => t, l => Single(l))
  const HOUR: nat := 3600 * SECOND
  const NINE: Pattern := Pattern(9 * HOUR, None)

  lemma NineOClockInUtc(last: Option<Key>, after: Instant, date: int)
    requires (date - 1) * DAY + 9 * HOUR <= after < date * DAY + 9 * HOUR
    requires last != Some(WallKeyOf(UTC, date * DAY + 9 * HOUR))
    ensures NextCalendar(NINE, UTC, last, after) == Ok(date * DAY + 9 * HOUR)
  {
    var start := DateOf(UTC.toLocal(after));
    assert start == date || start == date - 1;
    assert OnDate(NINE, UTC, last, after, date) == Some(date * DAY + 9 * HOUR);
    if start == date - 1 {
      assert OnDate(NINE, UTC, last, after, start) == None;
      assert SearchFrom(NINE, UTC, last, after, 1) == Ok(date * DAY + 9 * HOUR);
    }
  }

  lemma LateTick(s: Schedule, now: Instant, date: int)
    requires s.kind == OnCalendar(NINE) && s.zone == UTC && s.enabled && !s.skipMisfires
    requires s.nextRun.Some? && s.nextRun.value < (date - 1) * DAY + 10 * HOUR && s.nextRun.value <= now
    requires (date - 1) * DAY + 9 * HOUR <= now < date * DAY + 9 * HOUR
    ensures Tick(s, now).1 == s.nextRun
    ensures Tick(s, now).0 == s.(nextRun := Some(date * DAY + 9 * HOUR), lastRun := Some(now),
                                 lastKey := Some(WallKeyOf(UTC, s.nextRun.value)))
  {
    assert s.nextRun.value / SECOND < (date * DAY + 9 * HOUR) / SECOND;
    NineOClockInUtc(Some(WallKeyOf(UTC, s.nextRun.value)), now, date);
  }

  lemma DueAtItsHour(s: Schedule, now: Instant)
    requires s.enabled && !s.skipMisfires && s.nextRun == Some(now)
    ensures Tick(s, now).1 == Some(now)
  {
  }

  lemma PlansToday(s: Schedule, late: Instant, date: nat)
    requires s.kind == OnCalendar(NINE) && s.zone == UTC && s.enabled && !s.skipMisfires
    requires s.nextRun == Some((date - 1) * DAY + 9 * HOUR) && late == date * DAY + 8 * HOUR
    ensures var (t, fired) := Tick(s, late);
            fired.Some? && t.enabled && !t.skipMisfires && t.nextRun == Some(date * DAY + 9 * HOUR)
  {
    LateTick(s, late, date);
  }

  lemma DatesInUtc(date: int, hour: nat)
    requires hour < 24
    ensures LocalDate(UTC, date * DAY + hour * HOUR) == date
  {
    DateAndTime(date, hour * HOUR);
  }

  /** It happens: a daily `runOnce` schedule for 09:00 that catches up at 08:00 runs again an hour
      later. */
  lemma CatchingUpRunsTwiceOnOneDay(s: Schedule, date: nat, late: Instant, hour: Instant)
    requires s.kind == OnCalendar(NINE) && s.zone == UTC && s.enabled && !s.skipMisfires
    requires s.nextRun == Some((date - 1) * DAY + 9 * HOUR)
    requires late == date * DAY + 8 * HOUR && hour == date * DAY + 9 * HOUR
    ensures Tick(s, late).1.Some? && Tick(Tick(s, late).0, hour).1.Some?
    ensures LocalDate(UTC, late) == LocalDate(UTC, hour) == date
  {
    PlansToday(s, late, date);
    DueAtItsHour(Tick(s, late).0, hour);
    DatesInUtc(date, 8);
    DatesInUtc(date, 9);
  }
}
