/** Time zones and the search for the next calendar occurrence.  A zone is any pair of
    functions between instants and local time; the theorems assume only that they cohere. */
module Calendar {
  import opened Base

  const DAY: nat := 24 * 60 * 60 * SECOND

  datatype LocalResult = Single(at: Instant) | Ambiguous(one: Instant, other: Instant) | Gap

  /** Local times are counted like instants, in nanoseconds since a local midnight. */
  datatype Zone = Zone(name: string, toLocal: Instant -> int, fromLocal: int -> LocalResult)

  function Earliest(r: LocalResult): Instant
    requires !r.Gap?
  {
    match r
    case Single(at) => at
    case Ambiguous(one, other) => if one <= other then one else other
  }

  predicate Shows(r: LocalResult, t: Instant) {
    match r
    case Single(at) => t == at
    case Ambiguous(one, other) => t == one || t == other
    case Gap => false
  }

  /** The two directions agree, and before the first instant that shows a local time the
      zone has shown only earlier ones: clocks are put back, but never across that instant. */
  ghost predicate Coherent(z: Zone) {
    && (forall l, t :: Shows(z.fromLocal(l), t) <==> z.toLocal(t) == l)
    && (forall l, t :: !z.fromLocal(l).Gap? && t < Earliest(z.fromLocal(l)) ==> z.toLocal(t) < l)
  }

  function DateOf(local: int): int {
    local / DAY
  }

  function TimeOfDay(local: int): int {
    local % DAY
  }

  /** Monday is 0; day 0 was a Thursday. */
  function WeekdayOf(date: int): int {
    (date + 3) % 7
  }

  /** Weekdays follow one another from a Thursday on. */
  lemma WeekdaysFollowOneAnother(date: int)
    ensures WeekdayOf(0) == 3 && WeekdayOf(date + 1) == (WeekdayOf(date) + 1) % 7
  {
  }

  /** When a daily or weekly schedule is due: a wall time and, if weekly, a weekday. */
  datatype Pattern = Pattern(time: nat, weekday: Option<nat>)

  predicate ValidPattern(p: Pattern) {
    p.time < DAY && (p.weekday.Some? ==> p.weekday.value < 7)
  }

  /** What identifies an occurrence: the local second in its zone, or an instant. */
  datatype Key = WallKey(zone: string, second: int) | InstantKey(at: Instant)

  function WallKeyOf(z: Zone, t: Instant): Key {
    WallKey(z.name, z.toLocal(t) / SECOND)
  }

  /** What the search finds on one date, if anything. */
  function OnDate(p: Pattern, z: Zone, last: Option<Key>, after: Instant, date: int): Option<Instant> {
    if p.weekday.Some? && WeekdayOf(date) != p.weekday.value then None
    else
      var found := z.fromLocal(date * DAY + p.time);
      if found.Gap? then None
      else
        var candidate := Earliest(found);
        if candidate <= after || last == Some(WallKeyOf(z, candidate)) then None
        else Some(candidate)
  }

  const SEARCH_DAYS: int := 14

  function SearchFrom(p: Pattern, z: Zone, last: Option<Key>, after: Instant, offset: nat): Result<Instant>
    decreases SEARCH_DAYS + 1 - offset
  {
    if offset > SEARCH_DAYS then Err(Unavailable)
    else
      var found := OnDate(p, z, last, after, DateOf(z.toLocal(after)) + offset);
      if found.Some? then Ok(found.value) else SearchFrom(p, z, last, after, offset + 1)
  }

  function NextCalendar(p: Pattern, z: Zone, last: Option<Key>, after: Instant): Result<Instant> {
    SearchFrom(p, z, last, after, 0)
  }

  method NextCalendarRun(p: Pattern, z: Zone, last: Option<Key>, after: Instant) returns (run: Result<Instant>)
    ensures run == NextCalendar(p, z, last, after)
  {
    var start := DateOf(z.toLocal(after));
    for offset := 0 to SEARCH_DAYS + 1
      invariant NextCalendar(p, z, last, after) == SearchFrom(p, z, last, after, offset)
    {
      var date := start + offset;
      if p.weekday.Some? && WeekdayOf(date) != p.weekday.value {
        continue;
      }
      var local := z.fromLocal(date * DAY + p.time);
      if local.Gap? {
        continue;
      }
      var candidate := Earliest(local);
      if candidate <= after {
        continue;
      }
      if last == Some(WallKeyOf(z, candidate)) {
        continue;
      }
      return Ok(candidate);
    }
    return Err(Unavailable);
  }

  // ---- what the search means --------------------------------------------------

  /** An instant of the pattern: its clock shows the wall time on a right weekday, for the first
      time if the clock shows it twice. */
  predicate IsOccurrence(p: Pattern, z: Zone, t: Instant) {
    var local := z.toLocal(t);
    && TimeOfDay(local) == p.time
    && (p.weekday.Some? ==> WeekdayOf(DateOf(local)) == p.weekday.value)
    && !z.fromLocal(local).Gap? && t == Earliest(z.fromLocal(local))
  }

  /** An instant the search may return: a later occurrence other than the last one. */
  predicate Eligible(p: Pattern, z: Zone, last: Option<Key>, after: Instant, t: Instant) {
    after < t && IsOccurrence(p, z, t) && last != Some(WallKeyOf(z, t))
  }

  lemma DateAndTime(date: int, time: nat)
    requires time < DAY
    ensures DateOf(date * DAY + time) == date && TimeOfDay(date * DAY + time) == time
  {
  }

  function LocalDate(z: Zone, t: Instant): int {
    DateOf(z.toLocal(t))
  }

  lemma OnDateFindsTheEligible(p: Pattern, z: Zone, last: Option<Key>, after: Instant, date: int)
    requires Coherent(z) && ValidPattern(p)
    ensures var found := OnDate(p, z, last, after, date);
            && (found.Some? ==> Eligible(p, z, last, after, found.value) && LocalDate(z, found.value) == date)
            && (forall t :: Eligible(p, z, last, after, t) && LocalDate(z, t) == date ==> found == Some(t))
  {
    DateAndTime(date, p.time);
    var local := date * DAY + p.time;
    var r := z.fromLocal(local);
    if !r.Gap? {
      assert Shows(r, Earliest(r));
      assert z.toLocal(Earliest(r)) == local;
    }
    forall t | Eligible(p, z, last, after, t) && LocalDate(z, t) == date
      ensures OnDate(p, z, last, after, date) == Some(t)
    {
      assert z.toLocal(t) == local;
    }
  }

  /** Eligible instants come on no earlier date than `after`, and in the order of their dates. */
  lemma EligibleByDate(p: Pattern, z: Zone, last: Option<Key>, after: Instant, s: Instant, t: Instant)
    requires Coherent(z) && ValidPattern(p)
    requires Eligible(p, z, last, after, s) && Eligible(p, z, last, after, t)
    ensures LocalDate(z, after) <= LocalDate(z, t)
    ensures LocalDate(z, s) < LocalDate(z, t) ==> s < t
  {
    assert z.toLocal(after) < z.toLocal(t);
    assert t < s ==> z.toLocal(t) < z.toLocal(s);
  }

  /** The search answers with the first date from `offset` on that has an answer. */
  lemma {:induction false} SearchStopsAtTheFirstDate(
    p: Pattern, z: Zone, last: Option<Key>, after: Instant, offset: nat)
    returns (date: int)
    requires offset <= SEARCH_DAYS + 1
    ensures LocalDate(z, after) + offset <= date <= LocalDate(z, after) + SEARCH_DAYS + 1
    ensures forall d :: LocalDate(z, after) + offset <= d < date ==> OnDate(p, z, last, after, d) == None
    ensures var found := SearchFrom(p, z, last, after, offset);
            if date <= LocalDate(z, after) + SEARCH_DAYS
            then found.Ok? && OnDate(p, z, last, after, date) == Some(found.value)
            else found.Err?
    decreases SEARCH_DAYS + 1 - offset
  {
    date := LocalDate(z, after) + offset;
    if offset <= SEARCH_DAYS && OnDate(p, z, last, after, date) == None {
      date := SearchStopsAtTheFirstDate(p, z, last, after, offset + 1);
    }
  }

  lemma EligibleIsNotBefore(p: Pattern, z: Zone, last: Option<Key>, after: Instant, date: int, t: Instant)
    requires Coherent(z) && ValidPattern(p) && Eligible(p, z, last, after, t)
    requires forall d :: LocalDate(z, after) <= d < date ==> OnDate(p, z, last, after, d) == None
    ensures date <= LocalDate(z, t)
  {
    EligibleByDate(p, z, last, after, t, t);
    OnDateFindsTheEligible(p, z, last, after, LocalDate(z, t));
  }

  /** The search returns the earliest eligible instant there is, and fails exactly when none
      falls on the 15 dates it looks at. */
  lemma NextCalendarIsTheEarliest(p: Pattern, z: Zone, last: Option<Key>, after: Instant)
    requires Coherent(z) && ValidPattern(p)
    ensures var found := NextCalendar(p, z, last, after);
            && (found.Ok? ==>
                  && Eligible(p, z, last, after, found.value)
                  && LocalDate(z, found.value) <= LocalDate(z, after) + SEARCH_DAYS
                  && forall t :: Eligible(p, z, last, after, t) ==> found.value <= t)
            && (found.Err? ==>
                  forall t :: Eligible(p, z, last, after, t) ==> LocalDate(z, after) + SEARCH_DAYS < LocalDate(z, t))
  {
    var date := SearchStopsAtTheFirstDate(p, z, last, after, 0);
    var found := NextCalendar(p, z, last, after);
    OnDateFindsTheEligible(p, z, last, after, date);
    forall t | Eligible(p, z, last, after, t)
      ensures date <= LocalDate(z, t) && (found.Ok? ==> found.value <= t)
    {
      EligibleIsNotBefore(p, z, last, after, date, t);
      if found.Ok? { EligibleByDate(p, z, last, after, found.value, t); }
    }
  }

  /** Later occurrences of one pattern fall on later local dates, even across a day on which
      the wall time comes twice. */
  lemma LaterOccurrencesFallOnLaterDates(p: Pattern, z: Zone, s: Instant, t: Instant)
    requires Coherent(z) && ValidPattern(p)
    requires IsOccurrence(p, z, s) && IsOccurrence(p, z, t) && s < t
    ensures LocalDate(z, s) < LocalDate(z, t)
  {
    assert z.toLocal(s) < z.toLocal(t);
  }

  // ---- zones that cohere ------------------------------------------------------

  /** A zone whose clocks are put back from `change + shift` to `change`. */
  function PutBack(change: Instant, shift: nat): Zone {
    Zone("put back",
         t => if t < change then t + shift else t,
         l => if l < change then Single(l - shift)
              else if l < change + shift then Ambiguous(l, l - shift)
              else Single(l))
  }

  /** A zone whose clocks are put forward from `change` to `change + shift`. */
  function PutForward(change: Instant, shift: nat): Zone {
    Zone("put forward",
         t => if t < change then t else t + shift,
         l => if l < change then Single(l) else if l < change + shift then Gap else Single(l - shift))
  }

  lemma ClockChangesCohere(change: Instant, shift: nat)
    ensures Coherent(PutBack(change, shift))
    ensures Coherent(PutForward(change, shift))
  {
  }
}
