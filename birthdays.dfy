/** The birthday arithmetic of `AddressBook.upcoming`: a birthday projected onto this
    year or the next, Feb 29 falling back to Feb 28 in common years, the inclusive
    window `[0, days_ahead]`, and the age turned. */
module Birthdays {
  import opened Outcome
  import opened Calendar

  /** Someone born on `bd` celebrates on date `d`: the same month and day, or Feb 28
      when they were born on Feb 29 and `d` falls in a common year. */
  predicate CelebratedOn(bd: Date, d: Date) {
    || (d.month == bd.month && d.day == bd.day)
    || (bd.month == 2 && bd.day == 29 && !IsLeap(d.year) && d.month == 2 && d.day == 28)
  }

  /** `datetime.date(year, bd.month, bd.day)`, or `datetime.date(year, 2, 28)` when
      that raises. */
  function Occurrence(year: int, bd: CalendarDate): (d: CalendarDate)
    requires MinYear <= year <= MaxYear
    ensures d.year == year && CelebratedOn(bd, d)
  {
    if IsValidDate(year, bd.month, bd.day) then Date(year, bd.month, bd.day) else Date(year, 2, 28)
  }

  /** A year holds exactly one celebration. */
  lemma OnlyOccurrence(bd: CalendarDate, d: CalendarDate)
    requires CelebratedOn(bd, d)
    ensures d == Occurrence(d.year, bd)
  {
  }

  /** The projection of `upcoming`: this year's celebration unless it is already
      past, else next year's. There is no next year after the last year of the
      calendar, where the program raises `ValueError`. */
  function NextBirthday(bd: CalendarDate, today: CalendarDate): (r: Option<CalendarDate>)
    ensures r.Some? ==> CelebratedOn(bd, r.value) && !Before(r.value, today)
    ensures r.Some? ==> (r.value.year == today.year <==> !Before(Occurrence(today.year, bd), today))
    ensures r.None? <==> today.year == MaxYear && Before(Occurrence(today.year, bd), today)
  {
    var thisYear := Occurrence(today.year, bd);
    if !Before(thisYear, today) then Some(thisYear)
    else if today.year == MaxYear then None
    else Some(Occurrence(today.year + 1, bd))
  }

  /** The projected date is the first celebration on or after today. */
  lemma FirstCelebration(bd: CalendarDate, today: CalendarDate, d: CalendarDate)
    requires CelebratedOn(bd, d) && !Before(d, today)
    ensures NextBirthday(bd, today).Some?
    ensures !Before(d, NextBirthday(bd, today).value)
  {
    OnlyOccurrence(bd, d);
    if d.year > today.year + 1 {
      assert today.year < MaxYear;
    }
  }

  /** The projected date lies zero to 365 days ahead of today. */
  lemma WithinAYear(bd: CalendarDate, today: CalendarDate)
    requires NextBirthday(bd, today).Some?
    ensures 0 <= DaysBetween(today, NextBirthday(bd, today).value) <= 365
  {
    var nb := NextBirthday(bd, today).value;
    var y := today.year;
    OrdinalOrder(today, nb);
    MonthsMonotone(nb.year, nb.month + 1, 13);
    MonthsMakeYear(nb.year);
    if nb.year == y + 1 {
      var c := Occurrence(y, bd);
      OrdinalOrder(c, today);
      YearStep(y);
      LeapShift(y, c.month);
      LeapShift(y + 1, nb.month);
      assert IsLeap(y) ==> !IsLeap(y + 1);
    }
  }

  /** `0 <= (next_bd - today).days <= days_ahead`. */
  predicate InWindow(bd: CalendarDate, today: CalendarDate, daysAhead: int) {
    var nb := NextBirthday(bd, today);
    nb.Some? && 0 <= DaysBetween(today, nb.value) <= daysAhead
  }

  /** The window is inclusive at its far end, and a window of 365 days or more
      holds every birthday that can be projected. */
  lemma WindowBoundary(bd: CalendarDate, today: CalendarDate, daysAhead: int)
    requires NextBirthday(bd, today).Some?
    ensures InWindow(bd, today, daysAhead) <==> DaysBetween(today, NextBirthday(bd, today).value) <= daysAhead
    ensures daysAhead >= 365 ==> InWindow(bd, today, daysAhead)
  {
    WithinAYear(bd, today);
  }

  /** The pair `upcoming` stores: the projected date and `next_bd.year - birth_year`. */
  function Entry(bd: CalendarDate, today: CalendarDate): (CalendarDate, int)
    requires NextBirthday(bd, today).Some?
  {
    var nb := NextBirthday(bd, today).value;
    (nb, nb.year - bd.year)
  }

  /** For a birthday that is not in the future, the age turned is never negative and
      is zero only when the person is born today. */
  lemma AgeTurned(bd: CalendarDate, today: CalendarDate)
    requires !Before(today, bd)
    requires NextBirthday(bd, today).Some?
    ensures Entry(bd, today).1 >= 0
    ensures Entry(bd, today).1 == 0 <==> bd == today
  {
    var nb := NextBirthday(bd, today).value;
    if nb.year == bd.year {
      OnlyOccurrence(bd, bd);
    }
  }

  /** A contact as `upcoming` sees it: the name it is listed under and its birthday,
      if one is set. */
  type Person = (string, Option<CalendarDate>)

  /** The person has a birthday inside the window. */
  predicate Celebrates(p: Person, today: CalendarDate, daysAhead: int) {
    p.1.Some? && InWindow(p.1.value, today, daysAhead)
  }

  /** The person's birthday has already passed in the last year of the calendar, so
      projecting it to the next year raises `ValueError`. */
  predicate Overflows(p: Person, today: CalendarDate) {
    p.1.Some? && NextBirthday(p.1.value, today).None?
  }

  /** What `upcoming` returns for the people in dictionary order: each person with a
      birthday in the window is entered under their name, a later person overwriting
      an earlier one of the same name; a birthday that cannot be projected aborts
      the whole call. */
  function UpcomingOf(people: seq<Person>, today: CalendarDate, daysAhead: int): Result<map<string, (CalendarDate, int)>> {
    if people == [] then Ok(map[])
    else
      var p := people[|people| - 1];
      match UpcomingOf(people[..|people| - 1], today, daysAhead)
      case Err(e) => Err(e)
      case Ok(m) =>
        if p.1.None? then Ok(m)
        else if NextBirthday(p.1.value, today).None? then Err(DateOutOfRange)
        else if InWindow(p.1.value, today, daysAhead) then Ok(m[p.0 := Entry(p.1.value, today)])
        else Ok(m)
  }

  /** `upcoming` fails exactly when some person's birthday cannot be projected, and
      then with `ValueError`. */
  lemma {:induction false} UpcomingFails(people: seq<Person>, today: CalendarDate, daysAhead: int)
    ensures UpcomingOf(people, today, daysAhead).Err? <==>
      exists i | 0 <= i < |people| :: Overflows(people[i], today)
    ensures UpcomingOf(people, today, daysAhead).Err? ==>
      UpcomingOf(people, today, daysAhead).error == DateOutOfRange
  {
    if people != [] {
      var front := people[..|people| - 1];
      UpcomingFails(front, today, daysAhead);
      assert forall i | 0 <= i < |front| :: front[i] == people[i];
    }
  }

  /** A name is in the result exactly when someone listed under it has a birthday
      in the window. */
  lemma {:induction false} UpcomingNames(people: seq<Person>, today: CalendarDate, daysAhead: int)
    requires UpcomingOf(people, today, daysAhead).Ok?
    ensures forall n :: n in UpcomingOf(people, today, daysAhead).value <==>
      exists i | 0 <= i < |people| :: people[i].0 == n && Celebrates(people[i], today, daysAhead)
  {
    if people != [] {
      var front := people[..|people| - 1];
      UpcomingNames(front, today, daysAhead);
      assert forall i | 0 <= i < |front| :: front[i] == people[i];
    }
  }

  /** The entry under a name belongs to the last person listed under it whose
      birthday is in the window. */
  lemma {:induction false} UpcomingLatestWins(people: seq<Person>, today: CalendarDate, daysAhead: int, i: nat)
    requires UpcomingOf(people, today, daysAhead).Ok?
    requires i < |people| && Celebrates(people[i], today, daysAhead)
    requires forall j | i < j < |people| :: people[j].0 == people[i].0 ==> !Celebrates(people[j], today, daysAhead)
    ensures people[i].0 in UpcomingOf(people, today, daysAhead).value
    ensures UpcomingOf(people, today, daysAhead).value[people[i].0] == Entry(people[i].1.value, today)
  {
    var front := people[..|people| - 1];
    if i < |people| - 1 {
      assert forall j | 0 <= j < |front| :: front[j] == people[j];
      UpcomingLatestWins(front, today, daysAhead, i);
    }
  }

  /** Every date `upcoming` returns lies `0..days_ahead` days ahead of today. */
  lemma {:induction false} UpcomingDatesAhead(people: seq<Person>, today: CalendarDate, daysAhead: int)
    requires UpcomingOf(people, today, daysAhead).Ok?
    ensures forall n | n in UpcomingOf(people, today, daysAhead).value ::
      var e := UpcomingOf(people, today, daysAhead).value[n];
      !Before(e.0, today) && 0 <= DaysBetween(today, e.0) <= daysAhead
  {
    if people != [] {
      UpcomingDatesAhead(people[..|people| - 1], today, daysAhead);
    }
  }

  /** Every date `upcoming` returns is a celebration of the birthday of someone
      listed under that name. */
  lemma {:induction false} UpcomingDatesCelebrated(people: seq<Person>, today: CalendarDate, daysAhead: int)
    requires UpcomingOf(people, today, daysAhead).Ok?
    ensures forall n | n in UpcomingOf(people, today, daysAhead).value ::
      exists i | 0 <= i < |people| :: people[i].0 == n && people[i].1.Some? &&
        CelebratedOn(people[i].1.value, UpcomingOf(people, today, daysAhead).value[n].0)
  {
    if people != [] {
      var front := people[..|people| - 1];
      UpcomingDatesCelebrated(front, today, daysAhead);
      assert forall i | 0 <= i < |front| :: front[i] == people[i];
    }
  }
}
