/** Moving the standing room reservations of a semester into the schedule:
    each reservation becomes an accepted special-reservation event with one
    term on its weekday in every week of the semester's lectures.

    A date is an integer day number, day 0 being a Monday (Python's
    `date.weekday()` of the date then is the number modulo 7). Times of day
    are opaque integers, rooms their ids. */
module Reservations {
  import opened Common
  import opened Text

  /** The academic year whose reservations are moved. */
  const CurrentYear: string := "2020/21"

  /** The author of every created event. */
  const Author: string := "asm"

  const Description: string := "Rezerwacja stała"

  datatype Semester = Semester(year: string, lecturesBeginning: int, lecturesEnding: int)

  /** A standing reservation. `dayOfWeek` is one of the system's day codes,
      "1" for Monday to "7" for Sunday. */
  datatype SpecialReservation = SpecialReservation(
    title: string,
    dayOfWeek: string,
    startTime: int,
    endTime: int,
    classroom: int,
    semester: Semester)

  datatype NewEvent = NewEvent(
    title: string,
    description: string,
    specialReservation: bool,
    visible: bool,
    accepted: bool,
    author: string)

  datatype NewTerm = NewTerm(day: int, start: int, end: int, room: int, place: string, ignoreConflicts: bool)

  /** What moving one reservation creates. */
  datatype Moved = Moved(event: NewEvent, terms: seq<NewTerm>)

  /** Python's `date.weekday()`: 0 for Monday to 6 for Sunday. */
  function Weekday(d: int): (w: int)
    ensures 0 <= w < 7
  {
    d % 7
  }

  /** `offset(day, day_t)`: the days from weekday `dayT` forward to weekday
      `day`. */
  function Offset(day: int, dayT: int): (o: int)
    ensures o == day - dayT || o == day - dayT + 7
    ensures 0 <= day <= 6 && 0 <= dayT <= 6 ==> 0 <= o <= 6
  {
    if day < dayT then day - dayT + 7
    else if day > dayT then day - dayT
    else 0
  }

  /** The days from `first` on, seven apart, up to `end`. */
  function WeeklyDays(first: int, end: int): seq<int>
    decreases end - first
  {
    if first > end then [] else [first] + WeeklyDays(first + 7, end)
  }

  /** The first term day as written: the code of the reservation's day is
      compared with Python's weekday number of the semester's first day. A
      day code that is not an integer is a ValueError. */
  function FirstTermDayAsWritten(r: SpecialReservation): (d: Result<int>)
    ensures d.Err? <==> ParseInt(r.dayOfWeek).Err?
    ensures d.Err? ==> d.error == ValueError
  {
    match ParseInt(r.dayOfWeek)
    case Err(e) => Err(e)
    case Ok(day) => Ok(r.semester.lecturesBeginning + Offset(day, Weekday(r.semester.lecturesBeginning)))
  }

  /** The first term day with the day code ("1" for Monday) turned into
      Python's weekday number (0 for Monday) before the comparison. */
  function FirstTermDay(r: SpecialReservation): (d: Result<int>)
    ensures d.Err? <==> ParseInt(r.dayOfWeek).Err?
    ensures d.Err? ==> d.error == ValueError
  {
    match ParseInt(r.dayOfWeek)
    case Err(e) => Err(e)
    case Ok(day) => Ok(r.semester.lecturesBeginning + Offset(day - 1, Weekday(r.semester.lecturesBeginning)))
  }

  /** The event created for a reservation. */
  function EventFor(r: SpecialReservation): (e: NewEvent)
    ensures e.title == r.title && e.description == Description && e.author == Author
    ensures e.specialReservation && e.visible && e.accepted
  {
    NewEvent(r.title, Description, true, true, true, Author)
  }

  /** The term created for a reservation on `day`. */
  function TermOn(r: SpecialReservation, day: int): (t: NewTerm)
    ensures t.day == day && t.start == r.startTime && t.end == r.endTime
    ensures t.room == r.classroom && t.place == r.title && t.ignoreConflicts
  {
    NewTerm(day, r.startTime, r.endTime, r.classroom, r.title, true)
  }

  /** The terms created for a reservation on the days. */
  function TermsOn(r: SpecialReservation, days: seq<int>): (ts: seq<NewTerm>)
    ensures |ts| == |days|
    ensures forall i :: 0 <= i < |ts| ==> ts[i] == TermOn(r, days[i])
  {
    if days == [] then [] else [TermOn(r, days[0])] + TermsOn(r, days[1..])
  }

  /** What moving one reservation from the first term day `first` creates,
      and the error that ends the run. */
  function MoveFrom(r: SpecialReservation, first: Result<int>): (Moved, Option<Error>)
  {
    match first
    case Err(e) => (Moved(EventFor(r), []), Some(e))
    case Ok(day) => (Moved(EventFor(r), TermsOn(r, WeeklyDays(day, r.semester.lecturesEnding))), None)
  }

  /** What the script creates for one reservation. */
  function MoveOf(r: SpecialReservation): (Moved, Option<Error>)
  {
    MoveFrom(r, FirstTermDayAsWritten(r))
  }

  /** What it creates with the corrected first term day. */
  function MoveOfCorrected(r: SpecialReservation): (Moved, Option<Error>)
  {
    MoveFrom(r, FirstTermDay(r))
  }

  /** The reservations of the current year, in order. */
  function Selected(rs: seq<SpecialReservation>): (s: seq<SpecialReservation>)
    ensures forall r :: r in s <==> r in rs && r.semester.year == CurrentYear
  {
    if rs == [] then []
    else
      assert forall r :: r in rs <==> r == rs[0] || r in rs[1..];
      (if rs[0].semester.year == CurrentYear then [rs[0]] else []) + Selected(rs[1..])
  }

  /** What moving the reservations in turn creates; the first error ends the
      run, after that reservation's event was created. */
  function MoveAll(rs: seq<SpecialReservation>): (r: (seq<Moved>, Option<Error>))
    ensures r.1.None? ==> |r.0| == |rs|
    ensures r.1.Some? ==> 0 < |r.0| <= |rs| && r.0[|r.0| - 1].terms == []
  {
    if rs == [] then ([], None)
    else
      var prior := MoveAll(rs[..|rs| - 1]);
      if prior.1.Some? then prior
      else (prior.0 + [MoveOf(rs[|rs| - 1]).0], MoveOf(rs[|rs| - 1]).1)
  }

  /** Record i of the run is what moving reservation i creates. */
  lemma {:induction false} MoveAllRecords(rs: seq<SpecialReservation>)
    ensures forall i :: 0 <= i < |MoveAll(rs).0| ==> MoveAll(rs).0[i] == MoveOf(rs[i]).0
  {
    if rs != [] {
      var init := rs[..|rs| - 1];
      MoveAllRecords(init);
      var prior := MoveAll(init);
      if prior.1.None? {
        var last := MoveOf(rs[|rs| - 1]).0;
        assert MoveAll(rs).0 == prior.0 + [last];
        forall i | 0 <= i < |MoveAll(rs).0|
          ensures MoveAll(rs).0[i] == MoveOf(rs[i]).0
        {
          if i < |init| {
            assert init[i] == rs[i];
          }
        }
      } else {
        forall i | 0 <= i < |prior.0|
          ensures prior.0[i] == MoveOf(rs[i]).0
        {
          assert init[i] == rs[i];
        }
      }
    }
  }

  /** Every reservation before the last record moved without an error; an
      error is the one the last moved reservation raised, and without one
      no reservation raised any. */
  lemma {:induction false} MoveAllErrors(rs: seq<SpecialReservation>)
    ensures forall i :: 0 <= i < |MoveAll(rs).0| - 1 ==> MoveOf(rs[i]).1.None?
    ensures MoveAll(rs).1.None? ==> forall i :: 0 <= i < |rs| ==> MoveOf(rs[i]).1.None?
    ensures MoveAll(rs).1.Some? ==> MoveAll(rs).1 == MoveOf(rs[|MoveAll(rs).0| - 1]).1
  {
    if rs != [] {
      var init := rs[..|rs| - 1];
      MoveAllErrors(init);
      assert forall i :: 0 <= i < |init| ==> init[i] == rs[i];
    }
  }

  /** The weekly loop of `run` for one reservation. */
  method MoveReservation(r: SpecialReservation) returns (m: Moved, err: Option<Error>)
    ensures (m, err) == MoveOf(r)
  {
    var event := EventFor(r);
    var semesterStart := r.semester.lecturesBeginning;
    var semesterEnd := r.semester.lecturesEnding;
    var day := ParseInt(r.dayOfWeek);
    if day.Err? {
      assert FirstTermDayAsWritten(r) == Err(day.error);
      return Moved(event, []), Some(day.error);
    }
    var off := Offset(day.value, Weekday(semesterStart));
    semesterStart := semesterStart + off;
    ghost var first := semesterStart;
    assert FirstTermDayAsWritten(r) == Ok(first);
    var days: seq<int> := [];
    var terms: seq<NewTerm> := [];
    while semesterStart <= semesterEnd
      invariant WeeklyDays(first, semesterEnd) == days + WeeklyDays(semesterStart, semesterEnd)
      invariant terms == TermsOn(r, days)
      decreases semesterEnd - semesterStart
    {
      terms := terms + [TermOn(r, semesterStart)];
      days := days + [semesterStart];
      semesterStart := semesterStart + 7;
    }
    assert days + [] == days;
    assert MoveOf(r) == (Moved(event, TermsOn(r, WeeklyDays(first, semesterEnd))), None);
    m, err := Moved(event, terms), None;
  }

  /** `run`: moves the reservations of the current year one by one. */
  method Run(reservations: seq<SpecialReservation>) returns (moved: seq<Moved>, err: Option<Error>)
    ensures (moved, err) == MoveAll(Selected(reservations))
  {
    var rs := Selected(reservations);
    moved, err := [], None;
    for i := 0 to |rs|
      invariant (moved, err) == MoveAll(rs[..i])
      invariant err.None?
    {
      var m, e := MoveReservation(rs[i]);
      assert rs[..i + 1][..i] == rs[..i];
      moved := moved + [m];
      if e.Some? {
        err := e;
        ErrorEndsRun(rs, i + 1);
        return;
      }
    }
    assert rs[..|rs|] == rs;
  }

  /** After an error the rest of the reservations change nothing. */
  lemma {:induction false} ErrorEndsRun(rs: seq<SpecialReservation>, k: nat)
    requires k <= |rs| && MoveAll(rs[..k]).1.Some?
    ensures MoveAll(rs) == MoveAll(rs[..k])
    decreases |rs|
  {
    if k == |rs| {
      assert rs[..k] == rs;
    } else {
      var init := rs[..|rs| - 1];
      assert init[..k] == rs[..k];
      ErrorEndsRun(init, k);
    }
  }
}

/** What the weekly term generation guarantees. */
module ReservationsProperties {
  import opened Common
  import opened Text
  import opened Reservations

  lemma OffsetSameDay(d: int)
    ensures Offset(d, d) == 0
  {
  }

  /** Moving forward by the offset lands on the wanted weekday. */
  lemma OffsetReachesWeekday(start: int, day: int)
    requires 0 <= day <= 6
    ensures Weekday(start + Offset(day, Weekday(start))) == day
  {
    var w := Weekday(start);
    var q := start / 7;
    assert start == 7 * q + w;
    if day < w {
      assert start + Offset(day, w) == 7 * (q + 1) + day;
    } else {
      assert start + Offset(day, w) == 7 * q + day;
    }
  }

  /** The first term day falls on the reservation's weekday, within the
      first week of lectures. */
  lemma FirstTermDayOnItsWeekday(r: SpecialReservation)
    requires ParseInt(r.dayOfWeek).Ok? && 1 <= ParseInt(r.dayOfWeek).value <= 7
    ensures FirstTermDay(r).Ok?
    ensures Weekday(FirstTermDay(r).value) == ParseInt(r.dayOfWeek).value - 1
    ensures r.semester.lecturesBeginning <= FirstTermDay(r).value < r.semester.lecturesBeginning + 7
  {
    var start := r.semester.lecturesBeginning;
    var day := ParseInt(r.dayOfWeek).value;
    OffsetReachesWeekday(start, day - 1);
  }

  /** As written, the first term day has Python weekday number equal to the
      day code modulo 7 ("7", Sunday, gives a Monday), and lies within the
      first eight days of lectures. */
  lemma FirstTermDayAsWrittenWeekday(r: SpecialReservation)
    requires ParseInt(r.dayOfWeek).Ok? && 1 <= ParseInt(r.dayOfWeek).value <= 7
    ensures FirstTermDayAsWritten(r).Ok?
    ensures Weekday(FirstTermDayAsWritten(r).value) == ParseInt(r.dayOfWeek).value % 7
    ensures r.semester.lecturesBeginning <= FirstTermDayAsWritten(r).value <= r.semester.lecturesBeginning + 7
  {
    var start := r.semester.lecturesBeginning;
    var day := ParseInt(r.dayOfWeek).value;
    var w := Weekday(start);
    if day < 7 {
      OffsetReachesWeekday(start, day);
    } else {
      var q := start / 7;
      assert start == 7 * q + w;
      assert start + Offset(7, w) == 7 * (q + 1);
    }
  }

  /** As written, every first term day is one day after the corrected one,
      except when the day code equals the weekday number of the first day of
      lectures: then it is six days before it. */
  lemma FirstTermDayAsWrittenIsADayLate(r: SpecialReservation)
    requires ParseInt(r.dayOfWeek).Ok? && 1 <= ParseInt(r.dayOfWeek).value <= 7
    ensures FirstTermDayAsWritten(r).Ok? && FirstTermDay(r).Ok?
    ensures var a, c := FirstTermDayAsWritten(r).value, FirstTermDay(r).value;
      if ParseInt(r.dayOfWeek).value == Weekday(r.semester.lecturesBeginning) then a == c - 6 else a == c + 1
    ensures Weekday(FirstTermDayAsWritten(r).value) == (Weekday(FirstTermDay(r).value) + 1) % 7
  {
    FirstTermDayOnItsWeekday(r);
    FirstTermDayAsWrittenWeekday(r);
  }

  /** The generated days start at `first` and are all within the semester. */
  lemma {:induction false} WeeklyDaysBounds(first: int, end: int)
    ensures first <= end ==> |WeeklyDays(first, end)| > 0 && WeeklyDays(first, end)[0] == first
    ensures forall i :: 0 <= i < |WeeklyDays(first, end)| ==> first <= WeeklyDays(first, end)[i] <= end
    decreases end - first
  {
    if first <= end {
      WeeklyDaysBounds(first + 7, end);
    }
  }

  /** Consecutive days are a week apart. */
  lemma {:induction false} WeeklyDaysSpacing(first: int, end: int)
    ensures forall i :: 0 <= i < |WeeklyDays(first, end)| ==> WeeklyDays(first, end)[i] == first + 7 * i
    decreases end - first
  {
    if first <= end {
      WeeklyDaysSpacing(first + 7, end);
    }
  }

  /** The loop stops at the last week: one more step passes the end. */
  lemma {:induction false} WeeklyDaysComplete(first: int, end: int)
    ensures first <= end ==> WeeklyDays(first, end)[|WeeklyDays(first, end)| - 1] + 7 > end
    ensures first > end <==> WeeklyDays(first, end) == []
    decreases end - first
  {
    if first <= end {
      WeeklyDaysComplete(first + 7, end);
    }
  }

  /** Every day of the generated terms is on the first term day's weekday. */
  lemma WeeklyDaysSameWeekday(first: int, end: int)
    ensures forall i :: 0 <= i < |WeeklyDays(first, end)| ==> Weekday(WeeklyDays(first, end)[i]) == Weekday(first)
  {
    WeeklyDaysSpacing(first, end);
    forall i | 0 <= i < |WeeklyDays(first, end)| ensures Weekday(first + 7 * i) == Weekday(first) {
      assert (first + 7 * i) % 7 == first % 7;
    }
  }

  /** Every term the script creates for a reservation keeps conflicts
      ignored, is in its classroom with its title as place and its times,
      and lies in the semester; the terms are a week apart, and for a day
      code of 1..7 they fall on weekday number code modulo 7. */
  lemma MovedTerms(r: SpecialReservation)
    requires ParseInt(r.dayOfWeek).Ok?
    ensures var (m, err) := MoveOf(r);
      err.None? && m.event == EventFor(r) &&
      (forall i :: 0 <= i < |m.terms| ==>
        m.terms[i].ignoreConflicts && m.terms[i].room == r.classroom && m.terms[i].place == r.title &&
        m.terms[i].start == r.startTime && m.terms[i].end == r.endTime &&
        m.terms[i].day <= r.semester.lecturesEnding &&
        m.terms[i].day == FirstTermDayAsWritten(r).value + 7 * i) &&
      (1 <= ParseInt(r.dayOfWeek).value <= 7 ==>
        forall i :: 0 <= i < |m.terms| ==>
          r.semester.lecturesBeginning <= m.terms[i].day &&
          Weekday(m.terms[i].day) == ParseInt(r.dayOfWeek).value % 7)
  {
    var first := FirstTermDayAsWritten(r).value;
    WeeklyDaysBounds(first, r.semester.lecturesEnding);
    WeeklyDaysSpacing(first, r.semester.lecturesEnding);
    WeeklyDaysSameWeekday(first, r.semester.lecturesEnding);
    if 1 <= ParseInt(r.dayOfWeek).value <= 7 {
      FirstTermDayAsWrittenWeekday(r);
    }
  }

  /** With the corrected first day every term falls on the reservation's own
      weekday, within the semester, a week apart. */
  lemma MovedTermsCorrected(r: SpecialReservation)
    requires ParseInt(r.dayOfWeek).Ok? && 1 <= ParseInt(r.dayOfWeek).value <= 7
    ensures var (m, err) := MoveOfCorrected(r);
      err.None? && m.event == EventFor(r) &&
      (forall i :: 0 <= i < |m.terms| ==>
        m.terms[i].ignoreConflicts && m.terms[i].room == r.classroom && m.terms[i].place == r.title &&
        m.terms[i].start == r.startTime && m.terms[i].end == r.endTime &&
        r.semester.lecturesBeginning <= m.terms[i].day <= r.semester.lecturesEnding &&
        Weekday(m.terms[i].day) == ParseInt(r.dayOfWeek).value - 1) &&
      (forall i :: 0 < i < |m.terms| ==> m.terms[i].day == m.terms[i - 1].day + 7)
  {
    FirstTermDayOnItsWeekday(r);
    var first := FirstTermDay(r).value;
    WeeklyDaysBounds(first, r.semester.lecturesEnding);
    WeeklyDaysSpacing(first, r.semester.lecturesEnding);
    WeeklyDaysSameWeekday(first, r.semester.lecturesEnding);
  }

  /** A reservation whose first term day is past the end of lectures
      creates its event and no terms. */
  lemma NoTermsPastTheEnd(r: SpecialReservation)
    requires FirstTermDayAsWritten(r).Ok? && FirstTermDayAsWritten(r).value > r.semester.lecturesEnding
    ensures MoveOf(r) == (Moved(EventFor(r), []), None)
  {
  }
}
