/** Study-requirement accounting: which requirement year applies to a
    program, how many ECTS points a student's completed courses earn under
    per-course-type caps, and whether a requirement is passed.

    Django model objects (proposals, course types, effects, tags) are
    modelled by their primary keys, an `int` each; a completed-course record
    is reduced to its course. A requirement's filter dictionary is its list
    of `(table, objects)` items in insertion order. */
module Effects {
  import opened Common
  import opened Text

  datatype Course = Course(offer: int, courseType: int, points: int, effects: set<int>, tags: set<int>)

  /** One item of a `filter`/`filterNot` dictionary: a table name
      ("subject", "type", "effect", "tag", or another name that is ignored)
      and the objects listed under it. */
  datatype Criterion = Criterion(table: string, objects: seq<int>)

  // ---- program_exists, proper_year_for_program ----

  /** `program_exists`: the program's string form is a key of the data, so
      some key parses to the program (the converse fails for padded keys). */
  predicate ProgramExists(data: map<string, seq<string>>, program: int): (r: bool)
    ensures r ==> exists k :: k in data && ParseInt(k) == Ok(program)
  {
    ParseIntToString(program);
    IntToString(program) in data
  }

  /** Every year key parses as an integer. */
  predicate YearsParse(years: seq<string>)
  {
    forall i :: 0 <= i < |years| ==> ParseInt(years[i]).Ok?
  }

  /** `[x for x in years if int(x) <= year]`. */
  function YearsUpTo(years: seq<string>, year: int): (r: seq<string>)
    requires YearsParse(years)
    ensures forall x :: x in r <==> x in years && ParseInt(x).value <= year
  {
    if years == [] then []
    else
      var rest := YearsUpTo(years[1..], year);
      assert forall x :: x in years <==> x == years[0] || x in years[1..];
      if ParseInt(years[0]).value <= year then [years[0]] + rest else rest
  }

  /** `proper_year_for_program` as written. `data` maps each program key to
      its year keys. The maximum is Python's `max` over the year STRINGS. A
      missing program is a KeyError; a year key that is not an integer, or a
      program without years, is a ValueError. */
  function ProperYear(data: map<string, seq<string>>, program: int, year: int): (r: Result<string>)
    ensures r == Err(KeyError) <==> !ProgramExists(data, program)
    ensures r == Err(ValueError) <==>
      ProgramExists(data, program) &&
      (!YearsParse(data[IntToString(program)]) || |data[IntToString(program)]| == 0)
  {
    var key := IntToString(program);
    if key !in data then Err(KeyError)
    else
      var years := data[key];
      if !YearsParse(years) then Err(ValueError)
      else
        var lower := YearsUpTo(years, year);
        if |lower| > 0 then Ok(MaxString(lower))
        else if |years| == 0 then Err(ValueError)
        else Ok(MaxString(years))
  }

  /** The key among `xs` with the largest integer value (the first such). */
  function MaxYear(xs: seq<string>): (m: string)
    requires |xs| > 0 && YearsParse(xs)
    ensures m in xs
    ensures forall x :: x in xs ==> ParseInt(x).value <= ParseInt(m).value
  {
    if |xs| == 1 then xs[0]
    else
      var rest := MaxYear(xs[1..]);
      assert forall x :: x in xs <==> x == xs[0] || x in xs[1..];
      if ParseInt(xs[0]).value >= ParseInt(rest).value then xs[0] else rest
  }

  /** `proper_year_for_program` with the maximum taken over the years'
      integer values, as the comparison `int(x) <= year` intends. */
  function ProperYearNumeric(data: map<string, seq<string>>, program: int, year: int): Result<string>
  {
    var key := IntToString(program);
    if key !in data then Err(KeyError)
    else
      var years := data[key];
      if !YearsParse(years) then Err(ValueError)
      else
        var lower := YearsUpTo(years, year);
        if |lower| > 0 then Ok(MaxYear(lower))
        else if |years| == 0 then Err(ValueError)
        else Ok(MaxYear(years))
  }

  // ---- Criteria ----

  /** Whether a course meets one criterion of a filter. */
  predicate Matches(cr: Criterion, c: Course)
  {
    if cr.table == "subject" then c.offer in cr.objects
    else if cr.table == "type" then c.courseType in cr.objects
    else if cr.table == "effect" then !(c.effects !! set o | o in cr.objects)
    else if cr.table == "tag" then !(c.tags !! set o | o in cr.objects)
    else false
  }

  /** A course excluded by a `filterNot`: listed under 'subject' or 'type'. */
  predicate Excluded(filterNot: seq<Criterion>, c: Course)
  {
    exists i :: 0 <= i < |filterNot| &&
      ((filterNot[i].table == "subject" && c.offer in filterNot[i].objects) ||
       (filterNot[i].table == "type" && c.courseType in filterNot[i].objects))
  }

  /** The courses no criterion of `filterNot` excludes, in order. */
  function NotExcluded(filterNot: seq<Criterion>, cs: seq<Course>): seq<Course>
  {
    if cs == [] then []
    else if Excluded(filterNot, cs[0]) then NotExcluded(filterNot, cs[1..])
    else [cs[0]] + NotExcluded(filterNot, cs[1..])
  }

  /** One list comprehension of `get_all_points`: drop the courses that the
      criterion excludes. */
  function DropExcluded(cr: Criterion, cs: seq<Course>): seq<Course>
  {
    if cs == [] then []
    else if (cr.table == "subject" && cs[0].offer in cr.objects) ||
            (cr.table == "type" && cs[0].courseType in cr.objects)
    then DropExcluded(cr, cs[1..])
    else [cs[0]] + DropExcluded(cr, cs[1..])
  }

  /** The comprehensions of `get_all_points` applied criterion by criterion. */
  function ApplyFilterNot(filterNot: seq<Criterion>, cs: seq<Course>): seq<Course>
  {
    if filterNot == [] then cs
    else DropExcluded(filterNot[|filterNot| - 1], ApplyFilterNot(filterNot[..|filterNot| - 1], cs))
  }

  // ---- Capped point sums ----

  /** `used_limits` before the first course: zero for every limited type. */
  function NoneUsed(limits: map<int, int>): (u: map<int, int>)
    ensures u.Keys == limits.Keys
  {
    map t | t in limits :: 0
  }

  /** What one course adds: at most what is left of its type's cap, or its
      full points when its type has no cap. */
  function Added(limits: map<int, int>, used: map<int, int>, c: Course): int
    requires used.Keys == limits.Keys
  {
    if c.courseType in limits then Min(limits[c.courseType] - used[c.courseType], c.points)
    else c.points
  }

  function Use(limits: map<int, int>, used: map<int, int>, c: Course): (u: map<int, int>)
    requires used.Keys == limits.Keys
    ensures u.Keys == limits.Keys
  {
    if c.courseType in limits then used[c.courseType := used[c.courseType] + Added(limits, used, c)]
    else used
  }

  /** `used_limits` after the courses. */
  function UsedAfter(limits: map<int, int>, cs: seq<Course>): (u: map<int, int>)
    ensures u.Keys == limits.Keys
  {
    if cs == [] then NoneUsed(limits)
    else Use(limits, UsedAfter(limits, cs[..|cs| - 1]), cs[|cs| - 1])
  }

  /** The running `sum` of `get_all_points` after the courses. */
  function CappedPoints(limits: map<int, int>, cs: seq<Course>): int
  {
    if cs == [] then 0
    else CappedPoints(limits, cs[..|cs| - 1]) + Added(limits, UsedAfter(limits, cs[..|cs| - 1]), cs[|cs| - 1])
  }

  /** The points courses of type `t` add to the running sum. */
  function TypeContribution(limits: map<int, int>, cs: seq<Course>, t: int): int
  {
    if cs == [] then 0
    else
      var last := cs[|cs| - 1];
      TypeContribution(limits, cs[..|cs| - 1], t) +
        (if last.courseType == t then Added(limits, UsedAfter(limits, cs[..|cs| - 1]), last) else 0)
  }

  /** The plain sum of the points of the courses of type `t`. */
  function TypePoints(cs: seq<Course>, t: int): int
  {
    if cs == [] then 0
    else TypePoints(cs[..|cs| - 1], t) + (if cs[|cs| - 1].courseType == t then cs[|cs| - 1].points else 0)
  }

  /** The plain sum of the points of the courses whose type has no cap. */
  function UncappedPoints(limits: map<int, int>, cs: seq<Course>): int
  {
    if cs == [] then 0
    else
      var last := cs[|cs| - 1];
      UncappedPoints(limits, cs[..|cs| - 1]) + (if last.courseType !in limits then last.points else 0)
  }

  /** The caller's `limit` dictionary, which both point functions may change:
      table name to (object to ECTS cap). */
  class Limits {
    var tables: map<string, map<int, int>>

    constructor (tables: map<string, map<int, int>>)
      ensures this.tables == tables
    {
      this.tables := tables;
    }

    /** `if 'type' not in limit: limit['type'] = {}`. */
    method EnsureTypeTable()
      modifies this
      ensures tables == if "type" in old(tables) then old(tables) else old(tables)["type" := map[]]
      ensures "type" in tables
    {
      if "type" !in tables {
        tables := tables["type" := map[]];
      }
    }
  }

  /** The capped summation loop of `get_all_points`. */
  method SumCapped(typeLimits: map<int, int>, cs: seq<Course>) returns (sum: int)
    ensures sum == CappedPoints(typeLimits, cs)
  {
    sum := 0;
    var used: map<int, int> := map t | t in typeLimits :: 0;
    for i := 0 to |cs|
      invariant used == UsedAfter(typeLimits, cs[..i])
      invariant sum == CappedPoints(typeLimits, cs[..i])
    {
      assert cs[..i + 1][..i] == cs[..i];
      var c := cs[i];
      if c.courseType in typeLimits {
        var addedSum := Min(typeLimits[c.courseType] - used[c.courseType], c.points);
        used := used[c.courseType := used[c.courseType] + addedSum];
        sum := sum + addedSum;
      } else {
        sum := sum + c.points;
      }
    }
    assert cs[..|cs|] == cs;
  }

  /** `get_all_points`: drops the courses `filterNot` excludes, inserts an
      empty 'type' table into the caller's `limit` when it has none, and sums
      the remaining courses' points, capped per course type. */
  method GetAllPoints(filterNot: seq<Criterion>, limit: Limits, completed: seq<Course>) returns (sum: int)
    modifies limit
    ensures limit.tables ==
      if "type" in old(limit.tables) then old(limit.tables) else old(limit.tables)["type" := map[]]
    ensures sum == CappedPoints(limit.tables["type"], NotExcluded(filterNot, completed))
  {
    var filtered := completed;
    for i := 0 to |filterNot|
      invariant filtered == ApplyFilterNot(filterNot[..i], completed)
    {
      assert filterNot[..i + 1][..i] == filterNot[..i];
      filtered := DropExcluded(filterNot[i], filtered);
    }
    assert filterNot[..|filterNot|] == filterNot;
    ApplyFilterNotIsNotExcluded(filterNot, completed);
    limit.EnsureTypeTable();
    sum := SumCapped(limit.tables["type"], filtered);
  }

  /** Applying the comprehensions one by one keeps exactly the courses no
      criterion excludes. */
  lemma {:induction false} ApplyFilterNotIsNotExcluded(filterNot: seq<Criterion>, cs: seq<Course>)
    ensures ApplyFilterNot(filterNot, cs) == NotExcluded(filterNot, cs)
  {
    if filterNot != [] {
      var init := filterNot[..|filterNot| - 1];
      ApplyFilterNotIsNotExcluded(init, cs);
      DropAfterNotExcluded(init, filterNot[|filterNot| - 1], cs);
      assert filterNot == init + [filterNot[|filterNot| - 1]];
    } else {
      NotExcludedEmpty(cs);
    }
  }

  lemma {:induction false} NotExcludedEmpty(cs: seq<Course>)
    ensures NotExcluded([], cs) == cs
  {
    if cs != [] { NotExcludedEmpty(cs[1..]); }
  }

  lemma {:induction false} DropAfterNotExcluded(init: seq<Criterion>, cr: Criterion, cs: seq<Course>)
    ensures DropExcluded(cr, NotExcluded(init, cs)) == NotExcluded(init + [cr], cs)
  {
    if cs != [] {
      DropAfterNotExcluded(init, cr, cs[1..]);
      var c := cs[0];
      var all := init + [cr];
      assert forall i :: 0 <= i < |init| ==> all[i] == init[i];
      assert all[|init|] == cr;
      if Excluded(all, c) {
        var i :| 0 <= i < |all| &&
          ((all[i].table == "subject" && c.offer in all[i].objects) ||
           (all[i].table == "type" && c.courseType in all[i].objects));
        if i < |init| { assert Excluded(init, c); }
      }
    }
  }

  // ---- get_points_sum ----

  /** The state `get_points_sum` threads through its loops. */
  datatype Tally = Tally(sum: int, used: map<int, int>)

  /** One criterion applied to one course. */
  function CriterionStep(limits: map<int, int>, cr: Criterion, c: Course, st: Tally): (r: Tally)
    requires st.used.Keys == limits.Keys
    ensures r.used.Keys == limits.Keys
  {
    if cr.table == "type" then
      if c.courseType in cr.objects then
        Tally(st.sum + Added(limits, st.used, c), Use(limits, st.used, c))
      else st
    else if Matches(cr, c) then Tally(st.sum + c.points, st.used)
    else st
  }

  /** All criteria of the filter applied to one course, in order. */
  function CriteriaSteps(limits: map<int, int>, filter: seq<Criterion>, c: Course, st: Tally): (r: Tally)
    requires st.used.Keys == limits.Keys
    ensures r.used.Keys == limits.Keys
  {
    if filter == [] then st
    else CriterionStep(limits, filter[|filter| - 1], c, CriteriaSteps(limits, filter[..|filter| - 1], c, st))
  }

  /** The tally of `get_points_sum` after the courses. */
  function PointsTally(limits: map<int, int>, filter: seq<Criterion>, cs: seq<Course>): (r: Tally)
    ensures r.used.Keys == limits.Keys
  {
    if cs == [] then Tally(0, NoneUsed(limits))
    else CriteriaSteps(limits, filter, cs[|cs| - 1], PointsTally(limits, filter, cs[..|cs| - 1]))
  }

  /** `get_points_sum`: every course earns its points once for each criterion
      of the filter it meets, the 'type' criterion capped per course type. */
  method GetPointsSum(filter: seq<Criterion>, limit: Limits, completed: seq<Course>) returns (sum: int)
    modifies limit
    ensures limit.tables ==
      if "type" in old(limit.tables) then old(limit.tables) else old(limit.tables)["type" := map[]]
    ensures sum == PointsTally(limit.tables["type"], filter, completed).sum
  {
    limit.EnsureTypeTable();
    sum := SumByCriteria(limit.tables["type"], filter, completed);
  }

  /** The nested loops of `get_points_sum`. */
  method SumByCriteria(typeLimits: map<int, int>, filter: seq<Criterion>, cs: seq<Course>) returns (sum: int)
    ensures sum == PointsTally(typeLimits, filter, cs).sum
  {
    sum := 0;
    var used: map<int, int> := map t | t in typeLimits :: 0;
    for i := 0 to |cs|
      invariant Tally(sum, used) == PointsTally(typeLimits, filter, cs[..i])
    {
      assert cs[..i + 1][..i] == cs[..i];
      var c := cs[i];
      ghost var start := Tally(sum, used);
      for j := 0 to |filter|
        invariant Tally(sum, used) == CriteriaSteps(typeLimits, filter[..j], c, start)
      {
        assert filter[..j + 1][..j] == filter[..j];
        var cr := filter[j];
        if cr.table == "subject" {
          if c.offer in cr.objects {
            sum := sum + c.points;
          }
        } else if cr.table == "type" {
          if c.courseType in cr.objects {
            if c.courseType in typeLimits {
              var addedSum := Min(typeLimits[c.courseType] - used[c.courseType], c.points);
              used := used[c.courseType := used[c.courseType] + addedSum];
              sum := sum + addedSum;
            } else {
              sum := sum + c.points;
            }
          }
        } else if cr.table == "effect" {
          if !(c.effects !! set o | o in cr.objects) {
            sum := sum + c.points;
          }
        } else if cr.table == "tag" {
          if !(c.tags !! set o | o in cr.objects) {
            sum := sum + c.points;
          }
        }
      }
      assert filter[..|filter|] == filter;
    }
    assert cs[..|cs|] == cs;
  }

  // ---- is_passed ----

  /** `is_passed`: some completed course meets some criterion. */
  method IsPassed(filter: seq<Criterion>, completed: seq<Course>) returns (passed: bool)
    ensures passed <==> exists i, j :: 0 <= i < |completed| && 0 <= j < |filter| && Matches(filter[j], completed[i])
  {
    passed := false;
    var i := 0;
    while i < |completed|
      invariant 0 <= i <= |completed| && !passed
      invariant forall k, j :: 0 <= k < i && 0 <= j < |filter| ==> !Matches(filter[j], completed[k])
    {
      var c := completed[i];
      var j := 0;
      while j < |filter|
        invariant 0 <= j <= |filter| && !passed
        invariant forall m :: 0 <= m < j ==> !Matches(filter[m], c)
      {
        var cr := filter[j];
        if cr.table == "subject" && c.offer in cr.objects {
          passed := true;
          break;
        }
        if cr.table == "type" && c.courseType in cr.objects {
          passed := true;
          break;
        }
        if cr.table == "effect" && !(c.effects !! set o | o in cr.objects) {
          passed := true;
          break;
        }
        if cr.table == "tag" && !(c.tags !! set o | o in cr.objects) {
          passed := true;
          break;
        }
        j := j + 1;
      }
      if passed {
        assert Matches(filter[j], completed[i]);
        break;
      }
      i := i + 1;
    }
  }
}

/** What the requirement accounting guarantees. */
module EffectsProperties {
  import opened Common
  import opened Text
  import opened Effects

  // ---- program_exists ----

  /** A zero-padded key is not found, although `int` of it is the program. */
  lemma PaddedKeyNotFound()
    ensures ParseInt("07") == Ok(7)
    ensures !ProgramExists(map["07" := []], 7)
  {
    assert "07"[..1] == "0";
    assert IntToString(7) == "7";
  }

  // ---- proper_year_for_program ----

  /** As written: the chosen year is a key; when some key is at most `year`
      it is one of those and no such key is later in STRING order; otherwise
      every key is after `year` and the string-greatest one is chosen. */
  lemma ProperYearAsWritten(data: map<string, seq<string>>, program: int, year: int)
    requires ProperYear(data, program, year).Ok?
    ensures var years, r := data[IntToString(program)], ProperYear(data, program, year).value;
      r in years &&
      ((exists x :: x in years && ParseInt(x).value <= year) ==>
        ParseInt(r).value <= year &&
        forall x :: x in years && ParseInt(x).value <= year ==> StrLe(x, r)) &&
      ((forall x :: x in years ==> ParseInt(x).value > year) ==>
        forall x :: x in years ==> StrLe(x, r))
  {
    var years := data[IntToString(program)];
    var lower := YearsUpTo(years, year);
    if exists x :: x in years && ParseInt(x).value <= year {
      var x :| x in years && ParseInt(x).value <= year;
      assert x in lower;
    }
  }

  /** Corrected: the chosen year is the latest key not after `year`, or the
      latest key of all when every key is after `year`. */
  lemma ProperYearNumericLatest(data: map<string, seq<string>>, program: int, year: int)
    requires ProperYearNumeric(data, program, year).Ok?
    ensures var years, r := data[IntToString(program)], ProperYearNumeric(data, program, year).value;
      r in years &&
      ((exists x :: x in years && ParseInt(x).value <= year) ==>
        ParseInt(r).value <= year &&
        forall x :: x in years && ParseInt(x).value <= year ==> ParseInt(x).value <= ParseInt(r).value) &&
      ((forall x :: x in years ==> ParseInt(x).value > year) ==>
        forall x :: x in years ==> ParseInt(x).value <= ParseInt(r).value)
  {
    var years := data[IntToString(program)];
    var lower := YearsUpTo(years, year);
    if exists x :: x in years && ParseInt(x).value <= year {
      var x :| x in years && ParseInt(x).value <= year;
      assert x in lower;
    }
  }

  /** The two versions fail alike. */
  lemma ProperYearSameErrors(data: map<string, seq<string>>, program: int, year: int)
    ensures ProperYear(data, program, year).Err? <==> ProperYearNumeric(data, program, year).Err?
    ensures ProperYear(data, program, year).Err? ==>
      ProperYear(data, program, year) == ProperYearNumeric(data, program, year)
  {
  }

  /** Year keys that are digit strings of one common length. */
  predicate UniformYears(years: seq<string>)
  {
    (forall i :: 0 <= i < |years| ==> |years[i]| > 0 && AllDigits(years[i])) &&
    (forall i, j :: 0 <= i < |years| && 0 <= j < |years| ==> |years[i]| == |years[j]|)
  }

  lemma UniformYearsParse(years: seq<string>)
    requires UniformYears(years)
    ensures YearsParse(years)
    ensures forall x :: x in years ==> ParseInt(x) == Ok(ParseDigits(x) as int)
  {
    forall x | x in years ensures ParseInt(x) == Ok(ParseDigits(x) as int) {
      ParseIntDigits(x);
    }
  }

  lemma UniformSubset(years: seq<string>, sub: seq<string>)
    requires UniformYears(years) && |years| > 0
    requires forall x :: x in sub ==> x in years
    ensures UniformYears(sub)
  {
    forall i | 0 <= i < |sub| ensures |sub[i]| > 0 && AllDigits(sub[i]) {
      assert sub[i] in years;
    }
    forall i, j | 0 <= i < |sub| && 0 <= j < |sub| ensures |sub[i]| == |sub[j]| {
      assert sub[i] in years && sub[j] in years;
    }
  }

  /** On years of one length, the first string-greatest key is the first
      numerically greatest. */
  lemma MaxStringIsMaxYear(xs: seq<string>)
    requires |xs| > 0 && UniformYears(xs)
    ensures YearsParse(xs) && MaxString(xs) == MaxYear(xs)
  {
    UniformYearsParse(xs);
    var s, y := MaxString(xs), MaxYear(xs);
    assert s in xs && y in xs;
    assert |s| == |y|;
    StrLtDigits(y, s);
    StrEqDigits(y, s);
    assert StrLe(y, s);
    assert ParseInt(s).value <= ParseInt(y).value;
  }

  /** With four-digit (or any uniform-length) year keys the string maximum
      is the numeric one, so the source's behaviour is the intended one. */
  lemma ProperYearAgreesOnUniformYears(data: map<string, seq<string>>, program: int, year: int)
    requires ProgramExists(data, program) && UniformYears(data[IntToString(program)])
    ensures ProperYear(data, program, year) == ProperYearNumeric(data, program, year)
  {
    var years := data[IntToString(program)];
    UniformYearsParse(years);
    var lower := YearsUpTo(years, year);
    if |lower| > 0 {
      UniformSubset(years, lower);
      MaxStringIsMaxYear(lower);
    } else if |years| > 0 {
      MaxStringIsMaxYear(years);
    }
  }

  /** Keys of different lengths: "999" is the string maximum of
      {"999", "2019"} although 2019 is the later year not after 2020. */
  lemma ProperYearStringMaxCounterexample()
    ensures ProperYear(map["1" := ["999", "2019"]], 1, 2020) == Ok("999")
    ensures ProperYearNumeric(map["1" := ["999", "2019"]], 1, 2020) == Ok("2019")
  {
    var years := ["999", "2019"];
    assert IntToString(1) == "1";
    ParseIntDigits("999");
    ParseIntDigits("2019");
    assert "999"[..2] == "99" && "99"[..1] == "9";
    assert "2019"[..3] == "201" && "201"[..2] == "20" && "20"[..1] == "2";
    assert ParseInt("999") == Ok(999);
    assert ParseInt("2019") == Ok(2019);
    assert years[1..] == ["2019"];
    assert YearsUpTo(years, 2020) == years;
    assert StrLt("2019", "999");
    assert !StrLt("999", "2019");
  }

  // ---- get_all_points ----

  /** The courses kept are exactly those not excluded. */
  lemma {:induction false} NotExcludedMembers(filterNot: seq<Criterion>, cs: seq<Course>)
    ensures forall c :: c in NotExcluded(filterNot, cs) <==> c in cs && !Excluded(filterNot, c)
  {
    if cs != [] {
      NotExcludedMembers(filterNot, cs[1..]);
      assert forall c :: c in cs <==> c == cs[0] || c in cs[1..];
    }
  }

  /** An excluded course changes nothing: appending it keeps the filtered list. */
  lemma {:induction false} ExcludedCourseIgnored(filterNot: seq<Criterion>, cs: seq<Course>, c: Course)
    requires Excluded(filterNot, c)
    ensures NotExcluded(filterNot, cs + [c]) == NotExcluded(filterNot, cs)
  {
    if cs == [] {
      assert [c][1..] == [];
    } else {
      assert (cs + [c])[1..] == cs[1..] + [c];
      ExcludedCourseIgnored(filterNot, cs[1..], c);
    }
  }

  /** A course of a type without a cap earns all its points. */
  lemma UncappedCourseEarnsAll(limits: map<int, int>, cs: seq<Course>, c: Course)
    requires c.courseType !in limits
    ensures CappedPoints(limits, cs + [c]) == CappedPoints(limits, cs) + c.points
  {
    assert (cs + [c])[..|cs|] == cs;
  }

  /** What the courses of a capped type add is what that type has used. */
  lemma {:induction false} TypeContributionIsUsed(limits: map<int, int>, cs: seq<Course>, t: int)
    requires t in limits
    ensures TypeContribution(limits, cs, t) == UsedAfter(limits, cs)[t]
  {
    if cs != [] {
      TypeContributionIsUsed(limits, cs[..|cs| - 1], t);
    }
  }

  /** A non-negative cap is never exceeded, whatever the points. */
  lemma {:induction false} CapRespected(limits: map<int, int>, cs: seq<Course>, t: int)
    requires t in limits && limits[t] >= 0
    ensures TypeContribution(limits, cs, t) <= limits[t]
  {
    TypeContributionIsUsed(limits, cs, t);
    UsedBelowCap(limits, cs, t);
  }

  lemma {:induction false} UsedBelowCap(limits: map<int, int>, cs: seq<Course>, t: int)
    requires t in limits && limits[t] >= 0
    ensures UsedAfter(limits, cs)[t] <= limits[t]
  {
    if cs != [] {
      UsedBelowCap(limits, cs[..|cs| - 1], t);
    }
  }

  /** With non-negative points, a type earns its points up to its cap. */
  lemma {:induction false} CapExact(limits: map<int, int>, cs: seq<Course>, t: int)
    requires t in limits && limits[t] >= 0
    requires forall i :: 0 <= i < |cs| ==> cs[i].points >= 0
    ensures UsedAfter(limits, cs)[t] == Min(limits[t], TypePoints(cs, t))
  {
    if cs != [] {
      CapExact(limits, cs[..|cs| - 1], t);
    }
  }

  /** The sum over the listed types of what each earns. */
  function ContributionOver(limits: map<int, int>, cs: seq<Course>, ts: seq<int>): int
  {
    if ts == [] then 0
    else ContributionOver(limits, cs, ts[..|ts| - 1]) + TypeContribution(limits, cs, ts[|ts| - 1])
  }

  /** The sum over the listed types of their points up to their caps. */
  function CappedOver(limits: map<int, int>, cs: seq<Course>, ts: seq<int>): int
    requires forall k :: 0 <= k < |ts| ==> ts[k] in limits
  {
    if ts == [] then 0
    else CappedOver(limits, cs, ts[..|ts| - 1]) + Min(limits[ts[|ts| - 1]], TypePoints(cs, ts[|ts| - 1]))
  }

  predicate Distinct(ts: seq<int>)
  {
    forall i, j :: 0 <= i < j < |ts| ==> ts[i] != ts[j]
  }

  lemma {:induction false} ContributionOverStep(limits: map<int, int>, cs: seq<Course>, c: Course, ts: seq<int>)
    requires Distinct(ts)
    ensures ContributionOver(limits, cs + [c], ts) ==
      ContributionOver(limits, cs, ts) +
      (if c.courseType in ts then Added(limits, UsedAfter(limits, cs), c) else 0)
  {
    assert (cs + [c])[..|cs|] == cs;
    if ts != [] {
      var init := ts[..|ts| - 1];
      assert forall x :: x in ts <==> x in init || x == ts[|ts| - 1];
      ContributionOverStep(limits, cs, c, init);
    }
  }

  lemma {:induction false} ContributionOverIsCapped(limits: map<int, int>, cs: seq<Course>, ts: seq<int>)
    requires forall k :: 0 <= k < |ts| ==> ts[k] in limits && limits[ts[k]] >= 0
    requires forall i :: 0 <= i < |cs| ==> cs[i].points >= 0
    ensures ContributionOver(limits, cs, ts) == CappedOver(limits, cs, ts)
  {
    if ts != [] {
      ContributionOverIsCapped(limits, cs, ts[..|ts| - 1]);
      TypeContributionIsUsed(limits, cs, ts[|ts| - 1]);
      CapExact(limits, cs, ts[|ts| - 1]);
    }
  }

  lemma {:induction false} CappedAsContributions(limits: map<int, int>, cs: seq<Course>, ts: seq<int>)
    requires Distinct(ts) && forall t :: t in limits <==> t in ts
    ensures CappedPoints(limits, cs) == UncappedPoints(limits, cs) + ContributionOver(limits, cs, ts)
  {
    if cs == [] {
      ContributionOverNone(limits, ts);
    } else {
      var init, c := cs[..|cs| - 1], cs[|cs| - 1];
      CappedAsContributions(limits, init, ts);
      assert init + [c] == cs;
      ContributionOverStep(limits, init, c, ts);
    }
  }

  lemma {:induction false} ContributionOverNone(limits: map<int, int>, ts: seq<int>)
    ensures ContributionOver(limits, [], ts) == 0
  {
    if ts != [] { ContributionOverNone(limits, ts[..|ts| - 1]); }
  }

  /** The points `get_all_points` counts, with non-negative points and caps,
      listing each capped type once in `ts`: the full points of the uncapped
      types plus, for every capped type, its points up to its cap. */
  lemma AllPointsDecomposition(limits: map<int, int>, cs: seq<Course>, ts: seq<int>)
    requires Distinct(ts) && forall t :: t in limits <==> t in ts
    requires forall t :: t in limits ==> limits[t] >= 0
    requires forall i :: 0 <= i < |cs| ==> cs[i].points >= 0
    ensures forall k :: 0 <= k < |ts| ==> ts[k] in limits
    ensures CappedPoints(limits, cs) == UncappedPoints(limits, cs) + CappedOver(limits, cs, ts)
  {
    assert forall k :: 0 <= k < |ts| ==> ts[k] in ts;
    CappedAsContributions(limits, cs, ts);
    ContributionOverIsCapped(limits, cs, ts);
  }

  /** Without caps every course earns its full points. */
  lemma {:induction false} NoCapsPlainSum(cs: seq<Course>)
    ensures CappedPoints(map[], cs) == UncappedPoints(map[], cs)
  {
    if cs != [] { NoCapsPlainSum(cs[..|cs| - 1]); }
  }

  // ---- get_points_sum ----

  /** The number of criteria of the filter a course meets. */
  function MatchCount(filter: seq<Criterion>, c: Course): nat
  {
    if filter == [] then 0
    else MatchCount(filter[..|filter| - 1], c) + (if Matches(filter[|filter| - 1], c) then 1 else 0)
  }

  /** Every course's points, once per criterion it meets. */
  function WeightedPoints(filter: seq<Criterion>, cs: seq<Course>): int
  {
    if cs == [] then 0
    else WeightedPoints(filter, cs[..|cs| - 1]) + cs[|cs| - 1].points * MatchCount(filter, cs[|cs| - 1])
  }

  predicate NoTypeCriterion(filter: seq<Criterion>)
  {
    forall k :: 0 <= k < |filter| ==> filter[k].table != "type"
  }

  lemma {:induction false} CriteriaStepsCount(limits: map<int, int>, filter: seq<Criterion>, c: Course, st: Tally)
    requires st.used.Keys == limits.Keys && NoTypeCriterion(filter)
    ensures CriteriaSteps(limits, filter, c, st) == Tally(st.sum + c.points * MatchCount(filter, c), st.used)
  {
    if filter != [] {
      CriteriaStepsCount(limits, filter[..|filter| - 1], c, st);
      assert filter[|filter| - 1].table != "type";
    }
  }

  /** Without a 'type' criterion, `get_points_sum` counts a course's points
      once for EVERY criterion it meets: a course listed as a subject and
      carrying a listed tag counts twice. */
  lemma {:induction false} PointsSumCountsEveryMatch(limits: map<int, int>, filter: seq<Criterion>, cs: seq<Course>)
    requires NoTypeCriterion(filter)
    ensures PointsTally(limits, filter, cs).sum == WeightedPoints(filter, cs)
  {
    if cs != [] {
      PointsSumCountsEveryMatch(limits, filter, cs[..|cs| - 1]);
      CriteriaStepsCount(limits, filter, cs[|cs| - 1], PointsTally(limits, filter, cs[..|cs| - 1]));
    }
  }

  /** The courses whose type is listed, in order. */
  function OfTypes(objects: seq<int>, cs: seq<Course>): seq<Course>
  {
    if cs == [] then []
    else OfTypes(objects, cs[..|cs| - 1]) + (if cs[|cs| - 1].courseType in objects then [cs[|cs| - 1]] else [])
  }

  /** With only a 'type' criterion, `get_points_sum` is `get_all_points`'s
      capped sum over the courses of the listed types. */
  lemma {:induction false} TypeOnlyPointsSumIsCapped(limits: map<int, int>, objects: seq<int>, cs: seq<Course>)
    ensures PointsTally(limits, [Criterion("type", objects)], cs) ==
      Tally(CappedPoints(limits, OfTypes(objects, cs)), UsedAfter(limits, OfTypes(objects, cs)))
  {
    var filter := [Criterion("type", objects)];
    if cs != [] {
      var init, c := cs[..|cs| - 1], cs[|cs| - 1];
      TypeOnlyPointsSumIsCapped(limits, objects, init);
      assert filter[..0] == [];
      var sub := OfTypes(objects, init);
      var st := PointsTally(limits, filter, init);
      assert PointsTally(limits, filter, cs) == CriteriaSteps(limits, filter, c, st);
      assert CriteriaSteps(limits, filter[..0], c, st) == st;
      assert PointsTally(limits, filter, cs) == CriterionStep(limits, filter[0], c, st);
      if c.courseType in objects {
        assert OfTypes(objects, cs) == sub + [c];
        assert (sub + [c])[..|sub|] == sub;
        assert CappedPoints(limits, sub + [c]) == CappedPoints(limits, sub) + Added(limits, UsedAfter(limits, sub), c);
        assert UsedAfter(limits, sub + [c]) == Use(limits, UsedAfter(limits, sub), c);
      } else {
        assert OfTypes(objects, cs) == sub;
      }
    }
  }

  /** `is_passed` and `get_points_sum` agree: with positive points and no
      'type' criterion, the points sum is positive exactly when some course
      meets some criterion. */
  lemma {:induction false} PositiveSumIffSomeMatch(filter: seq<Criterion>, cs: seq<Course>)
    requires forall i :: 0 <= i < |cs| ==> cs[i].points > 0
    ensures WeightedPoints(filter, cs) >= 0
    ensures WeightedPoints(filter, cs) > 0 <==>
      exists i, j :: 0 <= i < |cs| && 0 <= j < |filter| && Matches(filter[j], cs[i])
  {
    if cs != [] {
      var init, c := cs[..|cs| - 1], cs[|cs| - 1];
      PositiveSumIffSomeMatch(filter, init);
      MatchCountPositive(filter, c);
      assert c.points * MatchCount(filter, c) >= 0;
      assert c.points * MatchCount(filter, c) > 0 <==> MatchCount(filter, c) > 0;
      if exists i, j :: 0 <= i < |cs| && 0 <= j < |filter| && Matches(filter[j], cs[i]) {
        var i, j :| 0 <= i < |cs| && 0 <= j < |filter| && Matches(filter[j], cs[i]);
        if i < |init| { assert init[i] == cs[i]; }
      }
      if exists i, j :: 0 <= i < |init| && 0 <= j < |filter| && Matches(filter[j], init[i]) {
        var i, j :| 0 <= i < |init| && 0 <= j < |filter| && Matches(filter[j], init[i]);
        assert cs[i] == init[i];
      }
    }
  }

  lemma {:induction false} MatchCountPositive(filter: seq<Criterion>, c: Course)
    ensures MatchCount(filter, c) > 0 <==> exists j :: 0 <= j < |filter| && Matches(filter[j], c)
  {
    if filter != [] {
      var init := filter[..|filter| - 1];
      MatchCountPositive(init, c);
      if exists j :: 0 <= j < |filter| && Matches(filter[j], c) {
        var j :| 0 <= j < |filter| && Matches(filter[j], c);
        if j < |init| { assert init[j] == filter[j]; }
      }
      if exists j :: 0 <= j < |init| && Matches(init[j], c) {
        var j :| 0 <= j < |init| && Matches(init[j], c);
        assert filter[j] == init[j];
      }
    }
  }
}
