/** The layer between the Scheduler's JSON output and the enrollment system:
    the 'config' file (teachers, groups, pre-defined time slots) and the
    'task' file (the room and time slot each group was given) are laid out
    as a list of `SchTerm` records, plus the teachers, courses and rooms
    those records mention. */
module SchedulerSync {
  import opened Common
  import opened Text

  /** Group types of the enrollment system. */
  datatype GroupType =
    | Lecture | Compendium | Exercises | Lab | ExercisesLab
    | Seminar | Project | Tutoring | ProSeminar

  /** The Scheduler's one-letter group types and the enrollment system's
      type each one stands for. */
  const GroupTypes: map<string, GroupType> := map[
    "w" := Lecture,
    "e" := Compendium,
    "c" := Exercises,
    "p" := Lab,
    "r" := ExercisesLab,
    "s" := Seminar,
    "o" := Project,
    "t" := Tutoring,
    "m" := ProSeminar
  ]

  // ---- The Scheduler's JSON, as far as it is read ----

  /** A pre-defined (usually hour-long) time slot; only the hours are read. */
  datatype TimeSlot = TimeSlot(id: string, day: int, startHour: int, endHour: int)

  datatype SchedulerGroup = SchedulerGroup(
    id: string, course: string, groupType: string, studentsNum: int, teachers: seq<string>)

  datatype SchedulerTeacher = SchedulerTeacher(id: string, firstName: string, lastName: string)

  datatype Config = Config(
    teachers: seq<SchedulerTeacher>, groups: seq<SchedulerGroup>, terms: seq<TimeSlot>)

  /** One placement of a group: a room and the id of a time slot. */
  datatype Placement = Placement(room: string, term: string)

  /** The 'task' file reduced to its `timetable.results`: group id to placements. */
  datatype Task = Task(results: map<string, seq<Placement>>)

  /** A single term imported from the Scheduler. Times are whole hours. */
  datatype SchTerm = SchTerm(
    schedulerId: int, teacher: string, course: string, groupType: GroupType,
    limit: int, dayOfWeek: string, startHour: int, endHour: int,
    classrooms: seq<string>)

  // ---- The helpers of `_map_scheduler_types` ----

  /** Scheduler days (Monday = 0) to the enrollment system's day strings
      (Monday = "1"). */
  function TranslateDayOfWeek(schedulerDay: int): (d: string)
    ensures ParseInt(d) == Ok(schedulerDay + 1)
  {
    ParseIntToString(schedulerDay + 1);
    IntToString(schedulerDay + 1)
  }

  /** The earliest start hour among the slots. */
  function EarliestStart(slots: seq<TimeSlot>): (h: int)
    requires |slots| > 0
    ensures exists i :: 0 <= i < |slots| && slots[i].startHour == h
    ensures forall i :: 0 <= i < |slots| ==> h <= slots[i].startHour
  {
    if |slots| == 1 then slots[0].startHour
    else
      var rest := EarliestStart(slots[1..]);
      assert forall i :: 1 <= i < |slots| ==> slots[i] == slots[1..][i - 1];
      if slots[0].startHour <= rest then slots[0].startHour else rest
  }

  /** The latest end hour among the slots. */
  function LatestEnd(slots: seq<TimeSlot>): (h: int)
    requires |slots| > 0
    ensures exists i :: 0 <= i < |slots| && slots[i].endHour == h
    ensures forall i :: 0 <= i < |slots| ==> slots[i].endHour <= h
  {
    if |slots| == 1 then slots[0].endHour
    else
      var rest := LatestEnd(slots[1..]);
      assert forall i :: 1 <= i < |slots| ==> slots[i] == slots[1..][i - 1];
      if slots[0].endHour >= rest then slots[0].endHour else rest
  }

  /** `time(hour=h)`: Python accepts only hours 0..23. */
  function HourToTime(h: int): (r: Result<int>)
    ensures r.Ok? <==> 0 <= h < 24
    ensures r.Ok? ==> r.value == h
    ensures r.Err? ==> r.error == ValueError
  {
    if 0 <= h < 24 then Ok(h) else Err(ValueError)
  }

  /** `GROUP_TYPES[t]`; an unknown letter is a KeyError. */
  function TranslateGroupType(t: string): (r: Result<GroupType>)
    ensures r.Ok? <==> t in GroupTypes
    ensures r.Ok? ==> r.value == GroupTypes[t]
    ensures r.Err? ==> r.error == KeyError
  {
    if t in GroupTypes then Ok(GroupTypes[t]) else Err(KeyError)
  }

  // ---- Specification of `_map_scheduler_types` ----

  /** The rooms of the placements, each once, in order of first appearance
      (the `rooms` set of the source). */
  function DistinctRooms(ps: seq<Placement>): seq<string>
  {
    if ps == [] then []
    else
      var prior := DistinctRooms(ps[..|ps| - 1]);
      if ps[|ps| - 1].room in prior then prior else prior + [ps[|ps| - 1].room]
  }

  /** The time slots the placements name, in order; the first id that is not
      a slot is a KeyError. */
  function SlotsOf(ps: seq<Placement>, slotMap: map<string, TimeSlot>): Result<seq<TimeSlot>>
  {
    if ps == [] then Ok([])
    else match SlotsOf(ps[..|ps| - 1], slotMap)
      case Err(e) => Err(e)
      case Ok(prior) =>
        if ps[|ps| - 1].term in slotMap then Ok(prior + [slotMap[ps[|ps| - 1].term]])
        else Err(KeyError)
  }

  /** The `SchTerm(...)` construction, its arguments evaluated in the order
      the source writes them. */
  function BuildTerm(g: SchedulerGroup, rooms: seq<string>, slots: seq<TimeSlot>): Result<Option<SchTerm>>
  {
    match ParseInt(g.id)
    case Err(e) => Err(e)
    case Ok(sid) =>
      if |g.teachers| == 0 then Err(IndexError)
      else match TranslateGroupType(g.groupType)
        case Err(e) => Err(e)
        case Ok(gt) =>
          if |slots| == 0 then Err(IndexError)
          else match HourToTime(EarliestStart(slots))
            case Err(e) => Err(e)
            case Ok(start) =>
              match HourToTime(LatestEnd(slots))
              case Err(e) => Err(e)
              case Ok(end) =>
                Ok(Some(SchTerm(sid, g.teachers[0], g.course, gt, g.studentsNum,
                                TranslateDayOfWeek(slots[0].day), start, end, rooms)))
  }

  /** What `_map_scheduler_types` returns for a group: None when the group
      has no placements, otherwise the term or the exception raised. */
  function MapGroup(results: map<string, seq<Placement>>, slotMap: map<string, TimeSlot>,
                    g: SchedulerGroup): Result<Option<SchTerm>>
  {
    if g.id !in results then Ok(None)
    else match SlotsOf(results[g.id], slotMap)
      case Err(e) => Err(e)
      case Ok(slots) => BuildTerm(g, DistinctRooms(results[g.id]), slots)
  }

  // ---- Specification of `lay_out_scheduler_data` ----

  /** `map_terms`: slot id to slot; a later slot with the same id wins. */
  function MapTerms(slots: seq<TimeSlot>): (m: map<string, TimeSlot>)
    ensures m.Keys == set i | 0 <= i < |slots| :: slots[i].id
  {
    if slots == [] then map[]
    else MapTerms(slots[..|slots| - 1])[slots[|slots| - 1].id := slots[|slots| - 1]]
  }

  function FullName(t: SchedulerTeacher): string { t.firstName + " " + t.lastName }

  /** `map_teachers_names`: the names of the teachers whose id is in the
      filter; a later teacher with the same id wins. */
  function TeacherNames(teachers: seq<SchedulerTeacher>, filter: set<string>): map<string, string>
  {
    if teachers == [] then map[]
    else
      var prior := TeacherNames(teachers[..|teachers| - 1], filter);
      var t := teachers[|teachers| - 1];
      if t.id in filter then prior[t.id := FullName(t)] else prior
  }

  /** The outcome of importing a list of groups: the terms produced before
      the first exception, and that exception if there was one. */
  datatype Import = Import(terms: seq<SchTerm>, error: Option<Error>)

  function ImportGroups(results: map<string, seq<Placement>>, slotMap: map<string, TimeSlot>,
                        groups: seq<SchedulerGroup>): Import
  {
    if groups == [] then Import([], None)
    else
      var prior := ImportGroups(results, slotMap, groups[..|groups| - 1]);
      if prior.error.Some? then prior
      else match MapGroup(results, slotMap, groups[|groups| - 1])
        case Err(e) => Import(prior.terms, Some(e))
        case Ok(None) => prior
        case Ok(Some(t)) => Import(prior.terms + [t], None)
  }

  function TeachersOf(terms: seq<SchTerm>): set<string>
  {
    set i | 0 <= i < |terms| :: terms[i].teacher
  }

  function CoursesOf(terms: seq<SchTerm>): set<string>
  {
    set i | 0 <= i < |terms| :: terms[i].course
  }

  function ClassroomsOf(terms: seq<SchTerm>): set<string>
  {
    set i, j | 0 <= i < |terms| && 0 <= j < |terms[i].classrooms| :: terms[i].classrooms[j]
  }

  /** The object that holds the laid-out data. */
  class SchedulerData {
    var terms: seq<SchTerm>
    var teachers: map<string, string>
    var courses: set<string>
    var classrooms: set<string>
    var schedulerResults: map<string, seq<Placement>>
    var schedulerTerms: map<string, TimeSlot>

    /** A fresh object: everything empty (credentials are not modelled). */
    constructor ()
      ensures terms == [] && teachers == map[] && courses == {} && classrooms == {}
      ensures schedulerResults == map[] && schedulerTerms == map[]
    {
      terms, teachers, courses, classrooms := [], map[], {}, {};
      schedulerResults, schedulerTerms := map[], map[];
    }

    /** `_map_scheduler_types`: collects a group's rooms and time slots from
        the stored results and slots, then builds its term. */
    method MapSchedulerTypes(group: SchedulerGroup) returns (r: Result<Option<SchTerm>>)
      ensures r == MapGroup(schedulerResults, schedulerTerms, group)
    {
      if group.id !in schedulerResults {
        return Ok(None);
      }
      var placements := schedulerResults[group.id];
      var rooms: seq<string> := [];
      var slots: seq<TimeSlot> := [];
      for i := 0 to |placements|
        invariant rooms == DistinctRooms(placements[..i])
        invariant SlotsOf(placements[..i], schedulerTerms) == Ok(slots)
      {
        assert placements[..i + 1][..i] == placements[..i];
        if placements[i].room !in rooms {
          rooms := rooms + [placements[i].room];
        }
        if placements[i].term !in schedulerTerms {
          SlotsErrorStays(placements, schedulerTerms, i + 1);
          return Err(KeyError);
        }
        slots := slots + [schedulerTerms[placements[i].term]];
      }
      assert placements[..|placements|] == placements;
      r := BuildTerm(group, rooms, slots);
    }

    /** `map_teachers_names`. */
    static method MapTeachersNames(ts: seq<SchedulerTeacher>, filter: set<string>)
      returns (data: map<string, string>)
      ensures data == TeacherNames(ts, filter)
    {
      data := map[];
      for i := 0 to |ts|
        invariant data == TeacherNames(ts[..i], filter)
      {
        assert ts[..i + 1][..i] == ts[..i];
        if ts[i].id in filter {
          data := data[ts[i].id := FullName(ts[i])];
        }
      }
      assert ts[..|ts|] == ts;
    }

    /** `lay_out_scheduler_data`. The imported terms are APPENDED to
        `terms`; courses and classrooms are then rebuilt from all of `terms`,
        teachers only from the terms of this call. On an exception the terms
        imported before it stay appended and the three derived fields keep
        their old values; `err` is the exception. */
    method LayOut(config: Config, task: Task) returns (err: Option<Error>)
      modifies this
      ensures schedulerResults == task.results
      ensures schedulerTerms == MapTerms(config.terms)
      ensures err == ImportGroups(task.results, schedulerTerms, config.groups).error
      ensures terms == old(terms) + ImportGroups(task.results, schedulerTerms, config.groups).terms
      ensures err.None? ==>
        && teachers == TeacherNames(config.teachers,
                                    TeachersOf(ImportGroups(task.results, schedulerTerms, config.groups).terms))
        && courses == CoursesOf(terms)
        && classrooms == ClassroomsOf(terms)
      ensures err.Some? ==>
        teachers == old(teachers) && courses == old(courses) && classrooms == old(classrooms)
    {
      schedulerResults := task.results;
      schedulerTerms := MapTerms(config.terms);
      var activeTeachers;
      err, activeTeachers := ImportTerms(config.groups);
      if err.Some? {
        return;
      }
      teachers := MapTeachersNames(config.teachers, activeTeachers);
      courses := CoursesOf(terms);
      classrooms := ClassroomsOf(terms);
    }

    /** The loop of `lay_out_scheduler_data` over the groups: each group's
        term, if any, is appended, and the first exception ends the loop. */
    method ImportTerms(groups: seq<SchedulerGroup>) returns (err: Option<Error>, activeTeachers: set<string>)
      modifies this
      ensures var imported := ImportGroups(schedulerResults, schedulerTerms, groups);
        && err == imported.error
        && terms == old(terms) + imported.terms
        && (err.None? ==> activeTeachers == TeachersOf(imported.terms))
      ensures schedulerResults == old(schedulerResults) && schedulerTerms == old(schedulerTerms)
      ensures teachers == old(teachers) && courses == old(courses) && classrooms == old(classrooms)
    {
      ghost var R, M := schedulerResults, schedulerTerms;
      activeTeachers := {};
      for i := 0 to |groups|
        invariant schedulerResults == R && schedulerTerms == M
        invariant ImportGroups(R, M, groups[..i]).error == None
        invariant terms == old(terms) + ImportGroups(R, M, groups[..i]).terms
        invariant activeTeachers == TeachersOf(ImportGroups(R, M, groups[..i]).terms)
        invariant teachers == old(teachers) && courses == old(courses) && classrooms == old(classrooms)
      {
        ghost var prior := ImportGroups(R, M, groups[..i]).terms;
        var term := MapSchedulerTypes(groups[i]);
        ImportStep(R, M, groups, i, term);
        if term.Err? {
          ImportErrorStays(R, M, groups, i + 1);
          return Some(term.error), activeTeachers;
        }
        if term.value.Some? {
          terms := terms + [term.value.value];
          activeTeachers := activeTeachers + {term.value.value.teacher};
          TeachersOfAppend(prior, term.value.value);
        }
      }
      assert groups[..|groups|] == groups;
      err := None;
    }
  }

  /** Once a prefix of the placements names a missing slot, the whole list
      raises the same KeyError. */
  lemma {:induction false} SlotsErrorStays(ps: seq<Placement>, slotMap: map<string, TimeSlot>, k: nat)
    requires k <= |ps|
    requires SlotsOf(ps[..k], slotMap).Err?
    ensures SlotsOf(ps, slotMap) == SlotsOf(ps[..k], slotMap)
    decreases |ps| - k
  {
    if k < |ps| {
      assert ps[..k + 1][..k] == ps[..k];
      SlotsErrorStays(ps, slotMap, k + 1);
    } else {
      assert ps[..k] == ps;
    }
  }

  lemma TeachersOfAppend(ts: seq<SchTerm>, t: SchTerm)
    ensures TeachersOf(ts + [t]) == TeachersOf(ts) + {t.teacher}
  {
    assert forall i :: 0 <= i < |ts| ==> (ts + [t])[i] == ts[i];
    assert (ts + [t])[|ts|] == t;
  }

  /** One more group: what importing `groups[..i + 1]` adds to `groups[..i]`. */
  lemma ImportStep(results: map<string, seq<Placement>>, slotMap: map<string, TimeSlot>,
                   groups: seq<SchedulerGroup>, i: nat, term: Result<Option<SchTerm>>)
    requires i < |groups|
    requires ImportGroups(results, slotMap, groups[..i]).error == None
    requires term == MapGroup(results, slotMap, groups[i])
    ensures term.Err? ==>
      ImportGroups(results, slotMap, groups[..i + 1]) == Import(ImportGroups(results, slotMap, groups[..i]).terms, Some(term.error))
    ensures term == Ok(None) ==>
      ImportGroups(results, slotMap, groups[..i + 1]) == ImportGroups(results, slotMap, groups[..i])
    ensures term.Ok? && term.value.Some? ==>
      ImportGroups(results, slotMap, groups[..i + 1]) == Import(ImportGroups(results, slotMap, groups[..i]).terms + [term.value.value], None)
  {
    assert groups[..i + 1][..i] == groups[..i];
  }

  /** Once a prefix of the groups has raised, importing more groups changes
      nothing: the exception propagates. */
  lemma {:induction false} ImportErrorStays(results: map<string, seq<Placement>>,
                                            slotMap: map<string, TimeSlot>,
                                            groups: seq<SchedulerGroup>, k: nat)
    requires k <= |groups|
    requires ImportGroups(results, slotMap, groups[..k]).error.Some?
    ensures ImportGroups(results, slotMap, groups) == ImportGroups(results, slotMap, groups[..k])
    decreases |groups| - k
  {
    if k < |groups| {
      assert groups[..k + 1][..k] == groups[..k];
      ImportErrorStays(results, slotMap, groups, k + 1);
    } else {
      assert groups[..k] == groups;
    }
  }
}

/** Properties of the Scheduler import. */
module SchedulerSyncProperties {
  import opened Common
  import opened Text
  import opened SchedulerSync

  lemma {:induction false} SlotsOfOk(ps: seq<Placement>, slotMap: map<string, TimeSlot>)
    requires SlotsOf(ps, slotMap).Ok?
    ensures |SlotsOf(ps, slotMap).value| == |ps|
    ensures forall i :: 0 <= i < |ps| ==>
      ps[i].term in slotMap && SlotsOf(ps, slotMap).value[i] == slotMap[ps[i].term]
  {
    if ps != [] {
      SlotsOfOk(ps[..|ps| - 1], slotMap);
    }
  }

  lemma {:induction false} SlotsOfMissing(ps: seq<Placement>, slotMap: map<string, TimeSlot>, k: nat)
    requires k < |ps| && ps[k].term !in slotMap
    ensures SlotsOf(ps, slotMap) == Err(KeyError)
  {
    if k < |ps| - 1 {
      SlotsOfMissing(ps[..|ps| - 1], slotMap, k);
    } else if SlotsOf(ps[..|ps| - 1], slotMap).Err? {
      SlotsOfErrorIsKeyError(ps[..|ps| - 1], slotMap);
    }
  }

  lemma {:induction false} SlotsOfErrorIsKeyError(ps: seq<Placement>, slotMap: map<string, TimeSlot>)
    requires SlotsOf(ps, slotMap).Err?
    ensures SlotsOf(ps, slotMap) == Err(KeyError)
  {
    if ps != [] && SlotsOf(ps[..|ps| - 1], slotMap).Err? {
      SlotsOfErrorIsKeyError(ps[..|ps| - 1], slotMap);
    }
  }

  /** The `rooms` set: every room once, and exactly the rooms placed. */
  lemma {:induction false} DistinctRoomsCorrect(ps: seq<Placement>)
    ensures forall i, j :: 0 <= i < j < |DistinctRooms(ps)| ==> DistinctRooms(ps)[i] != DistinctRooms(ps)[j]
    ensures forall r :: r in DistinctRooms(ps) <==> exists i :: 0 <= i < |ps| && ps[i].room == r
  {
    if ps != [] {
      var init := ps[..|ps| - 1];
      DistinctRoomsCorrect(init);
      assert forall i :: 0 <= i < |init| ==> init[i] == ps[i];
    }
  }

  /** A group with no entry in the results is not imported; with no results
      at all nothing is imported, no error is raised and no teacher is named. */
  lemma {:induction false} UnscheduledImportsNothing(slotMap: map<string, TimeSlot>,
                                                     groups: seq<SchedulerGroup>,
                                                     teachers: seq<SchedulerTeacher>)
    ensures forall g :: MapGroup(map[], slotMap, g) == Ok(None)
    ensures ImportGroups(map[], slotMap, groups) == Import([], None)
    ensures TeacherNames(teachers, TeachersOf([])) == map[]
    ensures CoursesOf([]) == {} && ClassroomsOf([]) == {}
  {
    if groups != [] {
      UnscheduledImportsNothing(slotMap, groups[..|groups| - 1], teachers);
    }
    if teachers != [] {
      UnscheduledImportsNothing(slotMap, groups, teachers[..|teachers| - 1]);
    }
  }

  /** What an imported term holds: the group's first teacher, its translated
      type and limit, the day of the first placement's slot plus one, the
      earliest start and latest end hour over all its slots, and each of its
      rooms exactly once. */
  lemma MappedTerm(results: map<string, seq<Placement>>, slotMap: map<string, TimeSlot>,
                   g: SchedulerGroup)
    requires MapGroup(results, slotMap, g).Ok? && MapGroup(results, slotMap, g).value.Some?
    ensures g.id in results && |results[g.id]| > 0
    ensures forall p :: p in results[g.id] ==> p.term in slotMap
    ensures var t := MapGroup(results, slotMap, g).value.value;
      var ps := results[g.id];
      && ParseInt(g.id) == Ok(t.schedulerId)
      && |g.teachers| > 0 && t.teacher == g.teachers[0]
      && t.course == g.course
      && g.groupType in GroupTypes && t.groupType == GroupTypes[g.groupType]
      && t.limit == g.studentsNum
      && t.dayOfWeek == IntToString(slotMap[ps[0].term].day + 1)
      && 0 <= t.startHour < 24 && 0 <= t.endHour < 24
      && (exists p :: p in ps && slotMap[p.term].startHour == t.startHour)
      && (forall p :: p in ps ==> t.startHour <= slotMap[p.term].startHour)
      && (exists p :: p in ps && slotMap[p.term].endHour == t.endHour)
      && (forall p :: p in ps ==> slotMap[p.term].endHour <= t.endHour)
      && (forall i, j :: 0 <= i < j < |t.classrooms| ==> t.classrooms[i] != t.classrooms[j])
      && (forall r :: r in t.classrooms <==> exists p :: p in ps && p.room == r)
  {
    MapGroupBuilds(results, slotMap, g);
    var ps := results[g.id];
    var slots := SlotsOf(ps, slotMap).value;
    SlotsOfOk(ps, slotMap);
    BuiltTerm(g, DistinctRooms(ps), slots);
    var t := BuildTerm(g, DistinctRooms(ps), slots).value.value;
    assert MapGroup(results, slotMap, g).value.value == t;
    assert slotMap[ps[0].term] == slots[0];
    SlotHoursBound(ps, slotMap, slots);
    SlotHoursAttained(ps, slotMap, slots);
    RoomsOfPlacements(ps);
  }

  /** A group that yields a term has placements whose slots are all
      defined, and the term is the one `SchTerm(...)` builds from them. */
  lemma {:induction false} MapGroupBuilds(results: map<string, seq<Placement>>, slotMap: map<string, TimeSlot>,
                       g: SchedulerGroup)
    requires MapGroup(results, slotMap, g).Ok? && MapGroup(results, slotMap, g).value.Some?
    ensures g.id in results && SlotsOf(results[g.id], slotMap).Ok?
    ensures MapGroup(results, slotMap, g) ==
      BuildTerm(g, DistinctRooms(results[g.id]), SlotsOf(results[g.id], slotMap).value)
  {
  }

  /** The fields of a term `SchTerm(...)` builds. */
  lemma {:induction false} BuiltTerm(g: SchedulerGroup, rooms: seq<string>, slots: seq<TimeSlot>)
    requires BuildTerm(g, rooms, slots).Ok? && BuildTerm(g, rooms, slots).value.Some?
    ensures var t := BuildTerm(g, rooms, slots).value.value;
      && ParseInt(g.id) == Ok(t.schedulerId)
      && |g.teachers| > 0 && t.teacher == g.teachers[0]
      && t.course == g.course
      && g.groupType in GroupTypes && t.groupType == GroupTypes[g.groupType]
      && t.limit == g.studentsNum
      && |slots| > 0 && t.dayOfWeek == IntToString(slots[0].day + 1)
      && t.startHour == EarliestStart(slots) && t.endHour == LatestEnd(slots)
      && 0 <= t.startHour < 24 && 0 <= t.endHour < 24
      && t.classrooms == rooms
  {
    assert ParseInt(g.id).Ok?;
    assert |g.teachers| > 0;
    assert TranslateGroupType(g.groupType).Ok?;
    assert |slots| > 0;
    assert HourToTime(EarliestStart(slots)).Ok?;
    assert HourToTime(LatestEnd(slots)).Ok?;
  }

  /** Every placement's slot starts no earlier and ends no later than the
      term's hours. */
  lemma {:induction false} SlotHoursBound(ps: seq<Placement>, slotMap: map<string, TimeSlot>, slots: seq<TimeSlot>)
    requires |slots| == |ps| && |ps| > 0
    requires forall i :: 0 <= i < |ps| ==> ps[i].term in slotMap && slots[i] == slotMap[ps[i].term]
    ensures forall p :: p in ps ==> p.term in slotMap
    ensures forall p :: p in ps ==> EarliestStart(slots) <= slotMap[p.term].startHour
    ensures forall p :: p in ps ==> slotMap[p.term].endHour <= LatestEnd(slots)
  {
    forall p | p in ps ensures p.term in slotMap && slotMap[p.term] in slots {
      var i :| 0 <= i < |ps| && ps[i] == p;
      assert slots[i] == slotMap[p.term];
    }
  }

  /** Some placement's slot attains each of the term's hours. */
  lemma {:induction false} SlotHoursAttained(ps: seq<Placement>, slotMap: map<string, TimeSlot>, slots: seq<TimeSlot>)
    requires |slots| == |ps| && |ps| > 0
    requires forall i :: 0 <= i < |ps| ==> ps[i].term in slotMap && slots[i] == slotMap[ps[i].term]
    ensures exists p :: p in ps && p.term in slotMap && slotMap[p.term].startHour == EarliestStart(slots)
    ensures exists p :: p in ps && p.term in slotMap && slotMap[p.term].endHour == LatestEnd(slots)
  {
    var i :| 0 <= i < |slots| && slots[i].startHour == EarliestStart(slots);
    assert ps[i] in ps && slotMap[ps[i].term] == slots[i];
    var j :| 0 <= j < |slots| && slots[j].endHour == LatestEnd(slots);
    assert ps[j] in ps && slotMap[ps[j].term] == slots[j];
  }

  /** The rooms of the placements, stated by membership. */
  lemma {:induction false} RoomsOfPlacements(ps: seq<Placement>)
    ensures var rooms := DistinctRooms(ps);
      && (forall i, j :: 0 <= i < j < |rooms| ==> rooms[i] != rooms[j])
      && (forall r :: r in rooms <==> exists p :: p in ps && p.room == r)
  {
    DistinctRoomsCorrect(ps);
    forall r | r in DistinctRooms(ps) ensures exists p :: p in ps && p.room == r {
      var i :| 0 <= i < |ps| && ps[i].room == r;
      assert ps[i] in ps;
    }
  }

  /** A placement naming an undefined time slot is a KeyError, whatever the
      rest of the group holds. */
  lemma UndefinedSlotIsKeyError(results: map<string, seq<Placement>>, slotMap: map<string, TimeSlot>,
                                g: SchedulerGroup, k: nat)
    requires g.id in results && k < |results[g.id]| && results[g.id][k].term !in slotMap
    ensures MapGroup(results, slotMap, g) == Err(KeyError)
  {
    SlotsOfMissing(results[g.id], slotMap, k);
  }

  /** An unknown group-type letter is a KeyError once the slots, the id and
      the teacher list have been read. */
  lemma UnknownGroupTypeIsKeyError(results: map<string, seq<Placement>>, slotMap: map<string, TimeSlot>,
                                   g: SchedulerGroup)
    requires g.id in results && forall p :: p in results[g.id] ==> p.term in slotMap
    requires ParseInt(g.id).Ok? && |g.teachers| > 0
    requires g.groupType !in GroupTypes
    ensures MapGroup(results, slotMap, g) == Err(KeyError)
  {
    var ps := results[g.id];
    if SlotsOf(ps, slotMap).Err? {
      SlotsOfErrorStaysOk(ps, slotMap);
    }
  }

  lemma {:induction false} SlotsOfErrorStaysOk(ps: seq<Placement>, slotMap: map<string, TimeSlot>)
    requires forall p :: p in ps ==> p.term in slotMap
    ensures SlotsOf(ps, slotMap).Ok?
  {
    if ps != [] {
      assert forall p :: p in ps[..|ps| - 1] ==> p in ps;
      SlotsOfErrorStaysOk(ps[..|ps| - 1], slotMap);
      assert ps[|ps| - 1] in ps;
    }
  }

  /** `map_terms`: every slot id is a key, and a slot not followed by another
      slot with the same id is the value of its id. */
  lemma {:induction false} MapTermsLastWins(slots: seq<TimeSlot>, i: nat)
    requires i < |slots|
    requires forall k :: i < k < |slots| ==> slots[k].id != slots[i].id
    ensures slots[i].id in MapTerms(slots) && MapTerms(slots)[slots[i].id] == slots[i]
  {
    if i < |slots| - 1 {
      MapTermsLastWins(slots[..|slots| - 1], i);
    }
  }

  /** `map_teachers_names`: the keys are exactly the filtered teachers' ids,
      and each value is "first last" of a teacher with that id. */
  lemma {:induction false} TeacherNamesCorrect(ts: seq<SchedulerTeacher>, filter: set<string>)
    ensures forall id :: id in TeacherNames(ts, filter) <==>
      id in filter && exists i :: 0 <= i < |ts| && ts[i].id == id
    ensures forall id :: id in TeacherNames(ts, filter) ==>
      exists i :: 0 <= i < |ts| && ts[i].id == id && TeacherNames(ts, filter)[id] == FullName(ts[i])
  {
    if ts != [] {
      var init := ts[..|ts| - 1];
      TeacherNamesCorrect(init, filter);
      assert forall i :: 0 <= i < |init| ==> init[i] == ts[i];
    }
  }

  /** With distinct teacher ids, each filtered teacher is mapped to its own
      "first last" name. */
  lemma {:induction false} TeacherNamesDistinct(ts: seq<SchedulerTeacher>, filter: set<string>, i: nat)
    requires i < |ts| && ts[i].id in filter
    requires forall j, k :: 0 <= j < k < |ts| ==> ts[j].id != ts[k].id
    ensures ts[i].id in TeacherNames(ts, filter)
    ensures TeacherNames(ts, filter)[ts[i].id] == FullName(ts[i])
  {
    if i < |ts| - 1 {
      TeacherNamesDistinct(ts[..|ts| - 1], filter, i);
    }
  }

  /** The scheduler test's standard case: group 122 placed twice in room 108,
      in the Tuesday slots 16:15-17:00 and 17:15-18:00, becomes one Tuesday
      Project term 16-18 in room 108. */
  lemma StandardDataExample()
    ensures
      var slots := [TimeSlot("8", 0, 8, 9), TimeSlot("9", 0, 9, 10), TimeSlot("10", 0, 10, 11),
                    TimeSlot("11", 0, 11, 12), TimeSlot("116", 1, 16, 17), TimeSlot("117", 1, 17, 18)];
      var g := SchedulerGroup("122", "Lepienie garnkow (lato)", "o", 15, ["bchrobry"]);
      var results := map["122" := [Placement("108", "116"), Placement("108", "117")]];
      MapGroup(results, MapTerms(slots), g) ==
        Ok(Some(SchTerm(122, "bchrobry", "Lepienie garnkow (lato)", Project, 15, "2", 16, 18, ["108"])))
  {
    var slots := [TimeSlot("8", 0, 8, 9), TimeSlot("9", 0, 9, 10), TimeSlot("10", 0, 10, 11),
                  TimeSlot("11", 0, 11, 12), TimeSlot("116", 1, 16, 17), TimeSlot("117", 1, 17, 18)];
    var ps := [Placement("108", "116"), Placement("108", "117")];
    StandardSlotsFound(slots, ps);
    assert DistinctRooms(ps) == ["108"];
    StandardGroupId();
    assert TranslateDayOfWeek(1) == "2";
  }

  /** The two placements of the standard case find their Tuesday slots. */
  lemma {:induction false} StandardSlotsFound(slots: seq<TimeSlot>, ps: seq<Placement>)
    requires slots == [TimeSlot("8", 0, 8, 9), TimeSlot("9", 0, 9, 10), TimeSlot("10", 0, 10, 11),
                       TimeSlot("11", 0, 11, 12), TimeSlot("116", 1, 16, 17), TimeSlot("117", 1, 17, 18)]
    requires ps == [Placement("108", "116"), Placement("108", "117")]
    ensures SlotsOf(ps, MapTerms(slots)) == Ok([TimeSlot("116", 1, 16, 17), TimeSlot("117", 1, 17, 18)])
  {
    var m := MapTerms(slots);
    MapTermsLastWins(slots, 4);
    MapTermsLastWins(slots, 5);
    SlotsOfTwo(ps, m);
  }

  /** Two placements with defined slots give those two slots. */
  lemma {:induction false} SlotsOfTwo(ps: seq<Placement>, m: map<string, TimeSlot>)
    requires |ps| == 2 && ps[0].term in m && ps[1].term in m
    ensures SlotsOf(ps, m) == Ok([m[ps[0].term], m[ps[1].term]])
  {
    var p0 := ps[..1];
    assert p0[..0] == [] && ps[..|ps| - 1] == p0 && p0[0] == ps[0];
    assert SlotsOf(p0[..0], m) == Ok([]);
    assert SlotsOf(p0, m) == Ok([] + [m[ps[0].term]]);
    assert [] + [m[ps[0].term]] == [m[ps[0].term]];
    assert SlotsOf(ps, m) == Ok([m[ps[0].term]] + [m[ps[1].term]]);
    assert [m[ps[0].term]] + [m[ps[1].term]] == [m[ps[0].term], m[ps[1].term]];
  }

  /** The standard case's group id "122" parses to 122. */
  lemma StandardGroupId()
    ensures ParseInt("122") == Ok(122)
  {
    assert "122"[..2] == "12" && "12"[..1] == "1";
    assert AllDigits("122") && ParseDigits("122") == 122;
  }
}
