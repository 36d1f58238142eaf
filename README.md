# zapisy core logic in Dafny

This project models the deterministic core of zapisy. zapisy is the course
enrolment system of a university computer science institute. The model
covers seven pieces:

- **Scheduler import** (`SchedulerSync`). The Scheduler's config and task
  records become a list of `SchTerm` records:
  - a group with no result is dropped;
  - the start hour is the minimum over the group's slots and the end hour
    the maximum;
  - the day number is shifted by one;
  - rooms are deduplicated;
  - group-type letters are translated through the fixed table.

  The teacher, course and classroom sets are then derived. `SchedulerData`
  is a class: `lay_out_scheduler_data` updates its fields in place.
- **Study-requirement points** (`Effects`).
  - `program_exists` and `proper_year_for_program`.
  - The capped sum `get_all_points`, with `filterNot` exclusions and a
    per-course-type cap.
  - The per-criterion sum `get_points_sum`.
  - The predicate `is_passed`.

  The caller's `limit` dictionary gains an empty `'type'` table when it has
  none. It is a `Limits` object that both sums modify.
- **Thesis status** (`Theses`).
  - The student-limit validation `clean`.
  - The status rewriting of `ThesisForm.save` and `EditThesisForm.save`.
  - The `auto_accept` vote-threshold signal.

  Theses and forms are classes whose `save` methods change the thesis in
  place.
- **Weekly reservations** (`Reservations`). The script that copies each
  standing reservation of the current year into an event with one term per
  week. Dates are day numbers, with day 0 a Monday.
- **Student lists** (`StudentLists`).
  - The enrolled and queued lists of `get_students_from_data`.
  - The deduplicate, exclude and sort core of `recorded_students_csv` and
    `course_queue_csv`.
  - The visibility predicate for a group's students.
  - The course lookup and class-type filter of
    `get_all_group_ids_for_course_slug`.
- **Defect image formset** (`DefectForm`). The counter and queue of free
  form positions that the "new image" button consumes.
- **Filter and defect stores** (`TimetableFilters`, `DefectFilters`,
  `DefectStore`). A map of filters whose conjunction decides visibility, and
  the index-wise overwrite `setDefects`.

Each module has a companion `...Properties` module holding the lemmas
about it. `Common` holds `Option`, `Result`, the error kinds (`KeyError`,
`IndexError`, `ValueError`, `MultipleObjectsReturned`) and small list
helpers. `Text` models Python's `str()` and `int()` on integers and its
string ordering. `NameOrder` models `sorted` with a (last name, first name)
key.

Python exceptions become `Err(...)` results, or an `Option<Error>` that ends
a loop.

## Model

| member | source | states |
|---|---|---|
| Text.ParseIntToString | zapisy/apps/effects/utils.py:19 | `int(str(i)) == i`: the decimal text of a program id parses back to it |
| Text.StrLtDigits | zapisy/apps/effects/utils.py:50-52 | on digit strings of equal length, Python's string order agrees with numeric order |
| Text.MaxString | zapisy/apps/effects/utils.py:50-52 | `max` over strings returns a member that no other member exceeds in string order |
| SchedulerSync.TranslateDayOfWeek | zapisy/apps/schedulersync/scheduler_data.py:122-124 | the result is the decimal text of scheduler day + 1 |
| SchedulerSync.EarliestStart | zapisy/apps/schedulersync/scheduler_data.py:126-129 | the start hour is attained by some slot and is at most every slot's start hour |
| SchedulerSync.LatestEnd | zapisy/apps/schedulersync/scheduler_data.py:131-134 | the end hour is attained by some slot and is at least every slot's end hour |
| SchedulerSync.HourToTime | zapisy/apps/schedulersync/scheduler_data.py:129 | `time(hour=h)` succeeds exactly for 0 <= h < 24 and fails with ValueError otherwise |
| SchedulerSync.TranslateGroupType | zapisy/apps/schedulersync/scheduler_data.py:18-28 | a letter in the table maps to its group type; any other letter is a KeyError |
| SchedulerSync.MapTerms | zapisy/apps/schedulersync/scheduler_data.py:189-191 | the keys are exactly the slot ids |
| SchedulerSync.SchedulerData.constructor | zapisy/apps/schedulersync/scheduler_data.py:100-111 | terms, teachers, courses, classrooms and the two scheduler maps all start empty |
| SchedulerSync.SchedulerData.MapSchedulerTypes | zapisy/apps/schedulersync/scheduler_data.py:113-159 | the result is the mapping of the group against the stored results and slots |
| SchedulerSync.SchedulerData.MapTeachersNames | zapisy/apps/schedulersync/scheduler_data.py:193-203 | the loop builds the teacher-name map of the filtered teachers |
| SchedulerSync.SchedulerData.LayOut | zapisy/apps/schedulersync/scheduler_data.py:179-218 | stores the results and slot map and appends the imported terms to `terms`; on success teachers, courses and classrooms are derived from them; on an error the error is returned |
| SchedulerSync.SchedulerData.ImportTerms | zapisy/apps/schedulersync/scheduler_data.py:207-214 | the loop appends the imported terms in order and collects their teachers; the first exception ends it and is returned; the other fields are untouched |
| SchedulerSync.SlotsErrorStays | zapisy/apps/schedulersync/scheduler_data.py:146-148 | a missing slot ends the collection of a group's slots |
| SchedulerSync.ImportErrorStays | zapisy/apps/schedulersync/scheduler_data.py:210-214 | an exception while mapping one group ends the import loop |
| SchedulerSyncProperties.SlotsOfOk | zapisy/apps/schedulersync/scheduler_data.py:146-148 | on success there is one slot per result, each being that result's slot |
| SchedulerSyncProperties.SlotsOfMissing | zapisy/apps/schedulersync/scheduler_data.py:148 | a result naming an undefined slot is a KeyError |
| SchedulerSyncProperties.SlotsOfErrorIsKeyError | zapisy/apps/schedulersync/scheduler_data.py:148 | the only way slot collection fails is a KeyError |
| SchedulerSyncProperties.SlotsOfErrorStaysOk | zapisy/apps/schedulersync/scheduler_data.py:146-148 | when every result names a defined slot, slot collection succeeds |
| SchedulerSyncProperties.DistinctRoomsCorrect | zapisy/apps/schedulersync/scheduler_data.py:144-147 | the classrooms list holds each room of the results exactly once and nothing else |
| SchedulerSyncProperties.UnscheduledImportsNothing | zapisy/apps/schedulersync/tests/test_scheduler_data.py:118-126 | with no results no group yields a term, and terms, teachers, courses and classrooms stay empty |
| SchedulerSyncProperties.MappedTerm | zapisy/apps/schedulersync/scheduler_data.py:140-159 | an imported group has results, all with defined slots; its term has the group's id, first teacher, course, translated type, limit, the first slot's day + 1, the min start and max end hours, and deduplicated rooms |
| SchedulerSyncProperties.MapGroupBuilds | zapisy/apps/schedulersync/scheduler_data.py:140-149 | a group that yields a term has results whose slots are all defined, and the term is built from them |
| SchedulerSyncProperties.BuiltTerm | zapisy/apps/schedulersync/scheduler_data.py:149-159 | a built term has the parsed id, the first teacher, the course, the translated type, the limit, the first slot's day + 1, hours in 0..23 that are the min start and max end, and the given rooms |
| SchedulerSyncProperties.UndefinedSlotIsKeyError | zapisy/apps/schedulersync/tests/test_scheduler_data.py:128-137 | a group scheduled in an undefined slot makes the mapping fail with KeyError |
| SchedulerSyncProperties.UnknownGroupTypeIsKeyError | zapisy/apps/schedulersync/scheduler_data.py:136-138 | an unknown group-type letter makes the mapping fail with KeyError |
| SchedulerSyncProperties.MapTermsLastWins | zapisy/apps/schedulersync/scheduler_data.py:191 | a slot id maps to the last slot with that id |
| SchedulerSyncProperties.TeacherNamesCorrect | zapisy/apps/schedulersync/scheduler_data.py:193-203 | the map's keys are exactly the filtered teachers' ids, and each value is some such teacher's "first last" |
| SchedulerSyncProperties.TeacherNamesDistinct | zapisy/apps/schedulersync/scheduler_data.py:196-202 | with distinct ids, each filtered teacher maps to their own full name |
| SchedulerSyncProperties.StandardDataExample | zapisy/apps/schedulersync/tests/test_scheduler_data.py:87-111 | group 122 placed in the slots 116 and 117 becomes one Tuesday project term from 16 to 18 in room 108 |
| SchedulerSyncProperties.StandardGroupId | zapisy/apps/schedulersync/scheduler_data.py:150 | the group id "122" parses to 122 |
| Effects.YearsUpTo | zapisy/apps/effects/utils.py:47 | keeps exactly the year keys that parse to at most the requested year |
| Effects.ProperYear | zapisy/apps/effects/utils.py:43-54 | KeyError exactly when the program is missing; ValueError exactly when a key does not parse or there is no key at all |
| Effects.MaxYear | zapisy/apps/effects/utils.py:50-52 | a member of the list, numerically at least every other member |
| Effects.Limits.constructor | zapisy/apps/effects/utils.py:109 | the object holds the caller's limit tables |
| Effects.Limits.EnsureTypeTable | zapisy/apps/effects/utils.py:124-125 | adds an empty `'type'` table when it is missing and changes nothing else |
| Effects.SumCapped | zapisy/apps/effects/utils.py:127-142 | the loop's sum is the capped sum of the specification |
| Effects.GetAllPoints | zapisy/apps/effects/utils.py:109-142 | `limit` gains the `'type'` table when missing, and the result is the capped sum over the courses no `filterNot` entry excludes |
| Effects.ApplyFilterNotIsNotExcluded | zapisy/apps/effects/utils.py:114-122 | applying the exclusion lists one after another keeps exactly the courses no entry excludes |
| Effects.GetPointsSum | zapisy/apps/effects/utils.py:145-177 | `limit` gains the `'type'` table when missing, and the result is the per-criterion tally |
| Effects.SumByCriteria | zapisy/apps/effects/utils.py:150-175 | the nested loops compute the per-criterion tally |
| Effects.IsPassed | zapisy/apps/effects/utils.py:180-205 | true iff some completed course matches some criterion of the filter |
| Effects.ProgramExists | zapisy/apps/effects/utils.py:18-19 | a program exists only if some key of the data parses to its number; `PaddedKeyNotFound` shows the converse fails |
| EffectsProperties.PaddedKeyNotFound | zapisy/apps/effects/utils.py:19 | the lookup compares strings: key "07" does not make program 7 exist |
| EffectsProperties.ProperYearAsWritten | zapisy/apps/effects/utils.py:47-52 | the result is a key: the string-greatest key not after the year, or the string-greatest key when none is |
| EffectsProperties.ProperYearNumericLatest | zapisy/apps/effects/utils.py:43-54 | corrected selection: the numerically latest year not after the requested one, or the latest overall when none is |
| EffectsProperties.ProperYearSameErrors | zapisy/apps/effects/utils.py:43-54 | the written and corrected selections fail on the same inputs with the same errors |
| EffectsProperties.MaxStringIsMaxYear | zapisy/apps/effects/utils.py:50-52 | on year keys of one length, the string max is the numeric max |
| EffectsProperties.ProperYearAgreesOnUniformYears | zapisy/apps/effects/utils.py:43-54 | when all year keys have the same number of digits, the written and corrected selections agree |
| EffectsProperties.ProperYearStringMaxCounterexample | zapisy/apps/effects/utils.py:47-52 | keys "999" and "2019" with year 2020 select "999"; numeric selection gives "2019" |
| EffectsProperties.NotExcludedMembers | zapisy/apps/effects/utils.py:114-122 | a course survives the exclusions iff it is completed and no entry excludes it |
| EffectsProperties.ExcludedCourseIgnored | zapisy/apps/effects/utils.py:114-122 | an excluded course contributes nothing |
| EffectsProperties.UncappedCourseEarnsAll | zapisy/apps/effects/utils.py:139-140 | a course whose type has no cap adds all its points |
| EffectsProperties.TypeContributionIsUsed | zapisy/apps/effects/utils.py:135-138 | the points a capped type contributes are what `used_limits` records for it |
| EffectsProperties.CapRespected | zapisy/apps/effects/utils.py:135-138 | a type with cap L contributes at most L |
| EffectsProperties.UsedBelowCap | zapisy/apps/effects/utils.py:136-137 | the used amount of a type never exceeds its cap |
| EffectsProperties.CapExact | zapisy/apps/effects/utils.py:135-138 | with non-negative points, a type contributes exactly min(L, its total points) |
| EffectsProperties.ContributionOverIsCapped | zapisy/apps/effects/utils.py:132-140 | the sum of the capped types' contributions is the sum of min(L, type total) |
| EffectsProperties.CappedAsContributions | zapisy/apps/effects/utils.py:132-140 | the capped sum splits into the uncapped courses' points plus the capped types' contributions |
| EffectsProperties.AllPointsDecomposition | zapisy/apps/effects/utils.py:132-140 | the result is the uncapped courses' points plus, per capped type, min(cap, type total) |
| EffectsProperties.NoCapsPlainSum | zapisy/apps/effects/utils.py:139-140 | with no caps the result is the plain sum of points |
| EffectsProperties.CriteriaStepsCount | zapisy/apps/effects/utils.py:157-175 | without a type criterion, a course adds its points once per matching criterion |
| EffectsProperties.PointsSumCountsEveryMatch | zapisy/apps/effects/utils.py:155-175 | without a type criterion, the sum counts each course once per criterion it matches, so a course matching two tables counts twice |
| EffectsProperties.TypeOnlyPointsSumIsCapped | zapisy/apps/effects/utils.py:161-169 | with only a type criterion, the sum is the capped sum over the courses of the listed types |
| EffectsProperties.PositiveSumIffSomeMatch | zapisy/apps/effects/utils.py:155-205 | with positive points and no type criterion, the sum is positive iff some course matches some criterion, which is `is_passed` |
| EffectsProperties.MatchCountPositive | zapisy/apps/effects/utils.py:185-201 | a course counts at least once iff it matches some criterion |
| Theses.Clean | zapisy/apps/theses/forms.py:78-84 | accepts when the students fit the limit or neither field changed; rejects when a field changed and the students exceed the limit |
| Theses.NewStatus | zapisy/apps/theses/forms.py:126-127 | a non-staff author always gets BEING_EVALUATED; staff keep the submitted status |
| Theses.EditedStatus | zapisy/apps/theses/forms.py:178-188 | staff keep the submitted status; non-staff: returned becomes being evaluated, accepted with students becomes in progress, in progress without students becomes accepted, and otherwise the status read when the form was built is kept |
| Theses.AutoAcceptedStatus | zapisy/apps/theses/signals.py:15-19 | an accepting vote at or over the threshold gives ACCEPTED with no students or IN_PROGRESS with students; otherwise the status is kept |
| Theses.Thesis.constructor | zapisy/apps/theses/forms.py:123 | an unsaved thesis with the given status, students and limit |
| Theses.Thesis.Save | zapisy/apps/theses/forms.py:129 | the stored row becomes the object's fields, which do not change |
| Theses.ThesisForm.constructor | zapisy/apps/theses/forms.py:88-89 | the form keeps the author's staff flag and the submission |
| Theses.ThesisForm.Save | zapisy/apps/theses/forms.py:122-132 | ValueError iff `clean` rejects; otherwise a new thesis with the submitted fields, the status rule, `added` set, and stored |
| Theses.EditThesisForm.constructor | zapisy/apps/theses/forms.py:136-139 | the form captures the instance's status when it is built |
| Theses.EditThesisForm.Save | zapisy/apps/theses/forms.py:174-194 | ValueError iff `clean` rejects; otherwise the instance gets `modified` and the edited status; with commit it takes the submitted students and is stored; without commit nothing is stored |
| Theses.AutoAccept | zapisy/apps/theses/signals.py:9-20 | the thesis status follows the vote rule; it is stored only when the rule fires |
| ThesesProperties.EditNeverAccepts | zapisy/apps/theses/forms.py:178-188 | a non-staff edit of a thesis neither accepted nor in progress never makes it accepted or in progress |
| ThesesProperties.EditIdempotent | zapisy/apps/theses/forms.py:178-188 | a second non-staff edit with the same data keeps the status of the first |
| ThesesProperties.VotesDecideStatus | zapisy/apps/theses/signals.py:15-19 | after a series of votes the status is accepted or in progress once the accepting votes reach the threshold, and is unchanged otherwise |
| ThesesProperties.FourVotesAccept | zapisy/apps/theses/tests/test_status.py:44-75 | four accepting votes with four required give ACCEPTED without students and IN_PROGRESS with students |
| ThesesProperties.ThreeVotesDoNotAccept | zapisy/apps/theses/signals.py:15 | three accepting votes out of four cast, with four required, change nothing |
| ThesesProperties.AtLimitAccepted | zapisy/apps/theses/tests/test_status.py:121-131 | exactly the maximum number of students passes `clean` |
| Reservations.Weekday | zapisy/scripts/move_reservation.py:38 | `weekday()` lies in 0..6 |
| Reservations.FirstTermDayAsWritten | zapisy/scripts/move_reservation.py:38-39 | fails with ValueError iff the day code does not parse |
| Reservations.FirstTermDay | zapisy/scripts/move_reservation.py:38-39 | corrected first day: fails with ValueError iff the day code does not parse |
| Reservations.EventFor | zapisy/scripts/move_reservation.py:24-31 | the event has the reservation's title, the fixed description and author, and is a visible accepted special reservation |
| Reservations.TermOn | zapisy/scripts/move_reservation.py:41-49 | the term has the day, the reservation's times, its classroom as room, its title as place, and ignores conflicts |
| Reservations.TermsOn | zapisy/scripts/move_reservation.py:40-51 | one term per day, in order |
| Reservations.Selected | zapisy/scripts/move_reservation.py:19-20 | keeps exactly the reservations of the current year |
| Reservations.Offset | zapisy/scripts/move_reservation.py:10-16 | the offset is day − t or day − t + 7, so it is congruent to day − t modulo 7; for day and t in 0..6 it is in 0..6 |
| Reservations.MoveAll | zapisy/scripts/move_reservation.py:22-51 | without an error every reservation is moved; an error stops the run after an event that got no terms |
| Reservations.MoveAllRecords | zapisy/scripts/move_reservation.py:22-51 | record i of the run is what moving reservation i creates |
| Reservations.MoveAllErrors | zapisy/scripts/move_reservation.py:22-51 | every reservation before the last record moved without an error; an error is the one the last moved reservation raised; without one, no reservation raised any |
| Reservations.MoveReservation | zapisy/scripts/move_reservation.py:24-51 | the loop, with the offset of line 38 as written, yields the event and the weekly terms from `FirstTermDayAsWritten` |
| Reservations.Run | zapisy/scripts/move_reservation.py:18-51 | the script as written moves the current year's reservations in order, stopping at the first error |
| Reservations.ErrorEndsRun | zapisy/scripts/move_reservation.py:38 | after the first error nothing further is moved |
| ReservationsProperties.OffsetSameDay | zapisy/scripts/move_reservation.py:15-16 | `offset(d, d) == 0` |
| ReservationsProperties.OffsetReachesWeekday | zapisy/scripts/move_reservation.py:38-39 | adding the offset to a start day lands on the requested weekday |
| ReservationsProperties.FirstTermDayOnItsWeekday | zapisy/scripts/move_reservation.py:38-39 | corrected: for day codes 1..7 the first term falls on that weekday, within the first week of lectures |
| ReservationsProperties.FirstTermDayAsWrittenWeekday | zapisy/scripts/move_reservation.py:38-39 | as written, for day codes 1..7 the first term falls on weekday number code mod 7 (the day after the reservation's own), within the first eight days of lectures |
| ReservationsProperties.FirstTermDayAsWrittenIsADayLate | zapisy/scripts/move_reservation.py:38 | as written, for day codes 1..7 the first term day is the corrected one plus 1, or minus 6 exactly when the code equals the start's weekday number; its weekday is the corrected one's plus 1 mod 7 |
| ReservationsProperties.WeeklyDaysBounds | zapisy/scripts/move_reservation.py:40 | the days start at the first day and never pass the semester end |
| ReservationsProperties.WeeklyDaysSpacing | zapisy/scripts/move_reservation.py:51 | the k-th day is the first day plus 7k |
| ReservationsProperties.WeeklyDaysComplete | zapisy/scripts/move_reservation.py:40-51 | the step after the last day would pass the end; no days iff the first day is past the end |
| ReservationsProperties.WeeklyDaysSameWeekday | zapisy/scripts/move_reservation.py:40-51 | every generated day falls on the same weekday |
| ReservationsProperties.MovedTerms | zapisy/scripts/move_reservation.py:38-51 | as written, a reservation with an integer day code gets its event and one term a week from the first term day to the end of lectures, each in its room with its times and ignoring conflicts; for codes 1..7 the terms fall on weekday code mod 7, from the start of lectures |
| ReservationsProperties.MovedTermsCorrected | zapisy/scripts/move_reservation.py:38-51 | with the corrected first day (`MoveOfCorrected`), the terms fall on the reservation's own weekday, within the semester, a week apart |
| ReservationsProperties.NoTermsPastTheEnd | zapisy/scripts/move_reservation.py:40 | as written, a first term day past the end of lectures gives an event with no terms |
| NameOrder.KeyLeTotal | zapisy/apps/enrollment/courses/views.py:172 | tuples of strings are totally ordered |
| NameOrder.KeyLeTransitive | zapisy/apps/enrollment/courses/views.py:172 | the tuple order is transitive |
| NameOrder.Sort | zapisy/apps/enrollment/courses/views.py:171-172 | `sorted` returns a permutation of its input (same multiset, same members) and keeps distinct elements distinct |
| NameOrder.SortSorted | zapisy/apps/enrollment/courses/views.py:171-172 | the result of `sorted` is ordered by the key |
| StudentLists.AddNew | zapisy/apps/enrollment/courses/views.py:178 | `set.update`: the members are the old ones and the added ones, without duplicates |
| StudentLists.Outside | zapisy/apps/enrollment/courses/views.py:180-184 | keeps exactly the students not in the exclusion list |
| StudentLists.GatheredMembers | zapisy/apps/enrollment/courses/views.py:177-178 | the enrolled set holds every student of every enrolled group once |
| StudentLists.GatheredOutsideMembers | zapisy/apps/enrollment/courses/views.py:179-184 | the queue set holds every queued student not enrolled, once |
| StudentLists.GetStudentsFromData | zapisy/apps/enrollment/courses/views.py:167-189 | both lists are sorted by (last, first) and free of duplicates; the first holds exactly the enrolled students, the second exactly the queued students who are not enrolled |
| StudentLists.RecordedStudentsCsv | zapisy/apps/enrollment/courses/views.py:268-279 | the loops build the CSV rows of the specification |
| StudentLists.CsvFileName | zapisy/apps/enrollment/courses/views.py:282-284 | "course-NAME-STATUS.csv" when a name is given, "group-ID-STATUS.csv" for the first group id otherwise, and IndexError with neither |
| StudentLists.UnionOf | zapisy/apps/enrollment/courses/views.py:346-348 | the enrolled set holds exactly the students of the groups |
| StudentLists.CourseQueueCsv | zapisy/apps/enrollment/courses/views.py:337-356 | the queue export is the CSV of the queued groups excluding every enrolled student |
| StudentLists.CanViewStudentsList | zapisy/apps/enrollment/courses/views.py:227-231 | true iff the user is an employee and not an external contractor, or is the group's teacher |
| StudentLists.GroupIdsOfType | zapisy/apps/enrollment/courses/views.py:324 | the ids of exactly the groups of the class type; all groups when none is given |
| StudentLists.WithSlug | zapisy/apps/enrollment/courses/views.py:314-315 | keeps exactly the courses with the slug |
| StudentLists.WithSlugSeveral | zapisy/apps/enrollment/courses/views.py:314-318 | more than one course has the slug iff two positions of the course list carry it |
| StudentLists.CourseGroupIds | zapisy/apps/enrollment/courses/views.py:310-324 | `Ok(None)` iff no course has the slug; `Err(MultipleObjectsReturned)` iff two courses have it; so exactly one course gives the course, its short name or else its name, and the filtered group ids |
| StudentListsProperties.FlatMembers | zapisy/apps/enrollment/courses/views.py:271-272 | the flattened groups hold exactly the students of the groups |
| StudentListsProperties.CollectedIsFlat | zapisy/apps/enrollment/courses/views.py:271-278 | collecting group by group is collecting the flattened list |
| StudentListsProperties.CollectGroupEntry | zapisy/apps/enrollment/courses/views.py:272-278 | a matricula is a key iff some student not excluded has it, and its value is the details of the last such student |
| StudentListsProperties.CsvRowsSorted | zapisy/apps/enrollment/courses/views.py:279 | the rows are ordered by (last name, first name) |
| StudentListsProperties.CsvRowsOnePerMatricula | zapisy/apps/enrollment/courses/views.py:274-290 | no matricula has two rows |
| StudentListsProperties.CsvRowsComplete | zapisy/apps/enrollment/courses/views.py:271-290 | every student of the groups who is not excluded has a row with their matricula |
| StudentListsProperties.CsvRowsLastRecordWins | zapisy/apps/enrollment/courses/views.py:274-278 | each row carries the name and email of the last student, in group order, who has its matricula and is not excluded |
| StudentListsProperties.CsvRowSource | zapisy/apps/enrollment/courses/views.py:272-274 | each row's matricula belongs to a student of the groups who is not excluded |
| StudentListsProperties.CsvRowsOmitExcluded | zapisy/apps/enrollment/courses/views.py:273 | an excluded student whose matricula no other student shares gets no row |
| StudentListsProperties.QueueCsvExcludesEnrolled | zapisy/apps/enrollment/courses/views.py:344-355 | when matriculas identify students, no queue row belongs to an enrolled student, and every queued student enrolled nowhere has a row |
| StudentListsProperties.LaterRecordWins | zapisy/apps/enrollment/courses/views.py:274 | a later student with the same matricula overrides the earlier details |
| DefectForm.ImageFormset.constructor | zapisy/apps/defect/assets/defect_form.js:6-14 | counter, limit and extra count are 0 and the queue is empty |
| DefectForm.ImageFormset.Initialise | zapisy/apps/defect/assets/defect_form.js:46-63 | the limit is the total, the counter is total − extra or 1 when that is 0, and the positions from the counter to the last form are appended in order |
| DefectForm.ImageFormset.NewImageClick | zapisy/apps/defect/assets/defect_form.js:17-32 | the new state and the revealed position are those of one press |
| DefectFormProperties.InitialState | zapisy/apps/defect/assets/defect_form.js:46-63 | with 0 <= extra <= total and total >= 1 the state is valid, at least one form is shown, counter + queue length = total, and the queue is ascending and holds exactly the positions after the counter |
| DefectFormProperties.ClickPreservesValid | zapisy/apps/defect/assets/defect_form.js:17-32 | a press keeps the queue equal to the positions from the counter to the limit, so counter + queue length stays the limit |
| DefectFormProperties.ClickAtMaxChangesNothing | zapisy/apps/defect/assets/defect_form.js:19 | with every form shown a press changes nothing |
| DefectFormProperties.ClickRevealsSmallest | zapisy/apps/defect/assets/defect_form.js:23-27 | otherwise the counter goes up by one and the smallest free position is revealed and leaves the queue |
| DefectFormProperties.ClickShows | zapisy/apps/defect/assets/defect_form.js:19-27 | from a valid state a press reveals the counter's position when forms remain, and nothing otherwise |
| DefectFormProperties.EmptyQueueStillCounts | zapisy/apps/defect/assets/defect_form.js:21-23 | the emptiness guard tests an array object, which is truthy, so an empty queue does not stop the counter |
| DefectFormProperties.ClicksCounter | zapisy/apps/defect/assets/defect_form.js:17-32 | after n presses from a valid state the counter is min(counter + n, limit): it never passes the limit |
| DefectFormProperties.ShownPositions | zapisy/apps/defect/assets/defect_form.js:17-32 | n presses reveal the free positions in ascending order, each once |
| DefectFormProperties.NoFormsCounterRuns | zapisy/apps/defect/assets/defect_form.js:54-56 | with no forms the counter starts at 1, above the limit 0, and every press raises it |
| Filters.Without | zapisy/apps/enrollment/timetable/assets/store/filters.ts:28 | the map without one key keeps every other entry |
| Filters.Accepted | zapisy/apps/enrollment/timetable/assets/store/filters.ts:20-22 | an item is accepted iff running the registered filters one by one, in any listing of their keys, finds every one accepting it |
| Filters.EveryOfAnyListing | zapisy/apps/enrollment/timetable/assets/store/filters.ts:21 | `every` over the filters' values gives the same answer whatever order the keys are listed in |
| TimetableFilters.FilterStore.Visible | zapisy/apps/enrollment/timetable/assets/store/filters.ts:20-22 | a course is visible iff every registered filter, in any listing, accepts it |
| DefectFilters.FilterStore.Visible | zapisy/apps/defect/assets/store/filters.ts:18-20 | a defect is visible iff every registered filter, in any listing, accepts it |
| FiltersProperties.RegisterReplaces | zapisy/apps/enrollment/timetable/assets/store/filters.ts:20-29 | after registering f under k, an item is visible iff the other filters and f all accept it |
| FiltersProperties.RegisterFreshNarrows | zapisy/apps/defect/assets/store/filters.ts:17-27 | registering under a new key shows exactly what was shown and f accepts, so nothing hidden appears |
| FiltersProperties.ReRegisterSameFilter | zapisy/apps/enrollment/timetable/assets/store/filters.ts:26-29 | registering the filter already under a key changes nothing visible |
| FiltersProperties.NothingRegisteredShowsAll | zapisy/apps/enrollment/timetable/assets/store/filters.ts:14-22 | with no filter every item is visible |
| TimetableFilters.FilterStore.constructor | zapisy/apps/enrollment/timetable/assets/store/filters.ts:14-16 | the store starts with no filter |
| TimetableFilters.FilterStore.RegisterFilter | zapisy/apps/enrollment/timetable/assets/store/filters.ts:27-29 | the entry for k becomes f; other keys are untouched |
| TimetableFilters.FilterStore.ClearFilters | zapisy/apps/enrollment/timetable/assets/store/filters.ts:31-34 | the filters do not change |
| DefectFilters.FilterStore.constructor | zapisy/apps/defect/assets/store/filters.ts:12-14 | the store starts with no filter |
| DefectFilters.FilterStore.RegisterFilter | zapisy/apps/defect/assets/store/filters.ts:25-27 | the entry for k becomes f; other keys are untouched |
| DefectStore.Store.constructor | zapisy/apps/defect/assets/store/defects.ts:24-26 | the store starts with no defects |
| DefectStore.Store.SetDefects | zapisy/apps/defect/assets/store/defects.ts:44-48 | the array becomes the index-wise overwrite of the old one by the new defects |
| DefectStoreProperties.OverwriteEntries | zapisy/apps/defect/assets/store/defects.ts:44-48 | indices below the new length hold the new defects, later ones keep their old values, and the length is the larger of the two |
| DefectStoreProperties.OverwriteClosedForm | zapisy/apps/defect/assets/store/defects.ts:44-48 | the result is the new defects followed by the old entries past their end |
| DefectStoreProperties.OverwriteIdempotent | zapisy/apps/defect/assets/store/defects.ts:44-48 | setting the same defects twice equals setting them once |
| DefectStoreProperties.OverwriteLonger | zapisy/apps/defect/assets/store/defects.ts:45-47 | a list at least as long as the store replaces it entirely |

## Left out

- `fetch_data_from_scheduler` and `get_scheduler_data`: HTTP login and JSON download. The config and task records are parameters of `LayOut`.
- The scheduler's `time` values are whole hours. Minutes never occur, because only the `hour` field of a slot is read.
- Python set order. `list(rooms)` and the order in which sets are iterated are unspecified. The model keeps first-occurrence order, and no contract depends on it.
- `int()` accepts surrounding whitespace, underscores and non-ASCII digits. `Text.ParseInt` accepts only an optional sign followed by ASCII digits.
- `load_requirements_file`, `load_list_of_programs_and_years`, `load_studies_requirements` and `requirements`: file reading and ORM lookups around the year selection.
- Django ORM records (`record.course`, `course.effects.all()`, `course.tags.all()`). The model uses plain `Course` values: the offer, course type, points, effect ids and tag ids.
- Effects.IsPassed: the source's break statements make it stop early. The result is stated, but the early stop is not.
- Effects.GetPointsSum: a filter table other than subject, type, effect or tag is ignored. The model represents a criterion by its table name, so such tables simply match nothing.
- Database persistence of theses. `instance.save()` is modelled as copying the fields into `stored`. `save_m2m` is the `students` assignment on commit. `ThesisForm.save` always saves, whatever `commit` is, as the source does.
- Django form validation other than `clean`. Also left out: `construct_instance`, which builds the instance while the form validates, and the `ValueError` raised by `save` on an invalid form. `Save` returns `Err(ValueError)` when `clean` rejects.
- `enums.py` is not part of this model. Statuses other than the four the rules name are `OtherStatus(code)`.
- `get_accepted_votes`, `get_num_required_votes` and `has_no_students_assigned` are not part of this model. The first two are parameters. The last is "the students list is empty".
- `is_external_contractor(user)` and `user.employee` are fields of `User`.
- Reservations: the `Event` and `Term` models and their `save` are not part of this model. Saving is building `NewEvent` and `NewTerm` values, and `User.objects.get(username='asm')` is the constant author. Dates are day numbers, with day 0 a Monday.
- Reservations.Run: an exception from `int(dayOfWeek)` surfaces from the script after the event has already been saved. The model records it as the error that ends the run.
- `recorded_students_csv` also builds the `HttpResponse` and encodes the CSV. The model stops at the rows and the file name.
- `get_group_data` is not part of this model. Its result is given as the groups' student lists.
- StudentLists.CourseGroupIds: the source returns the pair `(None, None)` for a missing course, which callers unpack into three names and fail on. The model returns `Ok(None)` there and does not model the callers' failure.
- NameOrder.Sort: Python's `sorted` is stable. The model's insertion sort is stable too, but no contract states stability.
- The DOM and jQuery calls of `defect_form.js`: showing forms, clearing labels and binding handlers. `parseInt` returning NaN is also left out: the two numbers are integers.
- `saveEvent` and `deleteImage` in `defect_form.js`, which only submit forms.
- Vue and Vuex reactivity and the subscriptions `clearFilters` notifies. Filters are pure predicates, and `every` over `values(filters)` is the conjunction over the map's entries, whose order does not matter.
- `courses.ts` is not part of this model, so the timetable store takes the course type as a parameter.
- The `defects` getter sorts by a field the records do not have. `initFromJSONTag` reads the DOM. Both are left out.
- `defects.ts` declares its own `DefectInfo` without `state_id`. The store never looks inside the records, so the model uses the `models.ts` shape for both.

## Findings

| source | as written | input that shows it | evidently intended | confidence | as-written member | corrected member |
|---|---|---|---|---|---|---|
| zapisy/apps/effects/utils.py:47-52 | `max(years_lower)` and `max(years)` compare the year keys as strings | program 1 with year keys "999" and "2019", requested year 2020: "999" is selected | the latest year not after the requested one, compared as numbers (the filter on line 47 already compares numbers) | not executed; low, since real keys are four-digit years, where both agree (`ProperYearAgreesOnUniformYears`) | EffectsProperties.ProperYearStringMaxCounterexample | Effects.ProperYearNumeric |
| zapisy/scripts/move_reservation.py:38 | `offset(int(reservation.dayOfWeek), semester_start.weekday())` mixes the 1-based day codes (Monday is "1", as `translate_day_of_week` and the scheduler test's Tuesday "2" show) with the 0-based `weekday()` | a Monday reservation (code "1") in a semester whose lectures begin on a Monday: the first term is on the Tuesday | the first term on the reservation's own weekday, i.e. `offset(int(dayOfWeek) - 1, weekday())` | not executed; medium | ReservationsProperties.FirstTermDayAsWrittenIsADayLate | Reservations.FirstTermDay |

`MoveOf`, `MoveReservation`, `Run` and `ReservationsProperties.MovedTerms`
follow the script as written. The corrected `FirstTermDay` is used by
`MoveOfCorrected`, and `ReservationsProperties.MovedTermsCorrected` proves
the intended weekday property about it. `ProperYearNumericLatest` proves
the intended property of `ProperYearNumeric`. The written `ProperYear` is
kept beside it, and `ProperYearSameErrors` and
`ProperYearAgreesOnUniformYears` relate the two.
