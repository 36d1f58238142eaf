/** Python's `sorted(..., key=lambda e: (last_name, first_name))`: a stable
    sort by a (last name, first name) key, the key pairs compared as Python
    compares tuples of strings. */
module NameOrder {
  import opened Text

  datatype NameKey = NameKey(last: string, first: string)

  /** Tuple comparison: by last name, then by first name. */
  predicate KeyLt(a: NameKey, b: NameKey)
  {
    StrLt(a.last, b.last) || (a.last == b.last && StrLt(a.first, b.first))
  }

  predicate KeyLe(a: NameKey, b: NameKey) { !KeyLt(b, a) }

  lemma KeyLeReflexive(a: NameKey)
    ensures KeyLe(a, a)
  {
    StrLtIrreflexive(a.last);
    StrLtIrreflexive(a.first);
  }

  lemma KeyLeTotal(a: NameKey, b: NameKey)
    ensures KeyLe(a, b) || KeyLe(b, a)
  {
    if KeyLt(a, b) && KeyLt(b, a) {
      if StrLt(a.last, b.last) {
        StrLtAsymmetric(a.last, b.last);
        StrLtIrreflexive(a.last);
      } else {
        StrLtAsymmetric(a.first, b.first);
        StrLtIrreflexive(a.last);
      }
    }
  }

  lemma KeyLeTransitive(a: NameKey, b: NameKey, c: NameKey)
    requires KeyLe(a, b) && KeyLe(b, c)
    ensures KeyLe(a, c)
  {
    if KeyLt(c, a) {
      StrLtTotal(c.last, b.last);
      StrLtTotal(c.first, b.first);
      if StrLt(c.last, a.last) {
        if StrLt(b.last, c.last) { StrLtTransitive(b.last, c.last, a.last); }
      } else {
        if StrLt(b.last, c.last) {
        } else if b.last == c.last && StrLt(b.first, c.first) {
          StrLtTransitive(b.first, c.first, a.first);
        }
      }
    }
  }

  predicate Sorted<T>(s: seq<T>, key: T -> NameKey)
  {
    forall i, j :: 0 <= i < j < |s| ==> KeyLe(key(s[i]), key(s[j]))
  }

  predicate Distinct<T(==)>(s: seq<T>)
  {
    forall i, j :: 0 <= i < j < |s| ==> s[i] != s[j]
  }

  /** Puts `x` after every element whose key is not greater than its own. */
  function Insert<T(==,!new)>(x: T, s: seq<T>, key: T -> NameKey): (r: seq<T>)
    ensures multiset(r) == multiset(s) + multiset{x}
    ensures forall y :: y in r <==> y == x || y in s
    ensures x !in s && Distinct(s) ==> Distinct(r)
  {
    if s == [] then [x]
    else if KeyLt(key(x), key(s[0])) then
      assert s == [s[0]] + s[1..];
      [x] + s
    else
      assert s == [s[0]] + s[1..];
      assert forall y :: y in s <==> y == s[0] || y in s[1..];
      var rest := Insert(x, s[1..], key);
      assert x !in s && Distinct(s) ==> s[0] !in rest by {
        if x !in s && Distinct(s) {
          assert forall k :: 0 <= k < |s| - 1 ==> s[1..][k] == s[k + 1];
        }
      }
      [s[0]] + rest
  }

  /** `sorted(s, key=key)`: each element is inserted in turn, after the
      equal ones before it. */
  function Sort<T(==,!new)>(s: seq<T>, key: T -> NameKey): (r: seq<T>)
    ensures multiset(r) == multiset(s)
    ensures forall y :: y in r <==> y in s
    ensures Distinct(s) ==> Distinct(r)
  {
    if s == [] then []
    else
      var init := s[..|s| - 1];
      assert s == init + [s[|s| - 1]];
      assert forall y :: y in s <==> y in init || y == s[|s| - 1];
      Insert(s[|s| - 1], Sort(init, key), key)
  }

  lemma {:induction false} InsertSorted<T(!new)>(x: T, s: seq<T>, key: T -> NameKey)
    requires Sorted(s, key)
    ensures Sorted(Insert(x, s, key), key)
  {
    if s != [] {
      if KeyLt(key(x), key(s[0])) {
        var r := [x] + s;
        forall i, j | 0 <= i < j < |r| ensures KeyLe(key(r[i]), key(r[j])) {
          if i == 0 {
            KeyLeTotal(key(x), key(s[0]));
            if j > 1 { KeyLeTransitive(key(x), key(s[0]), key(s[j - 1])); }
          }
        }
      } else {
        InsertSorted(x, s[1..], key);
        var rest := Insert(x, s[1..], key);
        var r := [s[0]] + rest;
        KeyLeTotal(key(x), key(s[0]));
        forall i, j | 0 <= i < j < |r| ensures KeyLe(key(r[i]), key(r[j])) {
          if i == 0 {
            var y := r[j];
            assert y in rest;
            if y == x {
            } else {
              var k :| 1 <= k < |s| && s[k] == y;
            }
          }
        }
      }
    }
  }

  /** `sorted` returns its input ordered by the key. */
  lemma {:induction false} SortSorted<T(!new)>(s: seq<T>, key: T -> NameKey)
    ensures Sorted(Sort(s, key), key)
  {
    if s != [] {
      SortSorted(s[..|s| - 1], key);
      InsertSorted(s[|s| - 1], Sort(s[..|s| - 1], key), key);
    }
  }
}

/** The enrolled and queued student lists of a course or group, and the rows
    of their CSV exports. A group's data is modelled by the list of its
    students; a dictionary of groups by the list of its values in order. */
module StudentLists {
  import opened Common
  import opened Text
  import opened NameOrder

  datatype Student = Student(id: int, matricula: string, firstName: string, lastName: string, email: string)

  function StudentKey(s: Student): NameKey { NameKey(s.lastName, s.firstName) }

  /** `set.update(xs)` on a set kept as the list of its elements in the
      order they were added. */
  function AddNew<T(==,!new)>(acc: seq<T>, xs: seq<T>): (r: seq<T>)
    ensures forall x :: x in r <==> x in acc || x in xs
    ensures Distinct(acc) ==> Distinct(r)
  {
    if xs == [] then acc
    else
      var r0 := AddNew(acc, xs[..|xs| - 1]);
      assert forall x :: x in xs <==> x in xs[..|xs| - 1] || x == xs[|xs| - 1];
      if xs[|xs| - 1] in r0 then r0 else r0 + [xs[|xs| - 1]]
  }

  /** Whether `x` is in one of the groups. */
  predicate InAny<T(==)>(groups: seq<seq<T>>, x: T)
  {
    exists g :: 0 <= g < |groups| && x in groups[g]
  }

  /** The students of the groups, each once. */
  function Gathered(groups: seq<seq<Student>>): seq<Student>
  {
    if groups == [] then [] else AddNew(Gathered(groups[..|groups| - 1]), groups[|groups| - 1])
  }

  /** `[s for s in students if s not in exclude]`. */
  function Outside(students: seq<Student>, exclude: seq<Student>): (r: seq<Student>)
    ensures forall s :: s in r <==> s in students && s !in exclude
  {
    if students == [] then []
    else
      assert forall s :: s in students <==> s == students[0] || s in students[1..];
      (if students[0] in exclude then [] else [students[0]]) + Outside(students[1..], exclude)
  }

  /** The students of the groups that are not in `exclude`, each once. */
  function GatheredOutside(groups: seq<seq<Student>>, exclude: seq<Student>): seq<Student>
  {
    if groups == [] then []
    else AddNew(GatheredOutside(groups[..|groups| - 1], exclude), Outside(groups[|groups| - 1], exclude))
  }

  lemma {:induction false} GatheredMembers(groups: seq<seq<Student>>)
    ensures Distinct(Gathered(groups))
    ensures forall s :: s in Gathered(groups) <==> InAny(groups, s)
  {
    if groups != [] {
      var init := groups[..|groups| - 1];
      GatheredMembers(init);
      forall s ensures InAny(groups, s) <==> InAny(init, s) || s in groups[|groups| - 1] {
        if InAny(groups, s) {
          var g :| 0 <= g < |groups| && s in groups[g];
          if g < |init| { assert init[g] == groups[g]; }
        }
        if InAny(init, s) {
          var g :| 0 <= g < |init| && s in init[g];
          assert groups[g] == init[g];
        }
      }
    }
  }

  lemma {:induction false} GatheredOutsideMembers(groups: seq<seq<Student>>, exclude: seq<Student>)
    ensures Distinct(GatheredOutside(groups, exclude))
    ensures forall s :: s in GatheredOutside(groups, exclude) <==> InAny(groups, s) && s !in exclude
  {
    if groups != [] {
      var init := groups[..|groups| - 1];
      GatheredOutsideMembers(init, exclude);
      forall s ensures InAny(groups, s) <==> InAny(init, s) || s in groups[|groups| - 1] {
        if InAny(groups, s) {
          var g :| 0 <= g < |groups| && s in groups[g];
          if g < |init| { assert init[g] == groups[g]; }
        }
        if InAny(init, s) {
          var g :| 0 <= g < |init| && s in init[g];
          assert groups[g] == init[g];
        }
      }
    }
  }

  /** `get_students_from_data`: the students enrolled in any of the groups,
      and the students queued in any of them but enrolled in none, each list
      without repetitions and sorted by (last name, first name). */
  method GetStudentsFromData(enrolled: seq<seq<Student>>, queued: seq<seq<Student>>)
    returns (inCourse: seq<Student>, inQueue: seq<Student>)
    ensures Sorted(inCourse, StudentKey) && Sorted(inQueue, StudentKey)
    ensures Distinct(inCourse) && Distinct(inQueue)
    ensures forall s :: s in inCourse <==> InAny(enrolled, s)
    ensures forall s :: s in inQueue <==> InAny(queued, s) && !InAny(enrolled, s)
  {
    var course: seq<Student> := [];
    for i := 0 to |enrolled|
      invariant course == Gathered(enrolled[..i])
    {
      assert enrolled[..i + 1][..i] == enrolled[..i];
      course := AddNew(course, enrolled[i]);
    }
    assert enrolled[..|enrolled|] == enrolled;
    GatheredMembers(enrolled);
    var queue: seq<Student> := [];
    for i := 0 to |queued|
      invariant queue == GatheredOutside(queued[..i], course)
    {
      assert queued[..i + 1][..i] == queued[..i];
      queue := AddNew(queue, Outside(queued[i], course));
    }
    assert queued[..|queued|] == queued;
    GatheredOutsideMembers(queued, course);
    inCourse := Sort(course, StudentKey);
    inQueue := Sort(queue, StudentKey);
    SortSorted(course, StudentKey);
    SortSorted(queue, StudentKey);
  }

  // ---- CSV export ----

  datatype Info = Info(firstName: string, lastName: string, email: string)

  /** A dictionary from matricula to the student's details, with its keys
      in insertion order. */
  datatype Dict = Dict(keys: seq<string>, values: map<string, Info>)

  ghost predicate WellFormed(d: Dict)
  {
    Distinct(d.keys) && forall k :: k in d.values <==> k in d.keys
  }

  /** `d[k] = v`: a new key goes last, an existing one keeps its place. */
  function Put(d: Dict, k: string, v: Info): (r: Dict)
    requires WellFormed(d)
    ensures WellFormed(r)
  {
    if k in d.values then Dict(d.keys, d.values[k := v]) else Dict(d.keys + [k], d.values[k := v])
  }

  function InfoOf(s: Student): Info { Info(s.firstName, s.lastName, s.email) }

  /** The inner loop of `recorded_students_csv` over one group's students. */
  function CollectGroup(d: Dict, students: seq<Student>, exclude: set<Student>): (r: Dict)
    requires WellFormed(d)
    ensures WellFormed(r)
  {
    if students == [] then d
    else
      var r0 := CollectGroup(d, students[..|students| - 1], exclude);
      var s := students[|students| - 1];
      if s in exclude then r0 else Put(r0, s.matricula, InfoOf(s))
  }

  /** The dictionary `recorded_students_csv` builds from the groups. */
  function Collected(groups: seq<seq<Student>>, exclude: set<Student>): (r: Dict)
    ensures WellFormed(r)
  {
    if groups == [] then Dict([], map[])
    else CollectGroup(Collected(groups[..|groups| - 1], exclude), groups[|groups| - 1], exclude)
  }

  /** `students.items()`. */
  function Items(keys: seq<string>, values: map<string, Info>): (r: seq<(string, Info)>)
    requires forall k :: k in keys ==> k in values
    ensures |r| == |keys|
    ensures forall i :: 0 <= i < |r| ==> r[i] == (keys[i], values[keys[i]])
  {
    if keys == [] then [] else [(keys[0], values[keys[0]])] + Items(keys[1..], values)
  }

  function ItemKey(item: (string, Info)): NameKey { NameKey(item.1.lastName, item.1.firstName) }

  datatype CsvRow = CsvRow(firstName: string, lastName: string, matricula: string, email: string)

  function RowKey(row: CsvRow): NameKey { NameKey(row.lastName, row.firstName) }

  /** One `writer.writerow` per sorted item. */
  function Rows(items: seq<(string, Info)>): (r: seq<CsvRow>)
    ensures |r| == |items|
    ensures forall i :: 0 <= i < |r| ==>
      r[i] == CsvRow(items[i].1.firstName, items[i].1.lastName, items[i].0, items[i].1.email)
  {
    if items == [] then []
    else [CsvRow(items[0].1.firstName, items[0].1.lastName, items[0].0, items[0].1.email)] + Rows(items[1..])
  }

  /** The rows written by `recorded_students_csv`. */
  function CsvRows(groups: seq<seq<Student>>, exclude: set<Student>): seq<CsvRow>
  {
    var d := Collected(groups, exclude);
    Rows(Sort(Items(d.keys, d.values), ItemKey))
  }

  /** The dedupe, exclude and sort core of `recorded_students_csv`. */
  method RecordedStudentsCsv(groups: seq<seq<Student>>, exclude: set<Student>) returns (rows: seq<CsvRow>)
    ensures rows == CsvRows(groups, exclude)
  {
    var students := Dict([], map[]);
    for i := 0 to |groups|
      invariant students == Collected(groups[..i], exclude)
    {
      assert groups[..i + 1][..i] == groups[..i];
      var group := groups[i];
      ghost var before := students;
      for j := 0 to |group|
        invariant WellFormed(students)
        invariant students == CollectGroup(before, group[..j], exclude)
      {
        assert group[..j + 1][..j] == group[..j];
        var student := group[j];
        if student !in exclude {
          students := Put(students, student.matricula, InfoOf(student));
        }
      }
      assert group[..|group|] == group;
    }
    assert groups[..|groups|] == groups;
    var items := Sort(Items(students.keys, students.values), ItemKey);
    rows := Rows(items);
  }

  /** The name of the exported file. A missing or empty course name names
      the file after the first group, which must exist. */
  function CsvFileName(groupIds: seq<int>, statusLabel: string, courseName: string): (r: Result<string>)
    ensures courseName != "" ==> r == Ok("course-" + courseName + "-" + statusLabel + ".csv")
    ensures courseName == "" && groupIds == [] ==> r == Err(IndexError)
    ensures courseName == "" && groupIds != [] ==>
      r == Ok("group-" + IntToString(groupIds[0]) + "-" + statusLabel + ".csv")
  {
    var kind := if courseName != "" then "course" else "group";
    assert "course" + "-" == "course-" && "group" + "-" == "group-";
    if courseName == "" && groupIds == [] then Err(IndexError)
    else
      var name := if courseName != "" then courseName else IntToString(groupIds[0]);
      Ok(kind + "-" + name + "-" + statusLabel + ".csv")
  }

  /** The students in any of the groups, as a set. */
  function UnionOf(groups: seq<seq<Student>>): (r: set<Student>)
    ensures forall s :: s in r <==> InAny(groups, s)
  {
    if groups == [] then {}
    else
      var init := groups[..|groups| - 1];
      var r0 := UnionOf(init);
      assert forall s :: InAny(groups, s) <==> InAny(init, s) || s in groups[|groups| - 1] by {
        forall s ensures InAny(groups, s) <==> InAny(init, s) || s in groups[|groups| - 1] {
          if InAny(groups, s) {
            var g :| 0 <= g < |groups| && s in groups[g];
            if g < |init| { assert init[g] == groups[g]; }
          }
          if InAny(init, s) {
            var g :| 0 <= g < |init| && s in init[g];
            assert groups[g] == init[g];
          }
        }
      }
      var last := groups[|groups| - 1];
      r0 + set s | s in last
  }

  /** `course_queue_csv`: the rows of the queued students, every student
      enrolled in one of the course's groups left out. */
  method CourseQueueCsv(enrolled: seq<seq<Student>>, queued: seq<seq<Student>>) returns (rows: seq<CsvRow>)
    ensures rows == CsvRows(queued, UnionOf(enrolled))
  {
    var studentsEnrolled: set<Student> := {};
    for i := 0 to |enrolled|
      invariant studentsEnrolled == UnionOf(enrolled[..i])
    {
      assert enrolled[..i + 1][..i] == enrolled[..i];
      studentsEnrolled := studentsEnrolled + set s | s in enrolled[i];
    }
    assert enrolled[..|enrolled|] == enrolled;
    rows := RecordedStudentsCsv(queued, studentsEnrolled);
  }

  // ---- Access and lookup ----

  datatype User = User(id: int, isEmployee: bool, isExternalContractor: bool)

  datatype Group = Group(id: int, groupType: int, teacher: Option<int>)

  /** `can_user_view_students_list_for_group`: employees other than external
      contractors, and the group's own teacher, see the students' names. */
  function CanViewStudentsList(user: User, group: Group): (ok: bool)
    ensures user.isEmployee && !user.isExternalContractor ==> ok
    ensures group.teacher == Some(user.id) ==> ok
    ensures !(user.isEmployee && !user.isExternalContractor) && group.teacher != Some(user.id) ==> !ok
  {
    var isProperEmployee := user.isEmployee && !user.isExternalContractor;
    var isGroupTeacher := group.teacher.Some? && group.teacher.value == user.id;
    isProperEmployee || isGroupTeacher
  }

  datatype CourseInstance = CourseInstance(slug: string, name: string, shortName: string, groups: seq<Group>)

  /** The ids of the groups of the given class type, or of all groups. */
  function GroupIdsOfType(groups: seq<Group>, classType: Option<int>): (ids: seq<int>)
    ensures forall id :: id in ids <==>
      exists g :: g in groups && g.id == id && (classType.None? || g.groupType == classType.value)
    ensures classType.None? ==> |ids| == |groups|
  {
    if groups == [] then []
    else
      var g := groups[0];
      assert forall h :: h in groups <==> h == g || h in groups[1..];
      (if classType.None? || g.groupType == classType.value then [g.id] else []) + GroupIdsOfType(groups[1..], classType)
  }

  /** The courses with the slug. */
  function WithSlug(courses: seq<CourseInstance>, slug: string): (r: seq<CourseInstance>)
    ensures forall c :: c in r <==> c in courses && c.slug == slug
  {
    if courses == [] then []
    else
      assert forall c :: c in courses <==> c == courses[0] || c in courses[1..];
      (if courses[0].slug == slug then [courses[0]] else []) + WithSlug(courses[1..], slug)
  }

  /** More than one course has the slug iff two positions carry it. */
  lemma WithSlugSeveral(courses: seq<CourseInstance>, slug: string)
    ensures |WithSlug(courses, slug)| > 1 <==>
      exists i, j :: 0 <= i < j < |courses| && courses[i].slug == slug && courses[j].slug == slug
  {
    if |WithSlug(courses, slug)| > 1 {
      var i, j := SeveralPositions(courses, slug);
    }
    if exists i, j :: 0 <= i < j < |courses| && courses[i].slug == slug && courses[j].slug == slug {
      var i, j :| 0 <= i < j < |courses| && courses[i].slug == slug && courses[j].slug == slug;
      PositionsSeveral(courses, slug, i, j);
    }
  }

  lemma {:induction false} SeveralPositions(courses: seq<CourseInstance>, slug: string) returns (i: nat, j: nat)
    requires |WithSlug(courses, slug)| > 1
    ensures i < j < |courses| && courses[i].slug == slug && courses[j].slug == slug
  {
    var tail := courses[1..];
    var rest := WithSlug(tail, slug);
    if courses[0].slug == slug {
      assert WithSlug(courses, slug) == [courses[0]] + rest;
      var k := SomePosition(tail, slug);
      i, j := 0, k + 1;
    } else {
      assert WithSlug(courses, slug) == rest;
      var i', j' := SeveralPositions(tail, slug);
      i, j := i' + 1, j' + 1;
    }
  }

  lemma {:induction false} SomePosition(courses: seq<CourseInstance>, slug: string) returns (k: nat)
    requires |WithSlug(courses, slug)| > 0
    ensures k < |courses| && courses[k].slug == slug
  {
    if courses[0].slug != slug {
      assert WithSlug(courses, slug) == WithSlug(courses[1..], slug);
      var k' := SomePosition(courses[1..], slug);
      k := k' + 1;
    } else {
      k := 0;
    }
  }

  lemma {:induction false} PositionsSeveral(courses: seq<CourseInstance>, slug: string, i: nat, j: nat)
    requires i < j < |courses| && courses[i].slug == slug && courses[j].slug == slug
    ensures |WithSlug(courses, slug)| > 1
  {
    var tail := courses[1..];
    if i == 0 {
      assert tail[j - 1] in tail;
      assert tail[j - 1] in WithSlug(tail, slug);
    } else {
      PositionsSeveral(tail, slug, i - 1, j - 1);
    }
  }

  datatype CourseGroups = CourseGroups(course: CourseInstance, name: string, groupIds: seq<int>)

  /** `get_all_group_ids_for_course_slug`: `None` when no course has the
      slug; the course's short name, or its name when the short name is
      empty; and the ids of its groups of the class type, or of all of them.
      More than one course with the slug is Django's
      MultipleObjectsReturned. */
  function CourseGroupIds(courses: seq<CourseInstance>, slug: string, classType: Option<int>): (r: Result<Option<CourseGroups>>)
    ensures r == Ok(None) <==> forall c :: c in courses ==> c.slug != slug
    ensures r.Err? ==> r.error == MultipleObjectsReturned
    ensures r.Err? <==> exists i, j :: 0 <= i < j < |courses| && courses[i].slug == slug && courses[j].slug == slug
    ensures r.Ok? && r.value.Some? ==>
      var found := r.value.value;
      found.course in courses && found.course.slug == slug &&
      found.name == (if found.course.shortName != "" then found.course.shortName else found.course.name) &&
      found.groupIds == GroupIdsOfType(found.course.groups, classType)
  {
    var matching := WithSlug(courses, slug);
    WithSlugSeveral(courses, slug);
    assert |matching| > 0 ==> matching[0] in matching;
    if |matching| == 0 then Ok(None)
    else if |matching| > 1 then Err(MultipleObjectsReturned)
    else
      var course := matching[0];
      assert course in matching;
      var name := if course.shortName != "" then course.shortName else course.name;
      Ok(Some(CourseGroups(course, name, GroupIdsOfType(course.groups, classType))))
  }
}

/** What the CSV exports guarantee. */
module StudentListsProperties {
  import opened Common
  import opened NameOrder
  import opened StudentLists

  /** The students of all groups, group after group. */
  function Flat(groups: seq<seq<Student>>): seq<Student>
  {
    if groups == [] then [] else Flat(groups[..|groups| - 1]) + groups[|groups| - 1]
  }

  lemma {:induction false} FlatMembers(groups: seq<seq<Student>>)
    ensures forall s :: s in Flat(groups) <==> InAny(groups, s)
  {
    if groups != [] {
      var init := groups[..|groups| - 1];
      FlatMembers(init);
      forall s ensures InAny(groups, s) <==> InAny(init, s) || s in groups[|groups| - 1] {
        if InAny(groups, s) {
          var g :| 0 <= g < |groups| && s in groups[g];
          if g < |init| { assert init[g] == groups[g]; }
        }
        if InAny(init, s) {
          var g :| 0 <= g < |init| && s in init[g];
          assert groups[g] == init[g];
        }
      }
    }
  }

  lemma {:induction false} CollectGroupAppend(d: Dict, a: seq<Student>, b: seq<Student>, exclude: set<Student>)
    requires WellFormed(d)
    ensures CollectGroup(d, a + b, exclude) == CollectGroup(CollectGroup(d, a, exclude), b, exclude)
    decreases |b|
  {
    if b == [] {
      assert a + b == a;
    } else {
      assert (a + b)[..|a + b| - 1] == a + b[..|b| - 1];
      assert (a + b)[|a + b| - 1] == b[|b| - 1];
      CollectGroupAppend(d, a, b[..|b| - 1], exclude);
    }
  }

  /** Collecting group by group is collecting the flattened list. */
  lemma {:induction false} CollectedIsFlat(groups: seq<seq<Student>>, exclude: set<Student>)
    ensures Collected(groups, exclude) == CollectGroup(Dict([], map[]), Flat(groups), exclude)
  {
    if groups != [] {
      var init := groups[..|groups| - 1];
      CollectedIsFlat(init, exclude);
      CollectGroupAppend(Dict([], map[]), Flat(init), groups[|groups| - 1], exclude);
    }
  }

  /** Position `j` holds a student who is not excluded and has matricula `k`. */
  predicate Entry(xs: seq<Student>, exclude: set<Student>, j: int, k: string)
  {
    0 <= j < |xs| && xs[j] !in exclude && xs[j].matricula == k
  }

  /** ... and no later position does. */
  predicate LastEntry(xs: seq<Student>, exclude: set<Student>, j: int, k: string)
  {
    Entry(xs, exclude, j, k) && forall j' :: j < j' < |xs| ==> !Entry(xs, exclude, j', k)
  }

  lemma EntryOfAppend(init: seq<Student>, s: Student, exclude: set<Student>)
    ensures forall j, k :: Entry(init + [s], exclude, j, k) <==>
      Entry(init, exclude, j, k) || (j == |init| && s !in exclude && s.matricula == k)
  {
  }

  /** The dictionary has a key for each matricula of a student not
      excluded, and its value is the details of the LAST such student. */
  lemma {:induction false} CollectGroupEntry(d: Dict, xs: seq<Student>, exclude: set<Student>, k: string)
    requires WellFormed(d)
    ensures k in CollectGroup(d, xs, exclude).values <==> k in d.values || exists j :: Entry(xs, exclude, j, k)
    ensures (exists j :: Entry(xs, exclude, j, k)) ==>
      exists j :: LastEntry(xs, exclude, j, k) && CollectGroup(d, xs, exclude).values[k] == InfoOf(xs[j])
    ensures k in d.values && (forall j :: !Entry(xs, exclude, j, k)) ==>
      CollectGroup(d, xs, exclude).values[k] == d.values[k]
  {
    if xs != [] {
      var init, s := xs[..|xs| - 1], xs[|xs| - 1];
      CollectGroupEntry(d, init, exclude, k);
      assert xs == init + [s];
      EntryOfAppend(init, s, exclude);
      var r0 := CollectGroup(d, init, exclude);
      var r := CollectGroup(d, xs, exclude);
      if s !in exclude && s.matricula == k {
        assert LastEntry(xs, exclude, |init|, k);
      } else {
        assert k in r.values <==> k in r0.values;
        assert k in r0.values ==> r.values[k] == r0.values[k];
        if j :| Entry(xs, exclude, j, k) {
          assert Entry(init, exclude, j, k);
          var j0 :| LastEntry(init, exclude, j0, k) && r0.values[k] == InfoOf(init[j0]);
          assert LastEntry(xs, exclude, j0, k);
        }
      }
    }
  }

  lemma {:induction false} ItemsFacts(keys: seq<string>, values: map<string, Info>)
    requires Distinct(keys) && forall k :: k in keys ==> k in values
    ensures Distinct(Items(keys, values))
    ensures forall it :: it in Items(keys, values) ==> it.0 in keys && it.1 == values[it.0]
    ensures forall k :: k in keys ==> (k, values[k]) in Items(keys, values)
  {
    var items := Items(keys, values);
    forall k | k in keys ensures (k, values[k]) in items {
      var i :| 0 <= i < |keys| && keys[i] == k;
      assert items[i] == (k, values[k]);
    }
  }

  /** The rows written for a collected dictionary. */
  function DictRows(d: Dict): seq<CsvRow>
    requires WellFormed(d)
  {
    Rows(Sort(Items(d.keys, d.values), ItemKey))
  }

  lemma RowsOfItems(items: seq<(string, Info)>, values: map<string, Info>)
    requires Distinct(items)
    requires forall it :: it in items ==> it.0 in values && it.1 == values[it.0]
    ensures var rows := Rows(items);
      forall i :: 0 <= i < |rows| ==> (rows[i].matricula in values &&
        values[rows[i].matricula] == Info(rows[i].firstName, rows[i].lastName, rows[i].email))
    ensures var rows := Rows(items);
      forall i, j :: 0 <= i < j < |rows| ==> rows[i].matricula != rows[j].matricula
  {
    var rows := Rows(items);
    forall i | 0 <= i < |rows| ensures rows[i].matricula in values &&
        values[rows[i].matricula] == Info(rows[i].firstName, rows[i].lastName, rows[i].email)
    {
      assert items[i] in items;
    }
    forall i, j | 0 <= i < j < |rows| ensures rows[i].matricula != rows[j].matricula {
      assert items[i] in items && items[j] in items;
    }
  }

  lemma RowCover(items: seq<(string, Info)>, values: map<string, Info>, k: string)
    requires k in values && (k, values[k]) in items
    ensures exists i :: 0 <= i < |Rows(items)| && Rows(items)[i].matricula == k
  {
    var i :| 0 <= i < |items| && items[i] == (k, values[k]);
    assert Rows(items)[i].matricula == k;
  }

  lemma RowsCover(items: seq<(string, Info)>, values: map<string, Info>)
    requires forall k :: k in values ==> (k, values[k]) in items
    ensures forall k :: k in values ==> exists i :: 0 <= i < |Rows(items)| && Rows(items)[i].matricula == k
  {
    forall k | k in values ensures exists i :: 0 <= i < |Rows(items)| && Rows(items)[i].matricula == k {
      RowCover(items, values, k);
    }
  }

  /** The sorted items of a dictionary: each key once, with its value. */
  lemma SortedItems(d: Dict)
    requires WellFormed(d)
    ensures var sorted := Sort(Items(d.keys, d.values), ItemKey);
      Distinct(sorted) &&
      (forall it :: it in sorted ==> it.0 in d.values && it.1 == d.values[it.0]) &&
      (forall k :: k in d.values ==> (k, d.values[k]) in sorted)
  {
    ItemsFacts(d.keys, d.values);
  }

  /** One row per key of the dictionary, each carrying that key's value. */
  lemma DictRowsFacts(d: Dict)
    requires WellFormed(d)
    ensures var rows := DictRows(d);
      forall i :: 0 <= i < |rows| ==> (rows[i].matricula in d.values &&
        d.values[rows[i].matricula] == Info(rows[i].firstName, rows[i].lastName, rows[i].email))
    ensures var rows := DictRows(d);
      forall i, j :: 0 <= i < j < |rows| ==> rows[i].matricula != rows[j].matricula
    ensures var rows := DictRows(d);
      forall k :: k in d.values ==> exists i :: 0 <= i < |rows| && rows[i].matricula == k
  {
    var sorted := Sort(Items(d.keys, d.values), ItemKey);
    assert DictRows(d) == Rows(sorted);
    SortedItems(d);
    RowsOfItems(sorted, d.values);
    RowsCover(sorted, d.values);
  }

  /** The rows of `recorded_students_csv` are sorted by (last name, first name). */
  lemma CsvRowsSorted(groups: seq<seq<Student>>, exclude: set<Student>)
    ensures Sorted(CsvRows(groups, exclude), RowKey)
  {
    var d := Collected(groups, exclude);
    var items := Items(d.keys, d.values);
    var sorted := Sort(items, ItemKey);
    SortSorted(items, ItemKey);
    var rows := Rows(sorted);
    forall i, j | 0 <= i < j < |rows| ensures KeyLe(RowKey(rows[i]), RowKey(rows[j])) {
      assert RowKey(rows[i]) == ItemKey(sorted[i]) && RowKey(rows[j]) == ItemKey(sorted[j]);
    }
  }

  /** No matricula has two rows. */
  lemma CsvRowsOnePerMatricula(groups: seq<seq<Student>>, exclude: set<Student>)
    ensures var rows := CsvRows(groups, exclude);
      forall i, j :: 0 <= i < j < |rows| ==> rows[i].matricula != rows[j].matricula
  {
    var d := Collected(groups, exclude);
    DictRowsFacts(d);
    var rows := DictRows(d);
    assert CsvRows(groups, exclude) == rows;
    forall i, j | 0 <= i < j < |rows| ensures rows[i].matricula != rows[j].matricula {
    }
  }

  /** Every student of the groups who is not excluded has a row. */
  lemma CsvRowsComplete(groups: seq<seq<Student>>, exclude: set<Student>)
    ensures var rows := CsvRows(groups, exclude);
      forall s :: InAny(groups, s) && s !in exclude ==> exists i :: 0 <= i < |rows| && rows[i].matricula == s.matricula
  {
    var xs := Flat(groups);
    FlatMembers(groups);
    var d := Collected(groups, exclude);
    CollectedIsFlat(groups, exclude);
    DictRowsFacts(d);
    assert CsvRows(groups, exclude) == DictRows(d);
    forall s | InAny(groups, s) && s !in exclude ensures s.matricula in d.values {
      var j :| 0 <= j < |xs| && xs[j] == s;
      assert Entry(xs, exclude, j, s.matricula);
      CollectGroupEntry(Dict([], map[]), xs, exclude, s.matricula);
    }
  }

  /** Every row carries the details of the last student not excluded
      with its matricula, in the order the groups list them. */
  lemma CsvRowsLastRecordWins(groups: seq<seq<Student>>, exclude: set<Student>)
    ensures var rows, xs := CsvRows(groups, exclude), Flat(groups);
      forall i :: 0 <= i < |rows| ==>
        exists j :: (LastEntry(xs, exclude, j, rows[i].matricula) &&
          InfoOf(xs[j]) == Info(rows[i].firstName, rows[i].lastName, rows[i].email))
  {
    var xs := Flat(groups);
    var d := Collected(groups, exclude);
    CollectedIsFlat(groups, exclude);
    DictRowsFacts(d);
    var rows := DictRows(d);
    assert CsvRows(groups, exclude) == rows;
    forall i | 0 <= i < |rows|
      ensures exists j :: (LastEntry(xs, exclude, j, rows[i].matricula) &&
        InfoOf(xs[j]) == Info(rows[i].firstName, rows[i].lastName, rows[i].email))
    {
      CollectGroupEntry(Dict([], map[]), xs, exclude, rows[i].matricula);
    }
  }

  /** The student is enrolled in or queued for one of the groups. */
  predicate Listed(enrolled: seq<seq<Student>>, queued: seq<seq<Student>>, s: Student)
  {
    InAny(enrolled, s) || InAny(queued, s)
  }

  /** Every matricula of the listed students names one student. */
  ghost predicate UniqueMatriculas(enrolled: seq<seq<Student>>, queued: seq<seq<Student>>)
  {
    forall s, t :: Listed(enrolled, queued, s) && Listed(enrolled, queued, t) && s.matricula == t.matricula ==> s == t
  }

  lemma CsvRowSource(groups: seq<seq<Student>>, exclude: set<Student>, i: int)
    requires 0 <= i < |CsvRows(groups, exclude)|
    ensures exists t :: InAny(groups, t) && t !in exclude && t.matricula == CsvRows(groups, exclude)[i].matricula
  {
    var xs := Flat(groups);
    var d := Collected(groups, exclude);
    CollectedIsFlat(groups, exclude);
    DictRowsFacts(d);
    var rows := DictRows(d);
    assert CsvRows(groups, exclude) == rows;
    CollectGroupEntry(Dict([], map[]), xs, exclude, rows[i].matricula);
    var j :| Entry(xs, exclude, j, rows[i].matricula);
    FlatMembers(groups);
    assert InAny(groups, xs[j]);
  }

  /** An excluded student gets no row, unless another student of the
      groups shares the matricula. */
  lemma CsvRowsOmitExcluded(groups: seq<seq<Student>>, exclude: set<Student>, s: Student, i: int)
    requires s in exclude
    requires forall t :: InAny(groups, t) && t.matricula == s.matricula ==> t == s
    requires 0 <= i < |CsvRows(groups, exclude)|
    ensures CsvRows(groups, exclude)[i].matricula != s.matricula
  {
    CsvRowSource(groups, exclude, i);
  }

  lemma QueueRowNotEnrolled(enrolled: seq<seq<Student>>, queued: seq<seq<Student>>, i: int, s: Student)
    requires UniqueMatriculas(enrolled, queued)
    requires 0 <= i < |CsvRows(queued, UnionOf(enrolled))| && InAny(enrolled, s)
    ensures CsvRows(queued, UnionOf(enrolled))[i].matricula != s.matricula
  {
    CsvRowSource(queued, UnionOf(enrolled), i);
    var t :| InAny(queued, t) && t !in UnionOf(enrolled) && t.matricula == CsvRows(queued, UnionOf(enrolled))[i].matricula;
    assert Listed(enrolled, queued, s) && Listed(enrolled, queued, t) && s != t;
  }

  /** `course_queue_csv`: with matriculas identifying students, no row of
      the queue export belongs to a student enrolled in one of the groups,
      and every queued student who is enrolled in none has a row. */
  lemma QueueCsvExcludesEnrolled(enrolled: seq<seq<Student>>, queued: seq<seq<Student>>)
    requires UniqueMatriculas(enrolled, queued)
    ensures var rows := CsvRows(queued, UnionOf(enrolled));
      forall i, s :: 0 <= i < |rows| && InAny(enrolled, s) ==> rows[i].matricula != s.matricula
    ensures var rows := CsvRows(queued, UnionOf(enrolled));
      forall s :: InAny(queued, s) && !InAny(enrolled, s) ==>
        exists i :: 0 <= i < |rows| && rows[i].matricula == s.matricula
  {
    var rows := CsvRows(queued, UnionOf(enrolled));
    CsvRowsComplete(queued, UnionOf(enrolled));
    forall i, s | 0 <= i < |rows| && InAny(enrolled, s) ensures rows[i].matricula != s.matricula {
      QueueRowNotEnrolled(enrolled, queued, i, s);
    }
  }

  /** A later record for the same matricula overrides an earlier one. */
  lemma LaterRecordWins(groups: seq<seq<Student>>, s: Student, exclude: set<Student>)
    requires s !in exclude
    ensures Collected(groups + [[s]], exclude).values[s.matricula] == InfoOf(s)
  {
    var all := groups + [[s]];
    assert all[..|all| - 1] == groups;
    assert [s][..0] == [];
  }
}
