/** The instructor's course actions: create, edit and the two read views. */
module CourseActions {
  import opened Wrappers
  import opened Entities
  import opened Seqs
  import opened Text
  import opened FormData
  import opened Database
  import opened CourseViews

  /** The thumbnail kept by `createCourse`: the trimmed value, or absent when it trims to "". */
  function ThumbnailValue(thumbnail: Option<string>): Option<string>
  {
    if Truthy(thumbnail) && Trim(thumbnail.value) != "" then Some(Trim(thumbnail.value)) else None
  }

  /** The description kept by `createCourse`: `description.trim() || null` of a present value. */
  function DescriptionValue(description: Option<string>): Option<string>
  {
    if !Truthy(description) then None
    else
      var t := Trim(description.value);
      if t == "" then None else Some(t)
  }

  /** Both optional texts follow one rule: absent or blank becomes absent, anything else is
      kept trimmed and is never the empty string. */
  lemma OptionalTextNormalised(v: Option<string>)
    ensures DescriptionValue(v) == ThumbnailValue(v)
    ensures ThumbnailValue(v).None? <==> v.None? || AllWhitespace(v.value)
    ensures ThumbnailValue(v).Some? ==> ThumbnailValue(v).value != "" && Trim(ThumbnailValue(v).value) == ThumbnailValue(v).value
  {
    if v.Some? {
      TrimEmptyIff(v.value);
      TrimIdempotent(v.value);
    }
  }

  /** The row `createCourse` stores for a present, non-empty title. */
  function NewCourse(id: Id, instructorId: Id, form: Form): Course
    requires Truthy(Get(form, "title"))
  {
    Course(id, id, Trim(Get(form, "title").value), DescriptionValue(Get(form, "description")),
      ThumbnailValue(Get(form, "thumbnail")), instructorId)
  }

  /** A created course has a trimmed title that is empty exactly when the submitted title was
      all whitespace (the non-empty check precedes the trim), and no blank optional text. */
  lemma NewCourseNormalised(id: Id, instructorId: Id, form: Form)
    requires Truthy(Get(form, "title"))
    ensures Trim(NewCourse(id, instructorId, form).title) == NewCourse(id, instructorId, form).title
    ensures NewCourse(id, instructorId, form).title == "" <==> AllWhitespace(Get(form, "title").value)
    ensures NewCourse(id, instructorId, form).description != Some("")
    ensures NewCourse(id, instructorId, form).thumbnail != Some("")
    ensures NewCourse(id, instructorId, form).instructorId == instructorId
  {
    TrimIdempotent(Get(form, "title").value);
    TrimEmptyIff(Get(form, "title").value);
    OptionalTextNormalised(Get(form, "description"));
    OptionalTextNormalised(Get(form, "thumbnail"));
  }

  method CreateCourse(db: Db, caller: Option<Session>, form: Form) returns (r: Result<Course, Failure>)
    requires db.Valid()
    modifies db`courses, db`nextId
    ensures db.Valid()
    ensures !IsInstructor(caller) ==> r == Failure(Unauthorized)
    ensures IsInstructor(caller) && !Truthy(Get(form, "title")) ==> r == Failure(Thrown("Title is required"))
    ensures IsInstructor(caller) && Truthy(Get(form, "title")) ==>
      && r == Success(NewCourse(old(db.nextId), caller.value.userId, form))
      && db.courses == old(db.courses) + [r.value]
    ensures r.Success? ==> forall c :: c in old(db.courses) ==> c.id < r.value.id
    ensures r.Failure? ==> db.courses == old(db.courses) && db.nextId == old(db.nextId)
  {
    if !IsInstructor(caller) {
      return Failure(Unauthorized);
    }
    var title := Get(form, "title");
    if !Truthy(title) {
      return Failure(Thrown("Title is required"));
    }
    ghost var before := db.courses;
    var c := db.CreateCourse(Trim(title.value), DescriptionValue(Get(form, "description")),
      ThumbnailValue(Get(form, "thumbnail")), caller.value.userId);
    forall x | x in before ensures x.id < c.id {
      var i :| 0 <= i < |before| && before[i] == x;
      assert CourseId(before[i]) < c.id;
    }
    return Success(c);
  }

  /** What `updateCourse` does to the row it matches: `title || undefined` leaves the title
      alone when it is absent or empty, `description || null` clears the description then. */
  function CourseEdit(form: Form): Course -> Course
  {
    CoursePatch(OrAbsent(Get(form, "title")), OrAbsent(Get(form, "description")))
  }

  /** An edit keeps the row's identity, owner and thumbnail; it submits the title and the
      description exactly as sent (no trimming), keeps the old title for an empty one,
      clears the description for an empty one, and editing twice is editing once. */
  lemma EditCourseStable(c: Course, form: Form)
    ensures var e := CourseEdit(form)(c);
      && e.id == c.id && e.createdAt == c.createdAt && e.instructorId == c.instructorId
      && e.thumbnail == c.thumbnail
      && e.title == (if Truthy(Get(form, "title")) then Get(form, "title").value else c.title)
      && (e.description.Some? <==> Truthy(Get(form, "description")))
      && (e.description.Some? ==> e.description.value == Get(form, "description").value)
      && CourseEdit(form)(e) == e
  {
  }

  method UpdateCourse(db: Db, caller: Option<Session>, courseId: Id, form: Form) returns (r: Result<Course, Failure>)
    requires db.Valid()
    modifies db`courses
    ensures db.Valid()
    ensures !IsInstructor(caller) ==> r == Failure(Unauthorized)
    ensures IsInstructor(caller) && !OwnsCourse(old(db.courses), courseId, caller.value.userId) ==>
      r == Failure(RecordNotFound)
    ensures r.Failure? ==> db.courses == old(db.courses)
    ensures IsInstructor(caller) && OwnsCourse(old(db.courses), courseId, caller.value.userId) ==>
      && r.Success?
      && db.courses == Replace(old(db.courses), CourseId, courseId, CourseEdit(form))
      && r.value in db.courses && r.value.id == courseId
      && exists c :: c in old(db.courses) && c.id == courseId && r.value == CourseEdit(form)(c)
  {
    if !IsInstructor(caller) {
      return Failure(Unauthorized);
    }
    r := db.UpdateCourse(courseId, caller.value.userId, OrAbsent(Get(form, "title")), OrAbsent(Get(form, "description")));
  }

  /** A module of the course list, with its lessons in table order. */
  datatype ModuleWithLessons = ModuleWithLessons(row: Module, lessons: seq<Lesson>)

  /** One entry of `getInstructorCourses`. */
  datatype CourseSummary = CourseSummary(course: Course, modules: seq<ModuleWithLessons>, enrollmentCount: nat)

  function OwnedBy(userId: Id): Course -> bool
  {
    (c: Course) => c.instructorId == userId
  }

  function ModulesWithLessons(modules: seq<Module>, lessons: seq<Lesson>, courseId: Id): (r: seq<ModuleWithLessons>)
    ensures |r| == |OrderedModules(modules, courseId)|
    ensures forall i :: 0 <= i < |r| ==> r[i].row == OrderedModules(modules, courseId)[i]
    ensures forall i :: 0 <= i < |r| ==> r[i].lessons == Filter(lessons, InModule(r[i].row.id))
  {
    var ms := OrderedModules(modules, courseId);
    seq(|ms|, i requires 0 <= i < |ms| => ModuleWithLessons(ms[i], Filter(lessons, InModule(ms[i].id))))
  }

  function SummaryCourse(x: CourseSummary): Course { x.course }
  function WithLessonsRow(m: ModuleWithLessons): Module { m.row }

  /** The courses of a course list, in list order. */
  function SummaryCourses(xs: seq<CourseSummary>): seq<Course>
  {
    Project(xs, SummaryCourse)
  }

  /** The module rows of one course of the list, in list order. */
  function SummaryModules(ms: seq<ModuleWithLessons>): seq<Module>
  {
    Project(ms, WithLessonsRow)
  }

  function GetInstructorCourses(db: Db, caller: Option<Session>): (r: Result<seq<CourseSummary>, Failure>)
    reads db
    ensures r.Failure? <==> !IsInstructor(caller)
    ensures r.Failure? ==> r.error == Unauthorized
  {
    if !IsInstructor(caller) then Failure(Unauthorized)
    else
      var cs := NewestFirst(db.courses, OwnedBy(caller.value.userId));
      var modules, lessons, enrollments := db.modules, db.lessons, db.enrollments;
      Success(seq(|cs|, i requires 0 <= i < |cs| =>
        CourseSummary(cs[i], ModulesWithLessons(modules, lessons, cs[i].id), EnrollmentCount(enrollments, cs[i].id))))
  }

  /** The course list holds exactly the caller's courses, newest first; each course carries
      its own modules in ascending `order`, each module exactly its own lessons, and the
      number of enrollments in the course. */
  lemma InstructorCoursesSpec(db: Db, caller: Option<Session>)
    requires db.Valid() && IsInstructor(caller)
    ensures var r := GetInstructorCourses(db, caller).value;
      && (forall c :: c in SummaryCourses(r) <==> c in db.courses && c.instructorId == caller.value.userId)
      && StrictlyDecreasing(SummaryCourses(r), CourseCreatedAt)
      && forall i :: 0 <= i < |r| ==>
           && SortedBy(SummaryModules(r[i].modules), ModuleOrder)
           && multiset(SummaryModules(r[i].modules)) == multiset(Filter(db.modules, InCourse(r[i].course.id)))
           && (forall j :: 0 <= j < |r[i].modules| ==>
                 && r[i].modules[j].row in db.modules && r[i].modules[j].row.courseId == r[i].course.id
                 && forall l :: l in r[i].modules[j].lessons <==> l in db.lessons && l.moduleId == r[i].modules[j].row.id)
           && r[i].enrollmentCount == EnrollmentCount(db.enrollments, r[i].course.id)
  {
    var uid := caller.value.userId;
    var r := GetInstructorCourses(db, caller).value;
    var cs := NewestFirst(db.courses, OwnedBy(uid));
    assert SummaryCourses(r) == cs;
    NewestFirstSpec(db.courses, OwnedBy(uid), CourseCreatedAt);
    forall i | 0 <= i < |r|
      ensures SortedBy(SummaryModules(r[i].modules), ModuleOrder)
      ensures multiset(SummaryModules(r[i].modules)) == multiset(Filter(db.modules, InCourse(r[i].course.id)))
      ensures forall j :: 0 <= j < |r[i].modules| ==>
                forall l :: l in r[i].modules[j].lessons <==> l in db.lessons && l.moduleId == r[i].modules[j].row.id
    {
      assert r[i].modules == ModulesWithLessons(db.modules, db.lessons, r[i].course.id);
      CourseModules(db.modules, db.lessons, r[i].course.id);
    }
  }

  /** The modules of one course of the list: a permutation of the course's modules in
      ascending `order`, each with exactly its own lessons. */
  lemma CourseModules(modules: seq<Module>, lessons: seq<Lesson>, courseId: Id)
    ensures var ms := ModulesWithLessons(modules, lessons, courseId);
      && SortedBy(SummaryModules(ms), ModuleOrder)
      && multiset(SummaryModules(ms)) == multiset(Filter(modules, InCourse(courseId)))
      && forall j :: 0 <= j < |ms| ==>
           forall l :: l in ms[j].lessons <==> l in lessons && l.moduleId == ms[j].row.id
  {
    var ms := ModulesWithLessons(modules, lessons, courseId);
    assert SummaryModules(ms) == OrderedModules(modules, courseId);
    forall j | 0 <= j < |ms|
      ensures forall l :: l in ms[j].lessons <==> l in lessons && l.moduleId == ms[j].row.id
    {
      FilterMembers(lessons, InModule(ms[j].row.id));
    }
  }

  function OwnedCourse(courseId: Id, userId: Id): Course -> bool
  {
    (c: Course) => c.id == courseId && c.instructorId == userId
  }

  /** `getCourseById`: the full edit tree of one of the caller's courses, absent otherwise. */
  function GetCourseById(db: Db, caller: Option<Session>, courseId: Id): (r: Result<Option<CourseTree>, Failure>)
    reads db
    ensures r.Failure? <==> !IsInstructor(caller)
    ensures r.Failure? ==> r.error == Unauthorized
  {
    if !IsInstructor(caller) then Failure(Unauthorized)
    else
      match First(db.courses, OwnedCourse(courseId, caller.value.userId))
      case None => Success(None)
      case Some(c) => Success(Some(CourseTreeOf(db, c)))
  }

  /** The edit tree is there exactly when the caller owns the course, and it is that course's
      tree, with all of the course's modules, ordered by `order` at every level. */
  lemma CourseByIdSpec(db: Db, caller: Option<Session>, courseId: Id)
    requires IsInstructor(caller)
    ensures var r := GetCourseById(db, caller, courseId).value;
      && (r.Some? <==> OwnsCourse(db.courses, courseId, caller.value.userId))
      && (r.Some? ==> r.value.course in db.courses && r.value.course.id == courseId
                      && r.value.course.instructorId == caller.value.userId && WellOrdered(r.value))
      && (r.Some? ==> multiset(ModulesOf(r.value.modules)) == multiset(Filter(db.modules, InCourse(courseId))))
  {
    var uid := caller.value.userId;
    var found := First(db.courses, OwnedCourse(courseId, uid));
    if OwnsCourse(db.courses, courseId, uid) {
      var c :| c in db.courses && c.id == courseId && c.instructorId == uid;
      var i :| 0 <= i < |db.courses| && db.courses[i] == c;
      assert OwnedCourse(courseId, uid)(db.courses[i]);
    }
    if found.Some? {
      assert OwnedCourse(courseId, uid)(found.value);
      CourseTreeWellOrdered(db, found.value);
    }
  }
}
