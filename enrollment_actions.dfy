/** The student's side of the catalogue: the course list, the caller's enrolled courses,
    enrolling, and the content view of an enrolled course. Any signed-in caller may use
    them; only the presence of a session is checked. */
module EnrollmentActions {
  import opened Wrappers
  import opened Entities
  import opened Seqs
  import opened Database
  import opened CourseViews

  /** `instructor: { select: { name: true, email: true } }`. */
  datatype InstructorInfo = InstructorInfo(name: string, email: string)

  function InstructorOf(users: seq<User>, instructorId: Id): (r: Option<InstructorInfo>)
    ensures r.Some? <==> HasKey(users, UserId, instructorId)
    ensures r.Some? ==> exists u :: u in users && u.id == instructorId && r.value == InstructorInfo(u.name, u.email)
  {
    match Lookup(users, UserId, instructorId)
    case None => None
    case Some(u) => Some(InstructorInfo(u.name, u.email))
  }

  /** One entry of `getAvailableCourses`: the course, its instructor and its two counts. */
  datatype CatalogEntry = CatalogEntry(
    course: Course, instructor: Option<InstructorInfo>, enrollmentCount: nat, moduleCount: nat)

  function EntryCourse(e: CatalogEntry): Course { e.course }

  /** The courses of a catalogue, in catalogue order. */
  function CatalogCourses(xs: seq<CatalogEntry>): seq<Course>
  {
    Project(xs, EntryCourse)
  }

  /** Every course, newest first, with no ownership filter. */
  function GetAvailableCourses(db: Db, caller: Option<Session>): (r: Result<seq<CatalogEntry>, Failure>)
    reads db
    ensures r.Failure? <==> caller.None?
    ensures r.Failure? ==> r.error == Unauthorized
  {
    if caller.None? then Failure(Unauthorized)
    else
      var cs := Reverse(db.courses);
      var users, modules, enrollments := db.users, db.modules, db.enrollments;
      Success(seq(|cs|, i requires 0 <= i < |cs| =>
        CatalogEntry(cs[i], InstructorOf(users, cs[i].instructorId), EnrollmentCount(enrollments, cs[i].id),
          ModuleCount(modules, cs[i].id))))
  }

  /** The catalogue lists each course of the store once, newest first, with its counts. */
  lemma AvailableCoursesSpec(db: Db, caller: Option<Session>)
    requires db.Valid() && caller.Some?
    ensures var r := GetAvailableCourses(db, caller).value;
      && |r| == |db.courses|
      && (forall c :: c in CatalogCourses(r) <==> c in db.courses)
      && StrictlyDecreasing(CatalogCourses(r), CourseCreatedAt)
      && forall i :: 0 <= i < |r| ==>
           && r[i].enrollmentCount == EnrollmentCount(db.enrollments, r[i].course.id)
           && r[i].moduleCount == ModuleCount(db.modules, r[i].course.id)
           && r[i].instructor == InstructorOf(db.users, r[i].course.instructorId)
  {
    var r := GetAvailableCourses(db, caller).value;
    assert CatalogCourses(r) == Reverse(db.courses);
    ReverseMembers(db.courses);
    ReverseIncreasing(db.courses, CourseCreatedAt);
  }

  function ByUser(userId: Id): Enrollment -> bool
  {
    (e: Enrollment) => e.userId == userId
  }

  /** One entry of `getEnrolledCourses`: the course with its instructor's name and its
      number of modules. */
  datatype EnrolledCourse = EnrolledCourse(course: Course, instructorName: Option<string>, moduleCount: nat)

  /** `enrollments.map(enrollment => enrollment.course)` with the course's includes. A
      course that is not found contributes nothing; in a valid store there is none. */
  function EnrolledCourses(es: seq<Enrollment>, courses: seq<Course>, modules: seq<Module>, users: seq<User>)
    : (r: seq<EnrolledCourse>)
    ensures |r| <= |es|
  {
    if es == [] then []
    else
      var rest := EnrolledCourses(es[1..], courses, modules, users);
      match Lookup(courses, CourseId, es[0].courseId)
      case None => rest
      case Some(c) =>
        var name := match InstructorOf(users, c.instructorId)
          case None => None
          case Some(info) => Some(info.name);
        [EnrolledCourse(c, name, ModuleCount(modules, c.id))] + rest
  }

  /** When every enrollment names an existing course, each enrollment gives exactly its
      own course, in the same order. */
  lemma {:induction false} EnrolledCoursesLinked(
    es: seq<Enrollment>, courses: seq<Course>, modules: seq<Module>, users: seq<User>)
    requires ChildrenLinked(es, courses, EnrollmentCourse, CourseId)
    ensures var r := EnrolledCourses(es, courses, modules, users);
      && |r| == |es|
      && forall i :: 0 <= i < |r| ==>
           && r[i].course in courses && r[i].course.id == es[i].courseId
           && r[i].moduleCount == ModuleCount(modules, es[i].courseId)
  {
    if es != [] {
      var tail := es[1..];
      forall i | 0 <= i < |tail| ensures HasKey(courses, CourseId, EnrollmentCourse(tail[i])) {
        assert tail[i] == es[i + 1];
      }
      EnrolledCoursesLinked(tail, courses, modules, users);
      assert HasKey(courses, CourseId, es[0].courseId) by {
        assert EnrollmentCourse(es[0]) == es[0].courseId;
      }
      var r := EnrolledCourses(es, courses, modules, users);
      var rest := EnrolledCourses(tail, courses, modules, users);
      EnrolledCoursesHead(es, courses, modules, users);
      forall i | 1 <= i < |r|
        ensures r[i].course in courses && r[i].course.id == es[i].courseId
        ensures r[i].moduleCount == ModuleCount(modules, es[i].courseId)
      {
        assert r[i] == rest[i - 1] && tail[i - 1] == es[i];
      }
    }
  }

  /** An enrollment whose course exists contributes that course, then the rest follow. */
  lemma EnrolledCoursesHead(es: seq<Enrollment>, courses: seq<Course>, modules: seq<Module>, users: seq<User>)
    requires es != [] && HasKey(courses, CourseId, es[0].courseId)
    ensures var r := EnrolledCourses(es, courses, modules, users);
      && r != [] && r[1..] == EnrolledCourses(es[1..], courses, modules, users)
      && r[0].course in courses && r[0].course.id == es[0].courseId
      && r[0].moduleCount == ModuleCount(modules, es[0].courseId)
  {
    var c := Lookup(courses, CourseId, es[0].courseId).value;
    assert CourseId(c) == c.id;
  }

  /** The courses of the caller's enrollments, most recent enrollment first. */
  function GetEnrolledCourses(db: Db, caller: Option<Session>): (r: Result<seq<EnrolledCourse>, Failure>)
    reads db
    ensures r.Failure? <==> caller.None?
    ensures r.Failure? ==> r.error == Unauthorized
  {
    if caller.None? then Failure(Unauthorized)
    else Success(EnrolledCourses(NewestFirst(db.enrollments, ByUser(caller.value.userId)), db.courses, db.modules, db.users))
  }

  /** Entry `i` is the course of the caller's `i`-th most recent enrollment; those
      enrollments are exactly the caller's. */
  lemma EnrolledCoursesSpec(db: Db, caller: Option<Session>)
    requires db.Valid() && caller.Some?
    ensures var es := NewestFirst(db.enrollments, ByUser(caller.value.userId));
      var r := GetEnrolledCourses(db, caller).value;
      && (forall e :: e in es <==> e in db.enrollments && e.userId == caller.value.userId)
      && StrictlyDecreasing(es, EnrollmentCreatedAt)
      && |r| == |es|
      && forall i :: 0 <= i < |r| ==> r[i].course in db.courses && r[i].course.id == es[i].courseId
  {
    var es := NewestFirst(db.enrollments, ByUser(caller.value.userId));
    NewestFirstSpec(db.enrollments, ByUser(caller.value.userId), EnrollmentCreatedAt);
    forall i | 0 <= i < |es| ensures HasKey(db.courses, CourseId, EnrollmentCourse(es[i])) {
      assert es[i] in es;
      LinkedMember(db.enrollments, db.courses, EnrollmentCourse, CourseId, es[i]);
    }
    EnrolledCoursesLinked(es, db.courses, db.modules, db.users);
  }

  method EnrollInCourse(db: Db, caller: Option<Session>, courseId: Id) returns (r: Result<Enrollment, Failure>)
    requires db.Valid()
    modifies db`enrollments, db`nextId
    ensures db.Valid()
    ensures caller.None? ==> r == Failure(Unauthorized)
    ensures caller.Some? && IsEnrolled(old(db.enrollments), caller.value.userId, courseId) ==>
      r == Failure(Thrown("You are already enrolled in this course"))
    ensures caller.Some? && !IsEnrolled(old(db.enrollments), caller.value.userId, courseId)
            && !HasKey(db.courses, CourseId, courseId) ==>
      r == Failure(Thrown("Course not found"))
    ensures caller.Some? && !IsEnrolled(old(db.enrollments), caller.value.userId, courseId)
            && HasKey(db.courses, CourseId, courseId) ==>
      && r == Success(Enrollment(old(db.nextId), old(db.nextId), caller.value.userId, courseId))
      && db.enrollments == old(db.enrollments) + [r.value]
    ensures r.Success? ==> IsEnrolled(db.enrollments, caller.value.userId, courseId)
    ensures r.Failure? ==> db.enrollments == old(db.enrollments) && db.nextId == old(db.nextId)
  {
    if caller.None? {
      return Failure(Unauthorized);
    }
    var userId := caller.value.userId;
    if IsEnrolled(db.enrollments, userId, courseId) {
      return Failure(Thrown("You are already enrolled in this course"));
    }
    if !HasKey(db.courses, CourseId, courseId) {
      return Failure(Thrown("Course not found"));
    }
    r := db.CreateEnrollment(userId, courseId);
    assert r.value in db.enrollments;
  }

  /** What `getCourseContent` returns: the course tree with its instructor. */
  datatype CourseContent = CourseContent(tree: CourseTree, instructor: Option<InstructorInfo>)

  function GetCourseContent(db: Db, caller: Option<Session>, courseId: Id): (r: Result<CourseContent, Failure>)
    reads db
    ensures caller.None? ==> r == Failure(Unauthorized)
    ensures caller.Some? && !IsEnrolled(db.enrollments, caller.value.userId, courseId) ==>
      r == Failure(Thrown("You are not enrolled in this course"))
    ensures caller.Some? && IsEnrolled(db.enrollments, caller.value.userId, courseId)
            && !HasKey(db.courses, CourseId, courseId) ==>
      r == Failure(Thrown("Course not found"))
    ensures r.Success? ==>
      && r.value.tree.course in db.courses && r.value.tree.course.id == courseId
      && r.value.instructor == InstructorOf(db.users, r.value.tree.course.instructorId)
  {
    if caller.None? then Failure(Unauthorized)
    else if !IsEnrolled(db.enrollments, caller.value.userId, courseId) then
      Failure(Thrown("You are not enrolled in this course"))
    else
      match Lookup(db.courses, CourseId, courseId)
      case None => Failure(Thrown("Course not found"))
      case Some(c) => Success(CourseContent(CourseTreeOf(db, c), InstructorOf(db.users, c.instructorId)))
  }

  /** In a valid store an enrolled caller always gets the content: the whole tree of that
      course, ordered by `order` at every level; anyone else is refused. */
  lemma CourseContentSpec(db: Db, caller: Option<Session>, courseId: Id)
    requires db.Valid() && caller.Some?
    ensures var r := GetCourseContent(db, caller, courseId);
      && (r.Success? <==> IsEnrolled(db.enrollments, caller.value.userId, courseId))
      && (r.Success? ==>
            && WellOrdered(r.value.tree)
            && multiset(ModulesOf(r.value.tree.modules)) == multiset(Filter(db.modules, InCourse(courseId))))
  {
    if IsEnrolled(db.enrollments, caller.value.userId, courseId) {
      var e :| e in db.enrollments && e.userId == caller.value.userId && e.courseId == courseId;
      LinkedMember(db.enrollments, db.courses, EnrollmentCourse, CourseId, e);
      var c := Lookup(db.courses, CourseId, courseId).value;
      CourseTreeWellOrdered(db, c);
    }
  }
}
