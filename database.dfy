/** The relational store behind the actions, one table per entity, and the database calls
    the actions make on it. Each table lists its rows in creation order; `nextId` hands out
    fresh ids and stands for the creation clock. */
module Database {
  import opened Wrappers
  import opened Entities
  import opened Seqs

  /** `update`'s `data` for a course: an absent title is left alone, the description is set. */
  function CoursePatch(title: Option<string>, description: Option<string>): Course -> Course
  {
    (c: Course) => c.(title := if title.Some? then title.value else c.title, description := description)
  }

  /** `update`'s `data` for a module; `None` is `undefined`: the column is left alone. */
  function ModulePatch(title: Option<string>, order: Option<int>): Module -> Module
  {
    (m: Module) => m.(title := if title.Some? then title.value else m.title,
                      order := if order.Some? then order.value else m.order)
  }

  /** `update`'s `data` for a lesson; `None` is `undefined`: the column is left alone. */
  function LessonPatch(title: Option<string>, content: Option<string>, order: Option<int>): Lesson -> Lesson
  {
    (l: Lesson) => l.(title := if title.Some? then title.value else l.title,
                      content := if content.Some? then content.value else l.content,
                      order := if order.Some? then order.value else l.order)
  }

  /** `update`'s `data` for a user: name and email are set, the password only when given. */
  function UserPatch(name: string, email: string, passwordHash: Option<string>): User -> User
  {
    (u: User) => u.(name := name, email := email,
                    passwordHash := if passwordHash.Some? then passwordHash.value else u.passwordHash)
  }

  /** Patching a course keeps ids, creation times and the rows that point at courses. */
  lemma CoursesPatched(courses: seq<Course>, modules: seq<Module>, enrollments: seq<Enrollment>, id: Id,
                       title: Option<string>, description: Option<string>, n: int)
    requires IncreasingBelow(courses, CourseId, n) && IncreasingBelow(courses, CourseCreatedAt, n)
    requires ChildrenLinked(modules, courses, ModuleCourse, CourseId)
    requires ChildrenLinked(enrollments, courses, EnrollmentCourse, CourseId)
    ensures var after := Replace(courses, CourseId, id, CoursePatch(title, description));
      && IncreasingBelow(after, CourseId, n) && IncreasingBelow(after, CourseCreatedAt, n)
      && ChildrenLinked(modules, after, ModuleCourse, CourseId)
      && ChildrenLinked(enrollments, after, EnrollmentCourse, CourseId)
  {
    var f := CoursePatch(title, description);
    ReplaceIncreasingBelow(courses, CourseId, id, f, CourseId, n);
    ReplaceIncreasingBelow(courses, CourseId, id, f, CourseCreatedAt, n);
    LinkedReplaceParent(modules, courses, CourseId, id, f, ModuleCourse, CourseId);
    LinkedReplaceParent(enrollments, courses, CourseId, id, f, EnrollmentCourse, CourseId);
  }

  /** Patching a module keeps ids, its course and the lessons that point at modules. */
  lemma ModulesPatched(courses: seq<Course>, modules: seq<Module>, lessons: seq<Lesson>, id: Id,
                       title: Option<string>, order: Option<int>, n: int)
    requires IncreasingBelow(modules, ModuleId, n)
    requires ChildrenLinked(modules, courses, ModuleCourse, CourseId)
    requires ChildrenLinked(lessons, modules, LessonModule, ModuleId)
    ensures var after := Replace(modules, ModuleId, id, ModulePatch(title, order));
      && IncreasingBelow(after, ModuleId, n)
      && ChildrenLinked(after, courses, ModuleCourse, CourseId)
      && ChildrenLinked(lessons, after, LessonModule, ModuleId)
  {
    var f := ModulePatch(title, order);
    ReplaceIncreasingBelow(modules, ModuleId, id, f, ModuleId, n);
    LinkedReplaceChild(modules, ModuleId, id, f, courses, ModuleCourse, CourseId);
    LinkedReplaceParent(lessons, modules, ModuleId, id, f, LessonModule, ModuleId);
  }

  /** Patching a lesson keeps ids, its module and the quizzes that point at lessons. */
  lemma LessonsPatched(modules: seq<Module>, lessons: seq<Lesson>, quizzes: seq<Quiz>, id: Id,
                       title: Option<string>, content: Option<string>, order: Option<int>, n: int)
    requires IncreasingBelow(lessons, LessonId, n)
    requires ChildrenLinked(lessons, modules, LessonModule, ModuleId)
    requires ChildrenLinked(quizzes, lessons, QuizLesson, LessonId)
    ensures var after := Replace(lessons, LessonId, id, LessonPatch(title, content, order));
      && IncreasingBelow(after, LessonId, n)
      && ChildrenLinked(after, modules, LessonModule, ModuleId)
      && ChildrenLinked(quizzes, after, QuizLesson, LessonId)
  {
    var f := LessonPatch(title, content, order);
    ReplaceIncreasingBelow(lessons, LessonId, id, f, LessonId, n);
    LinkedReplaceChild(lessons, LessonId, id, f, modules, LessonModule, ModuleId);
    LinkedReplaceParent(quizzes, lessons, LessonId, id, f, QuizLesson, LessonId);
  }

  /** Patching user `id` with an email no other user holds keeps ids, creation times and
      unique emails. */
  lemma UsersPatched(users: seq<User>, id: Id, name: string, email: string, passwordHash: Option<string>, n: int)
    requires IncreasingBelow(users, UserId, n) && IncreasingBelow(users, UserCreatedAt, n)
    requires Distinct(users, UserEmail) && !EmailTakenByOther(users, email, id)
    ensures var after := Replace(users, UserId, id, UserPatch(name, email, passwordHash));
      && IncreasingBelow(after, UserId, n) && IncreasingBelow(after, UserCreatedAt, n)
      && Distinct(after, UserEmail)
  {
    var f := UserPatch(name, email, passwordHash);
    ReplaceIncreasingBelow(users, UserId, id, f, UserId, n);
    ReplaceIncreasingBelow(users, UserId, id, f, UserCreatedAt, n);
    var after := Replace(users, UserId, id, f);
    forall i, j | 0 <= i < j < |after| ensures UserEmail(after[i]) != UserEmail(after[j]) {
      if users[i].id == id {
        assert users[j].id != id;
        assert users[j] in users;
      } else if users[j].id == id {
        assert users[i] in users;
      }
    }
  }

  /** `where: { id, role: 'STUDENT' }`. */
  predicate IsStudentRow(users: seq<User>, id: Id)
  {
    exists u :: u in users && u.id == id && u.role == Student
  }

  /** `findUnique({ where: { userId_courseId } })` finds a row. */
  predicate IsEnrolled(enrollments: seq<Enrollment>, userId: Id, courseId: Id)
  {
    exists e :: e in enrollments && e.userId == userId && e.courseId == courseId
  }

  /** `findUnique({ where: { email } })` finds a row. */
  predicate EmailTaken(users: seq<User>, email: string)
  {
    exists u :: u in users && u.email == email
  }

  /** Some user other than `id` has the email. */
  predicate EmailTakenByOther(users: seq<User>, email: string, id: Id)
  {
    exists u :: u in users && u.email == email && u.id != id
  }

  class Db {
    var users: seq<User>
    var courses: seq<Course>
    var modules: seq<Module>
    var lessons: seq<Lesson>
    var quizzes: seq<Quiz>
    var questions: seq<Question>
    var enrollments: seq<Enrollment>
    var attempts: seq<QuizAttempt>
    var nextId: nat

    /** The store's integrity rules. Ids and creation times increase along every table and
        lie below `nextId`; the foreign keys of the content tree and of enrollments name
        existing rows; `User.email`, `Enrollment(userId, courseId)` and `Quiz.lessonId` are
        unique. */
    ghost predicate Valid()
      reads this
    {
      && IncreasingBelow(users, UserId, nextId)
      && IncreasingBelow(users, UserCreatedAt, nextId)
      && IncreasingBelow(courses, CourseId, nextId)
      && IncreasingBelow(courses, CourseCreatedAt, nextId)
      && IncreasingBelow(modules, ModuleId, nextId)
      && IncreasingBelow(lessons, LessonId, nextId)
      && IncreasingBelow(quizzes, QuizId, nextId)
      && IncreasingBelow(questions, QuestionId, nextId)
      && IncreasingBelow(enrollments, EnrollmentId, nextId)
      && IncreasingBelow(enrollments, EnrollmentCreatedAt, nextId)
      && IncreasingBelow(attempts, AttemptId, nextId)
      && IncreasingBelow(attempts, AttemptCreatedAt, nextId)
      && ChildrenLinked(modules, courses, ModuleCourse, CourseId)
      && ChildrenLinked(lessons, modules, LessonModule, ModuleId)
      && ChildrenLinked(quizzes, lessons, QuizLesson, LessonId)
      && ChildrenLinked(questions, quizzes, QuestionQuiz, QuizId)
      && ChildrenLinked(enrollments, courses, EnrollmentCourse, CourseId)
      && Distinct(users, UserEmail)
      && Distinct(enrollments, EnrollmentPair)
      && Distinct(quizzes, QuizLesson)
    }

    /** The id and creation-time part of `Valid()` for a counter `n`. */
    ghost predicate FreshBelow(n: int)
      reads this
    {
      && IncreasingBelow(users, UserId, n)
      && IncreasingBelow(users, UserCreatedAt, n)
      && IncreasingBelow(courses, CourseId, n)
      && IncreasingBelow(courses, CourseCreatedAt, n)
      && IncreasingBelow(modules, ModuleId, n)
      && IncreasingBelow(lessons, LessonId, n)
      && IncreasingBelow(quizzes, QuizId, n)
      && IncreasingBelow(questions, QuestionId, n)
      && IncreasingBelow(enrollments, EnrollmentId, n)
      && IncreasingBelow(enrollments, EnrollmentCreatedAt, n)
      && IncreasingBelow(attempts, AttemptId, n)
      && IncreasingBelow(attempts, AttemptCreatedAt, n)
    }

    /** The unique-constraint part of `Valid()`. */
    ghost predicate Unique()
      reads this
    {
      Distinct(users, UserEmail) && Distinct(enrollments, EnrollmentPair) && Distinct(quizzes, QuizLesson)
    }

    /** An empty store. */
    constructor ()
      ensures Valid()
      ensures users == [] && courses == [] && modules == [] && lessons == [] && quizzes == []
      ensures questions == [] && enrollments == [] && attempts == [] && nextId == 0
    {
      users, courses, modules, lessons := [], [], [], [];
      quizzes, questions, enrollments, attempts := [], [], [], [];
      nextId := 0;
    }

    /** Takes the next id; it doubles as the creation time of the row it is given to. */
    method Allocate() returns (id: Id)
      requires Valid()
      modifies `nextId
      ensures id == old(nextId) && nextId == id + 1
      ensures Valid()
    {
      id := nextId;
      nextId := nextId + 1;
    }

    /** `user.create`; the email must be unused. */
    method CreateUser(name: string, email: string, passwordHash: string, role: Role) returns (r: Result<User, Failure>)
      requires Valid()
      modifies `users, `nextId
      ensures Valid()
      ensures EmailTaken(old(users), email) ==> r == Failure(UniqueViolation("email"))
      ensures !EmailTaken(old(users), email) ==>
        && r == Success(User(old(nextId), old(nextId), name, email, passwordHash, role))
        && users == old(users) + [r.value]
      ensures r.Failure? ==> users == old(users) && nextId == old(nextId)
    {
      if EmailTaken(users, email) {
        return Failure(UniqueViolation("email"));
      }
      var id := Allocate();
      var u := User(id, id, name, email, passwordHash, role);
      forall i | 0 <= i < |users| ensures UserEmail(users[i]) != UserEmail(u) {
        assert users[i] in users;
      }
      AppendDistinct(users, u, UserEmail);
      AppendIncreasingBelow(users, u, UserId, id, nextId);
      AppendIncreasingBelow(users, u, UserCreatedAt, id, nextId);
      users := users + [u];
      return Success(u);
    }

    /** `user.update({ where: { id, role: 'STUDENT' } })`; the new email must not be another user's. */
    method UpdateStudent(id: Id, name: string, email: string, passwordHash: Option<string>) returns (r: Result<User, Failure>)
      requires Valid()
      modifies `users
      ensures Valid()
      ensures !IsStudentRow(old(users), id) ==> r == Failure(RecordNotFound)
      ensures IsStudentRow(old(users), id) && EmailTakenByOther(old(users), email, id) ==>
        r == Failure(UniqueViolation("email"))
      ensures IsStudentRow(old(users), id) && !EmailTakenByOther(old(users), email, id) ==>
        && r.Success?
        && users == Replace(old(users), UserId, id, UserPatch(name, email, passwordHash))
        && r.value in users
        && exists u :: u in old(users) && u.id == id && u.role == Student && r.value == UserPatch(name, email, passwordHash)(u)
      ensures r.Failure? ==> users == old(users)
    {
      if !IsStudentRow(users, id) {
        return Failure(RecordNotFound);
      }
      if EmailTakenByOther(users, email, id) {
        return Failure(UniqueViolation("email"));
      }
      var u :| u in users && u.id == id && u.role == Student;
      var f := UserPatch(name, email, passwordHash);
      var before := users;
      UsersPatched(users, id, name, email, passwordHash, nextId);
      users := Replace(users, UserId, id, f);
      var i :| 0 <= i < |before| && before[i] == u;
      assert users[i] == f(u);
      return Success(f(u));
    }

    /** `user.delete({ where: { id, role: 'STUDENT' } })`. */
    method DeleteStudent(id: Id) returns (r: Result<(), Failure>)
      requires Valid()
      modifies `users
      ensures Valid()
      ensures r.Failure? <==> !IsStudentRow(old(users), id)
      ensures r.Failure? ==> r.error == RecordNotFound && users == old(users)
      ensures r.Success? ==> users == Remove(old(users), UserId, id) && |users| == |old(users)| - 1
    {
      if !IsStudentRow(users, id) {
        return Failure(RecordNotFound);
      }
      var u :| u in users && u.id == id && u.role == Student;
      RemoveUnique(users, UserId, id);
      var i :| 0 <= i < |users| && users[i] == u;
      assert UserId(users[i]) == id;
      RemoveIncreasingBelow(users, UserId, id, UserId, nextId);
      RemoveIncreasingBelow(users, UserId, id, UserCreatedAt, nextId);
      RemoveDistinct(users, UserId, id, UserEmail);
      users := Remove(users, UserId, id);
      return Success(());
    }

    /** `course.create`. */
    method CreateCourse(title: string, description: Option<string>, thumbnail: Option<string>, instructorId: Id)
      returns (c: Course)
      requires Valid()
      modifies `courses, `nextId
      ensures Valid()
      ensures c == Course(old(nextId), old(nextId), title, description, thumbnail, instructorId)
      ensures courses == old(courses) + [c] && nextId == old(nextId) + 1
    {
      var id := Allocate();
      c := Course(id, id, title, description, thumbnail, instructorId);
      AppendIncreasingBelow(courses, c, CourseId, id, nextId);
      AppendIncreasingBelow(courses, c, CourseCreatedAt, id, nextId);
      LinkedAppendParent(modules, courses, c, ModuleCourse, CourseId);
      LinkedAppendParent(enrollments, courses, c, EnrollmentCourse, CourseId);
      courses := courses + [c];
    }

    /** `course.update({ where: { id, instructorId } })`. */
    method UpdateCourse(id: Id, instructorId: Id, title: Option<string>, description: Option<string>)
      returns (r: Result<Course, Failure>)
      requires Valid()
      modifies `courses
      ensures Valid()
      ensures r.Failure? <==> !OwnsCourse(old(courses), id, instructorId)
      ensures r.Failure? ==> r.error == RecordNotFound && courses == old(courses)
      ensures r.Success? ==>
        && courses == Replace(old(courses), CourseId, id, CoursePatch(title, description))
        && r.value in courses
        && exists c :: c in old(courses) && c.id == id && c.instructorId == instructorId
                       && r.value == CoursePatch(title, description)(c)
    {
      if !OwnsCourse(courses, id, instructorId) {
        return Failure(RecordNotFound);
      }
      var c :| c in courses && c.id == id && c.instructorId == instructorId;
      var f := CoursePatch(title, description);
      var before := courses;
      CoursesPatched(courses, modules, enrollments, id, title, description, nextId);
      courses := Replace(courses, CourseId, id, f);
      var i :| 0 <= i < |before| && before[i] == c;
      assert courses[i] == f(c);
      return Success(f(c));
    }

    /** `module.create`; the course must exist. */
    method CreateModule(title: string, order: int, courseId: Id) returns (m: Module)
      requires Valid() && HasKey(courses, CourseId, courseId)
      modifies `modules, `nextId
      ensures Valid()
      ensures m == Module(old(nextId), title, order, courseId)
      ensures modules == old(modules) + [m] && nextId == old(nextId) + 1
    {
      var id := Allocate();
      m := Module(id, title, order, courseId);
      AppendIncreasingBelow(modules, m, ModuleId, id, nextId);
      LinkedAppendChild(modules, m, courses, ModuleCourse, CourseId);
      LinkedAppendParent(lessons, modules, m, LessonModule, ModuleId);
      modules := modules + [m];
    }

    /** `module.update({ where: { id } })`. */
    method UpdateModule(id: Id, title: Option<string>, order: Option<int>) returns (r: Result<Module, Failure>)
      requires Valid()
      modifies `modules
      ensures Valid()
      ensures r.Failure? <==> !HasKey(old(modules), ModuleId, id)
      ensures r.Failure? ==> r.error == RecordNotFound && modules == old(modules)
      ensures r.Success? ==>
        && modules == Replace(old(modules), ModuleId, id, ModulePatch(title, order))
        && r.value in modules
        && exists m :: m in old(modules) && m.id == id && r.value == ModulePatch(title, order)(m)
    {
      if !HasKey(modules, ModuleId, id) {
        return Failure(RecordNotFound);
      }
      var i :| 0 <= i < |modules| && ModuleId(modules[i]) == id;
      var m := modules[i];
      var f := ModulePatch(title, order);
      ModulesPatched(courses, modules, lessons, id, title, order, nextId);
      modules := Replace(modules, ModuleId, id, f);
      assert modules[i] == f(m);
      return Success(f(m));
    }

    /** The last step of a cascading delete: the questions whose quiz is gone are deleted. */
    method PruneQuestions()
      requires FreshBelow(nextId) && Unique()
      requires ChildrenLinked(modules, courses, ModuleCourse, CourseId)
      requires ChildrenLinked(lessons, modules, LessonModule, ModuleId)
      requires ChildrenLinked(quizzes, lessons, QuizLesson, LessonId)
      requires ChildrenLinked(enrollments, courses, EnrollmentCourse, CourseId)
      modifies `questions
      ensures Valid()
      ensures questions == KeepChildren(old(questions), quizzes, QuestionQuiz, QuizId)
    {
      LinkedKeep(questions, quizzes, QuestionQuiz, QuizId);
      KeepChildrenIncreasingBelow(questions, quizzes, QuestionQuiz, QuizId, QuestionId, nextId);
      questions := KeepChildren(questions, quizzes, QuestionQuiz, QuizId);
    }

    /** A cascading delete from the lessons down: the quizzes whose lesson is gone are
        deleted, and then their questions. */
    method PruneQuizzes()
      requires FreshBelow(nextId) && Unique()
      requires ChildrenLinked(modules, courses, ModuleCourse, CourseId)
      requires ChildrenLinked(lessons, modules, LessonModule, ModuleId)
      requires ChildrenLinked(questions, quizzes, QuestionQuiz, QuizId)
      requires ChildrenLinked(enrollments, courses, EnrollmentCourse, CourseId)
      modifies `quizzes, `questions
      ensures Valid()
      ensures quizzes == KeepChildren(old(quizzes), lessons, QuizLesson, LessonId)
      ensures questions == KeepChildren(old(questions), quizzes, QuestionQuiz, QuizId)
    {
      LinkedKeep(quizzes, lessons, QuizLesson, LessonId);
      KeepChildrenIncreasingBelow(quizzes, lessons, QuizLesson, LessonId, QuizId, nextId);
      KeepChildrenDistinct(quizzes, lessons, QuizLesson, LessonId, QuizLesson);
      quizzes := KeepChildren(quizzes, lessons, QuizLesson, LessonId);
      PruneQuestions();
    }

    /** A cascading delete from the modules down: the lessons whose module is gone are
        deleted, and then their quizzes and questions. */
    method PruneLessons()
      requires FreshBelow(nextId) && Unique()
      requires ChildrenLinked(modules, courses, ModuleCourse, CourseId)
      requires ChildrenLinked(quizzes, lessons, QuizLesson, LessonId)
      requires ChildrenLinked(questions, quizzes, QuestionQuiz, QuizId)
      requires ChildrenLinked(enrollments, courses, EnrollmentCourse, CourseId)
      modifies `lessons, `quizzes, `questions
      ensures Valid()
      ensures lessons == KeepChildren(old(lessons), modules, LessonModule, ModuleId)
      ensures quizzes == KeepChildren(old(quizzes), lessons, QuizLesson, LessonId)
      ensures questions == KeepChildren(old(questions), quizzes, QuestionQuiz, QuizId)
    {
      LinkedKeep(lessons, modules, LessonModule, ModuleId);
      KeepChildrenIncreasingBelow(lessons, modules, LessonModule, ModuleId, LessonId, nextId);
      lessons := KeepChildren(lessons, modules, LessonModule, ModuleId);
      PruneQuizzes();
    }

    /** `module.delete({ where: { id } })`, cascading to the module's lessons, their quizzes
        and their questions. */
    method DeleteModule(id: Id) returns (r: Result<(), Failure>)
      requires Valid()
      modifies `modules, `lessons, `quizzes, `questions
      ensures Valid()
      ensures r.Failure? <==> !HasKey(old(modules), ModuleId, id)
      ensures r.Failure? ==> r.error == RecordNotFound
      ensures r.Failure? ==>
        modules == old(modules) && lessons == old(lessons) && quizzes == old(quizzes) && questions == old(questions)
      ensures r.Success? ==>
        && modules == Remove(old(modules), ModuleId, id)
        && |modules| == |old(modules)| - 1
        && lessons == KeepChildren(old(lessons), modules, LessonModule, ModuleId)
        && quizzes == KeepChildren(old(quizzes), lessons, QuizLesson, LessonId)
        && questions == KeepChildren(old(questions), quizzes, QuestionQuiz, QuizId)
    {
      if !HasKey(modules, ModuleId, id) {
        return Failure(RecordNotFound);
      }
      RemoveUnique(modules, ModuleId, id);
      RemoveIncreasingBelow(modules, ModuleId, id, ModuleId, nextId);
      LinkedRemoveChild(modules, ModuleId, id, courses, ModuleCourse, CourseId);
      modules := Remove(modules, ModuleId, id);
      PruneLessons();
      return Success(());
    }

    /** `lesson.create`; the module must exist. */
    method CreateLesson(title: string, content: string, order: int, moduleId: Id) returns (l: Lesson)
      requires Valid() && HasKey(modules, ModuleId, moduleId)
      modifies `lessons, `nextId
      ensures Valid()
      ensures l == Lesson(old(nextId), title, content, order, moduleId)
      ensures lessons == old(lessons) + [l] && nextId == old(nextId) + 1
    {
      var id := Allocate();
      l := Lesson(id, title, content, order, moduleId);
      AppendIncreasingBelow(lessons, l, LessonId, id, nextId);
      LinkedAppendChild(lessons, l, modules, LessonModule, ModuleId);
      LinkedAppendParent(quizzes, lessons, l, QuizLesson, LessonId);
      lessons := lessons + [l];
    }

    /** `lesson.update({ where: { id } })`. */
    method UpdateLesson(id: Id, title: Option<string>, content: Option<string>, order: Option<int>)
      returns (r: Result<Lesson, Failure>)
      requires Valid()
      modifies `lessons
      ensures Valid()
      ensures r.Failure? <==> !HasKey(old(lessons), LessonId, id)
      ensures r.Failure? ==> r.error == RecordNotFound && lessons == old(lessons)
      ensures r.Success? ==>
        && lessons == Replace(old(lessons), LessonId, id, LessonPatch(title, content, order))
        && r.value in lessons
        && exists l :: l in old(lessons) && l.id == id && r.value == LessonPatch(title, content, order)(l)
    {
      if !HasKey(lessons, LessonId, id) {
        return Failure(RecordNotFound);
      }
      var i :| 0 <= i < |lessons| && LessonId(lessons[i]) == id;
      var l := lessons[i];
      var f := LessonPatch(title, content, order);
      LessonsPatched(modules, lessons, quizzes, id, title, content, order, nextId);
      lessons := Replace(lessons, LessonId, id, f);
      assert lessons[i] == f(l);
      return Success(f(l));
    }

    /** `lesson.delete({ where: { id } })`, cascading to the lesson's quiz and its questions. */
    method DeleteLesson(id: Id) returns (r: Result<(), Failure>)
      requires Valid()
      modifies `lessons, `quizzes, `questions
      ensures Valid()
      ensures r.Failure? <==> !HasKey(old(lessons), LessonId, id)
      ensures r.Failure? ==> r.error == RecordNotFound
      ensures r.Failure? ==> lessons == old(lessons) && quizzes == old(quizzes) && questions == old(questions)
      ensures r.Success? ==>
        && lessons == Remove(old(lessons), LessonId, id)
        && |lessons| == |old(lessons)| - 1
        && quizzes == KeepChildren(old(quizzes), lessons, QuizLesson, LessonId)
        && questions == KeepChildren(old(questions), quizzes, QuestionQuiz, QuizId)
    {
      if !HasKey(lessons, LessonId, id) {
        return Failure(RecordNotFound);
      }
      RemoveUnique(lessons, LessonId, id);
      RemoveIncreasingBelow(lessons, LessonId, id, LessonId, nextId);
      LinkedRemoveChild(lessons, LessonId, id, modules, LessonModule, ModuleId);
      lessons := Remove(lessons, LessonId, id);
      PruneQuizzes();
      return Success(());
    }

    /** `quiz.create`; the lesson must exist and must not have a quiz yet. */
    method CreateQuiz(title: string, lessonId: Id) returns (r: Result<Quiz, Failure>)
      requires Valid() && HasKey(lessons, LessonId, lessonId)
      modifies `quizzes, `nextId
      ensures Valid()
      ensures HasKey(old(quizzes), QuizLesson, lessonId) ==> r == Failure(UniqueViolation("lessonId"))
      ensures !HasKey(old(quizzes), QuizLesson, lessonId) ==>
        r == Success(Quiz(old(nextId), title, lessonId)) && quizzes == old(quizzes) + [r.value]
      ensures r.Failure? ==> quizzes == old(quizzes) && nextId == old(nextId)
    {
      if HasKey(quizzes, QuizLesson, lessonId) {
        return Failure(UniqueViolation("lessonId"));
      }
      var id := Allocate();
      var q := Quiz(id, title, lessonId);
      AppendIncreasingBelow(quizzes, q, QuizId, id, nextId);
      AppendNewKey(quizzes, q, QuizLesson);
      LinkedAppendChild(quizzes, q, lessons, QuizLesson, LessonId);
      LinkedAppendParent(questions, quizzes, q, QuestionQuiz, QuizId);
      quizzes := quizzes + [q];
      return Success(q);
    }

    /** `question.create`; the quiz must exist. */
    method CreateQuestion(text: string, options: string, correctAnswer: int, quizId: Id) returns (x: Question)
      requires Valid() && HasKey(quizzes, QuizId, quizId)
      modifies `questions, `nextId
      ensures Valid()
      ensures x == Question(old(nextId), text, options, correctAnswer, quizId)
      ensures questions == old(questions) + [x] && nextId == old(nextId) + 1
    {
      var id := Allocate();
      x := Question(id, text, options, correctAnswer, quizId);
      AppendIncreasingBelow(questions, x, QuestionId, id, nextId);
      LinkedAppendChild(questions, x, quizzes, QuestionQuiz, QuizId);
      questions := questions + [x];
    }

    /** `question.delete({ where: { id } })`. */
    method DeleteQuestion(id: Id) returns (r: Result<(), Failure>)
      requires Valid()
      modifies `questions
      ensures Valid()
      ensures r.Failure? <==> !HasKey(old(questions), QuestionId, id)
      ensures r.Failure? ==> r.error == RecordNotFound && questions == old(questions)
      ensures r.Success? ==> questions == Remove(old(questions), QuestionId, id) && |questions| == |old(questions)| - 1
    {
      if !HasKey(questions, QuestionId, id) {
        return Failure(RecordNotFound);
      }
      RemoveUnique(questions, QuestionId, id);
      RemoveIncreasingBelow(questions, QuestionId, id, QuestionId, nextId);
      LinkedRemoveChild(questions, QuestionId, id, quizzes, QuestionQuiz, QuizId);
      questions := Remove(questions, QuestionId, id);
      return Success(());
    }

    /** `enrollment.create`; the course must exist and the pair must be new. */
    method CreateEnrollment(userId: Id, courseId: Id) returns (r: Result<Enrollment, Failure>)
      requires Valid() && HasKey(courses, CourseId, courseId)
      modifies `enrollments, `nextId
      ensures Valid()
      ensures IsEnrolled(old(enrollments), userId, courseId) ==> r == Failure(UniqueViolation("userId_courseId"))
      ensures !IsEnrolled(old(enrollments), userId, courseId) ==>
        && r == Success(Enrollment(old(nextId), old(nextId), userId, courseId))
        && enrollments == old(enrollments) + [r.value]
      ensures r.Failure? ==> enrollments == old(enrollments) && nextId == old(nextId)
    {
      if IsEnrolled(enrollments, userId, courseId) {
        return Failure(UniqueViolation("userId_courseId"));
      }
      var id := Allocate();
      var e := Enrollment(id, id, userId, courseId);
      forall i | 0 <= i < |enrollments| ensures EnrollmentPair(enrollments[i]) != EnrollmentPair(e) {
        assert enrollments[i] in enrollments;
      }
      AppendDistinct(enrollments, e, EnrollmentPair);
      LinkedAppendChild(enrollments, e, courses, EnrollmentCourse, CourseId);
      AppendIncreasingBelow(enrollments, e, EnrollmentId, id, nextId);
      AppendIncreasingBelow(enrollments, e, EnrollmentCreatedAt, id, nextId);
      enrollments := enrollments + [e];
      return Success(e);
    }

    /** `quizAttempt.create`. */
    method CreateAttempt(userId: Id, quizId: Id, score: Score) returns (a: QuizAttempt)
      requires Valid()
      modifies `attempts, `nextId
      ensures Valid()
      ensures a == QuizAttempt(old(nextId), old(nextId), userId, quizId, score)
      ensures attempts == old(attempts) + [a] && nextId == old(nextId) + 1
    {
      var id := Allocate();
      a := QuizAttempt(id, id, userId, quizId, score);
      AppendIncreasingBelow(attempts, a, AttemptId, id, nextId);
      AppendIncreasingBelow(attempts, a, AttemptCreatedAt, id, nextId);
      attempts := attempts + [a];
    }
  }

  /** An owned course exists. */
  lemma OwnedCourseExists(courses: seq<Course>, courseId: Id, userId: Id)
    requires OwnsCourse(courses, courseId, userId)
    ensures HasKey(courses, CourseId, courseId)
  {
    var c :| c in courses && c.id == courseId && c.instructorId == userId;
    var i :| 0 <= i < |courses| && courses[i] == c;
    assert CourseId(courses[i]) == courseId;
  }
}
