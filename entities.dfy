/** The rows of the relational store, the caller's session and the ways an action fails. */
module Entities {
  import opened Wrappers

  /** Row identifiers carry no meaning of their own; the store hands out fresh ones. */
  type Id = nat

  datatype Role = Instructor | Student

  /** What the session collaborator yields for a signed-in caller. */
  datatype Session = Session(userId: Id, role: Role)

  /** `!session?.user || session.user.role !== 'INSTRUCTOR'` is false. */
  predicate IsInstructor(caller: Option<Session>)
  {
    caller.Some? && caller.value.role == Instructor
  }

  datatype User = User(id: Id, createdAt: nat, name: string, email: string, passwordHash: string, role: Role)

  datatype Course = Course(
    id: Id, createdAt: nat, title: string, description: Option<string>, thumbnail: Option<string>,
    instructorId: Id)

  datatype Module = Module(id: Id, title: string, order: int, courseId: Id)

  datatype Lesson = Lesson(id: Id, title: string, content: string, order: int, moduleId: Id)

  datatype Quiz = Quiz(id: Id, title: string, lessonId: Id)

  /** `options` is the JSON text exactly as submitted. */
  datatype Question = Question(id: Id, text: string, options: string, correctAnswer: int, quizId: Id)

  datatype Enrollment = Enrollment(id: Id, createdAt: nat, userId: Id, courseId: Id)

  /** A score in percent; `NaN` is what `0 / 0 * 100` gives for a quiz without questions. */
  datatype Score = Percent(value: real) | NaN

  datatype QuizAttempt = QuizAttempt(id: Id, createdAt: nat, userId: Id, quizId: Id, score: Score)

  // The keys the tables are ordered by: ids and creation times.
  function UserId(u: User): int { u.id }
  function UserCreatedAt(u: User): int { u.createdAt }
  function CourseId(c: Course): int { c.id }
  function CourseCreatedAt(c: Course): int { c.createdAt }
  function ModuleId(m: Module): int { m.id }
  function LessonId(l: Lesson): int { l.id }
  function QuizId(q: Quiz): int { q.id }
  function QuestionId(q: Question): int { q.id }
  function EnrollmentId(e: Enrollment): int { e.id }
  function EnrollmentCreatedAt(e: Enrollment): int { e.createdAt }
  function AttemptId(a: QuizAttempt): int { a.id }
  function AttemptCreatedAt(a: QuizAttempt): int { a.createdAt }

  // The unique keys besides ids.
  function UserEmail(u: User): string { u.email }
  function EnrollmentPair(e: Enrollment): (Id, Id) { (e.userId, e.courseId) }

  // The foreign keys.
  function ModuleCourse(m: Module): int { m.courseId }
  function LessonModule(l: Lesson): int { l.moduleId }
  function QuizLesson(q: Quiz): int { q.lessonId }
  function QuestionQuiz(q: Question): int { q.quizId }
  function EnrollmentCourse(e: Enrollment): int { e.courseId }

  /** `Thrown` is an `Error` an action throws with its message; `RecordNotFound` is the
      database's error for an `update`/`delete` whose `where` matches no row; `InvalidValue`
      is the database refusing a `NaN` for an integer column; `UniqueViolation` is the
      database refusing a row that breaks a unique constraint. */
  datatype Failure = Thrown(message: string) | RecordNotFound | InvalidValue(field: string) | UniqueViolation(field: string)

  const Unauthorized := Thrown("Unauthorized")

  /** Course → instructorId: the caller owns the course with that id. */
  predicate OwnsCourse(courses: seq<Course>, courseId: Id, userId: Id)
  {
    exists c :: c in courses && c.id == courseId && c.instructorId == userId
  }

  /** Module → Course → instructorId. */
  predicate OwnsModule(courses: seq<Course>, m: Module, userId: Id)
  {
    OwnsCourse(courses, m.courseId, userId)
  }

  /** Lesson → Module → Course → instructorId. */
  predicate OwnsLesson(courses: seq<Course>, modules: seq<Module>, l: Lesson, userId: Id)
  {
    exists m :: m in modules && m.id == l.moduleId && OwnsModule(courses, m, userId)
  }

  /** Quiz → Lesson → Module → Course → instructorId. */
  predicate OwnsQuiz(courses: seq<Course>, modules: seq<Module>, lessons: seq<Lesson>, q: Quiz, userId: Id)
  {
    exists l :: l in lessons && l.id == q.lessonId && OwnsLesson(courses, modules, l, userId)
  }

  /** Question → Quiz → Lesson → Module → Course → instructorId. */
  predicate OwnsQuestion(
    courses: seq<Course>, modules: seq<Module>, lessons: seq<Lesson>, quizzes: seq<Quiz>,
    question: Question, userId: Id)
  {
    exists q :: q in quizzes && q.id == question.quizId && OwnsQuiz(courses, modules, lessons, q, userId)
  }

  /** `findFirst({ where: { id: moduleId, course: { instructorId } } })` finds a row. */
  predicate ModuleOwned(courses: seq<Course>, modules: seq<Module>, moduleId: Id, userId: Id)
  {
    exists m :: m in modules && m.id == moduleId && OwnsModule(courses, m, userId)
  }

  /** `findFirst({ where: { id: lessonId, module: { course: { instructorId } } } })` finds a row. */
  predicate LessonOwned(courses: seq<Course>, modules: seq<Module>, lessons: seq<Lesson>, lessonId: Id, userId: Id)
  {
    exists l :: l in lessons && l.id == lessonId && OwnsLesson(courses, modules, l, userId)
  }

  /** The quiz lookup through lesson, module and course finds a row. */
  predicate QuizOwned(
    courses: seq<Course>, modules: seq<Module>, lessons: seq<Lesson>, quizzes: seq<Quiz>, quizId: Id, userId: Id)
  {
    exists q :: q in quizzes && q.id == quizId && OwnsQuiz(courses, modules, lessons, q, userId)
  }

  /** The question lookup through quiz, lesson, module and course finds a row. */
  predicate QuestionOwned(
    courses: seq<Course>, modules: seq<Module>, lessons: seq<Lesson>, quizzes: seq<Quiz>,
    questions: seq<Question>, questionId: Id, userId: Id)
  {
    exists x :: x in questions && x.id == questionId && OwnsQuestion(courses, modules, lessons, quizzes, x, userId)
  }
}
