/** The nested course tree the edit view and the student view fetch: modules by `order`,
    each with its lessons by `order`, each with its quiz and the quiz's questions. */
module CourseViews {
  import opened Wrappers
  import opened Entities
  import opened Seqs
  import Database

  datatype QuizTree = QuizTree(quiz: Quiz, questions: seq<Question>)
  datatype LessonTree = LessonTree(row: Lesson, quiz: Option<QuizTree>)
  datatype ModuleTree = ModuleTree(row: Module, lessons: seq<LessonTree>)
  datatype CourseTree = CourseTree(course: Course, modules: seq<ModuleTree>)

  function LessonOrder(l: Lesson): int { l.order }
  function ModuleOrder(m: Module): int { m.order }
  function InModule(moduleId: Id): Lesson -> bool { (l: Lesson) => l.moduleId == moduleId }
  function InQuiz(quizId: Id): Question -> bool { (x: Question) => x.quizId == quizId }
  function InCourse(courseId: Id): Module -> bool { (m: Module) => m.courseId == courseId }

  function EnrolledIn(courseId: Id): Enrollment -> bool
  {
    (e: Enrollment) => e.courseId == courseId
  }

  /** `_count.enrollments` of a course. */
  function EnrollmentCount(enrollments: seq<Enrollment>, courseId: Id): nat
  {
    |Filter(enrollments, EnrolledIn(courseId))|
  }

  /** `_count.modules` of a course. */
  function ModuleCount(modules: seq<Module>, courseId: Id): nat
  {
    |Filter(modules, InCourse(courseId))|
  }

  function LessonRow(t: LessonTree): Lesson { t.row }
  function ModuleRow(t: ModuleTree): Module { t.row }

  /** The lesson rows of a list of lesson trees. */
  function LessonsOf(ts: seq<LessonTree>): seq<Lesson>
  {
    Project(ts, LessonRow)
  }

  /** The module rows of a list of module trees. */
  function ModulesOf(ts: seq<ModuleTree>): seq<Module>
  {
    Project(ts, ModuleRow)
  }

  /** `quiz: { include: { questions: true } }` of one lesson. */
  function QuizOf(quizzes: seq<Quiz>, questions: seq<Question>, lessonId: Id): (r: Option<QuizTree>)
    ensures r.Some? ==> r.value.quiz in quizzes && r.value.quiz.lessonId == lessonId
    ensures r.Some? ==> forall q :: q in r.value.questions <==> q in questions && q.quizId == r.value.quiz.id
    ensures r.None? <==> forall i :: 0 <= i < |quizzes| ==> quizzes[i].lessonId != lessonId
  {
    match First(quizzes, (q: Quiz) => q.lessonId == lessonId)
    case None => None
    case Some(q) =>
      FilterMembers(questions, InQuiz(q.id));
      Some(QuizTree(q, Filter(questions, InQuiz(q.id))))
  }

  /** The lessons of one module, by `order` (`orderBy: { order: 'asc' }`). */
  function OrderedLessons(lessons: seq<Lesson>, moduleId: Id): (r: seq<Lesson>)
    ensures SortedBy(r, LessonOrder)
    ensures multiset(r) == multiset(Filter(lessons, InModule(moduleId)))
    ensures forall i :: 0 <= i < |r| ==> r[i] in lessons && r[i].moduleId == moduleId
  {
    SortedFilterMembers(lessons, InModule(moduleId), LessonOrder);
    var r := SortBy(Filter(lessons, InModule(moduleId)), LessonOrder);
    assert forall i :: 0 <= i < |r| ==> InModule(moduleId)(r[i]);
    r
  }

  /** The modules of one course, by `order`. */
  function OrderedModules(modules: seq<Module>, courseId: Id): (r: seq<Module>)
    ensures SortedBy(r, ModuleOrder)
    ensures multiset(r) == multiset(Filter(modules, InCourse(courseId)))
    ensures forall i :: 0 <= i < |r| ==> r[i] in modules && r[i].courseId == courseId
  {
    SortedFilterMembers(modules, InCourse(courseId), ModuleOrder);
    var r := SortBy(Filter(modules, InCourse(courseId)), ModuleOrder);
    assert forall i :: 0 <= i < |r| ==> InCourse(courseId)(r[i]);
    r
  }

  /** `lessons: { include: { quiz: ... }, orderBy: { order: 'asc' } }` of one module. */
  function LessonTrees(lessons: seq<Lesson>, quizzes: seq<Quiz>, questions: seq<Question>, moduleId: Id)
    : (r: seq<LessonTree>)
    ensures LessonsOf(r) == OrderedLessons(lessons, moduleId)
    ensures forall i :: 0 <= i < |r| ==> r[i].quiz == QuizOf(quizzes, questions, r[i].row.id)
  {
    var ls := OrderedLessons(lessons, moduleId);
    seq(|ls|, i requires 0 <= i < |ls| => LessonTree(ls[i], QuizOf(quizzes, questions, ls[i].id)))
  }

  /** `modules: { include: { lessons: ... }, orderBy: { order: 'asc' } }` of one course. */
  function ModuleTrees(
    modules: seq<Module>, lessons: seq<Lesson>, quizzes: seq<Quiz>, questions: seq<Question>, courseId: Id)
    : (r: seq<ModuleTree>)
    ensures ModulesOf(r) == OrderedModules(modules, courseId)
    ensures forall i :: 0 <= i < |r| ==> r[i].lessons == LessonTrees(lessons, quizzes, questions, r[i].row.id)
  {
    var ms := OrderedModules(modules, courseId);
    seq(|ms|, i requires 0 <= i < |ms| =>
      ModuleTree(ms[i], LessonTrees(lessons, quizzes, questions, ms[i].id)))
  }

  function CourseTreeOf(db: Database.Db, c: Course): (r: CourseTree)
    reads db
    ensures r.course == c
    ensures SortedBy(ModulesOf(r.modules), ModuleOrder)
    ensures multiset(ModulesOf(r.modules)) == multiset(Filter(db.modules, InCourse(c.id)))
  {
    CourseTree(c, ModuleTrees(db.modules, db.lessons, db.quizzes, db.questions, c.id))
  }

  /** What both nested views promise of every level: each module of the tree belongs to the
      course, each lesson to its module, and each level is in ascending `order`. */
  ghost predicate WellOrdered(t: CourseTree)
  {
    && SortedBy(ModulesOf(t.modules), ModuleOrder)
    && (forall i :: 0 <= i < |t.modules| ==> t.modules[i].row.courseId == t.course.id)
    && (forall i :: 0 <= i < |t.modules| ==>
          && SortedBy(LessonsOf(t.modules[i].lessons), LessonOrder)
          && forall j :: 0 <= j < |t.modules[i].lessons| ==>
               t.modules[i].lessons[j].row.moduleId == t.modules[i].row.id)
  }

  /** Every tree the store builds for a course is well ordered. */
  lemma CourseTreeWellOrdered(db: Database.Db, c: Course)
    ensures WellOrdered(CourseTreeOf(db, c))
  {
  }
}
