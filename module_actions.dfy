/** The instructor's module actions: create, edit and delete a module of a course. */
module ModuleActions {
  import opened Wrappers
  import opened Entities
  import opened Seqs
  import opened FormData
  import opened OrderField
  import opened Database
  import opened CourseViews

  /** What `updateModule` does to the row it matches. */
  function ModuleEdit(form: Form): Module -> Module
  {
    ModulePatch(OrAbsent(Get(form, "title")), OrderArg(OrderUpdate(Get(form, "order"))))
  }

  /** An edit keeps the module's identity and course, takes a non-empty title and a parsed
      order, keeps the old ones otherwise, and editing twice is editing once. */
  lemma EditModuleStable(m: Module, form: Form)
    ensures var e := ModuleEdit(form)(m);
      && e.id == m.id && e.courseId == m.courseId
      && e.title == (if Truthy(Get(form, "title")) then Get(form, "title").value else m.title)
      && (OrderUpdate(Get(form, "order")).SetTo? ==> e.order == OrderUpdate(Get(form, "order")).value)
      && (!OrderUpdate(Get(form, "order")).SetTo? ==> e.order == m.order)
      && ModuleEdit(form)(e) == e
  {
  }

  method CreateModule(db: Db, caller: Option<Session>, courseId: Id, form: Form) returns (r: Result<Module, Failure>)
    requires db.Valid()
    modifies db`modules, db`nextId
    ensures db.Valid()
    ensures !IsInstructor(caller) ==> r == Failure(Unauthorized)
    ensures IsInstructor(caller) && !OwnsCourse(db.courses, courseId, caller.value.userId) ==>
      r == Failure(Thrown("Course not found"))
    ensures IsInstructor(caller) && OwnsCourse(db.courses, courseId, caller.value.userId) && !Truthy(Get(form, "title")) ==>
      r == Failure(Thrown("Title is required"))
    ensures IsInstructor(caller) && OwnsCourse(db.courses, courseId, caller.value.userId) && Truthy(Get(form, "title")) ==>
      && r == Success(Module(old(db.nextId), Get(form, "title").value, CreateOrder(form), courseId))
      && db.modules == old(db.modules) + [r.value]
    ensures r.Failure? ==> db.modules == old(db.modules) && db.nextId == old(db.nextId)
  {
    if !IsInstructor(caller) {
      return Failure(Unauthorized);
    }
    if !OwnsCourse(db.courses, courseId, caller.value.userId) {
      return Failure(Thrown("Course not found"));
    }
    var title := Get(form, "title");
    if !Truthy(title) {
      return Failure(Thrown("Title is required"));
    }
    OwnedCourseExists(db.courses, courseId, caller.value.userId);
    var m := db.CreateModule(title.value, CreateOrder(form), courseId);
    return Success(m);
  }

  method UpdateModule(db: Db, caller: Option<Session>, moduleId: Id, form: Form) returns (r: Result<Module, Failure>)
    requires db.Valid()
    modifies db`modules
    ensures db.Valid()
    ensures !IsInstructor(caller) ==> r == Failure(Unauthorized)
    ensures IsInstructor(caller) && !ModuleOwned(db.courses, old(db.modules), moduleId, caller.value.userId) ==>
      r == Failure(Thrown("Module not found"))
    ensures IsInstructor(caller) && ModuleOwned(db.courses, old(db.modules), moduleId, caller.value.userId)
            && OrderUpdate(Get(form, "order")).NotANumber? ==>
      r == Failure(InvalidValue("order"))
    ensures IsInstructor(caller) && ModuleOwned(db.courses, old(db.modules), moduleId, caller.value.userId)
            && !OrderUpdate(Get(form, "order")).NotANumber? ==>
      && r.Success?
      && db.modules == Replace(old(db.modules), ModuleId, moduleId, ModuleEdit(form))
      && r.value in db.modules
      && exists m :: m in old(db.modules) && m.id == moduleId && r.value == ModuleEdit(form)(m)
    ensures r.Failure? ==> db.modules == old(db.modules)
  {
    if !IsInstructor(caller) {
      return Failure(Unauthorized);
    }
    if !ModuleOwned(db.courses, db.modules, moduleId, caller.value.userId) {
      return Failure(Thrown("Module not found"));
    }
    var change := OrderUpdate(Get(form, "order"));
    if change.NotANumber? {
      return Failure(InvalidValue("order"));
    }
    var m :| m in db.modules && m.id == moduleId && OwnsModule(db.courses, m, caller.value.userId);
    MemberHasKey(db.modules, ModuleId, m);
    r := db.UpdateModule(moduleId, OrAbsent(Get(form, "title")), OrderArg(change));
  }

  function ModuleIs(moduleId: Id): Module -> bool
  {
    (m: Module) => m.id == moduleId
  }

  /** The quizzes whose lesson lies in the module. */
  ghost function QuizInModule(lessons: seq<Lesson>, moduleId: Id): Quiz -> bool
  {
    (q: Quiz) => Orphaned(lessons, QuizLesson, LessonId, InModule(moduleId), q)
  }

  /** Deleting a module cascades to its lessons, their quizzes and those quizzes' questions,
      and removes nothing else: a lesson survives exactly when it is not in the module, a
      quiz exactly when its lesson is not, and a question exactly when its quiz's lesson is
      not. */
  lemma DeleteModuleCascade(
    modules: seq<Module>, lessons: seq<Lesson>, quizzes: seq<Quiz>, questions: seq<Question>, moduleId: Id)
    requires ChildrenLinked(lessons, modules, LessonModule, ModuleId)
    requires ChildrenLinked(quizzes, lessons, QuizLesson, LessonId)
    requires ChildrenLinked(questions, quizzes, QuestionQuiz, QuizId)
    requires StrictlyIncreasing(modules, ModuleId) && StrictlyIncreasing(lessons, LessonId)
    requires StrictlyIncreasing(quizzes, QuizId)
    ensures var modules' := Remove(modules, ModuleId, moduleId);
      var lessons' := KeepChildren(lessons, modules', LessonModule, ModuleId);
      var quizzes' := KeepChildren(quizzes, lessons', QuizLesson, LessonId);
      var questions' := KeepChildren(questions, quizzes', QuestionQuiz, QuizId);
      && (forall m :: m in modules' <==> m in modules && m.id != moduleId)
      && (forall l :: l in lessons' <==> l in lessons && l.moduleId != moduleId)
      && (forall q :: q in quizzes' <==> q in quizzes && !Orphaned(lessons, QuizLesson, LessonId, InModule(moduleId), q))
      && (forall x :: x in questions' <==> x in questions
                                            && !Orphaned(quizzes, QuestionQuiz, QuizId, QuizInModule(lessons, moduleId), x))
  {
    var modules' := Remove(modules, ModuleId, moduleId);
    RemoveMembers(modules, ModuleId, moduleId);
    Cascade(lessons, modules, modules', LessonModule, ModuleId, ModuleIs(moduleId));
    var lessons' := KeepChildren(lessons, modules', LessonModule, ModuleId);
    forall l ensures l in lessons' <==> l in lessons && l.moduleId != moduleId {
      if l in lessons && l.moduleId == moduleId {
        var i :| 0 <= i < |lessons| && lessons[i] == l;
        var j :| 0 <= j < |modules| && ModuleId(modules[j]) == lessons[i].moduleId;
        assert Orphaned(modules, LessonModule, ModuleId, ModuleIs(moduleId), l) by {
          assert modules[j] in modules;
        }
      }
    }
    Cascade(quizzes, lessons, lessons', QuizLesson, LessonId, InModule(moduleId));
    var quizzes' := KeepChildren(quizzes, lessons', QuizLesson, LessonId);
    Cascade(questions, quizzes, quizzes', QuestionQuiz, QuizId, QuizInModule(lessons, moduleId));
  }

  method DeleteModule(db: Db, caller: Option<Session>, moduleId: Id) returns (r: Result<(), Failure>)
    requires db.Valid()
    modifies db`modules, db`lessons, db`quizzes, db`questions
    ensures db.Valid()
    ensures !IsInstructor(caller) ==> r == Failure(Unauthorized)
    ensures IsInstructor(caller) && !ModuleOwned(db.courses, old(db.modules), moduleId, caller.value.userId) ==>
      r == Failure(Thrown("Module not found"))
    ensures r.Success? <==> IsInstructor(caller) && ModuleOwned(db.courses, old(db.modules), moduleId, caller.value.userId)
    ensures r.Success? ==>
      && |db.modules| == |old(db.modules)| - 1
      && (forall m :: m in db.modules <==> m in old(db.modules) && m.id != moduleId)
      && (forall l :: l in db.lessons <==> l in old(db.lessons) && l.moduleId != moduleId)
      && (forall q :: q in db.quizzes <==> q in old(db.quizzes)
                                           && !Orphaned(old(db.lessons), QuizLesson, LessonId, InModule(moduleId), q))
      && (forall x :: x in db.questions <==> x in old(db.questions)
                                             && !Orphaned(old(db.quizzes), QuestionQuiz, QuizId,
                                                          QuizInModule(old(db.lessons), moduleId), x))
    ensures r.Failure? ==>
      db.modules == old(db.modules) && db.lessons == old(db.lessons) && db.quizzes == old(db.quizzes)
      && db.questions == old(db.questions)
  {
    if !IsInstructor(caller) {
      return Failure(Unauthorized);
    }
    if !ModuleOwned(db.courses, db.modules, moduleId, caller.value.userId) {
      return Failure(Thrown("Module not found"));
    }
    var m :| m in db.modules && m.id == moduleId && OwnsModule(db.courses, m, caller.value.userId);
    MemberHasKey(db.modules, ModuleId, m);
    DeleteModuleCascade(db.modules, db.lessons, db.quizzes, db.questions, moduleId);
    r := db.DeleteModule(moduleId);
  }
}
