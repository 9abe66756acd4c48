/** The instructor's lesson actions: create, edit and delete a lesson of a module. */
module LessonActions {
  import opened Wrappers
  import opened Entities
  import opened Seqs
  import opened FormData
  import opened OrderField
  import opened Database

  /** `formData.get('content') as string || ''`: the content of a new lesson. */
  function NewContent(form: Form): string
  {
    var content := Get(form, "content");
    if Truthy(content) then content.value else ""
  }

  /** A new lesson's content is the text appended under `content`, empty text included, when
      the form held no `content` entry before or already held that same text. It is empty
      when the form has no `content` entry at all. */
  lemma NewContentOfAppend(form: Form, content: string)
    requires Get(form, "content").None? || Get(form, "content") == Some(content)
    ensures NewContent(Append(form, "content", content)) == content
    ensures Get(form, "content").None? ==> NewContent(form) == ""
  {
    GetAppend(form, "content", content, "content");
  }

  method CreateLesson(db: Db, caller: Option<Session>, moduleId: Id, form: Form) returns (r: Result<Lesson, Failure>)
    requires db.Valid()
    modifies db`lessons, db`nextId
    ensures db.Valid()
    ensures !IsInstructor(caller) ==> r == Failure(Unauthorized)
    ensures IsInstructor(caller) && !ModuleOwned(db.courses, db.modules, moduleId, caller.value.userId) ==>
      r == Failure(Thrown("Module not found"))
    ensures IsInstructor(caller) && ModuleOwned(db.courses, db.modules, moduleId, caller.value.userId)
            && !Truthy(Get(form, "title")) ==>
      r == Failure(Thrown("Title is required"))
    ensures IsInstructor(caller) && ModuleOwned(db.courses, db.modules, moduleId, caller.value.userId)
            && Truthy(Get(form, "title")) ==>
      && r == Success(Lesson(old(db.nextId), Get(form, "title").value, NewContent(form), CreateOrder(form), moduleId))
      && db.lessons == old(db.lessons) + [r.value]
    ensures r.Failure? ==> db.lessons == old(db.lessons) && db.nextId == old(db.nextId)
  {
    if !IsInstructor(caller) {
      return Failure(Unauthorized);
    }
    if !ModuleOwned(db.courses, db.modules, moduleId, caller.value.userId) {
      return Failure(Thrown("Module not found"));
    }
    var title := Get(form, "title");
    if !Truthy(title) {
      return Failure(Thrown("Title is required"));
    }
    var m :| m in db.modules && m.id == moduleId && OwnsModule(db.courses, m, caller.value.userId);
    MemberHasKey(db.modules, ModuleId, m);
    var l := db.CreateLesson(title.value, NewContent(form), CreateOrder(form), moduleId);
    return Success(l);
  }

  /** What `updateLesson` does to the row it matches: `title || undefined`, the content
      whenever the field is present (`content !== null`, so an empty one clears it), and the
      order change. */
  function LessonEdit(form: Form): Lesson -> Lesson
  {
    LessonPatch(OrAbsent(Get(form, "title")), Get(form, "content"), OrderArg(OrderUpdate(Get(form, "order"))))
  }

  /** An edit keeps the lesson's identity and module; a present content field is taken even
      when empty, while an empty title is ignored; editing twice is editing once. */
  lemma EditLessonStable(l: Lesson, form: Form)
    ensures var e := LessonEdit(form)(l);
      && e.id == l.id && e.moduleId == l.moduleId
      && e.title == (if Truthy(Get(form, "title")) then Get(form, "title").value else l.title)
      && e.content == (if Get(form, "content").Some? then Get(form, "content").value else l.content)
      && (OrderUpdate(Get(form, "order")).SetTo? ==> e.order == OrderUpdate(Get(form, "order")).value)
      && (!OrderUpdate(Get(form, "order")).SetTo? ==> e.order == l.order)
      && LessonEdit(form)(e) == e
  {
  }

  method UpdateLesson(db: Db, caller: Option<Session>, lessonId: Id, form: Form) returns (r: Result<Lesson, Failure>)
    requires db.Valid()
    modifies db`lessons
    ensures db.Valid()
    ensures !IsInstructor(caller) ==> r == Failure(Unauthorized)
    ensures IsInstructor(caller) && !LessonOwned(db.courses, db.modules, old(db.lessons), lessonId, caller.value.userId) ==>
      r == Failure(Thrown("Lesson not found"))
    ensures IsInstructor(caller) && LessonOwned(db.courses, db.modules, old(db.lessons), lessonId, caller.value.userId)
            && OrderUpdate(Get(form, "order")).NotANumber? ==>
      r == Failure(InvalidValue("order"))
    ensures IsInstructor(caller) && LessonOwned(db.courses, db.modules, old(db.lessons), lessonId, caller.value.userId)
            && !OrderUpdate(Get(form, "order")).NotANumber? ==>
      && r.Success?
      && db.lessons == Replace(old(db.lessons), LessonId, lessonId, LessonEdit(form))
      && r.value in db.lessons
      && exists l :: l in old(db.lessons) && l.id == lessonId && r.value == LessonEdit(form)(l)
    ensures r.Failure? ==> db.lessons == old(db.lessons)
  {
    if !IsInstructor(caller) {
      return Failure(Unauthorized);
    }
    if !LessonOwned(db.courses, db.modules, db.lessons, lessonId, caller.value.userId) {
      return Failure(Thrown("Lesson not found"));
    }
    var change := OrderUpdate(Get(form, "order"));
    if change.NotANumber? {
      return Failure(InvalidValue("order"));
    }
    var l :| l in db.lessons && l.id == lessonId && OwnsLesson(db.courses, db.modules, l, caller.value.userId);
    MemberHasKey(db.lessons, LessonId, l);
    r := db.UpdateLesson(lessonId, OrAbsent(Get(form, "title")), Get(form, "content"), OrderArg(change));
  }

  function LessonIs(lessonId: Id): Lesson -> bool
  {
    (l: Lesson) => l.id == lessonId
  }

  function QuizFor(lessonId: Id): Quiz -> bool
  {
    (q: Quiz) => q.lessonId == lessonId
  }

  /** Deleting a lesson cascades to its quiz and that quiz's questions, and removes nothing
      else: a quiz survives exactly when it belongs to another lesson, a question exactly
      when its quiz does. */
  lemma DeleteLessonCascade(lessons: seq<Lesson>, quizzes: seq<Quiz>, questions: seq<Question>, lessonId: Id)
    requires ChildrenLinked(quizzes, lessons, QuizLesson, LessonId)
    requires ChildrenLinked(questions, quizzes, QuestionQuiz, QuizId)
    requires StrictlyIncreasing(lessons, LessonId) && StrictlyIncreasing(quizzes, QuizId)
    ensures var lessons' := Remove(lessons, LessonId, lessonId);
      var quizzes' := KeepChildren(quizzes, lessons', QuizLesson, LessonId);
      var questions' := KeepChildren(questions, quizzes', QuestionQuiz, QuizId);
      && (forall l :: l in lessons' <==> l in lessons && l.id != lessonId)
      && (forall q :: q in quizzes' <==> q in quizzes && q.lessonId != lessonId)
      && (forall x :: x in questions' <==> x in questions && !Orphaned(quizzes, QuestionQuiz, QuizId, QuizFor(lessonId), x))
  {
    var lessons' := Remove(lessons, LessonId, lessonId);
    RemoveMembers(lessons, LessonId, lessonId);
    Cascade(quizzes, lessons, lessons', QuizLesson, LessonId, LessonIs(lessonId));
    var quizzes' := KeepChildren(quizzes, lessons', QuizLesson, LessonId);
    forall q ensures q in quizzes' <==> q in quizzes && q.lessonId != lessonId {
      if q in quizzes && q.lessonId == lessonId {
        var i :| 0 <= i < |quizzes| && quizzes[i] == q;
        var j :| 0 <= j < |lessons| && LessonId(lessons[j]) == QuizLesson(quizzes[i]);
        assert Orphaned(lessons, QuizLesson, LessonId, LessonIs(lessonId), q) by {
          assert lessons[j] in lessons;
        }
      }
    }
    Cascade(questions, quizzes, quizzes', QuestionQuiz, QuizId, QuizFor(lessonId));
  }

  method DeleteLesson(db: Db, caller: Option<Session>, lessonId: Id) returns (r: Result<(), Failure>)
    requires db.Valid()
    modifies db`lessons, db`quizzes, db`questions
    ensures db.Valid()
    ensures !IsInstructor(caller) ==> r == Failure(Unauthorized)
    ensures IsInstructor(caller) && !LessonOwned(db.courses, db.modules, old(db.lessons), lessonId, caller.value.userId) ==>
      r == Failure(Thrown("Lesson not found"))
    ensures r.Success? <==>
      IsInstructor(caller) && LessonOwned(db.courses, db.modules, old(db.lessons), lessonId, caller.value.userId)
    ensures r.Success? ==>
      && |db.lessons| == |old(db.lessons)| - 1
      && (forall l :: l in db.lessons <==> l in old(db.lessons) && l.id != lessonId)
      && (forall q :: q in db.quizzes <==> q in old(db.quizzes) && q.lessonId != lessonId)
      && (forall x :: x in db.questions <==> x in old(db.questions)
                                             && !Orphaned(old(db.quizzes), QuestionQuiz, QuizId, QuizFor(lessonId), x))
    ensures r.Failure? ==> db.lessons == old(db.lessons) && db.quizzes == old(db.quizzes) && db.questions == old(db.questions)
  {
    if !IsInstructor(caller) {
      return Failure(Unauthorized);
    }
    if !LessonOwned(db.courses, db.modules, db.lessons, lessonId, caller.value.userId) {
      return Failure(Thrown("Lesson not found"));
    }
    var l :| l in db.lessons && l.id == lessonId && OwnsLesson(db.courses, db.modules, l, caller.value.userId);
    MemberHasKey(db.lessons, LessonId, l);
    DeleteLessonCascade(db.lessons, db.quizzes, db.questions, lessonId);
    r := db.DeleteLesson(lessonId);
  }
}
