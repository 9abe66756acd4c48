/** The instructor's quiz actions: create a lesson's quiz, add a question to it, delete a
    question. */
module QuizActions {
  import opened Wrappers
  import opened Entities
  import opened Seqs
  import opened FormData
  import opened Numbers
  import opened Json
  import opened Database

  /** The option list a question stores: JSON text that parses to an array of at least two
      items of which `correctAnswer` indexes one. */
  predicate ValidOptions(optionsJson: string, correctAnswer: int): (b: bool)
    ensures b ==> correctAnswer >= 0 && SkipWs(optionsJson) != [] && SkipWs(optionsJson)[0] == '['
  {
    ParseStart(optionsJson);
    match Parse(optionsJson)
    case Some(JArray(items)) => |items| >= 2 && 0 <= correctAnswer < |items|
    case _ => false
  }

  /** The fields of a question form that passed every check. */
  datatype QuestionFields = QuestionFields(text: string, options: string, correctAnswer: int)

  /** `createQuestion`'s form checks, in order: the three fields must be present (text and
      options non-empty, the answer a number), then the options must parse as an array of
      at least two items with the answer in range; any parse failure is reported the same
      way. The options are kept as the submitted text. */
  function CheckQuestion(form: Form): (r: Result<QuestionFields, Failure>)
    ensures r.Success? <==>
      && Truthy(Get(form, "text")) && Truthy(Get(form, "options")) && ParseField(Get(form, "correctAnswer")).Some?
      && ValidOptions(Get(form, "options").value, ParseField(Get(form, "correctAnswer")).value)
    ensures r.Success? ==>
      && r.value.text == Get(form, "text").value && r.value.options == Get(form, "options").value
      && Some(r.value.correctAnswer) == ParseField(Get(form, "correctAnswer"))
      && ValidOptions(r.value.options, r.value.correctAnswer)
    ensures r.Failure? ==> r.error == Thrown("All fields are required") || r.error == Thrown("Invalid options format")
    ensures r.Failure? ==>
      (r.error == Thrown("Invalid options format") <==>
        Truthy(Get(form, "text")) && Truthy(Get(form, "options")) && ParseField(Get(form, "correctAnswer")).Some?)
  {
    var text := Get(form, "text");
    var options := Get(form, "options");
    var correctAnswer := ParseField(Get(form, "correctAnswer"));
    if !Truthy(text) || !Truthy(options) || correctAnswer.None? then Failure(Thrown("All fields are required"))
    else if !ValidOptions(options.value, correctAnswer.value) then Failure(Thrown("Invalid options format"))
    else Success(QuestionFields(text.value, options.value, correctAnswer.value))
  }

  /** Every list of at least two strings the editor writes with `JSON.stringify` is accepted
      with any answer index inside it, and refused with any index outside it. */
  lemma StringifiedOptionsValid(xs: seq<string>, correctAnswer: int)
    requires |xs| >= 2
    ensures ValidOptions(StringifyStrings(xs), correctAnswer) <==> 0 <= correctAnswer < |xs|
  {
    StringifyRoundTrip(xs);
  }

  /** Fewer than two options are refused whatever the answer. */
  lemma TooFewOptionsRefused(xs: seq<string>, correctAnswer: int)
    requires |xs| < 2
    ensures !ValidOptions(StringifyStrings(xs), correctAnswer)
  {
    StringifyRoundTrip(xs);
  }

  /** Options text is refused whatever the answer when `JSON.parse` throws on it, which it
      does when its first non-blank character starts no JSON value, and when it parses to
      anything but an array, which it does unless its first non-blank character is `[`. */
  lemma MalformedOptionsRefused(options: string, correctAnswer: int)
    ensures Parse(options).None? ==> !ValidOptions(options, correctAnswer)
    ensures var t := SkipWs(options); (t == [] || !StartsValue(t[0])) ==> Parse(options).None?
    ensures var t := SkipWs(options); (t == [] || t[0] != '[') ==> !ValidOptions(options, correctAnswer)
  {
    ParseStart(options);
  }

  /** A lesson found through its instructor exists. */
  lemma OwnedLessonExists(courses: seq<Course>, modules: seq<Module>, lessons: seq<Lesson>, lessonId: Id, userId: Id)
    requires LessonOwned(courses, modules, lessons, lessonId, userId)
    ensures HasKey(lessons, LessonId, lessonId)
  {
    var l :| l in lessons && l.id == lessonId && OwnsLesson(courses, modules, l, userId);
    MemberHasKey(lessons, LessonId, l);
  }

  /** A quiz found through its instructor exists. */
  lemma OwnedQuizExists(courses: seq<Course>, modules: seq<Module>, lessons: seq<Lesson>, quizzes: seq<Quiz>,
                        quizId: Id, userId: Id)
    requires QuizOwned(courses, modules, lessons, quizzes, quizId, userId)
    ensures HasKey(quizzes, QuizId, quizId)
  {
    var q :| q in quizzes && q.id == quizId && OwnsQuiz(courses, modules, lessons, q, userId);
    MemberHasKey(quizzes, QuizId, q);
  }

  method CreateQuiz(db: Db, caller: Option<Session>, lessonId: Id, form: Form) returns (r: Result<Quiz, Failure>)
    requires db.Valid()
    modifies db`quizzes, db`nextId
    ensures db.Valid()
    ensures !IsInstructor(caller) ==> r == Failure(Unauthorized)
    ensures IsInstructor(caller) && !LessonOwned(db.courses, db.modules, db.lessons, lessonId, caller.value.userId) ==>
      r == Failure(Thrown("Lesson not found"))
    ensures IsInstructor(caller) && LessonOwned(db.courses, db.modules, db.lessons, lessonId, caller.value.userId)
            && !Truthy(Get(form, "title")) ==>
      r == Failure(Thrown("Title is required"))
    ensures IsInstructor(caller) && LessonOwned(db.courses, db.modules, db.lessons, lessonId, caller.value.userId)
            && Truthy(Get(form, "title")) && HasKey(old(db.quizzes), QuizLesson, lessonId) ==>
      r == Failure(UniqueViolation("lessonId"))
    ensures IsInstructor(caller) && LessonOwned(db.courses, db.modules, db.lessons, lessonId, caller.value.userId)
            && Truthy(Get(form, "title")) && !HasKey(old(db.quizzes), QuizLesson, lessonId) ==>
      && r == Success(Quiz(old(db.nextId), Get(form, "title").value, lessonId))
      && db.quizzes == old(db.quizzes) + [r.value]
    ensures r.Failure? ==> db.quizzes == old(db.quizzes) && db.nextId == old(db.nextId)
  {
    if !IsInstructor(caller) {
      return Failure(Unauthorized);
    }
    if !LessonOwned(db.courses, db.modules, db.lessons, lessonId, caller.value.userId) {
      return Failure(Thrown("Lesson not found"));
    }
    var title := Get(form, "title");
    if !Truthy(title) {
      return Failure(Thrown("Title is required"));
    }
    OwnedLessonExists(db.courses, db.modules, db.lessons, lessonId, caller.value.userId);
    r := db.CreateQuiz(title.value, lessonId);
  }

  method CreateQuestion(db: Db, caller: Option<Session>, quizId: Id, form: Form) returns (r: Result<Question, Failure>)
    requires db.Valid()
    modifies db`questions, db`nextId
    ensures db.Valid()
    ensures !IsInstructor(caller) ==> r == Failure(Unauthorized)
    ensures IsInstructor(caller)
            && !QuizOwned(db.courses, db.modules, db.lessons, db.quizzes, quizId, caller.value.userId) ==>
      r == Failure(Thrown("Quiz not found"))
    ensures IsInstructor(caller)
            && QuizOwned(db.courses, db.modules, db.lessons, db.quizzes, quizId, caller.value.userId)
            && CheckQuestion(form).Failure? ==>
      r == Failure(CheckQuestion(form).error)
    ensures IsInstructor(caller)
            && QuizOwned(db.courses, db.modules, db.lessons, db.quizzes, quizId, caller.value.userId)
            && CheckQuestion(form).Success? ==>
      var f := CheckQuestion(form).value;
      && r == Success(Question(old(db.nextId), f.text, f.options, f.correctAnswer, quizId))
      && db.questions == old(db.questions) + [r.value]
    ensures r.Success? ==> ValidOptions(r.value.options, r.value.correctAnswer)
    ensures r.Failure? ==> db.questions == old(db.questions) && db.nextId == old(db.nextId)
  {
    if !IsInstructor(caller) {
      return Failure(Unauthorized);
    }
    if !QuizOwned(db.courses, db.modules, db.lessons, db.quizzes, quizId, caller.value.userId) {
      return Failure(Thrown("Quiz not found"));
    }
    var checked := CheckQuestion(form);
    if checked.Failure? {
      return Failure(checked.error);
    }
    var f := checked.value;
    OwnedQuizExists(db.courses, db.modules, db.lessons, db.quizzes, quizId, caller.value.userId);
    var x := db.CreateQuestion(f.text, f.options, f.correctAnswer, quizId);
    return Success(x);
  }

  method DeleteQuestion(db: Db, caller: Option<Session>, questionId: Id) returns (r: Result<(), Failure>)
    requires db.Valid()
    modifies db`questions
    ensures db.Valid()
    ensures !IsInstructor(caller) ==> r == Failure(Unauthorized)
    ensures IsInstructor(caller)
            && !QuestionOwned(db.courses, db.modules, db.lessons, db.quizzes, old(db.questions), questionId, caller.value.userId) ==>
      r == Failure(Thrown("Question not found"))
    ensures r.Success? <==>
      IsInstructor(caller)
      && QuestionOwned(db.courses, db.modules, db.lessons, db.quizzes, old(db.questions), questionId, caller.value.userId)
    ensures r.Success? ==>
      && db.questions == Remove(old(db.questions), QuestionId, questionId)
      && |db.questions| == |old(db.questions)| - 1
      && forall x :: x in db.questions <==> x in old(db.questions) && x.id != questionId
    ensures r.Failure? ==> db.questions == old(db.questions)
  {
    if !IsInstructor(caller) {
      return Failure(Unauthorized);
    }
    if !QuestionOwned(db.courses, db.modules, db.lessons, db.quizzes, db.questions, questionId, caller.value.userId) {
      return Failure(Thrown("Question not found"));
    }
    var x :| x in db.questions && x.id == questionId
             && OwnsQuestion(db.courses, db.modules, db.lessons, db.quizzes, x, caller.value.userId);
    MemberHasKey(db.questions, QuestionId, x);
    RemoveMembers(db.questions, QuestionId, questionId);
    r := db.DeleteQuestion(questionId);
  }
}
