/** Taking a quiz: scoring a set of answers against the quiz's questions, recording the
    attempt, and reading back the caller's attempts. */
module QuizAttemptActions {
  import opened Wrappers
  import opened Entities
  import opened Seqs
  import opened Database
  import opened CourseViews

  /** `answers: Record<string, number>`: the chosen option index per question id. */
  type Answers = map<Id, int>

  /** `answers[question.id] === question.correctAnswer`: a missing answer is `undefined` and
      never equal. */
  predicate AnsweredCorrectly(answers: Answers, q: Question)
  {
    q.id in answers && answers[q.id] == q.correctAnswer
  }

  function Correct(answers: Answers): Question -> bool
  {
    (q: Question) => AnsweredCorrectly(answers, q)
  }

  /** The number of questions of `qs` answered correctly. */
  function CorrectCount(qs: seq<Question>, answers: Answers): nat
  {
    if qs == [] then 0
    else CorrectCount(qs[..|qs| - 1], answers) + (if AnsweredCorrectly(answers, qs[|qs| - 1]) then 1 else 0)
  }

  /** The scoring loop: one pass over the questions, counting the correct answers. */
  method CountCorrect(qs: seq<Question>, answers: Answers) returns (correct: nat)
    ensures correct == CorrectCount(qs, answers)
  {
    correct := 0;
    for i := 0 to |qs|
      invariant correct == CorrectCount(qs[..i], answers)
    {
      assert qs[..i + 1][..i] == qs[..i];
      if qs[i].id in answers && answers[qs[i].id] == qs[i].correctAnswer {
        correct := correct + 1;
      }
    }
    assert qs[..|qs|] == qs;
  }

  /** At most every question is answered correctly. */
  lemma {:induction false} CorrectCountBound(qs: seq<Question>, answers: Answers)
    ensures CorrectCount(qs, answers) <= |qs|
  {
    if qs != [] {
      CorrectCountBound(qs[..|qs| - 1], answers);
    }
  }

  /** The count is the number of questions answered correctly, counted independently. */
  lemma {:induction false} CorrectCountIsFilter(qs: seq<Question>, answers: Answers)
    ensures CorrectCount(qs, answers) == |Filter(qs, Correct(answers))|
  {
    if qs != [] {
      var init, last := qs[..|qs| - 1], qs[|qs| - 1];
      var p := Correct(answers);
      CorrectCountIsFilter(init, answers);
      FilterAppend(init, [last], p);
      assert init + [last] == qs;
      assert [last][1..] == [];
      assert Filter([last], p) == if p(last) then [last] else [];
      assert |Filter(qs, p)| == |Filter(init, p)| + if AnsweredCorrectly(answers, last) then 1 else 0;
    }
  }

  lemma {:induction false} FilterAppend<T>(a: seq<T>, b: seq<T>, p: T -> bool)
    ensures Filter(a + b, p) == Filter(a, p) + Filter(b, p)
  {
    if a == [] {
      assert a + b == b;
    } else {
      assert (a + b)[1..] == a[1..] + b;
      assert (a + b)[0] == a[0];
      FilterAppend(a[1..], b, p);
    }
  }

  /** Answers given for ids that are not questions of the quiz do not change the count. */
  lemma {:induction false} CorrectCountIgnoresOthers(qs: seq<Question>, answers: Answers, k: Id, v: int)
    requires forall i :: 0 <= i < |qs| ==> qs[i].id != k
    ensures CorrectCount(qs, answers[k := v]) == CorrectCount(qs, answers)
  {
    if qs != [] {
      CorrectCountIgnoresOthers(qs[..|qs| - 1], answers, k, v);
    }
  }

  /** With no answers nothing is correct; with every answer right everything is. */
  lemma {:induction false} CorrectCountExtremes(qs: seq<Question>, answers: Answers)
    ensures CorrectCount(qs, map[]) == 0
    ensures (forall i :: 0 <= i < |qs| ==> AnsweredCorrectly(answers, qs[i])) ==> CorrectCount(qs, answers) == |qs|
  {
    if qs != [] {
      CorrectCountExtremes(qs[..|qs| - 1], answers);
    }
  }

  lemma RatioBounds(correct: nat, total: nat)
    requires total > 0
    ensures correct <= total ==> 0.0 <= correct as real / total as real <= 1.0
    ensures correct == total ==> correct as real / total as real == 1.0
    ensures correct == 0 ==> correct as real / total as real == 0.0
  {
    var q := correct as real / total as real;
    assert q * (total as real) == correct as real;
  }

  /** `(correctAnswers / totalQuestions) * 100`; with no questions this is `0 / 0`, `NaN`. */
  function ScoreOf(correct: nat, total: nat): (s: Score)
    ensures s.NaN? <==> total == 0
    ensures total > 0 && correct <= total ==> 0.0 <= s.value <= 100.0
    ensures total > 0 && correct == total ==> s.value == 100.0
    ensures total > 0 && correct == 0 ==> s.value == 0.0
  {
    if total == 0 then NaN
    else
      var ratio := correct as real / total as real;
      RatioBounds(correct, total);
      Percent(ratio * 100.0)
  }

  /** `quiz.lesson.module.course.id`: the course a quiz belongs to, if its chain exists. */
  function QuizCourse(lessons: seq<Lesson>, modules: seq<Module>, q: Quiz): Option<Id>
  {
    match Lookup(lessons, LessonId, q.lessonId)
    case None => None
    case Some(l) =>
      match Lookup(modules, ModuleId, l.moduleId)
      case None => None
      case Some(m) => Some(m.courseId)
  }

  /** In a valid store every quiz's chain reaches a module. */
  lemma QuizCourseFound(db: Db, q: Quiz)
    requires db.Valid() && q in db.quizzes
    ensures QuizCourse(db.lessons, db.modules, q).Some?
  {
    LinkedMember(db.quizzes, db.lessons, QuizLesson, LessonId, q);
    var l := Lookup(db.lessons, LessonId, q.lessonId).value;
    LinkedMember(db.lessons, db.modules, LessonModule, ModuleId, l);
  }

  /** The caller holds an enrollment in the course of quiz `quizId`. */
  predicate EnrolledForQuiz(db: Db, userId: Id, quizId: Id)
    reads db
  {
    match Lookup(db.quizzes, QuizId, quizId)
    case None => false
    case Some(q) =>
      var c := QuizCourse(db.lessons, db.modules, q);
      c.Some? && IsEnrolled(db.enrollments, userId, c.value)
  }

  /** `{ attempt, score, correctAnswers, totalQuestions }`. */
  datatype Submission = Submission(attempt: QuizAttempt, score: Score, correctAnswers: nat, totalQuestions: nat)

  method SubmitQuizAttempt(db: Db, caller: Option<Session>, quizId: Id, answers: Answers)
    returns (r: Result<Submission, Failure>)
    requires db.Valid()
    modifies db`attempts, db`nextId
    ensures db.Valid()
    ensures caller.None? ==> r == Failure(Unauthorized)
    ensures caller.Some? && !HasKey(db.quizzes, QuizId, quizId) ==> r == Failure(Thrown("Quiz not found"))
    ensures caller.Some? && HasKey(db.quizzes, QuizId, quizId) && !EnrolledForQuiz(db, caller.value.userId, quizId) ==>
      r == Failure(Thrown("You are not enrolled in this course"))
    ensures caller.Some? && EnrolledForQuiz(db, caller.value.userId, quizId) ==>
      var qs := Filter(db.questions, InQuiz(quizId));
      && r.Success?
      && r.value.correctAnswers == CorrectCount(qs, answers)
      && r.value.totalQuestions == |qs|
      && r.value.score == ScoreOf(r.value.correctAnswers, r.value.totalQuestions)
      && r.value.attempt == QuizAttempt(old(db.nextId), old(db.nextId), caller.value.userId, quizId, r.value.score)
      && db.attempts == old(db.attempts) + [r.value.attempt]
    ensures r.Success? ==> r.value.correctAnswers <= r.value.totalQuestions
    ensures r.Failure? ==> db.attempts == old(db.attempts) && db.nextId == old(db.nextId)
  {
    if caller.None? {
      return Failure(Unauthorized);
    }
    var found := Lookup(db.quizzes, QuizId, quizId);
    if found.None? {
      return Failure(Thrown("Quiz not found"));
    }
    var quiz := found.value;
    QuizCourseFound(db, quiz);
    var courseId := QuizCourse(db.lessons, db.modules, quiz).value;
    if !IsEnrolled(db.enrollments, caller.value.userId, courseId) {
      return Failure(Thrown("You are not enrolled in this course"));
    }
    var qs := Filter(db.questions, InQuiz(quizId));
    var correct := CountCorrect(qs, answers);
    CorrectCountBound(qs, answers);
    var total := |qs|;
    var score := ScoreOf(correct, total);
    var attempt := db.CreateAttempt(caller.value.userId, quizId, score);
    return Success(Submission(attempt, score, correct, total));
  }

  function AttemptOf(userId: Id, quizId: Id): QuizAttempt -> bool
  {
    (a: QuizAttempt) => a.userId == userId && a.quizId == quizId
  }

  /** The caller's attempts at one quiz, newest first. */
  function GetQuizAttempts(db: Db, caller: Option<Session>, quizId: Id): (r: Result<seq<QuizAttempt>, Failure>)
    reads db
    ensures r.Failure? <==> caller.None?
    ensures r.Failure? ==> r.error == Unauthorized
  {
    if caller.None? then Failure(Unauthorized)
    else Success(NewestFirst(db.attempts, AttemptOf(caller.value.userId, quizId)))
  }

  /** Only the caller's own attempts at that quiz, all of them, newest first. */
  lemma QuizAttemptsSpec(db: Db, caller: Option<Session>, quizId: Id)
    requires db.Valid() && caller.Some?
    ensures var r := GetQuizAttempts(db, caller, quizId).value;
      && (forall a :: a in r <==> a in db.attempts && a.userId == caller.value.userId && a.quizId == quizId)
      && StrictlyDecreasing(r, AttemptCreatedAt)
  {
    NewestFirstSpec(db.attempts, AttemptOf(caller.value.userId, quizId), AttemptCreatedAt);
  }
}
