/** The course editor's submit handlers: each completes the submitted form with the fields
    the page knows (a child's position, the lesson text, the serialised options) and calls
    the matching server action. The page's `course` is the nested view it was rendered
    from; a failing action's message is what the handler alerts. */
module CourseEditor {
  import opened Wrappers
  import opened Entities
  import opened Seqs
  import opened Numbers
  import opened FormData
  import opened Json
  import opened Database
  import opened CourseViews
  import opened OrderField
  import ModuleActions
  import LessonActions
  import QuizActions

  /** What a handler does: stop with an alert before calling the server, or call it. */
  datatype Outcome<T> = Aborted(message: string) | Submitted(result: Result<T, Failure>)

  /** `formData.append('order', course.modules.length.toString())`. */
  function ModuleForm(course: CourseTree, form: Form): Form
  {
    Append(form, "order", NatToString(|course.modules|))
  }

  /** The module the server creates is placed after the page's modules: its order is the
      number of modules shown, and the user's title reaches the server untouched. */
  lemma ModuleFormSpec(course: CourseTree, form: Form)
    requires Get(form, "order").None?
    ensures CreateOrder(ModuleForm(course, form)) == |course.modules|
    ensures Get(ModuleForm(course, form), "title") == Get(form, "title")
  {
    GetAppend(form, "order", NatToString(|course.modules|), "order");
    GetAppend(form, "order", NatToString(|course.modules|), "title");
    CreateOrderSpec(ModuleForm(course, form), |course.modules|);
  }

  method HandleCreateModule(db: Db, caller: Option<Session>, course: CourseTree, form: Form)
    returns (out: Outcome<Module>)
    requires db.Valid()
    modifies db`modules, db`nextId
    ensures db.Valid()
    ensures out.Submitted?
    ensures out.result.Success? && Get(form, "order").None? ==>
      && out.result.value.order == |course.modules|
      && out.result.value.courseId == course.course.id
      && Some(out.result.value.title) == Get(form, "title")
      && db.modules == old(db.modules) + [out.result.value]
  {
    if Get(form, "order").None? {
      ModuleFormSpec(course, form);
    }
    var r := ModuleActions.CreateModule(db, caller, course.course.id, ModuleForm(course, form));
    return Submitted(r);
  }

  function TreeIs(moduleId: Id): ModuleTree -> bool
  {
    (t: ModuleTree) => t.row.id == moduleId
  }

  /** `course.modules.find(m => m.id === moduleId)?.lessons.length || 0`. */
  function LessonPosition(course: CourseTree, moduleId: Id): nat
  {
    match First(course.modules, TreeIs(moduleId))
    case None => 0
    case Some(t) => |t.lessons|
  }

  /** The form `handleCreateLesson` sends: the position, then the editor's text. */
  function LessonForm(course: CourseTree, moduleId: Id, form: Form, content: string): Form
  {
    Append(Append(form, "order", NatToString(LessonPosition(course, moduleId))), "content", content)
  }

  /** The new lesson goes after the lessons the page shows for its module (first position
      when the page does not show that module), and carries the editor's text. The page's
      form already holds that text in its hidden `content` input, so the appended entry
      repeats it. */
  lemma LessonFormSpec(course: CourseTree, moduleId: Id, form: Form, content: string)
    requires Get(form, "order").None?
    requires Get(form, "content").None? || Get(form, "content") == Some(content)
    ensures CreateOrder(LessonForm(course, moduleId, form, content)) == LessonPosition(course, moduleId)
    ensures LessonActions.NewContent(LessonForm(course, moduleId, form, content)) == content
    ensures Get(LessonForm(course, moduleId, form, content), "title") == Get(form, "title")
  {
    var n := NatToString(LessonPosition(course, moduleId));
    var f1 := Append(form, "order", n);
    GetAppend(form, "order", n, "order");
    GetAppend(form, "order", n, "title");
    GetAppend(form, "order", n, "content");
    GetAppend(f1, "content", content, "order");
    GetAppend(f1, "content", content, "title");
    LessonActions.NewContentOfAppend(f1, content);
    CreateOrderSpec(LessonForm(course, moduleId, form, content), LessonPosition(course, moduleId));
  }

  method HandleCreateLesson(db: Db, caller: Option<Session>, course: CourseTree, moduleId: Id, form: Form, content: string)
    returns (out: Outcome<Lesson>)
    requires db.Valid()
    modifies db`lessons, db`nextId
    ensures db.Valid()
    ensures out.Submitted?
    ensures out.result.Success? && Get(form, "order").None?
            && (Get(form, "content").None? || Get(form, "content") == Some(content)) ==>
      && out.result.value.order == LessonPosition(course, moduleId)
      && out.result.value.content == content
      && out.result.value.moduleId == moduleId
      && Some(out.result.value.title) == Get(form, "title")
      && db.lessons == old(db.lessons) + [out.result.value]
  {
    if Get(form, "order").None? && (Get(form, "content").None? || Get(form, "content") == Some(content)) {
      LessonFormSpec(course, moduleId, form, content);
    }
    var r := LessonActions.CreateLesson(db, caller, moduleId, LessonForm(course, moduleId, form, content));
    return Submitted(r);
  }

  /** When the page shows the store's current tree of a course, the positions it hands out
      are the numbers of rows already there. */
  lemma PositionsAreCounts(db: Db, c: Course, moduleId: Id)
    ensures |CourseTreeOf(db, c).modules| == ModuleCount(db.modules, c.id)
    ensures First(CourseTreeOf(db, c).modules, TreeIs(moduleId)).Some? ==>
      LessonPosition(CourseTreeOf(db, c), moduleId) == |Filter(db.lessons, InModule(moduleId))|
  {
    var t := CourseTreeOf(db, c);
    assert |multiset(ModulesOf(t.modules))| == |multiset(Filter(db.modules, InCourse(c.id)))|;
    var found := First(t.modules, TreeIs(moduleId));
    if found.Some? {
      var m := found.value;
      var i :| 0 <= i < |t.modules| && t.modules[i] == m;
      assert m.lessons == LessonTrees(db.lessons, db.quizzes, db.questions, m.row.id);
      assert |multiset(OrderedLessons(db.lessons, moduleId))| == |multiset(Filter(db.lessons, InModule(moduleId)))|;
      assert |LessonsOf(m.lessons)| == |m.lessons|;
    }
  }

  /** The name of the `i`-th option input. */
  function OptionName(i: nat): string
  {
    "option" + NatToString(i)
  }

  /** The present, non-empty values among `value(0)`, ..., `value(n - 1)`, in that order. */
  function Present(value: nat -> Option<string>, n: nat): seq<string>
  {
    if n == 0 then []
    else Present(value, n - 1) + (if Truthy(value(n - 1)) then [value(n - 1).value] else [])
  }

  /** The option inputs of the form, by position. */
  function OptionInputs(form: Form): nat -> Option<string>
  {
    (i: nat) => Get(form, OptionName(i))
  }

  /** The non-empty values of the first `n` option inputs, in input order. */
  function Collected(form: Form, n: nat): seq<string>
  {
    Present(OptionInputs(form), n)
  }

  /** The options loop of `handleCreateQuestion`. */
  method CollectOptions(form: Form) returns (options: seq<string>)
    ensures options == Collected(form, 4)
  {
    options := [];
    for i := 0 to 4
      invariant options == Collected(form, i)
    {
      var option := Get(form, OptionName(i));
      if option.Some? && option.value != "" {
        options := options + [option.value];
      }
    }
  }

  /** `Present` holds, in increasing position order, every present non-empty value and
      nothing else: there is a strictly increasing list of positions, each below `n`, whose
      values are the collected ones and which lists every position with such a value. */
  lemma {:induction false} PresentSpec(value: nat -> Option<string>, n: nat) returns (idx: seq<nat>)
    ensures |idx| == |Present(value, n)| <= n
    ensures forall k :: 0 <= k < |idx| ==>
      idx[k] < n && Truthy(value(idx[k])) && Present(value, n)[k] == value(idx[k]).value
    ensures forall k, l :: 0 <= k < l < |idx| ==> idx[k] < idx[l]
    ensures forall i :: 0 <= i < n && Truthy(value(i)) ==> i in idx
  {
    if n == 0 {
      idx := [];
    } else {
      var v := value(n - 1);
      var prev := PresentSpec(value, n - 1);
      var cp := Present(value, n - 1);
      if Truthy(v) {
        idx := prev + [n - 1];
        assert Present(value, n) == cp + [v.value];
        forall k | 0 <= k < |idx|
          ensures idx[k] < n && Truthy(value(idx[k])) && Present(value, n)[k] == value(idx[k]).value
        {
          if k < |prev| {
            assert idx[k] == prev[k] && Present(value, n)[k] == cp[k];
          }
        }
        forall k, l | 0 <= k < l < |idx| ensures idx[k] < idx[l] {
          assert idx[k] == prev[k];
          if l < |prev| {
            assert idx[l] == prev[l];
          }
        }
        forall i | 0 <= i < n && Truthy(value(i)) ensures i in idx {
          if i < n - 1 {
            assert i in prev;
          } else {
            assert idx[|prev|] == i;
          }
        }
      } else {
        idx := prev;
        assert Present(value, n) == cp;
      }
    }
  }

  /** `Collected` holds, in increasing input order, the value of every option input that is
      non-empty and nothing else. */
  lemma CollectedSpec(form: Form, n: nat) returns (idx: seq<nat>)
    ensures |idx| == |Collected(form, n)| <= n
    ensures forall k :: 0 <= k < |idx| ==>
      idx[k] < n && Truthy(Get(form, OptionName(idx[k]))) && Collected(form, n)[k] == Get(form, OptionName(idx[k])).value
    ensures forall k, l :: 0 <= k < l < |idx| ==> idx[k] < idx[l]
    ensures forall i :: 0 <= i < n && Truthy(Get(form, OptionName(i))) ==> i in idx
  {
    idx := PresentSpec(OptionInputs(form), n);
  }

  /** The form `handleCreateQuestion` sends: the collected options as a JSON array. */
  function QuestionForm(form: Form, options: seq<string>): Form
  {
    Append(form, "options", StringifyStrings(options))
  }

  /** What the server sees of the options: they parse back to the collected list, so the
      server accepts them exactly when the chosen answer indexes one of them. */
  lemma QuestionFormSpec(form: Form, correctAnswer: int)
    requires Get(form, "options").None? && |Collected(form, 4)| >= 2
    ensures Get(QuestionForm(form, Collected(form, 4)), "options") == Some(StringifyStrings(Collected(form, 4)))
    ensures Parse(Get(QuestionForm(form, Collected(form, 4)), "options").value) == Some(JArray(Strings(Collected(form, 4))))
    ensures QuizActions.ValidOptions(Get(QuestionForm(form, Collected(form, 4)), "options").value, correctAnswer)
        <==> 0 <= correctAnswer < |Collected(form, 4)|
  {
    var opts := Collected(form, 4);
    GetAppend(form, "options", StringifyStrings(opts), "options");
    StringifyRoundTrip(opts);
    QuizActions.StringifiedOptionsValid(opts, correctAnswer);
  }

  method HandleCreateQuestion(db: Db, caller: Option<Session>, quizId: Id, form: Form)
    returns (out: Outcome<Question>)
    requires db.Valid()
    modifies db`questions, db`nextId
    ensures db.Valid()
    ensures |Collected(form, 4)| < 2 <==> out == Aborted("Please provide at least 2 options")
    ensures out.Aborted? ==> db.questions == old(db.questions) && db.nextId == old(db.nextId)
    ensures out.Submitted? && out.result.Success? && Get(form, "options").None? ==>
      && out.result.value.options == StringifyStrings(Collected(form, 4))
      && out.result.value.quizId == quizId
      && 0 <= out.result.value.correctAnswer < |Collected(form, 4)|
      && db.questions == old(db.questions) + [out.result.value]
  {
    var options := CollectOptions(form);
    if |options| < 2 {
      return Aborted("Please provide at least 2 options");
    }
    var sent := QuestionForm(form, options);
    var r := QuizActions.CreateQuestion(db, caller, quizId, sent);
    if r.Success? && Get(form, "options").None? {
      QuestionFormSpec(form, r.value.correctAnswer);
    }
    return Submitted(r);
  }
}
