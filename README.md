# Course platform server actions, modelled in Dafny

This project models the business logic of a small learning-management application.
- Instructors own courses. A course holds modules, a module holds lessons, and a lesson may hold one quiz with multiple-choice questions.
- Instructors also manage student accounts and upload course thumbnails.
- Students enroll in courses, read their content and take quizzes, each attempt being scored and recorded.

The model covers these parts of the application:
- the server actions for courses, modules, lessons, quizzes, enrollments, quiz attempts and students;
- the validation of the thumbnail upload endpoint;
- the three submit handlers of the course editor that complete a form before calling an action.

The relational store is the class `Database.Db`, with one sequence of rows per table. Rows are listed in creation order, and `nextId` hands out fresh ids and creation times. Its integrity rules are collected in `Db.Valid()`:
- ids and creation times increase along each table and stay below `nextId`;
- every module, lesson, quiz, question and enrollment names an existing parent;
- emails, `(userId, courseId)` pairs and quiz `lessonId`s are unique.

Each database call the actions make is a `Db` method, and each method proves that it keeps `Valid()`. Each action is a method or function over the store. It does four things:
1. It takes the session as `Option<Session>`.
2. It runs the role check and the ownership lookups in the order of the source, with the same messages (`Thrown("Course not found")` and so on).
3. It makes the database call.
4. Its contract states the whole outcome: which rows are added, changed or removed.

The store's own refusals are their own failures:
- `RecordNotFound` for an `update`/`delete` whose `where` matches nothing;
- `UniqueViolation` for a broken unique key;
- `InvalidValue` for a `NaN` in an integer column.

The JavaScript runtime pieces the actions depend on are written out:
- `String.prototype.trim` (module `Text`);
- `parseInt` with its whitespace, sign, `0x` and longest-digit-prefix rules, and `Number.prototype.toString` for naturals (module `Numbers`);
- `FormData.get`/`append` (module `FormData`);
- a JSON parser together with the `JSON.stringify` of a string list (module `Json`), round trip included.

Identifiers are naturals rather than cuid strings. The clock is the id counter.

Some behaviours of the code that are easy to miss:
- `createCourse`, `createModule`, `createLesson` and `createQuiz` check the title for being non-empty before any trimming. An all-whitespace course title passes the check and is stored as `""`.
- `updateCourse` neither trims the title nor the description. An empty description sets it to null.
- `getInstructorCourses` orders modules but not the lessons inside them. The lessons come in table order.
- A present but non-numeric `order` in `updateModule`/`updateLesson` is `NaN`, which the database refuses (`InvalidValue("order")`).
- A second `createQuiz` for the same lesson is refused by the unique `lessonId` column (`UniqueViolation("lessonId")`). No thrown message is involved.
- Deleting a module removes its lessons, their quizzes and the quizzes' questions, and deleting a lesson removes its quiz and questions. This is taken as a rule of the store: the foreign keys cascade on delete. The Prisma schema that declares them, `prisma/schema.prisma`, is not part of this model. It is modelled in `Db.DeleteModule`/`Db.DeleteLesson`. The action code itself only deletes the one row.
- The file-name replacement of the upload endpoint and the `\u` escapes of `JSON.parse` work on UTF-16 code units. The model's strings are sequences of Unicode characters, so both places count a character outside the Basic Multilingual Plane as its two code units.

## Model

| member | source | states |
|---|---|---|
| Database.UsersPatched | app/actions/student.ts:122-128 | Patching one user with an email no other user holds keeps ids and creation times increasing and emails unique. |
| Database.CoursesPatched | app/actions/course.ts:123-132 | Patching one course keeps ids and creation times increasing and every module and enrollment linked to an existing course. |
| Database.ModulesPatched | app/actions/module.ts:69-77 | Patching one module keeps ids increasing, the module's course existing and every lesson linked to an existing module. |
| Database.LessonsPatched | app/actions/lesson.ts:79-88 | Patching one lesson keeps ids increasing, the lesson's module existing and every quiz linked to an existing lesson. |
| Database.Db.CreateUser | app/actions/student.ts:35-42 | Appends exactly one user with a fresh id and the given fields. A taken email is refused with `UniqueViolation("email")` and nothing changes. Keeps `Valid()`. |
| Database.Db.UpdateStudent | app/actions/student.ts:122-128 | Changes only a row with that id and role STUDENT. Otherwise `RecordNotFound` and nothing changes. Name and email are set, and the hash is replaced only when one is given. Keeps emails unique. |
| Database.Db.DeleteStudent | app/actions/student.ts:141-146 | Removes exactly the row with that id when it is a student, one row fewer. Otherwise `RecordNotFound` and nothing changes. |
| Database.Db.CreateCourse | app/actions/course.ts:28-35 | Appends exactly one course with a fresh id and the given fields. |
| Database.Db.UpdateCourse | app/actions/course.ts:123-132 | Updates only the course with that id and owner. Otherwise `RecordNotFound`. |
| Database.Db.CreateModule | app/actions/module.ts:33-39 | Appends exactly one module of an existing course. |
| Database.Db.UpdateModule | app/actions/module.ts:69-77 | Replaces the row with that id by its patched form. Identity and course are kept. |
| Database.Db.DeleteModule | app/actions/module.ts:105-109 | Removes the module, then every lesson, quiz and question left without a parent. Keeps `Valid()`. |
| Database.Db.CreateLesson | app/actions/lesson.ts:36-43 | Appends exactly one lesson of an existing module. |
| Database.Db.UpdateLesson | app/actions/lesson.ts:79-88 | Replaces the row with that id by its patched form. |
| Database.Db.DeleteLesson | app/actions/lesson.ts:121-125 | Removes the lesson, its quiz and that quiz's questions. |
| Database.Db.CreateQuiz | app/actions/quiz.ts:39-44 | Appends one quiz, unless its lesson already has one (`UniqueViolation("lessonId")`). |
| Database.Db.CreateQuestion | app/actions/quiz.ts:104-111 | Appends exactly one question of an existing quiz. |
| Database.Db.DeleteQuestion | app/actions/quiz.ts:156-160 | Removes exactly the question with that id. |
| Database.Db.CreateEnrollment | app/actions/enrollment.ts:103-108 | Appends one enrollment, unless the pair already exists (`UniqueViolation`). Keeps pairs unique. |
| Database.Db.CreateAttempt | app/actions/quiz-attempt.ts:63-69 | Appends exactly one attempt and modifies no existing one. |
| Text.TrimIdempotent | app/actions/course.ts:24-31 | `trim` of a trimmed string changes nothing. |
| Text.TrimEmptyIff | app/actions/course.ts:24-31 | `s.trim() === ''` exactly when `s` is all whitespace. |
| Text.TrimIsSlice | app/actions/course.ts:30 | The trimmed title is the slice of the input between whitespace-only borders. |
| Numbers.ParseIntOfNatToString | components/course-editor.tsx:57 | `parseInt(n.toString()) == n`. The position the editor sends is the position the server stores. |
| Numbers.AbsentFieldIsNaN | app/actions/module.ts:27 | `parseInt` of an absent field is `NaN`, which the fallback turns into 0. |
| Numbers.ParseIntNaN | app/actions/quiz.ts:84-86 | `isNaN(parseInt(s))` holds exactly when, after leading whitespace and sign, no decimal digit follows, or a `0x` prefix has no hexadecimal digit after it. |
| FormData.GetAppend | components/course-editor.tsx:57 | An appended entry is what `get` returns for its name exactly when no earlier entry has that name. Other names are unaffected. |
| Json.StringifyRoundTrip | components/course-editor.tsx:164 | `JSON.parse(JSON.stringify(xs))` is the array of the strings `xs`. |
| Json.ParseStart | app/actions/quiz.ts:93-95 | `JSON.parse` throws when the first non-blank character starts no value, and yields an array only when that character is `[`. |
| Json.SurrogateEscapesRoundTrip | app/actions/quiz.ts:93 | The two `\u` escapes of a surrogate pair are read back as the one character they encode. |
| CourseActions.OptionalTextNormalised | app/actions/course.ts:24-26 | The thumbnail and the description follow one rule. Absent or whitespace-only becomes null. Anything else is kept trimmed and is never `""`. |
| CourseActions.NewCourseNormalised | app/actions/course.ts:18-35 | A created course has a trimmed title that is `""` exactly when the title was all whitespace. It has no empty optional text, and the caller as instructor. |
| CourseActions.CreateCourse | app/actions/course.ts:7-39 | A non-instructor gets `Unauthorized`, then a missing or empty title gets "Title is required". Both leave the store unchanged. Otherwise exactly the normalised row is appended, newer than every existing course. |
| CourseActions.EditCourseStable | app/actions/course.ts:128-131 | An edit keeps id, owner and thumbnail, and keeps the old title for an empty one. It sets the description to exactly the submitted text or null. Applying it twice is applying it once. |
| CourseActions.UpdateCourse | app/actions/course.ts:113-136 | `Unauthorized`, or `RecordNotFound` for a course the caller does not own, with the store unchanged. Otherwise only that row is replaced by its edit. |
| CourseActions.InstructorCoursesSpec | app/actions/course.ts:41-73 | The list holds exactly the caller's courses, newest first. Each course's modules are a permutation of its own modules in ascending order. Each module has exactly its lessons, and each course its enrollment count. |
| CourseActions.GetInstructorCourses | app/actions/course.ts:41-46 | Fails with `Unauthorized` exactly for a caller who is not an instructor. The content is pinned by `InstructorCoursesSpec`. |
| CourseActions.GetCourseById | app/actions/course.ts:75-111 | Fails exactly for a caller who is not an instructor. |
| CourseActions.CourseByIdSpec | app/actions/course.ts:82-110 | The result is present exactly when the caller owns the course. A present result is that course's tree, holding all of the course's modules and well ordered at every level. |
| CourseViews.OrderedModules | app/actions/enrollment.ts:146-164 | The modules of a course sorted by `order`, and a permutation of exactly that course's modules. |
| CourseViews.OrderedLessons | app/actions/enrollment.ts:148-159 | The lessons of a module sorted by `order`, and a permutation of exactly that module's lessons. |
| CourseViews.QuizOf | app/actions/enrollment.ts:150-154 | A lesson's quiz with exactly its questions, or none when the lesson has no quiz. |
| CourseViews.CourseTreeOf | app/actions/course.ts:87-107 | The nested view's modules are sorted and a permutation of the course's modules. |
| OrderField.CreateOrderSpec | app/actions/module.ts:27 | A new row's order is the submitted decimal numeral, and 0 when the field is absent. |
| OrderField.OrderUpdateNaN | app/actions/lesson.ts:58 | A present, non-empty `order` is `NaN` exactly when, after leading whitespace and sign, no decimal digit follows, or a `0x` prefix has no hexadecimal digit after it. |
| OrderField.OrderUpdateSpec | app/actions/lesson.ts:58 | A numeral the editor wrote sets that value, and an absent or empty field keeps the old one. |
| ModuleActions.CreateModule | app/actions/module.ts:7-43 | In order: `Unauthorized`, "Course not found" unless the caller owns the course, "Title is required". All leave the store unchanged. Otherwise one module is appended with the parsed order. |
| ModuleActions.EditModuleStable | app/actions/module.ts:52-53 | An edit keeps id and course, keeps the title for an empty one, sets the order only for a number, and is idempotent. |
| ModuleActions.UpdateModule | app/actions/module.ts:45-81 | `Unauthorized`, then "Module not found" unless the caller owns the module's course, then `InvalidValue("order")` for a `NaN`. Each leaves the store unchanged. Otherwise only that row is edited. |
| ModuleActions.DeleteModuleCascade | app/actions/module.ts:105-109 | After the removal the store holds exactly the other modules, the lessons of other modules, the quizzes not under the module, and the questions not under it. |
| ModuleActions.DeleteModule | app/actions/module.ts:83-112 | Succeeds exactly when the caller is an instructor owning the module's course. Otherwise it fails with the source's message and nothing changes. On success exactly the rows under the module are gone. |
| LessonActions.NewContentOfAppend | app/actions/lesson.ts:29 | The content is the text appended under `content`, even when empty, provided the form held no `content` entry or the same text. Without any `content` entry it is `""`. |
| LessonActions.CreateLesson | app/actions/lesson.ts:7-47 | `Unauthorized`, then "Module not found" unless module→course is the caller's, then "Title is required". Otherwise one lesson is appended with its content and parsed order. |
| LessonActions.EditLessonStable | app/actions/lesson.ts:56-58 | Title and order follow the module rule. A present content, even `""`, replaces the old one, and an absent content keeps it. Idempotent. |
| LessonActions.UpdateLesson | app/actions/lesson.ts:49-92 | `Unauthorized`, then "Lesson not found" unless lesson→module→course is the caller's, then `InvalidValue("order")`. Store unchanged on failure. Otherwise only that row is edited. |
| LessonActions.DeleteLessonCascade | app/actions/lesson.ts:121-125 | After the removal the store holds exactly the other lessons, the quizzes of other lessons, and the questions not under the lesson. |
| LessonActions.DeleteLesson | app/actions/lesson.ts:94-128 | Succeeds exactly when the caller owns the lesson. Otherwise it fails with "Lesson not found" (or `Unauthorized`) and nothing changes. |
| QuizActions.CheckQuestion | app/actions/quiz.ts:82-102 | Accepts exactly when text and options are non-empty, the answer is a number and the options parse as an array of at least two items with the answer in range. It keeps the options text verbatim. Every other failure is "All fields are required" or "Invalid options format". |
| QuizActions.StringifiedOptionsValid | app/actions/quiz.ts:92-99 | For a serialised list of at least two strings, the options are accepted exactly when the answer indexes one of them. |
| QuizActions.TooFewOptionsRefused | app/actions/quiz.ts:94-95 | Fewer than two options are refused for every answer. |
| QuizActions.MalformedOptionsRefused | app/actions/quiz.ts:92-102 | Options `JSON.parse` throws on are refused for every answer. That includes every text whose first non-blank character starts no value. The same holds for every text whose first non-blank character is not `[`. |
| QuizActions.ValidOptions | app/actions/quiz.ts:90-99 | Accepted options have a non-negative answer and a first non-blank character `[`. |
| QuizActions.CreateQuiz | app/actions/quiz.ts:7-48 | `Unauthorized`, then "Lesson not found", then "Title is required", then the unique-lesson refusal. Store unchanged on each. Otherwise one quiz is appended. |
| QuizActions.CreateQuestion | app/actions/quiz.ts:50-115 | `Unauthorized`, then "Quiz not found" unless the chain is the caller's, then the form checks. Otherwise one question is appended with the options verbatim, always with valid options. |
| QuizActions.DeleteQuestion | app/actions/quiz.ts:117-163 | Succeeds exactly when the question's chain is the caller's. It then removes exactly that question. Otherwise "Question not found" and nothing changes. |
| EnrollmentActions.InstructorOf | app/actions/enrollment.ts:17-22 | The instructor's name and email, present exactly when the user row exists. |
| EnrollmentActions.AvailableCoursesSpec | app/actions/enrollment.ts:15-33 | Every course and only courses, newest first, each with its enrollment count, module count and instructor. |
| EnrollmentActions.GetAvailableCourses | app/actions/enrollment.ts:7-12 | Fails with `Unauthorized` exactly without a session. The content is pinned by `AvailableCoursesSpec`. |
| EnrollmentActions.EnrolledCoursesLinked | app/actions/enrollment.ts:70 | When every enrollment names an existing course, entry `i` is the course of enrollment `i` with its module count and nothing is skipped. |
| EnrollmentActions.EnrolledCoursesSpec | app/actions/enrollment.ts:45-70 | The courses of exactly the caller's enrollments, most recent enrollment first. |
| EnrollmentActions.GetEnrolledCourses | app/actions/enrollment.ts:38-43 | Fails with `Unauthorized` exactly without a session. The content is pinned by `EnrolledCoursesSpec`. |
| EnrollmentActions.EnrollInCourse | app/actions/enrollment.ts:73-113 | Any signed-in user may enroll. The checks come in order: `Unauthorized`, "You are already enrolled in this course", "Course not found", with nothing added. Otherwise one enrollment is added, and afterwards the pair is enrolled and pairs stay unique. |
| EnrollmentActions.GetCourseContent | app/actions/enrollment.ts:115-173 | `Unauthorized`, then "You are not enrolled in this course" without an enrollment, then "Course not found". Otherwise it returns the course's tree and its instructor. |
| EnrollmentActions.CourseContentSpec | app/actions/enrollment.ts:123-166 | In a valid store the content is returned exactly when the caller is enrolled. It is then well ordered and holds a permutation of the course's modules. |
| QuizAttemptActions.CountCorrect | app/actions/quiz-attempt.ts:50-58 | The scoring loop computes `CorrectCount`, the number of questions whose answer equals the correct index. |
| QuizAttemptActions.CorrectCountBound | app/actions/quiz-attempt.ts:51-58 | The count never exceeds the number of questions. |
| QuizAttemptActions.CorrectCountIsFilter | app/actions/quiz-attempt.ts:53-57 | The count is the number of questions answered correctly, counted by an independent filter. |
| QuizAttemptActions.CorrectCountIgnoresOthers | app/actions/quiz-attempt.ts:54 | Adding or changing the answer for an id that is not a question of the quiz does not change the count. |
| QuizAttemptActions.CorrectCountExtremes | app/actions/quiz-attempt.ts:54-55 | No answers count zero, since a missing answer never matches. All answers right count every question. |
| QuizAttemptActions.ScoreOf | app/actions/quiz-attempt.ts:60 | `NaN` exactly when there are no questions. Otherwise a percentage from 0 to 100, which is 100 when all are right and 0 when none are. |
| QuizAttemptActions.QuizCourseFound | app/actions/quiz-attempt.ts:40 | In a valid store every quiz reaches a course through its lesson and module. |
| QuizAttemptActions.SubmitQuizAttempt | app/actions/quiz-attempt.ts:7-73 | `Unauthorized`, then "Quiz not found", then "You are not enrolled in this course", each with no attempt stored. Otherwise it counts the quiz's questions answered right, derives the score, and appends exactly one attempt for the caller and quiz. The count never exceeds the total. |
| QuizAttemptActions.GetQuizAttempts | app/actions/quiz-attempt.ts:75-80 | Fails exactly when there is no session. |
| QuizAttemptActions.QuizAttemptsSpec | app/actions/quiz-attempt.ts:82-90 | Exactly the caller's attempts at that quiz, newest first. |
| StudentActions.CreateStudent | app/actions/student.ts:8-46 | `Unauthorized`, then "Name, email, and password are required", then "A user with this email already exists" for an email of any role. Store unchanged on each. Otherwise one STUDENT row is appended storing `hash(password)`. |
| StudentActions.GetStudents | app/actions/student.ts:48-53 | Fails exactly for a caller who is not an instructor. |
| StudentActions.StudentsSpec | app/actions/student.ts:55-70 | Every student and no instructor, newest first, each with the number of its enrollments and attempts. |
| StudentActions.SummaryCountsSpec | app/actions/student.ts:59-65 | A count is zero exactly when no row names the student. |
| StudentActions.PasswordChange | app/actions/student.ts:117-120 | A new hash exactly when the password is present and not all whitespace, and then it is `hash(password)`. |
| StudentActions.EmailOwner | app/actions/student.ts:99-106 | With unique emails, an unchanged email, or one nobody holds, is held by no other user. So skipping the check for an unchanged email is safe. |
| StudentActions.UpdateStudent | app/actions/student.ts:75-132 | In order: `Unauthorized`, "Name and email are required", "Student not found", "A user with this email already exists" only when the email changes, `RecordNotFound` for an instructor's row. All leave the store unchanged. Otherwise only that row changes, keeping the old hash for a blank password. |
| StudentActions.DeleteStudent | app/actions/student.ts:134-149 | `Unauthorized`, or `RecordNotFound` unless the row is a student, with nothing removed. Otherwise exactly that row is removed. |
| UploadRoute.Sanitize | app/api/upload/route.ts:56 | One output character per UTF-16 code unit of the name, each a safe character or `_`. A character outside the Basic Multilingual Plane becomes `__`. |
| UploadRoute.SanitizeConcat | app/api/upload/route.ts:56 | The global replacement works character by character: sanitising a concatenation concatenates the sanitised parts. |
| UploadRoute.SanitizeSafe | app/api/upload/route.ts:56 | The result has only safe characters and `_`. Sanitising twice is sanitising once. A name is unchanged exactly when it has only those characters. |
| UploadRoute.Post | app/api/upload/route.ts:24-83 | A non-instructor always gets 401. For an instructor, a missing or empty `file` entry gets the 400 "No file provided", and a non-empty text entry gets a 500. A file that is not an image gets the 400 "Only image files are allowed", and an image over 5 MB (5·1024·1024 bytes) the 400 "File size must be less than 5MB". An accepted image with a bucket but without credentials gets the 500 credentials message. With credentials, a store error gets a 500 with that error's message. Every 400 is one of the three validation messages. |
| UploadRoute.PostSucceeds | app/api/upload/route.ts:24-74 | The upload succeeds exactly for an instructor's image of at most 5 MB with bucket and credentials configured and the store succeeding. The URL is `https://<bucket>.s3.<region>.amazonaws.com/thumbnails/<timestamp>-<sanitised name>`. |
| UploadRoute.SizeBoundary | app/api/upload/route.ts:43 | A file of exactly 5·1024·1024 bytes passes validation, and one byte more is refused with 400. |
| UploadRoute.TypeBeforeSize | app/api/upload/route.ts:39-45 | The type check precedes the size check. |
| UploadRoute.MissingBucketReported | app/api/upload/route.ts:50-53 | A missing bucket gives a 500 with its own message. |
| UploadRoute.FileNameTimestamp | app/api/upload/route.ts:55-56 | The file name gives back its timestamp under `parseInt`. |
| UploadRoute.KeysDiffer | app/api/upload/route.ts:55-57 | Uploads at different times get different object keys. |
| CourseEditor.ModuleFormSpec | components/course-editor.tsx:56-57 | The order the server stores for a new module is the number of modules the page shows. The title is sent unchanged. |
| CourseEditor.HandleCreateModule | components/course-editor.tsx:52-66 | Calls `createModule` once. A created module sits at position "modules shown" in the course. |
| CourseEditor.LessonFormSpec | components/course-editor.tsx:97-100 | The page's form already holds the editor text in its hidden `content` input (lines 305-309). For that form, or one without a `content` entry, the server stores the lesson at that position with the editor's text. The title is sent unchanged. |
| CourseEditor.HandleCreateLesson | components/course-editor.tsx:93-110 | Calls `createLesson` once. If the form held no `content` entry or the editor text, a created lesson has that position, that text and the module. |
| CourseEditor.PositionsAreCounts | components/course-editor.tsx:56-98 | When the page shows the store's current tree, the positions handed out are the numbers of modules of the course and of lessons of the module. |
| CourseEditor.CollectOptions | components/course-editor.tsx:153-157 | The loop computes `Collected(form, 4)`. |
| CourseEditor.PresentSpec | components/course-editor.tsx:153-157 | For any numbering of inputs, the present non-empty values are listed once each, in increasing input order, and nothing else is listed. |
| CourseEditor.CollectedSpec | components/course-editor.tsx:153-157 | The collected options are, in increasing input order, exactly the non-empty values among option0..option3, at most four. |
| CourseEditor.QuestionFormSpec | components/course-editor.tsx:164-167 | The options sent parse back to the collected list. The server accepts them exactly when the answer indexes one of them. |
| CourseEditor.HandleCreateQuestion | components/course-editor.tsx:147-173 | Fewer than two options abort with "Please provide at least 2 options", and nothing is created. Otherwise `createQuestion` is called with the serialised list. A created question stores that list and an answer that indexes it. |

## Left out

- Sessions and sign-in (`getSession`, NextAuth): the caller is an `Option<Session>` input.
- Password hashing: `hash` is a function parameter. bcrypt's random salt is not modelled, so the same password always gives the same hash.
- `revalidatePath` cache invalidation, `router.refresh`, `form.reset` and the browser `alert`/`confirm` dialogs: these are out-of-band effects with no bearing on the store. The handlers' `Outcome` reports the alert texts that come before the server call.
- The S3 client and `PutObjectCommand`: the store is not modelled. Its thrown message, if any, is the `storeError` parameter of `UploadRoute.Post`. `Date.now()` is the `now` parameter, and the environment variables are the `Env` parameter.
- Reading the file bytes (`arrayBuffer`, `Buffer.from`): I/O. Only the file's type, size and name matter for the outcome.
- The quiz score is a real number, so the IEEE floating-point rounding of `correct / total * 100` is not modelled. A quiz with no questions gives `NaN`, and its attempt is stored with that score. That the Float `score` column accepts `NaN` is an assumption about the store: the Prisma schema is not part of this model.
- Concurrent requests (the enroll check-then-create race): every call is modelled as sequential.
- Foreign keys to users: enrollments and attempts whose user is deleted, and attempts of a deleted quiz, are left in place. The schema that would cascade them is not part of this model, and `EnrollmentActions.InstructorOf` returns an `Option` for a missing user.
- Identifiers are naturals handed out by the store, not cuid strings. Creation time is the id counter, so ties between creation times do not arise.
- Orders of rows a query leaves unordered (the questions of a quiz, the lessons in `getInstructorCourses`) are taken as table order. Prisma promises no particular order there.
- Seqs.SortBy: rows with equal `order` keep their table order. Prisma's `orderBy` promises no order among ties, so the model fixes one of the orders the database may return.
- Numbers.ParseInt: the result is an unbounded integer. JavaScript's `parseInt` gives a double that loses precision above 2^53, and the Int columns `order` and `correctAnswer` refuse values of 2^31 and more, so a create or update with `order = "3000000000"` fails in the code but stores the value in the model.
- Numbers.NatToString: written for every natural as plain digits. `Number.prototype.toString` switches to exponent notation from 10^21 on, which no count or timestamp here reaches.
- QuizActions.CheckQuestion: an unpaired surrogate escape such as `"\ud800"` in the options is refused as "Invalid options format". `JSON.parse` accepts it, but a string of Unicode characters cannot hold a lone surrogate. A correctly paired escape is accepted.
- `UploadRoute.Post`: a plain-text `file` entry is modelled by the message the runtime gives when reading `.type.startsWith` of a string. Its exact wording depends on the JavaScript engine.
- The React presentation of the course editor, the student pages, the quiz viewer with its pass threshold, and the seed script: presentation and I/O only.
