/** The instructor's management of student accounts: create, list, edit and delete. The
    password hash function is a parameter standing for the hashing collaborator. */
module StudentActions {
  import opened Wrappers
  import opened Entities
  import opened Seqs
  import opened Text
  import opened FormData
  import opened Database

  const FieldsRequired := Thrown("Name, email, and password are required")
  const EmailInUse := Thrown("A user with this email already exists")

  /** `name && email && password`. */
  predicate AccountFieldsGiven(form: Form)
  {
    Truthy(Get(form, "name")) && Truthy(Get(form, "email")) && Truthy(Get(form, "password"))
  }

  method CreateStudent(db: Db, caller: Option<Session>, form: Form, hash: string -> string)
    returns (r: Result<User, Failure>)
    requires db.Valid()
    modifies db`users, db`nextId
    ensures db.Valid()
    ensures !IsInstructor(caller) ==> r == Failure(Unauthorized)
    ensures IsInstructor(caller) && !AccountFieldsGiven(form) ==> r == Failure(FieldsRequired)
    ensures IsInstructor(caller) && AccountFieldsGiven(form) ==>
      if EmailTaken(old(db.users), Get(form, "email").value) then r == Failure(EmailInUse)
      else
        && r == Success(User(old(db.nextId), old(db.nextId), Get(form, "name").value, Get(form, "email").value,
                             hash(Get(form, "password").value), Student))
        && db.users == old(db.users) + [r.value]
    ensures r.Failure? ==> db.users == old(db.users) && db.nextId == old(db.nextId)
  {
    if !IsInstructor(caller) {
      return Failure(Unauthorized);
    }
    var name, email, password := Get(form, "name"), Get(form, "email"), Get(form, "password");
    if !Truthy(name) || !Truthy(email) || !Truthy(password) {
      return Failure(FieldsRequired);
    }
    if EmailTaken(db.users, email.value) {
      return Failure(EmailInUse);
    }
    r := db.CreateUser(name.value, email.value, hash(password.value), Student);
  }

  /** One entry of `getStudents`: the account and how many enrollments and attempts it has. */
  datatype StudentSummary = StudentSummary(user: User, enrollmentCount: nat, attemptCount: nat)

  function IsStudent(u: User): bool { u.role == Student }

  function EnrollmentBy(userId: Id): Enrollment -> bool
  {
    (e: Enrollment) => e.userId == userId
  }

  function AttemptBy(userId: Id): QuizAttempt -> bool
  {
    (a: QuizAttempt) => a.userId == userId
  }

  function Summaries(us: seq<User>, enrollments: seq<Enrollment>, attempts: seq<QuizAttempt>): (r: seq<StudentSummary>)
    ensures |r| == |us|
    ensures forall i :: 0 <= i < |r| ==> r[i].user == us[i]
    ensures forall i :: 0 <= i < |r| ==> r[i].enrollmentCount == |Filter(enrollments, EnrollmentBy(us[i].id))|
    ensures forall i :: 0 <= i < |r| ==> r[i].attemptCount == |Filter(attempts, AttemptBy(us[i].id))|
  {
    seq(|us|, i requires 0 <= i < |us| =>
      StudentSummary(us[i], |Filter(enrollments, EnrollmentBy(us[i].id))|, |Filter(attempts, AttemptBy(us[i].id))|))
  }

  function SummaryUsers(xs: seq<StudentSummary>): (r: seq<User>)
    ensures |r| == |xs| && forall i :: 0 <= i < |xs| ==> r[i] == xs[i].user
  {
    seq(|xs|, i requires 0 <= i < |xs| => xs[i].user)
  }

  function GetStudents(db: Db, caller: Option<Session>): (r: Result<seq<StudentSummary>, Failure>)
    reads db
    ensures r.Failure? <==> !IsInstructor(caller)
    ensures r.Failure? ==> r.error == Unauthorized
  {
    if !IsInstructor(caller) then Failure(Unauthorized)
    else Success(Summaries(NewestFirst(db.users, IsStudent), db.enrollments, db.attempts))
  }

  /** The list holds every student account and no instructor, newest first, each with the
      number of its own enrollments and attempts. */
  lemma StudentsSpec(db: Db, caller: Option<Session>)
    requires db.Valid() && IsInstructor(caller)
    ensures var r := GetStudents(db, caller).value;
      && (forall u :: u in SummaryUsers(r) <==> u in db.users && u.role == Student)
      && StrictlyDecreasing(SummaryUsers(r), UserCreatedAt)
      && forall i :: 0 <= i < |r| ==>
           && r[i].enrollmentCount == |Filter(db.enrollments, EnrollmentBy(r[i].user.id))|
           && r[i].attemptCount == |Filter(db.attempts, AttemptBy(r[i].user.id))|
  {
    var us := NewestFirst(db.users, IsStudent);
    NewestFirstSpec(db.users, IsStudent, UserCreatedAt);
    var r := GetStudents(db, caller).value;
    assert SummaryUsers(r) == us;
  }

  /** A count is zero exactly when no row names the student. */
  lemma SummaryCountsSpec(enrollments: seq<Enrollment>, attempts: seq<QuizAttempt>, u: User)
    ensures var s := Summaries([u], enrollments, attempts)[0];
      && (s.enrollmentCount == 0 <==> forall e :: e in enrollments ==> e.userId != u.id)
      && (s.attemptCount == 0 <==> forall a :: a in attempts ==> a.userId != u.id)
  {
    FilterMembers(enrollments, EnrollmentBy(u.id));
    FilterMembers(attempts, AttemptBy(u.id));
    var fe := Filter(enrollments, EnrollmentBy(u.id));
    var fa := Filter(attempts, AttemptBy(u.id));
    if |fe| > 0 {
      assert fe[0] in fe;
    }
    if |fa| > 0 {
      assert fa[0] in fa;
    }
  }

  /** `password && password.trim() !== ''`: the new hash, or `None` to keep the stored one. */
  function PasswordChange(password: Option<string>, hash: string -> string): (r: Option<string>)
    ensures r.Some? <==> password.Some? && !AllWhitespace(password.value)
    ensures r.Some? ==> r.value == hash(password.value)
  {
    if password.None? then None
    else
      TrimEmptyIff(password.value);
      if password.value != "" && Trim(password.value) != "" then Some(hash(password.value)) else None
  }

  /** In a store with unique emails, only the row that holds an email can hold it. */
  lemma EmailOwner(db: Db, u: User, email: string)
    requires db.Valid() && u in db.users && (u.email == email || !EmailTaken(db.users, email))
    ensures !EmailTakenByOther(db.users, email, u.id)
  {
    if u.email == email {
      forall v | v in db.users && v.email == email ensures v.id == u.id {
        var i :| 0 <= i < |db.users| && db.users[i] == u;
        var j :| 0 <= j < |db.users| && db.users[j] == v;
        assert UserEmail(db.users[i]) == UserEmail(db.users[j]);
      }
    }
  }

  method UpdateStudent(db: Db, caller: Option<Session>, studentId: Id, form: Form, hash: string -> string)
    returns (r: Result<User, Failure>)
    requires db.Valid()
    modifies db`users
    ensures db.Valid()
    ensures !IsInstructor(caller) ==> r == Failure(Unauthorized)
    ensures IsInstructor(caller) && !(Truthy(Get(form, "name")) && Truthy(Get(form, "email"))) ==>
      r == Failure(Thrown("Name and email are required"))
    ensures IsInstructor(caller) && Truthy(Get(form, "name")) && Truthy(Get(form, "email")) ==>
      var email := Get(form, "email").value;
      match Lookup(old(db.users), UserId, studentId)
      case None => r == Failure(Thrown("Student not found"))
      case Some(u) =>
        if u.email != email && EmailTaken(old(db.users), email) then r == Failure(EmailInUse)
        else if u.role != Student then r == Failure(RecordNotFound)
        else
          var f := UserPatch(Get(form, "name").value, email, PasswordChange(Get(form, "password"), hash));
          && r == Success(f(u))
          && db.users == Replace(old(db.users), UserId, studentId, f)
    ensures r.Failure? ==> db.users == old(db.users)
  {
    if !IsInstructor(caller) {
      return Failure(Unauthorized);
    }
    var name, email := Get(form, "name"), Get(form, "email");
    if !Truthy(name) || !Truthy(email) {
      return Failure(Thrown("Name and email are required"));
    }
    var existing := Lookup(db.users, UserId, studentId);
    if existing.None? {
      return Failure(Thrown("Student not found"));
    }
    var u := existing.value;
    if u.email != email.value && EmailTaken(db.users, email.value) {
      return Failure(EmailInUse);
    }
    EmailOwner(db, u, email.value);
    ghost var users0 := db.users;
    assert StrictlyIncreasing(users0, UserId);
    if u.role != Student {
      assert !IsStudentRow(db.users, studentId) by {
        forall v | v in db.users && v.id == studentId ensures v == u {
          UniqueKey(users0, UserId, u, v);
        }
      }
    }
    var hashChange := PasswordChange(Get(form, "password"), hash);
    r := db.UpdateStudent(studentId, name.value, email.value, hashChange);
    if r.Success? {
      ghost var v :| v in users0 && v.id == studentId && v.role == Student && r.value == UserPatch(name.value, email.value, hashChange)(v);
      UniqueKey(users0, UserId, u, v);
    }
  }

  method DeleteStudent(db: Db, caller: Option<Session>, studentId: Id) returns (r: Result<(), Failure>)
    requires db.Valid()
    modifies db`users
    ensures db.Valid()
    ensures !IsInstructor(caller) ==> r == Failure(Unauthorized)
    ensures IsInstructor(caller) && !IsStudentRow(old(db.users), studentId) ==> r == Failure(RecordNotFound)
    ensures IsInstructor(caller) && IsStudentRow(old(db.users), studentId) ==>
      && r.Success?
      && (forall u :: u in db.users <==> u in old(db.users) && u.id != studentId)
      && |db.users| == |old(db.users)| - 1
    ensures r.Failure? ==> db.users == old(db.users)
  {
    if !IsInstructor(caller) {
      return Failure(Unauthorized);
    }
    r := db.DeleteStudent(studentId);
    if r.Success? {
      RemoveMembers(old(db.users), UserId, studentId);
    }
  }
}
