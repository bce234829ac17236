/** The handlers of routes/quizzes.js: creating a quiz, the listings (public,
    the instructor's own, a student's available, pending and submitted ones),
    reading one quiz with the answers hidden from everyone but its instructor,
    and the owner-only update, delete, assign and publish. */
module QuizzesRoutes {
  import opened Common
  import opened Domain
  import QuizRoutes
  import SubmissionRoutes

  /** A quiz as the public listing shows it (`select('-questions')`). */
  function WithoutQuestions(q: Quiz): (r: Quiz)
    ensures r.questions == [] && r.(questions := q.questions) == q
  {
    q.(questions := [])
  }

  /** GET /:id: the instructor, or a user with the student role on the roster,
      may read the quiz. */
  predicate MayRead(q: Quiz, user: Id, role: Role) {
    q.instructor == user || (role == Student && OnRoster(q.students, user))
  }

  /** The quiz GET /:id returns: the answers are removed for everyone but the instructor. */
  function ReadView(q: Quiz, user: Id): (r: Quiz)
    ensures r.(questions := q.questions) == q && |r.questions| == |q.questions|
    ensures q.instructor == user ==> r == q
    ensures q.instructor != user ==> forall i :: 0 <= i < |r.questions| ==>
      r.questions[i].correctAnswer == Undefined && r.questions[i].correctAnswers == Undefined
    ensures forall i :: 0 <= i < |r.questions| ==>
      r.questions[i].(correctAnswer := q.questions[i].correctAnswer,
                      correctAnswers := q.questions[i].correctAnswers) == q.questions[i]
  {
    if q.instructor == user then q else q.(questions := QuizRoutes.StripAll(q.questions))
  }

  /** A student's quiz is pending when they have an incomplete submission of it. */
  predicate HasIncomplete(submissions: seq<Submission>, quizId: Id, user: Id) {
    exists k :: 0 <= k < |submissions| && submissions[k].student == user
      && !submissions[k].isCompleted && submissions[k].quiz == quizId
  }

  class QuizzesApi {
    var quizzes: map<Id, Quiz>
    var submissions: seq<Submission>

    constructor ()
      ensures quizzes == map[] && submissions == []
    {
      quizzes := map[];
      submissions := [];
    }

    /** POST /: the new quiz, owned by the requester whatever the body says.
      The store's id generator is the `newId` parameter. */
    method Create(user: Id, body: Quiz, newId: Id) returns (created: Quiz)
      modifies this
      requires newId !in quizzes
      ensures created == body.(instructor := user)
      ensures quizzes == old(quizzes)[newId := created] && submissions == old(submissions)
    {
      created := body.(instructor := user);
      quizzes := quizzes[newId := created];
    }

    /** GET /: the published quizzes, without their questions. */
    function PublicList(): (r: map<Id, Quiz>)
      reads this
      ensures forall id :: id in r <==> id in quizzes && quizzes[id].isPublished
      ensures forall id :: id in r ==> r[id] == WithoutQuestions(quizzes[id])
    {
      map id | id in quizzes && quizzes[id].isPublished :: WithoutQuestions(quizzes[id])
    }

    /** GET /my-quizzes: the requester's own quizzes. */
    function MyQuizzes(user: Id): (r: set<Id>)
      reads this
      ensures forall id :: id in r <==> id in quizzes && quizzes[id].instructor == user
    {
      set id | id in quizzes && quizzes[id].instructor == user
    }

    /** GET /available: the published quizzes the student is on the roster of. */
    function Available(user: Id): (r: set<Id>)
      reads this
      ensures forall id :: id in r <==> id in quizzes && quizzes[id].isPublished && OnRoster(quizzes[id].students, user)
    {
      set id | id in quizzes && quizzes[id].isPublished && OnRoster(quizzes[id].students, user)
    }

    /** GET /pending: the available quizzes the student has an incomplete submission of. */
    function Pending(user: Id): (r: set<Id>)
      reads this
      ensures forall id :: id in r <==> id in Available(user) && HasIncomplete(submissions, id, user)
    {
      set id | id in Available(user) && HasIncomplete(submissions, id, user)
    }

    /** GET /submitted: the positions of the student's completed submissions. */
    function SubmittedList(user: Id): (r: seq<nat>)
      reads this
      ensures forall k: nat :: k in r <==> k < |submissions| && submissions[k].student == user && submissions[k].isCompleted
    {
      SubmissionRoutes.Positions(submissions, (s: Submission) => s.student == user && s.isCompleted)
    }

    /** GET /:id: 404 both for a missing quiz and for a requester who may not
      read it, so the answer does not reveal that the quiz exists. */
    function Read(quizId: Id, user: Id, role: Role): (r: Result<Quiz>)
      reads this
      ensures r.Ok? <==> quizId in quizzes && MayRead(quizzes[quizId], user, role)
      ensures r.Fail? ==> r.status == NotFound
      ensures r.Ok? ==> r.value == ReadView(quizzes[quizId], user)
    {
      if quizId !in quizzes || !MayRead(quizzes[quizId], user, role) then Fail(NotFound)
      else Ok(ReadView(quizzes[quizId], user))
    }

    /** PUT /:id: past the owner guard, `findByIdAndUpdate` sets the paths
        the body carries; it runs no validators, so nothing is refused. */
    method Update(quizId: Id, user: Id, body: QuizPatch) returns (r: Result<()>)
      modifies this
      ensures r.Fail? <==> QuizRoutes.OwnerRefusal(old(quizzes), quizId, user).Some?
      ensures r.Fail? ==> r.status == QuizRoutes.OwnerRefusal(old(quizzes), quizId, user).value
      ensures quizzes == if r.Ok? then old(quizzes)[quizId := PatchQuiz(old(quizzes)[quizId], body)] else old(quizzes)
      ensures submissions == old(submissions)
    {
      var refusal := QuizRoutes.OwnerRefusal(quizzes, quizId, user);
      if refusal.Some? {
        return Fail(refusal.value);
      }
      quizzes := quizzes[quizId := PatchQuiz(quizzes[quizId], body)];
      return Ok(());
    }

    /** DELETE /:id. The quiz's submissions are kept. */
    method Delete(quizId: Id, user: Id) returns (r: Result<()>)
      modifies this
      ensures r.Fail? <==> QuizRoutes.OwnerRefusal(old(quizzes), quizId, user).Some?
      ensures r.Fail? ==> r.status == QuizRoutes.OwnerRefusal(old(quizzes), quizId, user).value
      ensures quizzes == if r.Ok? then old(quizzes) - {quizId} else old(quizzes)
      ensures submissions == old(submissions)
    {
      var refusal := QuizRoutes.OwnerRefusal(quizzes, quizId, user);
      if refusal.Some? {
        return Fail(refusal.value);
      }
      quizzes := quizzes - {quizId};
      return Ok(());
    }

    /** POST /:id/assign: one new roster entry per id, assigned now, appended
      after the existing entries (duplicates are not removed). A body without
      `studentIds` throws on `map` after the checks: 500, nothing saved. */
    method Assign(quizId: Id, user: Id, studentIds: Option<seq<Id>>, now: nat) returns (r: Result<()>)
      modifies this
      ensures QuizRoutes.OwnerRefusal(old(quizzes), quizId, user).Some? ==>
        r == Fail(QuizRoutes.OwnerRefusal(old(quizzes), quizId, user).value)
      ensures QuizRoutes.OwnerRefusal(old(quizzes), quizId, user).None? && studentIds.None? ==> r == Fail(ServerError)
      ensures r.Ok? <==> QuizRoutes.OwnerRefusal(old(quizzes), quizId, user).None? && studentIds.Some?
      ensures r.Fail? ==> quizzes == old(quizzes)
      ensures r.Ok? ==> quizzes == old(quizzes)[quizId := Assigned(old(quizzes)[quizId], studentIds.value, now)]
      ensures submissions == old(submissions)
    {
      var refusal := QuizRoutes.OwnerRefusal(quizzes, quizId, user);
      if refusal.Some? {
        return Fail(refusal.value);
      }
      if studentIds.None? {
        return Fail(ServerError);
      }
      quizzes := quizzes[quizId := Assigned(quizzes[quizId], studentIds.value, now)];
      return Ok(());
    }

    /** POST /:id/publish: as assign, and the quiz becomes published. Without
      `studentIds` the flag is set only on the loaded document, which is never
      saved: 500, and the quiz stays as it was. */
    method Publish(quizId: Id, user: Id, studentIds: Option<seq<Id>>, now: nat) returns (r: Result<()>)
      modifies this
      ensures QuizRoutes.OwnerRefusal(old(quizzes), quizId, user).Some? ==>
        r == Fail(QuizRoutes.OwnerRefusal(old(quizzes), quizId, user).value)
      ensures QuizRoutes.OwnerRefusal(old(quizzes), quizId, user).None? && studentIds.None? ==> r == Fail(ServerError)
      ensures r.Ok? <==> QuizRoutes.OwnerRefusal(old(quizzes), quizId, user).None? && studentIds.Some?
      ensures r.Fail? ==> quizzes == old(quizzes)
      ensures r.Ok? ==> quizzes == old(quizzes)[quizId := Assigned(old(quizzes)[quizId], studentIds.value, now).(isPublished := true)]
      ensures submissions == old(submissions)
    {
      var refusal := QuizRoutes.OwnerRefusal(quizzes, quizId, user);
      if refusal.Some? {
        return Fail(refusal.value);
      }
      if studentIds.None? {
        return Fail(ServerError);
      }
      quizzes := quizzes[quizId := Assigned(quizzes[quizId], studentIds.value, now).(isPublished := true)];
      return Ok(());
    }
  }

  /** The quiz with one new entry per id appended to its roster. */
  function Assigned(q: Quiz, studentIds: seq<Id>, now: nat): (r: Quiz)
    ensures r.(students := q.students) == q
    ensures |r.students| == |q.students| + |studentIds|
    ensures r.students[..|q.students|] == q.students
    ensures forall i :: 0 <= i < |studentIds| ==>
      r.students[|q.students| + i] == RosterEntry(studentIds[i], Some(now), None, None)
  {
    q.(students := q.students + NewEntries(studentIds, Some(now), None))
  }

  /** Assigning keeps everyone already on the roster, puts every given id on
      it, and adds nobody else. */
  lemma AssignedRoster(q: Quiz, studentIds: seq<Id>, now: nat, user: Id)
    ensures OnRoster(Assigned(q, studentIds, now).students, user) <==>
      OnRoster(q.students, user) || user in studentIds
  {
    var r := Assigned(q, studentIds, now).students;
    if OnRoster(r, user) {
      var i :| 0 <= i < |r| && r[i].student == user;
      if i >= |q.students| {
        assert studentIds[i - |q.students|] == user;
      } else {
        assert q.students[i] == r[i];
      }
    }
    if user in studentIds {
      var j :| 0 <= j < |studentIds| && studentIds[j] == user;
      assert r[|q.students| + j].student == user;
    }
    if OnRoster(q.students, user) {
      var i :| 0 <= i < |q.students| && q.students[i].student == user;
      assert r[i] == q.students[i];
    }
  }

  /** Assigning again a student who has already submitted gives them a fresh,
      unstamped entry, so the submission route accepts them again. */
  lemma ReassignMakesEligible(q: Quiz, studentIds: seq<Id>, now: nat, user: Id)
    requires user in studentIds
    ensures SubmissionRoutes.Eligible(Assigned(q, studentIds, now).students, user)
  {
    var j :| 0 <= j < |studentIds| && studentIds[j] == user;
    var r := Assigned(q, studentIds, now).students;
    assert r[|q.students| + j].student == user && r[|q.students| + j].submittedAt.None?;
  }
}
