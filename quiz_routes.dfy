/** The handlers of routes/quiz.js over an in-memory store: reading a quiz
    (with answers hidden from others while it is unpublished), the owner-only
    update, delete, publish and assign, starting and taking a quiz, recording
    an answer, submitting and grading, and marking a session reviewed.
    Sessions and submissions are numbered by their position in the store. */
module QuizRoutes {
  import opened Common
  import opened Domain
  import opened QuizSessionModel
  import opened QuizGrading

  /** A question with its correct answers removed (`delete q.correctAnswer; delete q.correctAnswers`). */
  function StripQuestion(q: Question): (r: Question)
    ensures r.correctAnswer == Undefined && r.correctAnswers == Undefined
    ensures r.(correctAnswer := q.correctAnswer, correctAnswers := q.correctAnswers) == q
  {
    q.(correctAnswer := Undefined, correctAnswers := Undefined)
  }

  function StripAll(questions: seq<Question>): (r: seq<Question>)
    ensures |r| == |questions|
    ensures forall i :: 0 <= i < |questions| ==> r[i] == StripQuestion(questions[i])
  {
    seq(|questions|, i requires 0 <= i < |questions| => StripQuestion(questions[i]))
  }

  /** GET /:id hides the answers exactly when the quiz is unpublished and the
      requester is not its instructor. */
  predicate HidesAnswers(q: Quiz, user: Id) {
    !q.isPublished && q.instructor != user
  }

  /** The quiz as GET /:id returns it to `user`: unchanged, or with every
      question's correct answers removed and everything else kept. */
  function ViewQuiz(q: Quiz, user: Id): (r: Quiz)
    ensures r.(questions := q.questions) == q && |r.questions| == |q.questions|
    ensures HidesAnswers(q, user) ==> forall i :: 0 <= i < |r.questions| ==>
      r.questions[i].correctAnswer == Undefined && r.questions[i].correctAnswers == Undefined
      && r.questions[i].(correctAnswer := q.questions[i].correctAnswer,
                         correctAnswers := q.questions[i].correctAnswers) == q.questions[i]
    ensures !HidesAnswers(q, user) ==> r == q
  {
    if HidesAnswers(q, user) then q.(questions := StripAll(q.questions)) else q
  }

  /** The instructor always sees the answers; so does anyone once the quiz is published. */
  lemma InstructorSeesAnswers(q: Quiz, user: Id)
    requires user == q.instructor || q.isPublished
    ensures ViewQuiz(q, user) == q
  {
  }

  /** The refusal `POST /:id/start` answers with, if any: only the instructor or
      a student on the roster may start, and a student only once the quiz is published. */
  function StartRefusal(q: Quiz, user: Id): (r: Option<Status>)
    ensures r.None? <==> user == q.instructor || (OnRoster(q.students, user) && q.isPublished)
    ensures r.Some? ==> r.value == Forbidden
  {
    var isInstructor := q.instructor == user;
    var isAssigned := OnRoster(q.students, user);
    if !isInstructor && !isAssigned then Some(Forbidden)
    else if !q.isPublished && !isInstructor then Some(Forbidden)
    else None
  }

  /** The refusal of `GET /:id/take`: the quiz must be published, even for its
      instructor, and the requester must be on the roster or the instructor. */
  function TakeRefusal(q: Quiz, user: Id): (r: Option<Status>)
    ensures r.None? <==> q.isPublished && (OnRoster(q.students, user) || user == q.instructor)
    ensures r.Some? ==> r.value == Forbidden
  {
    if !q.isPublished then Some(Forbidden)
    else if !OnRoster(q.students, user) && q.instructor != user then Some(Forbidden)
    else None
  }

  /** Whoever may take a quiz may also start it; the converse fails only for the
      instructor of an unpublished quiz. */
  lemma TakeImpliesStart(q: Quiz, user: Id)
    ensures TakeRefusal(q, user).None? ==> StartRefusal(q, user).None?
    ensures StartRefusal(q, user).None? && TakeRefusal(q, user).Some? <==>
      !q.isPublished && user == q.instructor
  {
  }

  /** The session fields `start` passes: the quiz's time limit or 60 minutes,
      and its total points or 0. */
  function StartInput(quizId: Id, user: Id, q: Quiz): (input: SessionInput)
    ensures HasRequired(input)
    ensures input.timeLimit.value == OrDefault(q.settings.timeLimit, 60)
    ensures input.maxScore.value == OrDefault(q.totalPoints, 0)
  {
    SessionInput(Some(quizId), Some(user), Some(OrDefault(q.settings.timeLimit, 60)),
                 Some(OrDefault(q.totalPoints, 0)))
  }

  /** The session fields `take` passes as written: neither a time limit nor a
      maximum score, although the session schema requires both. */
  function TakeInputAsWritten(quizId: Id, user: Id): (input: SessionInput)
    ensures !HasRequired(input)
  {
    SessionInput(Some(quizId), Some(user), None, None)
  }

  /** A question as `take` shows it: no correctness flag, no correct answer,
      only the text of each option. */
  datatype QuestionView = QuestionView(id: Id, qtype: string, text: string, points: Option<int>, options: seq<string>)

  function Project(q: Question): (v: QuestionView)
    ensures v.id == q.id && v.text == q.text && v.points == q.points && |v.options| == |q.options|
    ensures forall i :: 0 <= i < |q.options| ==> v.options[i] == q.options[i].text
  {
    QuestionView(q.id, q.qtype, q.text, q.points,
                 seq(|q.options|, i requires 0 <= i < |q.options| => q.options[i].text))
  }

  /** The projection of all questions, in stored order. */
  function ProjectAll(questions: seq<Question>): (r: seq<QuestionView>)
    ensures |r| == |questions|
    ensures forall i :: 0 <= i < |questions| ==> r[i] == Project(questions[i])
  {
    seq(|questions|, i requires 0 <= i < |questions| => Project(questions[i]))
  }

  datatype TakeView = TakeView(sessionId: nat, title: string, questions: seq<QuestionView>)

  /** The outcome of `GET /:id/take` as written, from the quiz store and the
      number of stored sessions (the id the new session would get). */
  function TakeAsWritten(quizzes: map<Id, Quiz>, quizId: Id, user: Id, sessionCount: nat, now: nat): (r: Result<TakeView>)
  {
    if quizId !in quizzes then Fail(NotFound)
    else
      var q := quizzes[quizId];
      match TakeRefusal(q, user)
      case Some(st) => Fail(st)
      case None =>
        match Create(TakeInputAsWritten(quizId, user), now)
        case Fail(st) => Fail(st)
        case Ok(_) => Ok(TakeView(sessionCount, q.title, ProjectAll(q.questions)))
  }

  /** As written, `take` never succeeds: once the guards pass, saving the
      session fails validation and the handler answers 500. */
  lemma TakeAsWrittenAlwaysFails(quizzes: map<Id, Quiz>, quizId: Id, user: Id, sessionCount: nat, now: nat)
    ensures TakeAsWritten(quizzes, quizId, user, sessionCount, now).Fail?
    ensures quizId in quizzes && TakeRefusal(quizzes[quizId], user).None? ==>
      TakeAsWritten(quizzes, quizId, user, sessionCount, now) == Fail(ServerError)
  {
  }

  /** A concrete case: the instructor of a published quiz asks to take it. */
  lemma TakeAsWrittenCounterexample()
    ensures var q := Quiz("q", "teacher", true, [], [], Settings(None, false, false, false, None, false), None);
      TakeAsWritten(map["quiz" := q], "quiz", "teacher", 0, 0) == Fail(ServerError)
  {
    var q := Quiz("q", "teacher", true, [], [], Settings(None, false, false, false, None, false), None);
    assert TakeRefusal(q, "teacher").None?;
  }

  /** The owner check shared by update, delete, publish and assign:
      404 without the quiz, 403 for anyone but its instructor. */
  function OwnerRefusal(quizzes: map<Id, Quiz>, quizId: Id, user: Id): (r: Option<Status>)
    ensures r.None? <==> quizId in quizzes && quizzes[quizId].instructor == user
    ensures r == Some(NotFound) <==> quizId !in quizzes
    ensures r.Some? ==> r.value == NotFound || r.value == Forbidden
  {
    if quizId !in quizzes then Some(NotFound)
    else if quizzes[quizId].instructor != user then Some(Forbidden)
    else None
  }

  /** The refusal of a session route (update answer, submit): 404 without the
      session, 403 for anyone but its student, 400 once it is no longer active. */
  function SessionRefusal(sessions: seq<Session>, sessionId: nat, user: Id): (r: Option<Status>)
    ensures r.None? <==> sessionId < |sessions| && sessions[sessionId].student == user
                         && sessions[sessionId].status == Active
    ensures r == Some(NotFound) <==> sessionId >= |sessions|
    ensures r == Some(Forbidden) <==> sessionId < |sessions| && sessions[sessionId].student != user
  {
    if sessionId >= |sessions| then Some(NotFound)
    else if sessions[sessionId].student != user then Some(Forbidden)
    else if sessions[sessionId].status != Active then Some(BadRequest)
    else None
  }

  /** A completed session can never be submitted again (or answered). */
  lemma CompletedSessionRefused(sessions: seq<Session>, sessionId: nat, user: Id)
    requires sessionId < |sessions| && sessions[sessionId].status == Completed
    requires sessions[sessionId].student == user
    ensures SessionRefusal(sessions, sessionId, user) == Some(BadRequest)
  {
  }

  /** What `start` reports: the new session and the time limit in seconds. */
  datatype StartInfo = StartInfo(sessionId: nat, timeRemainingSeconds: int)

  /** What `submit` reports; the percentage is `None` when it is NaN or Infinity. */
  datatype SubmitReport = SubmitReport(score: int, maxScore: int, percentage: Option<int>)

  /** The session as `submit` leaves it: the merged answers graded, the score
      set, the status completed and the end time recorded. */
  function Submitted(s: Session, body: seq<BodyAnswer>, questions: seq<Question>, now: nat): Session
  {
    var merged := MergeAll(s.answers, body, now);
    s.(answers := GradeAll(merged, questions), score := TotalScore(merged, questions),
       status := Completed, endTime := Some(now))
  }

  /** Well-formed sessions: one answer per question, and nothing graded before submit. */
  predicate WellFormed(s: Session) {
    UniqueIds(s.answers) && (s.status == Active ==> Ungraded(s.answers))
  }

  /** The stored score of a submitted session is the sum of the points stored on
      its correct answers, and never exceeds the quiz's possible points. */
  lemma SubmittedScore(s: Session, body: seq<BodyAnswer>, questions: seq<Question>, now: nat)
    requires WellFormed(s) && s.status == Active
    ensures var t := Submitted(s, body, questions, now);
      t.status == Completed && t.score == CorrectPoints(t.answers) && WellFormed(t)
    ensures NonNegativePoints(questions) ==> Submitted(s, body, questions, now).score <= MaxPoints(questions)
  {
    var merged := MergeAll(s.answers, body, now);
    MergeAllInvariant(s.answers, body, now);
    ScoreIsSumOfCorrectPoints(merged, questions);
    if NonNegativePoints(questions) {
      ScoreAtMostMaxPoints(merged, questions);
    }
  }

  /** The first submission of `student` for `quizId` (`findOne`), `None` if there is none. */
  function FirstSubmission(subs: seq<Submission>, quizId: Id, student: Id): (r: Option<nat>)
    ensures r.Some? ==> r.value < |subs| && subs[r.value].quiz == quizId && subs[r.value].student == student
    ensures r.Some? ==> forall j :: 0 <= j < r.value ==> !(subs[j].quiz == quizId && subs[j].student == student)
    ensures r.None? ==> forall j :: 0 <= j < |subs| ==> !(subs[j].quiz == quizId && subs[j].student == student)
  {
    if subs == [] then None
    else if subs[0].quiz == quizId && subs[0].student == student then Some(0)
    else
      var r := FirstSubmission(subs[1..], quizId, student);
      assert forall k :: 1 <= k < |subs| ==> subs[k] == subs[1..][k - 1];
      if r.None? then None else Some(r.value + 1)
  }

  /** The merge loop of `submit`: each answer of the body is recorded in turn. */
  method MergeAnswers(base: seq<SessionAnswer>, body: seq<BodyAnswer>, now: nat) returns (merged: seq<SessionAnswer>)
    ensures merged == MergeAll(base, body, now)
  {
    merged := base;
    for i := 0 to |body|
      invariant merged == MergeAll(base, body[..i], now)
    {
      assert body[..i + 1][..i] == body[..i];
      merged := Upsert(merged, body[i].questionId, body[i].answer, now);
    }
    assert body[..|body|] == body;
  }

  /** The grading loop of `submit`: every answer is graded in place and the
      points of the correct ones are added up. */
  method GradeAnswers(answers: seq<SessionAnswer>, questions: seq<Question>) returns (graded: seq<SessionAnswer>, total: int)
    ensures graded == GradeAll(answers, questions)
    ensures total == TotalScore(answers, questions)
  {
    graded := [];
    total := 0;
    for i := 0 to |answers|
      invariant graded == GradeAll(answers[..i], questions)
      invariant total == TotalScore(answers[..i], questions)
    {
      assert answers[..i + 1][..i] == answers[..i];
      GradeAllSnoc(answers[..i + 1], questions);
      graded := graded + [GradeAnswer(answers[i], questions)];
      total := total + Earned(answers[i], questions);
    }
    assert answers[..|answers|] == answers;
  }

  class QuizApi {
    var quizzes: map<Id, Quiz>
    var sessions: seq<Session>
    var submissions: seq<Submission>

    predicate Valid()
      reads this
    {
      forall i :: 0 <= i < |sessions| ==> WellFormed(sessions[i])
    }

    constructor ()
      ensures quizzes == map[] && sessions == [] && submissions == []
      ensures Valid()
    {
      quizzes := map[];
      sessions := [];
      submissions := [];
    }

    /** `GET /:id`. */
    method GetQuiz(quizId: Id, user: Id) returns (r: Result<Quiz>)
      ensures r.Fail? <==> quizId !in quizzes
      ensures r.Fail? ==> r.status == NotFound
      ensures r.Ok? ==> r.value == ViewQuiz(quizzes[quizId], user)
    {
      if quizId !in quizzes {
        return Fail(NotFound);
      }
      return Ok(ViewQuiz(quizzes[quizId], user));
    }

    /** `PUT /:id`: past the owner guard the body is assigned onto the stored
        quiz and the quiz is saved. `saved` is whether the Quiz schema's
        validators accept the result; the schema is not part of this model.
        A rejected save answers 500 and stores nothing. */
    method UpdateQuiz(quizId: Id, user: Id, body: QuizPatch, saved: bool) returns (r: Result<()>)
      modifies this
      requires Valid()
      ensures Valid()
      ensures r.Fail? <==> OwnerRefusal(old(quizzes), quizId, user).Some? || !saved
      ensures OwnerRefusal(old(quizzes), quizId, user).Some? ==> r == Fail(OwnerRefusal(old(quizzes), quizId, user).value)
      ensures OwnerRefusal(old(quizzes), quizId, user).None? && !saved ==> r == Fail(ServerError)
      ensures quizzes == if r.Ok? then old(quizzes)[quizId := PatchQuiz(old(quizzes)[quizId], body)] else old(quizzes)
      ensures sessions == old(sessions) && submissions == old(submissions)
    {
      var refusal := OwnerRefusal(quizzes, quizId, user);
      if refusal.Some? {
        return Fail(refusal.value);
      }
      if !saved {
        return Fail(ServerError);
      }
      quizzes := quizzes[quizId := PatchQuiz(quizzes[quizId], body)];
      return Ok(());
    }

    /** `DELETE /:id`. */
    method DeleteQuiz(quizId: Id, user: Id) returns (r: Result<()>)
      modifies this
      requires Valid()
      ensures Valid()
      ensures r.Fail? <==> OwnerRefusal(old(quizzes), quizId, user).Some?
      ensures r.Fail? ==> r.status == OwnerRefusal(old(quizzes), quizId, user).value
      ensures quizzes == if r.Ok? then old(quizzes) - {quizId} else old(quizzes)
      ensures sessions == old(sessions) && submissions == old(submissions)
    {
      var refusal := OwnerRefusal(quizzes, quizId, user);
      if refusal.Some? {
        return Fail(refusal.value);
      }
      quizzes := quizzes - {quizId};
      return Ok(());
    }

    /** `PATCH /:id/publish`: the owner sets the published flag to the given value. */
    method SetPublished(quizId: Id, user: Id, value: bool) returns (r: Result<()>)
      modifies this
      requires Valid()
      ensures Valid()
      ensures r.Fail? <==> OwnerRefusal(old(quizzes), quizId, user).Some?
      ensures r.Fail? ==> r.status == OwnerRefusal(old(quizzes), quizId, user).value
      ensures quizzes == if r.Ok? then old(quizzes)[quizId := old(quizzes)[quizId].(isPublished := value)]
                         else old(quizzes)
      ensures sessions == old(sessions) && submissions == old(submissions)
    {
      var refusal := OwnerRefusal(quizzes, quizId, user);
      if refusal.Some? {
        return Fail(refusal.value);
      }
      quizzes := quizzes[quizId := quizzes[quizId].(isPublished := value)];
      return Ok(());
    }

    /** `POST /:id/assign`: the owner appends one roster entry per id, keeping
      the existing entries and not removing duplicates. A body without
      `studentIds` throws on `map` after the checks: 500, nothing saved. */
    method Assign(quizId: Id, user: Id, studentIds: Option<seq<Id>>, dueDate: Option<nat>) returns (r: Result<()>)
      modifies this
      requires Valid()
      ensures Valid()
      ensures OwnerRefusal(old(quizzes), quizId, user).Some? ==> r == Fail(OwnerRefusal(old(quizzes), quizId, user).value)
      ensures OwnerRefusal(old(quizzes), quizId, user).None? && studentIds.None? ==> r == Fail(ServerError)
      ensures r.Ok? <==> OwnerRefusal(old(quizzes), quizId, user).None? && studentIds.Some?
      ensures r.Fail? ==> quizzes == old(quizzes)
      ensures r.Ok? ==> quizzes == old(quizzes)[quizId := old(quizzes)[quizId].(
        students := old(quizzes)[quizId].students + NewEntries(studentIds.value, None, dueDate))]
      ensures sessions == old(sessions) && submissions == old(submissions)
    {
      var refusal := OwnerRefusal(quizzes, quizId, user);
      if refusal.Some? {
        return Fail(refusal.value);
      }
      if studentIds.None? {
        return Fail(ServerError);
      }
      var q := quizzes[quizId];
      quizzes := quizzes[quizId := q.(students := q.students + NewEntries(studentIds.value, None, dueDate))];
      return Ok(());
    }

    /** `POST /:id/start`: a new active session with the quiz's time limit (60
      minutes by default) and total points; the reported time is the limit in seconds. */
    method Start(quizId: Id, user: Id, now: nat) returns (r: Result<StartInfo>)
      modifies this
      requires Valid()
      ensures Valid()
      ensures r.Fail? <==> quizId !in old(quizzes) || StartRefusal(old(quizzes)[quizId], user).Some?
      ensures r.Fail? ==> sessions == old(sessions)
      ensures r.Fail? && quizId !in old(quizzes) ==> r.status == NotFound
      ensures r.Ok? ==> |sessions| == |old(sessions)| + 1 && sessions[..|old(sessions)|] == old(sessions)
                        && r.value.sessionId == |old(sessions)|
      ensures r.Ok? ==> var s := sessions[|old(sessions)|];
        s.quiz == quizId && s.student == user && s.status == Active && s.answers == []
        && s.startTime == now && s.score == 0
        && s.timeLimit == OrDefault(old(quizzes)[quizId].settings.timeLimit, 60)
        && s.maxScore == OrDefault(old(quizzes)[quizId].totalPoints, 0)
        && r.value.timeRemainingSeconds == 60 * s.timeLimit
      ensures quizzes == old(quizzes) && submissions == old(submissions)
    {
      if quizId !in quizzes {
        return Fail(NotFound);
      }
      var q := quizzes[quizId];
      var refusal := StartRefusal(q, user);
      if refusal.Some? {
        return Fail(refusal.value);
      }
      var created := Create(StartInput(quizId, user, q), now);
      var s := created.value;
      sessions := sessions + [s];
      return Ok(StartInfo(|sessions| - 1, OrDefault(q.settings.timeLimit, 60) * 60));
    }

    /** `GET /:id/take` with the session created as `start` creates it (the
      handler as written never gets past creating the session; see
      `TakeAsWrittenAlwaysFails`): the questions with only their option texts. */
    method Take(quizId: Id, user: Id, now: nat) returns (r: Result<TakeView>)
      modifies this
      requires Valid()
      ensures Valid()
      ensures r.Fail? <==> quizId !in old(quizzes) || TakeRefusal(old(quizzes)[quizId], user).Some?
      ensures r.Fail? ==> sessions == old(sessions)
      ensures r.Ok? ==> var q := old(quizzes)[quizId];
        |sessions| == |old(sessions)| + 1 && sessions[..|old(sessions)|] == old(sessions)
        && r.value.sessionId == |old(sessions)| && sessions[r.value.sessionId].status == Active
        && sessions[r.value.sessionId].student == user
        && r.value.questions == ProjectAll(q.questions)
      ensures quizzes == old(quizzes) && submissions == old(submissions)
    {
      if quizId !in quizzes {
        return Fail(NotFound);
      }
      var q := quizzes[quizId];
      var refusal := TakeRefusal(q, user);
      if refusal.Some? {
        return Fail(refusal.value);
      }
      var created := Create(StartInput(quizId, user, q), now);
      sessions := sessions + [created.value];
      return Ok(TakeView(|sessions| - 1, q.title, ProjectAll(q.questions)));
    }

    /** `PUT /:id/session/:sessionId/answer`: records one answer in an active
      session of the requester. */
    method UpdateAnswer(sessionId: nat, user: Id, questionId: Id, answer: Value, now: nat) returns (r: Result<()>)
      modifies this
      requires Valid()
      ensures Valid()
      ensures r.Fail? <==> SessionRefusal(old(sessions), sessionId, user).Some?
      ensures r.Fail? ==> r.status == SessionRefusal(old(sessions), sessionId, user).value
                          && sessions == old(sessions)
      ensures r.Ok? ==> sessions == old(sessions)[sessionId := old(sessions)[sessionId].(
        answers := Upsert(old(sessions)[sessionId].answers, questionId, answer, now))]
      ensures quizzes == old(quizzes) && submissions == old(submissions)
    {
      var refusal := SessionRefusal(sessions, sessionId, user);
      if refusal.Some? {
        return Fail(refusal.value);
      }
      var s := sessions[sessionId];
      UpsertKeepsUnique(s.answers, questionId, answer, now);
      sessions := sessions[sessionId := s.(answers := Upsert(s.answers, questionId, answer, now))];
      return Ok(());
    }

    /** `POST /:id/submit`: merges the body's answers into the session, grades
      every answer, stores the score and completes the session. The report's
      percentage is the rounded share of the score in the session's maximum.
      A body without `answers` throws on `forEach` after the checks: 500,
      nothing saved. */
    method Submit(sessionId: nat, user: Id, answers: Option<seq<BodyAnswer>>, now: nat) returns (r: Result<SubmitReport>)
      modifies this
      requires Valid()
      ensures Valid()
      ensures SessionRefusal(old(sessions), sessionId, user).Some? ==>
        r == Fail(SessionRefusal(old(sessions), sessionId, user).value) && sessions == old(sessions)
      ensures SessionRefusal(old(sessions), sessionId, user).None? && answers.None? ==>
        r == Fail(ServerError) && sessions == old(sessions)
      ensures SessionRefusal(old(sessions), sessionId, user).None? && answers.Some? ==>
        var s := old(sessions)[sessionId];
        var body := answers.value;
        if s.quiz !in quizzes && MergeAll(s.answers, body, now) != [] then
          r == Fail(ServerError) && sessions == old(sessions)
        else
          var questions := if s.quiz in quizzes then quizzes[s.quiz].questions else [];
          sessions == old(sessions)[sessionId := Submitted(s, body, questions, now)]
          && r == Ok(SubmitReport(sessions[sessionId].score, s.maxScore,
                                  RoundedPercent(sessions[sessionId].score, s.maxScore)))
      ensures quizzes == old(quizzes) && submissions == old(submissions)
    {
      var refusal := SessionRefusal(sessions, sessionId, user);
      if refusal.Some? {
        return Fail(refusal.value);
      }
      if answers.None? {
        return Fail(ServerError);
      }
      var body := answers.value;
      var s := sessions[sessionId];
      var merged := MergeAnswers(s.answers, body, now);
      if s.quiz !in quizzes && merged != [] {
        // The populated quiz is null: reading its questions throws.
        return Fail(ServerError);
      }
      var questions := if s.quiz in quizzes then quizzes[s.quiz].questions else [];
      var graded, total := GradeAnswers(merged, questions);
      var t := s.(answers := graded, score := total, status := Completed, endTime := Some(now));
      assert t == Submitted(s, body, questions, now);
      SubmittedScore(s, body, questions, now);
      sessions := sessions[sessionId := t];
      return Ok(SubmitReport(total, s.maxScore, RoundedPercent(total, s.maxScore)));
    }

    /** `PUT /:id/session/:sessionId/review`: the quiz's instructor marks the
      student's first submission for the quiz completed and reviewed. The
      session itself keeps its stored fields. */
    method Review(quizId: Id, sessionId: nat, user: Id, now: nat) returns (r: Result<()>)
      modifies this
      requires Valid()
      ensures Valid()
      ensures sessionId >= |old(sessions)| ==> r == Fail(NotFound)
      ensures sessionId < |old(sessions)| ==> r == match OwnerRefusal(old(quizzes), quizId, user)
                                                 case Some(st) => Fail(st)
                                                 case None => Ok(())
      ensures r.Fail? ==> submissions == old(submissions)
      ensures r.Ok? ==> match FirstSubmission(old(submissions), quizId, old(sessions)[sessionId].student)
        case None => submissions == old(submissions)
        case Some(k) => submissions == old(submissions)[k := old(submissions)[k].(isCompleted := true, reviewedAt := Some(now))]
      ensures quizzes == old(quizzes) && sessions == old(sessions)
    {
      if sessionId >= |sessions| {
        return Fail(NotFound);
      }
      var refusal := OwnerRefusal(quizzes, quizId, user);
      if refusal.Some? {
        return Fail(refusal.value);
      }
      var found := FirstSubmission(submissions, quizId, sessions[sessionId].student);
      if found.Some? {
        var k := found.value;
        submissions := submissions[k := submissions[k].(isCompleted := true, reviewedAt := Some(now))];
      }
      return Ok(());
    }
  }
}
