/** A quiz-taking session (models/QuizSession.js): its status enumeration, the
    required fields and defaults applied when a session document is created, and
    the two computed fields `timeRemaining` and `completionPercentage`.
    Times are millisecond clock values; `timeLimit` is in minutes. */
module QuizSessionModel {
  import opened Common

  datatype SessionStatus = Active | Completed | Expired | Abandoned

  /** The string stored for each status. */
  function StatusName(s: SessionStatus): (r: string)
    ensures |r| >= 6
  {
    match s
    case Active => "active"
    case Completed => "completed"
    case Expired => "expired"
    case Abandoned => "abandoned"
  }

  /** Enum validation of the `status` path: only the four names are accepted. */
  function ParseStatus(name: string): (r: Option<SessionStatus>)
    ensures r.Some? ==> StatusName(r.value) == name
  {
    if name == "active" then Some(Active)
    else if name == "completed" then Some(Completed)
    else if name == "expired" then Some(Expired)
    else if name == "abandoned" then Some(Abandoned)
    else None
  }

  /** The enum accepts exactly the names of the four statuses. */
  lemma ParseStatusName(s: SessionStatus)
    ensures ParseStatus(StatusName(s)) == Some(s)
  {
  }

  /** One recorded answer. `isCorrect` and `points` are set only by grading. */
  datatype SessionAnswer = SessionAnswer(
    questionId: Id,
    answer: Value,
    isCorrect: Option<bool>,
    points: Option<int>,
    answeredAt: nat)

  datatype Session = Session(
    quiz: Id,
    student: Id,
    startTime: nat,
    endTime: Option<nat>,
    timeLimit: int,
    answers: seq<SessionAnswer>,
    score: int,
    maxScore: int,
    status: SessionStatus,
    attemptNumber: int)

  /** The fields a handler passes when it creates a session; `None` is a path it leaves out. */
  datatype SessionInput = SessionInput(
    quiz: Option<Id>,
    student: Option<Id>,
    timeLimit: Option<int>,
    maxScore: Option<int>)

  predicate HasRequired(input: SessionInput) {
    input.quiz.Some? && input.student.Some? && input.timeLimit.Some? && input.maxScore.Some?
  }

  /** Creating and saving a session document at time `now`: validation fails
      (an exception, hence a 500 answer) when a required path is missing;
      otherwise the defaults apply. */
  function Create(input: SessionInput, now: nat): (r: Result<Session>)
    ensures r.Fail? <==> !HasRequired(input)
    ensures r.Fail? ==> r.status == ServerError
    ensures r.Ok? ==> r.value.quiz == input.quiz.value && r.value.student == input.student.value
    ensures r.Ok? ==> r.value.timeLimit == input.timeLimit.value && r.value.maxScore == input.maxScore.value
    ensures r.Ok? ==> r.value.startTime == now && r.value.endTime.None? && r.value.answers == []
    ensures r.Ok? ==> r.value.score == 0 && r.value.status == Active && r.value.attemptNumber == 1
  {
    if !HasRequired(input) then Fail(ServerError)
    else Ok(Session(input.quiz.value, input.student.value, now, None, input.timeLimit.value,
                    [], 0, input.maxScore.value, Active, 1))
  }

  /** Whole minutes elapsed since the start; negative when the clock is behind the start. */
  function ElapsedMinutes(s: Session, now: int): int {
    (now - s.startTime) / 60000
  }

  /** The `timeRemaining` virtual: minutes left, never negative, 0 for a session
      that is not active. */
  function TimeRemaining(s: Session, now: int): (r: int)
    ensures r >= 0
    ensures s.status != Active ==> r == 0
  {
    if s.status != Active then 0
    else
      var left := s.timeLimit - ElapsedMinutes(s, now);
      if left > 0 then left else 0
  }

  /** Minutes left in an active session are exactly the whole minutes of the
      limit not yet used up: the elapsed time lies in the minute `timeLimit - r`. */
  lemma TimeRemainingMeaning(s: Session, now: int)
    requires s.status == Active && TimeRemaining(s, now) > 0
    ensures var r := TimeRemaining(s, now);
      60000 * (s.timeLimit - r) <= now - s.startTime < 60000 * (s.timeLimit - r + 1)
  {
  }

  /** Once the limit is used up the session shows no time left. */
  lemma TimeRemainingExpires(s: Session, now: int)
    requires now - s.startTime >= 60000 * s.timeLimit
    ensures TimeRemaining(s, now) == 0
  {
    if s.status == Active {
      assert ElapsedMinutes(s, now) >= s.timeLimit;
    }
  }

  /** From the start on, an active session never shows more than its limit. */
  lemma TimeRemainingAtMostLimit(s: Session, now: int)
    requires now >= s.startTime
    ensures TimeRemaining(s, now) <= if s.timeLimit > 0 then s.timeLimit else 0
  {
  }

  /** The remaining time never goes up as the clock advances. */
  lemma TimeRemainingMonotone(s: Session, t1: int, t2: int)
    requires t1 <= t2
    ensures TimeRemaining(s, t2) <= TimeRemaining(s, t1)
  {
    DivMonotone(t1 - s.startTime, t2 - s.startTime, 60000);
  }

  lemma DivMonotone(a: int, b: int, d: int)
    requires a <= b && d > 0
    ensures a / d <= b / d
  {
    var qa, qb := a / d, b / d;
    assert d * qa <= a && b < d * (qb + 1);
    if qb + 1 <= qa {
      MulMonotone(d, qb + 1, qa);
    }
  }

  /** The `completionPercentage` virtual: 0 without answers, otherwise the
      rounded share of answered questions; `None` stands for the Infinity of a
      quiz without questions. */
  function CompletionPercentage(answerCount: nat, questionCount: nat): (r: Option<int>)
    ensures answerCount == 0 ==> r == Some(0)
    ensures answerCount > 0 ==> (r.None? <==> questionCount == 0)
    ensures r.Some? && answerCount > 0 ==>
      2 * questionCount * r.value <= 200 * answerCount + questionCount < 2 * questionCount * (r.value + 1)
  {
    if answerCount == 0 then Some(0)
    else if questionCount == 0 then None
    else Some(Percent(answerCount, questionCount))
  }

  /** With no more answers than questions the completion is a percentage. */
  lemma CompletionWithinRange(answerCount: nat, questionCount: nat)
    requires answerCount <= questionCount
    ensures CompletionPercentage(answerCount, questionCount).Some?
    ensures 0 <= CompletionPercentage(answerCount, questionCount).value <= 100
  {
    if answerCount > 0 {
      PercentBounds(answerCount, questionCount);
    }
  }
}
