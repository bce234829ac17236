/** The handlers of routes/submissions.js: the older submission path, which
    scores by counting correct answers, stamps the student's roster entry with
    `submittedAt` and completes the submission unless manual review is required;
    the listing routes; access to one submission; and the instructor's review. */
module SubmissionRoutes {
  import opened Common
  import opened Domain
  import opened QuizGrading

  /** An answer in the request body. */
  datatype PostedAnswer = PostedAnswer(questionId: Id, selectedAnswer: Value)

  /** The student may submit: some roster entry for them has no `submittedAt`. */
  predicate Eligible(students: seq<RosterEntry>, user: Id) {
    exists i :: 0 <= i < |students| && students[i].student == user && students[i].submittedAt.None?
  }

  /** The stored form of one answer: correct when its question exists and the
      question's `correctAnswer` is strictly equal to the selected answer;
      `isCorrect` is absent when the question does not exist. */
  function Check(a: PostedAnswer, questions: seq<Question>): (r: SubAnswer)
    ensures r.questionId == a.questionId && r.selectedAnswer == a.selectedAnswer
    ensures r.isCorrect.None? <==> FindQuestion(questions, a.questionId).None?
    ensures r.isCorrect == Some(true) <==>
      FindQuestion(questions, a.questionId).Some?
      && StrictEq(FindQuestion(questions, a.questionId).value.correctAnswer, a.selectedAnswer)
  {
    match FindQuestion(questions, a.questionId)
    case None => SubAnswer(a.questionId, a.selectedAnswer, None)
    case Some(q) => SubAnswer(a.questionId, a.selectedAnswer, Some(StrictEq(q.correctAnswer, a.selectedAnswer)))
  }

  /** The number of answers whose check comes out correct. */
  function CorrectCount(answers: seq<PostedAnswer>, questions: seq<Question>): nat
  {
    if answers == [] then 0
    else CorrectCount(answers[..|answers| - 1], questions)
         + (if Check(answers[|answers| - 1], questions).isCorrect == Some(true) then 1 else 0)
  }

  /** The scoring `map` of POST /: one stored answer per posted answer, in the
      same order, counting the correct ones. */
  method ScoreAnswers(answers: seq<PostedAnswer>, questions: seq<Question>) returns (stored: seq<SubAnswer>, score: nat)
    ensures |stored| == |answers|
    ensures forall i :: 0 <= i < |answers| ==> stored[i] == Check(answers[i], questions)
    ensures score == CorrectCount(answers, questions)
  {
    stored := [];
    score := 0;
    for i := 0 to |answers|
      invariant |stored| == i
      invariant forall k :: 0 <= k < i ==> stored[k] == Check(answers[k], questions)
      invariant score == CorrectCount(answers[..i], questions)
    {
      assert answers[..i + 1][..i] == answers[..i];
      var checked := Check(answers[i], questions);
      if checked.isCorrect == Some(true) {
        score := score + 1;
      }
      stored := stored + [checked];
    }
    assert answers[..|answers|] == answers;
  }

  /** The score counts answers, never more than were posted. */
  lemma {:induction false} CorrectCountBounded(answers: seq<PostedAnswer>, questions: seq<Question>)
    ensures CorrectCount(answers, questions) <= |answers|
  {
    if answers != [] {
      CorrectCountBounded(answers[..|answers| - 1], questions);
    }
  }

  /** The score does not depend on the points of the questions. */
  lemma {:induction false} CorrectCountIgnoresPoints(answers: seq<PostedAnswer>, questions: seq<Question>, other: seq<Question>)
    requires |other| == |questions|
    requires forall k :: 0 <= k < |questions| ==> other[k] == questions[k].(points := other[k].points)
    ensures CorrectCount(answers, questions) == CorrectCount(answers, other)
  {
    if answers != [] {
      CorrectCountIgnoresPoints(answers[..|answers| - 1], questions, other);
      var a := answers[|answers| - 1];
      SameIndex(questions, other, a.questionId);
    }
  }

  lemma {:induction false} SameIndex(questions: seq<Question>, other: seq<Question>, id: Id)
    requires |other| == |questions|
    requires forall k :: 0 <= k < |questions| ==> other[k] == questions[k].(points := other[k].points)
    ensures QuestionIndex(questions, id) == QuestionIndex(other, id)
  {
    if questions != [] {
      SameIndex(questions[1..], other[1..], id);
    }
  }

  /** As written: the student's FIRST roster entry is stamped, whichever entry
      made them eligible. */
  function StampFirst(students: seq<RosterEntry>, user: Id, now: nat): (r: seq<RosterEntry>)
    requires OnRoster(students, user)
    ensures |r| == |students|
    ensures var k := FirstRosterIndex(students, user).value;
      && r[k] == students[k].(submittedAt := Some(now))
      && forall i :: 0 <= i < |students| && i != k ==> r[i] == students[i]
  {
    var k := FirstRosterIndex(students, user).value;
    students[k := students[k].(submittedAt := Some(now))]
  }

  /** A student whose first roster entry is already stamped but who has a
      later, unstamped entry (a second assignment appends one) stays eligible
      after every submission: the stamp lands on the first entry again. */
  lemma StampFirstKeepsEligible(students: seq<RosterEntry>, user: Id, now: nat)
    requires OnRoster(students, user) && Eligible(students, user)
    requires students[FirstRosterIndex(students, user).value].submittedAt.Some?
    ensures Eligible(StampFirst(students, user, now), user)
  {
    var k := FirstRosterIndex(students, user).value;
    var i :| 0 <= i < |students| && students[i].student == user && students[i].submittedAt.None?;
    assert i != k;
    assert StampFirst(students, user, now)[i] == students[i];
  }

  /** Such a roster exists: the student assigned twice, the first entry stamped. */
  lemma StampFirstCounterexample()
    ensures var students := [RosterEntry("s", None, None, Some(1)), RosterEntry("s", None, None, None)];
      && OnRoster(students, "s") && Eligible(students, "s")
      && students[FirstRosterIndex(students, "s").value].submittedAt.Some?
  {
    var students := [RosterEntry("s", None, None, Some(1)), RosterEntry("s", None, None, None)];
    assert students[1].student == "s" && students[1].submittedAt.None?;
  }

  /** Corrected: every unstamped roster entry of the student is stamped. */
  function StampAll(students: seq<RosterEntry>, user: Id, now: nat): (r: seq<RosterEntry>)
    ensures |r| == |students|
    ensures forall i :: 0 <= i < |students| ==>
      r[i] == if students[i].student == user && students[i].submittedAt.None?
              then students[i].(submittedAt := Some(now)) else students[i]
  {
    seq(|students|, i requires 0 <= i < |students| =>
      if students[i].student == user && students[i].submittedAt.None?
      then students[i].(submittedAt := Some(now)) else students[i])
  }

  /** After the corrected stamp the student can no longer submit; every other
      student's eligibility is unchanged. */
  lemma StampAllEndsEligibility(students: seq<RosterEntry>, user: Id, now: nat)
    ensures !Eligible(StampAll(students, user, now), user)
    ensures forall other :: other != user ==>
      (Eligible(StampAll(students, user, now), other) <==> Eligible(students, other))
  {
    var r := StampAll(students, user, now);
    forall other | other != user
      ensures Eligible(r, other) <==> Eligible(students, other)
    {
      if Eligible(students, other) {
        var i :| 0 <= i < |students| && students[i].student == other && students[i].submittedAt.None?;
        assert r[i] == students[i];
      }
    }
  }

  /** What POST / answers with. */
  datatype SubmitSummary = SubmitSummary(id: nat, score: nat, percentage: Option<real>, totalQuestions: nat)

  /** GET /:id: the submission's student and the quiz's instructor may see it. */
  predicate MaySee(s: Submission, quiz: Quiz, user: Id) {
    s.student == user || quiz.instructor == user
  }

  class SubmissionApi {
    var quizzes: map<Id, Quiz>
    var submissions: seq<Submission>

    constructor ()
      ensures quizzes == map[] && submissions == []
    {
      quizzes := map[];
      submissions := [];
    }

    /** POST /: checks eligibility, scores by count, stores the submission,
      stamps the student's roster entries and completes the submission unless
      the quiz requires manual review. A body without `answers` throws on
      `map` after the checks: 500, nothing stored. */
    method Submit(user: Id, quizId: Id, posted: Option<seq<PostedAnswer>>, now: nat) returns (r: Result<SubmitSummary>)
      modifies this
      ensures quizId !in old(quizzes) ==> r == Fail(NotFound)
      ensures quizId in old(quizzes) && !Eligible(old(quizzes)[quizId].students, user) ==> r == Fail(Forbidden)
      ensures quizId in old(quizzes) && Eligible(old(quizzes)[quizId].students, user) && posted.None? ==>
        r == Fail(ServerError)
      ensures r.Fail? ==> quizzes == old(quizzes) && submissions == old(submissions)
      ensures r.Ok? <==> quizId in old(quizzes) && Eligible(old(quizzes)[quizId].students, user) && posted.Some?
      ensures r.Ok? ==> |submissions| == |old(submissions)| + 1 && submissions[..|old(submissions)|] == old(submissions)
      ensures r.Ok? ==> var q := old(quizzes)[quizId];
        var answers := posted.value;
        var s := submissions[|old(submissions)|];
        r.value.id == |old(submissions)|
        && s.quiz == quizId && s.student == user
        && |s.answers| == |answers|
        && (forall i :: 0 <= i < |answers| ==> s.answers[i] == Check(answers[i], q.questions))
        && s.score == Some(CorrectCount(answers, q.questions) as int)
        && s.maxScore == MaxPoints(q.questions) && s.totalQuestions == |q.questions|
        && s.percentage == RealPercent(CorrectCount(answers, q.questions), |q.questions|)
        && s.isCompleted == !q.settings.requireManualReview
        && s.reviewedAt == (if q.settings.requireManualReview then None else Some(now))
        && quizzes == old(quizzes)[quizId := q.(students := StampAll(q.students, user, now))]
      ensures r.Ok? ==> quizId in quizzes && !Eligible(quizzes[quizId].students, user)
    {
      if quizId !in quizzes {
        return Fail(NotFound);
      }
      var q := quizzes[quizId];
      if !Eligible(q.students, user) {
        return Fail(Forbidden);
      }
      if posted.None? {
        return Fail(ServerError);
      }
      var answers := posted.value;
      var stored, score := ScoreAnswers(answers, q.questions);
      var total := |q.questions|;
      var submission := Submission(quizId, user, stored, Some(score), RealPercent(score, total),
                                   MaxPoints(q.questions), total, false, None, None, None);
      submissions := submissions + [submission];
      var id := |submissions| - 1;
      StampAllEndsEligibility(q.students, user, now);
      quizzes := quizzes[quizId := q.(students := StampAll(q.students, user, now))];
      if !q.settings.requireManualReview {
        submissions := submissions[id := submissions[id].(isCompleted := true, reviewedAt := Some(now))];
      }
      return Ok(SubmitSummary(id, score, RealPercent(score, total), total));
    }

    /** GET /my-submissions: the positions of the requester's submissions. */
    function MySubmissions(user: Id): (r: seq<nat>)
      reads this
      ensures forall k: nat :: k in r <==> k < |submissions| && submissions[k].student == user
    {
      Positions(submissions, (s: Submission) => s.student == user)
    }

    /** GET /quiz/:quizId: the quiz's submissions, for its instructor only. */
    function QuizSubmissions(quizId: Id, user: Id): (r: Result<seq<nat>>)
      reads this
      ensures quizId !in quizzes ==> r == Fail(NotFound)
      ensures quizId in quizzes && quizzes[quizId].instructor != user ==> r == Fail(Forbidden)
      ensures r.Ok? ==> quizId in quizzes && quizzes[quizId].instructor == user
      ensures r.Ok? ==> forall k: nat :: k in r.value <==> k < |submissions| && submissions[k].quiz == quizId
    {
      if quizId !in quizzes then Fail(NotFound)
      else if quizzes[quizId].instructor != user then Fail(Forbidden)
      else Ok(Positions(submissions, (s: Submission) => s.quiz == quizId))
    }

    /** GET /:id: the submission, for its student or its quiz's instructor.
      A submission whose quiz no longer exists makes the handler throw. */
    function GetSubmission(id: nat, user: Id): (r: Result<Submission>)
      reads this
      ensures id >= |submissions| ==> r == Fail(NotFound)
      ensures r.Ok? <==> id < |submissions| && submissions[id].quiz in quizzes
                         && MaySee(submissions[id], quizzes[submissions[id].quiz], user)
      ensures r.Ok? ==> r.value == submissions[id]
    {
      if id >= |submissions| then Fail(NotFound)
      else
        var s := submissions[id];
        if s.quiz !in quizzes then Fail(ServerError)
        else if !MaySee(s, quizzes[s.quiz], user) then Fail(Forbidden)
        else Ok(s)
    }

    /** PUT /:id/review: the quiz's instructor marks the submission reviewed and completed. */
    method Review(id: nat, user: Id, now: nat) returns (r: Result<()>)
      modifies this
      ensures id >= |old(submissions)| ==> r == Fail(NotFound)
      ensures r.Ok? <==> id < |old(submissions)| && old(submissions)[id].quiz in quizzes
                         && quizzes[old(submissions)[id].quiz].instructor == user
      ensures r.Ok? ==> submissions == old(submissions)[id := old(submissions)[id].(reviewedAt := Some(now), isCompleted := true)]
      ensures r.Fail? ==> submissions == old(submissions)
      ensures quizzes == old(quizzes)
    {
      if id >= |submissions| {
        return Fail(NotFound);
      }
      var s := submissions[id];
      if s.quiz !in quizzes {
        return Fail(ServerError);
      }
      if quizzes[s.quiz].instructor != user {
        return Fail(Forbidden);
      }
      submissions := submissions[id := s.(reviewedAt := Some(now), isCompleted := true)];
      return Ok(());
    }
  }

  /** The positions of the elements satisfying `p`, in increasing order. */
  function Positions(subs: seq<Submission>, p: Submission -> bool): (r: seq<nat>)
    ensures forall k: nat :: k in r <==> k < |subs| && p(subs[k])
    ensures forall i, j :: 0 <= i < j < |r| ==> r[i] < r[j]
  {
    if subs == [] then []
    else
      var n := |subs| - 1;
      var init := Positions(subs[..n], p);
      forall i | 0 <= i < |init|
        ensures init[i] < n
      {
        var k: nat := init[i];
        assert k in init;
        assert k < |subs[..n]|;
      }
      var r := init + (if p(subs[n]) then [n] else []);
      assert forall k: nat :: k in r <==> k < |subs| && p(subs[k]) by {
        forall k: nat
          ensures k in r <==> k < |subs| && p(subs[k])
        {
          if k < n {
            assert subs[..n][k] == subs[k];
          }
        }
      }
      r
  }
}
