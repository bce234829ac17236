/** The pure rules behind the session routes of routes/quiz.js: recording an
    answer in a session (update in place or append), merging the answers sent
    with a submission, grading each answer by strict equality with the
    question's `correctAnswer`, and the resulting score. */
module QuizGrading {
  import opened Common
  import opened Domain
  import opened QuizSessionModel

  /** An answer sent in the body of a submission. */
  datatype BodyAnswer = BodyAnswer(questionId: Id, answer: Value)

  /** No two recorded answers are for the same question. */
  predicate UniqueIds(answers: seq<SessionAnswer>) {
    forall i, j :: 0 <= i < j < |answers| ==> answers[i].questionId != answers[j].questionId
  }

  /** No recorded answer has been graded yet. */
  predicate Ungraded(answers: seq<SessionAnswer>) {
    forall i :: 0 <= i < |answers| ==> answers[i].isCorrect.None? && answers[i].points.None?
  }

  /** The questions a list of answers answers. */
  function IdSet(answers: seq<SessionAnswer>): set<Id> {
    set i | 0 <= i < |answers| :: answers[i].questionId
  }

  /** `answers.findIndex(a => a.questionId == qid)`, `None` standing for -1. */
  function AnswerIndex(answers: seq<SessionAnswer>, qid: Id): (r: Option<nat>)
    ensures r.None? <==> qid !in IdSet(answers)
    ensures r.Some? ==> r.value < |answers| && answers[r.value].questionId == qid
    ensures r.Some? ==> forall j :: 0 <= j < r.value ==> answers[j].questionId != qid
  {
    if answers == [] then None
    else if answers[0].questionId == qid then Some(0)
    else
      var r := AnswerIndex(answers[1..], qid);
      assert forall k :: 1 <= k < |answers| ==> answers[k] == answers[1..][k - 1];
      assert IdSet(answers) == {answers[0].questionId} + IdSet(answers[1..]);
      if r.None? then None else Some(r.value + 1)
  }

  /** Recording `v` as the answer to `qid` at time `now`: an existing entry for
      that question is overwritten in place, otherwise one entry is appended.
      Every other entry is left as it was, and grading fields are never touched. */
  function Upsert(answers: seq<SessionAnswer>, qid: Id, v: Value, now: nat): (r: seq<SessionAnswer>)
    ensures |r| == if qid in IdSet(answers) then |answers| else |answers| + 1
    ensures forall i :: 0 <= i < |answers| && answers[i].questionId != qid ==> r[i] == answers[i]
    ensures forall i :: 0 <= i < |answers| ==>
      r[i].questionId == answers[i].questionId && r[i].isCorrect == answers[i].isCorrect
      && r[i].points == answers[i].points
    ensures |r| > |answers| ==> r[|answers|] == SessionAnswer(qid, v, None, None, now)
    ensures exists k :: 0 <= k < |r| && r[k].questionId == qid && r[k].answer == v && r[k].answeredAt == now
    ensures IdSet(r) == IdSet(answers) + {qid}
  {
    match AnswerIndex(answers, qid)
    case Some(k) =>
      var r := answers[k := answers[k].(answer := v, answeredAt := now)];
      assert IdSet(r) == IdSet(answers) by {
        assert forall i :: 0 <= i < |r| ==> r[i].questionId == answers[i].questionId;
      }
      r
    case None =>
      var r := answers + [SessionAnswer(qid, v, None, None, now)];
      assert IdSet(r) == IdSet(answers) + {qid} by {
        assert forall i :: 0 <= i < |answers| ==> r[i] == answers[i];
        assert r[|answers|].questionId == qid;
      }
      r
  }

  /** Recording an answer keeps at most one entry per question. */
  lemma UpsertKeepsUnique(answers: seq<SessionAnswer>, qid: Id, v: Value, now: nat)
    requires UniqueIds(answers)
    ensures UniqueIds(Upsert(answers, qid, v, now))
  {
    var r := Upsert(answers, qid, v, now);
    if |r| > |answers| {
      forall i | 0 <= i < |answers|
        ensures answers[i].questionId != qid
      {
        assert answers[i].questionId in IdSet(answers);
      }
    }
  }

  /** After recording, the entry for `qid` is the only one and holds `v`. */
  lemma UpsertThenLookup(answers: seq<SessionAnswer>, qid: Id, v: Value, now: nat)
    requires UniqueIds(answers)
    ensures var r := Upsert(answers, qid, v, now);
      forall i :: 0 <= i < |r| && r[i].questionId == qid ==> r[i].answer == v && r[i].answeredAt == now
  {
    UpsertKeepsUnique(answers, qid, v, now);
  }

  /** Recording an answer never grades anything. */
  lemma UpsertKeepsUngraded(answers: seq<SessionAnswer>, qid: Id, v: Value, now: nat)
    requires Ungraded(answers)
    ensures Ungraded(Upsert(answers, qid, v, now))
  {
  }

  /** The answers of a session after the answers of a submission body are
      recorded one after the other. */
  function MergeAll(base: seq<SessionAnswer>, body: seq<BodyAnswer>, now: nat): seq<SessionAnswer>
  {
    if body == [] then base
    else
      var last := body[|body| - 1];
      Upsert(MergeAll(base, body[..|body| - 1], now), last.questionId, last.answer, now)
  }

  /** The questions answered in a submission body. */
  function BodyIds(body: seq<BodyAnswer>): set<Id>
  {
    if body == [] then {} else BodyIds(body[..|body| - 1]) + {body[|body| - 1].questionId}
  }

  /** Merging keeps one entry per question and leaves everything ungraded. */
  lemma {:induction false} MergeAllInvariant(base: seq<SessionAnswer>, body: seq<BodyAnswer>, now: nat)
    requires UniqueIds(base) && Ungraded(base)
    ensures UniqueIds(MergeAll(base, body, now)) && Ungraded(MergeAll(base, body, now))
  {
    if body != [] {
      var init := body[..|body| - 1];
      var last := body[|body| - 1];
      MergeAllInvariant(base, init, now);
      UpsertKeepsUnique(MergeAll(base, init, now), last.questionId, last.answer, now);
    }
  }

  /** After merging, the session has answers for exactly the questions it had
      answered before and those in the body. */
  lemma {:induction false} MergeAllIds(base: seq<SessionAnswer>, body: seq<BodyAnswer>, now: nat)
    ensures IdSet(MergeAll(base, body, now)) == IdSet(base) + BodyIds(body)
  {
    if body != [] {
      MergeAllIds(base, body[..|body| - 1], now);
    }
  }

  /** The graded form of one answer. An answer to a question that does not
      exist is left as it is; otherwise it is correct exactly when the stored
      `correctAnswer` is strictly equal to it, and then earns `points || 1`. */
  function GradeAnswer(a: SessionAnswer, questions: seq<Question>): (r: SessionAnswer)
    ensures r.questionId == a.questionId && r.answer == a.answer && r.answeredAt == a.answeredAt
    ensures FindQuestion(questions, a.questionId).None? ==> r == a
    ensures FindQuestion(questions, a.questionId).Some? ==>
      var q := FindQuestion(questions, a.questionId).value;
      r.isCorrect == Some(StrictEq(q.correctAnswer, a.answer))
      && r.points == Some(if StrictEq(q.correctAnswer, a.answer) then PointsOf(q) else 0)
  {
    match FindQuestion(questions, a.questionId)
    case None => a
    case Some(q) =>
      if StrictEq(q.correctAnswer, a.answer) then a.(isCorrect := Some(true), points := Some(PointsOf(q)))
      else a.(isCorrect := Some(false), points := Some(0))
  }

  /** The points one answer adds to the score. */
  function Earned(a: SessionAnswer, questions: seq<Question>): int
  {
    match FindQuestion(questions, a.questionId)
    case None => 0
    case Some(q) => if StrictEq(q.correctAnswer, a.answer) then PointsOf(q) else 0
  }

  /** The graded answers, in the same order. */
  function GradeAll(answers: seq<SessionAnswer>, questions: seq<Question>): (r: seq<SessionAnswer>)
    ensures |r| == |answers|
    ensures forall i :: 0 <= i < |answers| ==> r[i] == GradeAnswer(answers[i], questions)
  {
    seq(|answers|, i requires 0 <= i < |answers| => GradeAnswer(answers[i], questions))
  }

  /** Grading one more answer appends its grade. */
  lemma GradeAllSnoc(answers: seq<SessionAnswer>, questions: seq<Question>)
    requires answers != []
    ensures var n := |answers| - 1;
      GradeAll(answers, questions) == GradeAll(answers[..n], questions) + [GradeAnswer(answers[n], questions)]
  {
    var n := |answers| - 1;
    var left, right := GradeAll(answers, questions), GradeAll(answers[..n], questions) + [GradeAnswer(answers[n], questions)];
    assert |left| == |right|;
    forall i | 0 <= i < |left| ensures left[i] == right[i] {
      if i < n {
        assert answers[..n][i] == answers[i];
      }
    }
  }

  /** The score the grading loop accumulates over the answers, in order. */
  function TotalScore(answers: seq<SessionAnswer>, questions: seq<Question>): int
  {
    if answers == [] then 0
    else TotalScore(answers[..|answers| - 1], questions) + Earned(answers[|answers| - 1], questions)
  }

  /** The sum of the points recorded on the answers marked correct. */
  function CorrectPoints(graded: seq<SessionAnswer>): int
  {
    if graded == [] then 0
    else
      var a := graded[|graded| - 1];
      CorrectPoints(graded[..|graded| - 1])
        + (if a.isCorrect == Some(true) && a.points.Some? then a.points.value else 0)
  }

  /** The score equals the sum of the points of the answers that grading marks
      correct: answers to unknown questions and wrong answers add nothing. */
  lemma {:induction false} ScoreIsSumOfCorrectPoints(answers: seq<SessionAnswer>, questions: seq<Question>)
    requires Ungraded(answers)
    ensures CorrectPoints(GradeAll(answers, questions)) == TotalScore(answers, questions)
  {
    if answers != [] {
      var n := |answers| - 1;
      var graded := GradeAll(answers, questions);
      assert graded[..n] == GradeAll(answers[..n], questions);
      assert Ungraded(answers[..n]) by {
        forall i | 0 <= i < n ensures answers[..n][i] == answers[i] { }
      }
      ScoreIsSumOfCorrectPoints(answers[..n], questions);
      GradedEarns(answers[n], questions);
      assert graded[n] == GradeAnswer(answers[n], questions);
    }
  }

  /** The points a graded answer records as correct are the points it earns. */
  lemma GradedEarns(a: SessionAnswer, questions: seq<Question>)
    requires a.isCorrect.None? && a.points.None?
    ensures var g := GradeAnswer(a, questions);
      (if g.isCorrect == Some(true) && g.points.Some? then g.points.value else 0) == Earned(a, questions)
  {
  }

  /** A submission with no answers scores nothing. */
  lemma EmptyScoresZero(questions: seq<Question>)
    ensures TotalScore([], questions) == 0 && GradeAll([], questions) == []
  {
  }

  /** No question is worth negative points. */
  predicate NonNegativePoints(questions: seq<Question>) {
    forall k :: 0 <= k < |questions| ==> questions[k].points.None? || questions[k].points.value >= 0
  }

  /** The most a quiz can award: the sum of `points || 1` over its questions. */
  function MaxPoints(questions: seq<Question>): int
  {
    if questions == [] then 0 else PointsOf(questions[0]) + MaxPoints(questions[1..])
  }

  /** The points of the questions whose id is in `ids`. */
  function Claimed(questions: seq<Question>, ids: set<Id>): int
  {
    if questions == [] then 0
    else (if questions[0].id in ids then PointsOf(questions[0]) else 0) + Claimed(questions[1..], ids)
  }

  lemma {:induction false} ClaimedNonNegative(questions: seq<Question>, ids: set<Id>)
    requires NonNegativePoints(questions)
    ensures 0 <= Claimed(questions, ids) <= MaxPoints(questions)
  {
    if questions != [] {
      assert NonNegativePoints(questions[1..]) by {
        assert forall k :: 0 <= k < |questions| - 1 ==> questions[1..][k] == questions[k + 1];
      }
      ClaimedNonNegative(questions[1..], ids);
    }
  }

  lemma {:induction false} ClaimedSplit(questions: seq<Question>, ids: set<Id>, x: Id)
    requires x !in ids
    ensures Claimed(questions, ids + {x}) == Claimed(questions, ids) + Claimed(questions, {x})
  {
    if questions != [] {
      ClaimedSplit(questions[1..], ids, x);
    }
  }

  /** What one answer earns is covered by the points of its question. */
  lemma {:induction false} EarnedWithinClaim(a: SessionAnswer, questions: seq<Question>)
    requires NonNegativePoints(questions)
    ensures Earned(a, questions) <= Claimed(questions, {a.questionId})
  {
    ClaimedNonNegative(questions, {a.questionId});
    if questions != [] {
      ClaimedNonNegative(questions[1..], {a.questionId}) by {
        assert forall k :: 0 <= k < |questions| - 1 ==> questions[1..][k] == questions[k + 1];
      }
      if questions[0].id != a.questionId {
        assert FindQuestion(questions, a.questionId) == FindQuestion(questions[1..], a.questionId) by {
          var r := QuestionIndex(questions[1..], a.questionId);
          assert forall k :: 1 <= k < |questions| ==> questions[k] == questions[1..][k - 1];
          assert QuestionIndex(questions, a.questionId) == if r.None? then None else Some(r.value + 1);
        }
        EarnedWithinClaim(a, questions[1..]) by {
          assert forall k :: 0 <= k < |questions| - 1 ==> questions[1..][k] == questions[k + 1];
        }
      }
    }
  }

  lemma {:induction false} ScoreWithinClaim(answers: seq<SessionAnswer>, questions: seq<Question>)
    requires UniqueIds(answers) && NonNegativePoints(questions)
    ensures TotalScore(answers, questions) <= Claimed(questions, IdSet(answers))
  {
    if answers != [] {
      var n := |answers| - 1;
      var init, last := answers[..n], answers[n];
      ScoreWithinClaim(init, questions);
      assert IdSet(answers) == IdSet(init) + {last.questionId} by {
        assert forall i :: 0 <= i < n ==> init[i] == answers[i];
      }
      assert last.questionId !in IdSet(init);
      ClaimedSplit(questions, IdSet(init), last.questionId);
      EarnedWithinClaim(last, questions);
    } else {
      ClaimedNonNegative(questions, IdSet(answers));
    }
  }

  /** With one answer per question and no negative point values, the score of a
      submission never exceeds the sum of the points of the quiz. */
  lemma ScoreAtMostMaxPoints(answers: seq<SessionAnswer>, questions: seq<Question>)
    requires UniqueIds(answers) && NonNegativePoints(questions)
    ensures TotalScore(answers, questions) <= MaxPoints(questions)
  {
    ScoreWithinClaim(answers, questions);
    ClaimedNonNegative(questions, IdSet(answers));
  }
}
