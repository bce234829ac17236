/** The results page of client/src/pages/QuizResultsPage.jsx: the score, its
    colour, the "m:ss" time, the pass/fail chip, the correct and incorrect
    counts, the per-question breakdown and the retake button. The session and
    the quiz are the already loaded responses; loading and error screens are
    not modelled. The breakdown prints `question.text`, a property the stored
    questions do not have (their wording is in `question`), so the page throws
    while rendering any quiz that has a question. */
module QuizResultsPage {
  import opened Common
  import opened Text

  /** One stored answer of the session. */
  datatype SessionAnswer = SessionAnswer(questionId: Id, isCorrect: Value)

  /** The fields of the session the page reads. */
  datatype Session = Session(answers: seq<SessionAnswer>, timeSpent: nat)

  /** A question of the loaded quiz: its id and the value of its `text`
      property, `undefined` on a question as the server stores it.
      `substring` is a method of strings only: on any other value the
      breakdown's call throws a TypeError. */
  datatype ResultQuestion = ResultQuestion(id: Id, text: Value)

  /** The fields of the quiz the page reads; `passingScore` is `None` when the
      settings do not hold one (`undefined`). */
  datatype ResultQuiz = ResultQuiz(questions: seq<ResultQuestion>, passingScore: Option<int>, allowMultipleAttempts: bool)

  /** The ids of the questions, in quiz order. */
  function Ids(questions: seq<ResultQuestion>): (r: seq<Id>)
    ensures |r| == |questions|
    ensures forall i :: 0 <= i < |questions| ==> r[i] == questions[i].id
  {
    seq(|questions|, i requires 0 <= i < |questions| => questions[i].id)
  }

  /** A JavaScript number as `Math.round(x / m * 100)` can yield it. */
  datatype Score = Finite(n: int) | NotANumber | Infinite

  datatype Color = Success | Warning | Error

  /** `answer.isCorrect` as a filter test. */
  predicate IsCorrect(a: SessionAnswer) {
    Truthy(a.isCorrect)
  }

  /** `session.answers.filter(answer => answer.isCorrect).length`. */
  function CorrectCount(answers: seq<SessionAnswer>): (n: nat)
    ensures n <= |answers|
  {
    CountWhere(answers, IsCorrect)
  }

  /** `calculateScore`: 0 without a session or quiz, otherwise the rounded
      percentage of correct answers over the quiz's questions; with no questions
      the division gives NaN (nothing correct) or Infinity. */
  function CalculateScore(session: Option<Session>, quiz: Option<ResultQuiz>): (r: Score)
    ensures session.None? || quiz.None? ==> r == Finite(0)
    ensures session.Some? && quiz.Some? ==>
      var c, m := CorrectCount(session.value.answers), |quiz.value.questions|;
      && (m > 0 ==> r.Finite? && 2 * m * r.n <= 200 * c + m < 2 * m * (r.n + 1))
      && (m == 0 && c == 0 ==> r == NotANumber)
      && (m == 0 && c > 0 ==> r == Infinite)
  {
    if session.None? || quiz.None? then Finite(0)
    else
      var c, m := CorrectCount(session.value.answers), |quiz.value.questions|;
      if m > 0 then Finite(Percent(c, m))
      else if c == 0 then NotANumber
      else Infinite
  }

  /** With no more correct answers than questions the score is a percentage;
      all correct is 100 and none correct is 0. */
  lemma ScoreIsPercentage(s: Session, q: ResultQuiz)
    requires |q.questions| > 0 && CorrectCount(s.answers) <= |q.questions|
    ensures CalculateScore(Some(s), Some(q)).Finite?
    ensures 0 <= CalculateScore(Some(s), Some(q)).n <= 100
    ensures CorrectCount(s.answers) == |q.questions| ==> CalculateScore(Some(s), Some(q)).n == 100
    ensures CorrectCount(s.answers) == 0 ==> CalculateScore(Some(s), Some(q)).n == 0
  {
    var c, m := CorrectCount(s.answers), |q.questions|;
    var n := Percent(c, m);
    PercentBounds(c, m);
    if c == m {
      if n < 100 {
        MulMonotone(2 * m, n + 1, 100);
      }
    }
    if c == 0 {
      if n > 0 {
        MulMonotone(2 * m, 1, n);
      }
    }
  }

  /** `getScoreColor`: success from 80, warning from 60, error below (and for NaN). */
  function ScoreColor(score: Score): (r: Color)
    ensures score.Finite? ==> (r == Success <==> score.n >= 80)
    ensures score.Finite? ==> (r == Warning <==> 60 <= score.n < 80)
    ensures score.Finite? ==> (r == Error <==> score.n < 60)
    ensures score == NotANumber ==> r == Error
    ensures score == Infinite ==> r == Success
  {
    match score
    case Finite(n) => if n >= 80 then Success else if n >= 60 then Warning else Error
    case NotANumber => Error
    case Infinite => Success
  }

  function ColorRank(c: Color): nat {
    match c
    case Error => 0
    case Warning => 1
    case Success => 2
  }

  /** A higher score never gets a worse colour. */
  lemma ScoreColorMonotone(a: int, b: int)
    requires a <= b
    ensures ColorRank(ScoreColor(Finite(a))) <= ColorRank(ScoreColor(Finite(b)))
  {
  }

  /** `formatTime(seconds)`: whole minutes, a colon, and the remaining seconds
      padded to two digits. QuizResults.jsx writes the same format. */
  function MinSec(seconds: nat): (r: string)
    ensures |r| >= 4 && r[|r| - 3] == ':'
    ensures AllDigits(r[..|r| - 3]) && DigitsValue(r[..|r| - 3]) == seconds / 60
    ensures AllDigits(r[|r| - 2..]) && DigitsValue(r[|r| - 2..]) == seconds % 60
  {
    var m, s := NatToString(seconds / 60), TwoDigits(seconds % 60);
    DigitsOfNat(seconds / 60);
    var r := m + ":" + s;
    assert r[..|r| - 3] == m && r[|r| - 2..] == s;
    r
  }

  /** Reads an "m:ss" time back into seconds. */
  function ReadMinSec(s: string): (r: Option<nat>) {
    if |s| >= 4 && s[|s| - 3] == ':' && AllDigits(s[..|s| - 3]) && AllDigits(s[|s| - 2..]) then
      Some(60 * DigitsValue(s[..|s| - 3]) + DigitsValue(s[|s| - 2..]))
    else None
  }

  /** Every "m:ss" text reads back as the seconds it was made from. */
  lemma ReadMinSecOfMinSec(seconds: nat)
    ensures ReadMinSec(MinSec(seconds)) == Some(seconds)
  {
    var r := MinSec(seconds);
    assert seconds == 60 * (seconds / 60) + seconds % 60;
  }

  /** The Passed chip: `score >= passingScore`, which is false against a
      missing passing score and against NaN. */
  predicate Passed(score: Score, passingScore: Option<int>) {
    && passingScore.Some?
    && (score.Infinite? || (score.Finite? && score.n >= passingScore.value))
  }

  /** `session.answers.find(a => a.questionId === id)`. */
  function FindAnswer(answers: seq<SessionAnswer>, id: Id): (r: Option<SessionAnswer>)
    ensures r.None? <==> forall i :: 0 <= i < |answers| ==> answers[i].questionId != id
    ensures r.Some? ==> exists i :: (0 <= i < |answers| && answers[i] == r.value
      && answers[i].questionId == id
      && forall j :: 0 <= j < i ==> answers[j].questionId != id)
  {
    if answers == [] then None
    else if answers[0].questionId == id then Some(answers[0])
    else
      var r := FindAnswer(answers[1..], id);
      FindAnswerShift(answers, id, r);
      r
  }

  lemma FindAnswerShift(answers: seq<SessionAnswer>, id: Id, r: Option<SessionAnswer>)
    requires answers != [] && answers[0].questionId != id
    requires r.Some? ==> exists i :: (0 <= i < |answers[1..]| && answers[1..][i] == r.value
      && answers[1..][i].questionId == id
      && forall j :: 0 <= j < i ==> answers[1..][j].questionId != id)
    ensures r.Some? ==> exists i :: (0 <= i < |answers| && answers[i] == r.value
      && answers[i].questionId == id
      && forall j :: 0 <= j < i ==> answers[j].questionId != id)
  {
    if r.Some? {
      var i :| 0 <= i < |answers[1..]| && answers[1..][i] == r.value && answers[1..][i].questionId == id
        && forall j :: 0 <= j < i ==> answers[1..][j].questionId != id;
      assert answers[i + 1] == r.value;
      assert forall j :: 0 <= j < i + 1 ==> answers[j].questionId != id by {
        forall j | 0 <= j < i + 1 ensures answers[j].questionId != id {
          if j > 0 {
            assert answers[j] == answers[1..][j - 1];
          }
        }
      }
    }
  }

  /** A question counts as correct in the breakdown when its first answer's
      `isCorrect` is truthy (`answer?.isCorrect || false`). */
  predicate Marked(answer: Option<SessionAnswer>) {
    answer.Some? && IsCorrect(answer.value)
  }

  /** The breakdown's correct/incorrect marks, one per question in quiz order. */
  function Breakdown(questions: seq<Id>, answers: seq<SessionAnswer>): (r: seq<bool>)
    ensures |r| == |questions|
    ensures forall i :: 0 <= i < |questions| ==>
      (r[i] <==> exists k :: (0 <= k < |answers| && answers[k].questionId == questions[i] && IsCorrect(answers[k])
        && forall j :: 0 <= j < k ==> answers[j].questionId != questions[i]))
  {
    seq(|questions|, i requires 0 <= i < |questions| => Marked(FindAnswer(answers, questions[i])))
  }

  /** `text.substring(0, 100)` followed by "...": at most the first hundred
      characters of the text, then three dots. */
  function Snippet(text: string): (r: string)
    ensures |text| <= 100 ==> r == text + "..."
    ensures |text| > 100 ==> |r| == 103 && r[..100] == text[..100]
    ensures |r| >= 3 && r[|r| - 3..] == "..."
  {
    var head := if |text| <= 100 then text else text[..100];
    var r := head + "...";
    assert r[..|head|] == head && r[|r| - 3..] == "...";
    r
  }

  /** What the page shows once the session and the quiz are loaded. */
  datatype Results = Results(
    score: Score,
    color: Color,
    passed: bool,
    correct: nat,
    total: nat,
    incorrect: int,
    time: string,
    breakdown: seq<bool>,
    snippets: seq<string>,
    retakeEnabled: bool)

  /** "Quiz results not found", the thrown TypeError (no error boundary
      catches it, so nothing is rendered), or the results. */
  datatype Screen = ResultsNotFound | Crashed | Shown(results: Results)

  /** The breakdown's text lines, one per question in quiz order. */
  function Snippets(questions: seq<ResultQuestion>): (r: seq<string>)
    requires forall i :: 0 <= i < |questions| ==> questions[i].text.Str?
    ensures |r| == |questions|
    ensures forall i :: 0 <= i < |questions| ==> r[i] == Snippet(questions[i].text.s)
  {
    seq(|questions|, i requires 0 <= i < |questions| => Snippet(questions[i].text.s))
  }

  /** The results rendered for a loaded session and quiz. */
  function Summary(s: Session, q: ResultQuiz): (v: Results)
    requires forall i :: 0 <= i < |q.questions| ==> q.questions[i].text.Str?
    ensures v.correct + v.incorrect == v.total == |q.questions|
    ensures v.correct == CorrectCount(s.answers)
    ensures v.color == ScoreColor(v.score) && v.score == CalculateScore(Some(s), Some(q))
    ensures v.passed <==> Passed(v.score, q.passingScore)
    ensures ReadMinSec(v.time) == Some(s.timeSpent)
    ensures v.retakeEnabled <==> q.allowMultipleAttempts
    ensures v.breakdown == Breakdown(Ids(q.questions), s.answers)
    ensures v.snippets == Snippets(q.questions)
  {
    var score := CalculateScore(Some(s), Some(q));
    var c := CorrectCount(s.answers);
    ReadMinSecOfMinSec(s.timeSpent);
    Results(score, ScoreColor(score), Passed(score, q.passingScore), c, |q.questions|,
      |q.questions| - c, MinSec(s.timeSpent), Breakdown(Ids(q.questions), s.answers),
      Snippets(q.questions), q.allowMultipleAttempts)
  }

  /** The page: not found without a session or quiz; the render throws as
      soon as the breakdown reaches a question without a string `text`. */
  function Page(session: Option<Session>, quiz: Option<ResultQuiz>): (r: Screen)
    ensures r == ResultsNotFound <==> session.None? || quiz.None?
    ensures r == Crashed <==> (session.Some? && quiz.Some?
      && exists i :: 0 <= i < |quiz.value.questions| && !quiz.value.questions[i].text.Str?)
    ensures r.Shown? ==> r.results == Summary(session.value, quiz.value)
  {
    if session.None? || quiz.None? then ResultsNotFound
    else if exists i :: 0 <= i < |quiz.value.questions| && !quiz.value.questions[i].text.Str? then Crashed
    else Shown(Summary(session.value, quiz.value))
  }

  /** The questions as the server stores them carry no `text`, so the page
      renders only for a quiz without questions. */
  lemma StoredQuestionsCrash(s: Session, q: ResultQuiz)
    requires forall i :: 0 <= i < |q.questions| ==> q.questions[i].text == Undefined
    ensures Page(Some(s), Some(q)) == Crashed <==> |q.questions| > 0
  {
    if |q.questions| > 0 {
      assert !q.questions[0].text.Str?;
    }
  }

  /** A quiz whose questions all carry a text renders, and then its retake
      button follows the quiz's attempts setting and nothing else. */
  lemma RetakeFollowsSetting(s: Session, q: ResultQuiz)
    requires forall i :: 0 <= i < |q.questions| ==> q.questions[i].text.Str?
    ensures Page(Some(s), Some(q)) == Shown(Summary(s, q))
    ensures Page(Some(s), Some(q)).results.retakeEnabled <==> q.allowMultipleAttempts
  {
  }

  /** When the session holds exactly one answer per question, in quiz order,
      the breakdown marks as many questions correct as the summary counts. */
  lemma BreakdownAgreesWithCount(questions: seq<Id>, answers: seq<SessionAnswer>)
    requires Distinct(questions) && |answers| == |questions|
    requires forall i :: 0 <= i < |answers| ==> answers[i].questionId == questions[i]
    ensures CountWhere(Breakdown(questions, answers), (b: bool) => b) == CorrectCount(answers)
  {
    var marks := Breakdown(questions, answers);
    forall i | 0 <= i < |questions| ensures marks[i] == IsCorrect(answers[i]) {
      var f := FindAnswer(answers, questions[i]);
      assert f.Some?;
      var k :| 0 <= k < |answers| && answers[k] == f.value && answers[k].questionId == questions[i]
        && forall j :: 0 <= j < k ==> answers[j].questionId != questions[i];
      assert k == i;
    }
    CountWhereAgrees(marks, answers, (b: bool) => b, IsCorrect);
  }
}
