/** The results card of client/src/components/quiz/QuizResults.jsx: the letter
    grade, the "m:ss" time (the format of `QuizResultsPage.MinSec`), the
    difficulty fallback, and one review row per question result with its
    points chip, the answer given, and the correct answer shown only for an
    incorrect result. Sharing, printing and the completion date are not
    modelled. */
module QuizResults {
  import opened Common
  import opened Text
  import QuizResultsPage

  datatype GradeColor = Success | Primary | Warning | Error

  /** `getGrade`'s `{ grade, color }`. */
  datatype Grade = Grade(letter: char, color: GradeColor)

  /** `getGrade(percentage)`: A from 90, B from 80, C from 70, D from 60, else F. */
  function GetGrade(percentage: int): (r: Grade)
    ensures r.letter == 'A' <==> percentage >= 90
    ensures r.letter == 'B' <==> 80 <= percentage < 90
    ensures r.letter == 'C' <==> 70 <= percentage < 80
    ensures r.letter == 'D' <==> 60 <= percentage < 70
    ensures r.letter == 'F' <==> percentage < 60
    ensures r.color == Success <==> r.letter == 'A'
    ensures r.color == Primary <==> r.letter == 'B'
    ensures r.color == Warning <==> r.letter == 'C' || r.letter == 'D'
    ensures r.color == Error <==> r.letter == 'F'
  {
    if percentage >= 90 then Grade('A', Success)
    else if percentage >= 80 then Grade('B', Primary)
    else if percentage >= 70 then Grade('C', Warning)
    else if percentage >= 60 then Grade('D', Warning)
    else Grade('F', Error)
  }

  /** The order of the letters, F lowest. */
  function LetterRank(letter: char): nat {
    match letter
    case 'A' => 4
    case 'B' => 3
    case 'C' => 2
    case 'D' => 1
    case _ => 0
  }

  /** A higher percentage never gets a lower grade. */
  lemma GradeMonotone(a: int, b: int)
    requires a <= b
    ensures LetterRank(GetGrade(a).letter) <= LetterRank(GetGrade(b).letter)
  {
  }

  /** One entry of `results.questionResults`. */
  datatype QuestionResult = QuestionResult(isCorrect: Value, points: Value, pointsEarned: Value, userAnswer: Value)

  /** The fields of `results` the card reads. */
  datatype ResultsData = ResultsData(percentage: int, timeSpent: nat, questionResults: seq<QuestionResult>)

  /** The fields of a quiz question the card reads. */
  datatype ReviewQuestion = ReviewQuestion(question: string, correctAnswer: Value, explanation: Value)

  datatype QuizData = QuizData(title: string, difficulty: Value, questions: seq<ReviewQuestion>)

  /** One review row: its number, the correct/incorrect mark, the points chip,
      the answer shown, and the correct answer and explanation when shown. */
  datatype Row = Row(
    number: nat,
    correct: bool,
    chip: string,
    yourAnswer: Value,
    correctAnswer: Option<Value>,
    explanation: Option<Value>)

  /** What the card renders: "No results available", the results, or the
      TypeError of reading a question the quiz does not have. */
  datatype Screen =
    | NoResults
    | Shown(grade: Grade, time: string, difficulty: Value, rows: seq<Row>)
    | RenderError

  /** The chip label `${pointsEarned}/${points}`. */
  function Chip(pointsEarned: Value, points: Value): (r: string)
    ensures '/' in r
  {
    var r := ToJsString(pointsEarned) + "/" + ToJsString(points);
    assert r[|ToJsString(pointsEarned)|] == '/';
    r
  }

  /** Reads "earned/points" back into its two numbers. */
  function ReadChip(s: string): Option<(nat, nat)> {
    var a := DigitPrefixLen(s);
    if a == 0 then None else ReadPoints(DigitsValue(s[..a]), s[a..])
  }

  /** What follows the earned number: "/" and the points, to the end. */
  function ReadPoints(earned: nat, t: string): Option<(nat, nat)> {
    if t != [] && t[0] == '/' then
      var rest := t[1..];
      var b := DigitPrefixLen(rest);
      if b > 0 && b == |rest| then Some((earned, DigitsValue(rest))) else None
    else None
  }

  /** A chip of two whole numbers reads back as those numbers. */
  lemma ReadChipOfChip(earned: nat, points: nat)
    ensures ReadChip(Chip(Num(earned), Num(points))) == Some((earned, points))
  {
    var e, p := NatToString(earned), NatToString(points);
    var t := "/" + p;
    assert Chip(Num(earned), Num(points)) == e + t;
    NumberThen(earned, t);
    assert ReadChip(e + t) == ReadPoints(earned, t);
    ReadPointsOf(earned, points);
  }

  /** "/" and the points, to the end, read back as the points. */
  lemma ReadPointsOf(earned: nat, points: nat)
    ensures ReadPoints(earned, "/" + NatToString(points)) == Some((earned, points))
  {
    var p := NatToString(points);
    assert ("/" + p)[1..] == p;
    NumberThen(points, []);
    assert p + [] == p;
  }

  /** The row of result `i` against question `i` of the quiz. */
  function ReviewRow(i: nat, result: QuestionResult, question: ReviewQuestion): (r: Row)
    ensures r.number == i + 1
    ensures r.correct <==> Truthy(result.isCorrect)
    ensures r.chip == Chip(result.pointsEarned, result.points)
    ensures Truthy(result.userAnswer) ==> r.yourAnswer == result.userAnswer
    ensures !Truthy(result.userAnswer) ==> r.yourAnswer == Str("Not answered")
    ensures r.correctAnswer.Some? <==> !Truthy(result.isCorrect)
    ensures r.correctAnswer.Some? ==> r.correctAnswer.value == question.correctAnswer
    ensures r.explanation.Some? <==> Truthy(question.explanation)
    ensures r.explanation.Some? ==> r.explanation.value == question.explanation
  {
    var correct := Truthy(result.isCorrect);
    Row(i + 1, correct, Chip(result.pointsEarned, result.points),
      if Truthy(result.userAnswer) then result.userAnswer else Str("Not answered"),
      if correct then None else Some(question.correctAnswer),
      if Truthy(question.explanation) then Some(question.explanation) else None)
  }

  /** The card. */
  function Render(results: Option<ResultsData>, quiz: Option<QuizData>): (r: Screen)
    ensures r == NoResults <==> results.None? || quiz.None?
    ensures r == RenderError <==>
      results.Some? && quiz.Some? && |results.value.questionResults| > |quiz.value.questions|
    ensures r.Shown? ==> r.grade == GetGrade(results.value.percentage)
    ensures r.Shown? ==> QuizResultsPage.ReadMinSec(r.time) == Some(results.value.timeSpent)
    ensures r.Shown? ==> (Truthy(quiz.value.difficulty) ==> r.difficulty == quiz.value.difficulty)
    ensures r.Shown? ==> (!Truthy(quiz.value.difficulty) ==> r.difficulty == Str("Medium"))
    ensures r.Shown? ==> |r.rows| == |results.value.questionResults|
    ensures r.Shown? ==> forall i :: 0 <= i < |r.rows| ==>
      r.rows[i] == ReviewRow(i, results.value.questionResults[i], quiz.value.questions[i])
  {
    if results.None? || quiz.None? then NoResults
    else
      var res, q := results.value, quiz.value;
      if |res.questionResults| > |q.questions| then RenderError
      else
        QuizResultsPage.ReadMinSecOfMinSec(res.timeSpent);
        Shown(GetGrade(res.percentage), QuizResultsPage.MinSec(res.timeSpent),
          if Truthy(q.difficulty) then q.difficulty else Str("Medium"),
          seq(|res.questionResults|, i requires 0 <= i < |res.questionResults| =>
            ReviewRow(i, res.questionResults[i], q.questions[i])))
  }

  /** On the rendered card, a correct answer appears exactly on the rows of
      incorrect results, and then it is the question's own correct answer. */
  lemma CorrectAnswerOnlyWhenWrong(results: ResultsData, quiz: QuizData, i: nat)
    requires Render(Some(results), Some(quiz)).Shown?
    requires i < |results.questionResults|
    ensures var row := Render(Some(results), Some(quiz)).rows[i];
      && (row.correctAnswer.Some? <==> !Truthy(results.questionResults[i].isCorrect))
      && (row.correctAnswer.Some? ==> row.correctAnswer.value == quiz.questions[i].correctAnswer)
      && (row.correct <==> row.correctAnswer.None?)
  {
  }
}
