/** The review page of client/src/pages/QuizReviewPage.jsx: the per-question
    status, the correct answer, the stored answer, how each option row is
    marked, and the current-question index that Previous, Next and the
    numbered buttons move. The session and quiz are the loaded responses; a
    stored answer has the shape the page reads (`selectedAnswer`, as
    routes/submissions.js stores it). */
module QuizReviewPage {
  import opened Common
  import opened Domain

  /** A stored answer as the page reads it. */
  datatype ReviewAnswer = ReviewAnswer(questionId: Id, selectedAnswer: Value, isCorrect: Value)

  datatype Status = Correct | Incorrect | NotAnswered

  /** `session.answers.find(a => a.questionId === questionId)`, as an index. */
  function FirstAnswer(answers: seq<ReviewAnswer>, questionId: Id): (r: Option<nat>)
    ensures r.None? <==> forall k :: 0 <= k < |answers| ==> answers[k].questionId != questionId
    ensures r.Some? ==> r.value < |answers| && answers[r.value].questionId == questionId
    ensures r.Some? ==> forall j :: 0 <= j < r.value ==> answers[j].questionId != questionId
  {
    if answers == [] then None
    else if answers[0].questionId == questionId then Some(0)
    else
      var r := FirstAnswer(answers[1..], questionId);
      assert forall k :: 1 <= k < |answers| ==> answers[k] == answers[1..][k - 1];
      if r.None? then None else Some(r.value + 1)
  }

  /** `getAnswerStatus`: not answered without a stored answer, otherwise
      correct or incorrect by the stored `isCorrect`. */
  function AnswerStatus(answers: seq<ReviewAnswer>, questionId: Id): (r: Status)
    ensures r == NotAnswered <==> forall k :: 0 <= k < |answers| ==> answers[k].questionId != questionId
    ensures r == Correct <==> exists k :: (0 <= k < |answers| && answers[k].questionId == questionId
      && Truthy(answers[k].isCorrect) && forall j :: 0 <= j < k ==> answers[j].questionId != questionId)
  {
    var i := FirstAnswer(answers, questionId);
    if i.None? then NotAnswered
    else if Truthy(answers[i.value].isCorrect) then Correct
    else Incorrect
  }

  /** The position of the first option marked correct, `None` standing for -1. */
  function FirstCorrectOption(options: seq<QuizOption>): (r: Option<nat>)
    ensures r.None? <==> forall i :: 0 <= i < |options| ==> !options[i].isCorrect
    ensures r.Some? ==> r.value < |options| && options[r.value].isCorrect
    ensures r.Some? ==> forall j :: 0 <= j < r.value ==> !options[j].isCorrect
  {
    if options == [] then None
    else if options[0].isCorrect then Some(0)
    else
      var r := FirstCorrectOption(options[1..]);
      assert forall i :: 1 <= i < |options| ==> options[i] == options[1..][i - 1];
      if r.None? then None else Some(r.value + 1)
  }

  /** `getCorrectAnswer`: the index of the first correct option (-1 if none)
      for multiple choice, the stored `correctAnswer` for true/false, `null`
      for every other type. */
  function CorrectAnswer(q: Question): (r: Value)
    ensures q.qtype == "multiple-choice" ==> r.Num? && -1 <= r.n < |q.options|
    ensures q.qtype == "multiple-choice" && r.n >= 0 ==>
      q.options[r.n].isCorrect && forall j :: 0 <= j < r.n ==> !q.options[j].isCorrect
    ensures q.qtype == "multiple-choice" ==> (r == Num(-1) <==> forall j :: 0 <= j < |q.options| ==> !q.options[j].isCorrect)
    ensures q.qtype == "true-false" ==> r == q.correctAnswer
    ensures q.qtype != "multiple-choice" && q.qtype != "true-false" ==> r == Null
  {
    if q.qtype == "multiple-choice" then
      var i := FirstCorrectOption(q.options);
      if i.Some? then Num(i.value) else Num(-1)
    else if q.qtype == "true-false" then q.correctAnswer
    else Null
  }

  /** `getUserAnswer` as written: `answer?.selectedAnswer || null`, which turns
      every falsy stored answer (option 0, `false`, "") into `null`. */
  function UserAnswerAsWritten(answers: seq<ReviewAnswer>, questionId: Id): (r: Value)
    ensures r != Null ==> Truthy(r)
    ensures FirstAnswer(answers, questionId).None? ==> r == Null
    ensures var i := FirstAnswer(answers, questionId);
      i.Some? && Truthy(answers[i.value].selectedAnswer) ==> r == answers[i.value].selectedAnswer
  {
    var i := FirstAnswer(answers, questionId);
    if i.Some? && Truthy(answers[i.value].selectedAnswer) then answers[i.value].selectedAnswer else Null
  }

  /** The stored answer with only a missing one replaced by `null`
      (`answer?.selectedAnswer ?? null`). */
  function UserAnswer(answers: seq<ReviewAnswer>, questionId: Id): (r: Value)
    ensures FirstAnswer(answers, questionId).None? ==> r == Null
    ensures var i := FirstAnswer(answers, questionId);
      i.Some? && !answers[i.value].selectedAnswer.Undefined? ==> r == answers[i.value].selectedAnswer
    ensures var i := FirstAnswer(answers, questionId);
      i.Some? && answers[i.value].selectedAnswer.Undefined? ==> r == Null
  {
    var i := FirstAnswer(answers, questionId);
    if i.None? || answers[i.value].selectedAnswer.Undefined? then Null else answers[i.value].selectedAnswer
  }

  datatype Background = SuccessLight | ErrorLight | Paper

  /** How one choice row is drawn: the "Your Answer" chip, the "Correct
      Answer" chip, and the background. */
  datatype ChoiceView = ChoiceView(yourAnswer: bool, correctChip: bool, background: Background)

  /** A row that is selected and/or correct: selected rows show "Your Answer"
      on green when correct and on red otherwise, unselected correct rows show
      "Correct Answer" on green, the rest are plain. */
  function Choice(selected: bool, correct: bool): (r: ChoiceView)
    ensures r.yourAnswer == selected
    ensures r.correctChip <==> correct && !selected
    ensures r.background == SuccessLight <==> correct
    ensures r.background == ErrorLight <==> selected && !correct
  {
    ChoiceView(selected, correct && !selected,
      if selected then (if correct then SuccessLight else ErrorLight)
      else if correct then SuccessLight else Paper)
  }

  /** The multiple-choice rows: option `i` is selected when the user answer
      `=== i`. */
  function OptionRows(q: Question, userAnswer: Value): (r: seq<ChoiceView>)
    ensures |r| == |q.options|
    ensures forall i :: 0 <= i < |r| ==> r[i] == Choice(StrictEq(userAnswer, Num(i)), q.options[i].isCorrect)
  {
    seq(|q.options|, i requires 0 <= i < |q.options| => Choice(StrictEq(userAnswer, Num(i)), q.options[i].isCorrect))
  }

  /** The true/false rows, `true` first: a row is selected when the user
      answer `===` its value and correct when `correctAnswer` `===` it. */
  function TrueFalseRows(q: Question, userAnswer: Value): (r: seq<ChoiceView>)
    ensures |r| == 2
    ensures r[0] == Choice(StrictEq(userAnswer, Bool(true)), StrictEq(q.correctAnswer, Bool(true)))
    ensures r[1] == Choice(StrictEq(userAnswer, Bool(false)), StrictEq(q.correctAnswer, Bool(false)))
  {
    [Choice(StrictEq(userAnswer, Bool(true)), StrictEq(q.correctAnswer, Bool(true))),
     Choice(StrictEq(userAnswer, Bool(false)), StrictEq(q.correctAnswer, Bool(false)))]
  }

  /** A student who chose the first option (stored as 0), or "False", sees the
      question marked incorrect while no row carries "Your Answer". */
  lemma FirstOptionNotMarked()
    ensures var answers := [ReviewAnswer("q", Num(0), Bool(false))];
      var q := Question("q", "multiple-choice", "", [QuizOption("a", false), QuizOption("b", true)], Undefined, Undefined, None);
      && AnswerStatus(answers, "q") == Incorrect
      && UserAnswerAsWritten(answers, "q") == Null
      && !OptionRows(q, UserAnswerAsWritten(answers, "q"))[0].yourAnswer
      && !OptionRows(q, UserAnswerAsWritten(answers, "q"))[1].yourAnswer
    ensures var answers := [ReviewAnswer("q", Bool(false), Bool(false))];
      var q := Question("q", "true-false", "", [], Bool(true), Undefined, None);
      && AnswerStatus(answers, "q") == Incorrect
      && !TrueFalseRows(q, UserAnswerAsWritten(answers, "q"))[0].yourAnswer
      && !TrueFalseRows(q, UserAnswerAsWritten(answers, "q"))[1].yourAnswer
  {
    var answers := [ReviewAnswer("q", Num(0), Bool(false))];
    assert FirstAnswer(answers, "q") == Some(0);
    var tf := [ReviewAnswer("q", Bool(false), Bool(false))];
    assert FirstAnswer(tf, "q") == Some(0);
  }

  /** With `??`, a stored option index marks exactly that option as the
      user's answer, and a stored boolean exactly its row. */
  lemma StoredAnswerMarked(answers: seq<ReviewAnswer>, q: Question, k: nat, b: bool)
    requires FirstAnswer(answers, q.id).Some?
    ensures answers[FirstAnswer(answers, q.id).value].selectedAnswer == Num(k) ==>
      forall i :: 0 <= i < |q.options| ==> (OptionRows(q, UserAnswer(answers, q.id))[i].yourAnswer <==> i == k)
    ensures answers[FirstAnswer(answers, q.id).value].selectedAnswer == Bool(b) ==>
      && TrueFalseRows(q, UserAnswer(answers, q.id))[0].yourAnswer == b
      && TrueFalseRows(q, UserAnswer(answers, q.id))[1].yourAnswer == !b
  {
  }

  /** The short-answer line `{userAnswer || 'Not answered'}`. */
  function ShortAnswerText(userAnswer: Value): (r: Value)
    ensures Truthy(userAnswer) ==> r == userAnswer
    ensures !Truthy(userAnswer) ==> r == Str("Not answered")
  {
    if Truthy(userAnswer) then userAnswer else Str("Not answered")
  }

  datatype ButtonColor = SuccessButton | ErrorButton | DefaultButton

  /** A numbered navigation button is coloured by its question's status. */
  function NavButtonColor(s: Status): (r: ButtonColor)
    ensures r == SuccessButton <==> s == Correct
    ensures r == ErrorButton <==> s == Incorrect
    ensures r == DefaultButton <==> s == NotAnswered
  {
    match s
    case Correct => SuccessButton
    case Incorrect => ErrorButton
    case NotAnswered => DefaultButton
  }

  /** `handleNextQuestion`: one forward while below the last index. */
  function NextIndex(index: int, count: nat): (r: int)
    ensures index < count - 1 ==> r == index + 1
    ensures index >= count - 1 ==> r == index
  {
    if index < count - 1 then index + 1 else index
  }

  /** `handlePreviousQuestion`: one back while above 0. */
  function PreviousIndex(index: int): (r: int)
    ensures index > 0 ==> r == index - 1
    ensures index <= 0 ==> r == index
  {
    if index > 0 then index - 1 else index
  }

  /** The index names a question (or is 0 for a quiz without questions). */
  predicate InRange(index: int, count: nat) {
    if count == 0 then index == 0 else 0 <= index < count
  }

  /** Previous and Next keep the index on a question; Next then Previous
      comes back, and so does Previous then Next. */
  lemma NavigationStaysInRange(index: int, count: nat)
    requires InRange(index, count)
    ensures InRange(NextIndex(index, count), count) && InRange(PreviousIndex(index), count)
    ensures index < count - 1 ==> PreviousIndex(NextIndex(index, count)) == index
    ensures index > 0 ==> NextIndex(PreviousIndex(index), count) == index
  {
  }

  /** The buttons' `disabled` tests agree with the handlers' guards: a
      button that is enabled moves the index, one that is disabled would not. */
  lemma DisabledMeansNoMove(index: int, count: nat)
    requires InRange(index, count) && count > 0
    ensures (index != 0) <==> PreviousIndex(index) != index
    ensures (index != count - 1) <==> NextIndex(index, count) != index
  {
  }

  /** The page's current-question state. */
  class Navigator {
    var index: int
    const count: nat

    /** The page opens on the first question. */
    constructor(count: nat)
      ensures this.count == count && index == 0 && Valid()
    {
      this.count := count;
      index := 0;
    }

    predicate Valid()
      reads this
    {
      InRange(index, count)
    }

    method Next()
      requires Valid()
      modifies this
      ensures index == NextIndex(old(index), count) && Valid()
    {
      if index < count - 1 {
        index := index + 1;
      }
    }

    method Previous()
      requires Valid()
      modifies this
      ensures index == PreviousIndex(old(index)) && Valid()
    {
      if index > 0 {
        index := index - 1;
      }
    }

    /** `handleGoToQuestion(i)`: the buttons offer only indices of questions. */
    method GoTo(i: nat)
      requires i < count
      modifies this
      ensures index == i && Valid()
    {
      index := i;
    }
  }
}
