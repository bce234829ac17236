/** The quiz-creation wizard of client/src/pages/CreateQuizPage.jsx: the
    transformation of the draft into the document sent to the server
    (difficulty names, settings, per-type option lists), and the validity of
    each wizard step. A transformation that would throw is `None`. */
module CreateQuizPage {
  import opened Common
  import opened Text

  /** A question as the editor keeps it. Options and the correct answer are
      whatever the editor stored, so they are dynamic values. */
  datatype DraftQuestion = DraftQuestion(
    id: Id,
    qtype: string,
    question: string,
    points: Option<int>,
    options: Value,
    correctAnswer: Value,
    isRequired: bool)

  datatype DraftSettings = DraftSettings(
    randomizeQuestions: bool,
    showCorrectAnswers: bool,
    allowMultipleAttempts: bool,
    passingScore: int)

  datatype Draft = Draft(
    title: string,
    description: string,
    category: string,
    difficulty: string,
    timeLimit: int,
    questions: seq<DraftQuestion>,
    settings: DraftSettings)

  /** An option as the server receives it. */
  datatype PublishedOption = PublishedOption(text: Value, isCorrect: bool, explanation: Value)

  /** A question as the server receives it: `isRequired` is gone, and `options`
      is absent for the types that do not use it. */
  datatype PublishedQuestion = PublishedQuestion(
    id: Id,
    qtype: string,
    question: string,
    points: Option<int>,
    options: Option<seq<PublishedOption>>,
    correctAnswer: Value)

  datatype PublishedSettings = PublishedSettings(
    timeLimit: int,
    maxAttempts: nat,
    randomizeQuestions: bool,
    randomizeOptions: bool,
    showCorrectAnswers: bool,
    showScore: bool,
    allowReview: bool,
    passingScore: int,
    certificateEnabled: bool)

  /** The quiz as the server receives it; the root-level `timeLimit` is gone. */
  datatype PublishedQuiz = PublishedQuiz(
    title: string,
    description: string,
    category: string,
    difficulty: string,
    settings: PublishedSettings,
    isPublished: bool,
    questions: seq<PublishedQuestion>)

  /** `mapDifficulty`: the client's names mapped onto the server's levels. */
  function MapDifficulty(d: string): (r: string)
    ensures d == "easy" ==> r == "beginner"
    ensures d == "medium" ==> r == "intermediate"
    ensures d == "hard" ==> r == "advanced"
    ensures d !in {"easy", "medium", "hard"} ==> r == "mixed"
  {
    if d == "easy" then "beginner"
    else if d == "medium" then "intermediate"
    else if d == "hard" then "advanced"
    else "mixed"
  }

  /** `(q.options || []).map`: a falsy value maps as the empty list; a truthy
      value that is not an array has no `map` and throws. */
  function OptionItems(v: Value): (r: Option<seq<Value>>)
    ensures !Truthy(v) ==> r == Some([])
    ensures v.Arr? ==> r == Some(v.items)
    ensures r.None? <==> Truthy(v) && !v.Arr?
  {
    if !Truthy(v) then Some([]) else if v.Arr? then Some(v.items) else None
  }

  /** `v[i]`: reading an index of `undefined` or `null` throws; a missing
      element is `undefined`. */
  function IndexValue(v: Value, i: nat): (r: Option<Value>)
    ensures r.None? <==> v.Undefined? || v.Null?
    ensures v.Arr? && i < |v.items| ==> r == Some(v.items[i])
    ensures v.Arr? && i >= |v.items| ==> r == Some(Undefined)
  {
    match v
    case Undefined => None
    case Null => None
    case Arr(items) => if i < |items| then Some(items[i]) else Some(Undefined)
    case Str(s) => if i < |s| then Some(Str([s[i]])) else Some(Undefined)
    case Obj(m) => if NatToString(i) in m then Some(m[NatToString(i)]) else Some(Undefined)
    case _ => Some(Undefined)
  }

  /** `x || ''`. */
  function OrEmpty(v: Value): (r: Value)
    ensures Truthy(v) ==> r == v
    ensures !Truthy(v) ==> r == Str("")
  {
    if Truthy(v) then v else Str("")
  }

  /** `arr.includes(x)` on decoded values. */
  predicate Includes(items: seq<Value>, x: Value) {
    exists j :: 0 <= j < |items| && StrictEq(items[j], x)
  }

  predicate UsesOptions(qtype: string) {
    qtype in {"multiple-choice", "select-all", "matching", "ordering"}
  }

  /** The option list of an option-using question, built from its items. */
  function PublishedOptions(q: DraftQuestion, items: seq<Value>): (r: Option<seq<PublishedOption>>)
    requires UsesOptions(q.qtype)
    ensures r.None? <==> q.qtype == "matching" && |items| > 0 && (q.correctAnswer.Undefined? || q.correctAnswer.Null?)
    ensures r.Some? ==> |r.value| == |items| && forall i :: 0 <= i < |items| ==> r.value[i].text == items[i]
  {
    if q.qtype == "multiple-choice" then
      Some(seq(|items|, i requires 0 <= i < |items| =>
        PublishedOption(items[i], StrictEq(items[i], q.correctAnswer), Str(""))))
    else if q.qtype == "select-all" then
      Some(seq(|items|, i requires 0 <= i < |items| =>
        PublishedOption(items[i], q.correctAnswer.Arr? && Includes(q.correctAnswer.items, items[i]), Str(""))))
    else if q.qtype == "matching" then
      if |items| > 0 && (q.correctAnswer.Undefined? || q.correctAnswer.Null?) then None
      else
        Some(seq(|items|, i requires 0 <= i < |items| =>
          PublishedOption(items[i], true, OrEmpty(IndexValue(q.correctAnswer, i).value))))
    else
      Some(seq(|items|, i requires 0 <= i < |items| => PublishedOption(items[i], true, Str(""))))
  }

  /** One question of the `questions.map` in `handlePublish`. */
  function TransformQuestion(q: DraftQuestion): (r: Option<PublishedQuestion>)
    ensures r.Some? ==> r.value.id == q.id && r.value.qtype == q.qtype && r.value.question == q.question
    ensures r.Some? ==> r.value.points == q.points && r.value.correctAnswer == q.correctAnswer
    ensures !UsesOptions(q.qtype) ==> r.Some? && r.value.options.None?
    ensures UsesOptions(q.qtype) ==> (r.None? <==> (OptionItems(q.options).None?
      || (q.qtype == "matching" && |OptionItems(q.options).value| > 0 && (q.correctAnswer.Undefined? || q.correctAnswer.Null?))))
    ensures UsesOptions(q.qtype) && r.Some? ==> r.value.options.Some?
    ensures UsesOptions(q.qtype) && r.Some? ==> |r.value.options.value| == |OptionItems(q.options).value|
    ensures UsesOptions(q.qtype) && r.Some? ==>
      forall i :: 0 <= i < |r.value.options.value| ==> r.value.options.value[i].text == OptionItems(q.options).value[i]
    ensures q.qtype == "multiple-choice" && r.Some? ==> forall i :: 0 <= i < |r.value.options.value| ==>
      (r.value.options.value[i].isCorrect <==> StrictEq(OptionItems(q.options).value[i], q.correctAnswer))
    ensures q.qtype == "select-all" && r.Some? ==> forall i :: 0 <= i < |r.value.options.value| ==>
      (r.value.options.value[i].isCorrect <==> q.correctAnswer.Arr? && Includes(q.correctAnswer.items, OptionItems(q.options).value[i]))
    ensures (q.qtype == "matching" || q.qtype == "ordering") && r.Some? ==>
      forall i :: 0 <= i < |r.value.options.value| ==> r.value.options.value[i].isCorrect
    ensures q.qtype == "matching" && r.Some? ==> forall i :: 0 <= i < |r.value.options.value| ==>
      r.value.options.value[i].explanation == OrEmpty(IndexValue(q.correctAnswer, i).value)
  {
    if !UsesOptions(q.qtype) then
      Some(PublishedQuestion(q.id, q.qtype, q.question, q.points, None, q.correctAnswer))
    else
      var items := OptionItems(q.options);
      if items.None? then None
      else
        var options := PublishedOptions(q, items.value);
        if options.None? then None
        else Some(PublishedQuestion(q.id, q.qtype, q.question, q.points, options, q.correctAnswer))
  }

  /** A multiple-choice question whose options are distinct and whose correct
      answer is one of them is published with exactly one correct option. */
  lemma MultipleChoiceHasOneCorrect(q: DraftQuestion, k: nat)
    requires q.qtype == "multiple-choice" && q.options.Arr?
    requires forall i, j :: 0 <= i < j < |q.options.items| ==> q.options.items[i] != q.options.items[j]
    requires k < |q.options.items| && StrictEq(q.options.items[k], q.correctAnswer)
    ensures TransformQuestion(q).Some?
    ensures var opts := TransformQuestion(q).value.options.value;
      opts[k].isCorrect && forall i :: 0 <= i < |opts| && opts[i].isCorrect ==> i == k
  {
    var items := q.options.items;
    var opts := TransformQuestion(q).value.options.value;
    forall i | 0 <= i < |opts| && opts[i].isCorrect
      ensures i == k
    {
      assert StrictEq(items[i], q.correctAnswer);
      StrictEqMeansPrimitiveEqual(items[i], q.correctAnswer);
      StrictEqMeansPrimitiveEqual(items[k], q.correctAnswer);
    }
  }

  /** The `questions.map`: it throws if any question does. */
  function TransformQuestions(qs: seq<DraftQuestion>): (r: Option<seq<PublishedQuestion>>)
    ensures r.Some? <==> forall i :: 0 <= i < |qs| ==> TransformQuestion(qs[i]).Some?
    ensures r.Some? ==> |r.value| == |qs| && forall i :: 0 <= i < |qs| ==> r.value[i] == TransformQuestion(qs[i]).value
  {
    if qs == [] then Some([])
    else
      var head := TransformQuestion(qs[0]);
      var tail := TransformQuestions(qs[1..]);
      assert forall i :: 1 <= i < |qs| ==> qs[i] == qs[1..][i - 1];
      if head.None? || tail.None? then None else Some([head.value] + tail.value)
  }

  /** `maxAttempts`: ten when multiple attempts are allowed, otherwise one. */
  function MaxAttempts(allowMultipleAttempts: bool): (r: nat)
    ensures allowMultipleAttempts <==> r > 1
    ensures r in {1, 10}
  {
    if allowMultipleAttempts then 10 else 1
  }

  /** The document `handlePublish` sends; `None` when building it throws. */
  function Transform(d: Draft): (r: Option<PublishedQuiz>)
    ensures r.Some? <==> TransformQuestions(d.questions).Some?
    ensures r.Some? ==> r.value.title == d.title && r.value.description == d.description && r.value.category == d.category
    ensures r.Some? ==> r.value.difficulty == MapDifficulty(d.difficulty) && r.value.isPublished
    ensures r.Some? ==> r.value.settings.timeLimit == d.timeLimit
    ensures r.Some? ==> r.value.settings.maxAttempts == MaxAttempts(d.settings.allowMultipleAttempts)
    ensures r.Some? ==> r.value.settings.randomizeQuestions == d.settings.randomizeQuestions
    ensures r.Some? ==> r.value.settings.showCorrectAnswers == d.settings.showCorrectAnswers
    ensures r.Some? ==> r.value.settings.passingScore == d.settings.passingScore
    ensures r.Some? ==> !r.value.settings.randomizeOptions && r.value.settings.showScore
    ensures r.Some? ==> r.value.settings.allowReview && !r.value.settings.certificateEnabled
    ensures r.Some? ==> r.value.questions == TransformQuestions(d.questions).value
  {
    var qs := TransformQuestions(d.questions);
    if qs.None? then None
    else
      Some(PublishedQuiz(d.title, d.description, d.category, MapDifficulty(d.difficulty),
        PublishedSettings(d.timeLimit, MaxAttempts(d.settings.allowMultipleAttempts),
          d.settings.randomizeQuestions, false, d.settings.showCorrectAnswers, true, true,
          d.settings.passingScore, false),
        true, qs.value))
  }

  /** `isStepValid`. */
  predicate IsStepValid(step: int, d: Draft) {
    if step == 0 then Trim(d.title) != ""
    else if step == 1 then |d.questions| > 0
    else step == 2 || step == 3
  }

  /** All four steps are valid exactly when the title is not blank and there is
      at least one question; no other step number is ever valid. */
  lemma StepsValid(d: Draft)
    ensures (forall step :: 0 <= step <= 3 ==> IsStepValid(step, d)) <==> (Trim(d.title) != "" && |d.questions| > 0)
    ensures forall step :: (step < 0 || step > 3) ==> !IsStepValid(step, d)
  {
    if Trim(d.title) != "" && |d.questions| > 0 {
      assert forall step :: 0 <= step <= 3 ==> IsStepValid(step, d);
    } else {
      assert !IsStepValid(0, d) || !IsStepValid(1, d);
    }
  }
}
