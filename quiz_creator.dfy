/** The quiz editor page of client/src/components/quiz/QuizCreator.jsx: quiz and
    settings field edits, the question list (add, edit, save, delete) and the
    enablement of the save and publish buttons. */
module QuizCreator {
  import opened Common
  import QB = QuestionBuilder

  datatype Settings = Settings(
    randomizeQuestions: bool,
    showResults: bool,
    allowMultipleAttempts: bool,
    passingScore: Option<int>)

  /** The quiz being written. Number fields are `None` when their text does not
      parse (NaN). */
  datatype Quiz = Quiz(
    title: string,
    description: string,
    subject: string,
    gradeLevel: string,
    timeLimit: Option<int>,
    isPublished: bool,
    questions: seq<QB.Question>,
    settings: Settings)

  const InitialQuiz: Quiz :=
    Quiz("", "", "", "", Some(30), false, [], Settings(false, true, false, Some(70)))

  /** The page state: the quiz, the question open in the editor dialog (if
      any), and the index being edited (`null` when adding). */
  datatype Page = Page(quiz: Quiz, current: Option<QB.Question>, editing: Option<nat>)

  const InitialPage: Page := Page(InitialQuiz, None, None)

  /** The calls of `handleQuizChange(field, value)` the page makes. */
  datatype QuizEdit =
    | SetTitle(title: string)
    | SetDescription(description: string)
    | SetSubject(subject: string)
    | SetGradeLevel(gradeLevel: string)
    | SetTimeLimit(timeLimit: Option<int>)

  /** The calls of `handleSettingsChange(field, value)` the page makes. */
  datatype SettingsEdit =
    | SetRandomize(randomize: bool)
    | SetShowResults(show: bool)
    | SetMultipleAttempts(allow: bool)
    | SetPassingScore(score: Option<int>)

  /** `handleQuizChange`: the named field changes, and nothing else. */
  function ApplyQuizEdit(q: Quiz, e: QuizEdit): (r: Quiz)
    ensures r.questions == q.questions && r.settings == q.settings && r.isPublished == q.isPublished
    ensures if e.SetTitle? then r.title == e.title else r.title == q.title
    ensures if e.SetDescription? then r.description == e.description else r.description == q.description
    ensures if e.SetSubject? then r.subject == e.subject else r.subject == q.subject
    ensures if e.SetGradeLevel? then r.gradeLevel == e.gradeLevel else r.gradeLevel == q.gradeLevel
    ensures if e.SetTimeLimit? then r.timeLimit == e.timeLimit else r.timeLimit == q.timeLimit
  {
    match e
    case SetTitle(t) => q.(title := t)
    case SetDescription(d) => q.(description := d)
    case SetSubject(s) => q.(subject := s)
    case SetGradeLevel(g) => q.(gradeLevel := g)
    case SetTimeLimit(t) => q.(timeLimit := t)
  }

  /** `handleSettingsChange`: the named setting changes, and nothing else,
      neither in the settings nor in the rest of the quiz. */
  function ApplySettingsEdit(q: Quiz, e: SettingsEdit): (r: Quiz)
    ensures r == q.(settings := r.settings)
    ensures if e.SetRandomize? then r.settings.randomizeQuestions == e.randomize
      else r.settings.randomizeQuestions == q.settings.randomizeQuestions
    ensures if e.SetShowResults? then r.settings.showResults == e.show
      else r.settings.showResults == q.settings.showResults
    ensures if e.SetMultipleAttempts? then r.settings.allowMultipleAttempts == e.allow
      else r.settings.allowMultipleAttempts == q.settings.allowMultipleAttempts
    ensures if e.SetPassingScore? then r.settings.passingScore == e.score
      else r.settings.passingScore == q.settings.passingScore
  {
    match e
    case SetRandomize(b) => q.(settings := q.settings.(randomizeQuestions := b))
    case SetShowResults(b) => q.(settings := q.settings.(showResults := b))
    case SetMultipleAttempts(b) => q.(settings := q.settings.(allowMultipleAttempts := b))
    case SetPassingScore(s) => q.(settings := q.settings.(passingScore := s))
  }

  /** The question `handleAddQuestion` opens: multiple choice, two empty
      options, one point. */
  const NewQuestion: QB.Question :=
    QB.Question("multiple-choice", "", ["", ""], QB.AnswerText(""), Some(1), None, None)

  /** `handleAddQuestion`. */
  function AddQuestion(p: Page): (r: Page)
    ensures r.quiz == p.quiz && r.editing.None?
    ensures r.current == Some(NewQuestion)
    ensures r.current.value.qtype == "multiple-choice" && r.current.value.options == ["", ""]
    ensures r.current.value.points == Some(1)
  {
    Page(p.quiz, Some(NewQuestion), None)
  }

  /** `handleEditQuestion(i)`: the list only offers indices of existing questions. */
  function EditQuestion(p: Page, i: nat): (r: Page)
    requires i < |p.quiz.questions|
    ensures r.quiz == p.quiz && r.current == Some(p.quiz.questions[i]) && r.editing == Some(i)
  {
    Page(p.quiz, Some(p.quiz.questions[i]), Some(i))
  }

  /** The page invariant: an edited index names an existing question, and is
      only set while the editor dialog is open. */
  predicate Valid(p: Page) {
    && (p.editing.Some? ==> p.editing.value < |p.quiz.questions|)
    && (p.current.None? ==> p.editing.None?)
  }

  /** `handleSaveQuestion(q)`: replaces the edited question, or appends a new
      one, then closes the dialog. */
  function SaveQuestion(p: Page, q: QB.Question): (r: Page)
    requires Valid(p)
    ensures r.current.None? && r.editing.None?
    ensures r.quiz == p.quiz.(questions := r.quiz.questions)
    ensures p.editing.Some? ==> r.quiz.questions == p.quiz.questions[p.editing.value := q]
    ensures p.editing.None? ==> r.quiz.questions == p.quiz.questions + [q]
  {
    var qs := if p.editing.Some? then p.quiz.questions[p.editing.value := q] else p.quiz.questions + [q];
    Page(p.quiz.(questions := qs), None, None)
  }

  /** The dialog's cancel button. */
  function Cancel(p: Page): (r: Page)
    ensures r.quiz == p.quiz && r.current.None? && r.editing.None?
  {
    Page(p.quiz, None, None)
  }

  /** `handleDeleteQuestion(i)`. */
  function DeleteQuestion(p: Page, i: nat): (r: Page)
    ensures r.current == p.current && r.editing == p.editing
    ensures r.quiz == p.quiz.(questions := r.quiz.questions)
    ensures r.quiz.questions == RemoveAt(p.quiz.questions, i)
  {
    Page(p.quiz.(questions := RemoveAt(p.quiz.questions, i)), p.current, p.editing)
  }

  /** Saving while editing index `i` keeps the count, replaces exactly element
      `i`, and leaves every other question in place. */
  lemma SaveWhileEditingReplaces(p: Page, q: QB.Question)
    requires Valid(p) && p.editing.Some?
    ensures var qs := SaveQuestion(p, q).quiz.questions;
      |qs| == |p.quiz.questions| && qs[p.editing.value] == q
      && forall j :: 0 <= j < |qs| && j != p.editing.value ==> qs[j] == p.quiz.questions[j]
  {
  }

  /** Saving a new question adds it at the end, after all the others. */
  lemma SaveNewAppends(p: Page, q: QB.Question)
    requires Valid(p) && p.editing.None?
    ensures var qs := SaveQuestion(p, q).quiz.questions;
      |qs| == |p.quiz.questions| + 1 && qs[|qs| - 1] == q && qs[..|qs| - 1] == p.quiz.questions
  {
  }

  /** Deleting index `i` removes exactly that question; the others keep their order. */
  lemma DeleteRemovesOne(p: Page, i: nat)
    requires i < |p.quiz.questions|
    ensures var qs := DeleteQuestion(p, i).quiz.questions;
      |qs| == |p.quiz.questions| - 1
      && (forall j :: 0 <= j < i ==> qs[j] == p.quiz.questions[j])
      && (forall j :: i <= j < |qs| ==> qs[j] == p.quiz.questions[j + 1])
  {
  }

  /** Every action keeps the page invariant. The question list can only be
      reached while the editor dialog is closed (the dialog is modal), so a
      deletion happens with no question open. */
  lemma ActionsKeepValid(p: Page, q: QB.Question, i: nat)
    requires Valid(p)
    ensures Valid(AddQuestion(p)) && Valid(Cancel(p)) && Valid(SaveQuestion(p, q))
    ensures i < |p.quiz.questions| ==> Valid(EditQuestion(p, i))
    ensures p.current.None? ==> Valid(DeleteQuestion(p, i))
  {
  }

  /** Save Draft is disabled while there are no questions. */
  predicate CanSaveDraft(q: Quiz) {
    |q.questions| != 0
  }

  /** Publish is disabled while there are no questions or the title is empty. */
  predicate CanPublish(q: Quiz) {
    !(|q.questions| == 0 || q.title == "")
  }

  /** A quiz that may be published may also be saved, and a fresh page allows neither. */
  lemma PublishNeedsMoreThanSave(q: Quiz)
    ensures CanPublish(q) <==> CanSaveDraft(q) && q.title != ""
    ensures !CanSaveDraft(InitialQuiz) && !CanPublish(InitialQuiz)
  {
  }

  /** Once a question has been saved, Save Draft is enabled, and it stays so
      until a question is deleted. */
  lemma SaveEnablesDraft(p: Page, q: QB.Question, e: QuizEdit, s: SettingsEdit)
    requires Valid(p)
    ensures CanSaveDraft(SaveQuestion(p, q).quiz)
    ensures CanSaveDraft(ApplyQuizEdit(p.quiz, e)) == CanSaveDraft(p.quiz)
    ensures CanSaveDraft(ApplySettingsEdit(p.quiz, s)) == CanSaveDraft(p.quiz)
  {
  }
}
