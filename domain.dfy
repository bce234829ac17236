/** The stored records the route handlers read and write: quizzes with their
    questions and student roster, quiz submissions, users and connections.
    Their Mongoose schemas are not part of this model; the fields below are the
    ones the handlers use, and a database collection becomes a map from id to
    record (or a sequence indexed by id). */
module Domain {
  import opened Common

  /** One answer option of a stored question. */
  datatype QuizOption = QuizOption(text: string, isCorrect: bool)

  /** A stored question. `correctAnswer` and `correctAnswers` are free-form
      (`Undefined` when the document has no such path). */
  datatype Question = Question(
    id: Id,
    qtype: string,
    text: string,
    options: seq<QuizOption>,
    correctAnswer: Value,
    correctAnswers: Value,
    points: Option<int>)

  /** `q.points || 1`: the points a question is worth. */
  function PointsOf(q: Question): (p: int)
    ensures q.points.Some? && q.points.value != 0 ==> p == q.points.value
    ensures q.points.None? || q.points.value == 0 ==> p == 1
  {
    OrDefault(q.points, 1)
  }

  /** The position of the first question with the given id
      (`questions.findIndex(q => q._id == id)`), `None` standing for -1. */
  function QuestionIndex(questions: seq<Question>, id: Id): (r: Option<nat>)
    ensures r.None? <==> forall k :: 0 <= k < |questions| ==> questions[k].id != id
    ensures r.Some? ==> r.value < |questions| && questions[r.value].id == id
    ensures r.Some? ==> forall j :: 0 <= j < r.value ==> questions[j].id != id
  {
    if questions == [] then None
    else if questions[0].id == id then Some(0)
    else
      var r := QuestionIndex(questions[1..], id);
      if r.None? then
        assert forall k :: 1 <= k < |questions| ==> questions[k] == questions[1..][k - 1];
        None
      else Some(r.value + 1)
  }

  /** `questions.find(q => q._id == id)`. */
  function FindQuestion(questions: seq<Question>, id: Id): (r: Option<Question>)
    ensures r.Some? ==> r.value.id == id
  {
    match QuestionIndex(questions, id)
    case None => None
    case Some(k) => Some(questions[k])
  }

  /** A roster entry: a student assigned to a quiz, with the time they submitted. */
  datatype RosterEntry = RosterEntry(
    student: Id,
    assignedAt: Option<nat>,
    dueDate: Option<nat>,
    submittedAt: Option<nat>)

  datatype Settings = Settings(
    timeLimit: Option<int>,
    randomizeQuestions: bool,
    randomizeOptions: bool,
    requireManualReview: bool,
    passingScore: Option<int>,
    allowMultipleAttempts: bool)

  datatype Quiz = Quiz(
    title: string,
    instructor: Id,
    isPublished: bool,
    questions: seq<Question>,
    students: seq<RosterEntry>,
    settings: Settings,
    totalPoints: Option<int>)

  /** The paths of a quiz an update body may carry, each `None` when absent.
      `settings` is one nested object: a body that carries it replaces all of
      it. `totalPoints` carries `Some(None)` for an explicit `null`. */
  datatype QuizPatch = QuizPatch(
    title: Option<string>,
    instructor: Option<Id>,
    isPublished: Option<bool>,
    questions: Option<seq<Question>>,
    students: Option<seq<RosterEntry>>,
    settings: Option<Settings>,
    totalPoints: Option<Option<int>>)

  /** The body that carries nothing. */
  const EmptyQuizPatch := QuizPatch(None, None, None, None, None, None, None)

  /** The quiz after an update body is applied, by `Object.assign` or by a
      `$set` of the body's paths alike: every carried path is set, every
      other path keeps its stored value. */
  function PatchQuiz(q: Quiz, p: QuizPatch): (r: Quiz)
    ensures Carried(p.title, q.title, r.title) && Carried(p.instructor, q.instructor, r.instructor)
    ensures Carried(p.isPublished, q.isPublished, r.isPublished) && Carried(p.questions, q.questions, r.questions)
    ensures Carried(p.students, q.students, r.students) && Carried(p.settings, q.settings, r.settings)
    ensures Carried(p.totalPoints, q.totalPoints, r.totalPoints)
  {
    Quiz(Overwrite(p.title, q.title), Overwrite(p.instructor, q.instructor), Overwrite(p.isPublished, q.isPublished),
      Overwrite(p.questions, q.questions), Overwrite(p.students, q.students), Overwrite(p.settings, q.settings),
      Overwrite(p.totalPoints, q.totalPoints))
  }

  /** An empty body leaves the quiz as it is. */
  lemma EmptyQuizPatchIsIdentity(q: Quiz)
    ensures PatchQuiz(q, EmptyQuizPatch) == q
  {
  }

  /** A body that leaves out the roster keeps every assignment and its stamps. */
  lemma PatchKeepsRoster(q: Quiz, p: QuizPatch)
    requires p.students.None?
    ensures PatchQuiz(q, p).students == q.students
    ensures forall user :: OnRoster(q.students, user) <==> OnRoster(PatchQuiz(q, p).students, user)
  {
  }

  /** `students.some(s => s.student == user)`. */
  predicate OnRoster(students: seq<RosterEntry>, user: Id) {
    exists i :: 0 <= i < |students| && students[i].student == user
  }

  /** `students.findIndex(s => s.student == user)`, `None` standing for -1. */
  function FirstRosterIndex(students: seq<RosterEntry>, user: Id): (r: Option<nat>)
    ensures r.None? <==> !OnRoster(students, user)
    ensures r.Some? ==> r.value < |students| && students[r.value].student == user
    ensures r.Some? ==> forall j :: 0 <= j < r.value ==> students[j].student != user
  {
    if students == [] then None
    else if students[0].student == user then Some(0)
    else
      var r := FirstRosterIndex(students[1..], user);
      if r.None? then
        assert forall i :: 1 <= i < |students| ==> students[i] == students[1..][i - 1];
        None
      else Some(r.value + 1)
  }

  /** The roster entries for the given ids, in order, as an assignment appends them. */
  function NewEntries(ids: seq<Id>, assignedAt: Option<nat>, dueDate: Option<nat>): (r: seq<RosterEntry>)
    ensures |r| == |ids|
    ensures forall i :: 0 <= i < |ids| ==>
      r[i] == RosterEntry(ids[i], assignedAt, dueDate, None)
  {
    seq(|ids|, i requires 0 <= i < |ids| => RosterEntry(ids[i], assignedAt, dueDate, None))
  }

  /** One stored answer of a quiz submission. `isCorrect` is absent when the
      question did not exist. */
  datatype SubAnswer = SubAnswer(questionId: Id, selectedAnswer: Value, isCorrect: Option<bool>)

  datatype Submission = Submission(
    quiz: Id,
    student: Id,
    answers: seq<SubAnswer>,
    score: Option<int>,
    percentage: Option<real>,
    maxScore: int,
    totalQuestions: nat,
    isCompleted: bool,
    reviewedAt: Option<nat>,
    submittedAt: Option<nat>,
    timeSpent: Option<int>)

  datatype User = User(
    role: Role,
    email: string,
    username: string,
    firstName: string,
    lastName: string,
    password: string,
    isApproved: bool,
    isSuspended: bool,
    studentLimit: int)

  datatype ConnStatus = Pending | Accepted | Rejected

  /** A connection request between two users. */
  datatype Connection = Connection(
    sender: Id,
    receiver: Id,
    status: ConnStatus,
    message: string,
    updatedAt: Option<nat>)
}
