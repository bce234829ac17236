/** The client's quiz state (client/src/context/QuizContext.js): the reducer
    that applies each action to the state, and the conversion of the answers
    object into the list `submitQuiz` sends. Payloads are opaque values. The
    answers object keeps its keys in insertion order, as a JavaScript object
    with string keys does, so it is a list of entries with distinct keys. */
module QuizContextModel {
  import opened Common

  /** One key of the answers object and its value (also the shape of one element
      of the submitted answers list). */
  datatype AnswerEntry = AnswerEntry(questionId: Id, answer: Value)

  predicate DistinctKeys(answers: seq<AnswerEntry>) {
    forall i, j :: 0 <= i < j < |answers| ==> answers[i].questionId != answers[j].questionId
  }

  /** `answers[key]`, `None` standing for a missing key. */
  function Lookup(answers: seq<AnswerEntry>, key: Id): (r: Option<Value>)
    ensures r.None? <==> forall i :: 0 <= i < |answers| ==> answers[i].questionId != key
    ensures r.Some? ==> exists i :: 0 <= i < |answers| && answers[i] == AnswerEntry(key, r.value)
  {
    if answers == [] then None
    else if answers[0].questionId == key then Some(answers[0].answer)
    else
      var r := Lookup(answers[1..], key);
      assert forall i :: 1 <= i < |answers| ==> answers[i] == answers[1..][i - 1];
      r
  }

  /** The object has the key. */
  predicate HasKey(answers: seq<AnswerEntry>, key: Id) {
    exists i :: 0 <= i < |answers| && answers[i].questionId == key
  }

  /** `{ ...answers, [key]: value }`: an existing key keeps its place and takes
      the new value, a new key goes last. */
  function Put(answers: seq<AnswerEntry>, key: Id, value: Value): (r: seq<AnswerEntry>)
    ensures !HasKey(answers, key) ==> r == answers + [AnswerEntry(key, value)]
    ensures HasKey(answers, key) ==> |r| == |answers|
    ensures HasKey(answers, key) ==> forall i :: 0 <= i < |answers| ==>
      r[i] == if answers[i].questionId == key then AnswerEntry(key, value) else answers[i]
  {
    if HasKey(answers, key) then
      seq(|answers|, i requires 0 <= i < |answers| =>
        if answers[i].questionId == key then AnswerEntry(key, value) else answers[i])
    else answers + [AnswerEntry(key, value)]
  }

  /** After `Put` the key holds the new value and every other key its old one. */
  lemma PutThenLookup(answers: seq<AnswerEntry>, key: Id, value: Value, other: Id)
    requires DistinctKeys(answers)
    ensures Lookup(Put(answers, key, value), key) == Some(value)
    ensures other != key ==> Lookup(Put(answers, key, value), other) == Lookup(answers, other)
  {
    var r := Put(answers, key, value);
    PutKeepsDistinct(answers, key, value);
    if HasKey(answers, key) {
      var i :| 0 <= i < |answers| && answers[i].questionId == key;
      LookupDistinct(r, i);
    } else {
      LookupDistinct(r, |answers|);
    }
    if other != key {
      var found := Lookup(answers, other);
      if found.Some? {
        var i :| 0 <= i < |answers| && answers[i] == AnswerEntry(other, found.value);
        assert r[i] == answers[i];
        LookupDistinct(r, i);
      } else {
        assert forall i :: 0 <= i < |r| ==> r[i].questionId != other by {
          forall i | 0 <= i < |r|
            ensures r[i].questionId != other
          {
            if i < |answers| {
              assert r[i].questionId == key || r[i] == answers[i];
            }
          }
        }
      }
    }
  }

  /** `Put` keeps the keys distinct. */
  lemma {:induction false} PutKeepsDistinct(answers: seq<AnswerEntry>, key: Id, value: Value)
    requires DistinctKeys(answers)
    ensures DistinctKeys(Put(answers, key, value))
  {
    var r := Put(answers, key, value);
    if HasKey(answers, key) {
      assert forall i :: 0 <= i < |answers| ==> r[i].questionId == answers[i].questionId;
    }
  }

  /** The state of the quiz context. */
  datatype QuizState = QuizState(
    quizzes: Value,
    currentQuiz: Value,
    session: Value,
    answers: seq<AnswerEntry>,
    progress: Value,
    timeRemaining: Value,
    loading: Value,
    error: Value,
    completed: bool)

  const Initial := QuizState(Arr([]), Null, Null, [], Num(0), Num(0), Bool(false), Null, false)

  datatype Action =
    | SetLoading(payload: Value)
    | SetError(payload: Value)
    | SetQuizzes(payload: Value)
    | SetCurrentQuiz(payload: Value)
    | SetSession(payload: Value)
    | UpdateAnswer(questionId: Id, answer: Value)
    | SetProgress(payload: Value)
    | SetTimeRemaining(payload: Value)
    | CompleteQuiz
    | Other(name: string)

  /** `quizReducer`. */
  function Reduce(s: QuizState, a: Action): QuizState {
    match a
    case SetLoading(p) => s.(loading := p, error := Null)
    case SetError(p) => s.(error := p, loading := Bool(false))
    case SetQuizzes(p) => s.(quizzes := p, loading := Bool(false))
    case SetCurrentQuiz(p) => s.(currentQuiz := p, loading := Bool(false))
    case SetSession(p) => s.(session := p, loading := Bool(false))
    case UpdateAnswer(k, v) => s.(answers := Put(s.answers, k, v))
    case SetProgress(p) => s.(progress := p)
    case SetTimeRemaining(p) => s.(timeRemaining := p)
    case CompleteQuiz => s.(completed := true, loading := Bool(false))
    case Other(_) => s
  }

  /** The fields of the state, by name. */
  datatype Field = Quizzes | CurrentQuiz | SessionField | Answers | Progress | TimeRemainingField | Loading | Error | Completed

  /** The fields each action names: a reference listing, independent of the reducer. */
  function Names(a: Action): set<Field> {
    match a
    case SetLoading(_) => {Loading, Error}
    case SetError(_) => {Error, Loading}
    case SetQuizzes(_) => {Quizzes, Loading}
    case SetCurrentQuiz(_) => {CurrentQuiz, Loading}
    case SetSession(_) => {SessionField, Loading}
    case UpdateAnswer(_, _) => {Answers}
    case SetProgress(_) => {Progress}
    case SetTimeRemaining(_) => {TimeRemainingField}
    case CompleteQuiz => {Completed, Loading}
    case Other(_) => {}
  }

  /** The two states agree on the given field. */
  predicate SameField(s: QuizState, t: QuizState, f: Field) {
    match f
    case Quizzes => s.quizzes == t.quizzes
    case CurrentQuiz => s.currentQuiz == t.currentQuiz
    case SessionField => s.session == t.session
    case Answers => s.answers == t.answers
    case Progress => s.progress == t.progress
    case TimeRemainingField => s.timeRemaining == t.timeRemaining
    case Loading => s.loading == t.loading
    case Error => s.error == t.error
    case Completed => s.completed == t.completed
  }

  /** Every action changes only the fields it names; an unknown action changes nothing. */
  lemma ReduceChangesOnlyNamed(s: QuizState, a: Action, f: Field)
    requires f !in Names(a)
    ensures SameField(s, Reduce(s, a), f)
  {
  }

  lemma UnknownActionIsIdentity(s: QuizState, name: string)
    ensures Reduce(s, Other(name)) == s
  {
  }

  /** What each action does to the fields it names. */
  lemma ReduceEffects(s: QuizState, a: Action)
    ensures a.SetLoading? ==> Reduce(s, a).loading == a.payload && Reduce(s, a).error == Null
    ensures a.SetError? ==> Reduce(s, a).error == a.payload && Reduce(s, a).loading == Bool(false)
    ensures a.SetQuizzes? ==> Reduce(s, a).quizzes == a.payload && Reduce(s, a).loading == Bool(false)
    ensures a.SetCurrentQuiz? ==> Reduce(s, a).currentQuiz == a.payload && Reduce(s, a).loading == Bool(false)
    ensures a.SetSession? ==> Reduce(s, a).session == a.payload && Reduce(s, a).loading == Bool(false)
    ensures a.SetProgress? ==> Reduce(s, a).progress == a.payload
    ensures a.SetTimeRemaining? ==> Reduce(s, a).timeRemaining == a.payload
    ensures a.CompleteQuiz? ==> Reduce(s, a).completed && Reduce(s, a).loading == Bool(false)
  {
  }

  /** UPDATE_ANSWER overwrites the key's value, leaves the other keys alone and
      keeps the keys distinct. */
  lemma UpdateAnswerEffect(s: QuizState, k: Id, v: Value, other: Id)
    requires DistinctKeys(s.answers)
    ensures Lookup(Reduce(s, UpdateAnswer(k, v)).answers, k) == Some(v)
    ensures other != k ==> Lookup(Reduce(s, UpdateAnswer(k, v)).answers, other) == Lookup(s.answers, other)
    ensures DistinctKeys(Reduce(s, UpdateAnswer(k, v)).answers)
  {
    PutThenLookup(s.answers, k, v, other);
    PutKeepsDistinct(s.answers, k, v);
  }

  /** The `answersArray` of `submitQuiz`: `Object.entries(answers)` as
      `{questionId, answer}` records, one per key, in key order. */
  function AnswersArray(answers: seq<AnswerEntry>): (r: seq<AnswerEntry>)
    ensures |r| == |answers|
    ensures forall i :: 0 <= i < |r| ==> r[i].questionId == answers[i].questionId && r[i].answer == answers[i].answer
  {
    seq(|answers|, i requires 0 <= i < |answers| => AnswerEntry(answers[i].questionId, answers[i].answer))
  }

  /** The submitted list holds exactly one record per key, carrying that key's value. */
  lemma AnswersArrayOnePerKey(answers: seq<AnswerEntry>, key: Id)
    requires DistinctKeys(answers)
    ensures Lookup(answers, key).Some? <==> exists i :: 0 <= i < |AnswersArray(answers)| && AnswersArray(answers)[i].questionId == key
    ensures forall i, j :: 0 <= i < j < |AnswersArray(answers)| ==> AnswersArray(answers)[i].questionId != AnswersArray(answers)[j].questionId
    ensures forall i :: 0 <= i < |AnswersArray(answers)| && AnswersArray(answers)[i].questionId == key ==>
      Lookup(answers, key) == Some(AnswersArray(answers)[i].answer)
  {
    var r := AnswersArray(answers);
    forall i | 0 <= i < |r| && r[i].questionId == key
      ensures Lookup(answers, key) == Some(r[i].answer)
    {
      LookupDistinct(answers, i);
    }
    if Lookup(answers, key).Some? {
      var i :| 0 <= i < |answers| && answers[i] == AnswerEntry(key, Lookup(answers, key).value);
      assert r[i].questionId == key;
    }
  }

  lemma {:induction false} LookupDistinct(answers: seq<AnswerEntry>, i: nat)
    requires DistinctKeys(answers) && i < |answers|
    ensures Lookup(answers, answers[i].questionId) == Some(answers[i].answer)
  {
    if i > 0 {
      assert DistinctKeys(answers[1..]) by {
        forall a, b | 0 <= a < b < |answers| - 1
          ensures answers[1..][a].questionId != answers[1..][b].questionId
        {
          assert answers[1..][a] == answers[a + 1] && answers[1..][b] == answers[b + 1];
        }
      }
      assert answers[1..][i - 1] == answers[i];
      LookupDistinct(answers[1..], i - 1);
    }
  }
}
