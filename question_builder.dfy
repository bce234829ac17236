/** The question editor dialog of client/src/components/quiz/QuestionBuilder.jsx:
    field edits, the option-list edits and their enablement, and the
    comma-separated answer field of a select-all question. */
module QuestionBuilder {
  import opened Common
  import opened Text

  /** A correct answer as the editor stores it: one text (a chosen option, a
      keyword list, a rubric, "true"/"false") or a list (select-all, matching). */
  datatype Answer = AnswerText(text: string) | AnswerList(items: seq<string>)

  /** A question being edited. `points` is `None` when the points field does not
      parse as a number (NaN); `explanation` and `isRequired` are absent on a
      question created by the quiz creator. */
  datatype Question = Question(
    qtype: string,
    question: string,
    options: seq<string>,
    correctAnswer: Answer,
    points: Option<int>,
    explanation: Option<string>,
    isRequired: Option<bool>)

  /** The dialog's own default, used when it is opened without a question. */
  const DefaultQuestion: Question :=
    Question("multiple-choice", "", ["", ""], AnswerText(""), Some(1), Some(""), Some(true))

  /** The field names `handleQuestionChange` is called with. */
  datatype Field = TypeField | QuestionField | OptionsField | CorrectAnswerField
    | PointsField | ExplanationField | RequiredField

  /** One call of `handleQuestionChange(field, value)`. */
  datatype Edit =
    | SetType(qtype: string)
    | SetQuestion(question: string)
    | SetOptions(options: seq<string>)
    | SetCorrectAnswer(answer: Answer)
    | SetPoints(points: Option<int>)
    | SetExplanation(explanation: string)
    | SetRequired(required: bool)

  function FieldOf(e: Edit): Field {
    match e
    case SetType(_) => TypeField
    case SetQuestion(_) => QuestionField
    case SetOptions(_) => OptionsField
    case SetCorrectAnswer(_) => CorrectAnswerField
    case SetPoints(_) => PointsField
    case SetExplanation(_) => ExplanationField
    case SetRequired(_) => RequiredField
  }

  /** `a` and `b` agree on every field except `f`. */
  predicate SameExcept(a: Question, b: Question, f: Field) {
    && (f != TypeField ==> a.qtype == b.qtype)
    && (f != QuestionField ==> a.question == b.question)
    && (f != OptionsField ==> a.options == b.options)
    && (f != CorrectAnswerField ==> a.correctAnswer == b.correctAnswer)
    && (f != PointsField ==> a.points == b.points)
    && (f != ExplanationField ==> a.explanation == b.explanation)
    && (f != RequiredField ==> a.isRequired == b.isRequired)
  }

  /** `q` holds the value the edit writes. */
  predicate Carries(q: Question, e: Edit) {
    match e
    case SetType(t) => q.qtype == t
    case SetQuestion(s) => q.question == s
    case SetOptions(o) => q.options == o
    case SetCorrectAnswer(a) => q.correctAnswer == a
    case SetPoints(p) => q.points == p
    case SetExplanation(s) => q.explanation == Some(s)
    case SetRequired(b) => q.isRequired == Some(b)
  }

  /** `handleQuestionChange`: the named field gets the new value, nothing else changes. */
  function ApplyEdit(q: Question, e: Edit): (r: Question)
    ensures Carries(r, e)
    ensures SameExcept(q, r, FieldOf(e))
  {
    match e
    case SetType(t) => q.(qtype := t)
    case SetQuestion(s) => q.(question := s)
    case SetOptions(o) => q.(options := o)
    case SetCorrectAnswer(a) => q.(correctAnswer := a)
    case SetPoints(p) => q.(points := p)
    case SetExplanation(s) => q.(explanation := Some(s))
    case SetRequired(b) => q.(isRequired := Some(b))
  }

  /** Edits of different fields commute. */
  lemma EditsOfDifferentFieldsCommute(q: Question, a: Edit, b: Edit)
    requires FieldOf(a) != FieldOf(b)
    ensures ApplyEdit(ApplyEdit(q, a), b) == ApplyEdit(ApplyEdit(q, b), a)
  {
  }

  /** Of two edits of the same field, the later one wins. */
  lemma LaterEditWins(q: Question, a: Edit, b: Edit)
    requires FieldOf(a) == FieldOf(b)
    ensures ApplyEdit(ApplyEdit(q, a), b) == ApplyEdit(q, b)
  {
  }

  /** The points field: its text goes through `parseInt`. */
  function PointsInput(q: Question, text: string): (r: Question)
    ensures r.points == ParseInt(text)
    ensures SameExcept(q, r, PointsField)
  {
    ApplyEdit(q, SetPoints(ParseInt(text)))
  }

  /** `handleOptionChange(i, v)`; the editor only offers indices of existing options. */
  function ChangeOption(options: seq<string>, i: nat, v: string): (r: seq<string>)
    requires i < |options|
    ensures |r| == |options| && r[i] == v
    ensures forall j :: 0 <= j < |options| && j != i ==> r[j] == options[j]
  {
    options[i := v]
  }

  /** `handleAddOption`: an empty option at the end. */
  function AddOption(options: seq<string>): (r: seq<string>)
    ensures |r| == |options| + 1 && r[..|options|] == options && r[|options|] == ""
  {
    options + [""]
  }

  /** `handleRemoveOption(i)`. */
  function RemoveOption(options: seq<string>, i: nat): (r: seq<string>)
    ensures i >= |options| ==> r == options
    ensures i < |options| ==> |r| == |options| - 1
    ensures i < |options| ==> forall j :: 0 <= j < i ==> r[j] == options[j]
    ensures i < |options| ==> forall j :: i <= j < |r| ==> r[j] == options[j + 1]
  {
    RemoveAt(options, i)
  }

  /** The option buttons of the multiple-choice, select-all and ordering editors. */
  datatype OptionAction = Add | Remove(i: nat) | Change(i: nat, v: string)

  /** The remove buttons are disabled at two options or fewer, the add button at
      six or more; a button exists only for an existing option. */
  predicate Enabled(options: seq<string>, a: OptionAction) {
    match a
    case Add => |options| < 6
    case Remove(i) => i < |options| && |options| > 2
    case Change(i, _) => i < |options|
  }

  /** One click: a disabled button does nothing. */
  function Click(options: seq<string>, a: OptionAction): (r: seq<string>)
    ensures !Enabled(options, a) ==> r == options
  {
    if !Enabled(options, a) then options
    else
      match a
      case Add => AddOption(options)
      case Remove(i) => RemoveOption(options, i)
      case Change(i, v) => ChangeOption(options, i, v)
  }

  function Clicks(options: seq<string>, acts: seq<OptionAction>): seq<string>
    decreases |acts|
  {
    if acts == [] then options else Clicks(Click(options, acts[0]), acts[1..])
  }

  /** Starting from between two and six options, any sequence of clicks keeps
      the count between two and six. */
  lemma {:induction false} OptionCountStaysInRange(options: seq<string>, acts: seq<OptionAction>)
    requires 2 <= |options| <= 6
    ensures 2 <= |Clicks(options, acts)| <= 6
    decreases |acts|
  {
    if acts != [] {
      var next := Click(options, acts[0]);
      assert 2 <= |next| <= 6;
      OptionCountStaysInRange(next, acts[1..]);
    }
  }

  /** The text of `s` is already trimmed. */
  predicate Trimmed(s: string) {
    s != [] ==> !IsSpace(s[0]) && !IsSpace(s[|s| - 1])
  }

  lemma TrimIsTrimmed(s: string)
    ensures Trimmed(Trim(s))
  {
  }

  /** Trimming never introduces a character that was not there. */
  lemma TrimKeepsFree(s: string, c: char)
    requires Free(s, c)
    ensures Free(Trim(s), c)
  {
    var t := TrimStart(s);
    FreeDrop(s, c, |s| - |t|);
    FreeTake(t, c, |TrimEnd(t)|);
  }

  lemma FreeDrop(s: string, c: char, k: nat)
    requires Free(s, c) && k <= |s|
    ensures Free(s[k..], c)
  {
    forall j | 0 <= j < |s[k..]|
      ensures s[k..][j] != c
    {
      assert s[k..][j] == s[k + j];
    }
  }

  lemma FreeTake(s: string, c: char, k: nat)
    requires Free(s, c) && k <= |s|
    ensures Free(s[..k], c)
  {
    forall j | 0 <= j < k
      ensures s[..k][j] != c
    {
      assert s[..k][j] == s[j];
    }
  }

  /** The select-all answer field as the user types it:
      `value.split(',').map(s => s.trim())`. */
  function ParseAnswers(text: string): (r: seq<string>)
    ensures |r| >= 1
    ensures forall i :: 0 <= i < |r| ==> Trimmed(r[i]) && Free(r[i], ',')
  {
    var parts := Split(text, ',');
    var r := TrimAll(parts);
    forall i | 0 <= i < |r| ensures Trimmed(r[i]) && Free(r[i], ',') {
      TrimIsTrimmed(parts[i]);
      TrimKeepsFree(parts[i], ',');
    }
    r
  }

  /** `parts.map(s => s.trim())`. */
  function TrimAll(parts: seq<string>): (r: seq<string>)
    ensures |r| == |parts|
    ensures forall i :: 0 <= i < |parts| ==> r[i] == Trim(parts[i])
  {
    seq(|parts|, i requires 0 <= i < |parts| => Trim(parts[i]))
  }

  /** The text the field shows: the list joined with ", ", or "" for a non-list answer. */
  function ShowAnswers(a: Answer): string {
    if a.AnswerList? then Join(a.items, ", ") else ""
  }

  /** Splitting a ", "-joined list (after an optional leading space) on ','
      and trimming the parts gives back the list. */
  lemma {:induction false} ParseJoined(xs: seq<string>, pre: string, whole: string)
    requires |xs| >= 1 && (pre == "" || pre == " ")
    requires forall i :: 0 <= i < |xs| ==> Trimmed(xs[i]) && Free(xs[i], ',')
    requires whole == pre + Join(xs, ", ")
    ensures ParseAnswers(whole) == xs
    decreases |xs|
  {
    var p := pre + xs[0];
    PaddedPiece(xs[0], pre);
    if |xs| == 1 {
      JoinOne(xs, pre);
      ParsePiece(p);
    } else {
      var rest := " " + Join(xs[1..], ", ");
      JoinStep(xs, pre);
      ParseCons(p, rest);
      ParseJoined(xs[1..], " ", rest);
      var tail := ParseAnswers(rest);
      assert tail == xs[1..];
      assert [xs[0]] + tail == xs;
    }
  }

  lemma JoinOne(xs: seq<string>, pre: string)
    requires |xs| == 1
    ensures pre + Join(xs, ", ") == pre + xs[0]
  {
  }

  lemma JoinStep(xs: seq<string>, pre: string)
    requires |xs| >= 2
    ensures pre + Join(xs, ", ") == (pre + xs[0]) + [','] + (" " + Join(xs[1..], ", "))
  {
    var j := Join(xs[1..], ", ");
    assert Join(xs, ", ") == xs[0] + ", " + j;
    CommaRegroup(pre, xs[0], j);
  }

  /** Moving the comma of ", " from the left piece to the right. */
  lemma CommaRegroup(pre: string, x: string, j: string)
    ensures pre + (x + ", " + j) == (pre + x) + [','] + (" " + j)
  {
    var l, r := pre + (x + ", " + j), (pre + x) + [','] + (" " + j);
    assert |l| == |r|;
    forall k | 0 <= k < |l|
      ensures l[k] == r[k]
    {
      if k < |pre| + |x| + 1 {
      } else {
      }
    }
  }

  /** A trimmed, comma-free piece behind an optional space. */
  lemma PaddedPiece(x: string, pre: string)
    requires pre == "" || pre == " "
    requires Trimmed(x) && Free(x, ',')
    ensures Free(pre + x, ',') && Trim(pre + x) == x
  {
    var p := pre + x;
    assert forall j :: |pre| <= j < |p| ==> p[j] == x[j - |pre|];
    if pre == "" {
      assert p == x;
      TrimOfTrimmed(x);
    } else {
      TrimLeadingSpace(x);
    }
  }

  lemma ParsePiece(p: string)
    requires Free(p, ',')
    ensures ParseAnswers(p) == [Trim(p)]
  {
    SplitOfPiece(p, ',');
    var t := TrimAll([p]);
    assert |t| == 1 && t[0] == Trim(p);
    assert t == [Trim(p)];
  }

  /** A comma-free piece, a comma, then the rest. */
  lemma ParseCons(p: string, rest: string)
    requires Free(p, ',')
    ensures ParseAnswers(p + [','] + rest) == [Trim(p)] + ParseAnswers(rest)
  {
    SplitAfterPiece(p, ',', rest);
    TrimAllCons(p, Split(rest, ','));
  }

  lemma TrimAllCons(p: string, parts: seq<string>)
    ensures TrimAll([p] + parts) == [Trim(p)] + TrimAll(parts)
  {
    var l, r := TrimAll([p] + parts), [Trim(p)] + TrimAll(parts);
    assert |l| == |r|;
    forall k | 0 <= k < |l|
      ensures l[k] == r[k]
    {
      if k > 0 {
        assert ([p] + parts)[k] == parts[k - 1];
      }
    }
  }

  /** Showing a list of trimmed, comma-free answers and reading the field back
      gives the same list. */
  lemma ShowThenParse(items: seq<string>)
    requires |items| >= 1
    requires forall i :: 0 <= i < |items| ==> Trimmed(items[i]) && Free(items[i], ',')
    ensures ParseAnswers(ShowAnswers(AnswerList(items))) == items
  {
    assert "" + Join(items, ", ") == Join(items, ", ");
    ParseJoined(items, "", Join(items, ", "));
  }

  /** Once typed, an answer list is stable: re-reading what the field shows
      changes nothing. */
  lemma ParseIsStable(text: string)
    ensures ParseAnswers(ShowAnswers(AnswerList(ParseAnswers(text)))) == ParseAnswers(text)
  {
    ShowThenParse(ParseAnswers(text));
  }

  /** Typing into the select-all answer field. */
  function AnswerInput(q: Question, text: string): (r: Question)
    ensures r.correctAnswer == AnswerList(ParseAnswers(text))
    ensures SameExcept(q, r, CorrectAnswerField)
  {
    var e := SetCorrectAnswer(AnswerList(ParseAnswers(text)));
    var r := ApplyEdit(q, e);
    assert Carries(r, e) && SameExcept(q, r, FieldOf(e));
    r
  }
}
