/** The printable results page (client/src/utils/printResults.js): the time
    and answer texts, the PASS/FAIL rule, and the per-question blocks that
    `generateQuizResultsHtml` appends in a loop. The markup and styling around
    the texts are not modelled; a block keeps the texts it shows. */
module PrintResults {
  import opened Common
  import opened Domain
  import opened Text

  /** `formatTime(minutes)`: "Hh Mm" from one hour on, otherwise "M min". */
  function FormatMinutes(minutes: nat): (r: string)
    ensures minutes < 60 ==> r == NatToString(minutes) + " min"
    ensures minutes >= 60 ==> r == NatToString(minutes / 60) + "h " + NatToString(minutes % 60) + "m"
  {
    var hours := minutes / 60;
    var rest := minutes % 60;
    if hours > 0 then NatToString(hours) + "h " + NatToString(rest) + "m" else NatToString(rest) + " min"
  }

  /** Reads a time written by `FormatMinutes` back into minutes. */
  function ReadMinutes(s: string): Option<nat> {
    var a := DigitPrefixLen(s);
    if a == 0 then None else ReadUnit(DigitsValue(s[..a]), s[a..])
  }

  /** What follows the leading number `n`: " min", or "h " and the minutes then "m". */
  function ReadUnit(n: nat, t: string): Option<nat> {
    if t == " min" then Some(n)
    else if |t| >= 2 && t[..2] == "h " then
      var rest := t[2..];
      var b := DigitPrefixLen(rest);
      if b > 0 && rest[b..] == "m" then Some(60 * n + DigitsValue(rest[..b])) else None
    else None
  }

  /** Every formatted time reads back as the minutes it was made from. */
  lemma ReadFormatMinutes(minutes: nat)
    ensures ReadMinutes(FormatMinutes(minutes)) == Some(minutes)
  {
    if minutes < 60 {
      NumberThen(minutes, " min");
    } else {
      ReadHoursMinutes(minutes / 60, minutes % 60);
    }
  }

  /** "Hh Mm" reads back as `60 * H + M` minutes. */
  lemma ReadHoursMinutes(hours: nat, rest: nat)
    ensures ReadMinutes(NatToString(hours) + "h " + NatToString(rest) + "m") == Some(60 * hours + rest)
  {
    var h, m := NatToString(hours), NatToString(rest);
    var t := "h " + m + "m";
    assert h + "h " + m == h + ("h " + m);
    assert h + ("h " + m) + "m" == h + t;
    NumberThen(hours, t);
    assert ReadMinutes(h + t) == ReadUnit(hours, t);
    ReadUnitHours(hours, rest);
  }

  /** After the hours, "h Mm" adds the minutes. */
  lemma ReadUnitHours(hours: nat, rest: nat)
    ensures ReadUnit(hours, "h " + NatToString(rest) + "m") == Some(60 * hours + rest)
  {
    var m := NatToString(rest);
    var t := "h " + m + "m";
    assert t != " min" by { assert t[1] == ' ' && " min"[1] == 'm'; }
    assert t[..2] == "h " && t[2..] == m + "m";
    NumberThen(rest, "m");
  }

  /** One entry of the submission's answer list as the page reads it. */
  datatype PrintedAnswer = PrintedAnswer(questionId: Id, answer: Value, isCorrect: Value, pointsEarned: Option<int>)

  /** The string keys every array answers without owning them as elements:
      its own `length` and the members it inherits from `Array.prototype` and
      `Object.prototype` (ECMAScript 2023). */
  predicate ArrayMember(key: string) {
    key == "length" || key == "constructor" || key == "at" || key == "concat" ||
    key == "copyWithin" || key == "entries" || key == "every" || key == "fill" ||
    key == "filter" || key == "find" || key == "findIndex" || key == "findLast" ||
    key == "findLastIndex" || key == "flat" || key == "flatMap" || key == "forEach" ||
    key == "includes" || key == "indexOf" || key == "join" || key == "keys" ||
    key == "lastIndexOf" || key == "map" || key == "pop" || key == "push" || key == "reduce" ||
    key == "reduceRight" || key == "reverse" || key == "shift" || key == "slice" ||
    key == "some" || key == "sort" || key == "splice" || key == "toLocaleString" ||
    key == "toReversed" || key == "toSorted" || key == "toSpliced" || key == "toString" ||
    key == "unshift" || key == "values" || key == "with" || key == "__defineGetter__" ||
    key == "__defineSetter__" || key == "__lookupGetter__" || key == "__lookupSetter__" ||
    key == "__proto__" || key == "hasOwnProperty" || key == "isPrototypeOf" ||
    key == "propertyIsEnumerable" || key == "valueOf"
  }

  /** What a truthy `options[v]` is: an option, or an inherited member (a
      function, the prototype, or a non-zero `length`) whose `.text` is
      `undefined`; `Absent` when `options[v]` is falsy. */
  datatype Slot = Element(option: QuizOption) | Inherited | Absent

  /** `options[v]`: the value becomes the property key `String(v)`; a canonical
      index in range names that option, and `length` counts only when the
      array is not empty. */
  function OptionAt(options: seq<QuizOption>, v: Value): (r: Slot)
    ensures r.Element? <==> CanonicalIndex(ToJsString(v)).Some? && CanonicalIndex(ToJsString(v)).value < |options|
    ensures r.Element? ==> r.option == options[CanonicalIndex(ToJsString(v)).value]
    ensures r.Inherited? <==>
      ArrayMember(ToJsString(v)) && (ToJsString(v) == "length" ==> |options| > 0)
    ensures v.Num? && 0 <= v.n < |options| ==> r == Element(options[v.n])
    ensures v.Null? || v.Undefined? ==> r.Absent?
  {
    KeyFacts(v);
    var key := ToJsString(v);
    var k := CanonicalIndex(key);
    if k.Some? && k.value < |options| then Element(options[k.value])
    else if ArrayMember(key) && (key == "length" ==> |options| > 0) then Inherited
    else Absent
  }

  /** A natural number's key names its index, and no member name is an index. */
  lemma KeyFacts(v: Value)
    ensures v.Num? && v.n >= 0 ==> CanonicalIndex(ToJsString(v)) == Some(v.n)
    ensures ArrayMember(ToJsString(v)) ==> CanonicalIndex(ToJsString(v)).None?
    ensures v.Null? || v.Undefined? ==> !ArrayMember(ToJsString(v))
  {
    var key := ToJsString(v);
    if v.Num? && v.n >= 0 {
      assert key == NatToString(v.n);
      CanonicalIndexOfNat(v.n);
    }
    if ArrayMember(key) {
      MemberStartsWithLetter(key);
    }
    if v.Null? || v.Undefined? {
      NullKeysNotMembers();
    }
  }

  lemma MemberStartsWithLetter(key: string)
    requires ArrayMember(key)
    ensures key != [] && !IsDigit(key[0])
  {
  }

  lemma NullKeysNotMembers()
    ensures !ArrayMember("null") && !ArrayMember("undefined")
  {
    NullNotMember();
  }

  lemma NullNotMember()
    ensures !ArrayMember("null")
  {
  }

  /** An answer record with a value that is neither `null` nor `undefined`. */
  predicate HasAnswer(a: Option<PrintedAnswer>) {
    a.Some? && !a.value.answer.Null? && !a.value.answer.Undefined?
  }

  /** The text of one selected index of a select-all answer: the option's text,
      `undefined` (printed as nothing by `join`) for an inherited member, or
      the index as a string; `None` where `index.toString()` throws. */
  function IndexText(options: seq<QuizOption>, index: Value): (r: Option<string>)
    ensures OptionAt(options, index).Element? ==> r == Some(OptionAt(options, index).option.text)
    ensures OptionAt(options, index).Inherited? ==> r == Some("")
    ensures OptionAt(options, index).Absent? && !index.Null? && !index.Undefined? ==> r == Some(ToJsString(index))
    ensures r.None? <==> index.Null? || index.Undefined?
  {
    var o := OptionAt(options, index);
    if o.Element? then Some(o.option.text)
    else if o.Inherited? then Some("")
    else if index.Null? || index.Undefined? then None
    else Some(ToJsString(index))
  }

  /** The texts of all selected indices, or `None` when one of them throws. */
  function IndexTexts(options: seq<QuizOption>, items: seq<Value>): (r: Option<seq<string>>)
    ensures r.None? <==> exists i :: 0 <= i < |items| && IndexText(options, items[i]).None?
    ensures r.Some? ==> |r.value| == |items|
    ensures r.Some? ==> forall i :: 0 <= i < |items| ==> r.value[i] == IndexText(options, items[i]).value
  {
    if items == [] then Some([])
    else
      var head := IndexText(options, items[0]);
      var tail := IndexTexts(options, items[1..]);
      assert forall i :: 1 <= i < |items| ==> items[i] == items[1..][i - 1];
      if head.None? then None
      else if tail.None? then None
      else Some([head.value] + tail.value)
  }

  /** The text of a selected option for multiple-choice and true-false: the
      option's text, "undefined" for an inherited member, else the answer. */
  function ChoiceText(options: seq<QuizOption>, v: Value): string {
    match OptionAt(options, v)
    case Element(o) => o.text
    case Inherited => "undefined"
    case Absent => ToJsString(v)
  }

  /** `getAnswerText`: "Not answered" without an answer; for multiple-choice and
      true-false the selected option's text; for select-all the selected texts
      joined with ", "; otherwise the answer as a string. `None` stands for
      the exception a `null` element of a select-all answer raises. */
  function AnswerText(q: Question, a: Option<PrintedAnswer>): (r: Option<string>)
    ensures !HasAnswer(a) ==> r == Some("Not answered")
    ensures HasAnswer(a) && (q.qtype == "multiple-choice" || q.qtype == "true-false") ==>
      var slot := OptionAt(q.options, a.value.answer);
      r == Some(if slot.Element? then slot.option.text
                else if slot.Inherited? then "undefined"
                else ToJsString(a.value.answer))
    ensures HasAnswer(a) && q.qtype == "select-all" && a.value.answer.Arr? ==>
      var texts := IndexTexts(q.options, a.value.answer.items);
      r == if texts.Some? then Some(Join(texts.value, ", ")) else None
    ensures r.None? ==> q.qtype == "select-all" && a.value.answer.Arr?
  {
    if !HasAnswer(a) then Some("Not answered")
    else
      var v := a.value.answer;
      if q.qtype == "multiple-choice" || q.qtype == "true-false" then Some(ChoiceText(q.options, v))
      else if q.qtype == "select-all" && v.Arr? then
        var texts := IndexTexts(q.options, v.items);
        if texts.Some? then Some(Join(texts.value, ", ")) else None
      else Some(ToJsString(v))
  }

  /** A select-all answer that stored an option text naming an array member
      (as "map") prints nothing for it: `options["map"]` is the inherited
      method, and its `.text` is `undefined`. */
  lemma SelectAllMemberTextPrintsEmpty(q: Question, a: PrintedAnswer, name: string)
    requires q.qtype == "select-all" && ArrayMember(name) && name != "length"
    requires a.answer == Arr([Str(name)])
    ensures AnswerText(q, Some(a)) == Some("")
  {
    var items := [Str(name)];
    assert IndexText(q.options, items[0]) == Some("");
    assert items[1..] == [];
    assert IndexTexts(q.options, items[1..]) == Some([]);
    assert [""] + [] == [""];
    assert IndexTexts(q.options, items) == Some([""]);
  }

  /** The same answer to a multiple-choice question prints "undefined". */
  lemma ChoiceMemberTextPrintsUndefined(q: Question, a: PrintedAnswer, name: string)
    requires q.qtype == "multiple-choice" && ArrayMember(name) && name != "length"
    requires a.answer == Str(name)
    ensures AnswerText(q, Some(a)) == Some("undefined")
  {
  }

  /** The texts of the options marked correct, in order. */
  function CorrectTexts(options: seq<QuizOption>): (r: seq<string>)
    ensures |r| <= |options|
  {
    if options == [] then []
    else (if options[0].isCorrect then [options[0].text] else []) + CorrectTexts(options[1..])
  }

  /** The position of the first option marked correct. */
  function FirstCorrect(options: seq<QuizOption>): (r: Option<nat>)
    ensures r.None? <==> forall i :: 0 <= i < |options| ==> !options[i].isCorrect
    ensures r.Some? ==> r.value < |options| && options[r.value].isCorrect
    ensures r.Some? ==> forall j :: 0 <= j < r.value ==> !options[j].isCorrect
  {
    if options == [] then None
    else if options[0].isCorrect then Some(0)
    else
      var r := FirstCorrect(options[1..]);
      assert forall i :: 1 <= i < |options| ==> options[i] == options[1..][i - 1];
      if r.None? then None else Some(r.value + 1)
  }

  /** With no option marked correct the select-all text is empty. */
  lemma {:induction false} CorrectTextsEmpty(options: seq<QuizOption>)
    ensures CorrectTexts(options) == [] <==> FirstCorrect(options).None?
  {
    if options != [] {
      CorrectTextsEmpty(options[1..]);
    }
  }

  /** `getCorrectAnswerText`. */
  function CorrectAnswerText(q: Question): (r: string)
    ensures q.qtype == "multiple-choice" ==>
      r == if FirstCorrect(q.options).Some? then q.options[FirstCorrect(q.options).value].text else "N/A"
    ensures q.qtype == "true-false" ==> r == if Truthy(q.correctAnswer) then "True" else "False"
    ensures q.qtype == "select-all" ==> r == Join(CorrectTexts(q.options), ", ")
    ensures q.qtype != "multiple-choice" && q.qtype != "true-false" && q.qtype != "select-all" ==>
      r == if Truthy(q.correctAnswer) then ToJsString(q.correctAnswer) else "N/A"
  {
    if q.qtype == "multiple-choice" then
      var k := FirstCorrect(q.options);
      if k.Some? then q.options[k.value].text else "N/A"
    else if q.qtype == "true-false" then (if Truthy(q.correctAnswer) then "True" else "False")
    else if q.qtype == "select-all" then Join(CorrectTexts(q.options), ", ")
    else if Truthy(q.correctAnswer) then ToJsString(q.correctAnswer)
    else "N/A"
  }

  /** The PASS/FAIL status: PASS iff the percentage reaches `passingScore || 70`;
      a missing (or NaN) percentage never passes. */
  predicate Passes(percentage: Option<real>, passingScore: Option<int>) {
    percentage.Some? && percentage.value >= OrDefault(passingScore, 70) as real
  }

  /** Passing is monotone in the percentage, and 70 is the default threshold. */
  lemma PassesMonotone(p1: real, p2: real, passingScore: Option<int>)
    requires p1 <= p2 && Passes(Some(p1), passingScore)
    ensures Passes(Some(p2), passingScore)
    ensures passingScore.None? ==> p2 >= 70.0
  {
  }

  datatype QuestionStatus = Correct | Incorrect | NotAnswered

  /** One question's block: its number, status, text, the given answer, the
      correct answer when it is shown, and the points line. */
  datatype Block = Block(
    number: nat,
    status: QuestionStatus,
    text: string,
    yourAnswer: Option<string>,
    correctAnswer: Option<string>,
    earned: int,
    worth: int)

  /** `submission.answers.find(a => a.questionId === id)`. */
  function FindAnswer(answers: seq<PrintedAnswer>, id: Id): (r: Option<PrintedAnswer>)
    ensures r.Some? ==> r.value in answers && r.value.questionId == id
    ensures r.None? ==> forall i :: 0 <= i < |answers| ==> answers[i].questionId != id
  {
    if answers == [] then None
    else if answers[0].questionId == id then Some(answers[0])
    else
      var r := FindAnswer(answers[1..], id);
      assert forall i :: 1 <= i < |answers| ==> answers[i] == answers[1..][i - 1];
      r
  }

  /** The block for the question at `index`. */
  function QuestionBlock(index: nat, q: Question, answers: seq<PrintedAnswer>): (b: Block)
    ensures b.number == index + 1
    ensures b.status == NotAnswered <==> !HasAnswer(FindAnswer(answers, q.id))
    ensures b.status == Correct <==> HasAnswer(FindAnswer(answers, q.id)) && Truthy(FindAnswer(answers, q.id).value.isCorrect)
    ensures b.correctAnswer.Some? <==> b.status == Incorrect
    ensures b.correctAnswer.Some? ==> b.correctAnswer.value == CorrectAnswerText(q)
    ensures b.worth == PointsOf(q)
  {
    var a := FindAnswer(answers, q.id);
    var isCorrect := a.Some? && Truthy(a.value.isCorrect);
    var status := if !HasAnswer(a) then NotAnswered else if isCorrect then Correct else Incorrect;
    Block(index + 1, status, q.text, AnswerText(q, a),
          if status == Incorrect then Some(CorrectAnswerText(q)) else None,
          if a.Some? then OrDefault(a.value.pointsEarned, 0) else 0,
          PointsOf(q))
  }

  /** The blocks of all questions, in order. */
  function Blocks(questions: seq<Question>, answers: seq<PrintedAnswer>): (r: seq<Block>)
    ensures |r| == |questions|
    ensures forall k :: 0 <= k < |questions| ==> r[k] == QuestionBlock(k, questions[k], answers)
  {
    seq(|questions|, k requires 0 <= k < |questions| => QuestionBlock(k, questions[k], answers))
  }

  /** The loop of `generateQuizResultsHtml`: one block appended per question. */
  method GenerateBlocks(questions: seq<Question>, answers: seq<PrintedAnswer>) returns (html: seq<Block>)
    ensures html == Blocks(questions, answers)
  {
    html := [];
    for index := 0 to |questions|
      invariant html == Blocks(questions[..index], answers)
    {
      html := html + [QuestionBlock(index, questions[index], answers)];
    }
    assert questions[..|questions|] == questions;
  }

  /** Question k is headed "Question k+1", and a correct answer is printed only
      for an answered question that is not correct. */
  lemma BlocksNumberedAndRevealOnlyWhenWrong(questions: seq<Question>, answers: seq<PrintedAnswer>, k: nat)
    requires k < |questions|
    ensures Blocks(questions, answers)[k].number == k + 1
    ensures Blocks(questions, answers)[k].correctAnswer.Some? <==>
      HasAnswer(FindAnswer(answers, questions[k].id)) && !Truthy(FindAnswer(answers, questions[k].id).value.isCorrect)
  {
  }

  /** The student's name line: first name, else username, else "Unknown". */
  function StudentName(firstName: string, username: string): (r: string)
    ensures firstName != "" ==> r == firstName
    ensures firstName == "" && username != "" ==> r == username
    ensures r != ""
  {
    if firstName != "" then firstName else if username != "" then username else "Unknown"
  }
}
