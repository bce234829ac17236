/** The printable blank quiz of test-quiz-print.js: `generateQuizHtml` appends
    a header, then for each question a numbered block whose options are
    lettered (multiple choice, true/false), boxed (select-all) or replaced by
    an answer space, and finally the closing tags. The stylesheet in the
    `<head>` and the whitespace between tags are not modelled. */
module QuizPrint {
  import opened Common
  import opened Text

  datatype PrintOption = PrintOption(text: Value, isCorrect: Value)

  /** A question as the generator receives it; `options` is `None` when the
      question has none (`undefined`). */
  datatype PrintQuestion = PrintQuestion(question: Value, qtype: Value, options: Option<seq<PrintOption>>, correctAnswer: Value)

  /** `questions` is `None` when the quiz has none (`undefined`). */
  datatype PrintQuiz = PrintQuiz(title: Value, description: Value, questions: Option<seq<PrintQuestion>>)

  const Instructions: string :=
    "Please answer all questions. For multiple choice questions, select the best answer. "
    + "For select-all questions, choose all that apply. For open-ended questions, provide detailed responses."

  /** `String.fromCharCode(65 + i)`: the code unit `(65 + i) mod 65536`; a lone
      surrogate code unit, which a Dafny `char` cannot hold, becomes U+FFFD. */
  function Letter(i: nat): (c: char)
    ensures i < 26 ==> c == "ABCDEFGHIJKLMNOPQRSTUVWXYZ"[i]
  {
    var code := (65 + i) % 65536;
    if 0xD800 <= code < 0xE000 then '�' else code as char
  }

  /** The first 26 options get distinct letters, in alphabetical order. */
  lemma LettersInOrder(i: nat, j: nat)
    requires i < j < 26
    ensures Letter(i) < Letter(j)
  {
    assert Letter(i) == (65 + i) as char && Letter(j) == (65 + j) as char;
  }

  /** `quiz.description || 'No description'`. */
  function DescriptionText(d: Value): (r: string)
    ensures Truthy(d) ==> r == ToJsString(d)
    ensures !Truthy(d) ==> r == "No description"
  {
    if Truthy(d) then ToJsString(d) else "No description"
  }

  /** `quiz.questions?.length || 0`. */
  function CountText(questions: Option<seq<PrintQuestion>>): (r: string)
    ensures questions.Some? ==> r == NatToString(|questions.value|)
    ensures questions.None? ==> r == "0"
  {
    NatToString(if questions.Some? then |questions.value| else 0)
  }

  /** The header: title, description, question count and instructions. */
  function Head(quiz: PrintQuiz): string {
    "<html><head><title>" + ToJsString(quiz.title) + "</title></head><body>"
    + "<div class=\"header\"><h1>" + ToJsString(quiz.title) + "</h1>"
    + "<div class=\"quiz-info\"><strong>Description:</strong> " + DescriptionText(quiz.description) + "</div>"
    + "<div class=\"quiz-info\"><strong>Total Questions:</strong> " + CountText(quiz.questions) + "</div></div>"
    + "<div class=\"instructions\"><strong>Instructions:</strong> " + Instructions + "</div>"
  }

  const Tail: string := "</body></html>"

  /** The opening of the block of the question at `index`. */
  function QuestionOpen(index: nat, q: PrintQuestion): (r: string)
    ensures ("<div class=\"question\"><div class=\"question-number\">Question " + NatToString(index + 1) + "</div>") <= r
  {
    "<div class=\"question\"><div class=\"question-number\">Question " + NatToString(index + 1) + "</div>"
    + "<div class=\"question-text\">" + ToJsString(q.question) + "</div><div class=\"options\">"
  }

  const OptionStart: string := "<div class=\"option\"><span class=\"option-letter\">"

  /** Option `i` of a multiple-choice or true/false question. */
  function LetterOption(i: nat, o: PrintOption): (r: string)
    ensures (OptionStart + [Letter(i), '.']) <= r
  {
    OptionStart + [Letter(i)] + ".</span> " + ToJsString(o.text) + "</div>"
  }

  /** An option of a select-all question, with its empty box. */
  function BoxOption(o: PrintOption): (r: string)
    ensures (OptionStart + "□") <= r
  {
    OptionStart + "□</span> " + ToJsString(o.text) + "</div>"
  }

  const AnswerSpace: string := "<div class=\"open-ended\">Answer:</div>"

  const QuestionClose: string := "</div></div>"

  /** The lettered options, option `i` labelled with `Letter(i)`. */
  function LetterOptions(opts: seq<PrintOption>): string
    decreases |opts|
  {
    if opts == [] then "" else LetterOptions(opts[..|opts| - 1]) + LetterOption(|opts| - 1, opts[|opts| - 1])
  }

  /** The boxed options. */
  function BoxOptions(opts: seq<PrintOption>): string
    decreases |opts|
  {
    if opts == [] then "" else BoxOptions(opts[..|opts| - 1]) + BoxOption(opts[|opts| - 1])
  }

  predicate IsLettered(q: PrintQuestion) {
    StrictEq(q.qtype, Str("multiple-choice")) || StrictEq(q.qtype, Str("true-false"))
  }

  predicate IsSelectAll(q: PrintQuestion) {
    StrictEq(q.qtype, Str("select-all"))
  }

  function OptionsOf(q: PrintQuestion): seq<PrintOption> {
    if q.options.Some? then q.options.value else []
  }

  /** What goes between a question's opening and closing: its options or the
      answer space. */
  function QuestionBody(q: PrintQuestion): (r: string)
    ensures IsLettered(q) ==> r == LetterOptions(OptionsOf(q))
    ensures !IsLettered(q) && IsSelectAll(q) ==> r == BoxOptions(OptionsOf(q))
    ensures !IsLettered(q) && !IsSelectAll(q) ==> r == AnswerSpace
  {
    if IsLettered(q) then LetterOptions(OptionsOf(q))
    else if IsSelectAll(q) then BoxOptions(OptionsOf(q))
    else AnswerSpace
  }

  function QuestionHtml(index: nat, q: PrintQuestion): string {
    QuestionOpen(index, q) + QuestionBody(q) + QuestionClose
  }

  /** The blocks of the questions, question `k` numbered `k + 1`. */
  function QuestionsHtml(qs: seq<PrintQuestion>): string
    decreases |qs|
  {
    if qs == [] then "" else QuestionsHtml(qs[..|qs| - 1]) + QuestionHtml(|qs| - 1, qs[|qs| - 1])
  }

  /** The page `generateQuizHtml` returns. */
  function QuizHtml(quiz: PrintQuiz): string {
    Head(quiz) + (if quiz.questions.Some? then QuestionsHtml(quiz.questions.value) else "") + Tail
  }

  /** `generateQuizHtml`: appends the header, each question's block, and the
      closing tags. */
  method GenerateQuizHtml(quiz: PrintQuiz) returns (html: string)
    ensures html == QuizHtml(quiz)
  {
    var head := Head(quiz);
    html := head;
    if quiz.questions.Some? && |quiz.questions.value| > 0 {
      html := AppendQuestions(html, quiz.questions.value);
    } else {
      AppendNothing(head);
    }
    html := html + Tail;
  }

  /** The `forEach` over the questions: each question's block appended in turn. */
  method AppendQuestions(start: string, qs: seq<PrintQuestion>) returns (html: string)
    ensures html == start + QuestionsHtml(qs)
  {
    html := start;
    for index := 0 to |qs|
      invariant html == start + QuestionsHtml(qs[..index])
    {
      var block := QuestionBlock(index, qs[index]);
      QuestionsStep(qs, index);
      AppendAssoc(start, QuestionsHtml(qs[..index]), block);
      html := html + block;
    }
    WholeSlice(qs);
  }

  lemma WholeSlice<T>(s: seq<T>)
    ensures s[..|s|] == s
  {
  }

  lemma AppendNothing(a: string)
    ensures a + "" == a
  {
  }

  lemma PrefixOfAppend(x: string, z: string)
    ensures x <= x + z
  {
    assert (x + z)[..|x|] == x;
  }

  lemma PrefixTrans(a: string, b: string, c: string)
    requires a <= b && b <= c
    ensures a <= c
  {
    assert c[..|b|] == b;
    assert b[..|a|] == a;
    assert c[..|a|] == c[..|b|][..|a|];
  }

  lemma AppendAssoc(a: string, b: string, c: string)
    ensures (a + b) + c == a + (b + c)
  {
  }

  lemma QuestionsStep(qs: seq<PrintQuestion>, index: nat)
    requires index < |qs|
    ensures QuestionsHtml(qs[..index + 1]) == QuestionsHtml(qs[..index]) + QuestionHtml(index, qs[index])
  {
    assert qs[..index + 1][..index] == qs[..index];
  }

  /** The body of the `forEach` callback: the block of one question, its
      options appended one by one. */
  method QuestionBlock(index: nat, q: PrintQuestion) returns (block: string)
    ensures block == QuestionHtml(index, q)
  {
    block := QuestionOpen(index, q);
    var body := "";
    if IsLettered(q) {
      if q.options.Some? && |q.options.value| > 0 {
        body := AppendLetterOptions(q.options.value);
      }
    } else if IsSelectAll(q) {
      if q.options.Some? && |q.options.value| > 0 {
        body := AppendBoxOptions(q.options.value);
      }
    } else {
      body := AnswerSpace;
    }
    block := block + body + QuestionClose;
  }

  /** The `forEach` over a lettered question's options. */
  method AppendLetterOptions(opts: seq<PrintOption>) returns (body: string)
    ensures body == LetterOptions(opts)
  {
    body := "";
    for optIndex := 0 to |opts|
      invariant body == LetterOptions(opts[..optIndex])
    {
      assert opts[..optIndex + 1][..optIndex] == opts[..optIndex];
      body := body + LetterOption(optIndex, opts[optIndex]);
    }
    WholeSlice(opts);
  }

  /** The `forEach` over a select-all question's options. */
  method AppendBoxOptions(opts: seq<PrintOption>) returns (body: string)
    ensures body == BoxOptions(opts)
  {
    body := "";
    for optIndex := 0 to |opts|
      invariant body == BoxOptions(opts[..optIndex])
    {
      assert opts[..optIndex + 1][..optIndex] == opts[..optIndex];
      body := body + BoxOption(opts[optIndex]);
    }
    WholeSlice(opts);
  }

  /** Question `k`'s block, with its "Question k+1" heading, sits in the page
      right after the header and the blocks of the questions before it. */
  lemma QuestionBlockInPlace(quiz: PrintQuiz, k: nat)
    requires quiz.questions.Some? && k < |quiz.questions.value|
    ensures var qs := quiz.questions.value;
      (Head(quiz) + QuestionsHtml(qs[..k]) + QuestionHtml(k, qs[k])) <= QuizHtml(quiz)
    ensures ("<div class=\"question\"><div class=\"question-number\">Question " + NatToString(k + 1) + "</div>")
      <= QuestionHtml(k, quiz.questions.value[k])
  {
    var qs := quiz.questions.value;
    var before, block := QuestionsHtml(qs[..k]), QuestionHtml(k, qs[k]);
    QuestionsPrefix(qs, k + 1);
    QuestionsStep(qs, k);
    BlockInPage(Head(quiz), before, block, QuestionsHtml(qs), Tail, QuizHtml(quiz));
    QuestionHeading(k, qs[k]);
  }

  /** A question's block opens with its "Question k+1" heading. */
  lemma QuestionHeading(k: nat, q: PrintQuestion)
    ensures ("<div class=\"question\"><div class=\"question-number\">Question " + NatToString(k + 1) + "</div>")
      <= QuestionHtml(k, q)
  {
    var open, body := QuestionOpen(k, q), QuestionBody(q);
    PrefixOfAppend(open, body);
    PrefixOfAppend(open + body, QuestionClose);
    PrefixTrans(open, open + body, open + body + QuestionClose);
    PrefixTrans("<div class=\"question\"><div class=\"question-number\">Question " + NatToString(k + 1) + "</div>",
      open, open + body + QuestionClose);
  }

  lemma BlockInPage(h: string, before: string, block: string, all: string, t: string, page: string)
    requires before + block <= all && page == h + all + t
    ensures h + before + block <= page
  {
    assert page[..|h| + |before| + |block|] == h + before + block;
  }

  lemma {:induction false} QuestionsPrefix(qs: seq<PrintQuestion>, n: nat)
    requires n <= |qs|
    ensures QuestionsHtml(qs[..n]) <= QuestionsHtml(qs)
    decreases |qs| - n
  {
    if n < |qs| {
      QuestionsPrefix(qs, n + 1);
      assert qs[..n + 1][..n] == qs[..n];
    } else {
      assert qs[..n] == qs;
    }
  }

  /** The header shows the title, the description (or "No description") and
      the number of questions, in that order, at the start of the page. */
  lemma HeaderShowsQuizInfo(quiz: PrintQuiz)
    ensures ("<html><head><title>" + ToJsString(quiz.title) + "</title></head><body>"
      + "<div class=\"header\"><h1>" + ToJsString(quiz.title) + "</h1>"
      + "<div class=\"quiz-info\"><strong>Description:</strong> " + DescriptionText(quiz.description) + "</div>"
      + "<div class=\"quiz-info\"><strong>Total Questions:</strong> " + CountText(quiz.questions)) <= QuizHtml(quiz)
  {
    var info := "<html><head><title>" + ToJsString(quiz.title) + "</title></head><body>"
      + "<div class=\"header\"><h1>" + ToJsString(quiz.title) + "</h1>"
      + "<div class=\"quiz-info\"><strong>Description:</strong> " + DescriptionText(quiz.description) + "</div>"
      + "<div class=\"quiz-info\"><strong>Total Questions:</strong> " + CountText(quiz.questions);
    var middle := if quiz.questions.Some? then QuestionsHtml(quiz.questions.value) else "";
    PrefixOfSix(info, "</div></div>", "<div class=\"instructions\"><strong>Instructions:</strong> ", Instructions, "</div>",
      middle, Tail);
  }

  lemma PrefixOfSix(x: string, a: string, b: string, c: string, d: string, e: string, f: string)
    ensures x <= x + a + b + c + d + e + f
  {
    var xa := x + a;
    var xab := xa + b;
    var xabc := xab + c;
    var xabcd := xabc + d;
    var xabcde := xabcd + e;
    PrefixOfAppend(x, a);
    PrefixOfAppend(xa, b);
    PrefixTrans(x, xa, xab);
    PrefixOfAppend(xab, c);
    PrefixTrans(x, xab, xabc);
    PrefixOfAppend(xabc, d);
    PrefixTrans(x, xabc, xabcd);
    PrefixOfAppend(xabcd, e);
    PrefixTrans(x, xabcd, xabcde);
    PrefixOfAppend(xabcde, f);
    PrefixTrans(x, xabcde, xabcde + f);
  }

  /** The answer key with every `correctAnswer` and `isCorrect` erased. */
  function EraseOption(o: PrintOption): PrintOption {
    o.(isCorrect := Undefined)
  }

  function EraseQuestion(q: PrintQuestion): PrintQuestion {
    q.(correctAnswer := Undefined,
       options := if q.options.Some? then Some(seq(|q.options.value|, i requires 0 <= i < |q.options.value| => EraseOption(q.options.value[i]))) else None)
  }

  function EraseQuiz(quiz: PrintQuiz): PrintQuiz {
    quiz.(questions := if quiz.questions.Some? then Some(seq(|quiz.questions.value|, i requires 0 <= i < |quiz.questions.value| => EraseQuestion(quiz.questions.value[i]))) else None)
  }

  /** The page never depends on the answer key: the printed quiz is the same
      with every correct answer erased, so none can be shown. */
  lemma AnswerKeyNotPrinted(quiz: PrintQuiz)
    ensures QuizHtml(EraseQuiz(quiz)) == QuizHtml(quiz)
  {
    if quiz.questions.Some? {
      var qs := quiz.questions.value;
      var es := EraseQuiz(quiz).questions.value;
      QuestionsErased(qs, es);
    }
  }

  lemma {:induction false} QuestionsErased(qs: seq<PrintQuestion>, es: seq<PrintQuestion>)
    requires |es| == |qs| && forall i :: 0 <= i < |qs| ==> es[i] == EraseQuestion(qs[i])
    ensures QuestionsHtml(es) == QuestionsHtml(qs)
    decreases |qs|
  {
    if qs != [] {
      var n := |qs| - 1;
      QuestionsErased(qs[..n], es[..n]);
      BodyErased(qs[n]);
    }
  }

  lemma BodyErased(q: PrintQuestion)
    ensures QuestionBody(EraseQuestion(q)) == QuestionBody(q)
  {
    var e := EraseQuestion(q);
    OptionsErased(OptionsOf(q), OptionsOf(e));
  }

  lemma {:induction false} OptionsErased(os: seq<PrintOption>, es: seq<PrintOption>)
    requires |es| == |os| && forall i :: 0 <= i < |os| ==> es[i] == EraseOption(os[i])
    ensures LetterOptions(es) == LetterOptions(os) && BoxOptions(es) == BoxOptions(os)
    decreases |os|
  {
    if os != [] {
      var n := |os| - 1;
      OptionsErased(os[..n], es[..n]);
    }
  }
}
