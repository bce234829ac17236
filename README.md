# QuizKnow in Dafny

A model of the core of QuizKnow, a quiz and learning-content platform. It has an
Express/Mongoose server and a React client. Instructors write quizzes and
content. They assign them to the students connected to them and review the
results. Students take quizzes in timed sessions and read their results. Admins
approve instructors and suspend or delete users.

The model covers:

- the server's route handlers (`routes/*.js`), each as a class whose fields are
  the collections the handler reads and writes, with methods that change them;
- the pure rules beside the handlers, as functions with contracts: access
  guards, roster eligibility, grading, score rounding, listings and the
  deletion cascade;
- the Mongoose schemas the core relies on (Content, ContentView, QuizSession):
  validation, defaults and computed fields;
- the upload configuration of `server.js`;
- the one-off repair script `fix-submitted-at.js`, a loop over the
  submissions;
- the client's state logic: the quiz reducer, the quiz editor and wizard, the
  answer inputs, the student and instructor pickers, the results and review
  pages, the countdown timer, the modal counter and the two printable pages.

One module per source file, plus three shared ones:

- `Common`: identifiers, `Option`/`Result`, HTTP statuses, dynamic JavaScript
  values with `===`, truthiness and `Math.round` as integer arithmetic;
- `Text`: lower-casing, trimming, `split`/`join`, decimal printing, `parseInt`;
- `Domain`: the stored records whose schemas are not part of this model.

Each operation has a partner: an inverse (formatting and reading back a time
or a chip, showing and re-parsing an answer field), an invariant it keeps (one
answer per question, the option count between two and six, an active admin
always remains, the unique view index), or a reference definition that a
method with a loop is proved against (`FixSubmittedAt`, `GenerateQuizHtml`,
`Countdown.Elapse`, `ModalProvider.Dispatch`).

Conventions used throughout:

- Percentages follow `Math.round` on non-negative ratios and are written as
  `(200 * s + m) / (2 * m)`.
- Clock values are natural numbers.
- A JavaScript exception inside a handler's `try` is a 500.
- A value that would be NaN or a thrown TypeError is an explicit case of the
  result type.

## Model

| member | source | states |
|---|---|---|
| Common.StrictEqMeansPrimitiveEqual | routes/quiz.js:491 | `===` holds iff both values are the same primitive; arrays and objects are never strictly equal |
| Common.OrDefault | routes/quiz.js:315-316 | `x \|\| d` keeps a present non-zero number and falls back to `d` otherwise |
| Common.RoundDiv | models/QuizSession.js:84 | `Math.round(num / den)` is the integer nearest the quotient, halves rounded up |
| Common.Percent | routes/quiz.js:229 | `Math.round(s / m * 100)` is the percentage rounded to the nearest integer, halves up |
| Common.PercentBounds | routes/quiz.js:229 | a share of at most the whole rounds to between 0 and 100 |
| Common.PercentMonotone | routes/quiz.js:229 | the rounded percentage never decreases as the score grows |
| Common.RoundedPercent | models/QuizSession.js:84 | NaN or Infinity (none) exactly for a zero total; a share between 0 and the total gives 0 to 100 |
| Common.RealPercent | routes/submissions.js:45 | `(num / den) * 100` is defined iff the total is non-zero, and lies in 0..100 for a share of it |
| Common.CountWhere | routes/users.js:242 | `s.filter(p).length` is at most the length of `s` |
| Common.CountWhereAgrees | client/src/pages/QuizResultsPage.jsx:146-191 | two lists whose entries pass their tests position by position give the same count |
| Common.Keep | client/src/components/common/StudentSelector.jsx:37-42 | `filter` keeps exactly the elements that pass, without growing |
| Common.RemoveAt | client/src/components/quiz/QuizCreator.jsx:96-101 | removing an index in range splices it out; an index out of range changes nothing |
| Common.Without | client/src/components/quiz/QuestionRenderer.jsx:76 | the element is gone and every other element is kept |
| Common.WithoutAppend | client/src/components/quiz/QuestionRenderer.jsx:72-77 | removing from a concatenation removes from each part |
| Common.WithoutAbsent | client/src/components/quiz/QuestionRenderer.jsx:72-77 | removing an element that is not there changes nothing |
| Common.DistinctCardinality | routes/content.js:194 | a list without repeats has as many distinct elements as entries |
| AuthRoutes.Username | routes/auth.js:14 | the username has no whitespace and is the space-free, lower-cased first name followed by the last name |
| AuthRoutes.RemoveSpacesLower | routes/auth.js:14 | removing whitespace and lower-casing commute |
| AuthRoutes.UsernameOfNames | routes/auth.js:14 | the username is the lower-cased, space-free concatenation of the two names |
| AuthRoutes.UsernamesCollide | routes/auth.js:14-25 | "Jo Ann" and "Joa Nn" derive the same username "joann" |
| AuthRoutes.FirstMatching | routes/auth.js:17-19 | none iff no user has the email or the username; otherwise a user that has one of them |
| AuthRoutes.RegisterRefusal | routes/auth.js:11-66 | a missing name or email is a 500; otherwise accepted iff no user has the lower-cased email or the derived username, else 400 |
| AuthRoutes.NewUser | routes/auth.js:35-41 | the stored user has the derived username, the email as posted, the requested role, and is not suspended |
| AuthRoutes.FindByEmail | routes/auth.js:84 | none iff no user has the email; otherwise the first user that has it |
| AuthRoutes.CredentialsRefusal | routes/auth.js:89-103 | accepted iff the password matches, the account is active and an instructor is approved; each refusal in check order |
| AuthRoutes.Login | routes/auth.js:70-128 | "Email is required" iff the email is missing or blank, then "Password is required", then "User not found"; a login is the first user with the trimmed lower-cased email whose credentials pass |
| AuthRoutes.OnlyInstructorsNeedApproval | routes/auth.js:100-103 | an active student or admin with the right password logs in whatever their approval flag |
| AuthRoutes.LowerKeepsTrimmed | routes/auth.js:84 | lower-casing a string without surrounding whitespace keeps it trimmed |
| AuthRoutes.RegisterThenLogin | routes/auth.js:9-128 | an accepted registration whose email is already lower-case and trimmed can log in at once with the same email and password (an instructor only when approved by default) |
| AuthRoutes.RegisteredMixedCaseNotFound | routes/auth.js:35-88 | an accepted registration whose email has an upper-case letter is not found by a login with that email: the email is stored as posted and looked up lower-cased |
| AuthRoutes.LowerNotStored | routes/auth.js:16-18 | after an accepted registration whose email is not lower-case, no stored email equals the lower-cased one |
| AuthRoutes.RegisterKeepsUsernamesUnique | routes/auth.js:16-25 | an accepted registration keeps usernames unique |
| AuthRoutes.AuthApi.Register | routes/auth.js:9-67 | refused iff RegisterRefusal refuses, with its status and no change; otherwise the new user is appended and its position returned |
| AuthRoutes.AuthApi.LoginHere | routes/auth.js:70-128 | a login names a stored user whose password is the one given |
| Text.LowerChar | routes/auth.js:14 | the lower-cased character is never an upper-case ASCII letter, and every other character is unchanged |
| Text.Lower | routes/auth.js:14 | `toLowerCase` keeps the length and lower-cases each character in place |
| Text.LowerAppend | routes/auth.js:14 | lower-casing a concatenation lower-cases each part |
| Text.RemoveSpaces | routes/auth.js:14 | `replace(/\s+/g, '')` leaves no whitespace and never lengthens the string |
| Text.RemoveSpacesAppend | routes/auth.js:14 | removing whitespace from a concatenation removes it from each part |
| Text.RemoveSpacesKeepsSpaceFree | routes/auth.js:14 | a string without whitespace is unchanged |
| Text.TrimStart | routes/auth.js:84 | the result is a suffix of the input that does not start with whitespace, and only whitespace was dropped |
| Text.TrimEnd | routes/auth.js:84 | the result is a prefix of the input that does not end with whitespace, and only whitespace was dropped |
| Text.Trim | routes/auth.js:75-84 | `trim` neither starts nor ends with whitespace |
| Text.TrimEmpty | routes/auth.js:75 | `trim` is empty iff the string is all whitespace |
| Text.TrimOfTrimmed | routes/auth.js:84 | a string without surrounding whitespace is its own trim |
| Text.TrimLeadingSpace | client/src/components/quiz/QuestionBuilder.jsx:201-202 | the space that `join(', ')` puts in front of a trimmed answer is removed by `trim` |
| Text.Split | client/src/components/quiz/QuestionBuilder.jsx:202 | `split(c)` gives at least one piece and no piece contains `c` |
| Text.SplitAfterPiece | client/src/components/quiz/QuestionBuilder.jsx:202 | a separator-free piece followed by the separator splits off as the first piece |
| Text.SplitOfPiece | client/src/components/quiz/QuestionBuilder.jsx:202 | a string without the separator splits into itself |
| Text.SplitJoin | client/src/components/quiz/QuestionBuilder.jsx:201-202 | splitting a join on a one-character separator gives back the pieces when none contains it |
| Text.NatToString | client/src/pages/QuizResultsPage.jsx:80 | `String(n)` is a non-empty run of digits without a leading zero |
| Text.IntToString | client/src/components/quiz/QuizCreator.jsx:216 | `String(i)` is never empty |
| Text.DigitsOfNat | client/src/pages/QuizResultsPage.jsx:80 | the printed digits of a number read back as that number |
| Text.LeadingZero | client/src/components/quiz/Timer.jsx:34-36 | a leading zero does not change the value of a digit string |
| Text.DigitPrefixLen | client/src/components/quiz/QuestionRenderer.jsx:200 | the longest all-digit prefix: within the string, all digits, followed by a non-digit or nothing |
| Text.DigitPrefixOfDigits | client/src/components/quiz/QuestionRenderer.jsx:200 | digits followed by a non-digit make exactly that digit prefix |
| Text.LeadingNumberOfDigits | client/src/components/quiz/QuestionRenderer.jsx:200 | a digit string reads as its own value |
| Text.ParseIntOfNat | client/src/components/quiz/QuestionRenderer.jsx:200 | `parseInt` reads back a printed non-negative number |
| Text.NoSpaceNoSign | client/src/components/quiz/QuestionRenderer.jsx:200 | a string that starts with a digit is read from its first character |
| Text.ParseIntOfInt | client/src/components/quiz/QuizCreator.jsx:216 | `parseInt` reads back any printed integer, sign included |
| Text.CanonicalIndex | client/src/utils/printResults.js:30-31 | a property key that names an array element is a non-empty digit string |
| Text.CanonicalIndexOfNat | client/src/utils/printResults.js:30-31 | the decimal form of `n` names element `n` |
| Text.PadStart2 | client/src/pages/QuizResultsPage.jsx:80 | `padStart(2, '0')` ends with the input, is at least two long, and is padded with zeros in front |
| Text.TwoDigits | client/src/components/quiz/Timer.jsx:34-36 | a number below 100 padded to two digits is two digits that read back as the number |
| Domain.PointsOf | routes/quiz.js:493 | `q.points \|\| 1`: the stored points when present and non-zero, otherwise 1 |
| Domain.QuestionIndex | routes/quiz.js:488 | none iff no question has the id; otherwise the first question with it |
| Domain.FindQuestion | routes/submissions.js:33 | a question found has the id looked for |
| Domain.FirstRosterIndex | routes/submissions.js:61-63 | none iff the student is not on the roster; otherwise the student's first entry |
| Domain.NewEntries | routes/quiz.js:189-192 | one new roster entry per id, in order, with no submission stamp |
| Domain.PatchQuiz | routes/quiz.js:123-124 | every path the body carries is set on the quiz, the whole settings object included, and every other path keeps its stored value |
| Domain.EmptyQuizPatchIsIdentity | routes/quizzes.js:158-162 | an empty body leaves the quiz as it is |
| Domain.PatchKeepsRoster | routes/quizzes.js:158-162 | a body without `students` keeps the roster, its assignments and their stamps |
| QuizSessionModel.StatusName | models/QuizSession.js:46-50 | each status is stored under its own name |
| QuizSessionModel.ParseStatus | models/QuizSession.js:46-50 | the enum accepts a name only if it is the name of the status returned |
| QuizSessionModel.ParseStatusName | models/QuizSession.js:46-50 | every status name is accepted as that status |
| QuizSessionModel.Create | models/QuizSession.js:3-65 | saving fails with a 500 iff quiz, student, timeLimit or maxScore is missing; otherwise the given fields are kept and the defaults apply: started now, no end, no answers, score 0, active, attempt 1 |
| QuizSessionModel.TimeRemaining | models/QuizSession.js:73-79 | never negative, and 0 for a session that is not active |
| QuizSessionModel.TimeRemainingMeaning | models/QuizSession.js:73-79 | a positive remaining time `r` means the elapsed time lies in minute `timeLimit - r` of the limit |
| QuizSessionModel.TimeRemainingExpires | models/QuizSession.js:73-79 | once the limit is used up no time remains |
| QuizSessionModel.TimeRemainingAtMostLimit | models/QuizSession.js:73-79 | from the start on, the remaining time never exceeds the limit |
| QuizSessionModel.TimeRemainingMonotone | models/QuizSession.js:73-79 | the remaining time never goes up as the clock advances |
| QuizSessionModel.CompletionPercentage | models/QuizSession.js:82-85 | 0 without answers; Infinity (none) iff the quiz has no questions; otherwise the rounded share of answered questions |
| QuizSessionModel.CompletionWithinRange | models/QuizSession.js:82-85 | with no more answers than questions the completion is between 0 and 100 |
| QuizGrading.AnswerIndex | routes/quiz.js:433 | none iff no answer is for the question; otherwise the first answer for it |
| QuizGrading.Upsert | routes/quiz.js:432-443 | an existing entry for the question is overwritten in place, otherwise one entry is appended; other entries and all grading fields are unchanged, and the question is answered with the new value |
| QuizGrading.UpsertKeepsUnique | routes/quiz.js:432-443 | recording an answer keeps at most one entry per question |
| QuizGrading.UpsertThenLookup | routes/quiz.js:432-443 | after recording, every entry for the question holds the new value and time |
| QuizGrading.UpsertKeepsUngraded | routes/quiz.js:432-443 | recording an answer grades nothing |
| QuizGrading.MergeAllInvariant | routes/quiz.js:471-483 | merging a submission body keeps one entry per question and leaves everything ungraded |
| QuizGrading.MergeAllIds | routes/quiz.js:471-483 | after merging, exactly the questions answered before or in the body are answered |
| QuizGrading.GradeAnswer | routes/quiz.js:487-499 | an answer to an unknown question is unchanged; otherwise it is correct iff `correctAnswer === answer`, earning `points \|\| 1`, else 0 |
| QuizGrading.GradeAll | routes/quiz.js:486-500 | every answer is graded in place, in order |
| QuizGrading.ScoreIsSumOfCorrectPoints | routes/quiz.js:485-502 | the score is the sum of the points recorded on the answers graded correct |
| QuizGrading.EmptyScoresZero | routes/quiz.js:485-502 | no answers score 0 |
| QuizGrading.ClaimedNonNegative | routes/quiz.js:493 | the points of any set of questions lie between 0 and the quiz's total |
| QuizGrading.ClaimedSplit | routes/quiz.js:493 | the points of a set of questions add up over a disjoint union |
| QuizGrading.EarnedWithinClaim | routes/quiz.js:490-498 | what one answer earns is at most the points of its question |
| QuizGrading.ScoreWithinClaim | routes/quiz.js:485-502 | with one answer per question the score is at most the points of the questions answered |
| QuizGrading.ScoreAtMostMaxPoints | routes/quiz.js:485-502 | with one answer per question and no negative points the score never exceeds the sum of `points \|\| 1` |
| QuizRoutes.StripQuestion | routes/quiz.js:71-74 | the question loses `correctAnswer` and `correctAnswers` and nothing else |
| QuizRoutes.StripAll | routes/quiz.js:71-75 | every question is stripped, in order |
| QuizRoutes.ViewQuiz | routes/quiz.js:68-79 | for an unpublished quiz and anyone but its instructor, every question loses its correct answers and nothing else changes; otherwise the quiz is returned unchanged |
| QuizRoutes.InstructorSeesAnswers | routes/quiz.js:68-79 | the instructor, and anyone once the quiz is published, sees the quiz unchanged |
| QuizRoutes.StartRefusal | routes/quiz.js:296-308 | starting is allowed iff the user is the instructor, or is on the roster and the quiz is published; otherwise 403 |
| QuizRoutes.TakeRefusal | routes/quiz.js:342-353 | taking is allowed iff the quiz is published and the user is on the roster or the instructor; otherwise 403 |
| QuizRoutes.TakeImpliesStart | routes/quiz.js:296-353 | whoever may take may start; only the instructor of an unpublished quiz may start but not take |
| QuizRoutes.StartInput | routes/quiz.js:311-317 | the new session has every required field, the limit `timeLimit \|\| 60` and the maximum `totalPoints \|\| 0` |
| QuizRoutes.TakeInputAsWritten | routes/quiz.js:356-360 | the session `take` creates lacks a required field |
| QuizRoutes.Project | routes/quiz.js:364-377 | the shown question keeps id, text and points, and only the text of each option |
| QuizRoutes.ProjectAll | routes/quiz.js:364-379 | every question is projected, in stored order |
| QuizRoutes.TakeAsWrittenAlwaysFails | routes/quiz.js:333-361 | `take` as written never succeeds: past its guards, saving the session fails with 500 |
| QuizRoutes.TakeAsWrittenCounterexample | routes/quiz.js:333-361 | the instructor of a published quiz gets a 500 from `take` |
| QuizRoutes.OwnerRefusal | routes/quiz.js:113-121 | allowed iff the quiz exists and the user is its instructor; 404 without the quiz, otherwise 403 |
| QuizRoutes.SessionRefusal | routes/quiz.js:419-430 | allowed iff the session exists, belongs to the user and is active; 404 without it, 403 for another user, otherwise 400 |
| QuizRoutes.CompletedSessionRefused | routes/quiz.js:466-468 | a completed session is refused with 400, so it cannot be submitted twice |
| QuizRoutes.SubmittedScore | routes/quiz.js:470-504 | a submitted session is completed, its score is the sum of its correct answers' points, it stays well formed, and the score never exceeds the quiz's possible points |
| QuizRoutes.FirstSubmission | routes/quiz.js:541-544 | the first submission of the student for the quiz, or none when there is none |
| QuizRoutes.MergeAnswers | routes/quiz.js:471-483 | the loop records the body's answers one after the other, as MergeAll specifies |
| QuizRoutes.GradeAnswers | routes/quiz.js:485-500 | the loop grades every answer and adds up the score, as GradeAll and TotalScore specify |
| QuizRoutes.QuizApi.constructor | routes/quiz.js:1-12 | the store starts empty |
| QuizRoutes.QuizApi.GetQuiz | routes/quiz.js:58-83 | 404 iff the quiz is missing; otherwise the view of the quiz for the user |
| QuizRoutes.QuizApi.UpdateQuiz | routes/quiz.js:111-131 | refused with OwnerRefusal's status, then 500 when the save is rejected, storing nothing; otherwise the body's paths are assigned onto the stored quiz, the other paths kept, and nothing else changes |
| QuizRoutes.QuizApi.DeleteQuiz | routes/quiz.js:134-151 | refused iff OwnerRefusal refuses; otherwise exactly that quiz is removed |
| QuizRoutes.QuizApi.SetPublished | routes/quiz.js:154-173 | refused iff OwnerRefusal refuses; otherwise only the published flag of that quiz is set |
| QuizRoutes.QuizApi.Assign | routes/quiz.js:176-202 | refused as OwnerRefusal says; then a body without `studentIds` fails with 500 and saves nothing; otherwise one roster entry per id is appended, keeping the old ones and duplicates |
| QuizRoutes.QuizApi.Start | routes/quiz.js:287-330 | refused iff the quiz is missing or StartRefusal refuses; otherwise one active session is appended with the default limit and maximum, and the reported time is the limit in seconds |
| QuizRoutes.QuizApi.Take | routes/quiz.js:333-412 | corrected handler: refused iff the quiz is missing or TakeRefusal refuses; otherwise one active session is appended, created with `timeLimit` and `maxScore` as `/start` does rather than as written at lines 356-361 (whose save always fails, see TakeAsWrittenAlwaysFails), and the questions are shown without answers |
| QuizRoutes.QuizApi.UpdateAnswer | routes/quiz.js:415-450 | refused iff SessionRefusal refuses; otherwise only that session's answers change, by Upsert |
| QuizRoutes.QuizApi.Submit | routes/quiz.js:453-517 | refused as SessionRefusal says; then a body without `answers` fails with 500 and saves nothing; otherwise the session becomes Submitted and the report carries its score, maximum and rounded percentage |
| QuizRoutes.QuizApi.Review | routes/quiz.js:520-556 | 404 without the session, then OwnerRefusal; on success only the student's first submission is marked completed and reviewed |
| SubmissionRoutes.Check | routes/submissions.js:32-43 | the stored answer keeps id and selection; `isCorrect` is absent iff the question is missing, and true iff its `correctAnswer === selectedAnswer` |
| SubmissionRoutes.ScoreAnswers | routes/submissions.js:29-43 | one stored answer per posted answer, in order, each as Check gives it, and the score counts the correct ones |
| SubmissionRoutes.CorrectCountBounded | routes/submissions.js:36 | the score is at most the number of answers posted |
| SubmissionRoutes.CorrectCountIgnoresPoints | routes/submissions.js:36 | the score is the same whatever the questions' points |
| SubmissionRoutes.SameIndex | routes/submissions.js:33 | changing points does not change which question an id finds |
| SubmissionRoutes.StampFirst | routes/submissions.js:61-64 | as written, the student's first roster entry takes the new stamp, overwriting any earlier one, and every other entry is unchanged |
| SubmissionRoutes.StampFirstKeepsEligible | routes/submissions.js:20-64 | any eligible student whose first roster entry is already stamped stays eligible after the as-written stamp |
| SubmissionRoutes.StampFirstCounterexample | routes/submissions.js:20-64 | such a roster exists: a student assigned twice with the first entry stamped |
| SubmissionRoutes.StampAll | routes/submissions.js:61-64 | corrected: exactly the student's unstamped entries are stamped, the rest unchanged |
| SubmissionRoutes.StampAllEndsEligibility | routes/submissions.js:20-64 | after the corrected stamp the student can no longer submit, and every other student's eligibility is unchanged |
| SubmissionRoutes.SubmissionApi.constructor | routes/submissions.js:1-6 | the store starts empty |
| SubmissionRoutes.SubmissionApi.Submit | routes/submissions.js:9-86 | 404 without the quiz, 403 unless eligible, 500 with nothing stored when the body has no `answers`, otherwise the submission is appended with the checked answers, the count score, the `points \|\| 1` maximum, the percentage and the completion by the review setting; the roster is stamped with the corrected `StampAll` (every unstamped entry of the student), not with the as-written `StampFirst` of lines 59-64, so after an accepted submission the student is no longer eligible |
| SubmissionRoutes.SubmissionApi.MySubmissions | routes/submissions.js:89-100 | exactly the requester's submissions |
| SubmissionRoutes.SubmissionApi.QuizSubmissions | routes/submissions.js:103-123 | 404 without the quiz, 403 for anyone but its instructor, otherwise exactly the quiz's submissions |
| SubmissionRoutes.SubmissionApi.GetSubmission | routes/submissions.js:126-148 | 404 without the submission; shown iff its quiz exists and the user is its student or the quiz's instructor |
| SubmissionRoutes.SubmissionApi.Review | routes/submissions.js:151-172 | 404 without the submission; succeeds iff the user is the quiz's instructor, then only that submission is marked reviewed and completed |
| SubmissionRoutes.Positions | routes/submissions.js:91-115 | exactly the positions of the matching submissions, in increasing order |
| QuizzesRoutes.WithoutQuestions | routes/quizzes.js:28 | the listed quiz has no questions and is otherwise unchanged |
| QuizzesRoutes.ReadView | routes/quizzes.js:129-139 | the instructor sees the quiz unchanged; everyone else sees every question without its correct answers and otherwise unchanged |
| QuizzesRoutes.QuizzesApi.constructor | routes/quizzes.js:1-6 | the store starts empty |
| QuizzesRoutes.QuizzesApi.Create | routes/quizzes.js:9-21 | the stored quiz is the body owned by the requester, whatever the body says, and nothing else changes |
| QuizzesRoutes.QuizzesApi.PublicList | routes/quizzes.js:24-33 | exactly the published quizzes, each without its questions |
| QuizzesRoutes.QuizzesApi.MyQuizzes | routes/quizzes.js:36-44 | exactly the requester's own quizzes |
| QuizzesRoutes.QuizzesApi.Available | routes/quizzes.js:47-71 | exactly the published quizzes that have the student on the roster |
| QuizzesRoutes.QuizzesApi.Pending | routes/quizzes.js:74-92 | exactly the available quizzes of which the student has an incomplete submission |
| QuizzesRoutes.QuizzesApi.SubmittedList | routes/quizzes.js:95-109 | exactly the student's completed submissions |
| QuizzesRoutes.QuizzesApi.Read | routes/quizzes.js:112-143 | shown iff the quiz exists and the user is its instructor or a student on its roster, with answers hidden from non-instructors; 404 otherwise, also for a user who may not read it |
| QuizzesRoutes.QuizzesApi.Update | routes/quizzes.js:146-168 | refused iff the owner check refuses, with its status; otherwise exactly the paths the body carries are set and the others kept, with no validation |
| QuizzesRoutes.QuizzesApi.Delete | routes/quizzes.js:171-188 | refused iff the owner check refuses; otherwise the quiz is removed and its submissions kept |
| QuizzesRoutes.QuizzesApi.Assign | routes/quizzes.js:191-217 | refused as the owner check says; then a body without `studentIds` fails with 500 and saves nothing; otherwise the roster gets the new entries appended |
| QuizzesRoutes.QuizzesApi.Publish | routes/quizzes.js:220-249 | as Assign, and the quiz becomes published; without `studentIds` it fails with 500 and the quiz stays unpublished |
| QuizzesRoutes.Assigned | routes/quizzes.js:204-210 | the roster keeps its old entries and gets one entry per id, assigned now and unstamped, after them; nothing else changes |
| QuizzesRoutes.AssignedRoster | routes/quizzes.js:204-210 | after assigning, a user is on the roster iff they were before or are among the ids |
| QuizzesRoutes.ReassignMakesEligible | routes/quizzes.js:204-210 | re-assigning a student gives them an unstamped entry, so the submission route (routes/submissions.js:20-22) accepts them again |
| FixSubmittedAt.Target | fix-submitted-at.js:21-28 | the student's first roster entry in the submission's quiz, or none when the quiz is gone or does not list the student |
| FixSubmittedAt.FixOne | fix-submitted-at.js:21-35 | afterwards the target is stamped; a stamped or missing target changes nothing; otherwise only the target entry gets the submission's time or now |
| FixSubmittedAt.FixSubmittedAt | fix-submitted-at.js:5-45 | the loop over all submissions yields the state FixAll specifies |
| FixSubmittedAt.SameStudentsSameIndex | fix-submitted-at.js:24-26 | rosters with the same students at the same places find the same first entry |
| FixSubmittedAt.OnlyFillsTransitive | fix-submitted-at.js:20-37 | filling stamps twice only fills stamps |
| FixSubmittedAt.FixOneOnlyFills | fix-submitted-at.js:29-34 | one pass only fills a missing stamp |
| FixSubmittedAt.FixAllOnlyFills | fix-submitted-at.js:20-37 | the repair never overwrites a stamp, touches nothing but stamps, and keeps every quiz |
| FixSubmittedAt.OnlyFillsKeepsStamped | fix-submitted-at.js:24-30 | filling stamps keeps each submission's target, and keeps it stamped |
| FixSubmittedAt.FixAllStampsEveryTarget | fix-submitted-at.js:20-37 | afterwards every submission whose quiz lists its student has that student's first entry stamped |
| FixSubmittedAt.FixAllOfStamped | fix-submitted-at.js:30 | when every target is already stamped, the repair changes nothing |
| FixSubmittedAt.FixAllIdempotent | fix-submitted-at.js:20-37 | running the repair a second time changes nothing |
| QuizContextModel.Lookup | client/src/context/QuizContext.js:51-54 | none iff no entry has the key; otherwise an entry holds the key with that value |
| QuizContextModel.Put | client/src/context/QuizContext.js:51-54 | a new key is appended last; an existing key keeps its place, takes the new value, and every other entry is unchanged |
| QuizContextModel.PutThenLookup | client/src/context/QuizContext.js:51-54 | after the spread the key holds the new value and every other key its old one |
| QuizContextModel.PutKeepsDistinct | client/src/context/QuizContext.js:51-54 | the spread keeps the keys distinct |
| QuizContextModel.ReduceChangesOnlyNamed | client/src/context/QuizContext.js:36-65 | every action leaves each field it does not name unchanged |
| QuizContextModel.UnknownActionIsIdentity | client/src/context/QuizContext.js:62-63 | an unknown action returns the state unchanged |
| QuizContextModel.ReduceEffects | client/src/context/QuizContext.js:38-61 | what each action sets: the payload into its field, `loading` cleared, `error` cleared by SET_LOADING, `completed` set by COMPLETE_QUIZ |
| QuizContextModel.UpdateAnswerEffect | client/src/context/QuizContext.js:48-55 | UPDATE_ANSWER sets the question's answer, leaves the other answers alone and keeps the keys distinct |
| QuizContextModel.AnswersArray | client/src/context/QuizContext.js:123-126 | one `{questionId, answer}` record per key, in key order |
| QuizContextModel.AnswersArrayOnePerKey | client/src/context/QuizContext.js:123-126 | the submitted list has a record for a key iff the object has it, no key twice, and each record carries its key's value |
| QuizContextModel.LookupDistinct | client/src/context/QuizContext.js:123-126 | with distinct keys, each entry's key looks up its own value |
| PrintResults.FormatMinutes | client/src/utils/printResults.js:13-20 | "M min" below an hour, otherwise "Hh Mm" with the whole hours and the minutes left over |
| PrintResults.ReadFormatMinutes | client/src/utils/printResults.js:13-20 | every formatted time reads back as the minutes it was made from |
| PrintResults.OptionAt | client/src/utils/printResults.js:30-31 | the answer is read as the property key `String(v)`: an option exactly when that key is a canonical index in range (so a number in range, a numeric string or a one-element array such as `[1]`), an inherited array member exactly when the key names one (`length` only on a non-empty list), and nothing for `null` or `undefined` |
| PrintResults.KeyFacts | client/src/utils/printResults.js:30-42 | a natural number's key names its own index, no member name is an index, and the keys of `null` and `undefined` name no member |
| PrintResults.IndexText | client/src/utils/printResults.js:37-42 | the text of the option an index selects, nothing (an `undefined` in the join) for an inherited member, else the index as a string; it throws iff the index is null or undefined |
| PrintResults.IndexTexts | client/src/utils/printResults.js:36-42 | one text per selected index, in order; it throws iff one index throws |
| PrintResults.AnswerText | client/src/utils/printResults.js:22-50 | "Not answered" without an answer; for multiple-choice and true-false the selected option's text, "undefined" for an inherited member, or the answer as a string; the selected texts joined by ", " for select-all; only a select-all array can throw |
| PrintResults.SelectAllMemberTextPrintsEmpty | client/src/utils/printResults.js:36-42 | a select-all answer that stored an option text naming an array member, such as `["map"]`, prints as empty text |
| PrintResults.ChoiceMemberTextPrintsUndefined | client/src/utils/printResults.js:30-32 | a multiple-choice answer naming an array member prints "undefined" |
| PrintResults.CorrectTexts | client/src/utils/printResults.js:64-67 | at most one text per option |
| PrintResults.FirstCorrect | client/src/utils/printResults.js:56 | none iff no option is correct; otherwise the first correct option |
| PrintResults.CorrectTextsEmpty | client/src/utils/printResults.js:56-67 | the select-all list of correct texts is empty iff no option is marked correct |
| PrintResults.CorrectAnswerText | client/src/utils/printResults.js:52-76 | the first correct option's text or "N/A"; "True"/"False" by truthiness; the correct texts joined by ", "; otherwise `correctAnswer \|\| 'N/A'` |
| PrintResults.PassesMonotone | client/src/utils/printResults.js:273 | a higher percentage still passes, and without a passing score the threshold is 70 |
| PrintResults.FindAnswer | client/src/utils/printResults.js:281 | an answer found is in the list and is for the question; none when no answer is for it |
| PrintResults.QuestionBlock | client/src/utils/printResults.js:281-320 | numbered index+1; Not Answered iff there is no answer value; Correct iff answered and `isCorrect` is truthy; the correct answer shown iff Incorrect; worth `points \|\| 1` |
| PrintResults.Blocks | client/src/utils/printResults.js:279-322 | one block per question, in order |
| PrintResults.GenerateBlocks | client/src/utils/printResults.js:279-322 | the loop appends exactly the blocks Blocks specifies |
| PrintResults.BlocksNumberedAndRevealOnlyWhenWrong | client/src/utils/printResults.js:296-313 | question k is headed k+1, and the correct answer is printed iff the question is answered and not correct |
| PrintResults.StudentName | client/src/utils/printResults.js:255 | the first name, else the username, else "Unknown"; never empty |
| ConnectionsRoutes.OtherParty | routes/connections.js:88 | the receiver when the user is the sender, otherwise the sender |
| ConnectionsRoutes.StudentLinks | routes/connections.js:76-103 | exactly the user's accepted connections whose other party is a student |
| ConnectionsRoutes.RequestRefusal | routes/connections.js:13-33 | allowed iff the receiver is someone else, exists, and no connection links the two in either direction, whatever its status; 400 for oneself, 404 for an unknown receiver |
| ConnectionsRoutes.RequestRefusalAllowingRetry | routes/connections.js:24-33 | corrected: only a live (pending or accepted) connection blocks; it allows what the written guard allows plus a retry after a rejection |
| ConnectionsRoutes.RemoveRefusal | routes/connections.js:224-235 | allowed iff the user is a party, and a receiver only as an instructor; otherwise 403 |
| ConnectionsRoutes.ConnectionsApi.constructor | routes/connections.js:1-6 | no connections yet |
| ConnectionsRoutes.ConnectionsApi.Request | routes/connections.js:9-53 | refused iff RequestRefusal refuses, with no change; otherwise one pending connection from the requester is added under a fresh id |
| ConnectionsRoutes.ConnectionsApi.Accept | routes/connections.js:56-126 | 404 without the connection, 403 for anyone but the receiver; an instructor is refused once their student links reach the limit; on success only that connection becomes accepted and the limit still holds |
| ConnectionsRoutes.ConnectionsApi.Reject | routes/connections.js:129-149 | 404 without the connection; succeeds iff the user is the receiver, then only that connection becomes rejected |
| ConnectionsRoutes.ConnectionsApi.Remove | routes/connections.js:216-242 | 404 without the connection; succeeds iff RemoveRefusal allows, then exactly that connection is removed |
| ConnectionsRoutes.ConnectionsApi.MyConnections | routes/connections.js:152-165 | exactly the user's pending or accepted connections, in either role |
| ConnectionsRoutes.ConnectionsApi.Received | routes/connections.js:168-213 | exactly the connections received by the user with the given status |
| ConnectionsRoutes.ConnectionsApi.Sent | routes/connections.js:184-197 | exactly the user's pending sent requests |
| ConnectionsRoutes.AcceptAddsAtMostOne | routes/connections.js:112-114 | accepting one connection adds at most that connection to the student count |
| ConnectionsRoutes.ExistingConnectionBlocks | routes/connections.js:24-33 | any connection between the two users, in either direction and any status, blocks a new request |
| ContentModel.ParseType | models/Content.js:8-12 | the enum accepts a name only if it is the name of the type returned |
| ContentModel.ParseTypeName | models/Content.js:8-12 | every type name is accepted as that type |
| ContentModel.ExactlyOneLocation | models/Content.js:13-24 | every type requires exactly one of `url` (link) and `filePath` (the four file types) |
| ContentModel.Validate | models/Content.js:3-57 | accepted iff title, a known type, the instructor and the location the type requires are present; otherwise a 500; an accepted document keeps its fields and `isPublic` defaults to false |
| ContentViewModel.Validate | models/ContentView.js:3-42 | accepted iff content and student are present and any rating lies in 1..5; otherwise a 500; `viewedAt` defaults to the current time, `isCompleted` to false, `timeSpent` to 0 |
| ContentViewModel.ViewStore.constructor | models/ContentView.js:45 | an empty collection satisfies the unique index |
| ContentViewModel.ViewStore.Insert | models/ContentView.js:3-45 | a view is stored iff it validates and no view of that content by that student exists; the index stays unique; a refused insert changes nothing |
| Upload.MaxFileSizeValue | server.js:67-69 | the size limit is 100 MiB, 104857600 bytes |
| Upload.CheckFile | server.js:48-70 | a file is refused as an invalid type iff its mimetype is not on the allowlist, as too large iff it is allowed but over the limit, and accepted otherwise |
| Upload.AllowedTypesShape | server.js:50-55 | the allowlist holds seventeen distinct mimetypes and excludes HTML and arbitrary binaries |
| Upload.Basename | server.js:44 | the base name is a suffix of the path with no '/' in it |
| Upload.LastDot | server.js:44 | finds the last '.' of a name, or reports that there is none |
| Upload.Extname | server.js:44 | an extension is empty or one '.' followed by characters other than '.' and '/' |
| Upload.UniqueSuffix | server.js:43 | the unique suffix is never shorter than "0-0" |
| Upload.ReadStampOfDigits | server.js:43 | a "now-random" stamp followed by a non-digit reads back as its two numbers |
| Upload.FilenameCarriesStamp | server.js:42-45 | a stored name starts with the field name and '-', followed by the clock value and the random number |
| Upload.FilenameInjective | server.js:42-45 | two stored names for the same file are equal only when their clock values and random numbers are |
| Routing.FirstMatch | routes/content.js:79-141 | the handling route is the first registered route whose pattern matches; no earlier route matches; none only when no route matches |
| Routing.Dispatch | routes/content.js:79-141 | a request goes unhandled iff no registered route matches its path |
| Routing.ShadowedLiteral | routes/content.js:117-141 | a literal route registered after a parameter route never handles a request |
| Routing.FirstMatching | routes/content.js:79-141 | a matching route with no matching predecessor handles the path |
| Routing.SwapAdjacent | routes/content.js:117-141 | swapping two adjacent routes that never match the same path changes no dispatch |
| ContentRoutes.ListValue | routes/content.js:39-40 | a list field is the empty list when absent, its parsed items when present, and a parse failure when malformed |
| ContentRoutes.UploadData | routes/content.js:35-51 | the built document carries title, type, lists and the requester as instructor; a link keeps the posted url and no file, any other type the stored file's path, name, size and mimetype |
| ContentRoutes.UploadRefusal | routes/content.js:19-33 | 400 iff multer refuses the file, the title or type is missing, or a non-link type arrives without a file |
| ContentRoutes.UploadAsWritten | routes/content.js:15-61 | a handler refusal is answered 400; a malformed list field or a document the schema rejects leaves the request unanswered, and only those |
| ContentRoutes.UploadAsWrittenUnanswered | routes/content.js:19-57 | a link upload without a url is never answered |
| ContentRoutes.UploadResponse | routes/content.js:15-61 | every request is answered; a stored item has the posted title, type and lists, the requester as instructor, is not public, and has the url of a link or the stored file of any other type; where the handler answers, the answer is unchanged |
| ContentRoutes.UploadOfAcceptedFile | routes/content.js:19-57 | a well-formed upload of an accepted file with a title and a file type is stored |
| ContentRoutes.OwnerRefusal | routes/content.js:155-222 | update, assign and delete proceed iff the id casts, the item exists and the requester is its instructor; otherwise 500, 404 or 403 respectively |
| ContentRoutes.NewIds | routes/content.js:194 | the new ids are the posted ids not already assigned |
| ContentRoutes.AssignedIds | routes/content.js:195 | the assigned list keeps the existing list as its prefix and holds exactly the existing and the posted ids |
| ContentRoutes.AssignIdempotent | routes/content.js:193-195 | repeating an assignment changes nothing |
| ContentRoutes.NoNewIds | routes/content.js:194 | posting only ids already assigned adds nothing |
| ContentRoutes.AssignKeepsDistinct | routes/content.js:193-195 | assigning distinct ids to a repeat-free list keeps it repeat-free |
| ContentRoutes.NewIdsDistinct | routes/content.js:194 | distinct posted ids give distinct new ids |
| ContentRoutes.RepeatedPostedIdAppendedTwice | routes/content.js:194-195 | an id posted twice is appended twice |
| ContentRoutes.Patched | routes/content.js:167-171 | every path the body carries, type and file paths included, is set unvalidated; every other path keeps its stored value |
| ContentRoutes.EmptyPatchIsIdentity | routes/content.js:167-171 | an empty body leaves the item as it is |
| ContentRoutes.PatchIdempotent | routes/content.js:167-171 | sending the same body twice is sending it once |
| ContentRoutes.PatchCanBreakLocation | routes/content.js:167-171 | a body that only turns a file item without url into a link leaves a link without the url the schema requires |
| ContentRoutes.MyContentUnreachable | routes/content.js:117-141 | as registered, no path reaches the instructor's own listing; "/my-content" goes to GET /:id, whose id does not cast |
| ContentRoutes.MyContentReachable | routes/content.js:117-141 | with the literal route first, "/my-content" reaches its listing and every other path is dispatched as before |
| ContentRoutes.ContentApi.constructor | routes/content.js:1-6 | the collection starts empty over the given users |
| ContentRoutes.ContentApi.Upload | routes/content.js:15-61 | answers as UploadResponse and stores exactly a created item |
| ContentRoutes.ContentApi.Create | routes/content.js:64-76 | the posted document with the requester as instructor is validated and stored; a schema error stores nothing |
| ContentRoutes.ContentApi.PublicList | routes/content.js:79-101 | lists exactly the published items matching the type and category filters when given |
| ContentRoutes.ContentApi.Assigned | routes/content.js:104-114 | lists exactly the items the student is assigned to |
| ContentRoutes.ContentApi.MyContent | routes/content.js:141-150 | lists exactly the instructor's own items |
| ContentRoutes.ContentApi.Get | routes/content.js:117-138 | returns the stored item iff the id casts, it exists, its instructor exists and the requester owns it or is assigned; otherwise 404 for no item and 403 for no access |
| ContentRoutes.ContentApi.Update | routes/content.js:155-177 | refused exactly as OwnerRefusal, changing nothing; otherwise the item becomes its patched self |
| ContentRoutes.ContentApi.Assign | routes/content.js:180-202 | refused as OwnerRefusal or without `studentIds`; otherwise only the item's assigned list changes, to AssignedIds |
| ContentRoutes.ContentApi.Delete | routes/content.js:205-222 | refused exactly as OwnerRefusal; otherwise exactly that item is removed |
| UsersRoutes.Admins | routes/users.js:190-191 | exactly the users whose role is admin |
| UsersRoutes.ActiveAdmins | routes/users.js:159-160 | exactly the admins who are not suspended |
| UsersRoutes.ApproveRefusal | routes/users.js:47-56 | approval proceeds iff an admin asks and the target exists and is an instructor; otherwise 403 for a non-admin and 404 for the target |
| UsersRoutes.SuspendRefusal | routes/users.js:147-164 | 403 for a non-admin, 404 for no such user; an active admin is suspended only while another active admin exists; unsuspending and suspending a non-admin are never refused |
| UsersRoutes.Toggled | routes/users.js:166 | only the target's suspension flag changes, and it flips |
| UsersRoutes.SuspendKeepsAnActiveAdmin | routes/users.js:159-166 | a suspension the guard lets through never leaves the system without an active admin |
| UsersRoutes.DeleteRefusalAsWritten | routes/users.js:176-195 | as written, deletion proceeds iff an admin asks, the target exists, and an admin target is not the only admin, suspended ones included |
| UsersRoutes.DeleteAsWrittenLosesLastActiveAdmin | routes/users.js:190-195 | with one active and one suspended admin, the written guard lets the active one be deleted and no active admin remains |
| UsersRoutes.SubsetCardinality | routes/users.js:190-195 | a subset is no larger than its superset |
| UsersRoutes.DeleteRefusal | routes/users.js:176-195 | the corrected guard also refuses deleting the only active admin, and refuses everything the written guard refuses, with the same status |
| UsersRoutes.DeleteKeepsAnActiveAdmin | routes/users.js:176-231 | a deletion the corrected guard lets through never leaves the system without an active admin |
| UsersRoutes.RemainingConnections | routes/users.js:199-201 | exactly the connections the deleted user is not a party to survive, unchanged |
| UsersRoutes.OwnedQuizzes | routes/users.js:205-206 | exactly the quizzes whose instructor is the deleted user |
| UsersRoutes.OwnedContent | routes/users.js:215 | exactly the content items whose instructor is the deleted user |
| UsersRoutes.RemainingSubmissions | routes/users.js:209-221 | an instructor's deletion removes exactly the submissions to their quizzes, a student's exactly their own, an admin's none |
| UsersRoutes.RemainingQuizzes | routes/users.js:212 | an instructor's deletion removes exactly their quizzes; other deletions none |
| UsersRoutes.RemainingContent | routes/users.js:216 | an instructor's deletion removes exactly their content; other deletions none |
| UsersRoutes.RemainingViews | routes/users.js:215-222 | an instructor's deletion removes exactly the views of their content, a student's exactly their own views, an admin's none |
| UsersRoutes.CascadeLeavesNoReference | routes/users.js:198-223 | after the cascade no connection names the deleted user; for an instructor no quiz, submission to their quiz or view of their content remains; for a student no submission or view of theirs |
| UsersRoutes.UsersApi.constructor | routes/users.js:1-11 | the collections are the given ones |
| UsersRoutes.UsersApi.Approve | routes/users.js:47-65 | refused exactly as ApproveRefusal, changing nothing; otherwise only the target's approval flag is set |
| UsersRoutes.UsersApi.Suspend | routes/users.js:147-173 | refused exactly as SuspendRefusal, changing nothing; otherwise only the target's flag flips, and an active admin always remains |
| UsersRoutes.UsersApi.Delete | routes/users.js:176-234 | refused exactly as the corrected last-admin guard DeleteRefusal (not the as-written count of lines 190-195), changing nothing; otherwise the user is removed with the cascade over connections, submissions, quizzes, views and content for their role, and an active admin always remains |
| UsersRoutes.UsersApi.Cascade | routes/users.js:198-223 | the connections naming the user go; for an instructor their quizzes with those quizzes' submissions and their content with its views go, for a student their submissions and views; the users are untouched |
| UsersRoutes.OnlyInstructorsOwn | routes/users.js:204-217 | deleting a user who is not an instructor leaves the quizzes and the content as they were |
| UsersRoutes.AdminsLeaveNoTrail | routes/users.js:204-223 | deleting an admin leaves the submissions and the views as they were |
| UsersRoutes.Scores | routes/users.js:243 | one entry per submission with a score (their count), and a value occurs iff some submission has it as its score |
| UsersRoutes.ScoresAppend | routes/users.js:243 | the scores of two runs of submissions are the scores of each, in order |
| UsersRoutes.ScoresSingle | routes/users.js:243 | a submission contributes its score exactly when it has one |
| UsersRoutes.Average | routes/users.js:244 | 0 for no scores; otherwise the value that times the number of scores gives their sum, the mean |
| UsersRoutes.ScoredValuesCons | routes/users.js:243 | the set of scores of a run is its tail's, plus the head's score when it has one |
| UsersRoutes.SumBounds | routes/users.js:244 | summands in [lo, hi] give a sum in [n·lo, n·hi] |
| UsersRoutes.TotalTimeAppend | routes/users.js:245 | the total time of two runs of submissions is the sum of their totals |
| UsersRoutes.TotalTimeNonNegative | routes/users.js:245 | non-negative times give a non-negative total |
| UsersRoutes.Stats | routes/users.js:237-256 | `totalQuizzes` counts the submissions, `completedQuizzes` the completed ones, the average is 0 without scores and otherwise the sum of the scores divided by their count, and `totalTime` sums `timeSpent` with a missing one as 0 |
| UsersRoutes.AverageWithinScoreRange | routes/users.js:243-244 | the average score lies between the lowest and highest score |
| UsersRoutes.MeanBounds | routes/users.js:244 | a sum within [n·lo, n·hi] divided by n lies in [lo, hi] |
| UsersRoutes.QuizStatsUnreachable | routes/users.js:132-237 | as registered, no path reaches the student statistics; "/quiz-stats" goes to GET /:id |
| UsersRoutes.QuizStatsReachable | routes/users.js:132-237 | with the literal route first, "/quiz-stats" reaches its handler and every other path is dispatched as before |
| CreateQuizPage.MapDifficulty | client/src/pages/CreateQuizPage.jsx:152-159 | easy, medium and hard become beginner, intermediate and advanced; any other name becomes mixed, except the names a plain object inherits (see Left out) |
| CreateQuizPage.OptionItems | client/src/pages/CreateQuizPage.jsx:93 | a falsy option list maps as empty, an array as its items, and any other truthy value throws |
| CreateQuizPage.IndexValue | client/src/pages/CreateQuizPage.jsx:115 | indexing undefined or null throws; an array yields its element or undefined past its end |
| CreateQuizPage.OrEmpty | client/src/pages/CreateQuizPage.jsx:115 | a truthy value is kept and a falsy one becomes the empty string |
| CreateQuizPage.PublishedOptions | client/src/pages/CreateQuizPage.jsx:91-126 | one published option per item, carrying the item as its text; a matching question with options and no correct answers throws |
| CreateQuizPage.TransformQuestion | client/src/pages/CreateQuizPage.jsx:84-131 | `isRequired` is dropped and the other fields are kept; types without options lose the field; a multiple-choice option is correct iff it is the correct answer, a select-all option iff the answer array includes it, matching and ordering options always; matching explanations are the definitions or ''; a non-array option list throws |
| CreateQuizPage.MultipleChoiceHasOneCorrect | client/src/pages/CreateQuizPage.jsx:90-98 | distinct options with the correct answer among them publish exactly one correct option, at its position |
| CreateQuizPage.TransformQuestions | client/src/pages/CreateQuizPage.jsx:84-132 | the map succeeds iff every question transforms, and then transforms each in order |
| CreateQuizPage.MaxAttempts | client/src/pages/CreateQuizPage.jsx:74 | ten attempts when multiple attempts are allowed, otherwise one |
| CreateQuizPage.Transform | client/src/pages/CreateQuizPage.jsx:66-135 | the sent quiz keeps title, description and category, maps the difficulty, is published, moves the time limit into the settings with the fixed defaults, and carries the transformed questions; it fails iff a question does |
| CreateQuizPage.StepsValid | client/src/pages/CreateQuizPage.jsx:214-227 | all four steps are valid iff the title is not blank and there is a question; no other step number is valid |
| QuestionBuilder.ApplyEdit | client/src/components/quiz/QuestionBuilder.jsx:37-42 | the named field takes the new value and every other field is unchanged |
| QuestionBuilder.EditsOfDifferentFieldsCommute | client/src/components/quiz/QuestionBuilder.jsx:37-42 | edits of different fields commute |
| QuestionBuilder.LaterEditWins | client/src/components/quiz/QuestionBuilder.jsx:37-42 | of two edits of the same field the later one wins |
| QuestionBuilder.PointsInput | client/src/components/quiz/QuestionBuilder.jsx:318 | the points become the `parseInt` of the typed text, NaN as none, and nothing else changes |
| QuestionBuilder.ChangeOption | client/src/components/quiz/QuestionBuilder.jsx:44-48 | only the edited option changes, to the typed value |
| QuestionBuilder.AddOption | client/src/components/quiz/QuestionBuilder.jsx:50-52 | an empty option is appended after the existing ones |
| QuestionBuilder.RemoveOption | client/src/components/quiz/QuestionBuilder.jsx:54-57 | the option at the index is removed and the others keep their order; an index past the end removes nothing |
| QuestionBuilder.Click | client/src/components/quiz/QuestionBuilder.jsx:80-88 | a disabled button changes nothing |
| QuestionBuilder.OptionCountStaysInRange | client/src/components/quiz/QuestionBuilder.jsx:80-88 | from two to six options, any run of clicks keeps between two and six |
| QuestionBuilder.TrimIsTrimmed | client/src/components/quiz/QuestionBuilder.jsx:202 | a trimmed text has no surrounding whitespace |
| QuestionBuilder.TrimKeepsFree | client/src/components/quiz/QuestionBuilder.jsx:202 | trimming adds no character that was not there |
| QuestionBuilder.ParseAnswers | client/src/components/quiz/QuestionBuilder.jsx:202 | the typed field yields at least one answer, each trimmed and free of commas |
| QuestionBuilder.TrimAll | client/src/components/quiz/QuestionBuilder.jsx:202 | each part is trimmed, in order |
| QuestionBuilder.ParseJoined | client/src/components/quiz/QuestionBuilder.jsx:201-202 | splitting a ", "-joined list of trimmed comma-free answers gives back the list |
| QuestionBuilder.JoinOne | client/src/components/quiz/QuestionBuilder.jsx:201 | a one-item list joins to the item |
| QuestionBuilder.JoinStep | client/src/components/quiz/QuestionBuilder.jsx:201 | a longer list joins to its head, a comma, a space and the joined rest |
| QuestionBuilder.PaddedPiece | client/src/components/quiz/QuestionBuilder.jsx:202 | a trimmed comma-free answer after an optional space trims back to itself |
| QuestionBuilder.ParsePiece | client/src/components/quiz/QuestionBuilder.jsx:202 | a comma-free text yields its trimmed self |
| QuestionBuilder.ParseCons | client/src/components/quiz/QuestionBuilder.jsx:202 | a comma-free piece, a comma and a rest split into the trimmed piece and the split rest |
| QuestionBuilder.ShowThenParse | client/src/components/quiz/QuestionBuilder.jsx:201-202 | showing a list of trimmed comma-free answers and reading it back gives the same list |
| QuestionBuilder.ParseIsStable | client/src/components/quiz/QuestionBuilder.jsx:201-202 | re-reading what the field shows after typing changes nothing |
| QuestionBuilder.AnswerInput | client/src/components/quiz/QuestionBuilder.jsx:202 | typing sets the correct answer to the parsed list and changes nothing else |
| QuizCreator.ApplyQuizEdit | client/src/components/quiz/QuizCreator.jsx:48-53 | only the named quiz field changes, to the new value |
| QuizCreator.ApplySettingsEdit | client/src/components/quiz/QuizCreator.jsx:55-63 | only the named setting changes, to the new value; the rest of the quiz is unchanged |
| QuizCreator.AddQuestion | client/src/components/quiz/QuizCreator.jsx:65-74 | opens a new multiple-choice question with two empty options and one point, not editing any index, and leaves the quiz as is |
| QuizCreator.EditQuestion | client/src/components/quiz/QuizCreator.jsx:76-79 | opens the chosen question and records its index, leaving the quiz as is |
| QuizCreator.SaveQuestion | client/src/components/quiz/QuizCreator.jsx:81-94 | the edited question is replaced, or a new one appended; the dialog closes and nothing else in the quiz changes |
| QuizCreator.Cancel | client/src/components/quiz/QuizCreator.jsx:332-336 | the dialog closes and the quiz is unchanged |
| QuizCreator.DeleteQuestion | client/src/components/quiz/QuizCreator.jsx:96-101 | the question at the index is removed and nothing else changes |
| QuizCreator.SaveWhileEditingReplaces | client/src/components/quiz/QuizCreator.jsx:81-94 | saving while editing keeps the count and replaces exactly the edited question |
| QuizCreator.SaveNewAppends | client/src/components/quiz/QuizCreator.jsx:81-94 | saving a new question appends it after all the others |
| QuizCreator.DeleteRemovesOne | client/src/components/quiz/QuizCreator.jsx:96-101 | deleting removes exactly that question and keeps the others in order |
| QuizCreator.ActionsKeepValid | client/src/components/quiz/QuizCreator.jsx:45-101 | every action keeps the edited index pointing at an existing question while the dialog is open |
| QuizCreator.PublishNeedsMoreThanSave | client/src/components/quiz/QuizCreator.jsx:311-321 | Publish is enabled iff Save Draft is and the title is not empty; a fresh page enables neither |
| QuizCreator.SaveEnablesDraft | client/src/components/quiz/QuizCreator.jsx:311-312 | saving a question enables Save Draft, and field and setting edits do not change it |
| QuestionRenderer.Toggle | client/src/components/quiz/QuestionRenderer.jsx:73-78 | checking appends the option after the current answer; unchecking removes every occurrence of it and keeps every other item |
| QuestionRenderer.ToggleShows | client/src/components/quiz/QuestionRenderer.jsx:72-78 | after a click the box shows the state the click asked for |
| QuestionRenderer.CheckThenUncheck | client/src/components/quiz/QuestionRenderer.jsx:73-78 | checking a new option and then unchecking it restores the answer |
| QuestionRenderer.UncheckKeepsOrder | client/src/components/quiz/QuestionRenderer.jsx:76 | unchecking keeps the other items in their order |
| QuestionRenderer.TrueFalseAnswer | client/src/components/quiz/QuestionRenderer.jsx:128 | the stored answer is the boolean true iff the "true" radio was chosen |
| QuestionRenderer.GroupValueAsWritten | client/src/components/quiz/QuestionRenderer.jsx:127 | the group shows a truthy answer as itself and any falsy one as the empty string |
| QuestionRenderer.FalseChoiceNotShown | client/src/components/quiz/QuestionRenderer.jsx:127-131 | after choosing False neither radio shows as selected |
| QuestionRenderer.GroupValue | client/src/components/quiz/QuestionRenderer.jsx:127 | only a missing answer is shown as the empty string; any other is shown as itself |
| QuestionRenderer.ChoiceShown | client/src/components/quiz/QuestionRenderer.jsx:127-131 | with the corrected value, exactly the chosen radio shows as selected |
| QuestionRenderer.NothingChosenNothingShown | client/src/components/quiz/QuestionRenderer.jsx:127-131 | with no answer neither radio is selected, as written or corrected |
| QuestionRenderer.SetMatch | client/src/components/quiz/QuestionRenderer.jsx:163-166 | the item maps to the chosen match, other items keep theirs, and the keys grow by the item only |
| QuestionRenderer.SetPosition | client/src/components/quiz/QuestionRenderer.jsx:199-201 | the item maps to the `parseInt` of the typed position, other items keep theirs, and the keys grow by the item only |
| QuestionRenderer.PositionOfTypedNumber | client/src/components/quiz/QuestionRenderer.jsx:200 | typing a number stores that number |
| QuestionRenderer.MatchUpdatesCommute | client/src/components/quiz/QuestionRenderer.jsx:163-166 | choices for different items commute |
| StudentSelector.StudentConnections | client/src/components/common/StudentSelector.jsx:37-41 | exactly the accepted connections with exactly one student side are listed |
| StudentSelector.StudentOf | client/src/components/common/StudentSelector.jsx:75-77 | the sender when the sender is a student, otherwise the receiver |
| StudentSelector.ListedStudentIsStudent | client/src/components/common/StudentSelector.jsx:37-77 | every listed connection yields a student, and its other side is not one |
| StudentSelector.StudentIds | client/src/components/common/StudentSelector.jsx:67-70 | one id per listed connection, the student's, in order |
| StudentSelector.Toggle | client/src/components/common/StudentSelector.jsx:53-57 | a selected student is removed and the others kept; an unselected one is appended |
| StudentSelector.Choose | client/src/components/common/StudentSelector.jsx:58-59 | in single mode the selection becomes exactly that student |
| StudentSelector.ToggleTwice | client/src/components/common/StudentSelector.jsx:53-57 | two toggles restore who is selected, and restore the selection itself when the student was not in it |
| StudentSelector.SelectAll | client/src/components/common/StudentSelector.jsx:63-73 | deselects everyone when the selection is as long as the list, otherwise selects every listed student |
| StudentSelector.LengthTestMeansAllSelected | client/src/components/common/StudentSelector.jsx:64-117 | for a consistent selection the length comparison holds iff every listed student is selected |
| StudentSelector.UpdatesKeepConsistent | client/src/components/common/StudentSelector.jsx:52-73 | toggling a listed student and selecting all keep the selection repeat-free and within the list |
| StudentSelector.WithoutKeepsDistinct | client/src/components/common/StudentSelector.jsx:55 | removing an id keeps a list repeat-free |
| InstructorBrowser.ConnectionStatus | client/src/components/common/InstructorBrowser.jsx:65-75 | the status of the first listed connection whose other party is the instructor, or none when there is no such connection |
| InstructorBrowser.Chip | client/src/components/common/InstructorBrowser.jsx:103-112 | "Connected" iff accepted, "Pending" iff pending, no chip otherwise |
| InstructorBrowser.ActionFor | client/src/components/common/InstructorBrowser.jsx:181-206 | "Already Connected" iff accepted, "Request Sent" iff pending, "Send Request" exactly when no chip is shown |
| InstructorBrowser.RequestMessage | client/src/components/common/InstructorBrowser.jsx:77-83 | the message greets the instructor by first name, or by username when there is none |
| InstructorBrowser.RejectedRequestOfferedButRefused | client/src/components/common/InstructorBrowser.jsx:65-206 | after a rejection the listing hides the connection, "Send Request" is enabled, and the server refuses the request with 400 |
| InstructorBrowser.SendRequestOfferedOnlyWhenAllowed | client/src/components/common/InstructorBrowser.jsx:65-206 | when rejections no longer block, the button is enabled exactly when the server would accept the request |
| QuizResultsPage.CorrectCount | client/src/pages/QuizResultsPage.jsx:65-114 | the number of correct answers never exceeds the number of answers |
| QuizResultsPage.CalculateScore | client/src/pages/QuizResultsPage.jsx:63-69 | 0 without a session or quiz; otherwise correct over questions times 100, rounded half up; NaN or Infinity for a quiz without questions |
| QuizResultsPage.ScoreIsPercentage | client/src/pages/QuizResultsPage.jsx:63-69 | with no more correct answers than questions the score lies in 0..100, all correct is 100 and none correct is 0 |
| QuizResultsPage.ScoreColor | client/src/pages/QuizResultsPage.jsx:71-75 | success from 80, warning from 60, error below and for NaN |
| QuizResultsPage.ScoreColorMonotone | client/src/pages/QuizResultsPage.jsx:71-75 | a higher score never gets a worse colour |
| QuizResultsPage.MinSec | client/src/pages/QuizResultsPage.jsx:77-81 | the text is the whole minutes, a colon, and the remaining seconds as two digits |
| QuizResultsPage.ReadMinSecOfMinSec | client/src/pages/QuizResultsPage.jsx:77-81 | every formatted time reads back as the seconds it was made from |
| QuizResultsPage.FindAnswer | client/src/pages/QuizResultsPage.jsx:190 | the first answer to the question, or none when no answer is to it |
| QuizResultsPage.FindAnswerShift | client/src/pages/QuizResultsPage.jsx:190 | a first match in the tail is the first match of the whole list when the head does not match |
| QuizResultsPage.Breakdown | client/src/pages/QuizResultsPage.jsx:189-217 | one mark per question, in quiz order, set iff the question's first answer is correct |
| QuizResultsPage.Snippet | client/src/pages/QuizResultsPage.jsx:208 | the first hundred characters of a question's text, or all of a shorter one, followed by "..." (characters are scalar values, see Left out) |
| QuizResultsPage.Snippets | client/src/pages/QuizResultsPage.jsx:189-208 | one text line per question, in quiz order |
| QuizResultsPage.Summary | client/src/pages/QuizResultsPage.jsx:113-241 | correct plus incorrect is the question count; the score, colour, pass chip, time, breakdown and text lines are as defined; retake is enabled iff the quiz allows multiple attempts |
| QuizResultsPage.Page | client/src/pages/QuizResultsPage.jsx:101-241 | not found iff the session or quiz is missing; otherwise the render throws iff some question's `text` is not a string, and shows the summary when none is missing |
| QuizResultsPage.StoredQuestionsCrash | client/src/pages/QuizResultsPage.jsx:189-208 | when no question carries a `text` property, as stored questions do not, the page throws iff the quiz has a question |
| QuizResultsPage.RetakeFollowsSetting | client/src/pages/QuizResultsPage.jsx:237 | when the page renders, the retake button follows the attempts setting alone |
| QuizResultsPage.BreakdownAgreesWithCount | client/src/pages/QuizResultsPage.jsx:114-191 | with one answer per question in quiz order, the breakdown marks as many questions correct as the summary counts |
| QuizResults.GetGrade | client/src/components/quiz/QuizResults.jsx:52-58 | A from 90, B from 80, C from 70, D from 60, F below, with the matching colours |
| QuizResults.GradeMonotone | client/src/components/quiz/QuizResults.jsx:52-58 | a higher percentage never gets a lower grade |
| QuizResults.Chip | client/src/components/quiz/QuizResults.jsx:198 | the chip is earned points, a slash and the question's points |
| QuizResults.ReadChipOfChip | client/src/components/quiz/QuizResults.jsx:198 | a chip of two whole numbers reads back as those numbers |
| QuizResults.ReviewRow | client/src/components/quiz/QuizResults.jsx:176-228 | each row is numbered from 1, marked correct iff the result is, shows the answer or "Not answered", and the correct answer exactly when the result is incorrect |
| QuizResults.Render | client/src/components/quiz/QuizResults.jsx:31-228 | "No results available" iff results or quiz is missing; a TypeError iff there are more results than questions; otherwise the grade, time, difficulty falling back to Medium, and one row per result |
| QuizResults.CorrectAnswerOnlyWhenWrong | client/src/components/quiz/QuizResults.jsx:176-228 | on the card a correct answer appears exactly on the rows of incorrect results, and it is the question's own |
| QuizReviewPage.FirstAnswer | client/src/pages/QuizReviewPage.jsx:68-84 | the position of the first stored answer to the question, or none when there is none |
| QuizReviewPage.AnswerStatus | client/src/pages/QuizReviewPage.jsx:67-72 | not answered iff no answer is stored for the question; correct iff the first stored answer is marked correct |
| QuizReviewPage.FirstCorrectOption | client/src/pages/QuizReviewPage.jsx:76 | the position of the first correct option, or none when no option is correct |
| QuizReviewPage.CorrectAnswer | client/src/pages/QuizReviewPage.jsx:74-81 | for multiple choice the index of the first correct option, -1 iff none; for true/false the stored answer; null otherwise |
| QuizReviewPage.UserAnswerAsWritten | client/src/pages/QuizReviewPage.jsx:83-86 | as written, a missing or falsy stored answer reads as null and a truthy one as itself |
| QuizReviewPage.UserAnswer | client/src/pages/QuizReviewPage.jsx:83-86 | only a missing stored answer reads as null; any other, 0 and false included, reads as itself |
| QuizReviewPage.Choice | client/src/pages/QuizReviewPage.jsx:219-246 | "Your Answer" iff selected; "Correct Answer" iff correct and not selected; green iff correct; red iff selected and wrong |
| QuizReviewPage.OptionRows | client/src/pages/QuizReviewPage.jsx:206-250 | one row per option, selected iff the user answer is its index, correct by the option's flag |
| QuizReviewPage.TrueFalseRows | client/src/pages/QuizReviewPage.jsx:253-299 | two rows, true first, each selected iff the user answer is its value and correct iff the stored correct answer is |
| QuizReviewPage.FirstOptionNotMarked | client/src/pages/QuizReviewPage.jsx:85-256 | a student who chose the first option, or False, sees the question marked incorrect with no row carrying "Your Answer" |
| QuizReviewPage.StoredAnswerMarked | client/src/pages/QuizReviewPage.jsx:83-256 | with the corrected reading, a stored index marks exactly that option and a stored boolean exactly its row |
| QuizReviewPage.ShortAnswerText | client/src/pages/QuizReviewPage.jsx:308 | a truthy answer is shown as itself, any other as "Not answered" |
| QuizReviewPage.NavButtonColor | client/src/pages/QuizReviewPage.jsx:169-184 | green iff correct, red iff incorrect, default iff not answered |
| QuizReviewPage.NextIndex | client/src/pages/QuizReviewPage.jsx:88-92 | one forward while below the last index, otherwise unchanged |
| QuizReviewPage.PreviousIndex | client/src/pages/QuizReviewPage.jsx:94-98 | one back while above 0, otherwise unchanged |
| QuizReviewPage.NavigationStaysInRange | client/src/pages/QuizReviewPage.jsx:88-98 | Previous and Next keep the index on a question and undo each other |
| QuizReviewPage.DisabledMeansNoMove | client/src/pages/QuizReviewPage.jsx:341-363 | a button is enabled exactly when its handler would move the index |
| QuizReviewPage.Navigator.constructor | client/src/pages/QuizReviewPage.jsx:42 | the page opens on the first question |
| QuizReviewPage.Navigator.Next | client/src/pages/QuizReviewPage.jsx:88-92 | the index becomes NextIndex of the old one and stays in range |
| QuizReviewPage.Navigator.Previous | client/src/pages/QuizReviewPage.jsx:94-98 | the index becomes PreviousIndex of the old one and stays in range |
| QuizReviewPage.Navigator.GoTo | client/src/pages/QuizReviewPage.jsx:100-102 | the index becomes the chosen question |
| Timer.Tick | client/src/components/quiz/Timer.jsx:16-22 | one tick gives 0 from 1 second or less, otherwise one second less |
| Timer.After | client/src/components/quiz/Timer.jsx:12-26 | with no time left nothing moves; otherwise after n seconds the count is n lower, stopping at zero |
| Timer.TickDecreasesToZero | client/src/components/quiz/Timer.jsx:12-22 | a running countdown never goes negative, strictly decreases each second, and stays at zero once there |
| Timer.Countdown.constructor | client/src/components/quiz/Timer.jsx:6 | the seconds left start at `timeRemaining` |
| Timer.Countdown.Reset | client/src/components/quiz/Timer.jsx:8-10 | a new `timeRemaining` replaces the seconds left |
| Timer.Countdown.Elapse | client/src/components/quiz/Timer.jsx:12-26 | after n seconds the seconds left are After of the old value, between 0 and the old value when it was running |
| Timer.ClockParts | client/src/components/quiz/Timer.jsx:28-31 | the hours, minutes and seconds recombine into the seconds, minutes and seconds each below 60 |
| Timer.Clock | client/src/components/quiz/Timer.jsx:33-36 | "mm:ss" (five characters) exactly when there are no hours, otherwise the hour digits and a colon before it; minutes and seconds are their two-digit paddings |
| Timer.FormatTime | client/src/components/quiz/Timer.jsx:28-37 | five characters exactly below one hour, a colon before the two-digit seconds, and from one hour on a colon before the two-digit minutes |
| Timer.ReadFormatTime | client/src/components/quiz/Timer.jsx:28-37 | every formatted time reads back as the seconds it was made from |
| Timer.ReadClock | client/src/components/quiz/Timer.jsx:33-36 | a clock text reads back as 3600 times its hours plus 60 times its minutes plus its seconds |
| Timer.GetTimeColor | client/src/components/quiz/Timer.jsx:39-43 | error iff at most 60 seconds are left, warning iff at most 300, default otherwise |
| Timer.ColorOnlyEscalates | client/src/components/quiz/Timer.jsx:12-43 | as the countdown runs the colour only becomes more urgent |
| ModalContext.Step | client/src/context/ModalContext.js:19-20 | opening adds one to the count and closing subtracts one, unguarded |
| ModalContext.Net | client/src/context/ModalContext.js:19-20 | opens minus closes lies between minus and plus the number of calls |
| ModalContext.RunIsNet | client/src/context/ModalContext.js:19-20 | a run of calls moves the count by exactly its opens minus its closes |
| ModalContext.RunAppend | client/src/context/ModalContext.js:19-20 | two runs in a row move the count as the first and then the second |
| ModalContext.OpenCloseRestores | client/src/context/ModalContext.js:19-20 | a modal opened and closed around any calls leaves the count where those calls alone leave it |
| ModalContext.NetAppend | client/src/context/ModalContext.js:19-20 | opens minus closes adds over concatenation |
| ModalContext.InertIffMoreOpens | client/src/context/ModalContext.js:8-20 | from a fresh provider the root is inert exactly when more modals were opened than closed |
| ModalContext.ExtraCloseLeavesRootLive | client/src/context/ModalContext.js:10-20 | one close too many drives the count to -1, and the next modal opens with the root not inert |
| ModalContext.ModalProvider.constructor | client/src/context/ModalContext.js:8-17 | the count starts at 0 and the root is not inert |
| ModalContext.ModalProvider.SyncRoot | client/src/context/ModalContext.js:10-17 | the root is inert exactly when the count is positive; the count is unchanged |
| ModalContext.ModalProvider.Open | client/src/context/ModalContext.js:19 | the count goes up by one and the root's state follows it |
| ModalContext.ModalProvider.Close | client/src/context/ModalContext.js:20 | the count goes down by one and the root's state follows it |
| ModalContext.ModalProvider.Dispatch | client/src/context/ModalContext.js:10-20 | after a run of calls the count is Run of the old count, and the root's state follows it |
| QuizPrint.Letter | test-quiz-print.js:153 | option i below 26 is labelled with the i-th capital letter |
| QuizPrint.LettersInOrder | test-quiz-print.js:153 | the first 26 options get distinct letters in alphabetical order |
| QuizPrint.DescriptionText | test-quiz-print.js:128 | a truthy description is shown as itself, any other as "No description" |
| QuizPrint.CountText | test-quiz-print.js:131 | the number of questions, or 0 when the quiz has none |
| QuizPrint.QuestionOpen | test-quiz-print.js:141-148 | a question's block opens with its heading "Question k+1" |
| QuizPrint.LetterOption | test-quiz-print.js:152-155 | a lettered option starts with its letter and a full stop |
| QuizPrint.BoxOption | test-quiz-print.js:159-161 | a select-all option starts with an empty box |
| QuizPrint.QuestionBody | test-quiz-print.js:150-165 | multiple-choice and true/false questions get lettered options, select-all questions boxed options, every other type the answer space |
| QuizPrint.GenerateQuizHtml | test-quiz-print.js:45-173 | the appended page is the header, each question's block in order, and the closing tags |
| QuizPrint.AppendAssoc | test-quiz-print.js:143-167 | appending in steps gives the same text as appending the joined parts |
| QuizPrint.QuestionsStep | test-quiz-print.js:141-168 | the blocks of the first k+1 questions are those of the first k followed by the block of question k |
| QuizPrint.AppendQuestions | test-quiz-print.js:141-168 | appending each question's block in turn gives the start followed by the blocks of all questions |
| QuizPrint.QuestionBlock | test-quiz-print.js:142-167 | the block appended for one question, option by option, is its block |
| QuizPrint.AppendLetterOptions | test-quiz-print.js:152-155 | appending the lettered options one by one gives the lettered options, option i labelled with Letter(i) |
| QuizPrint.AppendBoxOptions | test-quiz-print.js:159-161 | appending the boxed options one by one gives the boxed options |
| QuizPrint.QuestionBlockInPlace | test-quiz-print.js:140-172 | question k's block, headed "Question k+1", sits right after the header and the blocks of the questions before it |
| QuizPrint.QuestionHeading | test-quiz-print.js:143-148 | every question's block opens with its heading "Question k+1" |
| QuizPrint.BlockInPage | test-quiz-print.js:140-172 | a block inside the question blocks sits at the same place after the header in the page |
| QuizPrint.QuestionsPrefix | test-quiz-print.js:141-168 | the blocks of the first n questions are a prefix of all blocks |
| QuizPrint.HeaderShowsQuizInfo | test-quiz-print.js:46-137 | the page starts with the title, the description or "No description", and the question count |
| QuizPrint.AnswerKeyNotPrinted | test-quiz-print.js:45-173 | the page is the same with every correct answer erased, so none is printed |
| QuizPrint.QuestionsErased | test-quiz-print.js:141-168 | erasing the answer key changes no question block |
| QuizPrint.BodyErased | test-quiz-print.js:150-165 | erasing the answer key changes no question body |
| QuizPrint.OptionsErased | test-quiz-print.js:152-161 | erasing the answer key changes no option line |

## Left out

- Network, database and process I/O are not modelled: HTTP transport, MongoDB queries and their timing, `populate`, `sort` by creation time, socket.io notifications, `console` output and file-system calls. A collection is an in-memory map or sequence, and a query is a comprehension over it.
- Authentication is not modelled: JWT signing and verification, bcrypt hashing, and the `auth`, `authorize`, `checkApproved` and `checkSuspended` middleware. The requester's id and role are parameters; passwords are compared as stored. middleware/auth.js is not part of this model.
- The Quiz, User, QuizSubmission and Connection schemas are not part of this model. Their records in `Domain` carry only the fields the handlers use. ObjectId casting is modelled for routes/content.js only, where an id from the path must be 24 hexadecimal digits. The handlers of routes/quiz.js, routes/quizzes.js, routes/users.js and routes/connections.js treat a malformed id as an unknown one and answer 404, where the source's failed cast answers 500.
- The text search of the listing routes (a case-insensitive `$regex`) is not modelled; the other filters are.
- `path.extname` is modelled on `/`-separated paths only (`Upload.Extname`).
- The Content listing filters on `isPublished` and `category`, which the Content schema does not declare. The model keeps them as plain fields of a stored item, so any value can be listed.
- The QuizSession schema declares no `reviewedAt` or `startedAt`. Mongoose drops writes to such paths, and the model does not record them on sessions.
- Random ordering is not modelled. The `/take` route's `Math.random` shuffles of questions and options (routes/quiz.js:381-394) are left out, and `QuizApi.Take` returns the stored order. The random number in an upload's file name is a parameter.
- Several routes of routes/quiz.js are not modelled, because they are outside the named core. The list route (lines 10-55) and the submissions and analytics reports (lines 205-284) only read. The create route (lines 86-108) repeats the one of routes/quizzes.js, which `QuizzesRoutes.QuizzesApi.Create` models, and adds `express-validator` checks.
- GET /api/auth/me and the read-only users routes (the lists, `/stats`, `/:id`) are not modelled. PUT `/profile`, which replaces profile fields the model does not track, is not modelled either.
- The client's network calls are not modelled: `fetchQuizzes`, `startQuiz`, `createQuiz` and friends in QuizContext.js, the fetch in StudentSelector, the data loading of the pages, and the save, publish and assign calls of CreateQuizPage and QuizCreator. Only the state changes and the documents they send are modelled. QuizContext.js has no `getQuizSession`, which the results and review pages call; those pages are modelled on the data once loaded.
- Loading spinners, error alerts, styling and layout of the React pages are not modelled.
- The current user's id, which InstructorBrowser decodes from the stored token, is a parameter.
- StudentSelector assumes the listed students are distinct (`Consistent`). Two connections to the same student would make the length test of Select All miscount.
- The modal root's `inert` attribute is a field of `ModalContext.ModalProvider`; `document.getElementById` is not modelled.
- Floating point is not modelled. The quiz-stats average and the submission percentage are exact rationals (`real`), and percentages shown by the client are integers.
- AuthRoutes.Username: lower-cases the ASCII letters only. `toLowerCase` also maps the other upper-case letters of Unicode (É to é), so a name with such a letter derives a different username here, and collisions and the duplicate check differ accordingly.
- Text.LowerChar: maps 'A' to 'Z' only; the Unicode case mapping of every other letter is not modelled.
- Text.Lower: the same restriction, so the lower-cased email of AuthRoutes.RegisterRefusal and AuthRoutes.LoginKey keeps non-ASCII capitals. `toLowerCase` can also lengthen a string (İ becomes two code units); the model always keeps the length.
- AuthRoutes.NewUser: stores the email as routes/auth.js:35-41 passes it. The User schema is not part of this model; if it declares `lowercase` or `trim` on `email`, the stored email is normalised, and AuthRoutes.RegisteredMixedCaseNotFound does not describe the running system.
- QuizRoutes.QuizApi.UpdateQuiz: whether the Quiz schema's validators accept the assigned document is the parameter `saved`, because that schema is not part of this model.
- Update bodies (`QuizPatch`, `ContentPatch`) are typed. A value Mongoose cannot cast to the path's type answers 500 in the source, and a Content `type` outside the enumeration is stored unvalidated by routes/content.js:167-171; the typed bodies cannot carry either. Paths a schema does not declare are dropped by strict mode and are not modelled.
- The `updatedAt` stamp that routes/quizzes.js:160 and routes/content.js:169 add is not recorded: the Quiz and Content records carry no timestamps.
- QuizResults.GetGrade: takes an integer percentage. The server may send a fractional one; the same thresholds apply to it, but that case is not modelled.
- QuizResults.Render: the completion date, the share and print buttons and the callbacks are not modelled.
- Timer.FormatTime: defined on non-negative seconds. A negative `timeRemaining` prop is kept by the countdown and formatted with minus signs; that text is not modelled.
- QuizResultsPage.MinSec: defined on non-negative seconds; `timeSpent` is a natural number.
- QuizReviewPage.Navigator.constructor: a quiz without questions crashes the page on `quiz.questions[0]`. The model keeps index 0 and does not model the crash.
- QuizPrint.GenerateQuizHtml: the stylesheet in `<head>`, the whitespace between tags and the `@media print` rule are not modelled.
- test-quiz-print.js: the script's `console` checks (lines 178-190) are not run. They are stated as lemmas over every quiz: the title and description appear (`HeaderShowsQuizInfo`), each question is numbered (`QuestionBlockInPlace`), options are lettered or boxed (`LetterOption`, `BoxOption`), and no correct answer is printed (`AnswerKeyNotPrinted`).
- QuizPrint.Letter: from option 55231 on, `String.fromCharCode` yields a lone surrogate code unit. A Dafny `char` cannot hold one, so the model uses U+FFFD there. The contract states only the first 26 letters.
- QuizPrint.QuestionBlock: builds the option lines of a block before appending it, rather than appending each line to the page in turn; the page is the same.
- PrintResults: the markup and styling around the printed texts are not modelled.
- PrintResults.ArrayMember: lists the members of arrays in ECMAScript 2023. An older or newer engine has a slightly different set (`at`, `findLast`, `toSorted` and `with` are recent), and so prints differently for those names.
- CreateQuizPage.MapDifficulty: a name a plain object inherits (`toString`, `constructor`, `valueOf`, `hasOwnProperty`, `__proto__` and the others of `Object.prototype`) makes `difficultyMap[d]` the inherited member, not "mixed". This is not modelled, because the difficulty comes from the select of BasicInfoForm.jsx:77-87, which offers only fixed values.
- Routing.Matches: compares literal segments exactly. Express routes by default ignore letter case and accept one trailing slash, so `/Drafts` or `/drafts/` reaches the `drafts` route there, but here it reaches a parameter route or none. `Routing.FirstMatch` and `Routing.Dispatch` inherit this, and so do the dispatch tables built on them.
- A body array that is present but not an array (a string `studentIds`, say) is not modelled: the `Option` parameters of the assign, publish and submit methods say only whether the field is there.
- QuizResultsPage.Snippet: strings are sequences of Unicode scalar values throughout the model, not the UTF-16 code units of JavaScript, so lengths, indices and substrings differ on text outside the Basic Multilingual Plane. Snippet keeps 100 scalar values where `substring(0, 100)` keeps 100 code units: a text of 60 emoji is shortened in the source and kept whole here. The Str case of CreateQuizPage.IndexValue likewise reads a scalar value where the source reads a code unit.

## Findings

| source | as written | input that shows it | evidently intended | confidence | as-written member | corrected member |
|---|---|---|---|---|---|---|
| routes/submissions.js:20-64 | eligibility accepts a student with any unstamped roster entry, but the stamp goes to the student's first roster entry | a student assigned twice (assign appends without de-duplication) whose first entry is already stamped: every later submission is accepted | one submission per student and quiz: the submission stamps every entry of the student | not executed | SubmissionRoutes.StampFirstKeepsEligible | SubmissionRoutes.SubmissionApi.Submit |
| routes/quiz.js:356-361 | `/take` creates a session without `timeLimit` and `maxScore`, which the QuizSession schema requires | any published quiz the requester may take: `save()` rejects and the route answers 500 | the session is created with the quiz's time limit and maximum score, as `/start` does | not executed | QuizRoutes.TakeAsWrittenAlwaysFails | QuizRoutes.QuizApi.Take |
| routes/content.js:117-141 | GET `/my-content` is registered after GET `/:id` | GET /api/content/my-content reaches `/:id`, whose id does not cast, and answers 500 | the instructor's own listing is served | not executed | ContentRoutes.MyContentUnreachable | ContentRoutes.MyContentReachable |
| routes/users.js:132-237 | GET `/quiz-stats` is registered after GET `/:id` | GET /api/users/quiz-stats is handled as a lookup of the user "quiz-stats" | the student's statistics are served | not executed | UsersRoutes.QuizStatsUnreachable | UsersRoutes.QuizStatsReachable |
| routes/content.js:19-57 | the multer callback runs outside the handler's `try`, so a throw or rejection in it is never answered | a link upload without a url: the schema rejects it and the request hangs | every failure answers 500, as the `catch` clause intends | not executed | ContentRoutes.UploadAsWrittenUnanswered | ContentRoutes.UploadResponse |
| routes/users.js:190-195 | the delete guard counts all admins, suspended ones included | one active and one suspended admin: the active admin can be deleted, leaving no admin able to act | the guard of the suspend route: the only active admin cannot be removed | not executed | UsersRoutes.DeleteAsWrittenLosesLastActiveAdmin | UsersRoutes.DeleteKeepsAnActiveAdmin |
| client/src/components/quiz/QuestionRenderer.jsx:127-128 | the true/false group shows `currentAnswer \|\| ''` | choosing False stores `false`, which shows as '': no radio is selected | the chosen radio stays selected (`?? ''`) | not executed | QuestionRenderer.FalseChoiceNotShown | QuestionRenderer.ChoiceShown |
| client/src/components/common/InstructorBrowser.jsx:65-206 | the listing hides rejected connections, so the card offers Send Request, but routes/connections.js:24-33 refuses any existing connection | a student whose request was rejected: the button is enabled and the server answers 400 | the button is offered only when the server would accept the request | not executed | InstructorBrowser.RejectedRequestOfferedButRefused | InstructorBrowser.SendRequestOfferedOnlyWhenAllowed |
| client/src/pages/QuizReviewPage.jsx:85-256 | `answer?.selectedAnswer \|\| null` turns a stored 0 or `false` into null | a student who chose the first option (0) or False: the question is marked incorrect but no row carries "Your Answer" | the stored answer is shown whatever its value (`?? null`) | not executed | QuizReviewPage.FirstOptionNotMarked | QuizReviewPage.StoredAnswerMarked |
