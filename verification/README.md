# A verified model of the learning platform's core rules

This project models, in Dafny, the parts of the platform whose correctness depends on more than one
function: the quiz engine, sessions and membership, curriculum structure, and four pieces of text and
money handling. Each module states what its code is for and proves it for every input, every run or every
interleaving. Verify the whole project with `dafny verify dfyconfig.toml`.

## What is modelled

**Quiz engine.** `Quiz` holds the question types, `Grading` and `GraphMatching` how answers are marked,
`RightAnswers` which answers are right, said without grading's own tests, `Authoring` the validator and
`WellMade` what it lets through, `QuestionBank` the copier between quizzes and the bank, `LearnerView` what a
learner may see and does see.
`Attempts` is the attempt machine over the rows of one quiz, every operation a step on the whole state, and
`Desk` the class whose methods perform the same steps statement by statement, each proved equal to its step.
`AttemptRuns` holds the invariant and the agreement of the two roll-ups; `AttemptSafety` proves that every
step keeps the invariant and what that means over whole runs; `QuizSteps` what each step gives and refuses;
`Marks` that a marker's points are the points stored and counted; `AttemptAnswers` that what a learner last saved
is what is graded; `Uploads` and `Drawings` that a drawing is one learner's answer to one question.
`GradebookItem` says exactly which steps make the gradebook state the wrong worth, `Stranded` how an attempt
stops for good, and `AttemptWitnesses` gives runs from a new quiz on which each of these happens.

**Sessions and membership.** `Sessions` and `SessionSafety` cover refresh-token families, reuse detection,
password changes, reset links and the cross-workspace revocation job, with transactions serialised, and
`SignOut` whom each operation signs out for good and how long sessions and links last;
`RefreshRace` covers refreshes and replays of one family interleaved as read-committed transactions.
`LastOwner`, `LastOwnerSafety` and `LastOwnerLoss` cover demotions and removals interleaved lock by lock,
read by read and write by write, as read-committed transactions really run, `OwnerRank` that only owners
touch owners, and `Registration` the claiming
of an unclaimed workspace in the same manner.

**Curriculum.** `Prerequisites` covers the prerequisite graph and its reachability query, `Siblings` the
dense positions of topics, lessons and questions, `Curriculum` the stitching of lessons into topics,
`Keyset` the cursor pages of members, courses, certificates and the question bank.

**Text and money.** `BkashMoney` prints and parses amounts; `Utf8`, `Filename` and `FilenameStability` clean
upload names at the level of bytes; `Certificate` renders templates. `Text`, `Sorting`, `Sums`,
`Decimals` and `Prelude` are shared.

## Where the code and its own words differ

- *Graph questions.* Grading is greedy. It accepts exactly the responses that can be paired off if and
  only if the expected points are separated; for any other question some right answer is refused
  (`GraphMatching.GreedyIsCompleteIffSeparated`, `GraphMatching.OverlapRefusesARightAnswer`).
- *Puzzles.* The learner's view hides the answers of every question type except `puzzle`, whose pieces are
  shown in the order that is the answer (`LearnerView.ViewHidesAnswersIff`).
- *Image matching.* Validation and grading treat it as a matching, but the view at
  `internal/assess/view.go:127-140` lifts the matches out for `matching` only. An image matching is shown
  without any, so no response made of what its learner is shown is right. Every other machine-graded question
  can be answered from its view (`LearnerView.AnswerableFromTheViewIff`, `LearnerView.SomeImageMatchingIsValid`).
- *Attempt limits.* Past attempts are counted from a listing of at most fifty, so a limit above fifty is not
  enforced; at or below fifty it always is (`AttemptSafety.LimitIsExceededIff`). Every higher limit is passed
  by some run from a new quiz (`AttemptWitnesses.EveryHighLimitIsPassed`).
- *Removing a question.* It keeps an attempt's books straight exactly when no closed attempt loses awarded
  points or its last unmarked answer by it (`AttemptSafety.RemovalKeepsInvIffHarmless`). If it takes the last
  answer a person marks from an attempt awaiting review, that attempt waits for ever
  (`Stranded.RemovalStrandsIff`, `Stranded.UnmarkableForGood`, `AttemptWitnesses.AHarmfulRemovalIsReached`).
- *The gradebook item.* `internal/assess/completion.go:60-69` says the item follows the worth of the quiz and
  that an emptied quiz keeps its old one. There is a second exception: the mark that finishes an attempt
  restates the item with that attempt's frozen maximum, whatever the quiz is worth by then. Those two are all
  (`GradebookItem.ItemStaysRightIff`), and both happen (`AttemptWitnesses.EmptiedQuizKeepsItsItem`,
  `AttemptWitnesses.LateMarkRestatesTheItem`).
- *Jobs given up.* The queue discards a job that fails ten times (`internal/assess/jobs.go:26-31`,
  `internal/auth/jobs.go:25-29`). An attempt in grading is then left there for good
  (`Stranded.GivenUpForGood`), and a session of another workspace outlives its user's change of password
  (`SessionSafety.AGivenUpSweepLeavesASession`).
- *The last owner.* The comments at `internal/auth/postgres_members.go:221-225` and
  `internal/auth/members_service.go:311-313` say that locking first keeps two concurrent demotions apart.
  It does whenever the lock holds at least one row. A lock holds exactly those rows of its snapshot that
  still exist when it is granted, so it comes back empty if everyone it waited for is removed meanwhile,
  and then it excludes nobody. Every run without an empty lock keeps an owner
  (`LastOwnerSafety.ClaimedWorkspaceKeepsAnOwner`), one member who stays throughout is enough for that
  (`LastOwnerSafety.OneStayerIsEnough`), and from every claimed workspace some run with an empty lock loses
  all of them (`LastOwnerLoss.NoWorkspaceIsImmune`, `LastOwnerLoss.StayersKeepAnOwnerIff`). So with the rule at
  `internal/auth/members_service.go:325-328` that only an owner changes or removes an owner: it holds in every
  run without an empty lock (`OwnerRank.OnlyOwnersChangeOwners`), and from every workspace some run with one
  brings an admin to remove an owner promoted in the meantime (`OwnerRank.AnAdminCanRemoveAnOwner`).
- *Claiming a workspace.* The comment at `internal/auth/service.go:109-110` says the same lock keeps two
  simultaneous registrations from both creating an owner. An unclaimed workspace has no row to lock. While
  nobody is past the check, two can both become owners if and only if the workspace has no member
  (`Registration.TwoCanOwnIff`, and from any state `Registration.CanAddOwnersIff`). Bounding how many are past
  their check at once bounds the owners by that number and by no smaller one
  (`Registration.OverlapBoundsOwnersIff`).
- *Replayed refresh tokens.* The comment at `internal/auth/service.go:243-246` says a token that reaches the
  service twice ends its whole family. Two refreshes that read the token before either commits both succeed,
  because `internal/auth/postgres.go:187-196` does not look at how many rows its update matched: a commit
  leaves one good session more exactly when it matched none (`RefreshRace.CommitAddsOneIff`,
  `RefreshRace.BothStand`). A family keeps at most one good session under a bound on overlapping refreshes if
  and only if the bound is one (`RefreshRace.OverlapIsSafeIff`). A replay ends exactly the sessions its update
  could see, so a refresh committing meanwhile outlives it (`RefreshRace.AReplayMissesExactlyTheNewcomers`).
- *Opposite prerequisites.* The comment at `internal/catalog/prerequisites.go:90-92` says that asking inside
  the transaction protects two authors adding opposite edges at once. It does when transactions are
  serialised. Two checks made before either edge is stored let a loop in exactly when each new edge leads to
  the other's start (`Prerequisites.ConcurrentAddsCloseALoopIff`, `Prerequisites.OppositeEdgesCloseALoop`),
  and any number of them exactly when some stand in a ring (`Prerequisites.NewEdgesCloseALoopIff`).
- *File names.* Cleaning is not idempotent: a name cut at the limit right after a space keeps that space, and
  a second cleaning drops it. That is the only way (`FilenameStability.CleaningTwiceIsStableIff`), and there
  are such names (`FilenameStability.LongNamesAreCutAfterASpace`, `FilenameStability.SomeNameIsNotStable`).
- *Changing a password.* The session that asked is spared at once, and ended a little later by the job the
  change itself queued (`SessionSafety.DeliveryEndsOutdatedSessions`).
- *Redelivered revocations.* The comment at `internal/auth/maintenance.go:77-78` says a retried job revokes
  nothing. It revokes nothing if and only if no session of a login its user has made since the first delivery
  is still unrevoked, and otherwise it ends exactly those (`SessionSafety.RedeliveryRevokesNothingIff`,
  `SessionSafety.ARedeliveryEndsANewLogin`).

## Assumptions

Ids are unique and new ids are fresh, and `Id` orders as the printed ids do. A tenant-bound transaction is
one atomic step, except in the last-owner, registration and refresh-race models. A queued job may be delivered any number
of times; it completes only once a delivery of it has committed, and the queue may give it up at any time, as
it does after ten failures.
Numbers in ranges, points and regions are reals. `strconv.ParseFloat` and `unicode.ToLower` are parameters
(`Grading.Runtime`, and `lower` in `Text` and `Certificate`). A session is identified with the digest of its
token, and `createdAt` counts transactions. Templates are well-formed text; file names are arbitrary bytes.

## Model

| member | source | states |
|---|---|---|
| Text.NormaliseBlank | internal/assess/grade.go:365-371 | an answer normalises to nothing exactly when it is blank, so authoring and grading agree on what blank is |
| Text.FieldsOfJoin | internal/assess/grade.go:365-371 | splitting a joined list of words gives the words back |
| Text.SameAnswerIffSameWords | internal/assess/grade.go:365-371 | two case-sensitive answers compare equal exactly when they have the same words |
| Text.FieldsAroundSpace | internal/assess/grade.go:365-371 | a space parts the words before it from those after and adds none, so extra spaces never matter |
| Text.TrimSpaceTakesTheEnds | internal/assess/authoring.go:224-262 | trimming takes all the space at both ends and nothing else |
| GraphMatching.GradeGraph | internal/assess/grade.go:334-357 | the loop over a `spent` array computes the greedy verdict |
| GraphMatching.ServeExpectation | internal/assess/grade.go:344-355 | one inner scan spends the first free point near enough, or reports there is none, and touches nothing else |
| GraphMatching.GraphVerdictIsSound | internal/assess/grade.go:329-357 | acceptance yields a bijection between expected and plotted points, each pair within tolerance |
| GraphMatching.GraphVerdictIsExact | internal/assess/grade.go:329-357 | on a response where any two expectations have equal or disjoint neighbours, acceptance is the same as the existence of such a bijection |
| GraphMatching.NeverStuck | internal/assess/grade.go:344-355 | the exchange argument: while a matching exists the next expectation always has an unspent neighbour |
| GraphMatching.OverlapRefusesARightAnswer | internal/assess/grade.go:334-357 | for every question whose expectations overlap there is a right answer that grading refuses |
| GraphMatching.GreedyIsCompleteIffSeparated | internal/assess/grade.go:329-357 | greedy grading is exact on all responses if and only if distinct expectations are more than twice the tolerance apart on an axis |
| GraphMatching.ExactPointsAreGradedExactly | internal/assess/grade.go:329-357 | with tolerance zero greedy grading is exact on every response |
| Grading.GradeSingleChoice | internal/assess/grade.go:178-196 | right exactly when one id is chosen, one option is correct, and they are the same |
| Grading.GradeMultipleChoice | internal/assess/grade.go:203-228 | right exactly when the chosen set is the correct set and that is not empty |
| Grading.GradeBlanks | internal/assess/grade.go:248-271 | right exactly when every blank normalises to something and matches one of its accepted spellings |
| Grading.GradeOrdering | internal/assess/grade.go:278-292 | right exactly when the submitted ids are the items sorted by position |
| Grading.GradeMatching | internal/assess/grade.go:300-311 | right exactly when there are as many pairs as options and each option's pair is its own |
| Grading.GradePin | internal/assess/grade.go:316-327 | right exactly when the point lies in some region |
| Grading.GradeAnswer | internal/assess/grade.go:74-109 | the dispatcher computes the verdict function for every type, unknown ones included |
| Grading.GradeAttempt | internal/assess/grade.go:143-159 | one pass over the questions yields every verdict, their total, the quiz's worth, and whether a person is needed |
| Grading.VerdictIsBounded | internal/assess/grade.go:74-109 | a verdict awards all of the question's points or none, none for a question a person marks, and is manual exactly for those |
| Grading.EmptyResponseEarnsNothing | internal/assess/grade.go:74-371 | the empty response earns zero on every question, validated or not |
| Grading.PassedIffPercentReachesBar | internal/assess/assess.go:346-351 | for a positive maximum the integer pass test holds exactly when the rounded-down percentage reaches the bar |
| RightAnswers.ShortAnswerIsRightIff | internal/assess/grade.go:248-271 | a short answer is right if and only if it has a word and the same words as some accepted spelling, letter for letter when case matters and but for case when it does not |
| RightAnswers.FillBlanksIsRightIff | internal/assess/grade.go:248-271 | a fill-in is right if and only if there are as many texts as blanks and each does so for its own blank |
| RightAnswers.SameTextIsWordByWord | internal/assess/grade.go:360-371 | for any folding of case that keeps spaces, comparing folded texts is comparing them word by word |
| RightAnswers.SingleChoiceIsRightIff | internal/assess/grade.go:178-196 | one choice, naming the option that is correct and alone in it |
| RightAnswers.MultipleChoiceIsRightIff | internal/assess/grade.go:203-228 | exactly the correct options are chosen, of which there are some: no subset, no superset |
| RightAnswers.RangeIsRightIff | internal/assess/grade.go:236-246 | a number neither below the lower bound nor above the upper, both bounds being numbers |
| RightAnswers.PinIsRightIff | internal/assess/grade.go:316-327 | a point in or on the edge of some region, and none beside them all |
| RightAnswers.RightOrNothing | internal/assess/grade.go:74-109 | a right answer earns all the points and any other none; unknown types and those a person marks are never right |
| RightAnswers.PassedIff | internal/assess/grade.go:161-172 | a quiz worth nothing is passed, and any other exactly by the share of its points the bar asks for |
| Grading.MatchingHasOneAnswer | internal/assess/grade.go:300-311 | with distinct items and real match ids the authored pairs are the only right matching |
| Grading.AnyManualIs | internal/assess/grade.go:143-159 | an attempt waits for review exactly when some question is marked by a person |
| Authoring.Validate | internal/assess/authoring.go:90-269 | the validator accepts exactly the questions that satisfy the common rules and those of their type |
| Authoring.ValidateKind | internal/assess/authoring.go:111-222 | the rules of one type, decided from the counted correct options |
| Authoring.ValidateAccepted | internal/assess/authoring.go:224-262 | accepted spellings are present and not blank where they are used and absent where they are not |
| Authoring.ValidQuestionsAreAnswerable | internal/assess/authoring.go:90-269 | every machine-graded question that passes validation is graded right, for full points, by the response its own key describes |
| Authoring.OrderingHasOneAnswer | internal/assess/grade.go:278-292 | a saved ordering or puzzle has exactly one right sequence, the items as the author wrote them |
| Authoring.SingleChoiceHasOneAnswer | internal/assess/grade.go:178-196 | a saved single-choice question is answered right by its one correct option and nothing else |
| Authoring.StoredAsNumbered | internal/assess/postgres.go:245-308 | a stored question carries the ids and the position it was given and its options as authored, numbered from zero |
| WellMade.CanBeSavedIff | internal/assess/authoring.go:90-269 | a question can be saved if and only if its prompt and options have words, its points are not negative, and its options, spellings, bounds and picture fit its type, counted and worded afresh; the validator's last check refuses nothing more |
| Desk.QuizDesk.CreateQuestion | internal/assess/postgres.go:245-308 | the question goes one past the highest position, its options ranked in the author's order, and nothing else changes |
| QuestionBank.BankDesk.SaveToBank | internal/assess/postgres_bank.go:74-113 | the question and its options are written to the bank with positions and without their ids |
| QuestionBank.BankDesk.SaveQuestionToBank | internal/assess/bank.go:42-62 | a question missing from the quiz is refused; any other is banked as the author wrote it |
| QuestionBank.BankDesk.AddBankQuestionToQuiz | internal/assess/bank.go:127-156 | a missing question, one no longer valid and a lesson without a quiz are refused in that order without a trace; any other is stored under fresh ids at the next position and the gradebook told |
| QuestionBank.StoredRoundTrip | internal/assess/postgres_bank.go:16-61 | loading a stored question gives the author's form back, in whatever order the option rows come |
| QuestionBank.BankRoundTrip | internal/assess/postgres_bank.go:16-113 | loading a banked question gives the author's form back, in whatever order the option rows come |
| QuestionBank.TheCategoryIsKept | internal/assess/postgres_bank.go:74-113 | a banked question is filed under the category asked for |
| QuestionBank.CopyStillValidates | internal/assess/bank.go:127-156 | a question valid when written passes the validation repeated when it is copied out of the bank |
| QuestionBank.CopyGradesTheSame | internal/assess/grade.go:74-109 | under injective renamings of option and match ids every response gets the verdict its renaming gets on the copy, for all types |
| QuestionBank.BankCopyGradesTheSame | internal/assess/postgres_bank.go:16-113 | quiz to bank to quiz preserves grading of every response, through the exchange of old ids and new |
| LearnerView.QuestionForLearner | internal/assess/view.go:103-152 | the appends and in-place sorts build the view: options by id for an ordering, matches lifted and sorted for a matching, answers nowhere |
| LearnerView.ForLearner | internal/assess/view.go:84-101 | one view a question, in order, and the running total of their points |
| LearnerView.SameFaceSameView | internal/assess/view.go:103-152 | questions that differ only in their answers have identical views, puzzles excepted |
| LearnerView.PuzzleViewIsTheAnswer | internal/assess/view.go:127-140 | a puzzle's right order is exactly the order its view shows |
| LearnerView.ViewHidesAnswersIff | internal/assess/view.go:103-152 | the view is independent of the answers for every type if and only if the type is not puzzle |
| LearnerView.TheQuestionIsShown | internal/assess/view.go:103-125 | prompt, points, position, base image and number of blanks are shown as they are, no blanks for a short answer |
| LearnerView.TheOptionsAreShown | internal/assess/view.go:127-152 | every option is shown once with its words, an ordering's sorted by id and any other's in place |
| LearnerView.TheMatchesAreShown | internal/assess/view.go:127-140 | a matching shows every second half once, sorted by id, and nothing else shows any |
| LearnerView.EveryQuestionIsShown | internal/assess/view.go:84-101 | the i-th view is of the i-th question |
| LearnerView.AnswerableFromTheViewIff | internal/assess/view.go:127-140 | a saved machine-graded question can be answered right with the ids its view shows if and only if it is not an image matching |
| LearnerView.KeyIsShown | internal/assess/view.go:103-152 | the view of every other type shows every id its key uses |
| LearnerView.ImageMatchingShowsNoMatches | internal/assess/view.go:127-140 | no response made of the ids an image matching shows is right |
| LearnerView.SomeImageMatchingIsValid | internal/assess/authoring.go:90-269 | an author can save an image matching |
| Attempts.Find | internal/assess/review.go:219-226 | the search returns a question of that id, and nothing exactly when there is none |
| Desk.QuizDesk.SyncItem | internal/assess/completion.go:71-88 | the item becomes the sum of the questions' points, and a sum of nothing leaves the item there was |
| Desk.QuizDesk.EnsureItem | internal/grade/service.go:101-115 | an item is written only for something worth more than nothing |
| Desk.QuizDesk.AppendQuestion | internal/assess/service.go:218-251 | an invalid question is refused without a trace; a valid one goes last, at the next position, and the gradebook is told |
| Desk.QuizDesk.DeleteQuestion | internal/assess/service.go:254-273 | the question and its answers go, the rest keep their order, the gradebook is told; an unknown id changes nothing |
| Desk.QuizDesk.ListAttempts | internal/assess/postgres.go:494-517 | the listing holds distinct attempts of the learner, newest first, none newer left out, cut at the limit and not before |
| Desk.QuizDesk.NextAttemptNumber | internal/assess/postgres.go:422-428 | max plus one is the next number of a learner whose attempts are numbered without gaps |
| Desk.QuizDesk.Start | internal/assess/service.go:333-401 | an empty quiz and an exhausted limit are refused, an open attempt is handed back with nothing changed, otherwise the next number opens with its deadline |
| Desk.QuizDesk.Save | internal/assess/service.go:409-437 | a response is upserted on the live attempt unless there is none, time is up, the upload key is not the learner's own, or the question is not of this quiz, in that order |
| Desk.QuizDesk.CloseAttempt | internal/assess/postgres.go:560-575 | only an attempt in progress moves to grading, and the answer says whether it did |
| Desk.QuizDesk.Submit | internal/assess/service.go:543-581 | the live attempt is closed and its job queued in the same step |
| Desk.QuizDesk.WriteGrades | internal/assess/postgres.go:612-646 | every verdict is upserted on its own row, the response kept, and an empty list writes nothing |
| Desk.QuizDesk.FinishGrading | internal/assess/postgres.go:649-665 | points, maximum, status and pass mark are stored on the attempt from grading's totals |
| Desk.QuizDesk.RunGradingJob | internal/assess/service.go:590-663 | an attempt not in grading is left alone; one in grading is graded, written, finished and published in one step |
| Desk.QuizDesk.Work | internal/assess/jobs.go:47-66 | the worker takes a deleted attempt for done, and remembers that a delivery has committed |
| Desk.QuizDesk.Record | internal/assess/completion.go:90-102 | the gradebook hears of an attempt only when it is graded and worth something, and its item then takes the attempt's own maximum |
| Desk.QuizDesk.Settle | internal/assess/completion.go:113-120 | the lesson is completed only when the attempt is graded a pass |
| Desk.QuizDesk.Summarise | internal/assess/postgres_review.go:96-122 | the points of the rows are added up and the unmarked ones found, in whatever order rows come |
| Desk.QuizDesk.RecomputeAttempt | internal/assess/postgres_review.go:96-134 | points, status and pass mark are restated from the rows against the frozen maximum |
| Desk.QuizDesk.StoreMark | internal/assess/postgres_review.go:65-84 | the guarded update marks one answer row of an attempt awaiting review, or reports that it matched none |
| Desk.QuizDesk.Mark | internal/assess/review.go:126-217 | the checks in their order, then the mark, the recomputed attempt and its publication, all or nothing |
| Attempts.NextNumber | internal/assess/postgres.go:422-440 | without gaps, one past the highest number is one more than the count |
| AttemptRuns.RollUpsAgree | internal/assess/postgres_review.go:96-122 | recomputing from the rows the job wrote gives the points, status and pass mark the job stored |
| AttemptRuns.WrittenSums | internal/assess/postgres.go:612-646 | over ungraded rows the written points add up to what grading awarded |
| AttemptRuns.WrittenRow | internal/assess/postgres.go:612-646 | each written row carries its own verdict |
| AttemptRuns.WrittenKeys | internal/assess/postgres.go:612-646 | rows exist for the graded questions and those already answered, and for no others |
| AttemptRuns.JobRows | internal/assess/service.go:590-663 | after the job there is a row for every question, worth between nothing and the question's points |
| AttemptRuns.JobLeavesUnmarked | internal/assess/service.go:615-638 | after the job some row is unmarked exactly when some question needs a person |
| AttemptRuns.WorthSums | internal/assess/completion.go:71-88 | a quiz is worth the sum of its questions counted by id |
| AttemptRuns.PointsWithinMax | internal/assess/postgres_review.go:86-122 | a closed attempt's points lie between zero and its frozen maximum |
| AttemptSafety.StepKeepsInv | internal/assess/service.go:333-663 | every step whose removals are harmless keeps the invariant over questions, attempts, rows, jobs, numbers, logs and the presence of a gradebook item |
| AttemptSafety.DeliverKeepsInv | internal/assess/service.go:590-663 | delivering a grading job, first or again, keeps the invariant |
| AttemptSafety.MarkKeepsInv | internal/assess/review.go:126-217 | marking an answer keeps the invariant |
| AttemptSafety.RemovalKeepsInvIffHarmless | internal/assess/postgres.go:344-367 | removing a question keeps the invariant if and only if no closed attempt loses awarded points or its last unmarked answer |
| AttemptSafety.RunKeepsInv | internal/assess/service.go:333-663 | the invariant holds after every permitted run whose removals are harmless |
| AttemptSafety.ReachedAttemptIsConsistent | internal/assess/service.go:543-663 | in every state such a run reaches passed is set exactly when graded, a closed attempt's points are the sum of its rows and within its maximum, it awaits review exactly when a row is unmarked, and an attempt in grading has a job no delivery of which committed, still queued unless it was discarded |
| AttemptSafety.ReachedBooksAreStraight | internal/assess/completion.go:90-120 | in every such state attempts are numbered exactly 1 to n, at most one is live and it is the newest, each graded attempt has exactly one score if worth anything and one completion if passed, and a quiz worth something has an item |
| AttemptSafety.NewestIsOnlyLive | internal/assess/postgres.go:443-457 | a learner's live attempt being their newest leaves room for only one |
| AttemptSafety.RunMovesForward | internal/assess/postgres.go:560-665 | over any permitted run of one quiz, harmful removals included, no attempt is lost or moves back, a frozen maximum and a final grade never change, and the logs only grow |
| AttemptSafety.MarkStands | internal/assess/review.go:126-217 | over any permitted run, redeliveries included, a closed attempt's answer is what it was unless that very answer is marked again or its question removed |
| Marks.AMarkIsStored | internal/assess/postgres_review.go:65-84 | an accepted mark stores exactly the marker's points on that answer, graded, correct if and only if they are all its points, the response kept; every other answer of every attempt is unchanged, and the attempt is restated from its rows |
| Marks.AMarkIsAcceptedIff | internal/assess/review.go:126-217 | accepted exactly for a row of a question a person marks, in an attempt awaiting review, for no fewer than no points and no more than it has |
| Marks.AMarkIsRefusedFor | internal/assess/review.go:126-217 | each refusal exactly for its own reason |
| Marks.TheLastMarkStands | internal/assess/review.go:126-217 | over any run a closed attempt's answer carries the points of its last accepted mark, and unmarked what it had |
| Marks.PointsAreVerdictsAndMarks | internal/assess/postgres_review.go:86-134 | from the delivery on, over any run with harmless removals, an attempt's points are the machine's verdicts on the saved responses with each marked question's last mark instead |
| Marks.TheMaximumIsFrozen | internal/assess/postgres.go:649-665 | what it is out of stays the quiz's worth at the delivery, over any run |
| AttemptSafety.RedeliveryChangesNothing | internal/assess/jobs.go:50-66 | once a submitted attempt's job has been delivered, delivering it again after any permitted run changes nothing at all |
| AttemptSafety.GradingIsPublishedAtOnce | internal/assess/completion.go:90-120 | the step that makes an attempt graded is the step that scores it, and completes the lesson exactly if it passed |
| AttemptSafety.LimitIsExceededIff | internal/assess/service.go:355-366 | an attempt opens above the limit in force if and only if the limit is more than fifty and already used up |
| QuizSteps.AnOpenAttemptIsHandedBack | internal/assess/service.go:328-358 | with a question and an open attempt, starting is accepted whatever the limit and changes nothing |
| QuizSteps.StartingAgainAndAgain | internal/assess/service.go:328-358 | however often a learner starts, until they hand in nothing changes |
| QuizSteps.StartingTwiceIsStartingOnce | internal/assess/service.go:328-401 | an accepted start repeated changes nothing more |
| QuizSteps.StartingIsRefusedIff | internal/assess/service.go:333-366 | refused as empty exactly without questions, and as exhausted exactly with a question, no open attempt, and a limit from one to fifty already reached |
| QuizSteps.AnOpenedAttemptKeepsItsDeadline | internal/assess/service.go:368-401 | an attempt that opens gets the next number and the deadline of the limit in force, changes no other attempt, and keeps both over any run |
| QuizSteps.HandingInClosesTheAttempt | internal/assess/service.go:543-581 | handing in moves the open attempt to grading, queues its job, changes nothing else, and leaves nothing to save into or hand in |
| QuizSteps.ANewQuestionStandsLast | internal/assess/postgres.go:245-262 | a new question's position is past every other's, one past the highest, and zero in an empty quiz |
| QuizSteps.AddingAddsOnlyThat | internal/assess/service.go:218-251 | the question stands after the others, and nothing but the gradebook's item changes besides |
| QuizSteps.WithoutKeepsOrder | internal/assess/service.go:254-273 | the questions left stand in the order they stood in |
| QuizSteps.RemovingTakesOnlyThat | internal/assess/service.go:254-273 | a removal takes the question and its answers, and every other answer of every attempt stays as it was |
| QuizSteps.ASaveIsRefusedFor | internal/assess/service.go:409-437 | no open attempt, time up, a foreign upload, a question not of the quiz: each refusal exactly where none before it applies |
| AttemptWitnesses.EveryHighLimitIsPassed | internal/assess/service.go:355-366 | whatever the limit above fifty, some run from a new quiz opens an attempt numbered above it |
| AttemptWitnesses.AnyNumberOfAttempts | internal/assess/service.go:333-401 | from any state with a question, such a limit and no live attempt, n starts and submissions open n more attempts |
| AttemptWitnesses.AHarmfulRemovalIsReached | internal/assess/postgres.go:344-367 | some run from a new quiz reaches an attempt awaiting review whose only essay can be removed, which breaks the books and strands the attempt |
| GradebookItem.ItemStaysRightIff | internal/assess/completion.go:56-102 | from a state where the item equals the quiz's worth, a step leaves it equal if and only if it neither strips the quiz of all worth nor finishes an attempt scored out of another total |
| GradebookItem.RunKeepsItemRight | internal/assess/completion.go:56-102 | over any run without such a step the item equals the worth |
| GradebookItem.EditingPutsTheItemRight | internal/assess/completion.go:71-88 | adding or removing a question puts a wrong item right unless the quiz is left worth nothing |
| AttemptWitnesses.EmptiedQuizKeepsItsItem | internal/grade/service.go:101-104 | a quiz stripped of its only question is worth nothing while its item goes on saying what it was worth |
| AttemptWitnesses.LateMarkRestatesTheItem | internal/grade/postgres.go:35-46 | an essay marked after another question was added sets the item back to that attempt's maximum |
| Stranded.UnmarkableIff | internal/assess/review.go:126-217 | an attempt awaiting review is stuck exactly when no mark of any question, for any points, is accepted |
| Stranded.RemovalStrandsIff | internal/assess/postgres.go:344-367 | removing a question strands an attempt awaiting review exactly when no other question a person marks has a row in it |
| Stranded.UnmarkableForGood | internal/assess/review.go:126-217 | no later run, whatever it adds, removes, delivers or marks, moves a stranded attempt |
| Stranded.GradingCanFinishIff | internal/assess/jobs.go:26-66 | an attempt in grading can be delivered out of it if and only if its job was not given up |
| Stranded.GivenUpForGood | internal/assess/jobs.go:26-31 | an attempt whose job was given up undone stays in grading over every run |
| AttemptWitnesses.AGivenUpJobIsReached | internal/assess/jobs.go:26-31 | some run from a new quiz gets there |
| AttemptAnswers.SaveIsAcceptedIff | internal/assess/service.go:409-437 | a save is accepted if and only if an attempt is open, its deadline has not passed, any upload lies under the learner's own prefix, and the question is in the quiz |
| AttemptAnswers.JobGradesTheSavedResponse | internal/assess/postgres.go:578-646 | the job keeps a saved response and writes the verdict on exactly that response |
| AttemptAnswers.RunHolds | internal/assess/service.go:409-663 | what an attempt holds for a question survives every run, retakes and refused saves included, in which no save of it into this attempt is accepted and the question is not removed |
| AttemptAnswers.LastSavedResponseIsGraded | internal/assess/service.go:409-663 | after any such run the last saved response is still there, and a closed attempt's machine-graded answer carries the verdict on it and no other |
| Uploads.NoKeyIsSharedByTwo | internal/assess/service.go:523-532 | a key under two learners' prefixes, two questions' or two attempts' cannot exist |
| Uploads.OwnKeysAreOwn | internal/assess/service.go:523-532 | the key a learner is given for a drawing is one they may save |
| Drawings.RunKeepsUploads | internal/assess/service.go:424-434 | over any run every stored upload lies under its own learner's prefix for that answer of that attempt |
| Drawings.NoDrawingServesTwoAnswers | internal/assess/service.go:424-434 | in no reached state do two answers name the same drawing |
| Sessions.SessionStore.StartSession | internal/auth/service.go:413-441 | a login begins a family rooted at its own session |
| Sessions.SessionStore.RotateSession | internal/auth/postgres.go:187-196 | an unrevoked session is revoked and pointed at its successor; any other is left alone |
| Sessions.SessionStore.RefreshToken | internal/auth/service.go:247-360 | a rotated token revokes its family, a dead, unknown or unauthorised one is refused without a trace, a live one is exchanged for a successor in the same family |
| Sessions.SessionStore.EndSession | internal/auth/service.go:363-374 | logging out revokes that session and no other |
| Sessions.SessionStore.RevokeAllUserSessions | internal/auth/postgres_members.go:290-299 | every session of the user in this workspace is revoked and nothing else changes |
| Sessions.SessionStore.Change | internal/auth/account.go:82-142 | with the current password verified, every other session here is revoked and the cross-workspace job queued in the same step; otherwise nothing |
| Sessions.SessionStore.Request | internal/auth/credentials.go:97-155 | an address that is no active member's is passed over in silence; for any other, earlier reset links of the user are spent before the new one is issued |
| Sessions.SessionStore.ConsumeToken | internal/auth/postgres_credentials.go:66-75 | a token is spent by exactly the call that finds it unspent |
| Sessions.SessionStore.Reset | internal/auth/credentials.go:168-225 | a live link of a member spends itself, revokes here and queues the job; any failure rolls everything back |
| Sessions.SessionStore.RevokeSessionsEverywhere | internal/auth/maintenance.go:79-96 | one delivery revokes every session of the job's user in every workspace and reports how many it ended |
| SessionSafety.RotationExtendsChain | internal/auth/service.go:288-309 | a refresh appends the successor to its family's chain |
| SessionSafety.StepKeepsChains | internal/auth/service.go:247-441 | every operation keeps each family a single acyclic chain |
| SessionSafety.ReachedFamilyIsAChain | internal/auth/service.go:247-441 | in every reached state a family is one chain from its root login, each session but the last revoked and pointing at the next, and only the last can be unrevoked |
| SessionSafety.RunMovesForward | internal/auth/postgres.go:187-225 | over a run rows are never lost, revocations and rotations are never undone, spent links stay spent |
| SessionSafety.RotatedTokenIsAlwaysAReplay | internal/auth/service.go:262-273 | a token once exchanged is recognised as a replay after any later run |
| SessionSafety.ReuseEndsTheFamilyForGood | internal/auth/service.go:339-360 | after a rotated token is presented no session of its family is unrevoked in any later state |
| SessionSafety.AReplayStaysAtHome | internal/auth/postgres.go:198-213 | in every reached state a replay ends its token's whole family and nothing else, and that family is one user's in one workspace |
| SessionSafety.RotationKeepsPasswords | internal/auth/service.go:288-309 | a refresh in any workspace leaves an outdated successor covered by the job that covered its predecessor |
| SessionSafety.StepKeepsPasswords | internal/auth/credentials.go:168-225 | every operation keeps outdated unrevoked sessions covered by the unswept job of the latest change |
| SessionSafety.ReachedOutdatedSessionIsDoomed | internal/auth/credentials.go:168-225 | in every reached state an unrevoked session whose family began before its user's latest password change has that change's job unswept, and still queued if and only if it has not been discarded |
| SessionSafety.DeliveryEndsOutdatedSessions | internal/auth/postgres_maintenance.go:75-84 | delivering that job revokes the outdated session and every other of its user, the one the change had spared included |
| SessionSafety.AGivenUpSweepLeavesASession | internal/auth/jobs.go:25-29 | some run discards the job, after which nothing is queued and the outdated session is exchanged like any other |
| SessionSafety.RedeliveryRevokesNothingIff | internal/auth/maintenance.go:75-96 | over any run between two deliveries of a revocation job, the second changes nothing if and only if no session of a login its user has made since the first is still unrevoked; what it ends is exactly those |
| SessionSafety.RedeliveryRevokesOnlyNewLogins | internal/auth/maintenance.go:75-96 | whatever a redelivery revokes was not there at the first delivery, nor was its family |
| SessionSafety.ARedeliveryEndsANewLogin | internal/auth/maintenance.go:75-96 | some permitted run logs in with the new password between two deliveries of the change's own job, and the second ends that session |
| SessionSafety.ResetLinkWorksOnce | internal/auth/credentials.go:184-203 | a reset link is accepted at most once over any run |
| SessionSafety.OnlyTheNewestLinkWorks | internal/auth/credentials.go:131-142 | asking for a link puts every earlier one of that user out of use for good |
| SignOut.SignedOutForGood | internal/auth/service.go:276-280 | a revoked session's token is never exchanged in any later state |
| SignOut.AResetSignsOutHere | internal/auth/credentials.go:168-225 | an accepted reset revokes every session of its user in this workspace, none of which is ever exchanged again, touches no other, spends its link and queues the job; a refused one does nothing |
| SignOut.AChangeSignsOutTheOthersHere | internal/auth/account.go:82-142 | a verified change does so for every session here but the one it is made from; an unverified one does nothing |
| SignOut.ALogoutEndsOneSession | internal/auth/service.go:363-374 | a logout ends that session, for good, and no other |
| SignOut.AnExpulsionSignsOutHere | internal/auth/postgres_members.go:290-299 | a member removed or given another role is signed out of this workspace for good, and of no other |
| SignOut.AnExchangeSwapsOneForOne | internal/auth/service.go:247-336 | an exchange succeeds exactly for an unrevoked, unexpired, never exchanged token of this workspace and an active member; it gives one session of the same user and family, good for thirty days, for the one it ends |
| SignOut.ALoginIsGoodForThirtyDays | internal/auth/service.go:413-441 | a login adds one session of that user here, good for thirty days, and changes no other |
| SignOut.GoodForThirtyDays | internal/auth/service.go:262-289 | over any run a session is exchanged, in its own workspace only, exactly while it is unrevoked, thirty days have not passed and its user is an active member |
| SignOut.ALinkIsGoodForAnHour | internal/auth/credentials.go:97-203 | over any run a mailed link is accepted, in its own workspace only, exactly until it is spent or an hour has passed, from an active member |
| SignOut.AskingTouchesTheirOwnLinks | internal/auth/credentials.go:97-155 | asking spends the user's own links here and nobody else's, and a stranger's asking changes nothing |
| RefreshRace.OneAtATimeLeavesOne | internal/auth/service.go:247-336 | in every interleaving in which a family's refreshes do not overlap, at most one of its sessions is unrevoked |
| RefreshRace.CommitAddsOneIff | internal/auth/postgres.go:187-196 | a refresh leaves one good session more exactly when its update of the token's row matched nothing |
| RefreshRace.MatchedUpdatesLeaveOne | internal/auth/postgres.go:187-196 | overlapping or not, refreshes whose updates all match leave a family one good session at most |
| RefreshRace.BothStand | internal/auth/service.go:262-309 | two refreshes that read one token before either commits both succeed, and both successors are good |
| RefreshRace.CommittedExchangeIsSeen | internal/auth/service.go:269-273 | a token read after its exchange committed is taken for a replay exactly if that exchange's update matched or it had been rotated before |
| RefreshRace.AnyNumberStand | internal/auth/service.go:247-336 | with two refreshes at a time some run brings a family to any number of good sessions |
| RefreshRace.OverlapIsSafeIff | internal/auth/service.go:247-336 | a bound on how many refreshes of a family overlap bounds its good sessions if and only if the bound is one |
| RefreshRace.AReplayMissesExactlyTheNewcomers | internal/auth/service.go:339-360 | when a replay commits, over any run since its update began, the good sessions left in the family are exactly those inserted since |
| RefreshRace.TheRaceBeginsAnywhere | internal/auth/service.go:339-360 | a refresh that commits between a replay's update and its commit leaves its successor as the one good session of the family |
| RefreshRace.AReplayCanLose | internal/auth/service.go:339-360 | some run from an empty table reaches such a moment |
| RefreshRace.AloneItIsTheSerialStep | internal/auth/service.go:247-360 | with nobody in between, the statements of a refresh or a replay add up to the one serialised operation |
| LastOwnerSafety.StepKeepsDiscipline | internal/auth/postgres_members.go:242-285 | every statement keeps: locks are held by live transactions on existing rows, and a transaction holds every surviving row of its snapshot it is done with |
| LastOwnerSafety.FinishedLockHoldsTheSurvivors | internal/auth/postgres_members.go:242-253 | a finished lock holds exactly the rows of its snapshot that still exist, so it is empty exactly when all are gone |
| LastOwnerSafety.LocksExclude | internal/auth/postgres_members.go:237-253 | two transactions are never past their locks together unless one lock came back empty |
| LastOwnerSafety.CommitKeepsOwned | internal/auth/members_service.go:335-349 | a commit takes an owner away only if its own count still stands |
| LastOwnerSafety.JoinKeepsOwned | internal/auth/members_service.go:117-228 | an accepted invitation between a count and its write does no harm |
| LastOwnerSafety.StepKeepsOwned | internal/auth/members_service.go:299-413 | every statement keeps an active owner while locks are not empty |
| LastOwnerSafety.ClaimedWorkspaceKeepsAnOwner | internal/auth/members_service.go:299-413 | every interleaving of demotions, removals and arrivals in which no lock comes back empty keeps an active owner |
| LastOwnerSafety.OneStayerIsEnough | internal/auth/members_service.go:299-413 | if any one membership lasts through the run, an active owner remains |
| OwnerRank.AReadGoesOnIff | internal/auth/members_service.go:317-345 | a read goes on to count exactly when an owner acts on an owner, to write exactly when anybody acts on somebody who is not one, and otherwise ends |
| OwnerRank.ACommitDoesWhatWasAsked | internal/auth/members_service.go:347-413 | a commit removes the member or gives the role asked for, and changes nothing else about anybody |
| OwnerRank.OnlyOwnersChangeOwners | internal/auth/members_service.go:325-331 | in every interleaving in which no lock comes back empty, a commit by anybody but an owner leaves the owners who they were, and no commit is on the actor's own membership |
| OwnerRank.AnAdminCanRemoveAnOwner | internal/auth/members_service.go:383-387 | from every workspace some run with an empty lock brings an admin to the removal of an owner |
| LastOwnerLoss.CanRemove | internal/auth/members_service.go:368-413 | with no locks held an owner can remove anybody else who is not the last owner, so the model is not safe by refusing to move |
| LastOwnerLoss.NoWorkspaceIsImmune | internal/auth/members_service.go:311-316 | from every claimed workspace some run with an empty lock leaves no owner |
| LastOwnerLoss.StayersKeepAnOwnerIff | internal/auth/members_service.go:299-413 | knowing which memberships last through a run guarantees an owner if and only if there is at least one |
| Registration.OwnersNeverExceedTheOverlap | internal/auth/service.go:109-135 | on an unclaimed workspace registrations never make more owners than there were registrations past their check at once |
| Registration.AnyNumberGetPastTheCheck | internal/auth/service.go:109-121 | from any workspace without members the lock holds nothing, and any number more get past the check together |
| Registration.AnyNumberCanOwn | internal/auth/service.go:109-135 | for every number some run with that overlap and no more makes that many owners |
| Registration.OverlapBoundsOwnersIff | internal/auth/service.go:109-135 | all runs whose overlap is at most m make at most k owners if and only if m is at most k |
| Registration.CanAddOwnersIff | internal/auth/service.go:109-135 | from any state some run adds n owners if and only if the workspace has no member or n registrations are past their check already |
| Registration.TwoCanOwnIff | internal/auth/service.go:109-121 | with nobody past the check, two can both become owners if and only if there is no member; with a member, no run of registrations changes the members at all |
| Prerequisites.Reachable | internal/catalog/postgres_prerequisites.go:77-86 | the worklist terminates on every graph, cyclic or not, and returns exactly what is reachable |
| Prerequisites.NewEdgeReach | internal/catalog/postgres_prerequisites.go:66-86 | a new edge opens exactly the ways that pass through it |
| Prerequisites.EdgeClosesALoopIff | internal/catalog/prerequisites.go:86-99 | on an acyclic graph an edge closes a loop if and only if its course is reachable from what it would require |
| Prerequisites.CourseGraph.AddPrerequisite | internal/catalog/prerequisites.go:75-112 | an edge is stored exactly when both courses exist, it is new and no loop closes; each refusal has exactly its own cause |
| Prerequisites.CourseGraph.RemovePrerequisite | internal/catalog/prerequisites.go:117-143 | the edge goes, and an absent one is reported as not found |
| Prerequisites.RunStaysAcyclic | internal/catalog/prerequisites.go:75-143 | no run of additions and removals stores a loop |
| Prerequisites.EverySetCanBeTaken | internal/catalog/prerequisites.go:75-112 | on an acyclic graph every set of courses has an order in which each follows all it requires |
| Prerequisites.ReachedCoursesCanBeTaken | internal/catalog/prerequisites.go:75-143 | after any run every set of courses can be taken in some order |
| Prerequisites.ConcurrentAddsCloseALoopIff | internal/catalog/prerequisites.go:90-99 | two edges checked against the same graph close a loop if and only if each leads to the other's start |
| Prerequisites.OppositeEdgesCloseALoop | internal/catalog/prerequisites.go:90-92 | two opposite edges, each harmless alone, make a loop together |
| Prerequisites.NewEdgesCloseALoopIff | internal/catalog/prerequisites.go:90-99 | any set of edges checked against one acyclic graph and stored together closes a loop if and only if some of them stand in a ring, each leading to the next one's start; a ring of edges harmless alone takes at least two |
| Siblings.SiblingTable.NextPosition | internal/catalog/postgres_authoring.go:18-22 | on dense positions one past the highest is the number of siblings |
| Siblings.SiblingTable.Append | internal/catalog/postgres_authoring.go:18-33 | the new row stands last and every parent stays dense |
| Siblings.SiblingTable.Delete | internal/catalog/postgres_authoring.go:59-81 | the row goes, later siblings close the gap, and every parent stays dense |
| Siblings.SiblingTable.CheckComplete | internal/catalog/postgres_authoring.go:224-244 | the check passes exactly for a duplicate-free, non-empty list of the right length, and says "not found" only for a parent without children |
| Siblings.SiblingTable.CountIds | internal/assess/postgres.go:375-389 | the quiz engine's check passes exactly for a duplicate-free list of the right length, empty included |
| Siblings.SiblingTable.Reorder | internal/catalog/postgres_authoring.go:101-118 | an order is applied exactly when it is a permutation of the siblings, and otherwise changes nothing |
| Siblings.ChecksMeanPermutation | internal/assess/postgres.go:375-403 | no duplicate, the right count and every row matched are together the same as being a permutation |
| Siblings.EveryPositionIsTaken | internal/catalog/postgres_authoring.go:55-58 | by pigeonhole every position below the count is some sibling's |
| Siblings.DeleteKeepsTheOrder | internal/assess/postgres.go:344-367 | what is left stands in the order it stood in |
| Siblings.ReorderPutsEachInPlace | internal/catalog/postgres_authoring.go:83-93 | after an accepted reorder position k holds the k-th id |
| Siblings.RunStaysDense | internal/catalog/postgres_authoring.go:13-244 | every run of appends, deletes, reorders and cascades keeps every parent dense |
| Siblings.ReachedPositionsAreExact | internal/catalog/postgres_authoring.go:13-244 | in every reached state the positions of a parent's children are exactly 0 to n - 1 |
| Siblings.OtherFamiliesAreUntouched | internal/catalog/postgres_authoring.go:13-244 | nothing done to one parent's children moves another's |
| Siblings.RowsStayUnderTheirParent | internal/catalog/postgres_authoring.go:13-244 | a row leaves exactly when it or its parent is deleted, and never changes parent |
| Curriculum.ByTopic | internal/catalog/postgres.go:401-404 | the map holds under each topic exactly its lessons in the order they came |
| Curriculum.Stitch | internal/catalog/postgres.go:399-409 | each topic is given its own lessons in place, and nothing else about it changes |
| Curriculum.LessonsStayInOrder | internal/catalog/postgres.go:333-349 | a topic's lessons stay in ascending position, and are its own |
| Curriculum.EveryLessonIsShownOnce | internal/catalog/postgres.go:354-410 | under distinct topics every lesson is shown once, none lost and none twice |
| Keyset.SeekMatchesSort | internal/assess/postgres_bank.go:115-121 | the predicate that seeks past a cursor and the sort order agree, mixed directions included |
| Keyset.ListingsRunByTime | internal/catalog/postgres.go:38-50 | members are listed oldest first, courses and banked questions newest first, ties by id |
| Keyset.TrimCourses | internal/catalog/service.go:74-85 | trimming first and reading the cursor after gives the same page |
| Keyset.TrimBank | internal/assess/bank.go:85-93 | reading the cursor first and trimming after gives the same page |
| Keyset.Clamp | internal/auth/cursor.go:83-98 | any limit becomes one between 1 and 100, and one in range is kept |
| Keyset.BankLimit | internal/assess/bank.go:65-68 | any limit becomes one between 1 and 50, and one that is too large becomes the smaller default |
| Keyset.CatalogLimit | internal/catalog/service.go:198-217 | an unset limit becomes the default and any other out of range is refused |
| Keyset.PageIsExact | internal/auth/cursor.go:106-117 | a page is in order past its cursor and leaves out only rows after its own last one |
| Keyset.WalkReadsEveryStayerOnce | internal/auth/postgres_members.go:178-186 | following cursors to the end reads every row present throughout exactly once and in order, and nothing twice or never there, for any limits and any changes between fetches |
| Keyset.StaticWalkFinishes | internal/catalog/postgres.go:38-50 | on a static table the walk ends within one page more than there are rows |
| Keyset.StaticPagesConcatenate | internal/catalog/service.go:61-92 | on a static table the pages concatenate to the whole sorted table |
| BkashMoney.Cut | internal/commerce/bkash.go:431 | the text is split at its first point |
| BkashMoney.Digits | internal/commerce/bkash.go:454-459 | accepts exactly the non-empty strings of digits |
| BkashMoney.ParseMinor | internal/commerce/bkash.go:425-452 | the padding parser computes the specified amount, and whatever it accepts stays below 10^17, within int64 |
| BkashMoney.AcceptedAmountIsExact | internal/commerce/bkash.go:425-452 | an accepted string denotes exactly the returned number of hundredths |
| BkashMoney.RoundTrip | internal/commerce/bkash.go:417-452 | for every int64, parsing the printed amount gives it back exactly when it is between 0 and 10^17 and is refused otherwise |
| BkashMoney.TwoPlaces | internal/commerce/bkash.go:415-422 | every amount not negative is printed with two places after the point |
| BkashMoney.NegativesCarryASign | internal/commerce/bkash.go:415-422 | a negative amount is printed as its opposite with a minus sign, the smallest int64 apart |
| BkashMoney.Matches | internal/commerce/bkash.go:307-323 | a settlement is accepted exactly when it names this order, carries a transaction id, and its amount denotes the price |
| Utf8.DecodeOfEncode | internal/assign/assign.go:252-261 | decoding encoded text gives the text back |
| Utf8.EncodeIsValid | internal/assign/assign.go:265-273 | encoded text is well-formed UTF-8 |
| Utf8.EncodeOfDecode | internal/assign/assign.go:252-273 | bytes are well-formed if and only if the text they decode to encodes to them |
| Utf8.BadBytesAreReplaced | internal/assign/assign.go:252-261 | a byte that starts no character reads as one U+FFFD, and reading goes on after it |
| Utf8.FittingIsLongest | internal/assign/assign.go:268-273 | the whole characters that fit are the longest well-formed prefix within the limit, and waste at most three bytes |
| Filename.LastSeparator | internal/assign/assign.go:248-250 | finds what follows the last separator of either kind |
| Filename.MapRunes | internal/assign/assign.go:252-261 | control characters are dropped and other spaces become plain ones |
| Filename.Truncate | internal/assign/assign.go:265-273 | the back-up loop ends at the longest well-formed prefix within 255 bytes, at most three bytes short of the limit |
| Filename.TidiedIsSafe | internal/assign/assign.go:245-263 | the tidied name of any bytes holds no separator and no control character |
| Filename.CleanFilename | internal/assign/assign.go:245-280 | for any bytes: a non-empty name of at most 255 bytes, well-formed, without separators or control characters, never `.` or `..`, and cut no further than it has to be |
| FilenameStability.NeatNamesAreKept | internal/assign/assign.go:245-263 | a safe name of words separated by single spaces is not touched by tidying |
| FilenameStability.TidiedIsNeat | internal/assign/assign.go:263 | a tidied name has no space before, after, or beside another |
| FilenameStability.CleaningTwiceIsStableIff | internal/assign/assign.go:245-280 | cleaning a cleaned name changes nothing if and only if it is not the case that the tidied name is too long and the last of its characters that fits is a space |
| FilenameStability.LongNamesAreCutAfterASpace | internal/assign/assign.go:265-273 | every neat plain name longer than the limit whose 255th character is a space is cut after it and not stable |
| FilenameStability.SomeNameIsNotStable | internal/assign/assign.go:265-273 | there is such a name |
| Certificate.Render | internal/certify/certify.go:149-184 | the scan terminates and writes the template with each piece of its segmentation substituted |
| Certificate.NextPiece | internal/certify/certify.go:157-172 | the scan reads the piece that stands at its position |
| Certificate.SegmentsAre | internal/certify/certify.go:149-184 | every template has a segmentation |
| Certificate.SegmentationIsUnique | internal/certify/certify.go:149-184 | and no other |
| Certificate.SegmentsConcatenate | internal/certify/certify.go:149-184 | the pieces concatenate back to the template |
| Certificate.UnknownNamesSurvive | internal/certify/certify.go:138-184 | a template that names nothing known renders to itself, misspelt and unclosed placeholders included |
| Certificate.ValuesAreNeverRescanned | internal/certify/certify.go:145-184 | a known placeholder becomes its value whatever braces that holds, the text before stays as written, and what follows renders as it would alone |
| Certificate.SegmentsJoinIff | internal/certify/certify.go:149-184 | two templates put together read as the two apart if and only if the first leaves nothing unclosed and no brace of its own meets one of the second |
| Certificate.PartsRenderAlone | internal/certify/certify.go:149-184 | across such a seam each part renders as it would alone, for any values |
| Certificate.EachNameStandsForItsOwn | internal/certify/certify.go:149-202 | a placeholder alone, with any spaces and capitals, renders to the learner, course, date or serial it names, and to itself if it names none |

## Left out

- HTTP, the job runner, Postgres itself, object storage, mail and the payment gateways: only the queued job and the SQL guards are kept.
- Password hashing, token signing, random tokens and digests: opaque ids.
- Base64 and time formatting of cursors: a cursor is the sort key it carries.
- Float64 rounding and NaN: numbers are reals, and a range bound that does not parse is no number.
- Audit entries, notifications and logging.
- Read-committed races other than those of membership changes, registrations, refreshes and prerequisite additions.
- The last-owner model is a state machine over statements rather than a class, because the interleaving is its point; deadlocks and failures appear as aborts that may happen at any time.
- OwnerRank.OnlyOwnersChangeOwners: one direction only over runs, for the reason given on the next line; that an empty lock can break it from every workspace is `OwnerRank.AnAdminCanRemoveAnOwner`.
- LastOwnerSafety.ClaimedWorkspaceKeepsAnOwner: one direction only over runs, because an empty lock need not do harm; that it can from every workspace is `LastOwnerLoss.NoWorkspaceIsImmune`.
- The order of questions in the attempt machine: reordering, and closing the gap a removal leaves, are modelled once, in `Siblings`.
- AttemptSafety.RunMovesForward: the runs are those of one quiz while it exists; deleting a quiz (`internal/assess/postgres.go:141-154`) removes its questions, attempts and answers with it and is not a step.
- Presigned upload URLs and the review queries that only read.
- Trimming of bank categories and course search filters.
- One quiz, one workspace's bank and one table of siblings at a time stand for all of them; rows of other tenants are never matched.
- The internals of the gradebook, enrolment and commerce services: only the calls made to them.
- Email verification, invitations beyond the membership they create, and the erasure of orphaned accounts.
- Certificate serials and template validation, assignment deadlines and object keys, the cached bKash token and its error envelopes: one branch each.
