/** Every step keeps the invariant, no step takes anything back, and exactly which removals break it. */
module AttemptSafety {
  import opened Prelude
  import opened Quiz
  import opened Grading
  import opened Sums
  import opened Attempts
  import opened AttemptRuns

  // ---- Runs ----

  datatype Step =
    | Add(question: Question)
    | Remove(id: Id)
    | Edit(settings: Settings)
    | Start(user: Id, now: int, newId: Id)
    | Save(user: Id, questionId: Id, response: Response, now: int)
    | Submit(user: Id)
    | Deliver(id: Id)
    | Complete(id: Id)
    | Discard(id: Id)
    | Mark(id: Id, questionId: Id, points: int)

  /** A refused operation leaves no trace: its transaction rolls back. */
  ghost function Kept(s: State, r: Result<State, Refusal>): State {
    if r.Ok? then r.value else s
  }

  function InJobPhase(jobs: map<Id, Job>, id: Id, phase: JobPhase): map<Id, Job> {
    if id in jobs then jobs[id := jobs[id].(phase := phase)] else jobs
  }

  ghost function Next(rt: Runtime, s: State, step: Step): State {
    match step
    case Add(q) => AddQuestion(s, q)
    case Remove(id) => Kept(s, RemoveQuestion(s, id))
    case Edit(settings) => s.(settings := settings)
    case Start(user, now, newId) => Kept(s, StartAttempt(s, user, now, newId))
    case Save(user, question, response, now) => Kept(s, SaveAnswer(s, user, question, response, now))
    case Submit(user) => Kept(s, SubmitAttempt(s, user))
    case Deliver(id) => WorkJob(rt, s, id)
    case Complete(id) => s.(jobs := InJobPhase(s.jobs, id, Completed))
    case Discard(id) => s.(jobs := InJobPhase(s.jobs, id, Discarded))
    case Mark(id, question, points) => Kept(s, MarkAnswer(s, id, question, points))
  }

  /** What losing the question `id` asks of one attempt. */
  ghost predicate HarmlessFor(a: Attempt, rows: Rows, id: Id) {
    id in rows ==>
      && (a.status == AwaitingReview || a.status == Graded ==> rows[id].points == 0)
      && (a.status == AwaitingReview ==> Unmarked(rows - {id}))
  }

  /** Removing a question takes no awarded points and no last unmarked answer from a closed attempt. */
  ghost predicate HarmlessRemoval(s: State, id: Id) {
    forall a :: a in s.attempts ==> HarmlessFor(s.attempts[a], RowsOf(s.answers, a), id)
  }

  /**
   What the database and the queue guarantee about a step: row ids are new, a saved question has non-negative
   points, only a queued job is delivered, it completes once a delivery has committed, and it may be given up.
   */
  ghost predicate Permitted(s: State, step: Step) {
    match step
    case Add(q) => q.points >= 0 && q.id !in QuestionIds(s.questions)
    case Start(_, _, newId) => newId !in s.attempts
    case Deliver(id) => id in s.jobs && s.jobs[id].phase == Queued
    case Complete(id) => id in s.jobs && s.jobs[id] == Job(Queued, true)
    case Discard(id) => id in s.jobs && s.jobs[id].phase == Queued
    case _ => true
  }

  ghost function After(rt: Runtime, s: State, steps: seq<Step>): State
    decreases |steps|
  {
    if steps == [] then s else After(rt, Next(rt, s, steps[0]), steps[1..])
  }

  ghost predicate AllPermitted(rt: Runtime, s: State, steps: seq<Step>)
    decreases |steps|
  {
    steps == [] || (Permitted(s, steps[0]) && AllPermitted(rt, Next(rt, s, steps[0]), steps[1..]))
  }

  /** Permitted, and any removal harmless; the runs of interest remove no question at all. */
  ghost predicate Straight(s: State, step: Step) {
    Permitted(s, step) && (step.Remove? ==> HarmlessRemoval(s, step.id))
  }

  ghost predicate AllStraight(rt: Runtime, s: State, steps: seq<Step>)
    decreases |steps|
  {
    steps == [] || (Straight(s, steps[0]) && AllStraight(rt, Next(rt, s, steps[0]), steps[1..]))
  }

  lemma {:induction false} StraightRunsArePermitted(rt: Runtime, s: State, steps: seq<Step>)
    requires AllStraight(rt, s, steps)
    ensures AllPermitted(rt, s, steps)
    decreases |steps|
  {
    if steps != [] {
      StraightRunsArePermitted(rt, Next(rt, s, steps[0]), steps[1..]);
    }
  }

  // ---- Numbering ----

  lemma SameOwners(before: map<Id, Attempt>, id: Id, a: Attempt, user: Id)
    requires id in before && a.user == before[id].user
    ensures AttemptsOf(before[id := a], user) == AttemptsOf(before, user)
  {
  }

  lemma SameOwnersFillTheSameNumber(before: map<Id, Attempt>, id: Id, a: Attempt, user: Id, n: nat)
    requires id in before && a.user == before[id].user && a.number == before[id].number
    requires HasNumber(before, user, n)
    ensures HasNumber(before[id := a], user, n)
  {
    var b :| b in AttemptsOf(before, user) && before[b].number == n;
    assert b in AttemptsOf(before[id := a], user) && before[id := a][b].number == n;
  }

  lemma SameOwnersSameNumbers(before: map<Id, Attempt>, id: Id, a: Attempt)
    requires id in before && a.user == before[id].user && a.number == before[id].number
    requires NumberingOk(before)
    requires a.status == InProgress ==> before[id].status == InProgress
    ensures NumberingOk(before[id := a])
  {
    var after := before[id := a];
    forall user ensures AttemptsOf(after, user) == AttemptsOf(before, user) {
      SameOwners(before, id, a, user);
    }
    forall user: Id, n: nat | 1 <= n <= |AttemptsOf(after, user)| ensures HasNumber(after, user, n) {
      SameOwnersFillTheSameNumber(before, id, a, user, n);
    }
  }

  lemma OpeningAddsOne(before: map<Id, Attempt>, newId: Id, a: Attempt, user: Id)
    requires newId !in before
    ensures AttemptsOf(before[newId := a], user) ==
            if user == a.user then AttemptsOf(before, user) + {newId} else AttemptsOf(before, user)
  {
  }

  lemma OpeningKeepsFilled(before: map<Id, Attempt>, newId: Id, a: Attempt, user: Id, n: nat)
    requires newId !in before && HasNumber(before, user, n)
    ensures HasNumber(before[newId := a], user, n)
  {
    var b :| b in AttemptsOf(before, user) && before[b].number == n;
    assert b in AttemptsOf(before[newId := a], user) && before[newId := a][b].number == n;
  }

  lemma OpeningFillsTheNextNumber(before: map<Id, Attempt>, newId: Id, a: Attempt, user: Id, n: nat)
    requires newId !in before && Numbered(before)
    requires a.number == |AttemptsOf(before, a.user)| + 1
    requires 1 <= n <= |AttemptsOf(before[newId := a], user)|
    ensures HasNumber(before[newId := a], user, n)
  {
    OpeningAddsOne(before, newId, a, user);
    if user == a.user && n == a.number {
      assert newId in AttemptsOf(before[newId := a], user) && before[newId := a][newId].number == n;
    } else {
      assert HasNumber(before, user, n);
      OpeningKeepsFilled(before, newId, a, user, n);
    }
  }

  /** Every earlier number keeps its bound, and nobody else's numbers are disturbed. */
  lemma OpeningKeepsEarlier(before: map<Id, Attempt>, newId: Id, a: Attempt, b: Id)
    requires newId !in before && NumberingOk(before) && b in before
    requires !HasLive(before, a.user)
    ensures 1 <= before[b].number <= |AttemptsOf(before[newId := a], before[b].user)|
    ensures before[b].user == a.user ==> before[b].number <= |AttemptsOf(before, a.user)|
    ensures before[b].status == InProgress ==> before[b].number == |AttemptsOf(before[newId := a], before[b].user)|
  {
    OpeningAddsOne(before, newId, a, before[b].user);
    assert !IsLive(before, a.user, b);
  }

  lemma OpeningKeepsNumbers(before: map<Id, Attempt>, newId: Id, a: Attempt)
    requires newId !in before && NumberingOk(before)
    requires !HasLive(before, a.user)
    requires a.number == |AttemptsOf(before, a.user)| + 1
    ensures var after := before[newId := a];
            forall b :: b in after ==>
              && 1 <= after[b].number <= |AttemptsOf(after, after[b].user)|
              && (after[b].status == InProgress ==> after[b].number == |AttemptsOf(after, after[b].user)|)
              && (b != newId && after[b].user == a.user ==> after[b].number < a.number)
  {
    var after := before[newId := a];
    OpeningAddsOne(before, newId, a, a.user);
    forall b | b in after
      ensures && 1 <= after[b].number <= |AttemptsOf(after, after[b].user)|
              && (after[b].status == InProgress ==> after[b].number == |AttemptsOf(after, after[b].user)|)
              && (b != newId && after[b].user == a.user ==> after[b].number < a.number)
    {
      if b != newId {
        OpeningKeepsEarlier(before, newId, a, b);
      }
    }
  }

  lemma OpeningNumbersOn(before: map<Id, Attempt>, newId: Id, a: Attempt)
    requires newId !in before && NumberingOk(before)
    requires !HasLive(before, a.user)
    requires a.number == |AttemptsOf(before, a.user)| + 1
    ensures NumberingOk(before[newId := a])
  {
    var after := before[newId := a];
    OpeningKeepsNumbers(before, newId, a);
    forall b, c | b in after && c in after && b != c && after[b].user == after[c].user
      ensures after[b].number != after[c].number
    {
      assert b in before || c in before;
    }
    forall user: Id, n: nat | 1 <= n <= |AttemptsOf(after, user)| ensures HasNumber(after, user, n) {
      OpeningFillsTheNextNumber(before, newId, a, user, n);
    }
  }

  /** The partial unique index is implied: a learner's live attempt is their newest. */
  lemma NewestIsOnlyLive(attempts: map<Id, Attempt>)
    requires NumberingOk(attempts)
    ensures OneLive(attempts)
  {
  }

  // ---- The logs ----

  lemma PublishingKeepsScores(attempts: map<Id, Attempt>, scores: seq<Score>, id: Id, a: Attempt)
    requires id in attempts && attempts[id].status != Graded
    requires ScoresOk(attempts, scores)
    ensures ScoresOk(attempts[id := a], Recorded(scores, id, a))
  {
    var after := Recorded(scores, id, a);
    forall i | 0 <= i < |scores| ensures scores[i].attempt != id {}
    forall k | k in attempts[id := a] && Scored(attempts[id := a][k]) ensures HasScore(after, k) {
      if k == id {
        assert after[|scores|].attempt == id;
      } else {
        assert HasScore(scores, k);
        var i :| 0 <= i < |scores| && scores[i].attempt == k;
        assert after[i].attempt == k;
      }
    }
  }

  lemma PublishingKeepsLogs(attempts: map<Id, Attempt>, scores: seq<Score>, completions: seq<Id>, id: Id, a: Attempt)
    requires id in attempts && attempts[id].status != Graded
    requires LogsOk(attempts, scores, completions)
    ensures LogsOk(attempts[id := a], Recorded(scores, id, a), Settled(completions, id, a))
  {
    PublishingKeepsScores(attempts, scores, id, a);
    assert id !in completions;
  }

  /** Writing an attempt that was not graded and is not now tells nobody anything. */
  lemma QuietUpdateKeepsLogs(attempts: map<Id, Attempt>, scores: seq<Score>, completions: seq<Id>, id: Id, a: Attempt)
    requires LogsOk(attempts, scores, completions)
    requires id in attempts ==> attempts[id].status != Graded
    requires a.status != Graded
    ensures LogsOk(attempts[id := a], scores, completions)
  {
    var after := attempts[id := a];
    assert ScoresOk(after, scores) by {
      forall k | k in after && Scored(after[k]) ensures HasScore(scores, k) {
        assert HasScore(scores, k);
      }
    }
  }

  // ---- The rows ----

  lemma OthersStayOk(questions: seq<Question>, attempts: map<Id, Attempt>, answers: map<Id, Rows>,
                     id: Id, a: Attempt, answers': map<Id, Rows>)
    requires AttemptsOk(questions, attempts, answers)
    requires AttemptOk(questions, a, RowsOf(answers', id))
    requires answers'.Keys <= attempts.Keys + {id}
    requires forall k :: k != id ==> RowsOf(answers', k) == RowsOf(answers, k)
    ensures AttemptsOk(questions, attempts[id := a], answers')
  {
    forall k | k in attempts && k != id ensures AttemptOk(questions, attempts[k], RowsOf(answers', k)) {
      assert AttemptOk(questions, attempts[k], RowsOf(answers, k));
    }
  }

  /** One attempt and its own job move; nobody else's job does. */
  lemma OtherJobsStayOk(attempts: map<Id, Attempt>, jobs: map<Id, Job>, id: Id, a: Attempt, jobs': map<Id, Job>)
    requires JobsOk(attempts, jobs) && JobOk(a.status, jobs', id)
    requires jobs'.Keys <= jobs.Keys + {id}
    requires forall k :: k in jobs && k != id ==> k in jobs' && jobs'[k] == jobs[k]
    ensures JobsOk(attempts[id := a], jobs')
  {
    forall k | k in attempts && k != id ensures JobOk(attempts[k].status, jobs', k) {
      assert JobOk(attempts[k].status, jobs, k);
    }
  }

  /** One attempt and its own rows are rewritten; `answers` may stay as it is when the rows do. */
  lemma RewritingKeepsAttempts(questions: seq<Question>, attempts: map<Id, Attempt>, answers: map<Id, Rows>,
                               id: Id, a: Attempt, rows: Rows, answers': map<Id, Rows>)
    requires AttemptsOk(questions, attempts, answers) && id in attempts
    requires AttemptOk(questions, a, rows)
    requires answers' == answers[id := rows] || (answers' == answers && RowsOf(answers, id) == rows)
    ensures AttemptsOk(questions, attempts[id := a], answers')
  {
    OthersStayOk(questions, attempts, answers, id, a, answers');
  }

  lemma SameRowsInALongerQuiz(questions: seq<Question>, q: Question, a: Attempt, rows: Rows)
    requires AttemptOk(questions, a, rows)
    ensures AttemptOk(questions + [q], a, rows)
  {
    QuestionIdsSnoc(questions, q);
    WorthInAppend(questions, q, rows.Keys);
    forall k | k in rows ensures WorthOf(questions + [q], k) == WorthOf(questions, k) {
      assert WorthIn(questions + [q], rows.Keys)[k] == WorthIn(questions, rows.Keys)[k];
    }
  }

  // ---- Each step keeps the invariant ----

  lemma AddKeepsInv(s: State, q: Question)
    requires Inv(s) && q.points >= 0 && q.id !in QuestionIds(s.questions)
    ensures Inv(AddQuestion(s, q))
  {
    forall i | 0 <= i < |s.questions| ensures s.questions[i].id != q.id {
      assert s.questions[i] in s.questions;
    }
    assert AttemptsOk(s.questions + [q], s.attempts, s.answers) by {
      forall id | id in s.attempts ensures AttemptOk(s.questions + [q], s.attempts[id], RowsOf(s.answers, id)) {
        SameRowsInALongerQuiz(s.questions, q, s.attempts[id], RowsOf(s.answers, id));
      }
    }
  }

  lemma StartKeepsInv(s: State, user: Id, now: int, newId: Id)
    requires Inv(s) && newId !in s.attempts
    ensures Inv(Kept(s, StartAttempt(s, user, now, newId)))
  {
    var t := Kept(s, StartAttempt(s, user, now, newId));
    if t != s {
      var a := t.attempts[newId];
      OpeningNumbersOn(s.attempts, newId, a);
      QuietUpdateKeepsLogs(s.attempts, s.scores, s.completions, newId, a);
      OthersStayOk(s.questions, s.attempts, s.answers, newId, a, s.answers);
      OtherJobsStayOk(s.attempts, s.jobs, newId, a, s.jobs);
    }
  }

  lemma SavedRowsOk(questions: seq<Question>, a: Attempt, rows: Rows, question: Id, row: Answer)
    requires AttemptOk(questions, a, rows) && a.status == InProgress
    requires Find(questions, question).Some? && !row.graded && row.points == 0
    ensures AttemptOk(questions, a, rows[question := row])
  {
    assert Find(questions, question).value.id in QuestionIds(questions);
  }

  lemma SaveKeepsAttempts(questions: seq<Question>, attempts: map<Id, Attempt>, answers: map<Id, Rows>, id: Id,
                          question: Id, row: Answer)
    requires AttemptsOk(questions, attempts, answers)
    requires id in attempts && attempts[id].status == InProgress
    requires Find(questions, question).Some? && !row.graded && row.points == 0
    ensures AttemptsOk(questions, attempts, answers[id := RowsOf(answers, id)[question := row]])
  {
    var rows := RowsOf(answers, id);
    assert AttemptOk(questions, attempts[id], rows);
    SavedRowsOk(questions, attempts[id], rows, question, row);
    assert attempts[id := attempts[id]] == attempts;
    OthersStayOk(questions, attempts, answers, id, attempts[id], answers[id := rows[question := row]]);
  }

  lemma SaveKeepsInv(s: State, user: Id, question: Id, response: Response, now: int)
    requires Inv(s)
    ensures Inv(Kept(s, SaveAnswer(s, user, question, response, now)))
  {
    if SaveAnswer(s, user, question, response, now).Ok? {
      var a := LiveAttempt(s.attempts, user);
      var rows := RowsOf(s.answers, a);
      assert AttemptOk(s.questions, s.attempts[a], rows);
      var row := if question in rows then rows[question].(response := response) else Answer(response, false, false, 0);
      SaveKeepsAttempts(s.questions, s.attempts, s.answers, a, question, row);
    }
  }

  lemma ClosingKeepsAttempts(questions: seq<Question>, attempts: map<Id, Attempt>, answers: map<Id, Rows>, id: Id)
    requires AttemptsOk(questions, attempts, answers)
    requires id in attempts && attempts[id].status == InProgress
    ensures AttemptsOk(questions, attempts[id := attempts[id].(status := InGrading)], answers)
  {
    assert AttemptOk(questions, attempts[id], RowsOf(answers, id));
    OthersStayOk(questions, attempts, answers, id, attempts[id].(status := InGrading), answers);
  }

  lemma ClosingKeepsJobs(attempts: map<Id, Attempt>, jobs: map<Id, Job>, id: Id)
    requires JobsOk(attempts, jobs) && id in attempts
    ensures JobsOk(attempts[id := attempts[id].(status := InGrading)], jobs[id := Job(Queued, false)])
  {
    OtherJobsStayOk(attempts, jobs, id, attempts[id].(status := InGrading), jobs[id := Job(Queued, false)]);
  }

  lemma ClosingKeepsBooks(attempts: map<Id, Attempt>, scores: seq<Score>, completions: seq<Id>, id: Id)
    requires NumberingOk(attempts) && LogsOk(attempts, scores, completions)
    requires id in attempts && attempts[id].status == InProgress
    ensures var after := attempts[id := attempts[id].(status := InGrading)];
            NumberingOk(after) && LogsOk(after, scores, completions)
  {
    SameOwnersSameNumbers(attempts, id, attempts[id].(status := InGrading));
    QuietUpdateKeepsLogs(attempts, scores, completions, id, attempts[id].(status := InGrading));
  }

  lemma SubmitKeepsInv(s: State, user: Id)
    requires Inv(s)
    ensures Inv(Kept(s, SubmitAttempt(s, user)))
  {
    if HasLive(s.attempts, user) {
      var a := LiveAttempt(s.attempts, user);
      ClosingKeepsAttempts(s.questions, s.attempts, s.answers, a);
      ClosingKeepsJobs(s.attempts, s.jobs, a);
      ClosingKeepsBooks(s.attempts, s.scores, s.completions, a);
    }
  }

  /** An attempt leaving the machine's or a marker's hands is published, and the books stay straight. */
  lemma PublishingKeepsBooks(s: State, id: Id, a: Attempt, answers: map<Id, Rows>)
    requires NumberingOk(s.attempts) && LogsOk(s.attempts, s.scores, s.completions) && ItemOk(s.questions, s.item)
    requires id in s.attempts && s.attempts[id].status != Graded && a.status != InProgress
    requires a.user == s.attempts[id].user && a.number == s.attempts[id].number
    ensures var t := Published(s, id, a, answers);
            NumberingOk(t.attempts) && LogsOk(t.attempts, t.scores, t.completions) && ItemOk(t.questions, t.item)
  {
    SameOwnersSameNumbers(s.attempts, id, a);
    PublishingKeepsLogs(s.attempts, s.scores, s.completions, id, a);
  }

  lemma DeliveredAttemptOk(rt: Runtime, questions: seq<Question>, rows: Rows, a: Attempt, percent: int)
    requires DistinctQuestions(questions) && (forall q :: q in questions ==> q.points >= 0)
    requires rows.Keys <= QuestionIds(questions) && Ungraded(rows)
    ensures var grades := Grades(rt, questions, Responses(rows));
            AttemptOk(questions, Finished(a, Awarded(grades), Worth(questions), AnyManual(questions), percent),
                      Written(rows, grades))
  {
    JobCloses(rt, questions, rows, a, percent);
    JobRows(rt, questions, rows);
  }

  lemma DeliverKeepsAttempts(rt: Runtime, s: State, id: Id)
    requires QuestionsOk(s.questions) && AttemptsOk(s.questions, s.attempts, s.answers)
    requires id in s.attempts && s.attempts[id].status == InGrading
    ensures var t := GradedNow(rt, s, id); AttemptsOk(t.questions, t.attempts, t.answers)
  {
    var t := GradedNow(rt, s, id);
    var rows := RowsOf(s.answers, id);
    assert AttemptOk(s.questions, s.attempts[id], rows);
    DeliveredAttemptOk(rt, s.questions, rows, s.attempts[id], s.settings.passingPercent);
    var after := Written(rows, Grades(rt, s.questions, Responses(rows)));
    assert RowsOf(t.answers, id) == after;
    RewritingKeepsAttempts(s.questions, s.attempts, s.answers, id, t.attempts[id], after, t.answers);
  }

  lemma DeliverKeepsJobs(attempts: map<Id, Attempt>, jobs: map<Id, Job>, id: Id, a: Attempt)
    requires JobsOk(attempts, jobs) && id in jobs
    requires a.status == AwaitingReview || a.status == Graded
    ensures JobsOk(attempts[id := a], Noted(jobs, id))
  {
    assert JobOk(attempts[id].status, jobs, id);
    OtherJobsStayOk(attempts, jobs, id, a, Noted(jobs, id));
  }

  /** The first delivery to find the attempt in grading grades it. */
  lemma GradingKeepsInv(rt: Runtime, s: State, id: Id)
    requires Inv(s) && id in s.jobs && s.attempts[id].status == InGrading
    ensures Inv(GradedNow(rt, s, id).(jobs := Noted(s.jobs, id)))
  {
    var t := GradedNow(rt, s, id);
    DeliverKeepsAttempts(rt, s, id);
    PublishingKeepsBooks(s, id, t.attempts[id], t.answers);
    DeliverKeepsJobs(s.attempts, s.jobs, id, t.attempts[id]);
  }

  lemma WorkedAlready(attempts: map<Id, Attempt>, jobs: map<Id, Job>, id: Id)
    requires JobsOk(attempts, jobs) && id in jobs && attempts[id].status != InGrading
    ensures Noted(jobs, id) == jobs
  {
    assert JobOk(attempts[id].status, jobs, id);
  }

  lemma DeliverKeepsInv(rt: Runtime, s: State, id: Id)
    requires Inv(s) && id in s.jobs
    ensures Inv(WorkJob(rt, s, id))
  {
    if s.attempts[id].status == InGrading {
      GradingKeepsInv(rt, s, id);
    } else {
      WorkedAlready(s.attempts, s.jobs, id);
    }
  }

  lemma MarkedRowsClose(a: Attempt, rows: Rows, questions: seq<Question>, question: Id, row: Answer, percent: int)
    requires Closed(a, rows, questions)
    requires question in rows && 0 <= row.points <= WorthOf(questions, question)
    ensures Closed(RolledUp(a, rows[question := row], percent), rows[question := row], questions)
  {
    assert rows[question := row].Keys == rows.Keys;
  }

  lemma MarkedAttemptOk(questions: seq<Question>, a: Attempt, rows: Rows, question: Id, row: Answer, percent: int)
    requires AttemptOk(questions, a, rows) && a.status == AwaitingReview
    requires question in rows && 0 <= row.points <= WorthOf(questions, question)
    ensures AttemptOk(questions, RolledUp(a, rows[question := row], percent), rows[question := row])
  {
    MarkedRowsClose(a, rows, questions, question, row, percent);
    assert rows[question := row].Keys == rows.Keys;
  }

  lemma MarkKeepsAttempts(s: State, id: Id, question: Id, points: int)
    requires AttemptsOk(s.questions, s.attempts, s.answers)
    requires MarkAnswer(s, id, question, points).Ok?
    ensures var t := MarkAnswer(s, id, question, points).value; AttemptsOk(t.questions, t.attempts, t.answers)
  {
    var t := MarkAnswer(s, id, question, points).value;
    var rows, after := RowsOf(s.answers, id), RowsOf(t.answers, id);
    assert AttemptOk(s.questions, s.attempts[id], rows);
    MarkedAttemptOk(s.questions, s.attempts[id], rows, question, after[question], s.settings.passingPercent);
    RewritingKeepsAttempts(s.questions, s.attempts, s.answers, id, t.attempts[id], after, t.answers);
  }

  lemma MarkKeepsInv(s: State, id: Id, question: Id, points: int)
    requires Inv(s)
    ensures Inv(Kept(s, MarkAnswer(s, id, question, points)))
  {
    if MarkAnswer(s, id, question, points).Ok? {
      var t := MarkAnswer(s, id, question, points).value;
      MarkKeepsAttempts(s, id, question, points);
      PublishingKeepsBooks(s, id, t.attempts[id], t.answers);
      assert JobOk(s.attempts[id].status, s.jobs, id);
      OtherJobsStayOk(s.attempts, s.jobs, id, t.attempts[id], s.jobs);
    }
  }

  /** The queue closing a job moves no attempt: a completed one was worked, so its attempt is past grading. */
  lemma ClosingAJobKeepsJobs(attempts: map<Id, Attempt>, jobs: map<Id, Job>, id: Id, phase: JobPhase)
    requires JobsOk(attempts, jobs) && id in jobs
    requires phase == Completed ==> jobs[id].worked
    ensures JobsOk(attempts, InJobPhase(jobs, id, phase))
  {
    assert JobOk(attempts[id].status, jobs, id);
    OtherJobsStayOk(attempts, jobs, id, attempts[id], InJobPhase(jobs, id, phase));
    assert attempts[id := attempts[id]] == attempts;
  }

  lemma ClosingAJobKeepsInv(s: State, id: Id, phase: JobPhase)
    requires Inv(s) && id in s.jobs && (phase == Completed ==> s.jobs[id].worked)
    ensures Inv(s.(jobs := InJobPhase(s.jobs, id, phase)))
  {
    ClosingAJobKeepsJobs(s.attempts, s.jobs, id, phase);
  }

  lemma EditKeepsInv(s: State, settings: Settings)
    requires Inv(s)
    ensures Inv(s.(settings := settings))
  {
  }

  // ---- Removing a question ----

  lemma {:induction false} FindWithout(questions: seq<Question>, id: Id, k: Id)
    requires k != id
    ensures Find(Without(questions, id), k) == Find(questions, k)
  {
    if questions != [] {
      var init, last := questions[..|questions| - 1], questions[|questions| - 1];
      assert questions == init + [last];
      FindWithout(init, id, k);
      FindAppend(init, last, k);
      FindAppend(Without(init, id), last, k);
      assert Without(init, id) + [] == Without(init, id);
    }
  }

  lemma {:induction false} WithoutKeepsTheRest(questions: seq<Question>, id: Id)
    ensures forall q :: q in Without(questions, id) <==> q in questions && q.id != id
    ensures DistinctQuestions(questions) ==> DistinctQuestions(Without(questions, id))
  {
    if questions != [] {
      var init, last := questions[..|questions| - 1], questions[|questions| - 1];
      assert questions == init + [last];
      WithoutKeepsTheRest(init, id);
      var rest := Without(init, id);
      if DistinctQuestions(questions) {
        forall i | 0 <= i < |rest| ensures rest[i].id != last.id {
          assert rest[i] in init;
        }
      }
    }
  }

  lemma WorthInWithout(questions: seq<Question>, id: Id, ids: set<Id>)
    requires id !in ids
    ensures WorthIn(Without(questions, id), ids) == WorthIn(questions, ids)
  {
    forall k | k in ids ensures WorthOf(Without(questions, id), k) == WorthOf(questions, k) {
      FindWithout(questions, id, k);
    }
  }

  lemma WorthsAreNotNegative(questions: seq<Question>, ids: set<Id>)
    requires forall q :: q in questions ==> q.points >= 0
    ensures forall k :: k in ids ==> WorthIn(questions, ids)[k] >= 0
  {
  }

  /** A closed attempt stays in step with its rows exactly when the lost row was worthless and not the last unmarked. */
  lemma RemovalFromClosed(a: Attempt, rows: Rows, questions: seq<Question>, id: Id)
    requires Closed(a, rows, questions) && id in rows
    requires forall q :: q in questions ==> q.points >= 0
    requires a.status == AwaitingReview || a.status == Graded
    ensures Closed(a, rows - {id}, Without(questions, id)) <==>
            rows[id].points == 0 && (a.status == AwaitingReview ==> Unmarked(rows - {id}))
  {
    SumWithout(PointsIn(rows), id);
    assert PointsIn(rows - {id}) == PointsIn(rows) - {id};
    var kept := (rows - {id}).Keys;
    WorthInWithout(questions, id, kept);
    forall k | k in rows - {id} ensures 0 <= (rows - {id})[k].points <= WorthOf(Without(questions, id), k) {
      assert WorthIn(Without(questions, id), kept)[k] == WorthIn(questions, kept)[k];
    }
    WorthsAreNotNegative(questions, rows.Keys);
    SumBounded(WorthIn(questions, kept), WorthIn(questions, rows.Keys));
  }

  lemma RemovalKeepsIds(questions: seq<Question>, id: Id, ids: set<Id>)
    requires ids <= QuestionIds(questions)
    ensures ids - {id} <= QuestionIds(Without(questions, id))
  {
    WithoutKeepsTheRest(questions, id);
    forall j | j in ids - {id} ensures j in QuestionIds(Without(questions, id)) {
      var q :| q in questions && q.id == j;
      assert q in Without(questions, id);
    }
  }

  lemma RemovalOfAnotherKeepsClosed(a: Attempt, rows: Rows, questions: seq<Question>, id: Id)
    requires Closed(a, rows, questions) && id !in rows
    ensures Closed(a, rows, Without(questions, id))
  {
    WorthInWithout(questions, id, rows.Keys);
    forall j | j in rows ensures WorthOf(Without(questions, id), j) == WorthOf(questions, j) {
      assert WorthIn(Without(questions, id), rows.Keys)[j] == WorthIn(questions, rows.Keys)[j];
    }
  }

  lemma RemovalKeepsAttempt(questions: seq<Question>, a: Attempt, rows: Rows, id: Id)
    requires AttemptOk(questions, a, rows)
    requires forall q :: q in questions ==> q.points >= 0
    ensures AttemptOk(Without(questions, id), a, rows - {id}) <==> HarmlessFor(a, rows, id)
  {
    RemovalKeepsIds(questions, id, rows.Keys);
    assert (rows - {id}).Keys == rows.Keys - {id};
    if a.status == AwaitingReview || a.status == Graded {
      if id in rows {
        RemovalFromClosed(a, rows, questions, id);
      } else {
        assert rows - {id} == rows;
        RemovalOfAnotherKeepsClosed(a, rows, questions, id);
      }
    }
  }

  lemma RemovalKeepsAttempts(s: State, id: Id)
    requires AttemptsOk(s.questions, s.attempts, s.answers)
    requires forall q :: q in s.questions ==> q.points >= 0
    requires Find(s.questions, id).Some?
    ensures var t := RemoveQuestion(s, id).value;
            AttemptsOk(t.questions, t.attempts, t.answers) <==> HarmlessRemoval(s, id)
  {
    var t := RemoveQuestion(s, id).value;
    assert t.answers.Keys == s.answers.Keys;
    forall k | k in s.attempts
      ensures AttemptOk(t.questions, t.attempts[k], RowsOf(t.answers, k)) <==>
              HarmlessFor(s.attempts[k], RowsOf(s.answers, k), id)
    {
      assert AttemptOk(s.questions, s.attempts[k], RowsOf(s.answers, k));
      assert RowsOf(t.answers, k) == RowsOf(s.answers, k) - {id};
      RemovalKeepsAttempt(s.questions, s.attempts[k], RowsOf(s.answers, k), id);
    }
  }

  /** Removing a question keeps the books straight exactly when the removal is harmless. */
  lemma RemovalKeepsInvIffHarmless(s: State, id: Id)
    requires Inv(s) && Find(s.questions, id).Some?
    ensures Inv(RemoveQuestion(s, id).value) <==> HarmlessRemoval(s, id)
  {
    WithoutKeepsTheRest(s.questions, id);
    RemovalKeepsAttempts(s, id);
  }

  // ---- Whole runs ----

  /** Questions stay distinct and worth no less than nothing, whatever is removed. */
  lemma StepKeepsQuestions(rt: Runtime, s: State, step: Step)
    requires QuestionsOk(s.questions) && Permitted(s, step)
    ensures QuestionsOk(Next(rt, s, step).questions)
  {
    match step
    case Add(q) =>
      forall i | 0 <= i < |s.questions| ensures s.questions[i].id != q.id {
        assert s.questions[i] in s.questions;
      }
    case Remove(id) => WithoutKeepsTheRest(s.questions, id);
    case _ =>
  }

  lemma RemoveKeepsInv(s: State, id: Id)
    requires Inv(s) && HarmlessRemoval(s, id)
    ensures Inv(Kept(s, RemoveQuestion(s, id)))
  {
    if Find(s.questions, id).Some? {
      RemovalKeepsInvIffHarmless(s, id);
    }
  }

  lemma QueueKeepsInv(rt: Runtime, s: State, step: Step)
    requires step.Deliver? || step.Complete? || step.Discard?
    requires Inv(s) && Permitted(s, step)
    ensures Inv(Next(rt, s, step))
  {
    match step
    case Deliver(id) => DeliverKeepsInv(rt, s, id);
    case Complete(id) => ClosingAJobKeepsInv(s, id, Completed);
    case Discard(id) => ClosingAJobKeepsInv(s, id, Discarded);
  }

  lemma EditingKeepsInv(rt: Runtime, s: State, step: Step)
    requires step.Add? || step.Remove? || step.Edit?
    requires Inv(s) && Straight(s, step)
    ensures Inv(Next(rt, s, step))
  {
    match step
    case Add(q) => AddKeepsInv(s, q);
    case Remove(id) => RemoveKeepsInv(s, id);
    case Edit(settings) => EditKeepsInv(s, settings);
  }

  lemma StepKeepsInv(rt: Runtime, s: State, step: Step)
    requires Inv(s) && Straight(s, step)
    ensures Inv(Next(rt, s, step))
  {
    match step
    case Add(_) | Remove(_) | Edit(_) => EditingKeepsInv(rt, s, step);
    case Start(user, now, newId) => StartKeepsInv(s, user, now, newId);
    case Save(user, question, response, now) => SaveKeepsInv(s, user, question, response, now);
    case Submit(user) => SubmitKeepsInv(s, user);
    case Mark(id, question, points) => MarkKeepsInv(s, id, question, points);
    case _ => QueueKeepsInv(rt, s, step);
  }

  ghost function Opened(settings: Settings): State {
    State(settings, [], map[], map[], map[], [], [], None)
  }

  /** Every state a straight run reaches from an empty quiz satisfies the invariant. */
  lemma {:induction false} RunKeepsInv(rt: Runtime, s: State, steps: seq<Step>)
    requires Inv(s) && AllStraight(rt, s, steps)
    ensures Inv(After(rt, s, steps))
    decreases |steps|
  {
    if steps != [] {
      StepKeepsInv(rt, s, steps[0]);
      RunKeepsInv(rt, Next(rt, s, steps[0]), steps[1..]);
    }
  }

  lemma OpenedIsOk(settings: Settings)
    ensures Inv(Opened(settings))
  {
    assert forall user :: AttemptsOf(map[], user) == {};
  }

  // ---- What the invariant says, in the learner's terms ----

  /**
   Points, status, pass mark and job of any attempt in any state a straight run reaches. An attempt in grading
   has its job queued if and only if the queue has not given it up.
   */
  lemma ReachedAttemptIsConsistent(rt: Runtime, settings: Settings, steps: seq<Step>, id: Id)
    requires AllStraight(rt, Opened(settings), steps)
    requires id in After(rt, Opened(settings), steps).attempts
    ensures var s := After(rt, Opened(settings), steps);
            var a, rows := s.attempts[id], RowsOf(s.answers, id);
            && (a.status == Graded <==> a.passed.Some?)
            && (a.status == AwaitingReview || a.status == Graded ==>
                  && a.points == SumMap(PointsIn(rows)) && 0 <= a.points <= a.maxPoints
                  && (a.status == AwaitingReview <==> Unmarked(rows)))
            && (a.status == InGrading ==>
                  && id in s.jobs && !s.jobs[id].worked
                  && (s.jobs[id].phase != Queued <==> s.jobs[id].phase == Discarded))
  {
    OpenedIsOk(settings);
    RunKeepsInv(rt, Opened(settings), steps);
    var s := After(rt, Opened(settings), steps);
    var a, rows := s.attempts[id], RowsOf(s.answers, id);
    assert AttemptOk(s.questions, a, rows) && JobOk(a.status, s.jobs, id);
    if a.status == AwaitingReview || a.status == Graded {
      PointsWithinMax(a, rows, s.questions);
    }
  }

  /** Attempt numbers, the one live attempt, and the one score and completion per attempt, in any such state. */
  lemma ReachedBooksAreStraight(rt: Runtime, settings: Settings, steps: seq<Step>)
    requires AllStraight(rt, Opened(settings), steps)
    ensures var s := After(rt, Opened(settings), steps);
            && Numbered(s.attempts) && OneLive(s.attempts) && LiveIsNewest(s.attempts)
            && ScoresOk(s.attempts, s.scores) && CompletionsOk(s.attempts, s.completions)
            && ItemOk(s.questions, s.item)
  {
    OpenedIsOk(settings);
    RunKeepsInv(rt, Opened(settings), steps);
    NewestIsOnlyLive(After(rt, Opened(settings), steps).attempts);
  }

  // ---- Nothing goes backwards ----

  function Rank(status: Status): nat {
    match status
    case InProgress => 0
    case InGrading => 1
    case AwaitingReview => 2
    case Graded => 3
  }

  ghost predicate AttemptForward(a: Attempt, b: Attempt) {
    && (b.user, b.number, b.expiresAt) == (a.user, a.number, a.expiresAt)
    && Rank(a.status) <= Rank(b.status)
    && (Rank(a.status) >= 2 ==> b.maxPoints == a.maxPoints)
    && (a.status == Graded ==> b == a)
  }

  /** Every attempt is still there, no earlier in its life; its frozen total and a final grade never change. */
  ghost predicate Forward(s: State, t: State) {
    && (forall id :: id in s.attempts ==> id in t.attempts && AttemptForward(s.attempts[id], t.attempts[id]))
    && s.scores <= t.scores && s.completions <= t.completions
  }

  /** A step that rewrites one attempt forwards and only adds to the logs moves the whole state forwards. */
  lemma OneAttemptForward(s: State, t: State, id: Id)
    requires t.attempts.Keys == s.attempts.Keys + {id}
    requires forall k :: k in s.attempts && k != id ==> t.attempts[k] == s.attempts[k]
    requires id in s.attempts ==> AttemptForward(s.attempts[id], t.attempts[id])
    requires s.scores <= t.scores && s.completions <= t.completions
    ensures Forward(s, t)
  {
  }

  lemma StartMovesForward(s: State, user: Id, now: int, newId: Id)
    requires newId !in s.attempts
    ensures Forward(s, Kept(s, StartAttempt(s, user, now, newId)))
  {
    var t := Kept(s, StartAttempt(s, user, now, newId));
    if t != s {
      OneAttemptForward(s, t, newId);
    }
  }

  lemma SubmitMovesForward(s: State, user: Id)
    ensures Forward(s, Kept(s, SubmitAttempt(s, user)))
  {
    if HasLive(s.attempts, user) {
      OneAttemptForward(s, SubmitAttempt(s, user).value, LiveAttempt(s.attempts, user));
    }
  }

  lemma PublishedMovesForward(s: State, id: Id, a: Attempt, answers: map<Id, Rows>)
    requires id in s.attempts && AttemptForward(s.attempts[id], a)
    ensures Forward(s, Published(s, id, a, answers))
  {
    OneAttemptForward(s, Published(s, id, a, answers), id);
  }

  lemma StepMovesForward(rt: Runtime, s: State, step: Step)
    requires Permitted(s, step)
    ensures Forward(s, Next(rt, s, step))
  {
    match step
    case Start(user, now, newId) => StartMovesForward(s, user, now, newId);
    case Submit(user) => SubmitMovesForward(s, user);
    case Deliver(id) =>
      if id in s.attempts && s.attempts[id].status == InGrading {
        var t := GradedNow(rt, s, id);
        PublishedMovesForward(s, id, t.attempts[id], t.answers);
      }
    case Mark(id, question, points) =>
      if MarkAnswer(s, id, question, points).Ok? {
        var t := MarkAnswer(s, id, question, points).value;
        PublishedMovesForward(s, id, t.attempts[id], t.answers);
      }
    case _ =>
  }

  lemma {:induction false} RunMovesForward(rt: Runtime, s: State, steps: seq<Step>)
    requires AllPermitted(rt, s, steps)
    ensures Forward(s, After(rt, s, steps))
    decreases |steps|
  {
    if steps != [] {
      StepMovesForward(rt, s, steps[0]);
      RunMovesForward(rt, Next(rt, s, steps[0]), steps[1..]);
    }
  }

  /** A delivery of the attempt's job has committed, and the attempt is past grading. */
  ghost predicate Delivered(s: State, id: Id) {
    && id in s.attempts && Rank(s.attempts[id].status) >= 2
    && id in s.jobs && s.jobs[id].worked
  }

  lemma StepKeepsDelivered(rt: Runtime, s: State, step: Step, id: Id)
    requires Delivered(s, id) && Permitted(s, step)
    ensures Delivered(Next(rt, s, step), id)
  {
    StepMovesForward(rt, s, step);
    if step.Submit? && HasLive(s.attempts, step.user) {
      assert IsLive(s.attempts, step.user, LiveAttempt(s.attempts, step.user));
    }
  }

  lemma {:induction false} RunKeepsDelivered(rt: Runtime, s: State, steps: seq<Step>, id: Id)
    requires Delivered(s, id) && AllPermitted(rt, s, steps)
    ensures Delivered(After(rt, s, steps), id)
    decreases |steps|
  {
    if steps != [] {
      StepKeepsDelivered(rt, s, steps[0], id);
      RunKeepsDelivered(rt, Next(rt, s, steps[0]), steps[1..], id);
    }
  }

  /**
   Once a submitted attempt's job has been delivered, delivering it again changes nothing at all, whatever was
   edited, removed, retaken or marked in between.
   */
  lemma RedeliveryChangesNothing(rt: Runtime, s: State, id: Id, steps: seq<Step>)
    requires id in s.attempts && s.attempts[id].status != InProgress && id in s.jobs
    requires AllPermitted(rt, WorkJob(rt, s, id), steps)
    ensures var t := After(rt, WorkJob(rt, s, id), steps);
            WorkJob(rt, t, id) == t
  {
    RunKeepsDelivered(rt, WorkJob(rt, s, id), steps, id);
    var t := After(rt, WorkJob(rt, s, id), steps);
    assert Noted(t.jobs, id) == t.jobs;
  }

  /** Neither a mark of this very answer nor the loss of its question. */
  predicate LeavesMark(step: Step, id: Id, question: Id) {
    !(step.Mark? && step.id == id && step.questionId == question) && !(step.Remove? && step.id == question)
  }

  ghost predicate AllLeaveMark(steps: seq<Step>, id: Id, question: Id) {
    steps == [] || (LeavesMark(steps[0], id, question) && AllLeaveMark(steps[1..], id, question))
  }

  ghost predicate HoldsRow(s: State, id: Id, question: Id, row: Answer) {
    && id in s.attempts && Rank(s.attempts[id].status) >= 2
    && question in RowsOf(s.answers, id) && RowsOf(s.answers, id)[question] == row
  }

  lemma StepKeepsRow(rt: Runtime, s: State, step: Step, id: Id, question: Id, row: Answer)
    requires HoldsRow(s, id, question, row)
    requires Permitted(s, step) && LeavesMark(step, id, question)
    ensures HoldsRow(Next(rt, s, step), id, question, row)
  {
  }

  /**
   A mark stands: over any run, removals of other questions and redeliveries of the job included, a closed
   attempt's answer is what it was unless that very answer is marked again or its question removed.
   */
  lemma {:induction false} MarkStands(rt: Runtime, s: State, steps: seq<Step>, id: Id, question: Id, row: Answer)
    requires HoldsRow(s, id, question, row)
    requires AllPermitted(rt, s, steps) && AllLeaveMark(steps, id, question)
    ensures HoldsRow(After(rt, s, steps), id, question, row)
    decreases |steps|
  {
    if steps != [] {
      StepKeepsRow(rt, s, steps[0], id, question, row);
      MarkStands(rt, Next(rt, s, steps[0]), steps[1..], id, question, row);
    }
  }

  /** The gradebook hears of an attempt at the step that grades it, and a pass completes the lesson then. */
  lemma GradingIsPublishedAtOnce(rt: Runtime, s: State, step: Step, id: Id)
    requires id in s.attempts && s.attempts[id].status != Graded
    requires Permitted(s, step) && Next(rt, s, step).attempts[id].status == Graded
    ensures var t := Next(rt, s, step);
            var a := t.attempts[id];
            && t.scores == s.scores + (if a.maxPoints > 0 then [Score(id, a.user, a.points, a.maxPoints)] else [])
            && t.completions == s.completions + (if a.passed == Some(true) then [id] else [])
            && a.passed == Some(Passed(a.points, a.maxPoints, s.settings.passingPercent))
  {
  }

  // ---- The attempt limit ----

  /**
   An attempt opens with a number above the limit in force exactly when the limit is more than the fifty
   attempts a listing holds and all of them have been used.
   */
  lemma LimitIsExceededIff(s: State, user: Id, now: int, newId: Id)
    requires Inv(s) && newId !in s.attempts
    requires s.settings.maxAttempts > 0
    ensures var r := StartAttempt(s, user, now, newId);
            (r.Ok? && newId in r.value.attempts && r.value.attempts[newId].number > s.settings.maxAttempts) <==>
            (&& s.questions != [] && !HasLive(s.attempts, user)
             && s.settings.maxAttempts > MAX_ATTEMPTS_LISTED
             && |AttemptsOf(s.attempts, user)| >= s.settings.maxAttempts)
  {
  }
}
