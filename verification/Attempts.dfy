/**
 The rows behind one quiz: its questions, the attempts at it, the answers, the grading jobs and what the
 gradebook and the course were told. Each operation is one transaction, given here as a step on the whole
 state; module Desk performs the same steps statement by statement.
 */
module Attempts {
  import opened Prelude
  import opened Quiz
  import opened Grading
  import opened Sums
  import opened Uploads

  datatype Status = InProgress | InGrading | AwaitingReview | Graded

  datatype Attempt = Attempt(
    user: Id,
    number: nat,
    status: Status,
    expiresAt: Option<int>,
    points: int,
    maxPoints: int,
    passed: Option<bool>)

  datatype Answer = Answer(response: Response, graded: bool, correct: bool, points: int)

  type Rows = map<Id, Answer>

  datatype Settings = Settings(timeLimitSeconds: int, maxAttempts: int, passingPercent: int)

  /** One call of RecordScore, and the attempt it was made for. */
  datatype Score = Score(attempt: Id, user: Id, points: int, maxPoints: int)

  datatype Refusal =
    | NotFound | EmptyQuiz | AttemptsExhausted | AttemptExpired | AttemptClosed
    | NotAwaitingReview | NotManual | InvalidGrade | InvalidQuestion | InvalidUpload

  /** A row of the job table; `worked` remembers whether a delivery of it has committed. */
  datatype Job = Job(phase: JobPhase, worked: bool)

  datatype State = State(
    settings: Settings,
    questions: seq<Question>,
    attempts: map<Id, Attempt>,
    answers: map<Id, Rows>,
    jobs: map<Id, Job>,
    scores: seq<Score>,
    completions: seq<Id>,
    item: Option<int>)

  const MAX_ATTEMPTS_LISTED := 50

  // ---- Reading the rows ----

  function RowsOf(answers: map<Id, Rows>, attempt: Id): Rows {
    if attempt in answers then answers[attempt] else map[]
  }

  function Responses(rows: Rows): map<Id, Response> {
    map k | k in rows :: rows[k].response
  }

  function Find(questions: seq<Question>, id: Id): (r: Option<Question>)
    ensures r.Some? ==> r.value in questions && r.value.id == id
    ensures r.None? <==> forall q :: q in questions ==> q.id != id
  {
    if questions == [] then None
    else if questions[0].id == id then Some(questions[0])
    else
      assert questions == [questions[0]] + questions[1..];
      Find(questions[1..], id)
  }

  ghost predicate IsLive(attempts: map<Id, Attempt>, user: Id, a: Id) {
    a in attempts && attempts[a].user == user && attempts[a].status == InProgress
  }

  ghost predicate HasLive(attempts: map<Id, Attempt>, user: Id) {
    exists a :: IsLive(attempts, user, a)
  }

  /** The row LiveAttempt selects; the partial unique index leaves no choice. */
  ghost function LiveAttempt(attempts: map<Id, Attempt>, user: Id): Id
    requires HasLive(attempts, user)
  {
    var a :| IsLive(attempts, user, a); a
  }

  function AttemptsOf(attempts: map<Id, Attempt>, user: Id): set<Id> {
    set a | a in attempts && attempts[a].user == user
  }

  function Expired(a: Attempt, now: int): bool {
    a.expiresAt.Some? && now > a.expiresAt.value
  }

  // ---- The two roll-ups ----

  function PointsIn(rows: Rows): map<Id, int> {
    map k | k in rows :: rows[k].points
  }

  ghost predicate Unmarked(rows: Rows) {
    exists k :: k in rows && !rows[k].graded
  }

  /** What recomputeAttemptSQL makes of an attempt from its answer rows. */
  ghost function RolledUp(a: Attempt, rows: Rows, passingPercent: int): Attempt {
    var points := SumMap(PointsIn(rows));
    if Unmarked(rows) then a.(points := points, status := AwaitingReview, passed := None)
    else a.(points := points, status := Graded, passed := Some(Passed(points, a.maxPoints, passingPercent)))
  }

  lemma OneRowLess(rows: Rows, k: Id)
    requires k in rows
    ensures |rows - {k}| < |rows|
    ensures SumMap(PointsIn(rows)) == rows[k].points + SumMap(PointsIn(rows - {k}))
    ensures Unmarked(rows) <==> !rows[k].graded || Unmarked(rows - {k})
  {
    SmallerWithout(rows, k);
    SumWithout(PointsIn(rows), k);
    assert PointsIn(rows - {k}) == PointsIn(rows) - {k};
    assert forall j :: j in rows ==> j == k || j in rows - {k};
  }

  /** The upsert of one verdict: the learner's response stays, the grade is replaced. */
  function Upsert(rows: Rows, g: AnswerGrade): Rows {
    var response := if g.questionId in rows then rows[g.questionId].response else EMPTY_RESPONSE;
    rows[g.questionId := Answer(response, !g.verdict.manual, g.verdict.correct, g.verdict.points)]
  }

  function Written(rows: Rows, grades: seq<AnswerGrade>): Rows {
    if grades == [] then rows
    else Upsert(Written(rows, grades[..|grades| - 1]), grades[|grades| - 1])
  }

  /** What GradeAttempt stores on the attempt from grading's own totals. */
  function Finished(a: Attempt, points: int, maxPoints: int, awaiting: bool, passingPercent: int): Attempt {
    a.(points := points, maxPoints := maxPoints,
       status := if awaiting then AwaitingReview else Graded,
       passed := if awaiting then None else Some(Passed(points, maxPoints, passingPercent)))
  }

  // ---- Telling the gradebook and the course ----

  function Recorded(scores: seq<Score>, id: Id, a: Attempt): seq<Score> {
    if a.status == Graded && a.maxPoints > 0 then scores + [Score(id, a.user, a.points, a.maxPoints)] else scores
  }

  function Settled(completions: seq<Id>, id: Id, a: Attempt): seq<Id> {
    if a.status == Graded && a.passed == Some(true) then completions + [id] else completions
  }

  /** EnsureItem: an item worth nothing is not written, and a stale one is left. */
  function Ensured(item: Option<int>, total: int): Option<int> {
    if total <= 0 then item else Some(total)
  }

  /** Recording a score upserts the item with what that attempt was scored out of. */
  function Rescored(item: Option<int>, a: Attempt): Option<int> {
    if a.status == Graded && a.maxPoints > 0 then Some(a.maxPoints) else item
  }

  function Published(s: State, id: Id, a: Attempt, answers: map<Id, Rows>): State {
    s.(attempts := s.attempts[id := a], answers := answers, item := Rescored(s.item, a),
       scores := Recorded(s.scores, id, a), completions := Settled(s.completions, id, a))
  }

  // ---- The steps ----

  /** coalesce(max(position) + 1, 0) */
  function NextPosition(questions: seq<Question>): int {
    if questions == [] then 0
    else
      var rest, last := NextPosition(questions[..|questions| - 1]), questions[|questions| - 1].position + 1;
      if |questions| == 1 || last > rest then last else rest
  }

  function AddQuestion(s: State, q: Question): State {
    s.(questions := s.questions + [q], item := Ensured(s.item, Worth(s.questions + [q])))
  }

  function Without(questions: seq<Question>, id: Id): seq<Question> {
    if questions == [] then []
    else Without(questions[..|questions| - 1], id) +
         (if questions[|questions| - 1].id == id then [] else [questions[|questions| - 1]])
  }

  function RemoveQuestion(s: State, id: Id): Result<State, Refusal> {
    if Find(s.questions, id).None? then Err(NotFound)
    else Ok(s.(questions := Without(s.questions, id),
               answers := map a | a in s.answers :: s.answers[a] - {id},
               item := Ensured(s.item, Worth(Without(s.questions, id)))))
  }

  ghost function StartAttempt(s: State, user: Id, now: int, newId: Id): Result<State, Refusal> {
    if s.questions == [] then Err(EmptyQuiz)
    else if HasLive(s.attempts, user) then Ok(s)
    else
      var taken := |AttemptsOf(s.attempts, user)|;
      var listed := if taken > MAX_ATTEMPTS_LISTED then MAX_ATTEMPTS_LISTED else taken;
      if s.settings.maxAttempts > 0 && listed >= s.settings.maxAttempts then Err(AttemptsExhausted)
      else
        var expiresAt := if s.settings.timeLimitSeconds > 0 then Some(now + s.settings.timeLimitSeconds) else None;
        Ok(s.(attempts := s.attempts[newId := Attempt(user, taken + 1, InProgress, expiresAt, 0, 0, None)]))
  }

  ghost function SaveAnswer(s: State, user: Id, question: Id, response: Response, now: int): Result<State, Refusal> {
    if !HasLive(s.attempts, user) then Err(NotFound)
    else
      var a := LiveAttempt(s.attempts, user);
      if Expired(s.attempts[a], now) then Err(AttemptExpired)
      else if !IsOwnUpload(response.upload, a, question, user) then Err(InvalidUpload)
      else if Find(s.questions, question).None? then Err(NotFound)
      else
        var rows := RowsOf(s.answers, a);
        var row :=
          if question in rows then rows[question].(response := response) else Answer(response, false, false, 0);
        Ok(s.(answers := s.answers[a := rows[question := row]]))
  }

  ghost function SubmitAttempt(s: State, user: Id): Result<State, Refusal> {
    if !HasLive(s.attempts, user) then Err(NotFound)
    else
      var a := LiveAttempt(s.attempts, user);
      Ok(s.(attempts := s.attempts[a := s.attempts[a].(status := InGrading)], jobs := s.jobs[a := Job(Queued, false)]))
  }

  /** Every question graded, the rows written, and the attempt finished and published. */
  function GradedNow(rt: Runtime, s: State, id: Id): State
    requires id in s.attempts
  {
    var rows := RowsOf(s.answers, id);
    var grades := Grades(rt, s.questions, Responses(rows));
    var a := Finished(s.attempts[id], Awarded(grades), Worth(s.questions), AnyManual(s.questions),
                      s.settings.passingPercent);
    Published(s, id, a, if grades == [] then s.answers else s.answers[id := Written(rows, grades)])
  }

  /** One delivery of the grading job. */
  function DeliverJob(rt: Runtime, s: State, id: Id): Result<State, Refusal> {
    if id !in s.attempts then Err(NotFound)
    else if s.attempts[id].status != InGrading then Ok(s)
    else Ok(GradedNow(rt, s, id))
  }

  function Noted(jobs: map<Id, Job>, id: Id): map<Id, Job> {
    if id in jobs then jobs[id := jobs[id].(worked := true)] else jobs
  }

  /** The worker: an attempt that is gone is no error, and the delivery has committed either way. */
  function WorkJob(rt: Runtime, s: State, id: Id): State {
    var r := DeliverJob(rt, s, id);
    var t := if r.Ok? then r.value else s;
    t.(jobs := Noted(t.jobs, id))
  }

  /** What a marker may not do, in the order it is looked for. */
  function MarkCheck(s: State, id: Id, question: Id, points: int): Result<Question, Refusal> {
    if id !in s.attempts then Err(NotFound)
    else if s.attempts[id].status != AwaitingReview then Err(NotAwaitingReview)
    else
      var found := Find(s.questions, question);
      if found.None? then Err(NotFound)
      else if !IsManual(found.value.kind) then Err(NotManual)
      else if points < 0 || points > found.value.points then Err(InvalidGrade)
      else Ok(found.value)
  }

  ghost function MarkAnswer(s: State, id: Id, question: Id, points: int): Result<State, Refusal> {
    var checked := MarkCheck(s, id, question, points);
    if checked.Err? then Err(checked.error)
    else
      var rows := RowsOf(s.answers, id);
      if question !in rows then Err(NotFound)
      else
        var row := rows[question].(graded := true, correct := points == checked.value.points, points := points);
        var marked := rows[question := row];
        Ok(Published(s, id, RolledUp(s.attempts[id], marked, s.settings.passingPercent), s.answers[id := marked]))
  }

  // ---- Numbering ----

  /** Each learner's attempts are numbered 1, 2, ..., n with no number used twice. */
  ghost predicate Numbered(attempts: map<Id, Attempt>) {
    && (forall a :: a in attempts ==> 1 <= attempts[a].number <= |AttemptsOf(attempts, attempts[a].user)|)
    && (forall a, b :: a in attempts && b in attempts && a != b && attempts[a].user == attempts[b].user ==>
          attempts[a].number != attempts[b].number)
    && (forall user: Id, n: nat :: 1 <= n <= |AttemptsOf(attempts, user)| ==> HasNumber(attempts, user, n))
  }

  ghost predicate HasNumber(attempts: map<Id, Attempt>, user: Id, n: nat) {
    exists a :: a in AttemptsOf(attempts, user) && attempts[a].number == n
  }

  /** At most one attempt of a learner is in progress. */
  ghost predicate OneLive(attempts: map<Id, Attempt>) {
    forall user, a, b :: IsLive(attempts, user, a) && IsLive(attempts, user, b) ==> a == b
  }

  lemma NextNumber(attempts: map<Id, Attempt>, user: Id, next: nat)
    requires Numbered(attempts)
    requires next >= 1 && forall a :: a in AttemptsOf(attempts, user) ==> attempts[a].number < next
    requires next == 1 || exists a :: a in AttemptsOf(attempts, user) && attempts[a].number == next - 1
    ensures next == |AttemptsOf(attempts, user)| + 1
  {
    var n := |AttemptsOf(attempts, user)|;
    if n >= 1 {
      assert HasNumber(attempts, user, n);
      var a :| a in AttemptsOf(attempts, user) && attempts[a].number == n;
    }
  }
}
