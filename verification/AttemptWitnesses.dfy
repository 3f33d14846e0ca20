/** Runs from a newly opened quiz that do what the exact conditions of the other modules allow to go wrong. */
module AttemptWitnesses {
  import opened Prelude
  import opened Quiz
  import opened Grading
  import opened Sums
  import opened Attempts
  import opened AttemptRuns
  import opened AttemptSafety
  import opened GradebookItem
  import opened Stranded

  lemma {:induction false} OneMoreStep(rt: Runtime, s: State, steps: seq<Step>, step: Step)
    requires AllStraight(rt, s, steps) && Straight(After(rt, s, steps), step)
    ensures AllStraight(rt, s, steps + [step])
    ensures After(rt, s, steps + [step]) == Next(rt, After(rt, s, steps), step)
    decreases |steps|
  {
    if steps == [] {
      assert [] + [step] == [step] && [step][1..] == [];
    } else {
      OneMoreStep(rt, Next(rt, s, steps[0]), steps[1..], step);
      assert (steps + [step])[1..] == steps[1..] + [step];
    }
  }

  // ---- One essay, one attempt, waiting for a marker ----

  predicate Essay(q: Question) {
    IsManual(q.kind) && q.points >= 0
  }

  function Deadline(settings: Settings, now: int): Option<int> {
    if settings.timeLimitSeconds > 0 then Some(now + settings.timeLimitSeconds) else None
  }

  function ItemOf(q: Question): Option<int> {
    if q.points > 0 then Some(q.points) else None
  }

  /** The quiz of one question with one attempt, before any answer. */
  function Opening(settings: Settings, q: Question, id: Id, a: Attempt, jobs: map<Id, Job>): State {
    State(settings, [q], map[id := a], map[], jobs, [], [], ItemOf(q))
  }

  function NoAnswer(): Answer {
    Answer(EMPTY_RESPONSE, false, false, 0)
  }

  /** The attempt has been delivered to the machine, which left the essay to a person. */
  function Awaiting(settings: Settings, q: Question, user: Id, now: int, id: Id): State {
    State(settings, [q],
          map[id := Attempt(user, 1, AwaitingReview, Deadline(settings, now), 0, q.points, None)],
          map[id := map[q.id := NoAnswer()]], map[id := Job(Queued, true)], [], [], ItemOf(q))
  }

  lemma OnlyQuestion(settings: Settings, q: Question)
    requires q.points >= 0
    ensures AddQuestion(Opened(settings), q) == Opened(settings).(questions := [q], item := ItemOf(q))
  {
    assert [] + [q] == [q];
    assert Worth([q]) == Worth([]) + q.points;
  }

  lemma OnlyAttempt(settings: Settings, q: Question, user: Id, now: int, id: Id)
    requires q.points >= 0
    ensures StartAttempt(AddQuestion(Opened(settings), q), user, now, id) ==
            Ok(Opening(settings, q, id, Attempt(user, 1, InProgress, Deadline(settings, now), 0, 0, None), map[]))
  {
    OnlyQuestion(settings, q);
    assert AttemptsOf(map[], user) == {};
  }

  lemma OnlySubmission(settings: Settings, q: Question, user: Id, now: int, id: Id)
    ensures SubmitAttempt(Opening(settings, q, id, Attempt(user, 1, InProgress, Deadline(settings, now), 0, 0, None),
                                  map[]), user) ==
            Ok(Opening(settings, q, id, Attempt(user, 1, InGrading, Deadline(settings, now), 0, 0, None),
                       map[id := Job(Queued, false)]))
  {
    var a := Attempt(user, 1, InProgress, Deadline(settings, now), 0, 0, None);
    var attempts := map[id := a];
    assert IsLive(attempts, user, id);
    assert LiveAttempt(attempts, user) == id;
    assert attempts[id := a.(status := InGrading)] == map[id := a.(status := InGrading)];
  }

  lemma EssayIsLeftToAPerson(rt: Runtime, q: Question)
    requires Essay(q)
    ensures var grades := Grades(rt, [q], map[]);
            && Written(map[], grades) == map[q.id := NoAnswer()]
            && Awarded(grades) == 0 && Worth([q]) == q.points && AnyManual([q])
  {
    var grades := Grades(rt, [q], map[]);
    var g := AnswerGrade(q.id, Grade(rt, q, EMPTY_RESPONSE));
    assert grades == [g];
    VerdictIsBounded(rt, q, EMPTY_RESPONSE);
    assert g.verdict.points == 0 && g.verdict.manual && !g.verdict.correct;
    assert Awarded([]) == 0 && Written(map[], []) == map[];
    assert [g][..0] == [] && [q][..0] == [];
  }

  lemma OnlyDelivery(rt: Runtime, settings: Settings, q: Question, user: Id, now: int, id: Id)
    requires Essay(q)
    ensures WorkJob(rt, Opening(settings, q, id, Attempt(user, 1, InGrading, Deadline(settings, now), 0, 0, None),
                                map[id := Job(Queued, false)]), id) ==
            Awaiting(settings, q, user, now, id)
  {
    var rows: Rows := map[];
    assert Responses(rows) == map[];
    EssayIsLeftToAPerson(rt, q);
  }

  lemma OnlyAttemptIsSubmitted(rt: Runtime, settings: Settings, q: Question, user: Id, now: int, id: Id)
    returns (steps: seq<Step>)
    requires q.points >= 0
    ensures AllStraight(rt, Opened(settings), steps)
    ensures After(rt, Opened(settings), steps) ==
            Opening(settings, q, id, Attempt(user, 1, InGrading, Deadline(settings, now), 0, 0, None),
                    map[id := Job(Queued, false)])
  {
    var s := Opened(settings);
    OnlyAttempt(settings, q, user, now, id);
    OnlySubmission(settings, q, user, now, id);
    steps := [];
    OneMoreStep(rt, s, steps, Add(q));
    steps := steps + [Add(q)];
    OneMoreStep(rt, s, steps, Start(user, now, id));
    steps := steps + [Start(user, now, id)];
    OneMoreStep(rt, s, steps, Submit(user));
    steps := steps + [Submit(user)];
  }

  /** Add, start, submit, deliver: an attempt at one essay waits for its marker. */
  lemma EssayAwaits(rt: Runtime, settings: Settings, q: Question, user: Id, now: int, id: Id) returns (steps: seq<Step>)
    requires Essay(q)
    ensures AllStraight(rt, Opened(settings), steps)
    ensures After(rt, Opened(settings), steps) == Awaiting(settings, q, user, now, id)
  {
    steps := OnlyAttemptIsSubmitted(rt, settings, q, user, now, id);
    OnlyDelivery(rt, settings, q, user, now, id);
    OneMoreStep(rt, Opened(settings), steps, Deliver(id));
    steps := steps + [Deliver(id)];
  }

  lemma AwaitingIsOk(rt: Runtime, settings: Settings, q: Question, user: Id, now: int, id: Id)
    requires Essay(q)
    ensures Inv(Awaiting(settings, q, user, now, id))
  {
    var steps := EssayAwaits(rt, settings, q, user, now, id);
    OpenedIsOk(settings);
    RunKeepsInv(rt, Opened(settings), steps);
  }

  // ---- Harmful removals are reached ----

  lemma LosingTheOnlyEssayIsHarmful(settings: Settings, q: Question, user: Id, now: int, id: Id)
    requires Essay(q)
    ensures !HarmlessRemoval(Awaiting(settings, q, user, now, id), q.id)
  {
    var s := Awaiting(settings, q, user, now, id);
    assert id in s.attempts && RowsOf(s.answers, id) == map[q.id := NoAnswer()];
    assert !Unmarked(RowsOf(s.answers, id) - {q.id});
    assert !HarmlessFor(s.attempts[id], RowsOf(s.answers, id), q.id);
  }

  lemma LosingTheOnlyEssayStrands(settings: Settings, q: Question, user: Id, now: int, id: Id)
    requires Essay(q)
    requires Inv(Awaiting(settings, q, user, now, id))
    ensures Unmarkable(RemoveQuestion(Awaiting(settings, q, user, now, id), q.id).value, id)
  {
    RemovalStrandsIff(Awaiting(settings, q, user, now, id), id, q.id);
  }

  /**
   A quiz whose only attempt awaits the marking of its only essay: removing the essay breaks the books and
   leaves the attempt waiting for good.
   */
  lemma AHarmfulRemovalIsReached(rt: Runtime, settings: Settings, q: Question, user: Id, now: int, id: Id)
    returns (steps: seq<Step>)
    requires Essay(q)
    ensures AllStraight(rt, Opened(settings), steps)
    ensures var s := After(rt, Opened(settings), steps);
            && Find(s.questions, q.id).Some? && !HarmlessRemoval(s, q.id)
            && !Inv(RemoveQuestion(s, q.id).value) && Unmarkable(RemoveQuestion(s, q.id).value, id)
  {
    steps := EssayAwaits(rt, settings, q, user, now, id);
    AwaitingIsOk(rt, settings, q, user, now, id);
    LosingTheOnlyEssayIsHarmful(settings, q, user, now, id);
    LosingTheOnlyEssayStrands(settings, q, user, now, id);
    RemovalKeepsInvIffHarmless(Awaiting(settings, q, user, now, id), q.id);
  }

  /** The queue gives up a job no delivery of which has committed: the attempt is left in grading for good. */
  lemma AGivenUpJobIsReached(rt: Runtime, settings: Settings, q: Question, user: Id, now: int, id: Id)
    returns (steps: seq<Step>)
    requires q.points >= 0
    ensures AllStraight(rt, Opened(settings), steps)
    ensures GivenUp(After(rt, Opened(settings), steps), id)
  {
    var s := Opened(settings);
    steps := OnlyAttemptIsSubmitted(rt, settings, q, user, now, id);
    OneMoreStep(rt, s, steps, Discard(id));
    steps := steps + [Discard(id)];
  }

  // ---- The gradebook goes wrong ----

  /** A quiz stripped of its only question is worth nothing, and the gradebook goes on saying what it was worth. */
  lemma EmptiedQuizKeepsItsItem(rt: Runtime, settings: Settings, q: Question) returns (steps: seq<Step>)
    requires q.points > 0
    ensures AllStraight(rt, Opened(settings), steps)
    ensures var s := After(rt, Opened(settings), steps);
            s.questions == [] && Worth(s.questions) == 0 && s.item == Some(q.points) && !ItemTells(s)
  {
    var s := Opened(settings);
    OnlyQuestion(settings, q);
    assert Without([q], q.id) == [] by { assert [q][..0] == []; }
    assert Find([q], q.id) == Some(q);
    OneMoreStep(rt, s, [], Add(q));
    OneMoreStep(rt, s, [] + [Add(q)], Remove(q.id));
    steps := [] + [Add(q)] + [Remove(q.id)];
  }

  lemma TwoQuestions(q: Question, late: Question)
    ensures [q] + [late] == [q, late] && Worth([q] + [late]) == q.points + late.points
    ensures Find([q] + [late], q.id) == Some(q)
  {
    assert [q] == [] + [q];
    WorthOfOneMore([], q);
    WorthOfOneMore([q], late);
  }

  lemma MarkingAfterAnAddition(settings: Settings, q: Question, user: Id, now: int, id: Id, late: Question, points: int)
    requires Essay(q) && 0 < q.points && 0 <= points <= q.points
    requires late.id != q.id && late.points > 0
    ensures var s := AddQuestion(Awaiting(settings, q, user, now, id), late);
            var t := Kept(s, MarkAnswer(s, id, q.id, points));
            && t.questions == [q, late] && Worth(t.questions) == q.points + late.points
            && id in t.attempts && t.attempts[id].status == Graded
            && t.item == Some(q.points)
  {
    var s := AddQuestion(Awaiting(settings, q, user, now, id), late);
    TwoQuestions(q, late);
    var row := NoAnswer().(graded := true, correct := points == q.points, points := points);
    assert RowsOf(s.answers, id)[q.id := row] == map[q.id := row];
    assert !Unmarked(map[q.id := row]);
  }

  /**
   A question is added while an essay waits for its marker. Marking the essay then tells the gradebook that the
   quiz is worth what it was worth when that attempt was scored.
   */
  lemma LateMarkRestatesTheItem(rt: Runtime, settings: Settings, q: Question, user: Id, now: int, id: Id,
                                late: Question, points: int)
    returns (steps: seq<Step>)
    requires Essay(q) && 0 < q.points && 0 <= points <= q.points
    requires late.id != q.id && late.points > 0
    ensures AllStraight(rt, Opened(settings), steps)
    ensures var s := After(rt, Opened(settings), steps);
            && id in s.attempts && s.attempts[id].status == Graded
            && s.item == Some(q.points) && Worth(s.questions) == q.points + late.points && !ItemTells(s)
  {
    steps := EssayAwaits(rt, settings, q, user, now, id);
    MarkingAfterAnAddition(settings, q, user, now, id, late, points);
    OneMoreStep(rt, Opened(settings), steps, Add(late));
    steps := steps + [Add(late)];
    OneMoreStep(rt, Opened(settings), steps, Mark(id, q.id, points));
    steps := steps + [Mark(id, q.id, points)];
  }

  // ---- High limits are passed ----

  ghost predicate ReadyToStart(s: State, user: Id) {
    && s.questions != [] && s.settings.maxAttempts > MAX_ATTEMPTS_LISTED
    && !HasLive(s.attempts, user)
  }

  lemma StartingOpensOneMore(s: State, user: Id, now: int, newId: Id)
    requires ReadyToStart(s, user) && newId !in s.attempts
    ensures var t := Kept(s, StartAttempt(s, user, now, newId));
            && newId in t.attempts && t.attempts[newId].number == |AttemptsOf(s.attempts, user)| + 1
            && t.questions == s.questions && t.settings == s.settings
            && AttemptsOf(t.attempts, user) == AttemptsOf(s.attempts, user) + {newId}
            && (forall a :: IsLive(t.attempts, user, a) <==> a == newId)
  {
    var t := Kept(s, StartAttempt(s, user, now, newId));
    forall a ensures IsLive(t.attempts, user, a) <==> a == newId {
      assert !IsLive(s.attempts, user, a);
    }
  }

  lemma SubmittingFreesTheLearner(t: State, user: Id, a: Id)
    requires forall b :: IsLive(t.attempts, user, b) <==> b == a
    ensures var u := Kept(t, SubmitAttempt(t, user));
            && u.questions == t.questions && u.settings == t.settings
            && AttemptsOf(u.attempts, user) == AttemptsOf(t.attempts, user) && !HasLive(u.attempts, user)
  {
    assert IsLive(t.attempts, user, a);
    var u := Kept(t, SubmitAttempt(t, user));
    forall b ensures !IsLive(u.attempts, user, b) {
      assert b != a ==> !IsLive(t.attempts, user, b);
    }
  }

  /** Started and handed in `n` times, nothing stops a learner whose quiz has a limit above fifty. */
  lemma {:induction false} AnyNumberOfAttempts(rt: Runtime, s: State, user: Id, now: int, n: nat)
    returns (steps: seq<Step>)
    requires ReadyToStart(s, user)
    ensures AllStraight(rt, s, steps)
    ensures var t := After(rt, s, steps);
            && ReadyToStart(t, user) && t.settings == s.settings
            && |AttemptsOf(t.attempts, user)| == |AttemptsOf(s.attempts, user)| + n
  {
    if n == 0 {
      steps := [];
    } else {
      steps := AnyNumberOfAttempts(rt, s, user, now, n - 1);
      var t := After(rt, s, steps);
      var newId := AnUnusedId(t.attempts.Keys);
      StartingOpensOneMore(t, user, now, newId);
      OneMoreStep(rt, s, steps, Start(user, now, newId));
      steps := steps + [Start(user, now, newId)];
      SubmittingFreesTheLearner(After(rt, s, steps), user, newId);
      OneMoreStep(rt, s, steps, Submit(user));
      steps := steps + [Submit(user)];
    }
  }

  /** Whatever the limit above fifty, some run from a new quiz opens an attempt numbered above it. */
  lemma EveryHighLimitIsPassed(rt: Runtime, settings: Settings, q: Question, user: Id, now: int)
    returns (steps: seq<Step>, id: Id)
    requires settings.maxAttempts > MAX_ATTEMPTS_LISTED && q.points >= 0
    ensures AllStraight(rt, Opened(settings), steps)
    ensures var s := After(rt, Opened(settings), steps);
            && id in s.attempts && s.attempts[id].user == user && s.settings == settings
            && s.attempts[id].number > settings.maxAttempts
  {
    var s := Opened(settings);
    OneMoreStep(rt, s, [], Add(q));
    var added := Next(rt, s, Add(q));
    var many := AnyNumberOfAttempts(rt, added, user, now, settings.maxAttempts);
    var t := After(rt, added, many);
    id := AnUnusedId(t.attempts.Keys);
    StartingOpensOneMore(t, user, now, id);
    OneMoreStep(rt, added, many, Start(user, now, id));
    steps := [Add(q)] + (many + [Start(user, now, id)]);
    assert steps[1..] == many + [Start(user, now, id)];
  }
}
