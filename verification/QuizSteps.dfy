/** What starting, handing in, adding and removing come to, said without the steps that do them. */
module QuizSteps {
  import opened Prelude
  import opened Quiz
  import opened Grading
  import opened Uploads
  import opened Attempts
  import opened AttemptRuns
  import opened AttemptSafety

  // ---- Starting ----

  /** With a question there and an attempt open, starting is accepted whatever the limit, and changes nothing. */
  lemma AnOpenAttemptIsHandedBack(s: State, user: Id, now: int, newId: Id)
    requires s.questions != [] && HasLive(s.attempts, user)
    ensures StartAttempt(s, user, now, newId) == Ok(s)
  {
  }

  /** However often a learner starts, until they hand in they have the one attempt. */
  lemma {:induction false} StartingAgainAndAgain(rt: Runtime, s: State, user: Id, steps: seq<Step>)
    requires s.questions != [] && HasLive(s.attempts, user)
    requires forall i :: 0 <= i < |steps| ==> steps[i].Start? && steps[i].user == user
    ensures After(rt, s, steps) == s
    decreases |steps|
  {
    if steps != [] {
      AnOpenAttemptIsHandedBack(s, user, steps[0].now, steps[0].newId);
      StartingAgainAndAgain(rt, s, user, steps[1..]);
    }
  }

  lemma StartingOpens(s: State, user: Id, now: int, newId: Id)
    requires StartAttempt(s, user, now, newId).Ok?
    ensures var t := StartAttempt(s, user, now, newId).value; t.questions == s.questions && HasLive(t.attempts, user)
  {
    var t := StartAttempt(s, user, now, newId).value;
    if !HasLive(s.attempts, user) {
      assert IsLive(t.attempts, user, newId);
    }
  }

  /** Started twice in a row, a quiz has one attempt more at the most. */
  lemma StartingTwiceIsStartingOnce(s: State, user: Id, now: int, newId: Id, now': int, newId': Id)
    requires StartAttempt(s, user, now, newId).Ok?
    ensures var t := StartAttempt(s, user, now, newId).value; StartAttempt(t, user, now', newId') == Ok(t)
  {
    StartingOpens(s, user, now, newId);
    AnOpenAttemptIsHandedBack(StartAttempt(s, user, now, newId).value, user, now', newId');
  }

  /** When it is refused, and why: an empty quiz, or attempts used up under a limit the listing can still count to. */
  lemma StartingIsRefusedIff(s: State, user: Id, now: int, newId: Id)
    ensures var r := StartAttempt(s, user, now, newId);
            && (r == Err(EmptyQuiz) <==> s.questions == [])
            && (r == Err(AttemptsExhausted) <==>
                  && s.questions != [] && !HasLive(s.attempts, user)
                  && 0 < s.settings.maxAttempts <= 50 && |AttemptsOf(s.attempts, user)| >= s.settings.maxAttempts)
            && (r.Err? ==> r.error == EmptyQuiz || r.error == AttemptsExhausted)
  {
  }

  /** The deadline the limit in force gives, if there is a limit. */
  function DeadlineFrom(settings: Settings, now: int): Option<int> {
    if settings.timeLimitSeconds > 0 then Some(now + settings.timeLimitSeconds) else None
  }

  /**
   An attempt that opens is the learner's, open, with the next number and the deadline of the limit then in force,
   and no other attempt changes. Whatever is edited afterwards, it keeps that deadline, number and owner.
   */
  lemma AnOpenedAttemptKeepsItsDeadline(rt: Runtime, s: State, user: Id, now: int, newId: Id, steps: seq<Step>)
    requires newId !in s.attempts && !HasLive(s.attempts, user)
    requires StartAttempt(s, user, now, newId).Ok?
    requires AllPermitted(rt, StartAttempt(s, user, now, newId).value, steps)
    ensures var t := StartAttempt(s, user, now, newId).value;
            && t == s.(attempts := t.attempts)
            && newId in t.attempts && t.attempts == s.attempts[newId := t.attempts[newId]]
            && t.attempts[newId].status == InProgress
    ensures var u := After(rt, StartAttempt(s, user, now, newId).value, steps);
            && newId in u.attempts && u.attempts[newId].user == user
            && u.attempts[newId].number == |AttemptsOf(s.attempts, user)| + 1
            && u.attempts[newId].expiresAt == DeadlineFrom(s.settings, now)
  {
    RunMovesForward(rt, StartAttempt(s, user, now, newId).value, steps);
  }

  // ---- Handing in ----

  /** Handing in closes the open attempt and nothing else, queues its job, and leaves nothing to save into. */
  lemma HandingInClosesTheAttempt(s: State, user: Id, question: Id, response: Response, now: int)
    requires OneLive(s.attempts)
    ensures SubmitAttempt(s, user).Ok? <==> HasLive(s.attempts, user)
    ensures SubmitAttempt(s, user).Ok? ==>
      var t, a := SubmitAttempt(s, user).value, LiveAttempt(s.attempts, user);
      && IsLive(s.attempts, user, a)
      && t.attempts == s.attempts[a := s.attempts[a].(status := InGrading)] && t.jobs == s.jobs[a := Job(Queued, false)]
      && t.answers == s.answers && t.questions == s.questions && t.scores == s.scores
      && SaveAnswer(t, user, question, response, now) == Err(NotFound)
      && SubmitAttempt(t, user) == Err(NotFound)
  {
    if HasLive(s.attempts, user) {
      var t, a := SubmitAttempt(s, user).value, LiveAttempt(s.attempts, user);
      assert IsLive(s.attempts, user, a);
      forall b ensures !IsLive(t.attempts, user, b) {
        assert b != a ==> !IsLive(s.attempts, user, b);
      }
    }
  }

  // ---- Adding and removing ----

  lemma NextPositionOfOneMore(init: seq<Question>, last: Question)
    ensures NextPosition(init + [last]) ==
            if init == [] || last.position + 1 > NextPosition(init) then last.position + 1 else NextPosition(init)
  {
    assert (init + [last])[..|init|] == init;
  }

  /** A new question's position is past every other's, and by no more than one past the highest. */
  lemma {:induction false} ANewQuestionStandsLast(questions: seq<Question>) returns (highest: nat)
    ensures forall i :: 0 <= i < |questions| ==> questions[i].position < NextPosition(questions)
    ensures questions == [] ==> NextPosition(questions) == 0
    ensures questions != [] ==> highest < |questions| && NextPosition(questions) == questions[highest].position + 1
  {
    highest := 0;
    if questions != [] {
      var init, last := questions[..|questions| - 1], questions[|questions| - 1];
      assert questions == init + [last];
      NextPositionOfOneMore(init, last);
      highest := ANewQuestionStandsLast(init);
      if init == [] || last.position + 1 > NextPosition(init) {
        highest := |init|;
      }
    }
  }

  lemma {:induction false} WithoutKeepsOrder(questions: seq<Question>, id: Id, a: nat, b: nat) returns (i: nat, j: nat)
    requires a < b < |questions| && questions[a].id != id && questions[b].id != id
    ensures i < j < |Without(questions, id)|
    ensures Without(questions, id)[i] == questions[a] && Without(questions, id)[j] == questions[b]
  {
    var init, last := questions[..|questions| - 1], questions[|questions| - 1];
    assert questions == init + [last];
    if b < |init| {
      i, j := WithoutKeepsOrder(init, id, a, b);
    } else {
      j := |Without(init, id)|;
      WithoutKeepsTheRest(init, id);
      assert init[a] in init;
      i :| 0 <= i < j && Without(init, id)[i] == init[a];
    }
  }

  /** Adding a question puts it after the others and changes nothing else but the gradebook's item. */
  lemma AddingAddsOnlyThat(s: State, q: Question)
    ensures var t := AddQuestion(s, q);
            && |t.questions| == |s.questions| + 1 && s.questions <= t.questions && t.questions[|s.questions|] == q
            && t == s.(questions := t.questions, item := t.item)
  {
  }

  /** Removing a question takes it and its answers, and every other answer of every attempt stays as it was. */
  lemma RemovingTakesOnlyThat(s: State, id: Id)
    ensures RemoveQuestion(s, id).Ok? <==> id in QuestionIds(s.questions)
    ensures RemoveQuestion(s, id).Ok? ==>
      var t := RemoveQuestion(s, id).value;
      && t.attempts == s.attempts && t.jobs == s.jobs && t.scores == s.scores && t.completions == s.completions
      && (forall q :: q in t.questions <==> q in s.questions && q.id != id)
      && (forall a: Id, k: Id ::
            && (k in RowsOf(t.answers, a) <==> k in RowsOf(s.answers, a) && k != id)
            && (k in RowsOf(t.answers, a) ==> RowsOf(t.answers, a)[k] == RowsOf(s.answers, a)[k]))
  {
    WithoutKeepsTheRest(s.questions, id);
  }

  // ---- Refusals ----

  /** Why a save is refused, looked for in this order. */
  lemma ASaveIsRefusedFor(s: State, user: Id, question: Id, response: Response, now: int)
    requires OneLive(s.attempts)
    ensures var r := SaveAnswer(s, user, question, response, now);
            if !HasLive(s.attempts, user) then r == Err(NotFound)
            else
              var a := LiveAttempt(s.attempts, user);
              var late := s.attempts[a].expiresAt.Some? && now > s.attempts[a].expiresAt.value;
              && IsLive(s.attempts, user, a)
              && (r == Err(AttemptExpired) <==> late)
              && (r == Err(InvalidUpload) <==> !late && !IsOwnUpload(response.upload, a, question, user))
              && (r == Err(NotFound) <==>
                    !late && IsOwnUpload(response.upload, a, question, user) && question !in QuestionIds(s.questions))
              && (r.Err? ==> r.error in {AttemptExpired, InvalidUpload, NotFound})
  {
    if HasLive(s.attempts, user) {
      assert IsLive(s.attempts, user, LiveAttempt(s.attempts, user));
      var found := Find(s.questions, question);
      if found.Some? {
        assert found.value.id in QuestionIds(s.questions);
      }
    }
  }
}
