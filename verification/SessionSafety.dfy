/** What every run of logins, refreshes, revocations and password changes keeps true of the session table. */
module SessionSafety {
  import opened Prelude
  import opened Quiz
  import opened Sessions

  // ---- Runs ----

  datatype Step =
    | DoBegin(tenant: Id, user: Id, newId: Id, now: int)
    | DoRefresh(tenant: Id, token: Id, newId: Id, now: int, member: bool)
    | DoLogout(tenant: Id, id: Id)
    | DoExpel(tenant: Id, user: Id)
    | DoChange(tenant: Id, user: Id, keep: Id, verified: bool, job: Id)
    | DoRequest(tenant: Id, found: Option<Id>, active: bool, newToken: Id, now: int)
    | DoReset(tenant: Id, token: Id, now: int, member: bool, job: Id)
    | DoSweep(job: Id)
    | DoComplete(job: Id)
    | DoDiscard(job: Id)

  function Next(s: Store, step: Step): Store {
    match step
    case DoBegin(tenant, user, newId, now) => Begin(s, tenant, user, newId, now)
    case DoRefresh(tenant, token, newId, now, member) => Refresh(s, tenant, token, newId, now, member)
    case DoLogout(tenant, id) => Logout(s, tenant, id)
    case DoExpel(tenant, user) => Expel(s, tenant, user)
    case DoChange(tenant, user, keep, verified, job) => ChangePassword(s, tenant, user, keep, verified, job)
    case DoRequest(tenant, found, active, newToken, now) => RequestReset(s, tenant, found, active, newToken, now)
    case DoReset(tenant, token, now, member, job) => ResetPassword(s, tenant, token, now, member, job)
    case DoSweep(job) => Sweep(s, job)
    case DoComplete(job) => CloseJob(s, job, Completed)
    case DoDiscard(job) => CloseJob(s, job, Discarded)
  }

  /**
   Row ids are new; only a queued job is delivered, it completes once a sweep of it has committed, and it may
   be given up.
   */
  predicate Permitted(s: Store, step: Step) {
    match step
    case DoBegin(_, _, newId, _) => newId !in s.sessions
    case DoRefresh(_, _, newId, _, _) => newId !in s.sessions
    case DoChange(_, _, _, _, job) => job !in s.jobs
    case DoRequest(_, _, _, newToken, _) => newToken !in s.tokens
    case DoReset(_, _, _, _, job) => job !in s.jobs
    case DoSweep(job) => job in s.jobs && s.jobs[job].phase == Queued
    case DoComplete(job) => job in s.jobs && s.jobs[job].phase == Queued && s.jobs[job].swept
    case DoDiscard(job) => job in s.jobs && s.jobs[job].phase == Queued
    case _ => true
  }

  function After(s: Store, steps: seq<Step>): Store
    decreases |steps|
  {
    if steps == [] then s else After(Next(s, steps[0]), steps[1..])
  }

  predicate AllPermitted(s: Store, steps: seq<Step>)
    decreases |steps|
  {
    steps == [] || (Permitted(s, steps[0]) && AllPermitted(Next(s, steps[0]), steps[1..]))
  }

  const EMPTY := Store(map[], map[], map[], map[], 0)

  // ---- Families are chains ----

  /**
   The sessions of family `f`, in the order they replaced one another: rooted at the login, each revoked
   and pointing at the next, the last pointing nowhere.
   */
  ghost predicate IsChain(sessions: map<Id, Session>, f: Id, c: seq<Id>) {
    && c != [] && c[0] == f && Distinct(c)
    && Lists(sessions, f, c)
    && Links(sessions, c)
  }

  /** `c` names every session of the family and no other, all of one user in one workspace. */
  ghost predicate Lists(sessions: map<Id, Session>, f: Id, c: seq<Id>) {
    && f in sessions
    && (forall x :: x in c ==>
          && x in sessions && sessions[x].family == f
          && sessions[x].tenant == sessions[f].tenant && sessions[x].user == sessions[f].user)
    && (forall x :: x in sessions && sessions[x].family == f ==> x in c)
  }

  ghost predicate Links(sessions: map<Id, Session>, c: seq<Id>)
    requires c != [] && forall x :: x in c ==> x in sessions
  {
    && (forall i :: 0 <= i < |c| - 1 ==> sessions[c[i]].revoked && sessions[c[i]].replacedBy.Some?)
    && (forall i, j :: 0 <= i < j < |c| && j == i + 1 ==> sessions[c[i]].replacedBy == Some(c[j]))
    && sessions[c[|c| - 1]].replacedBy == None
  }

  ghost predicate HasChain(sessions: map<Id, Session>, f: Id) {
    exists c :: IsChain(sessions, f, c)
  }

  ghost predicate ChainsOk(sessions: map<Id, Session>) {
    forall x {:trigger HasChain(sessions, sessions[x].family)} ::
      x in sessions ==> HasChain(sessions, sessions[x].family)
  }

  /** The same rows, some of them newly revoked. */
  ghost predicate OnlyRevokes(before: map<Id, Session>, after: map<Id, Session>) {
    && after.Keys == before.Keys
    && forall x :: x in before ==>
         after[x] == before[x] || after[x] == before[x].(revoked := true)
  }

  /** A chain lasts as long as its own rows do: they may be revoked, and none may join them. */
  lemma ChainSurvives(before: map<Id, Session>, after: map<Id, Session>, f: Id, c: seq<Id>)
    requires IsChain(before, f, c)
    requires forall x :: x in before && before[x].family == f ==>
      x in after && (after[x] == before[x] || after[x] == before[x].(revoked := true))
    requires forall x :: x in after && after[x].family == f ==> x in before && before[x].family == f
    ensures HasChain(after, f)
  {
    assert IsChain(after, f, c);
  }

  lemma RevokingKeepsChains(before: map<Id, Session>, after: map<Id, Session>)
    requires ChainsOk(before) && OnlyRevokes(before, after)
    ensures ChainsOk(after)
  {
    forall x | x in after ensures HasChain(after, after[x].family) {
      var f := before[x].family;
      assert HasChain(before, f);
      var c :| IsChain(before, f, c);
      ChainSurvives(before, after, f, c);
    }
  }

  lemma NoFamilyIsNamedYet(sessions: map<Id, Session>, newId: Id)
    requires ChainsOk(sessions) && newId !in sessions
    ensures forall x :: x in sessions ==> sessions[x].family != newId
  {
    forall x | x in sessions ensures sessions[x].family != newId {
      assert HasChain(sessions, sessions[x].family);
      var c :| IsChain(sessions, sessions[x].family, c);
    }
  }

  lemma BeginningKeepsChains(before: map<Id, Session>, newId: Id, x: Session)
    requires ChainsOk(before) && newId !in before
    requires x.family == newId && x.replacedBy == None
    ensures ChainsOk(before[newId := x])
  {
    var after := before[newId := x];
    NoFamilyIsNamedYet(before, newId);
    forall y | y in after ensures HasChain(after, after[y].family) {
      if y == newId {
        assert IsChain(after, newId, [newId]);
      } else {
        var f := before[y].family;
        assert HasChain(before, f);
        var c :| IsChain(before, f, c);
        ChainSurvives(before, after, f, c);
      }
    }
  }

  lemma UnrotatedIsLast(sessions: map<Id, Session>, f: Id, c: seq<Id>, token: Id)
    requires IsChain(sessions, f, c)
    requires token in sessions && sessions[token].family == f && sessions[token].replacedBy == None
    ensures token == c[|c| - 1] && c == c[..|c| - 1] + [token]
  {
    assert token in c;
    var i :| 0 <= i < |c| && c[i] == token;
    assert i == |c| - 1;
  }

  lemma RotationListsOneMore(before: map<Id, Session>, tenant: Id, token: Id, newId: Id, now: int, ticks: nat,
                             c: seq<Id>)
    requires newId !in before && token in before && before[token].tenant == tenant
    requires Lists(before, before[token].family, c)
    ensures newId !in c
    ensures Lists(Rotation(before, tenant, token, newId, now, ticks), before[token].family, c + [newId])
  {
  }

  lemma RotationExtendsChain(before: map<Id, Session>, tenant: Id, token: Id, newId: Id, now: int, ticks: nat,
                             c: seq<Id>)
    requires newId !in before && token in before && before[token].replacedBy == None
    requires before[token].tenant == tenant
    requires IsChain(before, before[token].family, c)
    ensures IsChain(Rotation(before, tenant, token, newId, now, ticks), before[token].family, c + [newId])
  {
    var f := before[token].family;
    UnrotatedIsLast(before, f, c, token);
    var after, c' := Rotation(before, tenant, token, newId, now, ticks), c + [newId];
    RotationListsOneMore(before, tenant, token, newId, now, ticks, c);
    forall i, j | 0 <= i < j < |c'| && j == i + 1 ensures after[c'[i]].replacedBy == Some(c'[j]) {
      if j < |c| {
        assert c[i] != c[|c| - 1];
        assert before[c[i]].replacedBy == Some(c[j]);
      }
    }
    forall i | 0 <= i < |c'| - 1 ensures after[c'[i]].revoked && after[c'[i]].replacedBy.Some? {
      assert c'[i] == c[i];
    }
  }

  lemma RotationKeepsChain(before: map<Id, Session>, tenant: Id, token: Id, newId: Id, now: int, ticks: nat, f: Id)
    requires HasChain(before, f) && newId !in before
    requires token in before && before[token].replacedBy == None && before[token].tenant == tenant
    ensures HasChain(Rotation(before, tenant, token, newId, now, ticks), f)
  {
    var c :| IsChain(before, f, c);
    if f == before[token].family {
      RotationExtendsChain(before, tenant, token, newId, now, ticks, c);
    } else {
      ChainSurvives(before, Rotation(before, tenant, token, newId, now, ticks), f, c);
    }
  }

  lemma RotationKeepsChains(before: map<Id, Session>, tenant: Id, token: Id, newId: Id, now: int, ticks: nat)
    requires ChainsOk(before) && newId !in before
    requires token in before && before[token].replacedBy == None && before[token].tenant == tenant
    ensures ChainsOk(Rotation(before, tenant, token, newId, now, ticks))
  {
    var after := Rotation(before, tenant, token, newId, now, ticks);
    forall y | y in after ensures HasChain(after, after[y].family) {
      var x := if y == newId then token else y;
      assert after[y].family == before[x].family && HasChain(before, before[x].family);
      RotationKeepsChain(before, tenant, token, newId, now, ticks, before[x].family);
    }
  }

  lemma StepKeepsChains(s: Store, step: Step)
    requires ChainsOk(s.sessions) && Permitted(s, step)
    ensures ChainsOk(Next(s, step).sessions)
  {
    match step
    case DoBegin(tenant, user, newId, now) =>
      BeginningKeepsChains(s.sessions, newId, Next(s, step).sessions[newId]);
    case DoRefresh(tenant, token, newId, now, member) =>
      if RefreshVerdict(s, tenant, token, newId, now, member).Issued? {
        RotationKeepsChains(s.sessions, tenant, token, newId, now, s.ticks);
      } else {
        RevokingKeepsChains(s.sessions, Next(s, step).sessions);
      }
    case _ => RevokingKeepsChains(s.sessions, Next(s, step).sessions);
  }

  // ---- A password change reaches every workspace ----

  /** No delivery of the job of the user's latest change has committed, so the queue has not completed it. */
  ghost predicate Unswept(jobs: map<Id, Job>, changed: map<Id, PasswordChange>, user: Id) {
    && user in changed
    && var job := changed[user].job;
       job in jobs && jobs[job].user == user && !jobs[job].swept && jobs[job].phase != Completed
  }

  /** Unrevoked, in a family begun before its user's latest password change. */
  ghost predicate Outdated(sessions: map<Id, Session>, changed: map<Id, PasswordChange>, x: Id) {
    && x in sessions && !sessions[x].revoked
    && sessions[x].family in sessions && sessions[x].user in changed
    && sessions[sessions[x].family].createdAt < changed[sessions[x].user].at
  }

  ghost predicate PasswordsOk(sessions: map<Id, Session>, jobs: map<Id, Job>, changed: map<Id, PasswordChange>) {
    forall x :: Outdated(sessions, changed, x) ==> Unswept(jobs, changed, sessions[x].user)
  }

  ghost predicate ClockOk(changed: map<Id, PasswordChange>, ticks: nat) {
    forall u :: u in changed ==> changed[u].at < ticks
  }

  ghost predicate Rooted(sessions: map<Id, Session>, x: Session) {
    x.family in sessions && sessions[x.family].family == x.family
  }

  ghost predicate RootsOk(sessions: map<Id, Session>) {
    forall x :: x in sessions ==> Rooted(sessions, sessions[x])
  }

  lemma ChainsHaveRoots(sessions: map<Id, Session>)
    requires ChainsOk(sessions)
    ensures RootsOk(sessions)
  {
    forall x | x in sessions ensures Rooted(sessions, sessions[x]) {
      assert HasChain(sessions, sessions[x].family);
      var c :| IsChain(sessions, sessions[x].family, c);
    }
  }

  lemma RevokingKeepsPasswords(before: map<Id, Session>, after: map<Id, Session>, jobs: map<Id, Job>,
                               changed: map<Id, PasswordChange>)
    requires RootsOk(before) && PasswordsOk(before, jobs, changed) && OnlyRevokes(before, after)
    ensures PasswordsOk(after, jobs, changed)
  {
    forall x | Outdated(after, changed, x) ensures Unswept(jobs, changed, after[x].user) {
      assert Outdated(before, changed, x);
    }
  }

  lemma BeginningKeepsPasswords(s: Store, newId: Id, x: Session)
    requires RootsOk(s.sessions) && PasswordsOk(s.sessions, s.jobs, s.changed) && ClockOk(s.changed, s.ticks)
    requires newId !in s.sessions && x.family == newId && x.createdAt == s.ticks
    ensures PasswordsOk(s.sessions[newId := x], s.jobs, s.changed)
  {
    var after := s.sessions[newId := x];
    forall y | Outdated(after, s.changed, y) ensures Unswept(s.jobs, s.changed, after[y].user) {
      assert Outdated(s.sessions, s.changed, y);
    }
  }

  /** A refresh in any workspace passes the obligation on to the successor. */
  lemma RotationKeepsPasswords(s: Store, tenant: Id, token: Id, newId: Id, now: int)
    requires RootsOk(s.sessions) && PasswordsOk(s.sessions, s.jobs, s.changed)
    requires newId !in s.sessions && token in s.sessions && !s.sessions[token].revoked
    ensures PasswordsOk(Rotation(s.sessions, tenant, token, newId, now, s.ticks), s.jobs, s.changed)
  {
    var after := Rotation(s.sessions, tenant, token, newId, now, s.ticks);
    forall y | Outdated(after, s.changed, y) ensures Unswept(s.jobs, s.changed, after[y].user) {
      assert Outdated(s.sessions, s.changed, if y == newId then token else y);
    }
  }

  /** A change of password queues the job that covers every session its user already has. */
  lemma ChangingKeepsPasswords(before: map<Id, Session>, after: map<Id, Session>, jobs: map<Id, Job>,
                               changed: map<Id, PasswordChange>, user: Id, at: nat, job: Id)
    requires RootsOk(before) && PasswordsOk(before, jobs, changed) && OnlyRevokes(before, after)
    requires job !in jobs
    ensures PasswordsOk(after, jobs[job := Job(user, Queued, false)], changed[user := PasswordChange(at, job)])
  {
    var jobs', changed' := jobs[job := Job(user, Queued, false)], changed[user := PasswordChange(at, job)];
    forall x | Outdated(after, changed', x) ensures Unswept(jobs', changed', after[x].user) {
      if after[x].user != user {
        assert Outdated(before, changed, x);
      }
    }
  }

  lemma SweepingKeepsPasswords(s: Store, job: Id)
    requires RootsOk(s.sessions) && PasswordsOk(s.sessions, s.jobs, s.changed) && job in s.jobs
    ensures PasswordsOk(Sweep(s, job).sessions, Sweep(s, job).jobs, s.changed)
  {
    var t := Sweep(s, job);
    forall x | Outdated(t.sessions, s.changed, x) ensures Unswept(t.jobs, s.changed, t.sessions[x].user) {
      assert Outdated(s.sessions, s.changed, x) && s.sessions[x].user != s.jobs[job].user;
    }
  }

  lemma ClosingKeepsPasswords(s: Store, job: Id, phase: JobPhase)
    requires PasswordsOk(s.sessions, s.jobs, s.changed) && job in s.jobs
    requires phase == Completed ==> s.jobs[job].swept
    ensures PasswordsOk(s.sessions, CloseJob(s, job, phase).jobs, s.changed)
  {
    forall x | Outdated(s.sessions, s.changed, x)
      ensures Unswept(CloseJob(s, job, phase).jobs, s.changed, s.sessions[x].user)
    {
      assert Unswept(s.jobs, s.changed, s.sessions[x].user);
    }
  }

  ghost predicate PasswordsHold(s: Store) {
    PasswordsOk(s.sessions, s.jobs, s.changed)
  }

  lemma RefreshKeepsPasswords(s: Store, tenant: Id, token: Id, newId: Id, now: int, member: bool)
    requires RootsOk(s.sessions) && PasswordsHold(s) && newId !in s.sessions
    ensures PasswordsHold(Refresh(s, tenant, token, newId, now, member))
  {
    if RefreshVerdict(s, tenant, token, newId, now, member).Issued? {
      RotationKeepsPasswords(s, tenant, token, newId, now);
    } else {
      RevokingKeepsPasswords(s.sessions, Refresh(s, tenant, token, newId, now, member).sessions, s.jobs, s.changed);
    }
  }

  lemma ResetKeepsPasswords(s: Store, tenant: Id, token: Id, now: int, member: bool, job: Id)
    requires RootsOk(s.sessions) && PasswordsHold(s) && job !in s.jobs
    ensures PasswordsHold(ResetPassword(s, tenant, token, now, member, job))
  {
    if ResetAccepted(s, tenant, token, now, member) {
      var t := ResetPassword(s, tenant, token, now, member, job);
      ChangingKeepsPasswords(s.sessions, t.sessions, s.jobs, s.changed, s.tokens[token].user, s.ticks, job);
    }
  }

  lemma StepKeepsPasswords(s: Store, step: Step)
    requires RootsOk(s.sessions) && PasswordsHold(s) && ClockOk(s.changed, s.ticks)
    requires Permitted(s, step)
    ensures PasswordsHold(Next(s, step))
  {
    var t := Next(s, step);
    match step
    case DoBegin(tenant, user, newId, now) => BeginningKeepsPasswords(s, newId, t.sessions[newId]);
    case DoRefresh(tenant, token, newId, now, member) => RefreshKeepsPasswords(s, tenant, token, newId, now, member);
    case DoChange(tenant, user, keep, verified, job) =>
      if verified {
        ChangingKeepsPasswords(s.sessions, t.sessions, s.jobs, s.changed, user, s.ticks, job);
      }
    case DoReset(tenant, token, now, member, job) => ResetKeepsPasswords(s, tenant, token, now, member, job);
    case DoSweep(job) => SweepingKeepsPasswords(s, job);
    case DoComplete(job) => ClosingKeepsPasswords(s, job, Completed);
    case DoDiscard(job) => ClosingKeepsPasswords(s, job, Discarded);
    case _ => RevokingKeepsPasswords(s.sessions, t.sessions, s.jobs, s.changed);
  }

  // ---- The invariant over runs ----

  ghost predicate Inv(s: Store) {
    && ChainsOk(s.sessions)
    && PasswordsHold(s)
    && ClockOk(s.changed, s.ticks)
  }

  lemma StepKeepsInv(s: Store, step: Step)
    requires Inv(s) && Permitted(s, step)
    ensures Inv(Next(s, step))
  {
    ChainsHaveRoots(s.sessions);
    StepKeepsChains(s, step);
    StepKeepsPasswords(s, step);
  }

  lemma {:induction false} RunKeepsInv(s: Store, steps: seq<Step>)
    requires Inv(s) && AllPermitted(s, steps)
    ensures Inv(After(s, steps))
    decreases |steps|
  {
    if steps != [] {
      StepKeepsInv(s, steps[0]);
      RunKeepsInv(Next(s, steps[0]), steps[1..]);
    }
  }

  /**
   In any reachable state the sessions of a family form one chain from its login, and a session that may
   still be refreshed is the last of its chain.
   */
  lemma ReachedFamilyIsAChain(steps: seq<Step>, x: Id) returns (c: seq<Id>)
    requires AllPermitted(EMPTY, steps) && x in After(EMPTY, steps).sessions
    ensures var sessions := After(EMPTY, steps).sessions;
            && IsChain(sessions, sessions[x].family, c)
            && (!sessions[x].revoked ==> x == c[|c| - 1])
  {
    RunKeepsInv(EMPTY, steps);
    var sessions := After(EMPTY, steps).sessions;
    assert HasChain(sessions, sessions[x].family);
    c :| IsChain(sessions, sessions[x].family, c);
    var i :| 0 <= i < |c| && c[i] == x;
  }

  /**
   In any reachable state, a session that outlived its user's latest password change has not been reached by the
   job queued with that change, and that job is still to come if and only if the queue has not given it up.
   */
  lemma ReachedOutdatedSessionIsDoomed(steps: seq<Step>, x: Id)
    requires AllPermitted(EMPTY, steps)
    requires var s := After(EMPTY, steps); Outdated(s.sessions, s.changed, x)
    ensures var s := After(EMPTY, steps);
            var user := s.sessions[x].user;
            var job := s.changed[user].job;
            && job in s.jobs && s.jobs[job].user == user && !s.jobs[job].swept
            && (s.jobs[job].phase == Queued <==> s.jobs[job].phase != Discarded)
  {
    RunKeepsInv(EMPTY, steps);
  }

  /** When that job is delivered, the session is revoked with every other of its user. */
  lemma DeliveryEndsOutdatedSessions(steps: seq<Step>, x: Id)
    requires AllPermitted(EMPTY, steps)
    requires var s := After(EMPTY, steps); Outdated(s.sessions, s.changed, x)
    ensures var s := After(EMPTY, steps);
            var t := Sweep(s, s.changed[s.sessions[x].user].job);
            forall y :: y in t.sessions && t.sessions[y].user == s.sessions[x].user ==> t.sessions[y].revoked
  {
    ReachedOutdatedSessionIsDoomed(steps, x);
    var s := After(EMPTY, steps);
    var job := s.changed[s.sessions[x].user].job;
    forall y | y in s.sessions && s.sessions[y].user == s.sessions[x].user ensures Sweep(s, job).sessions[y].revoked {
      SweepEndsEverySession(s, job, y);
    }
  }

  lemma ThreeSteps(s: Store, first: Step, second: Step, third: Step)
    ensures After(s, [first, second, third]) == Next(Next(Next(s, first), second), third)
    ensures AllPermitted(s, [first, second, third]) <==>
            && Permitted(s, first) && Permitted(Next(s, first), second)
            && Permitted(Next(Next(s, first), second), third)
  {
    assert [first, second, third][1..] == [second, third];
    assert [second, third][1..] == [third] && [third][1..] == [];
    var t, u := Next(s, first), Next(Next(s, first), second);
    assert After(u, [third]) == After(Next(u, third), []) && (AllPermitted(u, [third]) <==> Permitted(u, third));
    assert After(t, [second, third]) == After(u, [third]);
    assert AllPermitted(t, [second, third]) <==> Permitted(t, second) && AllPermitted(u, [third]);
  }

  /**
   The queue may give the job up: a session of another workspace then outlives the change of password with
   nothing coming for it, and is exchanged like any other.
   */
  lemma AGivenUpSweepLeavesASession(tenant: Id, other: Id, user: Id, x: Id, job: Id, now: int, newId: Id)
    returns (steps: seq<Step>)
    requires tenant != other && newId != x
    ensures AllPermitted(EMPTY, steps)
    ensures var s := After(EMPTY, steps);
            && Outdated(s.sessions, s.changed, x) && (forall j :: j in s.jobs ==> s.jobs[j].phase != Queued)
            && RefreshVerdict(s, other, x, newId, now, true) == Issued(newId)
  {
    var first, second, third := DoBegin(other, user, x, now), DoChange(tenant, user, newId, true, job), DoDiscard(job);
    steps := [first, second, third];
    ThreeSteps(EMPTY, first, second, third);
    var a := Next(EMPTY, first);
    var b := Next(a, second);
    assert a.sessions == map[x := Session(other, user, x, now + REFRESH_TOKEN_TTL, false, None, 0)];
    assert b.sessions == a.sessions;
    assert b.jobs == map[job := Job(user, Queued, false)];
    assert Next(b, third).jobs == map[job := Job(user, Discarded, false)];
  }

  // ---- Nothing comes back ----

  /** Rows are never lost, revocation and rotation are never undone, and a spent token stays spent. */
  ghost predicate Forward(s: Store, t: Store) {
    && (forall x :: x in s.sessions ==>
          && x in t.sessions
          && t.sessions[x].family == s.sessions[x].family && t.sessions[x].tenant == s.sessions[x].tenant
          && t.sessions[x].user == s.sessions[x].user && t.sessions[x].expiresAt == s.sessions[x].expiresAt
          && (s.sessions[x].revoked ==> t.sessions[x].revoked)
          && (s.sessions[x].replacedBy.Some? ==> t.sessions[x].replacedBy == s.sessions[x].replacedBy))
    && (forall k :: k in s.tokens ==>
          && k in t.tokens && t.tokens[k].(consumed := true) == s.tokens[k].(consumed := true)
          && (s.tokens[k].consumed ==> t.tokens[k].consumed))
  }

  lemma RevokingMovesForward(s: Store, t: Store)
    requires OnlyRevokes(s.sessions, t.sessions) && t.tokens == s.tokens
    ensures Forward(s, t)
  {
  }

  lemma RefreshMovesForward(s: Store, tenant: Id, token: Id, newId: Id, now: int, member: bool)
    requires newId !in s.sessions
    ensures Forward(s, Refresh(s, tenant, token, newId, now, member))
  {
    var t := Refresh(s, tenant, token, newId, now, member);
    if !RefreshVerdict(s, tenant, token, newId, now, member).Issued? {
      RevokingMovesForward(s, t);
    }
  }

  lemma ResetMovesForward(s: Store, tenant: Id, token: Id, now: int, member: bool, job: Id)
    ensures Forward(s, ResetPassword(s, tenant, token, now, member, job))
  {
  }

  lemma StepMovesForward(s: Store, step: Step)
    requires Permitted(s, step)
    ensures Forward(s, Next(s, step))
  {
    if step.DoRefresh? {
      RefreshMovesForward(s, step.tenant, step.token, step.newId, step.now, step.member);
    } else if step.DoReset? {
      ResetMovesForward(s, step.tenant, step.token, step.now, step.member, step.job);
    } else if !step.DoBegin? && !step.DoRequest? {
      RevokingMovesForward(s, Next(s, step));
    }
  }

  lemma {:induction false} RunMovesForward(s: Store, steps: seq<Step>)
    requires AllPermitted(s, steps)
    ensures Forward(s, After(s, steps))
    decreases |steps|
  {
    if steps != [] {
      StepMovesForward(s, steps[0]);
      RunMovesForward(Next(s, steps[0]), steps[1..]);
    }
  }

  /** Once exchanged, a token is recognised as a replay whenever and however often it comes back. */
  lemma RotatedTokenIsAlwaysAReplay(s: Store, tenant: Id, token: Id, newId: Id, now: int, member: bool,
                                    steps: seq<Step>, newId': Id, now': int, member': bool)
    requires RefreshVerdict(s, tenant, token, newId, now, member).Issued? && newId !in s.sessions
    requires AllPermitted(Refresh(s, tenant, token, newId, now, member), steps)
    ensures var t := After(Refresh(s, tenant, token, newId, now, member), steps);
            RefreshVerdict(t, tenant, token, newId', now', member') == Reused
  {
    RunMovesForward(Refresh(s, tenant, token, newId, now, member), steps);
  }

  ghost predicate FamilyDead(sessions: map<Id, Session>, f: Id) {
    f in sessions && forall x :: x in sessions && sessions[x].family == f ==> sessions[x].revoked
  }

  lemma StepKeepsFamilyDead(s: Store, step: Step, f: Id)
    requires FamilyDead(s.sessions, f) && Permitted(s, step)
    ensures FamilyDead(Next(s, step).sessions, f)
  {
  }

  lemma {:induction false} RunKeepsFamilyDead(s: Store, steps: seq<Step>, f: Id)
    requires FamilyDead(s.sessions, f) && AllPermitted(s, steps)
    ensures FamilyDead(After(s, steps).sessions, f)
    decreases |steps|
  {
    if steps != [] {
      StepKeepsFamilyDead(s, steps[0], f);
      RunKeepsFamilyDead(Next(s, steps[0]), steps[1..], f);
    }
  }

  /** After a rotated token is presented, no session of its family is unrevoked in any later state. */
  lemma ReuseEndsTheFamilyForGood(before: seq<Step>, tenant: Id, token: Id, newId: Id, now: int, member: bool,
                                  later: seq<Step>)
    requires AllPermitted(EMPTY, before)
    requires var s := After(EMPTY, before);
             && RefreshVerdict(s, tenant, token, newId, now, member) == Reused
             && AllPermitted(Refresh(s, tenant, token, newId, now, member), later)
    ensures var s := After(EMPTY, before);
            var t := After(Refresh(s, tenant, token, newId, now, member), later);
            FamilyDead(t.sessions, s.sessions[token].family)
  {
    RunKeepsInv(EMPTY, before);
    var s := After(EMPTY, before);
    var f := s.sessions[token].family;
    assert HasChain(s.sessions, f);
    var c :| IsChain(s.sessions, f, c);
    var t := Refresh(s, tenant, token, newId, now, member);
    forall x | x in t.sessions && t.sessions[x].family == f ensures t.sessions[x].revoked {
      assert x in c && token in c;
    }
    RunKeepsFamilyDead(t, later, f);
  }

  // ---- Who is signed out by a replay ----

  lemma FamilySharesAWorkspace(sessions: map<Id, Session>, x: Id, y: Id)
    requires ChainsOk(sessions) && x in sessions && y in sessions && sessions[x].family == sessions[y].family
    ensures sessions[x].tenant == sessions[y].tenant && sessions[x].user == sessions[y].user
  {
    var f := sessions[x].family;
    assert HasChain(sessions, f);
    var c :| IsChain(sessions, f, c);
    assert x in c && y in c;
  }

  /** A replayed token ends its family and nothing else, and that family is one user's in one workspace. */
  lemma AReplayStaysAtHome(before: seq<Step>, tenant: Id, token: Id, newId: Id, now: int, member: bool, x: Id)
    requires AllPermitted(EMPTY, before)
    requires var s := After(EMPTY, before);
             x in s.sessions && RefreshVerdict(s, tenant, token, newId, now, member) == Reused
    ensures var s := After(EMPTY, before);
            var t := Refresh(s, tenant, token, newId, now, member);
            && token in s.sessions && x in t.sessions
            && (t.sessions[x].revoked != s.sessions[x].revoked ==>
                  && s.sessions[x].family == s.sessions[token].family
                  && s.sessions[x].tenant == s.sessions[token].tenant == tenant
                  && s.sessions[x].user == s.sessions[token].user)
            && (s.sessions[x].family == s.sessions[token].family ==> t.sessions[x].revoked)
  {
    RunKeepsInv(EMPTY, before);
    var s := After(EMPTY, before);
    if s.sessions[x].family == s.sessions[token].family {
      FamilySharesAWorkspace(s.sessions, x, token);
    }
  }

  // ---- Sweeps and single-use links ----

  /** A sweep leaves its user signed in nowhere, the session that asked for the change included. */
  lemma SweepEndsEverySession(s: Store, job: Id, x: Id)
    requires job in s.jobs && x in s.sessions && s.sessions[x].user == s.jobs[job].user
    ensures Sweep(s, job).sessions[x].revoked
  {
  }

  /** The user's rows that `before` held are revoked, and no other family of theirs in it has been continued. */
  ghost predicate OnlyNewLogins(before: map<Id, Session>, sessions: map<Id, Session>, user: Id) {
    && before.Keys <= sessions.Keys
    && forall x :: x in sessions && sessions[x].user == user && !sessions[x].revoked ==>
         x !in before && sessions[x].family !in before
  }

  lemma RotationKeepsNewLogins(before: map<Id, Session>, s: Store, user: Id, tenant: Id, token: Id, newId: Id, now: int)
    requires OnlyNewLogins(before, s.sessions, user) && newId !in s.sessions
    requires token in s.sessions && !s.sessions[token].revoked
    ensures OnlyNewLogins(before, Rotation(s.sessions, tenant, token, newId, now, s.ticks), user)
  {
    var after := Rotation(s.sessions, tenant, token, newId, now, s.ticks);
    assert newId !in before;
    forall x | x in after && after[x].user == user && !after[x].revoked
      ensures x !in before && after[x].family !in before
    {
      assert x != token;
    }
  }

  lemma StepKeepsNewLogins(before: map<Id, Session>, s: Store, step: Step, user: Id)
    requires OnlyNewLogins(before, s.sessions, user) && Permitted(s, step)
    ensures OnlyNewLogins(before, Next(s, step).sessions, user)
  {
    match step
    case DoRefresh(tenant, token, newId, now, member) =>
      if RefreshVerdict(s, tenant, token, newId, now, member).Issued? {
        RotationKeepsNewLogins(before, s, user, tenant, token, newId, now);
      }
    case _ =>
  }

  /** A job whose sweep has committed stays as it is but for its phase. */
  ghost predicate SweptFor(jobs: map<Id, Job>, job: Id, user: Id) {
    job in jobs && jobs[job].user == user && jobs[job].swept
  }

  lemma StepKeepsSwept(s: Store, step: Step, job: Id, user: Id)
    requires SweptFor(s.jobs, job, user) && Permitted(s, step)
    ensures SweptFor(Next(s, step).jobs, job, user)
  {
  }

  lemma {:induction false} RunKeepsNewLogins(before: map<Id, Session>, s: Store, steps: seq<Step>, job: Id, user: Id)
    requires OnlyNewLogins(before, s.sessions, user) && SweptFor(s.jobs, job, user) && AllPermitted(s, steps)
    ensures OnlyNewLogins(before, After(s, steps).sessions, user) && SweptFor(After(s, steps).jobs, job, user)
    decreases |steps|
  {
    if steps != [] {
      StepKeepsNewLogins(before, s, steps[0], user);
      StepKeepsSwept(s, steps[0], job, user);
      RunKeepsNewLogins(before, Next(s, steps[0]), steps[1..], job, user);
    }
  }

  /** Whatever happened since the first delivery, another one revokes only sessions of logins begun since. */
  lemma RedeliveryRevokesOnlyNewLogins(s: Store, job: Id, steps: seq<Step>, x: Id)
    requires job in s.jobs && AllPermitted(Sweep(s, job), steps)
    requires var u := After(Sweep(s, job), steps);
             x in u.sessions && !u.sessions[x].revoked && Sweep(u, job).sessions[x].revoked
    ensures var u := After(Sweep(s, job), steps);
            u.sessions[x].user == s.jobs[job].user && x !in s.sessions && u.sessions[x].family !in s.sessions
  {
    RunKeepsNewLogins(s.sessions, Sweep(s, job), steps, job, s.jobs[job].user);
  }

  /** The sessions of this user in `sessions` that belong to logins begun since `before`, and are still good. */
  ghost function BegunSince(before: map<Id, Session>, sessions: map<Id, Session>, user: Id): set<Id> {
    set x | x in sessions && sessions[x].user == user && sessions[x].family !in before && !sessions[x].revoked
  }

  lemma NothingToRevoke(sessions: map<Id, Session>, user: Id)
    requires Unrevoked(sessions, user) == {}
    ensures RevokeWhere(sessions, Everywhere(sessions, user)) == sessions
  {
    forall x | x in sessions && sessions[x].user == user ensures sessions[x].revoked {
      assert x !in Unrevoked(sessions, user);
    }
  }

  /**
   Over any run between them, a second delivery changes nothing but the clock if and only if no session of a login
   its user has made since the first is still unrevoked; and it ends exactly those.
   */
  lemma RedeliveryRevokesNothingIff(s: Store, job: Id, steps: seq<Step>)
    requires job in s.jobs && AllPermitted(Sweep(s, job), steps)
    ensures var u, user := After(Sweep(s, job), steps), s.jobs[job].user;
            && job in u.jobs && u.jobs[job].user == user
            && Unrevoked(u.sessions, user) == BegunSince(s.sessions, u.sessions, user)
            && (Sweep(u, job) == u.(ticks := u.ticks + 1) <==> BegunSince(s.sessions, u.sessions, user) == {})
  {
    var u, user := After(Sweep(s, job), steps), s.jobs[job].user;
    RunKeepsNewLogins(s.sessions, Sweep(s, job), steps, job, user);
    var t := Sweep(u, job);
    assert t.jobs == u.jobs;
    assert Unrevoked(u.sessions, user) == BegunSince(s.sessions, u.sessions, user);
    if BegunSince(s.sessions, u.sessions, user) == {} {
      NothingToRevoke(u.sessions, user);
    } else {
      var x :| x in BegunSince(s.sessions, u.sessions, user);
      assert t.sessions[x].revoked;
    }
  }

  lemma FourSteps(s: Store, first: Step, second: Step, third: Step, fourth: Step)
    ensures After(s, [first, second, third, fourth]) == Next(Next(Next(Next(s, first), second), third), fourth)
    ensures AllPermitted(s, [first, second, third, fourth]) <==>
            && Permitted(s, first) && Permitted(Next(s, first), second)
            && Permitted(Next(Next(s, first), second), third)
            && Permitted(Next(Next(Next(s, first), second), third), fourth)
  {
    assert [first, second, third, fourth][1..] == [second, third, fourth];
    ThreeSteps(Next(s, first), second, third, fourth);
  }

  /** A login made with the new password, between two deliveries of the change's own job, is ended by the second. */
  lemma ARedeliveryEndsANewLogin(tenant: Id, user: Id, x: Id, y: Id, job: Id, now: int) returns (steps: seq<Step>)
    requires x != y
    ensures AllPermitted(EMPTY, steps) && Permitted(After(EMPTY, steps), DoSweep(job))
    ensures var s := After(EMPTY, steps);
            && y in s.sessions && s.sessions[y].user == user && !s.sessions[y].revoked
            && user in s.changed && s.changed[user].job == job && s.changed[user].at < s.sessions[y].createdAt
            && SweptFor(s.jobs, job, user) && Sweep(s, job).sessions[y].revoked
  {
    var first, second := DoBegin(tenant, user, x, now), DoChange(tenant, user, x, true, job);
    var third, fourth := DoSweep(job), DoBegin(tenant, user, y, now);
    steps := [first, second, third, fourth];
    FourSteps(EMPTY, first, second, third, fourth);
    var a := Next(EMPTY, first);
    var b := Next(a, second);
    var c := Next(b, third);
    assert a.sessions.Keys == {x} && b.sessions.Keys == {x} && c.sessions.Keys == {x};
    assert b.jobs == map[job := Job(user, Queued, false)] && c.jobs == map[job := Job(user, Queued, true)];
  }

  /** A reset link changes a password once, whatever happens afterwards. */
  lemma ResetLinkWorksOnce(s: Store, tenant: Id, token: Id, now: int, member: bool, job: Id,
                           steps: seq<Step>, tenant': Id, now': int, member': bool)
    requires ResetAccepted(s, tenant, token, now, member) && job !in s.jobs
    requires AllPermitted(ResetPassword(s, tenant, token, now, member, job), steps)
    ensures var t := After(ResetPassword(s, tenant, token, now, member, job), steps);
            !ResetAccepted(t, tenant', token, now', member')
  {
    RunMovesForward(ResetPassword(s, tenant, token, now, member, job), steps);
  }

  /** Asking for a link puts every earlier one out of use for good. */
  lemma OnlyTheNewestLinkWorks(s: Store, tenant: Id, user: Id, newToken: Id, now: int, earlier: Id,
                               steps: seq<Step>, tenant': Id, now': int, member': bool)
    requires newToken !in s.tokens
    requires earlier in s.tokens && s.tokens[earlier].tenant == tenant && s.tokens[earlier].user == user
    requires AllPermitted(RequestReset(s, tenant, Some(user), true, newToken, now), steps)
    ensures var t := After(RequestReset(s, tenant, Some(user), true, newToken, now), steps);
            !ResetAccepted(t, tenant', earlier, now', member')
  {
    RunMovesForward(RequestReset(s, tenant, Some(user), true, newToken, now), steps);
  }
}
