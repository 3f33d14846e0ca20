/** Whom each operation signs out, for good, and how long a session or a reset link that nobody ends is good for. */
module SignOut {
  import opened Prelude
  import opened Quiz
  import opened Sessions
  import opened SessionSafety

  const DAY := 86400
  const HOUR := 3600

  // ---- Signed out is signed out ----

  /** A revoked session's token is never exchanged again, whoever presents it and whatever happens meanwhile. */
  lemma SignedOutForGood(s: Store, steps: seq<Step>, x: Id, tenant: Id, newId: Id, now: int, member: bool)
    requires x in s.sessions && s.sessions[x].revoked && AllPermitted(s, steps)
    ensures !RefreshVerdict(After(s, steps), tenant, x, newId, now, member).Issued?
  {
    RunMovesForward(s, steps);
  }

  /** Exactly these rows are revoked, and no row differs in anything else. */
  ghost predicate EndsExactly(before: map<Id, Session>, after: map<Id, Session>, ended: set<Id>) {
    && after.Keys == before.Keys && ended <= before.Keys
    && forall x :: x in before ==> after[x] == if x in ended then before[x].(revoked := true) else before[x]
  }

  /** None of these sessions is exchanged in any state a permitted run from here reaches. */
  ghost predicate NeverExchanged(s: Store, ended: set<Id>) {
    forall steps, x, tenant, newId, now, member :: AllPermitted(s, steps) && x in ended ==>
      !RefreshVerdict(After(s, steps), tenant, x, newId, now, member).Issued?
  }

  lemma EndedAreNeverExchanged(s: Store, t: Store, ended: set<Id>)
    requires EndsExactly(s.sessions, t.sessions, ended)
    ensures NeverExchanged(t, ended)
  {
    forall steps, x, tenant, newId, now, member | AllPermitted(t, steps) && x in ended
      ensures !RefreshVerdict(After(t, steps), tenant, x, newId, now, member).Issued?
    {
      SignedOutForGood(t, steps, x, tenant, newId, now, member);
    }
  }

  /** The sessions of a user in a workspace, but for one. */
  ghost function SessionsHere(sessions: map<Id, Session>, tenant: Id, user: Id, but: Option<Id>): set<Id> {
    set x | x in sessions && sessions[x].tenant == tenant && sessions[x].user == user && but != Some(x)
  }

  /**
   A reset signs its user out of this workspace at once and for good, and touches no session elsewhere or of anybody
   else; it spends its link, and queues the job for the other workspaces. Refused, it does nothing.
   */
  lemma AResetSignsOutHere(s: Store, tenant: Id, token: Id, now: int, member: bool, job: Id)
    ensures var t := ResetPassword(s, tenant, token, now, member, job);
            if ResetAccepted(s, tenant, token, now, member)
            then
              var user := s.tokens[token].user;
              && EndsExactly(s.sessions, t.sessions, SessionsHere(s.sessions, tenant, user, None))
              && NeverExchanged(t, SessionsHere(s.sessions, tenant, user, None))
              && t.tokens == s.tokens[token := s.tokens[token].(consumed := true)]
              && t.jobs == s.jobs[job := Job(user, Queued, false)]
            else t == s.(ticks := s.ticks + 1)
  {
    if ResetAccepted(s, tenant, token, now, member) {
      var t := ResetPassword(s, tenant, token, now, member, job);
      EndedAreNeverExchanged(s, t, SessionsHere(s.sessions, tenant, s.tokens[token].user, None));
    }
  }

  /** A change of password does the same but for the session it is made from, and leaves links alone. */
  lemma AChangeSignsOutTheOthersHere(s: Store, tenant: Id, user: Id, keep: Id, verified: bool, job: Id)
    ensures var t := ChangePassword(s, tenant, user, keep, verified, job);
            if verified
            then
              && EndsExactly(s.sessions, t.sessions, SessionsHere(s.sessions, tenant, user, Some(keep)))
              && NeverExchanged(t, SessionsHere(s.sessions, tenant, user, Some(keep)))
              && t.tokens == s.tokens && t.jobs == s.jobs[job := Job(user, Queued, false)]
            else t == s.(ticks := s.ticks + 1)
  {
    if verified {
      var t := ChangePassword(s, tenant, user, keep, verified, job);
      EndedAreNeverExchanged(s, t, SessionsHere(s.sessions, tenant, user, Some(keep)));
    }
  }

  /** Logging out ends that session, if it is of this workspace, and no other. */
  lemma ALogoutEndsOneSession(s: Store, tenant: Id, id: Id)
    ensures var t := Logout(s, tenant, id);
            var ended := if id in s.sessions && s.sessions[id].tenant == tenant then {id} else {};
            && EndsExactly(s.sessions, t.sessions, ended) && NeverExchanged(t, ended)
            && t.tokens == s.tokens && t.jobs == s.jobs
  {
    var ended := if id in s.sessions && s.sessions[id].tenant == tenant then {id} else {};
    EndedAreNeverExchanged(s, Logout(s, tenant, id), ended);
  }

  /** A member removed, or given another role, is signed out of this workspace and of no other. */
  lemma AnExpulsionSignsOutHere(s: Store, tenant: Id, user: Id)
    ensures var t := Expel(s, tenant, user);
            && EndsExactly(s.sessions, t.sessions, SessionsHere(s.sessions, tenant, user, None))
            && NeverExchanged(t, SessionsHere(s.sessions, tenant, user, None))
            && t.tokens == s.tokens && t.jobs == s.jobs
  {
    EndedAreNeverExchanged(s, Expel(s, tenant, user), SessionsHere(s.sessions, tenant, user, None));
  }

  // ---- What a login and a refresh give ----

  ghost predicate RotatedAreRevoked(sessions: map<Id, Session>) {
    forall x :: x in sessions && sessions[x].replacedBy.Some? ==> sessions[x].revoked
  }

  lemma StepKeepsRotatedRevoked(s: Store, step: Step)
    requires RotatedAreRevoked(s.sessions) && Permitted(s, step)
    ensures RotatedAreRevoked(Next(s, step).sessions)
  {
  }

  lemma {:induction false} RunKeepsRotatedRevoked(s: Store, steps: seq<Step>)
    requires RotatedAreRevoked(s.sessions) && AllPermitted(s, steps)
    ensures RotatedAreRevoked(After(s, steps).sessions)
    decreases |steps|
  {
    if steps != [] {
      StepKeepsRotatedRevoked(s, steps[0]);
      RunKeepsRotatedRevoked(Next(s, steps[0]), steps[1..]);
    }
  }

  /**
   A row that begins at `from` can be exchanged, in its own workspace, exactly while it is unrevoked, thirty days have
   not passed and its user is an active member.
   */
  lemma GoodForThirtyDays(s: Store, steps: seq<Step>, x: Id, from: int, newId: Id, now: int, member: bool)
    requires RotatedAreRevoked(s.sessions) && AllPermitted(s, steps)
    requires x in s.sessions && s.sessions[x].expiresAt == from + 30 * DAY
    ensures var u := After(s, steps);
            && x in u.sessions
            && (RefreshVerdict(u, s.sessions[x].tenant, x, newId, now, member) == Issued(newId) <==>
                  !u.sessions[x].revoked && now < from + 30 * DAY && member)
            && forall tenant :: tenant != s.sessions[x].tenant ==>
                 RefreshVerdict(u, tenant, x, newId, now, member) == Invalid
  {
    RunMovesForward(s, steps);
    RunKeepsRotatedRevoked(s, steps);
  }

  /** A login adds one session, of that user in that workspace, good for thirty days, and changes no other. */
  lemma ALoginIsGoodForThirtyDays(s: Store, tenant: Id, user: Id, newId: Id, from: int)
    requires newId !in s.sessions
    ensures var t := Begin(s, tenant, user, newId, from);
            && t.sessions.Keys == s.sessions.Keys + {newId}
            && (forall x :: x in s.sessions ==> t.sessions[x] == s.sessions[x])
            && (t.sessions[newId].tenant, t.sessions[newId].user) == (tenant, user)
            && !t.sessions[newId].revoked && t.sessions[newId].expiresAt == from + 30 * DAY
  {
  }

  /**
   An exchange succeeds exactly for an unrevoked token of this workspace, never exchanged, not expired, of an active
   member. It gives a session of the same user, workspace and family, good for thirty days from then, and ends the
   one it was given; no other row changes. Refused as invalid, it changes nothing.
   */
  lemma AnExchangeSwapsOneForOne(s: Store, tenant: Id, token: Id, newId: Id, now: int, member: bool)
    requires newId !in s.sessions
    ensures var t, verdict := Refresh(s, tenant, token, newId, now, member),
                              RefreshVerdict(s, tenant, token, newId, now, member);
            && (verdict == Issued(newId) <==>
                  && token in s.sessions && s.sessions[token].tenant == tenant && s.sessions[token].replacedBy.None?
                  && !s.sessions[token].revoked && now < s.sessions[token].expiresAt && member)
            && (verdict == Issued(newId) ==>
                  var spent, successor := s.sessions[token], t.sessions[newId];
                  && t.sessions.Keys == s.sessions.Keys + {newId}
                  && (successor.tenant, successor.user, successor.family) == (tenant, spent.user, spent.family)
                  && !successor.revoked && successor.replacedBy.None? && successor.expiresAt == now + 30 * DAY
                  && t.sessions[token] == spent.(revoked := true, replacedBy := Some(newId))
                  && forall x :: x in s.sessions && x != token ==> t.sessions[x] == s.sessions[x])
            && (verdict == Invalid ==> t == s.(ticks := s.ticks + 1))
            && t.tokens == s.tokens && t.jobs == s.jobs && t.changed == s.changed
  {
  }

  // ---- What a reset link is good for ----

  /** Asking mails a link that works, in this workspace, for an hour, until it is spent, while its user is a member. */
  lemma ALinkIsGoodForAnHour(s: Store, tenant: Id, user: Id, newToken: Id, from: int, steps: seq<Step>,
                             now: int, member: bool)
    requires newToken !in s.tokens
    requires AllPermitted(RequestReset(s, tenant, Some(user), true, newToken, from), steps)
    ensures var u := After(RequestReset(s, tenant, Some(user), true, newToken, from), steps);
            && newToken in u.tokens && u.tokens[newToken].user == user
            && (ResetAccepted(u, tenant, newToken, now, member) <==>
                  !u.tokens[newToken].consumed && now < from + HOUR && member)
            && forall other :: other != tenant ==> !ResetAccepted(u, other, newToken, now, member)
  {
    RunMovesForward(RequestReset(s, tenant, Some(user), true, newToken, from), steps);
  }

  /** Asking spends the user's earlier links here and nobody else's; a stranger's asking changes nothing. */
  lemma AskingTouchesTheirOwnLinks(s: Store, tenant: Id, found: Option<Id>, active: bool, newToken: Id, from: int)
    requires newToken !in s.tokens
    ensures var t := RequestReset(s, tenant, found, active, newToken, from);
            && t.sessions == s.sessions && t.jobs == s.jobs
            && (if found.Some? && active
                then
                  && t.tokens.Keys == s.tokens.Keys + {newToken} && !t.tokens[newToken].consumed
                  && forall k :: k in s.tokens ==>
                       t.tokens[k] == if s.tokens[k].tenant == tenant && s.tokens[k].user == found.value
                                      then s.tokens[k].(consumed := true) else s.tokens[k]
                else t.tokens == s.tokens)
  {
  }
}
