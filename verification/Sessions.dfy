/**
 Refresh-token families, password changes and the job that ends sessions in other workspaces. A session is
 identified with the digest of its token. Each operation is one serialised transaction.
 */
module Sessions {
  import opened Prelude
  import opened Quiz

  const REFRESH_TOKEN_TTL := 2592000
  const PASSWORD_RESET_TTL := 3600

  /** `createdAt` counts transactions, so that "before" and "after" are exact. */
  datatype Session = Session(
    tenant: Id,
    user: Id,
    family: Id,
    expiresAt: int,
    revoked: bool,
    replacedBy: Option<Id>,
    createdAt: nat)

  datatype Token = Token(tenant: Id, user: Id, expiresAt: int, consumed: bool)

  /** A cross-tenant revocation in the job table; `swept` remembers whether a delivery of it has committed. */
  datatype Job = Job(user: Id, phase: JobPhase, swept: bool)

  /** A user's latest change of password, and the job queued with it. */
  datatype PasswordChange = PasswordChange(at: nat, job: Id)

  datatype Store = Store(
    sessions: map<Id, Session>,
    tokens: map<Id, Token>,
    jobs: map<Id, Job>,
    changed: map<Id, PasswordChange>,
    ticks: nat)

  datatype Refreshed = Issued(session: Id) | Reused | Invalid

  // ---- Which rows an UPDATE touches ----

  function RevokeWhere(sessions: map<Id, Session>, which: set<Id>): map<Id, Session> {
    map x | x in sessions :: if x in which then sessions[x].(revoked := true) else sessions[x]
  }

  function InFamily(sessions: map<Id, Session>, tenant: Id, family: Id): set<Id> {
    set x | x in sessions && sessions[x].tenant == tenant && sessions[x].family == family
  }

  function InWorkspace(sessions: map<Id, Session>, tenant: Id, user: Id): set<Id> {
    set x | x in sessions && sessions[x].tenant == tenant && sessions[x].user == user
  }

  function Everywhere(sessions: map<Id, Session>, user: Id): set<Id> {
    set x | x in sessions && sessions[x].user == user
  }

  function Superseded(tokens: map<Id, Token>, tenant: Id, user: Id): map<Id, Token> {
    map t | t in tokens ::
      if tokens[t].tenant == tenant && tokens[t].user == user then tokens[t].(consumed := true) else tokens[t]
  }

  predicate Rotated(x: Session) { x.replacedBy.Some? }

  predicate Live(x: Session, now: int) { !x.revoked && now < x.expiresAt }

  // ---- The steps ----

  function Begin(s: Store, tenant: Id, user: Id, newId: Id, now: int): Store {
    s.(sessions := s.sessions[newId := Session(tenant, user, newId, now + REFRESH_TOKEN_TTL, false, None, s.ticks)],
       ticks := s.ticks + 1)
  }

  /** `member` says whether the user still has an active membership in this workspace. */
  function RefreshVerdict(s: Store, tenant: Id, token: Id, newId: Id, now: int, member: bool): Refreshed {
    if token !in s.sessions || s.sessions[token].tenant != tenant then Invalid
    else if Rotated(s.sessions[token]) then Reused
    else if !Live(s.sessions[token], now) || !member then Invalid
    else Issued(newId)
  }

  function Rotation(sessions: map<Id, Session>, tenant: Id, token: Id, newId: Id, now: int, ticks: nat)
    : map<Id, Session>
    requires token in sessions
  {
    var spent := sessions[token];
    sessions[newId := Session(tenant, spent.user, spent.family, now + REFRESH_TOKEN_TTL, false, None, ticks)]
            [token := spent.(revoked := true, replacedBy := Some(newId))]
  }

  function Refresh(s: Store, tenant: Id, token: Id, newId: Id, now: int, member: bool): Store {
    match RefreshVerdict(s, tenant, token, newId, now, member)
    case Invalid => s.(ticks := s.ticks + 1)
    case Reused =>
      s.(sessions := RevokeWhere(s.sessions, InFamily(s.sessions, tenant, s.sessions[token].family)),
         ticks := s.ticks + 1)
    case Issued(_) => s.(sessions := Rotation(s.sessions, tenant, token, newId, now, s.ticks), ticks := s.ticks + 1)
  }

  function Logout(s: Store, tenant: Id, id: Id): Store {
    var which := if id in s.sessions && s.sessions[id].tenant == tenant then {id} else {};
    s.(sessions := RevokeWhere(s.sessions, which), ticks := s.ticks + 1)
  }

  /** Removed from a workspace, or given another role in it. */
  function Expel(s: Store, tenant: Id, user: Id): Store {
    s.(sessions := RevokeWhere(s.sessions, InWorkspace(s.sessions, tenant, user)), ticks := s.ticks + 1)
  }

  /** Committed only when the current password was verified. */
  function ChangePassword(s: Store, tenant: Id, user: Id, keep: Id, verified: bool, job: Id): Store {
    if !verified then s.(ticks := s.ticks + 1)
    else
      s.(sessions := RevokeWhere(s.sessions, InWorkspace(s.sessions, tenant, user) - {keep}),
         jobs := s.jobs[job := Job(user, Queued, false)],
         changed := s.changed[user := PasswordChange(s.ticks, job)],
         ticks := s.ticks + 1)
  }

  /** `found` is the account of the address, if there is one, and `active` whether it is an active member here. */
  predicate ResetIsMailed(found: Option<Id>, active: bool) {
    found.Some? && active
  }

  /** Nobody is told whether the address is a member's, and nothing is written unless it is. */
  function RequestReset(s: Store, tenant: Id, found: Option<Id>, active: bool, newToken: Id, now: int): Store {
    if !ResetIsMailed(found, active) then s.(ticks := s.ticks + 1)
    else
      s.(tokens := Superseded(s.tokens, tenant, found.value)
                   [newToken := Token(tenant, found.value, now + PASSWORD_RESET_TTL, false)],
         ticks := s.ticks + 1)
  }

  predicate ResetAccepted(s: Store, tenant: Id, token: Id, now: int, member: bool) {
    && token in s.tokens && s.tokens[token].tenant == tenant
    && !s.tokens[token].consumed && now < s.tokens[token].expiresAt
    && member
  }

  function ResetPassword(s: Store, tenant: Id, token: Id, now: int, member: bool, job: Id): Store {
    if !ResetAccepted(s, tenant, token, now, member) then s.(ticks := s.ticks + 1)
    else
      var user := s.tokens[token].user;
      s.(sessions := RevokeWhere(s.sessions, InWorkspace(s.sessions, tenant, user)),
         tokens := s.tokens[token := s.tokens[token].(consumed := true)],
         jobs := s.jobs[job := Job(user, Queued, false)],
         changed := s.changed[user := PasswordChange(s.ticks, job)],
         ticks := s.ticks + 1)
  }

  /** One delivery of a revocation job, which may come again. */
  function Sweep(s: Store, job: Id): Store {
    if job !in s.jobs then s.(ticks := s.ticks + 1)
    else
      var user := s.jobs[job].user;
      s.(sessions := RevokeWhere(s.sessions, Everywhere(s.sessions, user)),
         jobs := s.jobs[job := s.jobs[job].(swept := true)],
         ticks := s.ticks + 1)
  }

  /** The queue closing a job: its work is done, or it has failed too often. */
  function CloseJob(s: Store, job: Id, phase: JobPhase): Store {
    s.(jobs := if job in s.jobs then s.jobs[job := s.jobs[job].(phase := phase)] else s.jobs, ticks := s.ticks + 1)
  }

  // ---- The same operations, statement by statement ----

  class SessionStore {
    var sessions: map<Id, Session>
    var tokens: map<Id, Token>
    var jobs: map<Id, Job>
    var changed: map<Id, PasswordChange>
    var ticks: nat

    ghost function Now(): Store
      reads this
    {
      Store(sessions, tokens, jobs, changed, ticks)
    }

    constructor ()
      ensures Now() == Store(map[], map[], map[], map[], 0)
    {
      sessions, tokens, jobs, changed, ticks := map[], map[], map[], map[], 0;
    }

    method CreateSession(id: Id, tenant: Id, user: Id, family: Id, expiresAt: int)
      modifies this`sessions
      ensures sessions == old(sessions)[id := Session(tenant, user, family, expiresAt, false, None, ticks)]
    {
      sessions := sessions[id := Session(tenant, user, family, expiresAt, false, None, ticks)];
    }

    /** The UPDATE touches only rows not yet revoked; the rest are revoked already. */
    method Revoke(which: set<Id>)
      modifies this`sessions
      ensures sessions == RevokeWhere(old(sessions), which)
    {
      sessions := map x | x in sessions ::
        if x in which && !sessions[x].revoked then sessions[x].(revoked := true) else sessions[x];
    }

    /** Login, registration and accepting an invitation all start here. */
    method StartSession(tenant: Id, user: Id, newId: Id, now: int)
      modifies this
      ensures Now() == Begin(old(Now()), tenant, user, newId, now)
    {
      CreateSession(newId, tenant, user, newId, now + REFRESH_TOKEN_TTL);
      ticks := ticks + 1;
    }

    method RotateSession(tenant: Id, oldId: Id, newId: Id)
      modifies this`sessions
      ensures oldId in old(sessions) && old(sessions)[oldId].tenant == tenant && !old(sessions)[oldId].revoked ==>
        sessions == old(sessions)[oldId := old(sessions)[oldId].(revoked := true, replacedBy := Some(newId))]
      ensures !(oldId in old(sessions) && old(sessions)[oldId].tenant == tenant && !old(sessions)[oldId].revoked) ==>
        sessions == old(sessions)
    {
      if oldId in sessions && sessions[oldId].tenant == tenant && !sessions[oldId].revoked {
        sessions := sessions[oldId := sessions[oldId].(revoked := true, replacedBy := Some(newId))];
      }
    }

    /** Reuse is carried out of the transaction rather than returned from it, so the revocation commits. */
    method RefreshToken(tenant: Id, token: Id, newId: Id, now: int, member: bool) returns (r: Refreshed)
      requires newId !in sessions
      modifies this
      ensures r == RefreshVerdict(old(Now()), tenant, token, newId, now, member)
      ensures Now() == Refresh(old(Now()), tenant, token, newId, now, member)
    {
      r := Invalid;
      if token in sessions && sessions[token].tenant == tenant {
        var session := sessions[token];
        if Rotated(session) {
          Revoke(InFamily(sessions, tenant, session.family));
          r := Reused;
        } else if Live(session, now) && member {
          CreateSession(newId, tenant, session.user, session.family, now + REFRESH_TOKEN_TTL);
          RotateSession(tenant, token, newId);
          r := Issued(newId);
        }
      }
      ticks := ticks + 1;
    }

    method EndSession(tenant: Id, id: Id)
      modifies this
      ensures Now() == Logout(old(Now()), tenant, id)
    {
      if id in sessions && sessions[id].tenant == tenant {
        Revoke({id});
      } else {
        assert RevokeWhere(sessions, {}) == sessions;
      }
      ticks := ticks + 1;
    }

    method RevokeAllUserSessions(tenant: Id, user: Id)
      modifies this
      ensures Now() == Expel(old(Now()), tenant, user)
    {
      Revoke(InWorkspace(sessions, tenant, user));
      ticks := ticks + 1;
    }

    method Change(tenant: Id, user: Id, keep: Id, verified: bool, job: Id) returns (accepted: bool)
      modifies this
      ensures accepted == verified
      ensures Now() == ChangePassword(old(Now()), tenant, user, keep, verified, job)
    {
      accepted := verified;
      if verified {
        changed := changed[user := PasswordChange(ticks, job)];
        Revoke(InWorkspace(sessions, tenant, user) - {keep});
        jobs := jobs[job := Job(user, Queued, false)];
      }
      ticks := ticks + 1;
    }

    method Request(tenant: Id, found: Option<Id>, active: bool, newToken: Id, now: int) returns (mailed: bool)
      modifies this
      ensures mailed == ResetIsMailed(found, active)
      ensures Now() == RequestReset(old(Now()), tenant, found, active, newToken, now)
    {
      mailed := false;
      if found.Some? && active {
        tokens := Superseded(tokens, tenant, found.value);
        tokens := tokens[newToken := Token(tenant, found.value, now + PASSWORD_RESET_TTL, false)];
        mailed := true;
      }
      ticks := ticks + 1;
    }

    method ConsumeToken(tenant: Id, token: Id) returns (spent: bool)
      modifies this`tokens
      ensures spent == (token in old(tokens) && old(tokens)[token].tenant == tenant && !old(tokens)[token].consumed)
      ensures tokens == if spent then old(tokens)[token := old(tokens)[token].(consumed := true)] else old(tokens)
    {
      spent := token in tokens && tokens[token].tenant == tenant && !tokens[token].consumed;
      if spent {
        tokens := tokens[token := tokens[token].(consumed := true)];
      }
    }

    /** A caller who is no longer a member fails after the token is spent, and the rollback gives it back. */
    method Reset(tenant: Id, token: Id, now: int, member: bool, job: Id) returns (accepted: bool)
      modifies this
      ensures accepted == ResetAccepted(old(Now()), tenant, token, now, member)
      ensures Now() == ResetPassword(old(Now()), tenant, token, now, member, job)
    {
      accepted := false;
      var before := tokens;
      if token in tokens && tokens[token].tenant == tenant && !tokens[token].consumed && now < tokens[token].expiresAt {
        var user := tokens[token].user;
        var spent := ConsumeToken(tenant, token);
        if spent && member {
          changed := changed[user := PasswordChange(ticks, job)];
          Revoke(InWorkspace(sessions, tenant, user));
          jobs := jobs[job := Job(user, Queued, false)];
          accepted := true;
        } else {
          tokens := before;
        }
      }
      ticks := ticks + 1;
    }

    method RevokeSessionsEverywhere(job: Id) returns (revoked: nat)
      modifies this
      ensures Now() == Sweep(old(Now()), job)
      ensures revoked == if job in old(jobs) then |Unrevoked(old(sessions), old(jobs)[job].user)| else 0
    {
      revoked := 0;
      if job in jobs {
        var user := jobs[job].user;
        revoked := |Unrevoked(sessions, user)|;
        Revoke(Everywhere(sessions, user));
        jobs := jobs[job := jobs[job].(swept := true)];
      }
      ticks := ticks + 1;
    }
  }

  function Unrevoked(sessions: map<Id, Session>, user: Id): set<Id> {
    set x | x in sessions && sessions[x].user == user && !sessions[x].revoked
  }
}
