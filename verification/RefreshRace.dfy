/**
 Refreshes of one workspace's sessions, interleaved as read-committed transactions really run. A refresh reads the
 row of its token without locking it, inserts a successor, and revokes the row if it is still unrevoked. The row is
 locked from that check to the commit and the successor is seen by nobody before it, so both take effect at once. A
 replay revokes the rows of the family that its own statement could see when it began.
 */
module RefreshRace {
  import opened Prelude
  import opened Quiz
  import opened Sessions

  datatype Work =
    | Exchanging(token: Id, newId: Id, expiresAt: int, createdAt: nat)
    | Replaying(family: Id)
    | Sweeping(family: Id, rows: set<Id>)

  datatype Table = Table(sessions: map<Id, Session>, open: map<Id, Work>)

  datatype Step =
    | Login(tenant: Id, user: Id, newId: Id, now: int, at: nat)
    | Present(tx: Id, token: Id, newId: Id, now: int, at: nat, member: bool)
    | See(tx: Id)
    | Commit(tx: Id)
    | Revoke(rows: set<Id>)
    | Fail(tx: Id)

  /** Not a session, nor about to be one. */
  ghost predicate Unused(s: Table, id: Id) {
    id !in s.sessions && forall tx :: tx in s.open && s.open[tx].Exchanging? ==> s.open[tx].newId != id
  }

  ghost predicate Allowed(s: Table, step: Step) {
    match step
    case Login(_, _, newId, _, _) => Unused(s, newId)
    case Present(tx, token, newId, now, _, member) => tx !in s.open && Unused(s, newId)
    case See(tx) => tx in s.open && s.open[tx].Replaying?
    case Commit(tx) =>
      && tx in s.open && !s.open[tx].Replaying?
      && (s.open[tx].Exchanging? ==> s.open[tx].token in s.sessions)
    case Revoke(_) => true
    case Fail(tx) => tx in s.open
  }

  function Unrevoked(sessions: map<Id, Session>, f: Id): set<Id> {
    set x | x in sessions && sessions[x].family == f && !sessions[x].revoked
  }

  /** What a refresh goes on to do, from the row it read: exchange it, take it for a replay, or give up. */
  function Verdict(sessions: map<Id, Session>, token: Id, now: int, member: bool): Refreshed {
    if token !in sessions then Invalid
    else if Rotated(sessions[token]) then Reused
    else if !Live(sessions[token], now) || !member then Invalid
    else Issued(token)
  }

  function Presented(s: Table, tx: Id, token: Id, newId: Id, now: int, at: nat, member: bool): Table {
    match Verdict(s.sessions, token, now, member)
    case Invalid => s
    case Reused => s.(open := s.open[tx := Replaying(s.sessions[token].family)])
    case Issued(_) => s.(open := s.open[tx := Exchanging(token, newId, now + REFRESH_TOKEN_TTL, at)])
  }

  /** The successor is inserted; the row of the token is revoked and pointed at it if nobody has revoked it since. */
  function Exchanged(sessions: map<Id, Session>, w: Work): map<Id, Session>
    requires w.Exchanging? && w.token in sessions
  {
    var spent := sessions[w.token];
    var grown :=
      sessions[w.newId := Session(spent.tenant, spent.user, spent.family, w.expiresAt, false, None, w.createdAt)];
    if spent.revoked then grown else grown[w.token := spent.(revoked := true, replacedBy := Some(w.newId))]
  }

  function Committed(s: Table, tx: Id): Table
    requires tx in s.open && !s.open[tx].Replaying?
    requires s.open[tx].Exchanging? ==> s.open[tx].token in s.sessions
  {
    var w := s.open[tx];
    Table(if w.Exchanging? then Exchanged(s.sessions, w) else RevokeWhere(s.sessions, w.rows), s.open - {tx})
  }

  ghost function Next(s: Table, step: Step): Table
    requires Allowed(s, step)
  {
    match step
    case Login(tenant, user, newId, now, at) =>
      s.(sessions := s.sessions[newId := Session(tenant, user, newId, now + REFRESH_TOKEN_TTL, false, None, at)])
    case Present(tx, token, newId, now, at, member) => Presented(s, tx, token, newId, now, at, member)
    case See(tx) => s.(open := s.open[tx := Sweeping(s.open[tx].family, Unrevoked(s.sessions, s.open[tx].family))])
    case Commit(tx) => Committed(s, tx)
    case Revoke(rows) => s.(sessions := RevokeWhere(s.sessions, rows))
    case Fail(tx) => s.(open := s.open - {tx})
  }

  ghost predicate IsRun(s: Table, steps: seq<Step>)
    decreases |steps|
  {
    steps == [] || (Allowed(s, steps[0]) && IsRun(Next(s, steps[0]), steps[1..]))
  }

  ghost function After(s: Table, steps: seq<Step>): Table
    requires IsRun(s, steps)
    decreases |steps|
  {
    if steps == [] then s else After(Next(s, steps[0]), steps[1..])
  }

  /** The refreshes of family `f` that have read a good token and not committed. */
  function Pending(s: Table, f: Id): set<Id> {
    set tx | tx in s.open && s.open[tx].Exchanging? && s.open[tx].token in s.sessions &&
             s.sessions[s.open[tx].token].family == f
  }

  ghost predicate OverlapAtMost(s: Table, steps: seq<Step>, f: Id, m: nat)
    requires IsRun(s, steps)
    decreases |steps|
  {
    && |Pending(s, f)| <= m
    && (steps == [] || OverlapAtMost(Next(s, steps[0]), steps[1..], f, m))
  }

  const EMPTY := Table(map[], map[])

  // ---- One at a time ----

  ghost predicate FamiliesNamed(sessions: map<Id, Session>) {
    forall x {:trigger sessions[x].family} :: x in sessions ==> sessions[x].family in sessions
  }

  /** A refresh has a row to exchange, and its successor is not there yet. */
  ghost predicate WorkOk(sessions: map<Id, Session>, w: Work) {
    w.Exchanging? ==> w.token in sessions && w.newId !in sessions
  }

  ghost predicate OpenOk(sessions: map<Id, Session>, open: map<Id, Work>) {
    forall tx :: tx in open ==> WorkOk(sessions, open[tx])
  }

  /** No two refreshes are about to insert the same row. */
  ghost predicate NewIdsDiffer(open: map<Id, Work>) {
    forall t, u :: t in open && u in open && t != u && open[t].Exchanging? && open[u].Exchanging? ==>
      open[t].newId != open[u].newId
  }

  ghost predicate WellFormed(s: Table) {
    FamiliesNamed(s.sessions) && OpenOk(s.sessions, s.open) && NewIdsDiffer(s.open)
  }

  /** At most one session of the family is unrevoked, and any refresh under way is exchanging that one. */
  ghost predicate Sole(s: Table, f: Id) {
    && (forall x, y :: x in Unrevoked(s.sessions, f) && y in Unrevoked(s.sessions, f) ==> x == y)
    && (forall tx, x :: tx in Pending(s, f) && x in Unrevoked(s.sessions, f) ==> s.open[tx].token == x)
  }

  lemma ExchangeKeepsFamilies(sessions: map<Id, Session>, w: Work)
    requires FamiliesNamed(sessions) && w.Exchanging? && w.token in sessions && w.newId !in sessions
    ensures FamiliesNamed(Exchanged(sessions, w)) && Exchanged(sessions, w).Keys == sessions.Keys + {w.newId}
  {
    var after := Exchanged(sessions, w);
    forall x | x in after ensures after[x].family in after {
      assert after[x].family == sessions[if x == w.newId then w.token else x].family;
    }
  }

  lemma CommitKeepsForm(s: Table, tx: Id)
    requires WellFormed(s) && tx in s.open && s.open[tx].Exchanging?
    ensures s.open[tx].token in s.sessions && WellFormed(Committed(s, tx))
  {
    var w := s.open[tx];
    assert WorkOk(s.sessions, w);
    var t := Committed(s, tx);
    ExchangeKeepsFamilies(s.sessions, w);
    forall u | u in t.open ensures WorkOk(t.sessions, t.open[u]) {
      assert WorkOk(s.sessions, s.open[u]);
    }
  }

  lemma PresentKeepsForm(s: Table, tx: Id, token: Id, newId: Id, now: int, at: nat, member: bool)
    requires WellFormed(s) && tx !in s.open && Unused(s, newId)
    ensures WellFormed(Presented(s, tx, token, newId, now, at, member))
  {
  }

  lemma LoginKeepsForm(s: Table, newId: Id, x: Session)
    requires WellFormed(s) && Unused(s, newId) && x.family == newId
    ensures WellFormed(s.(sessions := s.sessions[newId := x]))
  {
    var after := s.sessions[newId := x];
    forall u | u in s.open ensures WorkOk(after, s.open[u]) {
      assert WorkOk(s.sessions, s.open[u]);
    }
  }

  lemma RevokingKeepsForm(s: Table, rows: set<Id>, open: map<Id, Work>)
    requires WellFormed(s) && open.Keys <= s.open.Keys && forall tx :: tx in open ==> open[tx] == s.open[tx]
    ensures WellFormed(Table(RevokeWhere(s.sessions, rows), open))
  {
    forall u | u in open ensures WorkOk(RevokeWhere(s.sessions, rows), open[u]) {
      assert WorkOk(s.sessions, s.open[u]);
    }
  }

  lemma StepKeepsForm(s: Table, step: Step)
    requires WellFormed(s) && Allowed(s, step)
    ensures WellFormed(Next(s, step))
  {
    match step
    case Login(tenant, user, newId, now, at) => LoginKeepsForm(s, newId, Next(s, step).sessions[newId]);
    case Present(tx, token, newId, now, at, member) => PresentKeepsForm(s, tx, token, newId, now, at, member);
    case See(tx) =>
    case Commit(tx) =>
      if s.open[tx].Exchanging? {
        CommitKeepsForm(s, tx);
      } else {
        RevokingKeepsForm(s, s.open[tx].rows, s.open - {tx});
      }
    case Revoke(rows) => RevokingKeepsForm(s, rows, s.open);
    case Fail(tx) =>
  }

  lemma AtMostOne(a: set<Id>, x: Id, y: Id)
    requires |a| <= 1 && x in a && y in a
    ensures x == y
  {
    if x != y {
      SubsetIsNoLarger({x, y}, a);
    }
  }

  lemma PendingAfterPresent(s: Table, f: Id, tx: Id, token: Id, newId: Id, now: int, at: nat, member: bool)
    requires tx !in s.open
    ensures Pending(Presented(s, tx, token, newId, now, at, member), f) ==
            if Verdict(s.sessions, token, now, member).Issued? && s.sessions[token].family == f
            then Pending(s, f) + {tx} else Pending(s, f)
  {
  }

  lemma PresentKeepsSole(s: Table, f: Id, tx: Id, token: Id, newId: Id, now: int, at: nat, member: bool)
    requires Sole(s, f) && tx !in s.open
    ensures Sole(Presented(s, tx, token, newId, now, at, member), f)
  {
    PendingAfterPresent(s, f, tx, token, newId, now, at, member);
    if Verdict(s.sessions, token, now, member).Issued? && s.sessions[token].family == f {
      assert token in Unrevoked(s.sessions, f);
    }
  }

  lemma OthersStayPending(s: Table, f: Id, tx: Id)
    requires WellFormed(s) && tx in s.open && s.open[tx].Exchanging? && s.open[tx].token in s.sessions
    ensures Pending(Committed(s, tx), f) == Pending(s, f) - {tx}
  {
    var t := Committed(s, tx);
    forall u ensures u in Pending(t, f) <==> u in Pending(s, f) - {tx} {
      if u in s.open && u != tx {
        assert WorkOk(s.sessions, s.open[u]);
      }
    }
  }

  lemma ExchangeOfAnother(s: Table, f: Id, tx: Id)
    requires WellFormed(s) && tx in s.open && s.open[tx].Exchanging? && tx !in Pending(s, f)
    ensures s.open[tx].token in s.sessions
    ensures Unrevoked(Committed(s, tx).sessions, f) == Unrevoked(s.sessions, f)
    ensures Pending(Committed(s, tx), f) == Pending(s, f)
  {
    assert WorkOk(s.sessions, s.open[tx]);
    OthersStayPending(s, f, tx);
  }

  /** The session exchanged gives way to its successor, unless it was revoked already; the successor is good. */
  lemma ExchangeInFamily(s: Table, f: Id, tx: Id)
    requires WellFormed(s) && tx in Pending(s, f)
    ensures Unrevoked(Committed(s, tx).sessions, f) ==
            Unrevoked(s.sessions, f) - {s.open[tx].token} + {s.open[tx].newId}
    ensures Pending(Committed(s, tx), f) == Pending(s, f) - {tx}
  {
    assert WorkOk(s.sessions, s.open[tx]);
    OthersStayPending(s, f, tx);
  }

  lemma CommitKeepsSole(s: Table, f: Id, tx: Id)
    requires WellFormed(s) && Sole(s, f) && tx in s.open && s.open[tx].Exchanging?
    requires |Pending(s, f)| <= 1
    ensures s.open[tx].token in s.sessions && Sole(Committed(s, tx), f)
  {
    assert WorkOk(s.sessions, s.open[tx]);
    if tx in Pending(s, f) {
      ExchangeInFamily(s, f, tx);
      forall u | u in Pending(Committed(s, tx), f) ensures false {
        AtMostOne(Pending(s, f), u, tx);
      }
    } else {
      ExchangeOfAnother(s, f, tx);
    }
  }

  lemma RevokingKeepsSole(s: Table, f: Id, rows: set<Id>, open: map<Id, Work>)
    requires Sole(s, f) && open.Keys <= s.open.Keys && forall tx :: tx in open ==> open[tx] == s.open[tx]
    ensures Sole(Table(RevokeWhere(s.sessions, rows), open), f)
  {
    var t := Table(RevokeWhere(s.sessions, rows), open);
    assert Unrevoked(t.sessions, f) <= Unrevoked(s.sessions, f) && Pending(t, f) <= Pending(s, f);
  }

  lemma LoginKeepsSole(s: Table, f: Id, x: Session, newId: Id)
    requires WellFormed(s) && Sole(s, f) && Unused(s, newId) && x.family == newId
    ensures Sole(s.(sessions := s.sessions[newId := x]), f)
  {
    var t := s.(sessions := s.sessions[newId := x]);
    assert Pending(t, f) == Pending(s, f);
    if f == newId {
      assert Unrevoked(s.sessions, f) == {} && Pending(s, f) == {};
    } else {
      assert Unrevoked(t.sessions, f) == Unrevoked(s.sessions, f);
    }
  }

  lemma StepKeepsSole(s: Table, step: Step, f: Id)
    requires WellFormed(s) && Sole(s, f) && Allowed(s, step)
    requires |Pending(s, f)| <= 1 && |Pending(Next(s, step), f)| <= 1
    ensures Sole(Next(s, step), f)
  {
    match step
    case Login(tenant, user, newId, now, at) => LoginKeepsSole(s, f, Next(s, step).sessions[newId], newId);
    case Present(tx, token, newId, now, at, member) => PresentKeepsSole(s, f, tx, token, newId, now, at, member);
    case See(tx) => assert Pending(Next(s, step), f) == Pending(s, f);
    case Commit(tx) =>
      if s.open[tx].Exchanging? {
        CommitKeepsSole(s, f, tx);
      } else {
        RevokingKeepsSole(s, f, s.open[tx].rows, s.open - {tx});
      }
    case Revoke(rows) => RevokingKeepsSole(s, f, rows, s.open);
    case Fail(tx) => assert Pending(Next(s, step), f) <= Pending(s, f);
  }

  lemma {:induction false} RunKeepsSole(s: Table, steps: seq<Step>, f: Id)
    requires WellFormed(s) && Sole(s, f) && IsRun(s, steps) && OverlapAtMost(s, steps, f, 1)
    ensures WellFormed(After(s, steps)) && Sole(After(s, steps), f)
    decreases |steps|
  {
    if steps != [] {
      StepKeepsForm(s, steps[0]);
      StepKeepsSole(s, steps[0], f);
      RunKeepsSole(Next(s, steps[0]), steps[1..], f);
    }
  }

  /** While a family's refreshes do not overlap, at most one of its sessions is good, whatever else is going on. */
  lemma OneAtATimeLeavesOne(steps: seq<Step>, f: Id)
    requires IsRun(EMPTY, steps) && OverlapAtMost(EMPTY, steps, f, 1)
    ensures |Unrevoked(After(EMPTY, steps).sessions, f)| <= 1
  {
    RunKeepsSole(EMPTY, steps, f);
    var good := Unrevoked(After(EMPTY, steps).sessions, f);
    if good != {} {
      var x :| x in good;
      SubsetIsNoLarger(good, {x});
    }
  }

  // ---- The row count that is not looked at ----

  /** A commit leaves one good session more exactly when its update of the token's row matched nothing. */
  lemma CommitAddsOneIff(s: Table, f: Id, tx: Id)
    requires WellFormed(s) && tx in Pending(s, f)
    ensures |Unrevoked(Committed(s, tx).sessions, f)| ==
            |Unrevoked(s.sessions, f)| + if s.sessions[s.open[tx].token].revoked then 1 else 0
  {
    var w, good := s.open[tx], Unrevoked(s.sessions, f);
    assert WorkOk(s.sessions, w);
    ExchangeInFamily(s, f, tx);
    assert w.newId !in good;
    if s.sessions[w.token].revoked {
      assert good - {w.token} == good;
    } else {
      assert w.token in good;
    }
  }

  /** Whenever a refresh of the family commits, its update still found the token's row unrevoked. */
  ghost predicate EveryUpdateMatches(s: Table, steps: seq<Step>, f: Id)
    requires IsRun(s, steps)
    decreases |steps|
  {
    steps == [] ||
    (&& (steps[0].Commit? && steps[0].tx in Pending(s, f) ==> !s.sessions[s.open[steps[0].tx].token].revoked)
     && EveryUpdateMatches(Next(s, steps[0]), steps[1..], f))
  }

  lemma CommitKeepsCount(s: Table, f: Id, tx: Id)
    requires WellFormed(s) && Allowed(s, Commit(tx))
    requires tx in Pending(s, f) ==> !s.sessions[s.open[tx].token].revoked
    ensures |Unrevoked(Committed(s, tx).sessions, f)| <= |Unrevoked(s.sessions, f)|
  {
    if tx in Pending(s, f) {
      CommitAddsOneIff(s, f, tx);
    } else if s.open[tx].Exchanging? {
      ExchangeOfAnother(s, f, tx);
    } else {
      SubsetIsNoLarger(Unrevoked(Committed(s, tx).sessions, f), Unrevoked(s.sessions, f));
    }
  }

  lemma LoginKeepsOne(s: Table, f: Id, x: Session, newId: Id)
    requires WellFormed(s) && |Unrevoked(s.sessions, f)| <= 1 && Unused(s, newId) && x.family == newId
    ensures |Unrevoked(s.sessions[newId := x], f)| <= 1
  {
    if f == newId {
      SubsetIsNoLarger(Unrevoked(s.sessions[newId := x], f), {newId});
    } else {
      assert Unrevoked(s.sessions[newId := x], f) == Unrevoked(s.sessions, f);
    }
  }

  lemma OnlyThreeStepsWrite(s: Table, step: Step)
    requires Allowed(s, step) && !step.Login? && !step.Commit? && !step.Revoke?
    ensures Next(s, step).sessions == s.sessions
  {
  }

  lemma StepKeepsOne(s: Table, step: Step, f: Id)
    requires WellFormed(s) && Allowed(s, step) && |Unrevoked(s.sessions, f)| <= 1
    requires step.Commit? && step.tx in Pending(s, f) ==> !s.sessions[s.open[step.tx].token].revoked
    ensures |Unrevoked(Next(s, step).sessions, f)| <= 1
  {
    match step
    case Login(_, _, newId, _, _) => LoginKeepsOne(s, f, Next(s, step).sessions[newId], newId);
    case Commit(tx) => CommitKeepsCount(s, f, tx);
    case Revoke(rows) =>
      SubsetIsNoLarger(Unrevoked(Next(s, step).sessions, f), Unrevoked(s.sessions, f));
    case _ => OnlyThreeStepsWrite(s, step);
  }

  lemma {:induction false} RunKeepsOne(s: Table, steps: seq<Step>, f: Id)
    requires WellFormed(s) && IsRun(s, steps) && EveryUpdateMatches(s, steps, f)
    requires |Unrevoked(s.sessions, f)| <= 1
    ensures |Unrevoked(After(s, steps).sessions, f)| <= 1
    decreases |steps|
  {
    if steps != [] {
      StepKeepsForm(s, steps[0]);
      StepKeepsOne(s, steps[0], f);
      RunKeepsOne(Next(s, steps[0]), steps[1..], f);
    }
  }

  /** Overlapping or not, refreshes whose updates all match leave a family one good session at most. */
  lemma MatchedUpdatesLeaveOne(steps: seq<Step>, f: Id)
    requires IsRun(EMPTY, steps) && EveryUpdateMatches(EMPTY, steps, f)
    ensures |Unrevoked(After(EMPTY, steps).sessions, f)| <= 1
  {
    assert Unrevoked(EMPTY.sessions, f) == {};
    RunKeepsOne(EMPTY, steps, f);
  }

  // ---- Two at a time ----

  lemma {:induction false} OneMoreStep(s: Table, steps: seq<Step>, step: Step, f: Id, m: nat)
    requires IsRun(s, steps) && OverlapAtMost(s, steps, f, m) && Allowed(After(s, steps), step)
    requires |Pending(Next(After(s, steps), step), f)| <= m
    ensures IsRun(s, steps + [step]) && After(s, steps + [step]) == Next(After(s, steps), step)
    ensures OverlapAtMost(s, steps + [step], f, m)
    decreases |steps|
  {
    if steps == [] {
      assert [] + [step] == [step] && [step][1..] == [];
      assert IsRun(Next(s, step), []);
    } else {
      OneMoreStep(Next(s, steps[0]), steps[1..], step, f, m);
      assert (steps + [step])[1..] == steps[1..] + [step];
    }
  }

  lemma {:induction false} WiderOverlap(s: Table, steps: seq<Step>, f: Id, m: nat, k: nat)
    requires IsRun(s, steps) && OverlapAtMost(s, steps, f, m) && m <= k
    ensures OverlapAtMost(s, steps, f, k)
    decreases |steps|
  {
    if steps != [] {
      WiderOverlap(Next(s, steps[0]), steps[1..], f, m, k);
    }
  }

  /** `x` is a good token of the family that has never been exchanged. */
  predicate Exchangeable(sessions: map<Id, Session>, f: Id, x: Id, now: int) {
    x in Unrevoked(sessions, f) && sessions[x].replacedBy.None? && now < sessions[x].expiresAt
  }

  lemma PresentingAGoodToken(s: Table, f: Id, x: Id, tx: Id, newId: Id, now: int, at: nat)
    requires Exchangeable(s.sessions, f, x, now) && tx !in s.open
    ensures Presented(s, tx, x, newId, now, at, true) ==
            s.(open := s.open[tx := Exchanging(x, newId, now + REFRESH_TOKEN_TTL, at)])
    ensures Pending(Presented(s, tx, x, newId, now, at, true), f) == Pending(s, f) + {tx}
  {
    PendingAfterPresent(s, f, tx, x, newId, now, at, true);
  }

  lemma CommitFacts(s: Table, f: Id, tx: Id)
    requires WellFormed(s) && tx in Pending(s, f)
    ensures Allowed(s, Commit(tx))
    ensures var w, t := s.open[tx], Committed(s, tx);
            && WellFormed(t) && t.open == s.open - {tx} && Pending(t, f) == Pending(s, f) - {tx}
            && w.token in t.sessions && t.sessions[w.token].revoked
            && w.newId in Unrevoked(t.sessions, f) && t.sessions[w.newId].replacedBy.None?
            && t.sessions[w.newId].expiresAt == w.expiresAt
            && Unrevoked(t.sessions, f) == Unrevoked(s.sessions, f) - {w.token} + {w.newId}
  {
    assert WorkOk(s.sessions, s.open[tx]);
    CommitKeepsForm(s, tx);
    ExchangeInFamily(s, f, tx);
  }

  lemma TwoPending(s: Table, f: Id, first: Id, second: Id)
    requires WellFormed(s) && first in Pending(s, f) && second in Pending(s, f) && first != second
    ensures s.open[first].newId !in {s.open[second].token, s.open[second].newId}
  {
    assert WorkOk(s.sessions, s.open[first]) && WorkOk(s.sessions, s.open[second]);
  }

  lemma FirstOfTwo(s: Table, f: Id, first: Id, second: Id)
    requires WellFormed(s) && first in Pending(s, f) && second in Pending(s, f) && first != second
    ensures Allowed(s, Commit(first)) && WellFormed(Committed(s, first))
    ensures second in Pending(Committed(s, first), f) && Committed(s, first).open[second] == s.open[second]
    ensures s.open[first].newId in Unrevoked(Committed(s, first).sessions, f)
  {
    CommitKeepsForm(s, first);
    ExchangeInFamily(s, f, first);
    assert second in Pending(s, f) - {first};
  }

  /** Two refreshes that read the same token before either commits both succeed, and both successors are good. */
  lemma BothStand(s: Table, f: Id, first: Id, second: Id)
    requires WellFormed(s) && first in Pending(s, f) && second in Pending(s, f) && first != second
    requires s.open[first].token == s.open[second].token
    ensures Allowed(s, Commit(first)) && Allowed(Committed(s, first), Commit(second))
    ensures var t := Committed(Committed(s, first), second);
            && s.open[first].newId != s.open[second].newId
            && {s.open[first].newId, s.open[second].newId} <= Unrevoked(t.sessions, f)
  {
    TwoPending(s, f, first, second);
    FirstOfTwo(s, f, first, second);
    CommitFacts(Committed(s, first), f, second);
  }

  /** Had the first committed before the second read, the second would have been seen for the replay it is. */
  lemma CommittedExchangeIsSeen(s: Table, f: Id, tx: Id, now: int, member: bool)
    requires WellFormed(s) && tx in Pending(s, f)
    ensures s.open[tx].token in s.sessions && Allowed(s, Commit(tx))
    ensures Verdict(Committed(s, tx).sessions, s.open[tx].token, now, member) == Reused <==>
            !s.sessions[s.open[tx].token].revoked || Rotated(s.sessions[s.open[tx].token])
  {
    assert WorkOk(s.sessions, s.open[tx]);
  }

  /** A quiet family with a good token, and as many good sessions as that. */
  ghost predicate Ready(s: Table, f: Id, x: Id, now: int, n: nat) {
    WellFormed(s) && Pending(s, f) == {} && Exchangeable(s.sessions, f, x, now) && |Unrevoked(s.sessions, f)| == n
  }

  ghost function Reserved(open: map<Id, Work>): set<Id> {
    set tx | tx in open && open[tx].Exchanging? :: open[tx].newId
  }

  lemma AFreshRow(s: Table) returns (id: Id)
    ensures Unused(s, id)
  {
    id := AnUnusedId(s.sessions.Keys + Reserved(s.open));
    forall tx | tx in s.open && s.open[tx].Exchanging? ensures s.open[tx].newId != id {
      assert s.open[tx].newId in Reserved(s.open);
    }
  }

  lemma PresentInRun(before: seq<Step>, f: Id, x: Id, now: int, m: nat) returns (steps: seq<Step>, tx: Id)
    requires IsRun(EMPTY, before) && OverlapAtMost(EMPTY, before, f, m)
    requires var s := After(EMPTY, before);
             WellFormed(s) && Exchangeable(s.sessions, f, x, now) && |Pending(s, f)| < m
    ensures IsRun(EMPTY, steps) && OverlapAtMost(EMPTY, steps, f, m)
    ensures var s, t := After(EMPTY, before), After(EMPTY, steps);
            && WellFormed(t) && t.sessions == s.sessions
            && tx !in Pending(s, f) && Pending(t, f) == Pending(s, f) + {tx}
            && t.open[tx].token == x && now < t.open[tx].expiresAt
            && (forall u :: u in s.open ==> u in t.open && t.open[u] == s.open[u])
  {
    var s := After(EMPTY, before);
    tx := AnUnusedId(s.open.Keys);
    var newId := AFreshRow(s);
    PresentingAGoodToken(s, f, x, tx, newId, now, 0);
    PresentKeepsForm(s, tx, x, newId, now, 0, true);
    OneMoreStep(EMPTY, before, Present(tx, x, newId, now, 0, true), f, m);
    steps := before + [Present(tx, x, newId, now, 0, true)];
  }

  lemma CommitInRun(before: seq<Step>, f: Id, tx: Id, m: nat) returns (steps: seq<Step>)
    requires IsRun(EMPTY, before) && OverlapAtMost(EMPTY, before, f, m)
    requires var s := After(EMPTY, before); WellFormed(s) && tx in Pending(s, f) && |Pending(s, f)| <= m
    ensures IsRun(EMPTY, steps) && OverlapAtMost(EMPTY, steps, f, m)
    ensures After(EMPTY, steps) == Committed(After(EMPTY, before), tx)
  {
    var s := After(EMPTY, before);
    CommitFacts(s, f, tx);
    OneMoreStep(EMPTY, before, Commit(tx), f, m);
    steps := before + [Commit(tx)];
  }

  lemma CommitOfReader(s: Table, f: Id, x: Id, tx: Id, now: int)
    requires WellFormed(s) && tx in Pending(s, f) && s.open[tx].token == x && now < s.open[tx].expiresAt
    ensures x in s.sessions && Allowed(s, Commit(tx))
    ensures var t := Committed(s, tx);
            && WellFormed(t) && t.open == s.open - {tx} && Pending(t, f) == Pending(s, f) - {tx}
            && x in t.sessions && t.sessions[x].revoked
            && Exchangeable(t.sessions, f, s.open[tx].newId, now)
            && |Unrevoked(t.sessions, f)| == |Unrevoked(s.sessions, f)| + if s.sessions[x].revoked then 1 else 0
  {
    CommitFacts(s, f, tx);
    CommitAddsOneIff(s, f, tx);
  }

  /** Two refreshes of one good token, interleaved, leave one good session more. */
  lemma ARaceAddsOne(before: seq<Step>, f: Id, x: Id, now: int, n: nat) returns (steps: seq<Step>, y: Id)
    requires IsRun(EMPTY, before) && OverlapAtMost(EMPTY, before, f, 2)
    requires Ready(After(EMPTY, before), f, x, now, n)
    ensures IsRun(EMPTY, steps) && OverlapAtMost(EMPTY, steps, f, 2)
    ensures Ready(After(EMPTY, steps), f, y, now, n + 1)
  {
    var one, first := PresentInRun(before, f, x, now, 2);
    var two, second := PresentInRun(one, f, x, now, 2);
    var s := After(EMPTY, two);
    assert first in After(EMPTY, one).open && s.open[first].token == x;
    CommitOfReader(s, f, x, first, now);
    var three := CommitInRun(two, f, first, 2);
    var u := After(EMPTY, three);
    assert second in Pending(u, f) && u.open[second] == s.open[second];
    CommitOfReader(u, f, x, second, now);
    steps := CommitInRun(three, f, second, 2);
    y := u.open[second].newId;
    assert Pending(After(EMPTY, steps), f) == {};
  }

  lemma OneLogin(f: Id, user: Id, now: int) returns (steps: seq<Step>)
    ensures IsRun(EMPTY, steps) && OverlapAtMost(EMPTY, steps, f, 2)
    ensures Ready(After(EMPTY, steps), f, f, now, 1)
  {
    var login := Login(1, user, f, now, 0);
    var t := Next(EMPTY, login);
    assert Pending(EMPTY, f) == {} && Pending(t, f) == {};
    OneMoreStep(EMPTY, [], login, f, 2);
    steps := [] + [login];
    LoginKeepsForm(EMPTY, f, t.sessions[f]);
    assert Unrevoked(t.sessions, f) == {f};
  }

  /** With two refreshes at a time, a family can come to any number of good sessions. */
  lemma {:induction false} AnyNumberStand(f: Id, user: Id, now: int, n: nat) returns (steps: seq<Step>, x: Id)
    requires n >= 1
    ensures IsRun(EMPTY, steps) && OverlapAtMost(EMPTY, steps, f, 2)
    ensures Ready(After(EMPTY, steps), f, x, now, n)
    decreases n
  {
    if n == 1 {
      steps := OneLogin(f, user, now);
      x := f;
    } else {
      var before, y := AnyNumberStand(f, user, now, n - 1);
      steps, x := ARaceAddsOne(before, f, y, now, n - 1);
    }
  }

  /** Bounding how many refreshes of a family overlap bounds its good sessions if and only if the bound is one. */
  lemma OverlapIsSafeIff(f: Id, m: nat, k: nat)
    requires k >= 1
    ensures (forall steps :: IsRun(EMPTY, steps) && OverlapAtMost(EMPTY, steps, f, m) ==>
               |Unrevoked(After(EMPTY, steps).sessions, f)| <= k)
            <==> m <= 1
  {
    if m <= 1 {
      forall steps | IsRun(EMPTY, steps) && OverlapAtMost(EMPTY, steps, f, m)
        ensures |Unrevoked(After(EMPTY, steps).sessions, f)| <= k
      {
        WiderOverlap(EMPTY, steps, f, m, 1);
        OneAtATimeLeavesOne(steps, f);
      }
    } else {
      var steps, x := AnyNumberStand(f, 1, 0, k + 1);
      WiderOverlap(EMPTY, steps, f, 2, m);
      assert !(|Unrevoked(After(EMPTY, steps).sessions, f)| <= k);
    }
  }

  // ---- A refresh racing a replay ----

  /** Rows are never lost, and none that was revoked is good again. */
  ghost predicate Forward(before: map<Id, Session>, after: map<Id, Session>) {
    forall x :: x in before ==>
      x in after && after[x].family == before[x].family && (before[x].revoked ==> after[x].revoked)
  }

  lemma StepMovesForward(s: Table, step: Step)
    requires WellFormed(s) && Allowed(s, step)
    ensures Forward(s.sessions, Next(s, step).sessions)
  {
    if step.Commit? {
      assert WorkOk(s.sessions, s.open[step.tx]);
    }
  }

  lemma {:induction false} RunMovesForward(s: Table, steps: seq<Step>)
    requires WellFormed(s) && IsRun(s, steps)
    ensures Forward(s.sessions, After(s, steps).sessions)
    decreases |steps|
  {
    if steps != [] {
      StepKeepsForm(s, steps[0]);
      StepMovesForward(s, steps[0]);
      RunMovesForward(Next(s, steps[0]), steps[1..]);
    }
  }

  lemma SweepLeavesNewcomers(before: map<Id, Session>, after: map<Id, Session>, f: Id)
    requires Forward(before, after)
    ensures Unrevoked(RevokeWhere(after, Unrevoked(before, f)), f) == Unrevoked(after, f) - before.Keys
  {
    forall x | x in Unrevoked(after, f) && x in before ensures x in Unrevoked(before, f) {}
  }

  /** `tx` is revoking the family as it saw it in `seen`. */
  ghost predicate IsSweeping(s: Table, tx: Id, f: Id, seen: map<Id, Session>) {
    tx in s.open && s.open[tx] == Sweeping(f, Unrevoked(seen, f))
  }

  /**
   A replay's update sees the family as it was when the statement began. When it commits, the good sessions left in
   the family are exactly those inserted since: every one it saw is ended, and no other.
   */
  lemma AReplayMissesExactlyTheNewcomers(s: Table, tx: Id, steps: seq<Step>, f: Id)
    requires WellFormed(s) && IsSweeping(s, tx, f, s.sessions)
    requires IsRun(s, steps) && IsSweeping(After(s, steps), tx, f, s.sessions)
    ensures var u := After(s, steps);
            && Allowed(u, Commit(tx))
            && Unrevoked(Committed(u, tx).sessions, f) == Unrevoked(u.sessions, f) - s.sessions.Keys
  {
    RunMovesForward(s, steps);
    SweepLeavesNewcomers(s.sessions, After(s, steps).sessions, f);
  }

  lemma SeeingStartsTheSweep(s: Table, tx: Id)
    requires WellFormed(s) && Allowed(s, See(tx))
    ensures WellFormed(Next(s, See(tx))) && Next(s, See(tx)).sessions == s.sessions
    ensures IsSweeping(Next(s, See(tx)), tx, s.open[tx].family, s.sessions)
    ensures forall f :: Pending(Next(s, See(tx)), f) == Pending(s, f)
  {
    StepKeepsForm(s, See(tx));
    forall f ensures Pending(Next(s, See(tx)), f) == Pending(s, f) {}
  }

  lemma SweepCommits(s: Table, tx: Id, f: Id, seen: map<Id, Session>)
    requires IsSweeping(s, tx, f, seen)
    ensures Allowed(s, Commit(tx)) && Committed(s, tx).sessions == RevokeWhere(s.sessions, Unrevoked(seen, f))
  {
  }

  lemma OnlyTheNewcomer(good: set<Id>, all: set<Id>, spent: Id, newId: Id)
    requires good <= all && newId !in all
    ensures good - {spent} + {newId} - all == {newId}
  {
  }

  lemma CommitDuringSweep(s: Table, f: Id, tx: Id, replay: Id, seen: map<Id, Session>)
    requires WellFormed(s) && tx in Pending(s, f) && IsSweeping(s, replay, f, seen)
    ensures Allowed(s, Commit(tx)) && IsSweeping(Committed(s, tx), replay, f, seen)
    ensures Forward(s.sessions, Committed(s, tx).sessions)
    ensures s.open[tx].newId !in s.sessions
    ensures Unrevoked(Committed(s, tx).sessions, f) ==
            Unrevoked(s.sessions, f) - {s.open[tx].token} + {s.open[tx].newId}
  {
    assert WorkOk(s.sessions, s.open[tx]);
    ExchangeInFamily(s, f, tx);
    StepMovesForward(s, Commit(tx));
  }

  /** A refresh that commits while the replay is at work leaves its successor good. */
  lemma ARefreshOutrunsAReplay(s: Table, f: Id, tx: Id, replay: Id)
    requires WellFormed(s) && tx in Pending(s, f) && IsSweeping(s, replay, f, s.sessions)
    ensures Allowed(s, Commit(tx)) && Allowed(Committed(s, tx), Commit(replay))
    ensures Unrevoked(Committed(Committed(s, tx), replay).sessions, f) == {s.open[tx].newId}
  {
    CommitDuringSweep(s, f, tx, replay, s.sessions);
    SweepCommits(Committed(s, tx), replay, f, s.sessions);
    SweepLeavesNewcomers(s.sessions, Committed(s, tx).sessions, f);
    OnlyTheNewcomer(Unrevoked(s.sessions, f), s.sessions.Keys, s.open[tx].token, s.open[tx].newId);
  }

  /** From any such moment, beginning with the replay's own first statement. */
  lemma TheRaceBeginsAnywhere(s: Table, f: Id, tx: Id, replay: Id)
    requires WellFormed(s) && tx in Pending(s, f) && Allowed(s, See(replay)) && s.open[replay].family == f
    ensures var t := Next(s, See(replay));
            && Allowed(t, Commit(tx)) && Allowed(Committed(t, tx), Commit(replay))
            && Unrevoked(Committed(Committed(t, tx), replay).sessions, f) == {s.open[tx].newId}
  {
    SeeingStartsTheSweep(s, replay);
    ARefreshOutrunsAReplay(Next(s, See(replay)), f, tx, replay);
  }

  lemma ReplayInRun(before: seq<Step>, f: Id, x: Id, now: int, m: nat) returns (steps: seq<Step>, replay: Id)
    requires IsRun(EMPTY, before) && OverlapAtMost(EMPTY, before, f, m) && |Pending(After(EMPTY, before), f)| <= m
    requires var s := After(EMPTY, before);
             WellFormed(s) && x in s.sessions && s.sessions[x].family == f && Rotated(s.sessions[x])
    ensures IsRun(EMPTY, steps)
    ensures var s, t := After(EMPTY, before), After(EMPTY, steps);
            && WellFormed(t) && t.sessions == s.sessions && Pending(t, f) == Pending(s, f)
            && replay !in s.open && t.open == s.open[replay := Replaying(f)]
  {
    var s := After(EMPTY, before);
    replay := AnUnusedId(s.open.Keys);
    var newId := AFreshRow(s);
    PendingAfterPresent(s, f, replay, x, newId, now, 0, true);
    PresentKeepsForm(s, replay, x, newId, now, 0, true);
    OneMoreStep(EMPTY, before, Present(replay, x, newId, now, 0, true), f, m);
    steps := before + [Present(replay, x, newId, now, 0, true)];
  }

  /** From an empty table: log in, refresh, refresh again, and meanwhile present the first token once more. */
  lemma AReplayCanLose(f: Id, user: Id, now: int) returns (steps: seq<Step>, tx: Id, replay: Id)
    ensures IsRun(EMPTY, steps)
    ensures var s := After(EMPTY, steps);
            WellFormed(s) && tx in Pending(s, f) && Allowed(s, See(replay)) && s.open[replay].family == f
  {
    var login := OneLogin(f, user, now);
    var one, first := PresentInRun(login, f, f, now, 2);
    CommitOfReader(After(EMPTY, one), f, f, first, now);
    FirstTokenIsRotated(After(EMPTY, one), f, first);
    var two := CommitInRun(one, f, first, 2);
    var x := After(EMPTY, one).open[first].newId;
    var three, second := PresentInRun(two, f, x, now, 2);
    tx := second;
    steps, replay := ReplayInRun(three, f, f, now, 2);
  }

  lemma FirstTokenIsRotated(s: Table, f: Id, tx: Id)
    requires WellFormed(s) && tx in Pending(s, f) && !s.sessions[s.open[tx].token].revoked
    ensures s.open[tx].token in s.sessions
    ensures var x, t := s.open[tx].token, Committed(s, tx);
            x in t.sessions && t.sessions[x].family == f && Rotated(t.sessions[x])
  {
    assert WorkOk(s.sessions, s.open[tx]);
  }

  // ---- Alone ----

  lemma SweepingUnrevokedIsSweepingAll(sessions: map<Id, Session>, tenant: Id, f: Id)
    requires forall x :: x in sessions ==> sessions[x].tenant == tenant
    ensures RevokeWhere(sessions, Unrevoked(sessions, f)) == RevokeWhere(sessions, InFamily(sessions, tenant, f))
  {
  }

  /** With nobody in between, the statements of a refresh or a replay add up to the one serialised step. */
  lemma AloneItIsTheSerialStep(s: Table, st: Store, tenant: Id, tx: Id, token: Id, newId: Id, now: int, member: bool)
    requires st.sessions == s.sessions && tx !in s.open && Unused(s, newId)
    requires forall x :: x in s.sessions ==> s.sessions[x].tenant == tenant
    ensures var t := Presented(s, tx, token, newId, now, st.ticks, member);
            var after := Refresh(st, tenant, token, newId, now, member).sessions;
            match RefreshVerdict(st, tenant, token, newId, now, member)
            case Invalid => t == s && after == s.sessions
            case Issued(_) => Allowed(t, Commit(tx)) && Committed(t, tx).sessions == after
            case Reused =>
              && Allowed(t, See(tx)) && Allowed(Next(t, See(tx)), Commit(tx))
              && Committed(Next(t, See(tx)), tx).sessions == after
  {
    if RefreshVerdict(st, tenant, token, newId, now, member).Reused? {
      SweepingUnrevokedIsSweepingAll(s.sessions, tenant, s.sessions[token].family);
    }
  }
}
