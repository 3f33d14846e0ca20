/** Owners are owners' business: what a demotion, a removal or a promotion by anybody else can and cannot touch. */
module OwnerRank {
  import opened Prelude
  import opened Quiz
  import opened LastOwner
  import opened LastOwnerSafety
  import opened LastOwnerLoss

  // ---- What one read and one commit do ----

  /**
   A read goes on to count owners exactly when an owner acts on an owner, to write exactly when anybody acts on
   somebody who is not one, and ends otherwise, which is also when there is nobody or nothing to change.
   */
  lemma AReadGoesOnIff(s: State, tx: Id, found: Option<Id>)
    requires Enabled(s, Read(tx, found))
    ensures var t, op := Next(s, Read(tx, found)), s.txs[tx].op;
            && t.rows == s.rows
            && ((tx in t.txs && t.txs[tx].phase == Counting) <==>
                  && found.Some? && s.rows[found.value].role == Owner
                  && op.actorRole == Owner && op.change != ToRole(Owner))
            && ((tx in t.txs && t.txs[tx].phase == Writing) <==>
                  && found.Some? && s.rows[found.value].role != Owner && op.change != ToRole(s.rows[found.value].role))
            && (tx in t.txs ==> t.txs[tx].phase in {Counting, Writing} && t.txs[tx].op == op)
  {
  }

  /** A commit removes the row it wrote, or gives it the role asked for; nothing else about anybody changes. */
  lemma ACommitDoesWhatWasAsked(s: State, tx: Id)
    requires Enabled(s, Commit(tx))
    ensures var t, row, change := Next(s, Commit(tx)), s.txs[tx].phase.row, s.txs[tx].op.change;
            && tx !in t.txs
            && (forall r :: r != row ==> (r in t.rows <==> r in s.rows) && (r in s.rows ==> t.rows[r] == s.rows[r]))
            && (row in t.rows <==> change != Out)
            && (row in t.rows ==> ToRole(t.rows[row].role) == change && t.rows[row].user == s.rows[row].user
                                  && t.rows[row].active == s.rows[row].active)
  {
  }

  // ---- Locks that hold something ----

  /** Whoever is past its lock holds a row of its snapshot. */
  ghost predicate Holding(s: State) {
    forall t :: t in s.txs && Engaged(s.txs[t]) ==> HoldsSome(s.locks, t, s.txs[t])
  }

  lemma OthersStayHolding(s: State, t: State, tx: Id)
    requires Holding(s)
    requires forall u :: u in t.txs && u != tx ==> u in s.txs && t.txs[u] == s.txs[u]
    requires forall r :: r in s.locks && s.locks[r] != tx ==> r in t.locks && t.locks[r] == s.locks[r]
    requires tx in t.txs && Engaged(t.txs[tx]) ==> HoldsSome(t.locks, tx, t.txs[tx])
    ensures Holding(t)
  {
    forall u | u in t.txs && Engaged(t.txs[u]) ensures HoldsSome(t.locks, u, t.txs[u]) {
      if u != tx {
        StillHoldsSome(s.locks, t.locks, u, s.txs[u], t.txs[u]);
      }
    }
  }

  lemma StepKeepsHolding(s: State, step: Step)
    requires Holding(s) && Enabled(s, step)
    requires step.Read? ==> HoldsSome(s.locks, step.tx, s.txs[step.tx])
    ensures Holding(Next(s, step))
  {
    var t := Next(s, step);
    if !step.Join? {
      var tx := step.tx;
      if tx in t.txs && Engaged(t.txs[tx]) {
        StillHoldsSome(s.locks, t.locks, tx, s.txs[tx], t.txs[tx]);
      }
      OthersStayHolding(s, t, tx);
    }
  }

  // ---- Nobody above their rank ----

  /** Nobody is dealing with themselves; and unless an owner is acting, the target is there and is not an owner. */
  ghost predicate WithinRank(rows: map<Id, Row>, x: Tx) {
    && Admitted(x.op)
    && match x.phase
       case Locking(_) => true
       case Counting => x.op.actorRole == Owner
       case Writing => x.op.actorRole == Owner || exists r :: IsOf(rows, x.op.target, r) && rows[r].role != Owner
       case Written(r) => IsOf(rows, x.op.target, r) && (x.op.actorRole == Owner || rows[r].role != Owner)
  }

  ghost predicate Ranked(s: State) {
    forall t :: t in s.txs ==> WithinRank(s.rows, s.txs[t])
  }

  lemma ReadKeepsRank(s: State, tx: Id, found: Option<Id>)
    requires Ranked(s) && Enabled(s, Read(tx, found))
    ensures Ranked(Next(s, Read(tx, found)))
  {
    assert WithinRank(s.rows, s.txs[tx]);
    AReadGoesOnIff(s, tx, found);
    var t := Next(s, Read(tx, found));
    if tx in t.txs && t.txs[tx].phase == Writing {
      assert IsOf(t.rows, t.txs[tx].op.target, found.value) && t.rows[found.value].role != Owner;
    }
  }

  lemma WriteKeepsRank(s: State, tx: Id, row: Id)
    requires Ranked(s) && OneRowEach(s.rows) && Enabled(s, Write(tx, row))
    ensures Ranked(Next(s, Write(tx, row)))
  {
    assert WithinRank(s.rows, s.txs[tx]);
    if s.txs[tx].op.actorRole != Owner {
      var r :| IsOf(s.rows, s.txs[tx].op.target, r) && s.rows[r].role != Owner;
      assert r == row;
    }
  }

  /** A commit finds nobody else past its lock, so nobody's target is moved under them. */
  lemma CommitKeepsRank(s: State, tx: Id)
    requires Disciplined(s) && Holding(s) && Ranked(s) && Enabled(s, Commit(tx))
    ensures Ranked(Next(s, Commit(tx)))
  {
    var t := Next(s, Commit(tx));
    forall u | u in t.txs ensures WithinRank(t.rows, t.txs[u]) {
      assert WithinRank(s.rows, s.txs[u]);
      if Engaged(s.txs[u]) {
        LocksExclude(s, tx, u);
      }
    }
  }

  lemma JoinKeepsRank(s: State, newRow: Id, member: Row)
    requires Disciplined(s) && Ranked(s) && Enabled(s, Join(newRow, member))
    ensures Ranked(Next(s, Join(newRow, member)))
  {
    var t := Next(s, Join(newRow, member));
    forall u | u in t.txs ensures WithinRank(t.rows, t.txs[u]) {
      var x := s.txs[u];
      assert WithinRank(s.rows, x);
      if x.phase == Writing && x.op.actorRole != Owner {
        var r :| IsOf(s.rows, x.op.target, r) && s.rows[r].role != Owner;
        assert IsOf(t.rows, x.op.target, r) && t.rows[r].role != Owner;
      }
    }
  }

  lemma CountKeepsRank(s: State, tx: Id)
    requires Ranked(s) && Enabled(s, Count(tx))
    ensures Ranked(Next(s, Count(tx)))
  {
    assert WithinRank(s.rows, s.txs[tx]);
  }

  lemma StepKeepsRank(s: State, step: Step)
    requires Disciplined(s) && Holding(s) && Ranked(s) && Enabled(s, step)
    ensures Ranked(Next(s, step))
  {
    match step
    case Begin(tx, op) =>
    case Lock(tx, row) => assert WithinRank(s.rows, s.txs[tx]);
    case Read(tx, found) => ReadKeepsRank(s, tx, found);
    case Count(tx) => CountKeepsRank(s, tx);
    case Write(tx, row) => WriteKeepsRank(s, tx, row);
    case Commit(tx) => CommitKeepsRank(s, tx);
    case Abort(tx) =>
    case Join(newRow, member) => JoinKeepsRank(s, newRow, member);
  }

  lemma {:induction false} RunKeepsRank(s: State, steps: seq<Step>)
    requires Disciplined(s) && Holding(s) && Ranked(s) && IsRun(s, steps) && NoEmptyLock(s, steps)
    ensures Ranked(After(s, steps))
    decreases |steps|
  {
    if steps != [] {
      if steps[0].Read? {
        FinishedLockHoldsTheSurvivors(s, steps[0].tx);
      }
      StepKeepsDiscipline(s, steps[0]);
      StepKeepsHolding(s, steps[0]);
      StepKeepsRank(s, steps[0]);
      RunKeepsRank(Next(s, steps[0]), steps[1..]);
    }
  }

  /** Everybody with the owner's role, suspended or not. */
  function OwnerRows(rows: map<Id, Row>): set<Id> {
    set r | r in rows && rows[r].role == Owner
  }

  /**
   In every interleaving in which no lock comes back empty, a commit whose actor is not an owner leaves the owners
   exactly who they were, and no commit is on the actor's own membership.
   */
  lemma OnlyOwnersChangeOwners(s: State, steps: seq<Step>, tx: Id)
    requires Quiet(s) && IsRun(s, steps) && NoEmptyLock(s, steps)
    requires Enabled(After(s, steps), Commit(tx))
    ensures var t := After(s, steps);
            var x, u := t.txs[tx], Next(t, Commit(tx));
            && IsOf(t.rows, x.op.target, x.phase.row) && x.op.actor != x.op.target
            && (x.op.actorRole != Owner ==> OwnerRows(u.rows) == OwnerRows(t.rows))
  {
    RunKeepsRank(s, steps);
    assert WithinRank(After(s, steps).rows, After(s, steps).txs[tx]);
  }

  // ---- Past an empty lock ----

  lemma CanChangeRole(s: State, tx: Id, row: Id)
    requires tx in s.txs && s.txs[tx].phase == Writing && s.txs[tx].op.change == ToRole(Owner)
    requires IsOf(s.rows, s.txs[tx].op.target, row)
    requires forall q :: q in s.locks ==> s.locks[q] == tx
    ensures Reaches(s, s.(rows := s.rows[row := s.rows[row].(role := Owner)], txs := s.txs - {tx}, locks := map[]))
  {
    var t := Next(s, Write(tx, row));
    ReachesSelf(s);
    ReachesThen(s, s, Write(tx, row));
    ReachesThen(s, t, Commit(tx));
    var u := Next(t, Commit(tx));
    assert u.txs == s.txs - {tx} && u.locks == map[];
  }

  /** With no locks held, an owner can promote anybody who is not one. */
  lemma CanPromote(s: State, tx: Id, actor: Id, row: Id)
    requires s.locks == map[] && tx !in s.txs
    requires row in s.rows && s.rows[row].user != actor && s.rows[row].role != Owner
    ensures Reaches(s, s.(rows := s.rows[row := s.rows[row].(role := Owner)]))
  {
    var op := Op(actor, Owner, s.rows[row].user, ToRole(Owner));
    var s1 := Next(s, Begin(tx, op));
    ReachesSelf(s);
    ReachesThen(s, s, Begin(tx, op));
    CanFinishLocking(s1, tx);
    var s2 := LockedUp(s1, tx);
    ReachesOn(s, s1, s2);
    ReachesThen(s, s2, Read(tx, Some(row)));
    var s3 := Next(s2, Read(tx, Some(row)));
    CanChangeRole(s3, tx, row);
    var s4 := s3.(rows := s3.rows[row := s3.rows[row].(role := Owner)], txs := s3.txs - {tx}, locks := map[]);
    ReachesOn(s, s3, s4);
    assert s3.txs - {tx} == s.txs;
  }

  lemma StalledReadsItsTarget(s: State, tx: Id, op: Op, snapshot: set<Id>, c: Id)
    requires s.locks == map[] && s.txs == map[tx := Tx(op, snapshot, Locking(snapshot))]
    requires snapshot !! s.rows.Keys
    requires op.change == Out && IsOf(s.rows, op.target, c) && s.rows[c].role != Owner
    ensures Reaches(s, s.(txs := map[tx := Tx(op, snapshot, Writing)]))
  {
    CanFinishLocking(s, tx);
    var t := LockedUp(s, tx);
    assert t.locks == map[] && t.txs == map[tx := Tx(op, snapshot, Locking({}))];
    ReachesThen(s, t, Read(tx, Some(c)));
    assert Next(t, Read(tx, Some(c))) == s.(txs := map[tx := Tx(op, snapshot, Writing)]);
  }

  /** A removal by an admin waits to lock the rows of `s`; two owners and a student have joined meanwhile. */
  ghost function Waiting(s: State, op: Op, b: Id, user: Id): State {
    State(s.rows[b := Row(user, Owner, true)][b + 1 := Row(user + 1, Owner, true)]
                [b + 2 := Row(user + 2, Student, true)],
          map[], map[1 := Tx(op, s.rows.Keys, Locking(s.rows.Keys))], s.issued + {b} + {b + 1} + {b + 2})
  }

  lemma CanWait(s: State, op: Op, b: Id, user: Id)
    requires Quiet(s) && Admitted(op)
    requires forall y :: y in s.issued ==> y < b
    requires forall y :: y in Users(s.rows) ==> y < user
    ensures Reaches(s, Waiting(s, op, b, user))
  {
    ReachesSelf(s);
    ReachesThen(s, s, Begin(1, op));
    var s1 := Next(s, Begin(1, op));
    forall r | r in s.rows ensures s.rows[r].user < user {
      assert s.rows[r].user in Users(s.rows);
    }
    ReachesThen(s, s1, Join(b, Row(user, Owner, true)));
    var s2 := Next(s1, Join(b, Row(user, Owner, true)));
    ReachesThen(s, s2, Join(b + 1, Row(user + 1, Owner, true)));
    var s3 := Next(s2, Join(b + 1, Row(user + 1, Owner, true)));
    ReachesThen(s, s3, Join(b + 2, Row(user + 2, Student, true)));
    assert Next(s3, Join(b + 2, Row(user + 2, Student, true))) == Waiting(s, op, b, user);
  }

  /** The owner `b` promotes the student that the waiting removal, past its empty lock, has already looked at. */
  lemma PromotedAfterTheLook(s: State, op: Op, snapshot: set<Id>, b: Id, c: Id)
    requires s.locks == map[] && s.txs == map[1 := Tx(op, snapshot, Locking(snapshot))]
    requires snapshot !! s.rows.Keys && b in s.rows && c in s.rows && s.rows[b].user != s.rows[c].user
    requires op.change == Out && op.target == s.rows[c].user && s.rows[c].role != Owner
    ensures Reaches(s, State(s.rows[c := s.rows[c].(role := Owner)], map[c := 1],
                             map[1 := Tx(op, snapshot, Written(c))], s.issued))
  {
    StalledReadsItsTarget(s, 1, op, snapshot, c);
    var s1 := s.(txs := map[1 := Tx(op, snapshot, Writing)]);
    CanPromote(s1, 2, s.rows[b].user, c);
    var s2 := s1.(rows := s1.rows[c := s1.rows[c].(role := Owner)]);
    ReachesOn(s, s1, s2);
    ReachesThen(s, s2, Write(1, c));
    assert Next(s2, Write(1, c)) == State(s.rows[c := s.rows[c].(role := Owner)], map[c := 1],
                                          map[1 := Tx(op, snapshot, Written(c))], s.issued);
  }

  /** The two new owners see off everybody the waiting removal meant to lock. */
  lemma EverybodyElseLeaves(s: State, op: Op, b: Id, user: Id)
    requires forall r :: r in s.rows ==> r < b && s.rows[r].user < user
    ensures var s1 := Waiting(s, op, b, user);
            && s1.rows.Keys == s.rows.Keys + {b, b + 1, b + 2}
            && Reaches(s1, s1.(rows := s1.rows - s.rows.Keys))
            && (s1.rows - s.rows.Keys).Keys == {b, b + 1, b + 2}
  {
    var s1 := Waiting(s, op, b, user);
    forall r | r in s.rows.Keys ensures s1.rows[r].user != user {
      assert s1.rows[r] == s.rows[r];
    }
    CanRemoveAll(s1, 2, s.rows.Keys, b, b + 1);
  }

  lemma TheWaitEndsOnAnOwner(s: State, admin: Id) returns (t: State)
    requires Quiet(s) && admin in Users(s.rows)
    ensures Reaches(s, t) && Enabled(t, Commit(1))
    ensures t.txs[1].op.actor == admin && t.txs[1].op.actorRole == Admin
    ensures OwnerRows(Next(t, Commit(1)).rows) < OwnerRows(t.rows)
  {
    var b := AnUnusedId(s.issued);
    var user := AnUnusedId(Users(s.rows));
    var c := b + 2;
    var op := Op(admin, Admin, user + 2, Out);
    CanWait(s, op, b, user);
    forall r | r in s.rows ensures r < b && s.rows[r].user < user {
      assert s.rows[r].user in Users(s.rows);
    }
    EverybodyElseLeaves(s, op, b, user);
    var s1 := Waiting(s, op, b, user);
    var s2 := s1.(rows := s1.rows - s.rows.Keys);
    ReachesOn(s, s1, s2);
    PromotedAfterTheLook(s2, op, s.rows.Keys, b, c);
    t := State(s2.rows[c := s2.rows[c].(role := Owner)], map[c := 1], map[1 := Tx(op, s.rows.Keys, Written(c))],
               s2.issued);
    ReachesOn(s, s2, t);
    assert c in OwnerRows(t.rows) && c !in OwnerRows(Next(t, Commit(1)).rows);
  }

  /** From every quiet workspace some run with an empty lock brings a member who is an admin to remove an owner. */
  lemma AnAdminCanRemoveAnOwner(s: State) returns (t: State)
    requires Quiet(s)
    ensures Reaches(s, t) && Enabled(t, Commit(1)) && t.txs[1].op.actorRole == Admin
    ensures OwnerRows(Next(t, Commit(1)).rows) < OwnerRows(t.rows)
  {
    var row := AnUnusedId(s.issued);
    var admin := AnUnusedId(Users(s.rows));
    forall r | r in s.rows ensures s.rows[r].user < admin {
      assert s.rows[r].user in Users(s.rows);
    }
    var join := Join(row, Row(admin, Admin, true));
    ReachesSelf(s);
    ReachesThen(s, s, join);
    var s0 := Next(s, join);
    assert s0.rows[row].user == admin;
    t := TheWaitEndsOnAnOwner(s0, admin);
    ReachesOn(s, s0, t);
  }
}
