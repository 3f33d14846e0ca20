/** A claimed workspace keeps an owner in every interleaving in which no lock comes back empty. */
module LastOwnerSafety {
  import opened Prelude
  import opened Quiz
  import opened LastOwner

  // ---- Row locks, step by step ----

  /** Nothing another transaction relies on has moved. */
  lemma OthersLockWell(rows: map<Id, Row>, locks: map<Id, Id>, locks': map<Id, Id>, u: Id, x: Tx)
    requires LocksOfTx(rows, locks, u, x)
    requires forall r :: (r in locks && locks[r] == u) <==> (r in locks' && locks'[r] == u)
    ensures LocksOfTx(rows, locks', u, x)
  {
  }

  lemma EndingKeepsDiscipline(s: State, tx: Id)
    requires Disciplined(s)
    ensures Disciplined(Ended(s, tx))
  {
    var t := Ended(s, tx);
    forall u | u in t.txs ensures LocksOfTx(t.rows, t.locks, u, t.txs[u]) {
      OthersLockWell(s.rows, s.locks, t.locks, u, s.txs[u]);
    }
  }

  lemma PhaseKeepsDiscipline(s: State, tx: Id, phase: Phase)
    requires Disciplined(s) && tx in s.txs && s.txs[tx].phase in {Locking({}), Counting, Writing}
    requires phase == Counting || phase == Writing
    ensures Disciplined(InPhase(s, tx, phase))
  {
    var t := InPhase(s, tx, phase);
    forall u | u in t.txs ensures LocksOfTx(t.rows, t.locks, u, t.txs[u]) {
      assert LocksOfTx(s.rows, s.locks, u, s.txs[u]);
    }
  }

  /** One transaction moves on, taking at most the free row `row`. */
  lemma TakingKeepsDiscipline(s: State, tx: Id, x: Tx, row: Id, locks: map<Id, Id>)
    requires Disciplined(s) && tx in s.txs
    requires x.snapshot == s.txs[tx].snapshot && Pending(x) <= Pending(s.txs[tx])
    requires locks == s.locks || (locks == s.locks[row := tx] && row in s.rows && Free(s, tx, row))
    requires LocksOfTx(s.rows, locks, tx, x)
    ensures Disciplined(s.(txs := s.txs[tx := x], locks := locks))
  {
    var t := s.(txs := s.txs[tx := x], locks := locks);
    forall u | u in t.txs ensures LocksOfTx(t.rows, t.locks, u, t.txs[u]) {
      if u != tx {
        OthersLockWell(s.rows, s.locks, t.locks, u, s.txs[u]);
      }
    }
  }

  lemma LockKeepsDiscipline(s: State, tx: Id, row: Id)
    requires Disciplined(s) && Enabled(s, Lock(tx, row))
    ensures Disciplined(AfterLock(s, tx, row))
  {
    var t := AfterLock(s, tx, row);
    assert LocksOfTx(s.rows, s.locks, tx, s.txs[tx]);
    TakingKeepsDiscipline(s, tx, t.txs[tx], row, t.locks);
  }

  lemma WriteKeepsDiscipline(s: State, tx: Id, row: Id)
    requires Disciplined(s) && Enabled(s, Write(tx, row))
    ensures Disciplined(Next(s, Write(tx, row)))
  {
    var t := Next(s, Write(tx, row));
    assert LocksOfTx(s.rows, s.locks, tx, s.txs[tx]);
    TakingKeepsDiscipline(s, tx, t.txs[tx], row, t.locks);
  }

  lemma BeginKeepsDiscipline(s: State, tx: Id, op: Op)
    requires Disciplined(s) && Enabled(s, Begin(tx, op))
    ensures Disciplined(Next(s, Begin(tx, op)))
  {
    var t := Next(s, Begin(tx, op));
    forall u | u in t.txs ensures LocksOfTx(t.rows, t.locks, u, t.txs[u]) {
      if u != tx {
        assert LocksOfTx(s.rows, s.locks, u, s.txs[u]);
      }
    }
    assert forall u :: u in t.txs ==> SawNoMore(t.rows, t.txs[u].snapshot, t.txs[tx].snapshot);
  }

  lemma JoinKeepsDiscipline(s: State, newRow: Id, member: Row)
    requires Disciplined(s) && Enabled(s, Join(newRow, member))
    ensures Disciplined(Next(s, Join(newRow, member)))
  {
    var t := Next(s, Join(newRow, member));
    forall u | u in t.txs ensures LocksOfTx(t.rows, t.locks, u, t.txs[u]) {
      assert LocksOfTx(s.rows, s.locks, u, s.txs[u]);
    }
    forall u, v | u in t.txs && v in t.txs
      ensures SawNoMore(t.rows, t.txs[u].snapshot, t.txs[v].snapshot) ||
              SawNoMore(t.rows, t.txs[v].snapshot, t.txs[u].snapshot)
    {
      assert newRow !in t.txs[u].snapshot && newRow !in t.txs[v].snapshot;
      if SawNoMore(s.rows, s.txs[u].snapshot, s.txs[v].snapshot) {
        assert SawNoMore(t.rows, t.txs[u].snapshot, t.txs[v].snapshot);
      } else {
        assert SawNoMore(t.rows, t.txs[v].snapshot, t.txs[u].snapshot);
      }
    }
    forall r | r in s.rows ensures s.rows[r].user != member.user {
      assert !IsOf(s.rows, member.user, r);
    }
  }

  lemma FewerRowsStayNested(rows: map<Id, Row>, rows': map<Id, Row>, txs: map<Id, Tx>, txs': map<Id, Tx>)
    requires Nested(rows, txs) && rows'.Keys <= rows.Keys
    requires txs'.Keys <= txs.Keys && forall t :: t in txs' ==> txs'[t] == txs[t]
    ensures Nested(rows', txs')
  {
    forall t, u | t in txs' && u in txs'
      ensures SawNoMore(rows', txs'[t].snapshot, txs'[u].snapshot) ||
              SawNoMore(rows', txs'[u].snapshot, txs'[t].snapshot)
    {
      if SawNoMore(rows, txs[t].snapshot, txs[u].snapshot) {
        assert SawNoMore(rows', txs'[t].snapshot, txs'[u].snapshot);
      } else {
        assert SawNoMore(rows', txs'[u].snapshot, txs'[t].snapshot);
      }
    }
  }

  lemma CommitKeepsDiscipline(s: State, tx: Id)
    requires Disciplined(s) && Enabled(s, Commit(tx))
    ensures Disciplined(AfterCommit(s, tx))
  {
    var t := AfterCommit(s, tx);
    var row := s.txs[tx].phase.row;
    assert LocksOfTx(s.rows, s.locks, tx, s.txs[tx]);
    forall u | u in t.txs ensures LocksOfTx(t.rows, t.locks, u, t.txs[u]) {
      assert LocksOfTx(s.rows, s.locks, u, s.txs[u]);
    }
    FewerRowsStayNested(s.rows, t.rows, s.txs, t.txs);
  }

  lemma StepKeepsDiscipline(s: State, step: Step)
    requires Disciplined(s) && Enabled(s, step)
    ensures Disciplined(Next(s, step))
  {
    match step
    case Begin(tx, op) => BeginKeepsDiscipline(s, tx, op);
    case Lock(tx, row) => LockKeepsDiscipline(s, tx, row);
    case Read(tx, found) =>
      EndingKeepsDiscipline(s, tx);
      PhaseKeepsDiscipline(s, tx, Counting);
      PhaseKeepsDiscipline(s, tx, Writing);
    case Count(tx) =>
      EndingKeepsDiscipline(s, tx);
      if |Owners(s.rows)| > 1 {
        PhaseKeepsDiscipline(s, tx, Writing);
      }
    case Write(tx, row) => WriteKeepsDiscipline(s, tx, row);
    case Commit(tx) => CommitKeepsDiscipline(s, tx);
    case Abort(tx) => EndingKeepsDiscipline(s, tx);
    case Join(newRow, member) => JoinKeepsDiscipline(s, newRow, member);
  }

  // ---- What the locks are worth ----

  /** A finished lock holds exactly those rows of its snapshot that still exist. */
  lemma FinishedLockHoldsTheSurvivors(s: State, t: Id)
    requires Disciplined(s) && t in s.txs && s.txs[t].phase == Locking({})
    ensures (set r | r in s.locks && s.locks[r] == t) == s.txs[t].snapshot * s.rows.Keys
    ensures HoldsSome(s.locks, t, s.txs[t]) <==> s.txs[t].snapshot * s.rows.Keys != {}
  {
    assert LocksOfTx(s.rows, s.locks, t, s.txs[t]);
    var held := set r | r in s.locks && s.locks[r] == t;
    assert held == s.txs[t].snapshot * s.rows.Keys;
    if held != {} {
      var r :| r in held;
      assert r in s.locks && s.locks[r] == t && r in s.txs[t].snapshot;
    }
  }

  /** Whatever the older of two finished transactions saw and is still there, the younger holds. */
  lemma YoungerHoldsAll(s: State, t: Id, u: Id)
    requires Disciplined(s) && t in s.txs && u in s.txs && t != u
    requires Pending(s.txs[u]) == {}
    requires SawNoMore(s.rows, s.txs[t].snapshot, s.txs[u].snapshot)
    ensures !HoldsSome(s.locks, t, s.txs[t])
  {
    assert LocksOfTx(s.rows, s.locks, u, s.txs[u]);
    forall r | r in s.locks && r in s.txs[t].snapshot ensures s.locks[r] == u {
      assert r in s.rows && r in s.txs[u].snapshot;
    }
  }

  /** Two transactions are never past their locks together, unless one of the locks came back empty. */
  lemma LocksExclude(s: State, t: Id, u: Id)
    requires Disciplined(s) && t in s.txs && u in s.txs && t != u
    requires Pending(s.txs[t]) == {} && Pending(s.txs[u]) == {}
    ensures !HoldsSome(s.locks, t, s.txs[t]) || !HoldsSome(s.locks, u, s.txs[u])
  {
    if SawNoMore(s.rows, s.txs[t].snapshot, s.txs[u].snapshot) {
      YoungerHoldsAll(s, t, u);
    } else {
      YoungerHoldsAll(s, u, t);
    }
  }

  // ---- The last owner ----

  lemma MoreOwners(rows: map<Id, Row>, newRow: Id, member: Row)
    requires newRow !in rows
    ensures Owners(rows) <= Owners(rows[newRow := member])
    ensures |Owners(rows[newRow := member])| >= |Owners(rows)|
    ensures member.role == Owner && member.active ==> |Owners(rows[newRow := member])| == |Owners(rows)| + 1
  {
    var after := Owners(rows[newRow := member]);
    SubsetIsNoLarger(Owners(rows), after);
    if member.role == Owner && member.active {
      assert after == Owners(rows) + {newRow};
    }
  }

  lemma JoinSparesOwners(rows: map<Id, Row>, newRow: Id, member: Row, x: Tx)
    requires newRow !in rows && Owners(rows) != {} && SparesAnOwner(rows, x)
    ensures SparesAnOwner(rows[newRow := member], x)
  {
    MoreOwners(rows, newRow, member);
    var after := rows[newRow := member];
    assert |Owners(rows)| >= 1;
    match x.phase
    case Writing =>
      forall r | IsOf(after, x.op.target, r) && ActiveOwner(after, r) ensures |Owners(after)| >= 2 {
        if r != newRow {
          assert IsOf(rows, x.op.target, r) && ActiveOwner(rows, r);
        }
      }
    case Written(r) => assert r in Owners(after) ==> r in Owners(rows);
    case _ =>
  }

  lemma JoinKeepsOwned(s: State, newRow: Id, member: Row)
    requires Disciplined(s) && Owned(s) && Enabled(s, Join(newRow, member))
    ensures Owned(Next(s, Join(newRow, member)))
  {
    MoreOwners(s.rows, newRow, member);
    var t := Next(s, Join(newRow, member));
    forall u | u in t.txs ensures TxOwned(t.rows, t.locks, u, t.txs[u]) {
      assert TxOwned(s.rows, s.locks, u, s.txs[u]);
      JoinSparesOwners(s.rows, newRow, member, s.txs[u]);
    }
  }

  lemma StillHoldsSome(locks: map<Id, Id>, locks': map<Id, Id>, t: Id, x: Tx, x': Tx)
    requires HoldsSome(locks, t, x) && x'.snapshot == x.snapshot
    requires forall r :: r in locks && locks[r] == t ==> r in locks' && locks'[r] == t
    ensures HoldsSome(locks', t, x')
  {
    var r :| r in locks && locks[r] == t && r in x.snapshot;
    assert r in locks' && locks'[r] == t && r in x'.snapshot;
  }

  /** Releasing or taking locks costs nobody else theirs. */
  lemma OthersStayOwned(s: State, t: State, tx: Id)
    requires Owned(s) && t.rows == s.rows
    requires forall u :: u in t.txs && u != tx ==> u in s.txs && t.txs[u] == s.txs[u]
    requires forall r :: r in s.locks && s.locks[r] != tx ==> r in t.locks && t.locks[r] == s.locks[r]
    ensures forall u :: u in t.txs && u != tx ==> TxOwned(t.rows, t.locks, u, t.txs[u])
  {
    forall u | u in t.txs && u != tx ensures TxOwned(t.rows, t.locks, u, t.txs[u]) {
      assert TxOwned(s.rows, s.locks, u, s.txs[u]);
      if HoldsSome(s.locks, u, s.txs[u]) {
        StillHoldsSome(s.locks, t.locks, u, s.txs[u], t.txs[u]);
      }
    }
  }

  lemma TakingAwayOne(rows: map<Id, Row>, row: Id, change: Change)
    requires row in rows && Owners(rows) != {}
    requires row in Owners(rows) ==> |Owners(rows)| >= 2
    ensures Owners(Applied(rows, row, change)) != {}
  {
    var after := Owners(Applied(rows, row, change));
    assert Owners(rows) - {row} <= after;
    if row in Owners(rows) {
      assert |Owners(rows) - {row}| >= 1;
    }
    assert Owners(rows) - {row} != {};
  }

  /** The committing transaction is the only one past its locks, and it counted what it takes from. */
  lemma CommitKeepsOwned(s: State, tx: Id)
    requires Disciplined(s) && Owned(s) && Enabled(s, Commit(tx))
    ensures Owned(AfterCommit(s, tx))
  {
    var t := AfterCommit(s, tx);
    assert TxOwned(s.rows, s.locks, tx, s.txs[tx]);
    TakingAwayOne(s.rows, s.txs[tx].phase.row, s.txs[tx].op.change);
    forall u | u in t.txs ensures TxOwned(t.rows, t.locks, u, t.txs[u]) {
      assert TxOwned(s.rows, s.locks, u, s.txs[u]);
      if Engaged(s.txs[u]) {
        LocksExclude(s, tx, u);
      }
    }
  }

  lemma ReadKeepsOwned(s: State, tx: Id, found: Option<Id>)
    requires Disciplined(s) && Owned(s) && Enabled(s, Read(tx, found))
    requires HoldsSome(s.locks, tx, s.txs[tx])
    ensures Owned(AfterRead(s, tx, found))
  {
    var t := AfterRead(s, tx, found);
    OthersStayOwned(s, t, tx);
    if tx in t.txs {
      StillHoldsSome(s.locks, t.locks, tx, s.txs[tx], t.txs[tx]);
    }
  }

  lemma CountKeepsOwned(s: State, tx: Id)
    requires Disciplined(s) && Owned(s) && Enabled(s, Count(tx))
    ensures Owned(Next(s, Count(tx)))
  {
    var t := Next(s, Count(tx));
    OthersStayOwned(s, t, tx);
    assert TxOwned(s.rows, s.locks, tx, s.txs[tx]);
    if tx in t.txs {
      StillHoldsSome(s.locks, t.locks, tx, s.txs[tx], t.txs[tx]);
    }
  }

  lemma WriteKeepsOwned(s: State, tx: Id, row: Id)
    requires Disciplined(s) && Owned(s) && Enabled(s, Write(tx, row))
    ensures Owned(Next(s, Write(tx, row)))
  {
    var t := Next(s, Write(tx, row));
    OthersStayOwned(s, t, tx);
    assert TxOwned(s.rows, s.locks, tx, s.txs[tx]);
    StillHoldsSome(s.locks, t.locks, tx, s.txs[tx], t.txs[tx]);
  }

  lemma LockKeepsOwned(s: State, tx: Id, row: Id)
    requires Owned(s) && Enabled(s, Lock(tx, row))
    ensures Owned(AfterLock(s, tx, row))
  {
    OthersStayOwned(s, AfterLock(s, tx, row), tx);
  }

  lemma BeginKeepsOwned(s: State, tx: Id, op: Op)
    requires Owned(s) && Enabled(s, Begin(tx, op))
    ensures Owned(Next(s, Begin(tx, op)))
  {
    OthersStayOwned(s, Next(s, Begin(tx, op)), tx);
  }

  lemma AbortKeepsOwned(s: State, tx: Id)
    requires Owned(s) && tx in s.txs
    ensures Owned(Ended(s, tx))
  {
    OthersStayOwned(s, Ended(s, tx), tx);
  }

  lemma StepKeepsOwned(s: State, step: Step)
    requires Disciplined(s) && Owned(s) && Enabled(s, step)
    requires step.Read? ==> HoldsSome(s.locks, step.tx, s.txs[step.tx])
    ensures Owned(Next(s, step))
  {
    match step
    case Begin(tx, op) => BeginKeepsOwned(s, tx, op);
    case Lock(tx, row) => LockKeepsOwned(s, tx, row);
    case Read(tx, found) => ReadKeepsOwned(s, tx, found);
    case Count(tx) => CountKeepsOwned(s, tx);
    case Write(tx, row) => WriteKeepsOwned(s, tx, row);
    case Commit(tx) => CommitKeepsOwned(s, tx);
    case Abort(tx) => AbortKeepsOwned(s, tx);
    case Join(newRow, member) => JoinKeepsOwned(s, newRow, member);
  }

  // ---- Whole runs ----

  ghost predicate IsRun(s: State, steps: seq<Step>)
    decreases |steps|
  {
    steps == [] || (Enabled(s, steps[0]) && IsRun(Next(s, steps[0]), steps[1..]))
  }

  ghost function After(s: State, steps: seq<Step>): State
    requires IsRun(s, steps)
    decreases |steps|
  {
    if steps == [] then s else After(Next(s, steps[0]), steps[1..])
  }

  /** Whenever a transaction looks for its target, one of the rows it set out to lock is still a member's. */
  ghost predicate NoEmptyLock(s: State, steps: seq<Step>)
    requires IsRun(s, steps)
    decreases |steps|
  {
    steps == [] ||
    (&& (steps[0].Read? ==> s.txs[steps[0].tx].snapshot * s.rows.Keys != {})
     && NoEmptyLock(Next(s, steps[0]), steps[1..]))
  }

  /** Nobody is changing anything yet. */
  ghost predicate Quiet(s: State) {
    s.txs == map[] && s.locks == map[] && s.rows.Keys <= s.issued && OneRowEach(s.rows)
  }

  lemma {:induction false} RunKeepsOwned(s: State, steps: seq<Step>)
    requires Disciplined(s) && Owned(s) && IsRun(s, steps) && NoEmptyLock(s, steps)
    ensures Owned(After(s, steps))
    decreases |steps|
  {
    if steps != [] {
      if steps[0].Read? {
        FinishedLockHoldsTheSurvivors(s, steps[0].tx);
      }
      StepKeepsDiscipline(s, steps[0]);
      StepKeepsOwned(s, steps[0]);
      RunKeepsOwned(Next(s, steps[0]), steps[1..]);
    }
  }

  /** A claimed workspace keeps an active owner, however demotions, removals and arrivals interleave. */
  lemma ClaimedWorkspaceKeepsAnOwner(s: State, steps: seq<Step>)
    requires Quiet(s) && Owners(s.rows) != {}
    requires IsRun(s, steps) && NoEmptyLock(s, steps)
    ensures Owners(After(s, steps).rows) != {}
  {
    RunKeepsOwned(s, steps);
  }

  /** The membership `row` is there before every step of the run. */
  ghost predicate Stays(s: State, steps: seq<Step>, row: Id)
    requires IsRun(s, steps)
    decreases |steps|
  {
    row in s.rows && (steps == [] || Stays(Next(s, steps[0]), steps[1..], row))
  }

  lemma AStayerIsSeen(s: State, step: Step, row: Id)
    requires Enabled(s, step) && row in s.rows
    requires forall t :: t in s.txs ==> row in s.txs[t].snapshot
    ensures forall t :: t in Next(s, step).txs ==> row in Next(s, step).txs[t].snapshot
  {
  }

  lemma {:induction false} AStayerFillsEveryLock(s: State, steps: seq<Step>, row: Id)
    requires IsRun(s, steps) && Stays(s, steps, row)
    requires forall t :: t in s.txs ==> row in s.txs[t].snapshot
    ensures NoEmptyLock(s, steps)
    decreases |steps|
  {
    if steps != [] {
      if steps[0].Read? {
        assert row in s.txs[steps[0].tx].snapshot * s.rows.Keys;
      }
      AStayerIsSeen(s, steps[0], row);
      AStayerFillsEveryLock(Next(s, steps[0]), steps[1..], row);
    }
  }

  /** One member who is never removed is enough, whatever their role: the workspace keeps an owner. */
  lemma OneStayerIsEnough(s: State, steps: seq<Step>, row: Id)
    requires Quiet(s) && Owners(s.rows) != {}
    requires IsRun(s, steps) && Stays(s, steps, row)
    ensures Owners(After(s, steps).rows) != {}
  {
    AStayerFillsEveryLock(s, steps, row);
    ClaimedWorkspaceKeepsAnOwner(s, steps);
  }
}
