/** No claimed workspace is immune: one empty lock and two newcomers are enough to lose every owner. */
module LastOwnerLoss {
  import opened Prelude
  import opened Quiz
  import opened LastOwner
  import opened LastOwnerSafety

  ghost predicate Reaches(s: State, t: State) {
    exists steps :: IsRun(s, steps) && After(s, steps) == t
  }

  lemma {:induction false} RunsCompose(s: State, first: seq<Step>, rest: seq<Step>)
    requires IsRun(s, first) && IsRun(After(s, first), rest)
    ensures IsRun(s, first + rest) && After(s, first + rest) == After(After(s, first), rest)
    decreases |first|
  {
    if first == [] {
      assert first + rest == rest;
    } else {
      RunsCompose(Next(s, first[0]), first[1..], rest);
      assert (first + rest)[1..] == first[1..] + rest;
    }
  }

  lemma ReachesSelf(s: State)
    ensures Reaches(s, s)
  {
    assert IsRun(s, []) && After(s, []) == s;
  }

  lemma ReachesThen(s: State, t: State, step: Step)
    requires Reaches(s, t) && Enabled(t, step)
    ensures Reaches(s, Next(t, step))
  {
    var steps :| IsRun(s, steps) && After(s, steps) == t;
    assert [step][1..] == [];
    assert IsRun(Next(t, step), []);
    assert IsRun(t, [step]) && After(t, [step]) == Next(t, step);
    RunsCompose(s, steps, [step]);
  }

  lemma ReachesOn(s: State, t: State, u: State)
    requires Reaches(s, t) && Reaches(t, u)
    ensures Reaches(s, u)
  {
    var first :| IsRun(s, first) && After(s, first) == t;
    var rest :| IsRun(t, rest) && After(t, rest) == u;
    RunsCompose(s, first, rest);
  }

  // ---- One transaction running alone ----

  ghost function Taken(rows: map<Id, Row>, pending: set<Id>, tx: Id): map<Id, Id> {
    map q | q in pending && q in rows :: tx
  }

  /** Whatever is left of the snapshot gets locked, and whatever is gone is passed over. */
  ghost function LockedUp(s: State, tx: Id): State
    requires tx in s.txs && s.txs[tx].phase.Locking?
  {
    InPhase(s, tx, Locking({})).(locks := s.locks + Taken(s.rows, s.txs[tx].phase.pending, tx))
  }

  lemma NothingLeftToLock(s: State, tx: Id)
    requires tx in s.txs && s.txs[tx].phase == Locking({})
    ensures LockedUp(s, tx) == s
  {
    assert Taken(s.rows, {}, tx) == map[];
    assert s.txs[tx := s.txs[tx].(phase := Locking({}))] == s.txs;
  }

  lemma LockingOneFirst(s: State, tx: Id, q: Id)
    requires tx in s.txs && s.txs[tx].phase.Locking? && q in s.txs[tx].phase.pending
    ensures LockedUp(AfterLock(s, tx, q), tx) == LockedUp(s, tx)
  {
    var t := AfterLock(s, tx, q);
    assert LockedUp(t, tx).locks == LockedUp(s, tx).locks;
    assert LockedUp(t, tx).txs == LockedUp(s, tx).txs;
  }

  lemma {:induction false} CanFinishLocking(s: State, tx: Id)
    requires tx in s.txs && s.txs[tx].phase.Locking?
    requires forall q :: q in s.locks ==> s.locks[q] == tx
    ensures Reaches(s, LockedUp(s, tx))
    decreases |s.txs[tx].phase.pending|
  {
    var pending := s.txs[tx].phase.pending;
    if pending == {} {
      NothingLeftToLock(s, tx);
      ReachesSelf(s);
    } else {
      var q :| q in pending;
      var t := AfterLock(s, tx, q);
      ReachesSelf(s);
      ReachesThen(s, s, Lock(tx, q));
      CanFinishLocking(t, tx);
      LockingOneFirst(s, tx, q);
      ReachesOn(s, t, LockedUp(t, tx));
    }
  }

  /** Past its lock, a transaction that may take the row away can go on to the write. */
  lemma CanGoOnToWrite(s: State, tx: Id, row: Id)
    requires tx in s.txs && s.txs[tx].phase == Locking({})
    requires IsOf(s.rows, s.txs[tx].op.target, row)
    requires s.txs[tx].op.actorRole == Owner && s.txs[tx].op.change == Out
    requires s.rows[row].role == Owner ==> |Owners(s.rows)| >= 2
    ensures Reaches(s, InPhase(s, tx, Writing))
  {
    var t := AfterRead(s, tx, Some(row));
    ReachesSelf(s);
    ReachesThen(s, s, Read(tx, Some(row)));
    if s.rows[row].role == Owner {
      ReachesThen(s, t, Count(tx));
      assert Next(t, Count(tx)).txs == InPhase(s, tx, Writing).txs;
    }
  }

  lemma CanWriteAndCommit(s: State, tx: Id, row: Id)
    requires tx in s.txs && s.txs[tx].phase == Writing && s.txs[tx].op.change == Out
    requires IsOf(s.rows, s.txs[tx].op.target, row)
    requires forall q :: q in s.locks ==> s.locks[q] == tx
    ensures Reaches(s, s.(rows := s.rows - {row}, txs := s.txs - {tx}, locks := map[]))
  {
    var t := Next(s, Write(tx, row));
    ReachesSelf(s);
    ReachesThen(s, s, Write(tx, row));
    ReachesThen(s, t, Commit(tx));
    var u := Next(t, Commit(tx));
    assert u.txs == s.txs - {tx};
    assert u.locks == map[];
  }

  /** With no locks held, an owner can remove anybody else who is not the last owner. */
  lemma CanRemove(s: State, tx: Id, actor: Id, row: Id)
    requires s.locks == map[] && tx !in s.txs
    requires row in s.rows && s.rows[row].user != actor
    requires s.rows[row].role == Owner ==> |Owners(s.rows)| >= 2
    ensures Reaches(s, s.(rows := s.rows - {row}))
  {
    var op := Op(actor, Owner, s.rows[row].user, Out);
    var s1 := Next(s, Begin(tx, op));
    ReachesSelf(s);
    ReachesThen(s, s, Begin(tx, op));
    CanFinishLocking(s1, tx);
    var s2 := LockedUp(s1, tx);
    ReachesOn(s, s1, s2);
    CanGoOnToWrite(s2, tx, row);
    var s3 := InPhase(s2, tx, Writing);
    ReachesOn(s, s2, s3);
    CanWriteAndCommit(s3, tx, row);
    var s4 := s3.(rows := s3.rows - {row}, txs := s3.txs - {tx}, locks := map[]);
    ReachesOn(s, s3, s4);
    assert s3.txs - {tx} == s.txs;
  }

  lemma {:induction false} CanRemoveAll(s: State, tx: Id, rows: set<Id>, b: Id, c: Id)
    requires s.locks == map[] && tx !in s.txs
    requires rows <= s.rows.Keys && b !in rows && c !in rows && b != c
    requires b in Owners(s.rows) && c in Owners(s.rows)
    requires forall r :: r in rows ==> s.rows[r].user != s.rows[b].user
    ensures Reaches(s, s.(rows := s.rows - rows))
    decreases |rows|
  {
    if rows == {} {
      assert s.rows - rows == s.rows;
      ReachesSelf(s);
    } else {
      var r :| r in rows;
      SubsetIsNoLarger({b, c}, Owners(s.rows));
      CanRemove(s, tx, s.rows[b].user, r);
      var t := s.(rows := s.rows - {r});
      CanRemoveAll(t, tx, rows - {r}, b, c);
      assert t.rows - (rows - {r}) == s.rows - rows;
      ReachesOn(s, t, t.(rows := t.rows - (rows - {r})));
    }
  }

  // ---- The loss ----

  ghost function Users(rows: map<Id, Row>): set<Id> {
    set r | r in rows :: rows[r].user
  }

  /** A removal of `c` is about to lock the rows of `s`, and owners `b` and `c` have joined meanwhile. */
  ghost function Stalled(s: State, tx: Id, op: Op, b: Id, userB: Id, c: Id, userC: Id): State {
    State(s.rows[b := Row(userB, Owner, true)][c := Row(userC, Owner, true)], map[],
          map[tx := Tx(op, s.rows.Keys, Locking(s.rows.Keys))], s.issued + {b} + {c})
  }

  lemma CanStall(s: State, tx: Id, op: Op, b: Id, userB: Id, c: Id, userC: Id)
    requires Quiet(s) && Admitted(op)
    requires b !in s.issued && c !in s.issued && b != c
    requires userB !in Users(s.rows) && userC !in Users(s.rows) && userB != userC
    ensures Reaches(s, Stalled(s, tx, op, b, userB, c, userC))
  {
    ReachesSelf(s);
    ReachesThen(s, s, Begin(tx, op));
    var s1 := Next(s, Begin(tx, op));
    forall r | r in s.rows ensures s.rows[r].user != userB && s.rows[r].user != userC {
      assert s.rows[r].user in Users(s.rows);
    }
    ReachesThen(s, s1, Join(b, Row(userB, Owner, true)));
    var s2 := Next(s1, Join(b, Row(userB, Owner, true)));
    ReachesThen(s, s2, Join(c, Row(userC, Owner, true)));
    assert Next(s2, Join(c, Row(userC, Owner, true))) == Stalled(s, tx, op, b, userB, c, userC);
  }

  /** Everyone the stalled removal meant to lock is gone: its lock is empty, and it may go on to the write. */
  lemma StalledPassesItsEmptyLock(s: State, tx: Id, op: Op, snapshot: set<Id>, c: Id)
    requires s.locks == map[] && s.txs == map[tx := Tx(op, snapshot, Locking(snapshot))]
    requires snapshot !! s.rows.Keys
    requires op.actorRole == Owner && op.change == Out && IsOf(s.rows, op.target, c)
    requires |Owners(s.rows)| >= 2
    ensures Reaches(s, s.(txs := map[tx := Tx(op, snapshot, Writing)]))
  {
    CanFinishLocking(s, tx);
    var t := LockedUp(s, tx);
    assert t.locks == map[] && t.txs == map[tx := Tx(op, snapshot, Locking({}))];
    CanGoOnToWrite(t, tx, c);
    var u := InPhase(t, tx, Writing);
    assert u == s.(txs := map[tx := Tx(op, snapshot, Writing)]);
    ReachesOn(s, t, u);
  }

  /** The newcomer `c` removes `b` past the empty lock, and the stalled removal then takes `c`. */
  lemma BothTakeTheOther(s: State, tx: Id, other: Id, op: Op, snapshot: set<Id>, b: Id, c: Id)
    requires s.locks == map[] && s.txs == map[tx := Tx(op, snapshot, Writing)] && other != tx
    requires s.rows.Keys == {b, c} && b != c && s.rows[b].user != s.rows[c].user
    requires Owners(s.rows) == {b, c}
    requires op.change == Out && op.target == s.rows[c].user
    ensures Reaches(s, s.(rows := map[], txs := map[]))
  {
    CanRemove(s, other, s.rows[c].user, b);
    var t := s.(rows := s.rows - {b});
    CanWriteAndCommit(t, tx, c);
    assert t.rows - {c} == map[] && t.txs - {tx} == map[];
    ReachesOn(s, t, s.(rows := map[], txs := map[]));
  }

  /**
   From every claimed workspace some run leaves no owner: an owner's request waits for its locks while two
   owners join and everyone it is waiting for is removed, and then takes one newcomer as that one takes the
   other.
   */
  lemma NoWorkspaceIsImmune(s: State) returns (t: State)
    requires Quiet(s) && Owners(s.rows) != {}
    ensures Reaches(s, t) && Owners(t.rows) == {}
  {
    var owner :| owner in Owners(s.rows);
    var b := AnUnusedId(s.issued);
    var userB := AnUnusedId(Users(s.rows));
    var c, userC := b + 1, userB + 1;
    var op := Op(s.rows[owner].user, Owner, userC, Out);
    assert op.actor in Users(s.rows);
    CanStall(s, 1, op, b, userB, c, userC);
    var s1 := Stalled(s, 1, op, b, userB, c, userC);
    forall r | r in s.rows.Keys ensures s1.rows[r].user != userB {
      assert s.rows[r].user in Users(s.rows) && s1.rows[r] == s.rows[r];
    }
    CanRemoveAll(s1, 2, s.rows.Keys, b, c);
    var s2 := s1.(rows := s1.rows - s.rows.Keys);
    ReachesOn(s, s1, s2);
    assert s2.rows.Keys == {b, c} && Owners(s2.rows) == {b, c};
    StalledPassesItsEmptyLock(s2, 1, op, s.rows.Keys, c);
    var s3 := s2.(txs := map[1 := Tx(op, s.rows.Keys, Writing)]);
    ReachesOn(s, s2, s3);
    BothTakeTheOther(s3, 1, 2, op, s.rows.Keys, b, c);
    t := s3.(rows := map[], txs := map[]);
    ReachesOn(s, s3, t);
  }

  // ---- Exactly what is enough ----

  ghost predicate AllStay(s: State, steps: seq<Step>, rows: set<Id>)
    requires IsRun(s, steps)
  {
    forall row :: row in rows ==> Stays(s, steps, row)
  }

  /** Knowing who stays throughout guarantees an owner at the end exactly when it is anybody at all. */
  lemma StayersKeepAnOwnerIff(s: State, rows: set<Id>)
    requires Quiet(s) && Owners(s.rows) != {}
    ensures (forall steps :: IsRun(s, steps) && AllStay(s, steps, rows) ==> Owners(After(s, steps).rows) != {})
            <==> rows != {}
  {
    if rows == {} {
      var t := NoWorkspaceIsImmune(s);
      var steps :| IsRun(s, steps) && After(s, steps) == t;
      assert AllStay(s, steps, rows);
    } else {
      var row :| row in rows;
      forall steps | IsRun(s, steps) && AllStay(s, steps, rows) ensures Owners(After(s, steps).rows) != {} {
        OneStayerIsEnough(s, steps, row);
      }
    }
  }
}
