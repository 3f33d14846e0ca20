/**
 Claiming an unclaimed workspace. Registrations interleave statement by statement, as in module LastOwner: each
 locks the memberships its snapshot showed, asks whether there are any, and if not inserts its own as owner.
 */
module Registration {
  import opened Prelude
  import opened Quiz
  import opened LastOwner

  /** How far a registration has got: locking what its snapshot showed, or past its check and about to insert. */
  datatype Progress = Waiting(pending: set<Id>) | Cleared

  datatype Workspace = Workspace(rows: map<Id, Row>, locks: map<Id, Id>, open: map<Id, Progress>)

  datatype Move =
    | Register(tx: Id)
    | Hold(tx: Id, row: Id)
    | Ask(tx: Id)
    | Insert(tx: Id, newRow: Id, user: Id)
    | Fail(tx: Id)

  ghost predicate Allowed(s: Workspace, move: Move) {
    match move
    case Register(tx) => tx !in s.open
    case Hold(tx, row) =>
      && tx in s.open && s.open[tx].Waiting? && row in s.open[tx].pending
      && (row in s.rows && row in s.locks ==> s.locks[row] == tx)
    case Ask(tx) => tx in s.open && s.open[tx] == Waiting({})
    case Insert(tx, newRow, user) =>
      && tx in s.open && s.open[tx] == Cleared
      && newRow !in s.rows && forall r :: !IsOf(s.rows, user, r)
    case Fail(tx) => tx in s.open
  }

  function Closed(s: Workspace, tx: Id): Workspace {
    s.(open := s.open - {tx}, locks := map r | r in s.locks && s.locks[r] != tx :: s.locks[r])
  }

  function Held(s: Workspace, tx: Id, row: Id): Workspace
    requires tx in s.open && s.open[tx].Waiting?
  {
    s.(open := s.open[tx := Waiting(s.open[tx].pending - {row})],
       locks := if row in s.rows then s.locks[row := tx] else s.locks)
  }

  /** A workspace with any member is closed to registration. */
  function Asked(s: Workspace, tx: Id): Workspace {
    if s.rows != map[] then Closed(s, tx) else s.(open := s.open[tx := Cleared])
  }

  ghost function Moved(s: Workspace, move: Move): Workspace
    requires Allowed(s, move)
  {
    match move
    case Register(tx) => s.(open := s.open[tx := Waiting(s.rows.Keys)])
    case Hold(tx, row) => Held(s, tx, row)
    case Ask(tx) => Asked(s, tx)
    case Insert(tx, newRow, user) => Closed(s.(rows := s.rows[newRow := Row(user, Owner, true)]), tx)
    case Fail(tx) => Closed(s, tx)
  }

  ghost predicate IsRun(s: Workspace, moves: seq<Move>)
    decreases |moves|
  {
    moves == [] || (Allowed(s, moves[0]) && IsRun(Moved(s, moves[0]), moves[1..]))
  }

  ghost function After(s: Workspace, moves: seq<Move>): Workspace
    requires IsRun(s, moves)
    decreases |moves|
  {
    if moves == [] then s else After(Moved(s, moves[0]), moves[1..])
  }

  /** The registrations past their check. */
  function PastCheck(open: map<Id, Progress>): set<Id> {
    set tx | tx in open && open[tx] == Cleared
  }

  /** At most `m` registrations are past their check at once, at any point of the run. */
  ghost predicate OverlapAtMost(s: Workspace, moves: seq<Move>, m: nat)
    requires IsRun(s, moves)
    decreases |moves|
  {
    && |PastCheck(s.open)| <= m
    && (moves == [] || OverlapAtMost(Moved(s, moves[0]), moves[1..], m))
  }

  // ---- No more owners than registrations overlapped ----

  lemma RemovingOne(open: map<Id, Progress>, tx: Id)
    ensures PastCheck(open - {tx}) == PastCheck(open) - {tx}
  {
  }

  lemma ClosingKeepsBudget(s: Workspace, tx: Id)
    ensures |PastCheck(Closed(s, tx).open)| <= |PastCheck(s.open)|
    ensures tx in PastCheck(s.open) ==> |PastCheck(Closed(s, tx).open)| < |PastCheck(s.open)|
  {
    RemovingOne(s.open, tx);
    SubsetIsNoLarger(PastCheck(s.open) - {tx}, PastCheck(s.open));
  }

  lemma OneMoreRow(rows: map<Id, Row>, r: Id, row: Row)
    requires r !in rows
    ensures |rows[r := row]| == |rows| + 1
  {
    assert rows[r := row].Keys == rows.Keys + {r};
    assert |rows[r := row].Keys| == |rows.Keys| + 1;
  }

  lemma MoveKeepsBudget(s: Workspace, move: Move, m: nat)
    requires Allowed(s, move) && |s.rows| + |PastCheck(s.open)| <= m
    requires |PastCheck(Moved(s, move).open)| <= m
    ensures |Moved(s, move).rows| + |PastCheck(Moved(s, move).open)| <= m
  {
    match move
    case Register(tx) => assert PastCheck(Moved(s, move).open) == PastCheck(s.open);
    case Hold(tx, row) => assert PastCheck(Moved(s, move).open) == PastCheck(s.open);
    case Ask(tx) => ClosingKeepsBudget(s, tx);
    case Insert(tx, newRow, user) =>
      OneMoreRow(s.rows, newRow, Row(user, Owner, true));
      ClosingKeepsBudget(s.(rows := s.rows[newRow := Row(user, Owner, true)]), tx);
    case Fail(tx) => ClosingKeepsBudget(s, tx);
  }

  lemma {:induction false} RunKeepsBudget(s: Workspace, moves: seq<Move>, m: nat)
    requires IsRun(s, moves) && OverlapAtMost(s, moves, m)
    requires |s.rows| + |PastCheck(s.open)| <= m
    ensures |After(s, moves).rows| <= m
    decreases |moves|
  {
    if moves != [] {
      MoveKeepsBudget(s, moves[0], m);
      RunKeepsBudget(Moved(s, moves[0]), moves[1..], m);
    }
  }

  lemma OwnersAreRows(rows: map<Id, Row>)
    ensures |Owners(rows)| <= |rows|
  {
    SubsetIsNoLarger(Owners(rows), rows.Keys);
  }

  /** An unclaimed workspace never gets more owners than registrations were past their check at once. */
  lemma OwnersNeverExceedTheOverlap(s: Workspace, moves: seq<Move>, m: nat)
    requires s.rows == map[]
    requires IsRun(s, moves) && OverlapAtMost(s, moves, m)
    ensures |Owners(After(s, moves).rows)| <= |After(s, moves).rows| <= m
  {
    RunKeepsBudget(s, moves, m);
    OwnersAreRows(After(s, moves).rows);
  }

  // ---- And as many as that ----

  lemma {:induction false} OneMoreMove(s: Workspace, moves: seq<Move>, move: Move, m: nat)
    requires IsRun(s, moves) && OverlapAtMost(s, moves, m) && Allowed(After(s, moves), move)
    requires |PastCheck(Moved(After(s, moves), move).open)| <= m
    ensures IsRun(s, moves + [move]) && After(s, moves + [move]) == Moved(After(s, moves), move)
    ensures OverlapAtMost(s, moves + [move], m)
    decreases |moves|
  {
    if moves == [] {
      assert [] + [move] == [move] && [move][1..] == [];
      assert IsRun(Moved(s, move), []);
    } else {
      OneMoreMove(Moved(s, moves[0]), moves[1..], move, m);
      assert (moves + [move])[1..] == moves[1..] + [move];
    }
  }

  lemma {:induction false} WiderOverlap(s: Workspace, moves: seq<Move>, m: nat, k: nat)
    requires IsRun(s, moves) && OverlapAtMost(s, moves, m) && m <= k
    ensures OverlapAtMost(s, moves, k)
    decreases |moves|
  {
    if moves != [] {
      WiderOverlap(Moved(s, moves[0]), moves[1..], m, k);
    }
  }

  lemma ClearingOne(open: map<Id, Progress>, tx: Id)
    requires tx !in open
    ensures PastCheck(open[tx := Waiting({})]) == PastCheck(open)
    ensures PastCheck(open[tx := Cleared]) == PastCheck(open) + {tx}
    ensures |PastCheck(open[tx := Cleared])| == |PastCheck(open)| + 1
  {
  }

  /** With no member there is no row to lock, so a newcomer is past its check at once, whoever else is. */
  lemma NewcomerIsCleared(s: Workspace, tx: Id)
    requires s.rows == map[] && tx !in s.open
    ensures Moved(s, Register(tx)) == s.(open := s.open[tx := Waiting({})])
    ensures Allowed(Moved(s, Register(tx)), Ask(tx))
    ensures Moved(Moved(s, Register(tx)), Ask(tx)) == s.(open := s.open[tx := Cleared])
  {
    assert s.rows.Keys == {};
    assert s.open[tx := Waiting({})][tx := Cleared] == s.open[tx := Cleared];
  }

  lemma OneMoreGetsPastTheCheck(s: Workspace, before: seq<Move>, m: nat) returns (moves: seq<Move>)
    requires IsRun(s, before) && OverlapAtMost(s, before, m)
    requires After(s, before).rows == map[] && |PastCheck(After(s, before).open)| < m
    ensures IsRun(s, moves) && OverlapAtMost(s, moves, m)
    ensures var t, u := After(s, before), After(s, moves);
            u.rows == map[] && u.locks == t.locks && |PastCheck(u.open)| == |PastCheck(t.open)| + 1
  {
    var t := After(s, before);
    var tx := AnUnusedId(t.open.Keys);
    NewcomerIsCleared(t, tx);
    ClearingOne(t.open, tx);
    OneMoreMove(s, before, Register(tx), m);
    moves := before + [Register(tx)];
    OneMoreMove(s, moves, Ask(tx), m);
    moves := moves + [Ask(tx)];
  }

  lemma {:induction false} AnyNumberGetPastTheCheck(s: Workspace, n: nat) returns (moves: seq<Move>)
    requires s.rows == map[]
    ensures IsRun(s, moves) && OverlapAtMost(s, moves, |PastCheck(s.open)| + n)
    ensures var t := After(s, moves);
            t.rows == map[] && t.locks == s.locks && |PastCheck(t.open)| == |PastCheck(s.open)| + n
  {
    if n == 0 {
      moves := [];
    } else {
      var m := |PastCheck(s.open)| + n;
      var first := AnyNumberGetPastTheCheck(s, n - 1);
      WiderOverlap(s, first, m - 1, m);
      moves := OneMoreGetsPastTheCheck(s, first, m);
    }
  }

  ghost function Users(rows: map<Id, Row>): set<Id> {
    set r | r in rows :: rows[r].user
  }

  /** Past its check, a registration can insert an owner whatever has been inserted meanwhile. */
  lemma OneMoreOwns(s: Workspace, tx: Id) returns (move: Move)
    requires tx in PastCheck(s.open)
    ensures Allowed(s, move)
    ensures var t := Moved(s, move);
            |Owners(t.rows)| == |Owners(s.rows)| + 1 && |PastCheck(t.open)| == |PastCheck(s.open)| - 1
  {
    var newRow := AnUnusedId(s.rows.Keys);
    var user := AnUnusedId(Users(s.rows));
    assert user !in Users(s.rows);
    move := Insert(tx, newRow, user);
    assert Owners(s.rows[newRow := Row(user, Owner, true)]) == Owners(s.rows) + {newRow};
    RemovingOne(s.open, tx);
  }

  lemma {:induction false} AllPastTheCheckCanOwn(s: Workspace, before: seq<Move>, m: nat, n: nat)
    returns (moves: seq<Move>)
    requires IsRun(s, before) && OverlapAtMost(s, before, m)
    requires n <= |PastCheck(After(s, before).open)| <= m
    ensures IsRun(s, moves) && OverlapAtMost(s, moves, m)
    ensures var t, u := After(s, before), After(s, moves);
            |Owners(u.rows)| == |Owners(t.rows)| + n && |PastCheck(u.open)| == |PastCheck(t.open)| - n
    decreases n
  {
    moves := before;
    if n > 0 {
      moves := AllPastTheCheckCanOwn(s, before, m, n - 1);
      var tx :| tx in PastCheck(After(s, moves).open);
      var move := OneMoreOwns(After(s, moves), tx);
      OneMoreMove(s, moves, move, m);
      moves := moves + [move];
    }
  }

  /** For every number some run lets that many registrations overlap, and every one of them ends as an owner. */
  lemma AnyNumberCanOwn(s: Workspace, n: nat) returns (moves: seq<Move>)
    requires s.rows == map[] && PastCheck(s.open) == {}
    ensures IsRun(s, moves) && OverlapAtMost(s, moves, n)
    ensures |Owners(After(s, moves).rows)| == n
  {
    var first := AnyNumberGetPastTheCheck(s, n);
    moves := AllPastTheCheckCanOwn(s, first, n, n);
  }

  /** A bound on the overlap bounds the owners by itself, and by nothing less. */
  lemma OverlapBoundsOwnersIff(s: Workspace, m: nat, k: nat)
    requires s.rows == map[] && PastCheck(s.open) == {}
    ensures (forall moves :: IsRun(s, moves) && OverlapAtMost(s, moves, m) ==> |Owners(After(s, moves).rows)| <= k)
            <==> m <= k
  {
    if m <= k {
      forall moves | IsRun(s, moves) && OverlapAtMost(s, moves, m) ensures |Owners(After(s, moves).rows)| <= k {
        OwnersNeverExceedTheOverlap(s, moves, m);
      }
    } else {
      var moves := AnyNumberCanOwn(s, m);
    }
  }

  // ---- What can be told before ----

  /** With a member there nobody gets past the check any more: only those already past it can insert. */
  lemma ClaimedMoveAddsNothing(s: Workspace, move: Move)
    requires Allowed(s, move) && s.rows != map[]
    ensures var t := Moved(s, move);
            && t.rows != map[] && PastCheck(t.open) <= PastCheck(s.open)
            && |Owners(t.rows)| + |PastCheck(t.open)| <= |Owners(s.rows)| + |PastCheck(s.open)|
    ensures PastCheck(s.open) == {} ==> Moved(s, move).rows == s.rows
  {
    var t := Moved(s, move);
    match move
    case Register(tx) => assert PastCheck(t.open) == PastCheck(s.open);
    case Hold(tx, row) => assert PastCheck(t.open) == PastCheck(s.open);
    case Ask(tx) => ClosingKeepsBudget(s, tx);
    case Insert(tx, newRow, user) =>
      assert newRow in t.rows && tx in PastCheck(s.open);
      assert Owners(t.rows) == Owners(s.rows) + {newRow};
      ClosingKeepsBudget(s.(rows := t.rows), tx);
    case Fail(tx) => ClosingKeepsBudget(s, tx);
  }

  lemma {:induction false} ClaimedRunAddsNoMore(s: Workspace, moves: seq<Move>)
    requires IsRun(s, moves) && s.rows != map[]
    ensures |Owners(After(s, moves).rows)| <= |Owners(s.rows)| + |PastCheck(s.open)|
    decreases |moves|
  {
    if moves != [] {
      ClaimedMoveAddsNothing(s, moves[0]);
      ClaimedRunAddsNoMore(Moved(s, moves[0]), moves[1..]);
    }
  }

  /**
   From any state at all, some run of registrations makes `n` more owners if and only if the workspace has no
   member or that many are past their check already.
   */
  lemma CanAddOwnersIff(s: Workspace, n: nat)
    ensures (exists moves :: IsRun(s, moves) && |Owners(After(s, moves).rows)| >= |Owners(s.rows)| + n)
            <==> s.rows == map[] || n <= |PastCheck(s.open)|
  {
    if s.rows == map[] {
      var first := AnyNumberGetPastTheCheck(s, n);
      var moves := AllPastTheCheckCanOwn(s, first, |PastCheck(s.open)| + n, n);
    } else {
      forall moves | IsRun(s, moves)
        ensures |Owners(After(s, moves).rows)| <= |Owners(s.rows)| + |PastCheck(s.open)|
      {
        ClaimedRunAddsNoMore(s, moves);
      }
      if n <= |PastCheck(s.open)| {
        assert IsRun(s, []);
        var moves := AllPastTheCheckCanOwn(s, [], |PastCheck(s.open)|, n);
      }
    }
  }

  lemma {:induction false} ClaimedWorkspaceIsClosed(s: Workspace, moves: seq<Move>)
    requires s.rows != map[] && PastCheck(s.open) == {} && IsRun(s, moves)
    ensures After(s, moves).rows == s.rows
    decreases |moves|
  {
    if moves != [] {
      ClaimedMoveAddsNothing(s, moves[0]);
      ClaimedWorkspaceIsClosed(Moved(s, moves[0]), moves[1..]);
    }
  }

  /**
   While nobody is past the check, two registrations can both become owners if and only if the workspace has no
   member; otherwise no run of registrations changes its members at all.
   */
  lemma TwoCanOwnIff(s: Workspace)
    requires PastCheck(s.open) == {}
    ensures (exists moves :: IsRun(s, moves) && |Owners(After(s, moves).rows)| >= |Owners(s.rows)| + 2)
            <==> s.rows == map[]
    ensures s.rows != map[] <==> forall moves :: IsRun(s, moves) ==> After(s, moves).rows == s.rows
  {
    CanAddOwnersIff(s, 2);
    if s.rows != map[] {
      forall moves | IsRun(s, moves) ensures After(s, moves).rows == s.rows {
        ClaimedWorkspaceIsClosed(s, moves);
      }
    }
  }
}
