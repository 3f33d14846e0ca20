/**
 Role changes and removals of one workspace's members, interleaved statement by statement as read-committed
 transactions are: each statement sees what has been committed when it runs, and only row locks hold others
 back. A transaction's own write becomes visible at its commit.
 */
module LastOwner {
  import opened Prelude
  import opened Quiz

  datatype Role = Owner | Admin | Instructor | Student | Guardian

  datatype Row = Row(user: Id, role: Role, active: bool)

  datatype Change = ToRole(role: Role) | Out

  datatype Op = Op(actor: Id, actorRole: Role, target: Id, change: Change)

  /** How far a transaction has got: locking what its snapshot showed, counting owners, about to write, written. */
  datatype Phase = Locking(pending: set<Id>) | Counting | Writing | Written(row: Id)

  datatype Tx = Tx(op: Op, snapshot: set<Id>, phase: Phase)

  /** `issued` remembers every membership id ever inserted. */
  datatype State = State(rows: map<Id, Row>, locks: map<Id, Id>, txs: map<Id, Tx>, issued: set<Id>)

  datatype Step =
    | Begin(tx: Id, op: Op)
    | Lock(tx: Id, row: Id)
    | Read(tx: Id, found: Option<Id>)
    | Count(tx: Id)
    | Write(tx: Id, row: Id)
    | Commit(tx: Id)
    | Abort(tx: Id)
    | Join(newRow: Id, member: Row)

  function Owners(rows: map<Id, Row>): set<Id> {
    set r | r in rows && rows[r].role == Owner && rows[r].active
  }

  /** Refused before any transaction opens: oneself, and making owners without being one. */
  predicate Admitted(op: Op) {
    op.actor != op.target && (op.change == ToRole(Owner) ==> op.actorRole == Owner)
  }

  predicate Free(s: State, tx: Id, row: Id) {
    row in s.locks ==> s.locks[row] == tx
  }

  predicate IsOf(rows: map<Id, Row>, user: Id, row: Id) {
    row in rows && rows[row].user == user
  }

  ghost predicate FoundIs(rows: map<Id, Row>, user: Id, found: Option<Id>) {
    match found
    case Some(r) => IsOf(rows, user, r)
    case None => forall r :: !IsOf(rows, user, r)
  }

  /** What the database lets happen next. Any transaction may fail at any time. */
  ghost predicate Enabled(s: State, step: Step) {
    match step
    case Begin(tx, op) => tx !in s.txs && Admitted(op)
    case Lock(tx, row) =>
      tx in s.txs && s.txs[tx].phase.Locking? && row in s.txs[tx].phase.pending && (row in s.rows ==> Free(s, tx, row))
    case Read(tx, found) =>
      tx in s.txs && s.txs[tx].phase == Locking({}) && FoundIs(s.rows, s.txs[tx].op.target, found)
    case Count(tx) => tx in s.txs && s.txs[tx].phase.Counting?
    case Write(tx, row) =>
      tx in s.txs && s.txs[tx].phase.Writing? && IsOf(s.rows, s.txs[tx].op.target, row) && Free(s, tx, row)
    case Commit(tx) => tx in s.txs && s.txs[tx].phase.Written? && s.txs[tx].phase.row in s.rows
    case Abort(tx) => tx in s.txs
    case Join(newRow, member) =>
      newRow !in s.issued && member.active && forall r :: !IsOf(s.rows, member.user, r)
  }

  /** The transaction is over and its locks are released. */
  function Ended(s: State, tx: Id): State {
    s.(txs := s.txs - {tx}, locks := map r | r in s.locks && s.locks[r] != tx :: s.locks[r])
  }

  function InPhase(s: State, tx: Id, phase: Phase): State
    requires tx in s.txs
  {
    s.(txs := s.txs[tx := s.txs[tx].(phase := phase)])
  }

  function Applied(rows: map<Id, Row>, row: Id, change: Change): map<Id, Row>
    requires row in rows
  {
    match change
    case Out => rows - {row}
    case ToRole(role) => rows[row := rows[row].(role := role)]
  }

  function AfterRead(s: State, tx: Id, found: Option<Id>): State
    requires tx in s.txs && (found.Some? ==> found.value in s.rows)
  {
    var op := s.txs[tx].op;
    if found.None? then Ended(s, tx)
    else
      var current := s.rows[found.value].role;
      if op.change == ToRole(current) then Ended(s, tx)
      else if current == Owner && op.actorRole != Owner then Ended(s, tx)
      else if current == Owner then InPhase(s, tx, Counting)
      else InPhase(s, tx, Writing)
  }

  /** A row deleted since the snapshot is skipped rather than locked. */
  function AfterLock(s: State, tx: Id, row: Id): State
    requires tx in s.txs && s.txs[tx].phase.Locking?
  {
    var t := InPhase(s, tx, Locking(s.txs[tx].phase.pending - {row}));
    if row in s.rows then t.(locks := s.locks[row := tx]) else t
  }

  function AfterCommit(s: State, tx: Id): State
    requires tx in s.txs && s.txs[tx].phase.Written? && s.txs[tx].phase.row in s.rows
  {
    Ended(s.(rows := Applied(s.rows, s.txs[tx].phase.row, s.txs[tx].op.change)), tx)
  }

  ghost function Next(s: State, step: Step): State
    requires Enabled(s, step)
  {
    match step
    case Begin(tx, op) => s.(txs := s.txs[tx := Tx(op, s.rows.Keys, Locking(s.rows.Keys))])
    case Lock(tx, row) => AfterLock(s, tx, row)
    case Read(tx, found) => AfterRead(s, tx, found)
    case Count(tx) => if |Owners(s.rows)| <= 1 then Ended(s, tx) else InPhase(s, tx, Writing)
    case Write(tx, row) => InPhase(s, tx, Written(row)).(locks := s.locks[row := tx])
    case Commit(tx) => AfterCommit(s, tx)
    case Abort(tx) => Ended(s, tx)
    case Join(newRow, member) => s.(rows := s.rows[newRow := member], issued := s.issued + {newRow})
  }

  // ---- The invariant ----

  function Pending(x: Tx): set<Id> {
    if x.phase.Locking? then x.phase.pending else {}
  }

  predicate Engaged(x: Tx) {
    !x.phase.Locking?
  }

  /** A row of its snapshot is locked by it, so nobody else can have finished locking. */
  ghost predicate HoldsSome(locks: map<Id, Id>, t: Id, x: Tx) {
    exists r :: r in locks && locks[r] == t && r in x.snapshot
  }

  predicate ActiveOwner(rows: map<Id, Row>, r: Id) {
    r in Owners(rows)
  }

  /** What the transaction is about to take away is not the last of it. */
  ghost predicate SparesAnOwner(rows: map<Id, Row>, x: Tx) {
    match x.phase
    case Writing => forall r :: IsOf(rows, x.op.target, r) && ActiveOwner(rows, r) ==> |Owners(rows)| >= 2
    case Written(r) => IsOf(rows, x.op.target, r) && (ActiveOwner(rows, r) ==> |Owners(rows)| >= 2)
    case _ => true
  }

  /** Every surviving row of the snapshot is locked or still to be, and nothing else is held but the row written. */
  ghost predicate LocksOfTx(rows: map<Id, Row>, locks: map<Id, Id>, t: Id, x: Tx) {
    && (forall r :: r in rows && r in x.snapshot && r !in Pending(x) ==> r in locks && locks[r] == t)
    && (forall r :: r in locks && locks[r] == t ==> r !in Pending(x) && (r in x.snapshot || x.phase == Written(r)))
    && (x.phase.Written? ==> x.phase.row in locks && locks[x.phase.row] == t)
  }

  ghost predicate TxsLockWell(rows: map<Id, Row>, locks: map<Id, Id>, txs: map<Id, Tx>) {
    forall t :: t in txs ==> LocksOfTx(rows, locks, t, txs[t])
  }

  ghost predicate LocksOk(rows: map<Id, Row>, locks: map<Id, Id>, txs: map<Id, Tx>) {
    forall r :: r in locks ==> r in rows && locks[r] in txs
  }

  ghost predicate IdsOk(rows: map<Id, Row>, txs: map<Id, Tx>, issued: set<Id>) {
    && rows.Keys <= issued
    && forall t :: t in txs ==> txs[t].snapshot <= issued && Pending(txs[t]) <= txs[t].snapshot
  }

  /** Of the rows still there, whoever looked later saw all that the other did. */
  ghost predicate SawNoMore(rows: map<Id, Row>, a: set<Id>, b: set<Id>) {
    forall r :: r in a && r in rows ==> r in b
  }

  ghost predicate Nested(rows: map<Id, Row>, txs: map<Id, Tx>) {
    forall t, u :: t in txs && u in txs ==>
      SawNoMore(rows, txs[t].snapshot, txs[u].snapshot) || SawNoMore(rows, txs[u].snapshot, txs[t].snapshot)
  }

  ghost predicate OneRowEach(rows: map<Id, Row>) {
    forall r, q :: r in rows && q in rows && rows[r].user == rows[q].user ==> r == q
  }

  /** What the row locks alone guarantee. */
  ghost predicate Disciplined(s: State) {
    && LocksOk(s.rows, s.locks, s.txs)
    && TxsLockWell(s.rows, s.locks, s.txs)
    && IdsOk(s.rows, s.txs, s.issued)
    && Nested(s.rows, s.txs)
    && OneRowEach(s.rows)
  }

  /** What they guarantee while no lock comes back empty. */
  ghost predicate Owned(s: State) {
    && Owners(s.rows) != {}
    && forall t :: t in s.txs ==> TxOwned(s.rows, s.locks, t, s.txs[t])
  }

  ghost predicate TxOwned(rows: map<Id, Row>, locks: map<Id, Id>, t: Id, x: Tx) {
    SparesAnOwner(rows, x) && (Engaged(x) ==> HoldsSome(locks, t, x))
  }
}
