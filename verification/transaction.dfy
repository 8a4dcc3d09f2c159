/**
 * The minimal transaction wrapper of both database layers
 * (mini_social_media/db.ts and template/backend/db.ts hold the same class).
 * Its only state is the `active` flag. `begin`, `commit` and `rollback` issue one
 * SQL statement each, and the flag changes only once that statement has
 * succeeded. `run`, `get` and `all` forward to the connection. Whether the
 * underlying statement succeeds is a parameter `execOk`.
 */
module Transaction {
  import opened Wrappers

  datatype Tx = Tx(active: bool)

  datatype TxOp = Begin | Run | Get | All | Commit | Rollback

  /** The statement a step sends to SQLite, if any. */
  datatype Statement = BeginImmediate | CommitStmt | RollbackStmt | Forwarded(op: TxOp) | NoStatement

  datatype TxError =
    | AlreadyStarted      // "Transaction already started"
    | OutsideTransaction  // "Cannot run SQL command outside of a transaction"
    | NoTransaction       // "No transaction to commit"
    | SqlFailed           // the statement itself raised

  datatype Outcome = Outcome(tx: Tx, sent: Statement)

  /** A freshly constructed wrapper is inactive. */
  const Fresh: Tx := Tx(false)

  predicate IsQuery(op: TxOp) {
    op == Run || op == Get || op == All
  }

  /** One call on the wrapper; `execOk` says whether the statement it issues succeeds. */
  function Step(tx: Tx, op: TxOp, execOk: bool): (r: Result<Outcome, TxError>)
    // begin refuses an active transaction, otherwise opens one when BEGIN IMMEDIATE succeeds
    ensures op == Begin && tx.active ==> r == Err(AlreadyStarted)
    ensures op == Begin && !tx.active ==> r == (if execOk then Ok(Outcome(Tx(true), BeginImmediate)) else Err(SqlFailed))
    // run/get/all refuse an inactive transaction and never change the flag
    ensures IsQuery(op) && !tx.active ==> r == Err(OutsideTransaction)
    ensures IsQuery(op) && tx.active ==> r == (if execOk then Ok(Outcome(tx, Forwarded(op))) else Err(SqlFailed))
    // commit refuses an inactive transaction; a failed COMMIT leaves it active
    ensures op == Commit && !tx.active ==> r == Err(NoTransaction)
    ensures op == Commit && tx.active ==> r == (if execOk then Ok(Outcome(Tx(false), CommitStmt)) else Err(SqlFailed))
    // rollback on an inactive transaction is a silent no-op
    ensures op == Rollback && !tx.active ==> r == Ok(Outcome(tx, NoStatement))
    ensures op == Rollback && tx.active ==> r == (if execOk then Ok(Outcome(Tx(false), RollbackStmt)) else Err(SqlFailed))
  {
    match op
    case Begin =>
      if tx.active then Err(AlreadyStarted)
      else if !execOk then Err(SqlFailed)
      else Ok(Outcome(Tx(true), BeginImmediate))
    case Run => Query(tx, op, execOk)
    case Get => Query(tx, op, execOk)
    case All => Query(tx, op, execOk)
    case Commit =>
      if !tx.active then Err(NoTransaction)
      else if !execOk then Err(SqlFailed)
      else Ok(Outcome(Tx(false), CommitStmt))
    case Rollback =>
      if !tx.active then Ok(Outcome(tx, NoStatement))
      else if !execOk then Err(SqlFailed)
      else Ok(Outcome(Tx(false), RollbackStmt))
  }

  function Query(tx: Tx, op: TxOp, execOk: bool): Result<Outcome, TxError> {
    if !tx.active then Err(OutsideTransaction)
    else if !execOk then Err(SqlFailed)
    else Ok(Outcome(tx, Forwarded(op)))
  }

  /** The flag after a step: the caller's error handling keeps the wrapper as it was when a step throws. */
  function After(tx: Tx, op: TxOp, execOk: bool): Tx {
    match Step(tx, op, execOk)
    case Ok(o) => o.tx
    case Err(_) => tx
  }

  /** `SqliteAdapter.transaction()`: construct a wrapper and begin it. */
  function Open(execOk: bool): (r: Result<Tx, TxError>)
    ensures r.Ok? <==> execOk
    ensures r.Ok? ==> r.value.active
  {
    match Step(Fresh, Begin, execOk)
    case Ok(o) => Ok(o.tx)
    case Err(e) => Err(e)
  }

  /** A script of calls, each with the success of the statement it would issue. */
  datatype Call = Call(op: TxOp, execOk: bool)

  /** Runs a script, stepping past calls that throw (as a caller that catches and carries on would). */
  function RunScript(tx: Tx, calls: seq<Call>): Tx
    decreases |calls|
  {
    if |calls| == 0 then tx
    else RunScript(After(tx, calls[0].op, calls[0].execOk), calls[1..])
  }

  /**
   * The flag after a script, read off the script alone: the last boundary call that
   * took effect decides it (a successful begin opens, a successful commit or rollback
   * on an open transaction closes); queries never matter.
   */
  function ActiveAfter(start: bool, calls: seq<Call>): bool
    decreases |calls|
  {
    if |calls| == 0 then start
    else
      var c := calls[0];
      var next :=
        if c.op == Begin && !start && c.execOk then true
        else if (c.op == Commit || c.op == Rollback) && start && c.execOk then false
        else start;
      ActiveAfter(next, calls[1..])
  }

  lemma {:induction false} RunScriptActive(tx: Tx, calls: seq<Call>)
    ensures RunScript(tx, calls).active == ActiveAfter(tx.active, calls)
    decreases |calls|
  {
    if |calls| > 0 {
      var c := calls[0];
      var next := After(tx, c.op, c.execOk);
      assert next.active ==
        (if c.op == Begin && !tx.active && c.execOk then true
         else if (c.op == Commit || c.op == Rollback) && tx.active && c.execOk then false
         else tx.active);
      RunScriptActive(next, calls[1..]);
    }
  }

  /** Queries never change the flag, whatever happens to them. */
  lemma {:induction false} QueriesKeepFlag(tx: Tx, calls: seq<Call>)
    requires forall i :: 0 <= i < |calls| ==> IsQuery(calls[i].op)
    ensures RunScript(tx, calls) == tx
    decreases |calls|
  {
    if |calls| > 0 {
      assert After(tx, calls[0].op, calls[0].execOk) == tx;
      QueriesKeepFlag(tx, calls[1..]);
    }
  }

  /** After a commit or a rollback the wrapper is inactive, unless the COMMIT/ROLLBACK statement itself failed. */
  lemma CloseDeactivates(tx: Tx, op: TxOp)
    requires op == Commit || op == Rollback
    ensures !After(tx, op, true).active
  {
  }

  /** Rolling back twice is the same as rolling back once. */
  lemma RollbackIdempotent(tx: Tx, ok1: bool, ok2: bool)
    requires ok1
    ensures After(After(tx, Rollback, ok1), Rollback, ok2) == After(tx, Rollback, ok1)
  {
  }

  /**
   * A well-formed use (begin, any queries, commit) with every statement succeeding
   * never raises and ends inactive, issuing BEGIN IMMEDIATE first.
   */
  lemma {:induction false} BeginQueriesCommit(queries: seq<Call>)
    requires forall i :: 0 <= i < |queries| ==> IsQuery(queries[i].op) && queries[i].execOk
    ensures Step(Fresh, Begin, true) == Ok(Outcome(Tx(true), BeginImmediate))
    ensures RunScript(Tx(true), queries) == Tx(true)
    ensures Step(RunScript(Tx(true), queries), Commit, true) == Ok(Outcome(Tx(false), CommitStmt))
  {
    QueriesKeepFlag(Tx(true), queries);
  }
}
