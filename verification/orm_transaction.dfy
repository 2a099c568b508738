/**
 * `ORM.transaction` as a state machine over one execution context's
 * connection slot: acquire, disable auto-commit, bind, run the block, commit
 * or roll back, always unbind, close. The data source, the connection and the
 * block are replaced by scripted answers; the run yields the trace of events,
 * the outcome and the slot afterwards.
 */
module Transaction {
  import opened Wrappers
  import opened Orm
  import Repository

  datatype Event =
    | Acquire(conn: Conn)          // source.getConnection()
    | DisableAutoCommit            // connection.setAutoCommit(false)
    | Bind(conn: Conn)             // currentConnection.set(connection)
    | RunBlock(current: Option<Conn>)  // block.run(), with the slot as the block sees it
    | Commit                       // connection.commit()
    | Rollback                     // connection.rollback()
    | Unbind                       // currentConnection.remove()
    | Close                        // end of try-with-resources

  /** How the block ends: normally, or by throwing. */
  datatype BlockOutcome = Completes | Raises(error: Error)

  /** The answers of the data source, the connection and the block for one run. */
  datatype Script = Script(
    connect: Result<Conn, SqlFailure>,
    autoCommit: Option<SqlFailure>,
    block: BlockOutcome,
    commit: Option<SqlFailure>,
    rollback: Option<SqlFailure>,
    close: Option<SqlFailure>)

  datatype Run = Run(trace: seq<Event>, outcome: Result<(), Error>, slot: Option<Conn>)

  /** The SQL failure behind an error, unwrapping the proxy's `UncheckedSQLException`. */
  function SqlCause(e: Error): (r: Option<SqlFailure>)
    ensures r.Some? <==> e.Sql? || e.UncheckedSql?
    ensures e.Sql? ==> r == Some(e.failure)
    ensures e.UncheckedSql? ==> r == Some(e.failure)
  {
    match e
    case Sql(f) => Some(f)
    case UncheckedSql(f) => Some(f)
    case _ => None
  }

  /** Whether the run reached the block, i.e. the connection was acquired and auto-commit disabled. */
  predicate Started(s: Script) {
    s.connect.Success? && s.autoCommit.None?
  }

  /** The SQL failure that triggers a rollback, if any: the block's, else the commit's. */
  function Failing(s: Script): Option<SqlFailure> {
    match s.block
    case Raises(e) => SqlCause(e)
    case Completes => s.commit
  }

  /** The events from binding to the end of commit or rollback, and the outcome before closing. */
  function Body(c: Conn, s: Script): (Result<(), Error>, seq<Event>) {
    var start := [Bind(c), RunBlock(Some(c))];
    match s.block
    case Completes =>
      if s.commit.None? then (Success(()), start + [Commit])
      else (Failure(Sql(s.commit.value)), start + [Commit, Rollback])
    case Raises(e) =>
      match SqlCause(e)
      case Some(f) => (Failure(Sql(f)), start + [Rollback])
      case None => (Failure(e), start)
  }

  /**
   * The events between the block and unbinding, from the script alone: a
   * commit after a completed block, then a rollback after any SQL failure.
   */
  function Ending(s: Script): seq<Event> {
    (if s.block.Completes? then [Commit] else []) + (if Failing(s).Some? then [Rollback] else [])
  }

  /**
   * `transaction(source, block)` once both arguments are known to be
   * present. A failure to get a connection or to disable
   * auto-commit leaves the slot untouched. Otherwise the connection is bound,
   * the block runs, commit follows only a completed block, any SQL failure
   * (also one wrapped by the repository proxy, also from commit) triggers a
   * rollback and is rethrown as it was even if the rollback fails, other
   * exceptions pass through, the slot is always emptied, and the connection
   * is closed, a close failure surfacing only when nothing else failed.
   */
  function RunTransaction(slot: Option<Conn>, s: Script): (r: Run)
    ensures s.connect.Failure? ==> r == Run([], Failure(Sql(s.connect.error)), slot)
    ensures s.connect.Success? && s.autoCommit.Some? ==>
              r == Run([Acquire(s.connect.value), DisableAutoCommit, Close], Failure(Sql(s.autoCommit.value)), slot)
    ensures Started(s) ==> r.slot.None?
    ensures Started(s) ==> |r.trace| >= 6 && r.trace[..2] == [Acquire(s.connect.value), DisableAutoCommit]
    ensures Started(s) ==> r.trace[2] == Bind(s.connect.value) && r.trace[3] == RunBlock(Some(s.connect.value))
    ensures Started(s) ==> r.trace[|r.trace| - 2] == Unbind && r.trace[|r.trace| - 1] == Close
    ensures Started(s) ==> Commit !in r.trace[..4] && Rollback !in r.trace[..4]
    ensures Commit in r.trace <==> Started(s) && s.block.Completes?
    ensures Rollback in r.trace <==> Started(s) && Failing(s).Some?
    ensures Started(s) && Failing(s).Some? ==> r.outcome == Failure(Sql(Failing(s).value))
    ensures Started(s) && s.block.Raises? && SqlCause(s.block.error).None? ==> r.outcome == Failure(s.block.error)
    ensures r.outcome.Success? <==> Started(s) && s.block.Completes? && s.commit.None? && s.close.None?
    ensures r.outcome.Failure? ==> !r.outcome.error.UncheckedSql?
    ensures Unbind in r.trace <==> Started(s)
    ensures s.connect.Success? ==> (Bind(s.connect.value) in r.trace <==> Unbind in r.trace)
    ensures Started(s) ==> var c := s.connect.value;
              r.trace == [Acquire(c), DisableAutoCommit, Bind(c), RunBlock(Some(c))] + Ending(s) + [Unbind, Close]
  {
    match s.connect
    case Failure(f) => Run([], Failure(Sql(f)), slot)
    case Success(c) =>
      if s.autoCommit.Some? then
        Run([Acquire(c), DisableAutoCommit, Close], Failure(Sql(s.autoCommit.value)), slot)
      else
        StartedTrace(c, s);
        StartedRun(c, s)
  }

  /**
   * The run once the connection is bound: the body's events between the
   * setup and the cleanup, the body's failure if any, else a close failure.
   */
  function StartedRun(c: Conn, s: Script): (r: Run)
    requires s.connect == Success(c) && s.autoCommit.None?
    ensures r.slot.None?
    ensures r.trace == [Acquire(c), DisableAutoCommit, Bind(c), RunBlock(Some(c))] + Ending(s) + [Unbind, Close]
    ensures r.outcome == if Failing(s).Some? then Failure(Sql(Failing(s).value))
                         else if s.block.Raises? then Failure(s.block.error)
                         else if s.close.Some? then Failure(Sql(s.close.value))
                         else Success(())
  {
    var (primary, events) := Body(c, s);
    BodyEvents(c, s);
    BodyOutcome(c, s);
    var trace := [Acquire(c), DisableAutoCommit] + events + [Unbind, Close];
    assert trace == [Acquire(c), DisableAutoCommit, Bind(c), RunBlock(Some(c))] + Ending(s) + [Unbind, Close];
    var outcome :=
      if primary.Failure? then primary
      else if s.close.Some? then Failure(Sql(s.close.value))
      else Success(());
    Run(trace, outcome, None)
  }

  /** The body's events are the binding, the block, then the script's ending. */
  lemma BodyEvents(c: Conn, s: Script)
    ensures Body(c, s).1 == [Bind(c), RunBlock(Some(c))] + Ending(s)
  {
  }

  /** The body ends with the SQL failure behind a rollback, else the block's own error, else normally. */
  lemma BodyOutcome(c: Conn, s: Script)
    ensures Body(c, s).0 == if Failing(s).Some? then Failure(Sql(Failing(s).value))
                            else if s.block.Raises? then Failure(s.block.error)
                            else Success(())
  {
  }

  /** Where each event of a started run sits in its trace. */
  lemma StartedTrace(c: Conn, s: Script)
    ensures var t := [Acquire(c), DisableAutoCommit, Bind(c), RunBlock(Some(c))] + Ending(s) + [Unbind, Close];
            |t| >= 6 && t[..2] == [Acquire(c), DisableAutoCommit] && t[2] == Bind(c) && t[3] == RunBlock(Some(c)) &&
            t[|t| - 2] == Unbind && t[|t| - 1] == Close &&
            Commit !in t[..4] && Rollback !in t[..4] &&
            (Commit in t <==> s.block.Completes?) && (Rollback in t <==> Failing(s).Some?) &&
            Unbind in t && Bind(c) in t
  {
    var t := [Acquire(c), DisableAutoCommit, Bind(c), RunBlock(Some(c))] + Ending(s) + [Unbind, Close];
    assert t[..4] == [Acquire(c), DisableAutoCommit, Bind(c), RunBlock(Some(c))];
    assert forall e :: e in t <==> e in t[..4] || e in Ending(s) || e in [Unbind, Close];
  }

  /**
   * `transaction(source, block)` with its two `requireNonNull` checks: a
   * missing data source or block is refused before any connection is
   * requested, and the slot is left as it was.
   */
  function CheckedTransaction(slot: Option<Conn>, sourceGiven: bool, blockGiven: bool, s: Script): (r: Run)
    ensures !sourceGiven || !blockGiven ==> r == Run([], Failure(NullReference), slot)
    ensures sourceGiven && blockGiven ==> r == RunTransaction(slot, s)
    ensures |r.trace| > 0 ==> sourceGiven && blockGiven
  {
    if !sourceGiven || !blockGiven then Run([], Failure(NullReference), slot)
    else RunTransaction(slot, s)
  }

  /** After a transaction that started, `currentConnection()` fails, whatever was bound before. */
  lemma NoConnectionAfterTransaction(slot: Option<Conn>, s: Script)
    requires Started(s)
    ensures CurrentConnection(RunTransaction(slot, s).slot) == Failure(NoCurrentConnection)
  {
  }

  /**
   * A nested transaction rebinds the context silently and, on exit, empties
   * it: the outer block can no longer reach its own connection.
   */
  lemma NestedTransactionDropsOuterBinding(outer: Conn, s: Script)
    requires Started(s)
    ensures RunTransaction(Some(outer), s).trace[3] == RunBlock(Some(s.connect.value))
    ensures CurrentConnection(RunTransaction(Some(outer), s).slot).Failure?
  {
  }

  /** The block outcome of a block that makes one repository call. */
  function BlockOf<T>(r: Result<T, Error>): BlockOutcome {
    if r.Success? then Completes else Raises(r.error)
  }

  /**
   * A database failure inside a repository call made by the block is
   * wrapped by the proxy, unwrapped here, rolled back, and reaches the caller
   * of `transaction` as the original SQL failure.
   */
  lemma RepositoryFailureRollsBack(
    repo: Repository.RepositoryImpl, m: Repository.MethodSig, args: seq<Value>, db: Repository.Db,
    heap: Repository.Heap, blank: Bean, s: Script, f: SqlFailure)
    requires Started(s)
    requires Repository.Resolve(repo.props, m).Success?
    requires Repository.Execute(repo, Repository.Resolve(repo.props, m).value, args, Some(s.connect.value), db, heap, blank)
             == Failure(Sql(f))
    ensures var call := Repository.Invoke(repo, m, args, Some(s.connect.value), db, heap, blank);
            var r := RunTransaction(None, s.(block := BlockOf(call)));
            Rollback in r.trace && r.outcome == Failure(Sql(f)) && r.slot.None?
  {
  }
}
