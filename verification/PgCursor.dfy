/**
 The cursor of a pooled connection and the transaction of its server session.

 Each operation below is what one `operation_lock` window does to the pair. Proved
 here: which operations keep the two in agreement, the one way they come apart and
 that nothing repairs it, that pages are consecutive, and that the statements of a
 script reach the server in order.
 */
module PgCursor {
  import opened Basics
  import opened Wrappers
  import opened Text
  import opened SqlLexer
  import opened SqlSplit
  import opened PgServer
  import opened PgExec

  datatype Conn = Conn(active: Option<ActiveCursor>, session: Session)

  const FRESH: Conn := Conn(None, Session(NoTx, [], []))

  datatype PageResult = PageResult(rows: seq<Row>, hasMore: bool)

  /** `execute`, once the connection is leased: the old cursor is taken, and a failed open leaves none. */
  function AfterExecute(c: Conn, sql: Bytes, pageSize: nat, id: CursorId, env: Env): (r: (Conn, Reply)) {
    var (session, reply) := Open(c.session, sql, pageSize, c.active, id, env);
    var active := if reply.Returned? && reply.value.Ok? then reply.value.value.1 else None;
    (Conn(active, session), reply)
  }

  /** `fetch_page`: only the active cursor can be fetched from. */
  function AfterFetch(c: Conn, id: CursorId, count: nat, succeeds: bool): (r: (Conn, Result<PageResult, PgError>)) {
    if c.active.None? || c.active.value.cursorId != id then (c, Err(CursorExpired))
    else
      var (tx, page) := Fetch(c.session.tx, id, count, succeeds);
      var c' := c.(session := c.session.(tx := tx));
      if page.None? then (c', Err(Driver))
      else
        var (rows, fetched) := Collected(FetchReply(page.value, c.active.value.columnCount));
        (c', Ok(PageResult(rows, fetched == count)))
  }

  /** `close_query`: a no-op unless the id is the active cursor's. */
  function AfterCloseQuery(c: Conn, id: CursorId, choice: CloseChoice): Conn {
    if c.active.Some? && c.active.value.cursorId == id then AfterCloseActive(c, choice) else c
  }

  /** What `release_session` does before the connection goes back to idle. */
  function AfterCloseActive(c: Conn, choice: CloseChoice): Conn {
    if c.active.None? then c
    else Conn(None, CloseOrRollBack(c.session, c.active.value.cursorId, choice))
  }

  /** An edit or introspection query on the connection. */
  function AfterStatement(c: Conn, succeeds: bool): (r: (Conn, bool)) {
    var (tx, ok) := RunText(c.session.tx, succeeds);
    (c.(session := c.session.(tx := tx)), ok)
  }

  // ----- The same windows on a connection object -----

  /** A pooled connection: its wire, and the metadata of the cursor open on it. */
  class PooledConnection {
    const client: Client
    var activeCursor: Option<ActiveCursor>

    constructor (client: Client)
      ensures this.client == client && activeCursor == None
    {
      this.client := client;
      this.activeCursor := None;
    }

    function State(): Conn
      reads this, client
    {
      Conn(activeCursor, client.session)
    }

    method Execute(sql: Bytes, pageSize: nat, id: CursorId, env: Env) returns (r: Reply)
      requires Utf8(sql)
      modifies this, client
      ensures (State(), r) == AfterExecute(old(State()), sql, pageSize, id, env)
    {
      var previous := activeCursor;
      activeCursor := None;
      r := OpenQuery(client, sql, pageSize, previous, id, env);
      if r.Returned? && r.value.Ok? {
        activeCursor := r.value.value.1;
      }
    }

    method FetchPage(id: CursorId, count: nat, succeeds: bool) returns (r: Result<PageResult, PgError>)
      modifies client
      ensures (State(), r) == AfterFetch(old(State()), id, count, succeeds)
    {
      if activeCursor.None? || activeCursor.value.cursorId != id {
        return Err(CursorExpired);
      }
      var cursor := activeCursor.value;
      var stream := client.FetchForward(cursor.cursorId, count, cursor.columnCount, succeeds);
      if stream.None? {
        return Err(Driver);
      }
      var rows, fetched := CollectRows(stream.value);
      return Ok(PageResult(rows, fetched == count));
    }

    method CloseQuery(id: CursorId, choice: CloseChoice)
      modifies this, client
      ensures State() == AfterCloseQuery(old(State()), id, choice)
    {
      if activeCursor.Some? && activeCursor.value.cursorId == id {
        CloseActive(choice);
      }
    }

    method CloseActive(choice: CloseChoice)
      modifies this, client
      ensures State() == AfterCloseActive(old(State()), choice)
    {
      var cursor := activeCursor;
      activeCursor := None;
      if cursor.Some? {
        var ok := client.CloseAndCommit(cursor.value.cursorId, choice);
        if !ok {
          client.RollBack();
        }
      }
    }
  }

  // ----- Agreement -----

  /** A transaction is open or aborted exactly when a cursor is on record, and it is that cursor's. */
  predicate Agrees(c: Conn) {
    match c.active
    case None => c.session.tx == NoTx
    case Some(a) => c.session.tx.Aborted? || (c.session.tx.InTx? && c.session.tx.cursors.Keys == {a.cursorId})
  }

  /** The script reaches a cursor and a first page: the server accepts everything on the way. */
  predicate TakesCursor(sql: Bytes, env: Env) {
    && AsciiBodies(sql)
    && (IsMultiStatement(sql) ==> SplitAtLastStatement(sql).Some? && env.preamble)
    && env.prepared.Some? && env.prepared.value > 0
    && env.declare.Declares?
    && env.firstFetch
  }

  /** The first page comes back short. */
  predicate EndsShort(sql: Bytes, pageSize: nat, env: Env) {
    TakesCursor(sql, env) && |env.rows| < pageSize
  }

  lemma CleanUpEnds(c: Conn, choice: CloseChoice)
    requires Agrees(c)
    ensures var s := CleanUp(c.session, c.active, choice);
            && s.tx == NoTx && s.ran == c.session.ran
            && s.ended == if c.active.None? then c.session.ended
                          else c.session.ended + [if c.session.tx.InTx? && choice == Closes then Committed else RolledBack]
  {
  }

  /** Opening a single statement outside a transaction: where it can leave the session. */
  lemma OpenSingleEnds(s: Session, sql: Bytes, pageSize: nat, id: CursorId, env: Env)
    requires s.tx == NoTx
    ensures var (s', reply) := OpenSingle(s, sql, pageSize, id, env);
            var accepted := env.prepared.Some? && env.prepared.value > 0 && env.declare.Declares? && env.firstFetch;
            && reply.Returned?
            && (accepted && |env.rows| >= pageSize ==>
                  && s'.tx == InTx(map[id := OpenCursor(env.rows, pageSize)])
                  && reply.value == Ok((ExecutionOutcome(env.prepared.value, env.rows[..pageSize], Some(pageSize), Some(id)),
                                        Some(ActiveCursor(id, env.prepared.value)))))
            && (accepted && |env.rows| < pageSize ==>
                  && s'.tx == (if env.finalClose == CloseInterrupted then Aborted else NoTx)
                  && reply.value == Ok((ExecutionOutcome(env.prepared.value, env.rows, Some(|env.rows|), None), None)))
            && (!accepted ==> s'.tx == NoTx && (reply.value.Ok? ==> reply.value.value.1 == None && reply.value.value.0.cursorId == None))
  {
    var page := Fetch(InTx(map[id := OpenCursor(env.rows, 0)]), id, pageSize, true).1.value;
    if env.prepared.Some? {
      CollectedFetchReply(page, env.prepared.value);
    }
    assert |env.rows| < pageSize ==> page == env.rows;
  }

  /**
   Opening a query from agreement ends in agreement, unless the CLOSE after a short first
   page is interrupted: its failure is not looked at, and the aborted transaction stays behind
   with no cursor on record.
   */
  lemma ExecuteAgreesIff(c: Conn, sql: Bytes, pageSize: nat, id: CursorId, env: Env)
    requires Agrees(c)
    ensures var c' := AfterExecute(c, sql, pageSize, id, env).0;
            && (Agrees(c') <==> !(EndsShort(sql, pageSize, env) && env.finalClose == CloseInterrupted))
            && (!Agrees(c') ==> Stranded(c'))
  {
    CleanUpEnds(c, env.cleanup);
    var s0 := CleanUp(c.session, c.active, env.cleanup);
    OpenSingleEnds(s0, sql, pageSize, id, env);
    if IsMultiStatement(sql) && SplitAtLastStatement(sql).Some? {
      var (preamble, main) := SplitAtLastStatement(sql).value;
      OpenSingleEnds(Run(s0, preamble, env.preamble).0, main, pageSize, id, env);
    }
  }

  /** The other operations keep agreement, whatever the server chooses. */
  lemma OthersAgree(c: Conn, id: CursorId, count: nat, succeeds: bool, choice: CloseChoice)
    requires Agrees(c)
    ensures Agrees(AfterFetch(c, id, count, succeeds).0)
    ensures Agrees(AfterCloseQuery(c, id, choice))
    ensures Agrees(AfterStatement(c, succeeds).0)
    ensures AfterCloseActive(c, choice).active == None && AfterCloseActive(c, choice).session.tx == NoTx
  {
  }

  /** A fetch is refused, and nothing happens, exactly for an id that is not on record. */
  lemma FetchRefusedIff(c: Conn, id: CursorId, count: nat, succeeds: bool)
    ensures var (c', r) := AfterFetch(c, id, count, succeeds);
            && (r == Err(CursorExpired) <==> c.active.None? || c.active.value.cursorId != id)
            && (r == Err(CursorExpired) ==> c' == c)
            && (r.Err? && r != Err(CursorExpired) ==> c'.active == c.active && !c'.session.tx.InTx?)
            && (Agrees(c) && r.Ok? ==> succeeds && c'.session.tx.InTx?)
  {
  }

  /** An aborted transaction that no cursor on record will lead anyone to roll back. */
  predicate Stranded(c: Conn) {
    c.active == None && c.session.tx == Aborted
  }

  /** Nothing repairs a stranded connection, and everything asked of it fails: executing, fetching, editing. */
  lemma StrandedStays(c: Conn, sql: Bytes, pageSize: nat, id: CursorId, env: Env, count: nat, succeeds: bool, choice: CloseChoice)
    requires Stranded(c)
    ensures var (c', reply) := AfterExecute(c, sql, pageSize, id, env);
            Stranded(c') && (reply.Panicked? || reply.value.Err?)
    ensures AfterFetch(c, id, count, succeeds) == (c, Err(CursorExpired))
    ensures AfterCloseQuery(c, id, choice) == c && AfterCloseActive(c, choice) == c
    ensures AfterStatement(c, succeeds) == (c, false)
  {
  }

  /** A concrete way there: one row asked for a page of two, and a cancel request that arrives with the CLOSE. */
  lemma StrandedExample()
    ensures var env := Env(Closes, true, None, Some(1), None, Declares, [[Some("1")]], true, CloseInterrupted);
            Stranded(AfterExecute(FRESH, "A", 2, 0, env).0)
  {
    var env := Env(Closes, true, None, Some(1), None, Declares, [[Some("1")]], true, CloseInterrupted);
    PlainByte("A", 0);
    assert Semicolons("A") == [];
    assert AsciiBodies("A");
    ExecuteAgreesIff(FRESH, "A", 2, 0, env);
  }

  // ----- What executing answers -----

  /** The statement of a script that is paged through: the split-off one, or the whole text. */
  function Main(sql: Bytes): Bytes {
    if IsMultiStatement(sql) && SplitAtLastStatement(sql).Some? then SplitAtLastStatement(sql).value.1 else sql
  }

  /** What runs before it. */
  function Before(sql: Bytes): seq<Bytes> {
    if IsMultiStatement(sql) && SplitAtLastStatement(sql).Some? then [SplitAtLastStatement(sql).value.0] else []
  }

  /** The call gets as far as preparing the main statement. */
  predicate ReachesMain(sql: Bytes, env: Env) {
    AsciiBodies(sql) && (IsMultiStatement(sql) ==> SplitAtLastStatement(sql).Some? && env.preamble)
  }

  /** And as far as declaring a cursor for it. */
  predicate ReachesDeclare(sql: Bytes, env: Env) {
    ReachesMain(sql, env) && env.prepared.Some? && env.prepared.value > 0
  }

  /** Cleaning up after the previous cursor is all that happens before the main statement but the preamble. */
  lemma MainIsOpened(c: Conn, sql: Bytes, pageSize: nat, id: CursorId, env: Env)
    requires Agrees(c) && ReachesMain(sql, env)
    ensures var s := CleanUp(c.session, c.active, env.cleanup).(ran := c.session.ran + Before(sql));
            s.tx == NoTx && AfterExecute(c, sql, pageSize, id, env).1 == OpenSingle(s, Main(sql), pageSize, id, env).1
            && AfterExecute(c, sql, pageSize, id, env).0.session == OpenSingle(s, Main(sql), pageSize, id, env).0
  {
    CleanUpEnds(c, env.cleanup);
    assert c.session.ran + [] == c.session.ran;
  }

  /** The call succeeds: the choices of the server that make it. */
  predicate Succeeds(sql: Bytes, env: Env) {
    if ReachesMain(sql, env) then
      && env.prepared.Some?
      && if env.prepared.value == 0 then env.direct.Some?
         else if env.declare.Refuses? then env.declare.syntaxError && env.bulk.Some?
         else env.firstFetch
    else AsciiBodies(sql) && IsMultiStatement(sql) && SplitAtLastStatement(sql).None? && env.bulk.Some?
  }

  /** A call panics for its text alone; otherwise it fails with a driver error unless every step it comes to succeeds. */
  lemma ExecuteSucceedsIff(c: Conn, sql: Bytes, pageSize: nat, id: CursorId, env: Env)
    requires Agrees(c)
    ensures var reply := AfterExecute(c, sql, pageSize, id, env).1;
            if !AsciiBodies(sql) then reply == Panicked
            else reply.Returned? && (reply.value.Ok? <==> Succeeds(sql, env)) && (reply.value.Err? ==> reply.value.error == Driver)
  {
    CleanUpEnds(c, env.cleanup);
    if ReachesMain(sql, env) {
      MainIsOpened(c, sql, pageSize, id, env);
      OpenSingleEnds(CleanUp(c.session, c.active, env.cleanup).(ran := c.session.ran + Before(sql)), Main(sql), pageSize, id, env);
    }
  }

  /** What a statement run in bulk answers: the last rows its reply has, and the last count. */
  predicate AnswersBulk(reply: Reply, stream: seq<Message>, pageSize: nat) {
    && reply.Returned? && reply.value.Ok? && reply.value.value.1 == None && reply.value.value.0.cursorId == None
    && var out, b := reply.value.value.0, BulkAfter(stream, pageSize);
       out.columns == b.columns && out.rows == b.rows && out.rowsAffected == b.affected
  }

  /**
   DECLARE was refused. If for a syntax error, which such statements as INSERT ... RETURNING meet, the
   statement is run directly and its rows are the answer, without a cursor; for any other reason it is not
   run. Either way the transaction begun for the cursor is rolled back.
   */
  lemma RefusedDeclareRerunsIff(c: Conn, sql: Bytes, pageSize: nat, id: CursorId, env: Env)
    requires Agrees(c) && ReachesDeclare(sql, env) && env.declare.Refuses?
    ensures var (c', reply) := AfterExecute(c, sql, pageSize, id, env);
            var reruns := env.declare.syntaxError && env.bulk.Some?;
            && c'.active == None && c'.session.tx == NoTx
            && c'.session.ran == c.session.ran + Before(sql) + (if reruns then [Main(sql)] else [])
            && (if reruns then AnswersBulk(reply, env.bulk.value, pageSize) else reply == Returned(Err(Driver)))
  {
    MainIsOpened(c, sql, pageSize, id, env);
    assert c.session.ran + Before(sql) + [] == c.session.ran + Before(sql);
  }

  /** A statement without columns is run directly; its first count is the answer. */
  lemma DirectRunAnswers(c: Conn, sql: Bytes, pageSize: nat, id: CursorId, env: Env)
    requires Agrees(c) && ReachesMain(sql, env) && env.prepared == Some(0)
    ensures var (c', reply) := AfterExecute(c, sql, pageSize, id, env);
            && c'.active == None && c'.session.tx == NoTx
            && c'.session.ran == c.session.ran + Before(sql) + (if env.direct.Some? then [Main(sql)] else [])
            && reply == if env.direct.Some? then Returned(Ok((ExecutionOutcome(0, [], FirstCompletion(env.direct.value), None), None)))
                        else Returned(Err(Driver))
  {
    MainIsOpened(c, sql, pageSize, id, env);
    assert c.session.ran + Before(sql) + [] == c.session.ran + Before(sql);
  }

  /** A script of several statements with nothing to page through is run in bulk. */
  lemma BulkScriptAnswers(c: Conn, sql: Bytes, pageSize: nat, id: CursorId, env: Env)
    requires Agrees(c) && AsciiBodies(sql) && IsMultiStatement(sql) && SplitAtLastStatement(sql).None?
    ensures var (c', reply) := AfterExecute(c, sql, pageSize, id, env);
            && c'.active == None && c'.session.tx == NoTx
            && c'.session.ran == c.session.ran + (if env.bulk.Some? then [sql] else [])
            && (if env.bulk.Some? then AnswersBulk(reply, env.bulk.value, pageSize) else reply == Returned(Err(Driver)))
  {
    CleanUpEnds(c, env.cleanup);
    assert c.session.ran + [] == c.session.ran;
  }

  /**
   An INSERT ... RETURNING, and any statement run in bulk, answers the first page of the rows that came last,
   and the count that came last.
   */
  lemma BulkAnswersItsRows(reply: Reply, before: seq<Message>, width: nat, rows: seq<Row>, n: nat, pageSize: nat)
    requires AnswersBulk(reply, before + Block(width, rows) + [CommandComplete(n)], pageSize)
    ensures reply.value.value.0 == ExecutionOutcome(width, rows[..Min(pageSize, |rows|)], Some(n), None)
  {
    BulkKeepsLastResult(before, width, rows, [CommandComplete(n)], pageSize);
    BulkCountsLast(before + Block(width, rows), n, [], pageSize);
    var stream := before + Block(width, rows) + [CommandComplete(n)];
    assert stream + [] == stream;
  }

  /** How the transaction ends that a single statement begins. */
  function OwnEnds(pageSize: nat, env: Env): seq<End> {
    if env.prepared.None? || env.prepared.value == 0 then []
    else if env.declare.Refuses? then if env.declare.begun then [RolledBack] else []
    else if !env.firstFetch then [RolledBack]
    else if |env.rows| >= pageSize || env.finalClose == CloseInterrupted then []
    else [if env.finalClose == Closes then Committed else RolledBack]
  }

  lemma OpenSingleEndsTx(s: Session, sql: Bytes, pageSize: nat, id: CursorId, env: Env)
    requires s.tx == NoTx
    ensures OpenSingle(s, sql, pageSize, id, env).0.ended == s.ended + OwnEnds(pageSize, env)
  {
    var page := Fetch(InTx(map[id := OpenCursor(env.rows, 0)]), id, pageSize, true).1.value;
    if env.prepared.Some? {
      CollectedFetchReply(page, env.prepared.value);
    }
    assert s.ended + [] == s.ended;
  }

  /** How the transactions of a call end: that of the previous cursor first, then what the call itself began and ended. */
  lemma ExecuteEnds(c: Conn, sql: Bytes, pageSize: nat, id: CursorId, env: Env)
    requires Agrees(c)
    ensures var ended := CleanUp(c.session, c.active, env.cleanup).ended;
            var own := AfterExecute(c, sql, pageSize, id, env).0.session.ended;
            own == if ReachesMain(sql, env) then ended + OwnEnds(pageSize, env) else ended
  {
    CleanUpEnds(c, env.cleanup);
    if ReachesMain(sql, env) {
      hide OpenSingle, OwnEnds;
      MainIsOpened(c, sql, pageSize, id, env);
      OpenSingleEndsTx(CleanUp(c.session, c.active, env.cleanup).(ran := c.session.ran + Before(sql)), Main(sql), pageSize, id, env);
    }
  }

  /** Closing the cursor on record commits its transaction if the server accepts, and rolls it back in every other case. */
  lemma ClosingEnds(c: Conn, choice: CloseChoice)
    requires Agrees(c) && c.active.Some?
    ensures var c' := AfterCloseActive(c, choice);
            && c'.active == None && c'.session.tx == NoTx && c'.session.ran == c.session.ran
            && c'.session.ended == c.session.ended + [if c.session.tx.InTx? && choice == Closes then Committed else RolledBack]
            && AfterCloseQuery(c, c.active.value.cursorId, choice) == c'
  {
    CleanUpEnds(c, choice);
  }

  // ----- Pages -----

  /** The cursor on record is open, over `rows`, with the first `done` of them delivered. */
  predicate OpenAt(c: Conn, id: CursorId, rows: seq<Row>, done: nat) {
    && c.active.Some? && c.active.value.cursorId == id
    && c.session.tx.InTx? && c.session.tx.cursors == map[id := OpenCursor(rows, done)]
    && done <= |rows|
  }

  /** A call returns a cursor exactly when it took one and the first page was full; the cursor stands behind that page. */
  lemma ExecuteOpens(c: Conn, sql: Bytes, pageSize: nat, id: CursorId, env: Env)
    requires Agrees(c)
    ensures var (c', reply) := AfterExecute(c, sql, pageSize, id, env);
            && (c'.active.Some? <==> TakesCursor(sql, env) && |env.rows| >= pageSize)
            && (c'.active.Some? <==>
                  reply.Returned? && reply.value.Ok? && reply.value.value.0.cursorId.Some?)
            && (c'.active.Some? ==>
                  && reply.value.value.0.cursorId == Some(id)
                  && reply.value.value.0.rows == env.rows[..pageSize]
                  && OpenAt(c', id, env.rows, pageSize))
  {
    CleanUpEnds(c, env.cleanup);
    var s0 := CleanUp(c.session, c.active, env.cleanup);
    OpenSingleEnds(s0, sql, pageSize, id, env);
    if IsMultiStatement(sql) && SplitAtLastStatement(sql).Some? {
      var (preamble, main) := SplitAtLastStatement(sql).value;
      OpenSingleEnds(Run(s0, preamble, env.preamble).0, main, pageSize, id, env);
    }
  }

  /** A short first page is the whole result, and no cursor is returned. */
  lemma ExecuteEndsShort(c: Conn, sql: Bytes, pageSize: nat, id: CursorId, env: Env)
    requires Agrees(c) && EndsShort(sql, pageSize, env)
    ensures var reply := AfterExecute(c, sql, pageSize, id, env).1;
            && reply.Returned? && reply.value.Ok?
            && reply.value.value.0.cursorId == None && reply.value.value.0.rows == env.rows
  {
    CleanUpEnds(c, env.cleanup);
    var s0 := CleanUp(c.session, c.active, env.cleanup);
    OpenSingleEnds(s0, sql, pageSize, id, env);
    if IsMultiStatement(sql) {
      var (preamble, main) := SplitAtLastStatement(sql).value;
      OpenSingleEnds(Run(s0, preamble, env.preamble).0, main, pageSize, id, env);
    }
  }

  function Up(done: nat, count: nat, rows: seq<Row>): (end: nat)
    requires done <= |rows|
    ensures done <= end <= |rows|
  {
    done + Min(count, |rows| - done)
  }

  /** A fetched page is the next `count` rows; "no more" is said exactly when fewer were left. */
  lemma FetchContinues(c: Conn, id: CursorId, rows: seq<Row>, done: nat, count: nat)
    requires OpenAt(c, id, rows, done)
    ensures var (c', r) := AfterFetch(c, id, count, true);
            var end := Up(done, count, rows);
            && r == Ok(PageResult(rows[done..end], done + count <= |rows|))
            && OpenAt(c', id, rows, end)
            && (!r.value.hasMore ==> end == |rows|)
  {
    var page := Fetch(c.session.tx, id, count, true).1.value;
    CollectedFetchReply(page, c.active.value.columnCount);
  }

  /** What a client that pages on reads: the rows of its fetches and how many it took. */
  function ReadOn(c: Conn, id: CursorId, count: nat, fuel: nat): (r: (seq<Row>, nat))
    decreases fuel
  {
    if fuel == 0 then ([], 0)
    else
      var (c', r) := AfterFetch(c, id, count, true);
      if r.Err? then ([], 1)
      else if !r.value.hasMore then (r.value.rows, 1)
      else
        var (rest, n) := ReadOn(c', id, count, fuel - 1);
        (r.value.rows + rest, n + 1)
  }

  /** `f` is the floor of `n / count`, plus one. */
  predicate IsPageCount(f: int, n: nat, count: nat) {
    (f - 1) * count <= n < f * count
  }

  lemma OnePageMore(f: nat, n: nat, count: nat)
    requires IsPageCount(f, n, count)
    ensures IsPageCount(f + 1, n + count, count)
  {
    assert (f + 1) * count == f * count + count && f * count == (f - 1) * count + count;
  }

  lemma ReadOnGoesOn(c: Conn, id: CursorId, count: nat, fuel: nat)
    requires fuel > 0
    requires var r := AfterFetch(c, id, count, true).1; r.Ok? && r.value.hasMore
    ensures var (c', r) := AfterFetch(c, id, count, true);
            && ReadOn(c, id, count, fuel).0 == r.value.rows + ReadOn(c', id, count, fuel - 1).0
            && ReadOn(c, id, count, fuel).1 == ReadOn(c', id, count, fuel - 1).1 + 1
  {
  }

  /** Paging on with a constant page size reads every remaining row once and in order. */
  lemma {:induction false} ReadOnIsLossless(c: Conn, id: CursorId, rows: seq<Row>, done: nat, count: nat, fuel: nat)
    requires OpenAt(c, id, rows, done) && count > 0 && fuel > |rows| - done
    ensures ReadOn(c, id, count, fuel).0 == rows[done..]
    ensures IsPageCount(ReadOn(c, id, count, fuel).1, |rows| - done, count)
    decreases fuel
  {
    FetchContinues(c, id, rows, done, count);
    var c' := AfterFetch(c, id, count, true).0;
    if done + count <= |rows| {
      ReadOnGoesOn(c, id, count, fuel);
      ReadOnIsLossless(c', id, rows, done + count, count, fuel - 1);
      assert rows[done..] == rows[done..done + count] + rows[done + count..];
      OnePageMore(ReadOn(c', id, count, fuel - 1).1, |rows| - (done + count), count);
    } else {
      assert rows[done..] == rows[done..|rows|];
    }
  }

  /** The first page, then paging on: the whole result in floor(n / p) + 1 FETCHes. */
  lemma PagesAfterTheFirst(c: Conn, id: CursorId, rows: seq<Row>, p: nat)
    requires p > 0 && OpenAt(c, id, rows, p)
    ensures var (rest, fetches) := ReadOn(c, id, p, |rows| + 1);
            rows[..p] + rest == rows && IsPageCount(1 + fetches, |rows|, p)
  {
    ReadOnIsLossless(c, id, rows, p, p, |rows| + 1);
    assert rows == rows[..p] + rows[p..];
    OnePageMore(ReadOn(c, id, p, |rows| + 1).1, |rows| - p, p);
  }

  /** Executing, then paging on with the cursor returned, if one is: the rows read and the FETCHes it took. */
  function ReadAll(c: Conn, sql: Bytes, p: nat, id: CursorId, env: Env): (r: (seq<Row>, nat)) {
    var (c', reply) := AfterExecute(c, sql, p, id, env);
    if reply.Panicked? || reply.value.Err? then ([], 0)
    else
      var first := reply.value.value.0;
      if first.cursorId.None? then (first.rows, 1)
      else
        var (rest, fetches) := ReadOn(c', first.cursorId.value, p, |env.rows| + 1);
        (first.rows + rest, 1 + fetches)
  }

  /**
   A query read to its end with page size `p > 0`: the pages joined are its `n` rows, each once
   and in order, and it takes floor(n / p) + 1 FETCHes, be the first page short or not.
   */
  lemma PaginationIsLossless(c: Conn, sql: Bytes, p: nat, id: CursorId, env: Env)
    requires Agrees(c) && p > 0 && TakesCursor(sql, env)
    ensures var (rows, fetches) := ReadAll(c, sql, p, id, env);
            rows == env.rows && IsPageCount(fetches, |env.rows|, p)
  {
    ExecuteOpens(c, sql, p, id, env);
    if |env.rows| < p {
      ExecuteEndsShort(c, sql, p, id, env);
    } else {
      PagesAfterTheFirst(AfterExecute(c, sql, p, id, env).0, id, env.rows, p);
    }
  }

  // ----- The script reaches the server -----

  function AllStatements(texts: seq<Bytes>): seq<Bytes> {
    if texts == [] then [] else Statements(texts[0]) + AllStatements(texts[1..])
  }

  lemma OneText(text: Bytes)
    ensures AllStatements([text]) == Statements(text)
  {
    assert Statements(text) + [] == Statements(text);
  }

  lemma TwoTexts(first: Bytes, second: Bytes)
    ensures AllStatements([first, second]) == Statements(first) + Statements(second)
  {
    OneText(second);
    assert [first, second][1..] == [second];
  }

  /** A single statement is run once when the call succeeds, and at most once when it does not. */
  lemma OpenSingleRuns(s: Session, sql: Bytes, pageSize: nat, id: CursorId, env: Env)
    requires s.tx == NoTx
    ensures var (s', reply) := OpenSingle(s, sql, pageSize, id, env);
            && (s'.ran == s.ran || s'.ran == s.ran + [sql])
            && (reply.value.Ok? <==> s'.ran == s.ran + [sql])
  {
    OpenSingleEnds(s, sql, pageSize, id, env);
  }

  /** The texts run by opening a query outside a transaction. */
  lemma OpenRuns(s: Session, sql: Bytes, pageSize: nat, id: CursorId, env: Env) returns (ran: seq<Bytes>)
    requires s.tx == NoTx
    ensures var (s', reply) := Open(s, sql, pageSize, None, id, env);
            && s'.ran == s.ran + ran
            && (reply.Returned? && reply.value.Ok? ==> ran != [])
    ensures var split := SplitAtLastStatement(sql);
            if IsMultiStatement(sql) && split.Some? then
              || ran == [] || ran == [split.value.0, split.value.1]
              || (ran == [split.value.0] && Open(s, sql, pageSize, None, id, env).1.value.Err?)
            else ran == [] || ran == [sql]
  {
    ran := [];
    if AsciiBodies(sql) {
      var split := SplitAtLastStatement(sql);
      if IsMultiStatement(sql) && split.Some? {
        var (s1, ok) := Run(s, split.value.0, env.preamble);
        if ok {
          OpenSingleRuns(s1, split.value.1, pageSize, id, env);
          ran := if OpenSingle(s1, split.value.1, pageSize, id, env).0.ran == s1.ran then [split.value.0] else [split.value.0, split.value.1];
        }
      } else {
        OpenSingleRuns(s, sql, pageSize, id, env);
        ran := if Open(s, sql, pageSize, None, id, env).0.ran == s.ran then [] else [sql];
      }
    }
  }

  /**
   Smart split or not: the texts a successful call runs hold the script's statements, each
   once and in order; a failed call ran a beginning of them.
   */
  lemma ExecuteRunsTheScript(c: Conn, sql: Bytes, pageSize: nat, id: CursorId, env: Env) returns (ran: seq<Bytes>)
    requires Agrees(c)
    ensures var (c', reply) := AfterExecute(c, sql, pageSize, id, env);
            && c'.session.ran == c.session.ran + ran
            && AllStatements(ran) <= Statements(sql)
            && (reply.Returned? && reply.value.Ok? ==> AllStatements(ran) == Statements(sql))
  {
    CleanUpEnds(c, env.cleanup);
    ran := OpenRuns(CleanUp(c.session, c.active, env.cleanup), sql, pageSize, id, env);
    if IsMultiStatement(sql) && SplitAtLastStatement(sql).Some? {
      var (preamble, main) := SplitAtLastStatement(sql).value;
      SplitKeepsScript(sql);
      OneText(preamble);
      TwoTexts(preamble, main);
    } else {
      OneText(sql);
    }
  }
}
