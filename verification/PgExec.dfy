/**
 Query execution: opening a query behind a cursor, fetching pages, closing.

 `OpenQuery` drives a server session command by command; the function of the same
 shape says what the commands come to. The choices the server makes on the way are
 collected in an `Env`.
 */
module PgExec {
  import opened Basics
  import opened Wrappers
  import opened Text
  import opened SqlLexer
  import opened SqlSplit
  import opened PgServer

  // ----- Reply streams -----

  /** What draining a FETCH reply yields: its rows, and the count of its last completion message. */
  function Collected(stream: seq<Message>): (r: (seq<Row>, nat)) {
    if stream == [] then ([], 0)
    else
      var (rows, fetched) := Collected(stream[..|stream| - 1]);
      match stream[|stream| - 1]
      case DataRow(row) => (rows + [row], fetched)
      case CommandComplete(n) => (rows, n)
      case RowDescription(_) => (rows, fetched)
  }

  method CollectRows(stream: seq<Message>) returns (rows: seq<Row>, fetched: nat)
    ensures (rows, fetched) == Collected(stream)
  {
    rows, fetched := [], 0;
    for i := 0 to |stream|
      invariant (rows, fetched) == Collected(stream[..i])
    {
      assert stream[..i + 1][..i] == stream[..i];
      match stream[i] {
        case DataRow(row) => rows := rows + [row];
        case CommandComplete(n) => fetched := n;
        case RowDescription(_) =>
      }
    }
    assert stream[..|stream|] == stream;
  }

  lemma {:induction false} CollectedRowsOnly(width: nat, rows: seq<Row>)
    ensures var stream := [RowDescription(width)] + seq(|rows|, i requires 0 <= i < |rows| => DataRow(rows[i]));
            Collected(stream) == (rows, 0)
  {
    var stream := [RowDescription(width)] + seq(|rows|, i requires 0 <= i < |rows| => DataRow(rows[i]));
    if rows == [] {
      assert stream[..0] == [];
    } else {
      var front := rows[..|rows| - 1];
      CollectedRowsOnly(width, front);
      assert stream[..|stream| - 1] ==
             [RowDescription(width)] + seq(|front|, i requires 0 <= i < |front| => DataRow(front[i]));
      assert front + [rows[|rows| - 1]] == rows;
    }
  }

  /** A FETCH reply is drained into exactly the rows the server sent, and their number. */
  lemma CollectedFetchReply(rows: seq<Row>, width: nat)
    ensures Collected(FetchReply(rows, width)) == (rows, |rows|)
  {
    CollectedRowsOnly(width, rows);
    var stream := FetchReply(rows, width);
    assert stream[..|stream| - 1] ==
           [RowDescription(width)] + seq(|rows|, i requires 0 <= i < |rows| => DataRow(rows[i]));
  }

  /** The collecting state of a bulk run: columns, rows and last completion count. */
  datatype Bulk = Bulk(columns: nat, rows: seq<Row>, affected: Option<nat>)

  function BulkAfter(stream: seq<Message>, pageSize: nat): Bulk {
    if stream == [] then Bulk(0, [], None)
    else
      var b := BulkAfter(stream[..|stream| - 1], pageSize);
      match stream[|stream| - 1]
      case RowDescription(width) => b.(columns := width, rows := [])
      case DataRow(row) => if |b.rows| >= pageSize then b else b.(rows := b.rows + [row])
      case CommandComplete(n) => b.(affected := Some(n))
  }

  method CollectBulk(stream: seq<Message>, pageSize: nat) returns (b: Bulk)
    ensures b == BulkAfter(stream, pageSize)
  {
    var columns, rows, affected := 0, [], None;
    for i := 0 to |stream|
      invariant Bulk(columns, rows, affected) == BulkAfter(stream[..i], pageSize)
    {
      assert stream[..i + 1][..i] == stream[..i];
      match stream[i] {
        case RowDescription(width) => columns, rows := width, [];
        case DataRow(row) =>
          if |rows| < pageSize {
            rows := rows + [row];
          }
        case CommandComplete(n) => affected := Some(n);
      }
    }
    assert stream[..|stream|] == stream;
    b := Bulk(columns, rows, affected);
  }

  /** The messages of a statement that returned `rows`. */
  function Block(width: nat, rows: seq<Row>): seq<Message> {
    [RowDescription(width)] + seq(|rows|, i requires 0 <= i < |rows| => DataRow(rows[i]))
  }

  lemma {:induction false} BulkBlock(before: seq<Message>, width: nat, rows: seq<Row>, pageSize: nat)
    ensures var b := BulkAfter(before + Block(width, rows), pageSize);
            b.columns == width && b.rows == rows[..Min(pageSize, |rows|)]
  {
    var stream := before + Block(width, rows);
    if rows == [] {
      assert stream[..|stream| - 1] == before;
    } else {
      var front := rows[..|rows| - 1];
      BulkBlock(before, width, front, pageSize);
      assert stream[..|stream| - 1] == before + Block(width, front);
      assert stream[|stream| - 1] == DataRow(rows[|rows| - 1]);
    }
  }

  /** A bulk run keeps the last row-returning statement's first page, whatever ran before it. */
  lemma {:induction false} BulkKeepsLastResult(
    before: seq<Message>, width: nat, rows: seq<Row>, after: seq<Message>, pageSize: nat)
    requires forall m :: m in after ==> m.CommandComplete?
    ensures var b := BulkAfter(before + Block(width, rows) + after, pageSize);
            b.columns == width && b.rows == rows[..Min(pageSize, |rows|)]
  {
    var stream := before + Block(width, rows) + after;
    if after == [] {
      assert stream == before + Block(width, rows);
      BulkBlock(before, width, rows, pageSize);
    } else {
      BulkKeepsLastResult(before, width, rows, after[..|after| - 1], pageSize);
      assert stream[..|stream| - 1] == before + Block(width, rows) + after[..|after| - 1];
      assert stream[|stream| - 1] == after[|after| - 1] && after[|after| - 1] in after;
    }
  }

  function FirstCompletion(stream: seq<Message>): Option<nat> {
    if stream == [] then None
    else if stream[0].CommandComplete? then Some(stream[0].count)
    else FirstCompletion(stream[1..])
  }

  /** The first count of a reply, if it has one. */
  lemma {:induction false} FirstCompletionIs(before: seq<Message>, n: nat, after: seq<Message>)
    requires forall m :: m in before ==> !m.CommandComplete?
    ensures FirstCompletion(before + [CommandComplete(n)] + after) == Some(n) && FirstCompletion(before) == None
  {
    var stream := before + [CommandComplete(n)] + after;
    if before == [] {
      assert stream[0] == CommandComplete(n);
    } else {
      FirstCompletionIs(before[1..], n, after);
      assert stream[0] == before[0] && stream[1..] == before[1..] + [CommandComplete(n)] + after;
    }
  }

  /** A bulk run answers with the last count of its reply. */
  lemma {:induction false} BulkCountsLast(before: seq<Message>, n: nat, after: seq<Message>, pageSize: nat)
    requires forall m :: m in after ==> !m.CommandComplete?
    ensures BulkAfter(before + [CommandComplete(n)] + after, pageSize).affected == Some(n)
    ensures BulkAfter(after, pageSize).affected == None
    decreases |after|
  {
    var stream := before + [CommandComplete(n)] + after;
    if after == [] {
      assert stream[..|stream| - 1] == before;
    } else {
      var front := after[..|after| - 1];
      BulkCountsLast(before, n, front, pageSize);
      assert stream[..|stream| - 1] == before + [CommandComplete(n)] + front;
      assert stream[|stream| - 1] == after[|after| - 1] && after[|after| - 1] in after;
    }
  }

  // ----- Opening a query -----

  datatype ActiveCursor = ActiveCursor(cursorId: CursorId, columnCount: nat)

  datatype ExecutionOutcome = ExecutionOutcome(
    columns: nat, rows: seq<Row>, rowsAffected: Option<nat>, cursorId: Option<CursorId>)

  datatype PgError = Driver | CursorExpired

  type Reply = Checked<Result<(ExecutionOutcome, Option<ActiveCursor>), PgError>>

  /** The server's choices during one call; `None` stands for an error reply. */
  datatype Env = Env(
    cleanup: CloseChoice,
    preamble: bool,
    bulk: Option<seq<Message>>,
    prepared: Option<nat>,
    direct: Option<seq<Message>>,
    declare: DeclareChoice,
    rows: seq<Row>,
    firstFetch: bool,
    finalClose: CloseChoice)

  /** How a transaction ended: with its changes, or without. */
  datatype End = Committed | RolledBack

  /**
   The session behind a client: its transaction, the user texts it has run to completion, and
   how its transactions ended, in order.
   */
  datatype Session = Session(tx: Tx, ran: seq<Bytes>, ended: seq<End>)

  function Run(s: Session, text: Bytes, succeeds: bool): (r: (Session, bool)) {
    var (tx, ok) := RunText(s.tx, succeeds);
    (s.(tx := tx, ran := if ok then s.ran + [text] else s.ran), ok)
  }

  /** A command leaves the session in `tx`; if that ends a transaction, it ended like this. */
  function Settled(s: Session, tx: Tx, how: End): Session {
    s.(tx := tx, ended := if s.tx != NoTx && tx == NoTx then s.ended + [how] else s.ended)
  }

  /** The server's side of `CLOSE c; COMMIT`: the changes last if it answers with success. */
  function SendClose(s: Session, id: CursorId, choice: CloseChoice): (r: (Session, bool)) {
    var (tx, ok) := CloseCommit(s.tx, id, choice);
    (Settled(s, tx, if ok then Committed else RolledBack), ok)
  }

  /** And of ROLLBACK. */
  function SendRollback(s: Session): Session {
    Settled(s, Rollback(s.tx), RolledBack)
  }

  /** `CLOSE c; COMMIT`, and ROLLBACK when that fails. */
  function CloseOrRollBack(s: Session, id: CursorId, choice: CloseChoice): Session {
    var (s', ok) := SendClose(s, id, choice);
    if ok then s' else SendRollback(s')
  }

  function CleanUp(s: Session, previous: Option<ActiveCursor>, choice: CloseChoice): Session {
    if previous.Some? then CloseOrRollBack(s, previous.value.cursorId, choice) else s
  }

  function RunMulti(s: Session, sql: Bytes, pageSize: nat, reply: Option<seq<Message>>): (r: (Session, Reply)) {
    var (s', ok) := Run(s, sql, reply.Some?);
    if !ok then (s', Returned(Err(Driver)))
    else
      var b := BulkAfter(reply.value, pageSize);
      (s', Returned(Ok((ExecutionOutcome(b.columns, b.rows, b.affected, None), None))))
  }

  /** The first page is short: the cursor is done with, and closing it is not checked. */
  function FinishShort(s: Session, id: CursorId, columns: nat, rows: seq<Row>, choice: CloseChoice): (r: (Session, Reply)) {
    var (s', _) := SendClose(s, id, choice);
    (s', Returned(Ok((ExecutionOutcome(columns, rows, Some(|rows|), None), None))))
  }

  function OpenCursorFor(s: Session, sql: Bytes, pageSize: nat, id: CursorId, columns: nat, env: Env): (r: (Session, Reply)) {
    var (tx1, declared) := BeginDeclare(s.tx, id, env.rows, env.declare);
    if declared.Refuses? then
      var s' := SendRollback(s.(tx := tx1));
      if declared.syntaxError then RunMulti(s', sql, pageSize, env.bulk) else (s', Returned(Err(Driver)))
    else
      var (tx2, page) := Fetch(tx1, id, pageSize, env.firstFetch);
      if page.None? then (SendRollback(s.(tx := tx2)), Returned(Err(Driver)))
      else
        var (rows, fetched) := Collected(FetchReply(page.value, columns));
        var s' := s.(tx := tx2, ran := s.ran + [sql]);
        if fetched < pageSize then FinishShort(s', id, columns, rows, env.finalClose)
        else
          (s', Returned(Ok((ExecutionOutcome(columns, rows, Some(fetched), Some(id)), Some(ActiveCursor(id, columns))))))
  }

  function OpenSingle(s: Session, sql: Bytes, pageSize: nat, id: CursorId, env: Env): (r: (Session, Reply)) {
    var (tx1, prepared) := RunText(s.tx, env.prepared.Some?);
    var s1 := s.(tx := tx1);
    if !prepared then (s1, Returned(Err(Driver)))
    else if env.prepared.value == 0 then
      var (s2, ok) := Run(s1, sql, env.direct.Some?);
      if !ok then (s2, Returned(Err(Driver)))
      else (s2, Returned(Ok((ExecutionOutcome(0, [], FirstCompletion(env.direct.value), None), None))))
    else OpenCursorFor(s1, sql, pageSize, id, env.prepared.value, env)
  }

  function Open(s: Session, sql: Bytes, pageSize: nat, previous: Option<ActiveCursor>, id: CursorId, env: Env): (r: (Session, Reply)) {
    var s0 := CleanUp(s, previous, env.cleanup);
    if !AsciiBodies(sql) then (s0, Panicked)
    else if IsMultiStatement(sql) then
      match SplitAtLastStatement(sql)
      case Some((preamble, main)) =>
        var (s1, ok) := Run(s0, preamble, env.preamble);
        if !ok then (s1, Returned(Err(Driver))) else OpenSingle(s1, main, pageSize, id, env)
      case None => RunMulti(s0, sql, pageSize, env.bulk)
    else OpenSingle(s0, sql, pageSize, id, env)
  }

  /** The client's end of the wire: each method is one round trip. */
  class Client {
    var session: Session

    constructor (session: Session)
      ensures this.session == session
    {
      this.session := session;
    }

    method CloseAndCommit(id: CursorId, choice: CloseChoice) returns (ok: bool)
      modifies this
      ensures (session, ok) == SendClose(old(session), id, choice)
    {
      var (s, r) := SendClose(session, id, choice);
      session := s;
      ok := r;
    }

    method RollBack()
      modifies this
      ensures session == SendRollback(old(session))
    {
      session := SendRollback(session);
    }

    method Prepare(columns: Option<nat>) returns (r: Option<nat>)
      modifies this
      ensures session == old(session).(tx := RunText(old(session.tx), columns.Some?).0)
      ensures r == if RunText(old(session.tx), columns.Some?).1 then columns else None
    {
      var (tx, ok) := RunText(session.tx, columns.Some?);
      session := session.(tx := tx);
      r := if ok then columns else None;
    }

    method Submit(text: Bytes, reply: Option<seq<Message>>) returns (r: Option<seq<Message>>)
      modifies this
      ensures session == Run(old(session), text, reply.Some?).0
      ensures r == if Run(old(session), text, reply.Some?).1 then reply else None
    {
      var (s, ok) := Run(session, text, reply.Some?);
      session := s;
      r := if ok then reply else None;
    }

    method Declare(id: CursorId, rows: seq<Row>, choice: DeclareChoice) returns (r: DeclareChoice)
      modifies this
      ensures session == old(session).(tx := BeginDeclare(old(session.tx), id, rows, choice).0)
      ensures r == BeginDeclare(old(session.tx), id, rows, choice).1
    {
      var (tx, d) := BeginDeclare(session.tx, id, rows, choice);
      session := session.(tx := tx);
      r := d;
    }

    method FetchForward(id: CursorId, count: nat, width: nat, succeeds: bool) returns (r: Option<seq<Message>>)
      modifies this
      ensures session == old(session).(tx := Fetch(old(session.tx), id, count, succeeds).0)
      ensures var page := Fetch(old(session.tx), id, count, succeeds).1;
              r == if page.Some? then Some(FetchReply(page.value, width)) else None
    {
      var (tx, page) := Fetch(session.tx, id, count, succeeds);
      session := session.(tx := tx);
      r := if page.Some? then Some(FetchReply(page.value, width)) else None;
    }
  }

  method RunMultiStatement(client: Client, sql: Bytes, pageSize: nat, reply: Option<seq<Message>>) returns (r: Reply)
    modifies client
    ensures (client.session, r) == RunMulti(old(client.session), sql, pageSize, reply)
  {
    var stream := client.Submit(sql, reply);
    if stream.None? {
      return Returned(Err(Driver));
    }
    var b := CollectBulk(stream.value, pageSize);
    return Returned(Ok((ExecutionOutcome(b.columns, b.rows, b.affected, None), None)));
  }

  /** The part of `open_query` behind the test for several statements. */
  method OpenSingleStatement(client: Client, sql: Bytes, pageSize: nat, id: CursorId, env: Env) returns (r: Reply)
    modifies client
    ensures (client.session, r) == OpenSingle(old(client.session), sql, pageSize, id, env)
  {
    var columns := client.Prepare(env.prepared);
    if columns.None? {
      return Returned(Err(Driver));
    }
    if columns.value == 0 {
      var stream := client.Submit(sql, env.direct);
      if stream.None? {
        return Returned(Err(Driver));
      }
      return Returned(Ok((ExecutionOutcome(0, [], FirstCompletion(stream.value), None), None)));
    }
    var declared := client.Declare(id, env.rows, env.declare);
    if declared.Refuses? {
      client.RollBack();
      if declared.syntaxError {
        r := RunMultiStatement(client, sql, pageSize, env.bulk);
        return;
      }
      return Returned(Err(Driver));
    }
    var stream := client.FetchForward(id, pageSize, columns.value, env.firstFetch);
    if stream.None? {
      client.RollBack();
      return Returned(Err(Driver));
    }
    client.session := client.session.(ran := client.session.ran + [sql]);
    var rows, fetched := CollectRows(stream.value);
    ghost var page := Fetch(BeginDeclare(RunText(old(client.session.tx), true).0, id, env.rows, env.declare).0,
                            id, pageSize, env.firstFetch).1;
    CollectedFetchReply(page.value, columns.value);
    if fetched < pageSize {
      var _ := client.CloseAndCommit(id, env.finalClose);
      return Returned(Ok((ExecutionOutcome(columns.value, rows, Some(fetched), None), None)));
    }
    return Returned(Ok((ExecutionOutcome(columns.value, rows, Some(fetched), Some(id)), Some(ActiveCursor(id, columns.value)))));
  }

  /**
   `open_query`. The call on the last statement of a script is the source's own recursion;
   it ends there because a split-off statement never splits again.
   */
  method OpenQuery(client: Client, sql: Bytes, pageSize: nat, previous: Option<ActiveCursor>, id: CursorId, env: Env)
    returns (r: Reply)
    requires Utf8(sql)
    modifies client
    ensures (client.session, r) == Open(old(client.session), sql, pageSize, previous, id, env)
    decreases if IsMultiStatement(sql) then 1 else 0
  {
    if previous.Some? {
      var ok := client.CloseAndCommit(previous.value.cursorId, env.cleanup);
      if !ok {
        client.RollBack();
      }
    }
    var multi := CheckMultiStatement(sql);
    if multi.Panicked? {
      return Panicked;
    }
    if multi.value {
      var split := CheckSplit(sql);
      SplitIff(sql);
      if split.value.Some? {
        var (preamble, main) := split.value.value;
        var stream := client.Submit(preamble, if env.preamble then Some([]) else None);
        if stream.None? {
          return Returned(Err(Driver));
        }
        r := OpenQuery(client, main, pageSize, None, id, env);
        return;
      }
      r := RunMultiStatement(client, sql, pageSize, env.bulk);
      return;
    }
    r := OpenSingleStatement(client, sql, pageSize, id, env);
  }
}
