/**
 One Postgres session, as far as the client's commands can tell: a transaction state
 and the cursors open in it. The text of user statements holds no transaction control.

 Where a server has a choice (a statement fails, a cancel request arrives, a commit is
 refused) the choice is an argument.
 */
module PgServer {
  import opened Basics
  import opened Wrappers

  type CursorId = nat

  /** `None` is SQL NULL. */
  type Row = seq<Option<string>>

  datatype OpenCursor = OpenCursor(rows: seq<Row>, pos: nat)

  datatype Tx =
    | NoTx
    | InTx(cursors: map<CursorId, OpenCursor>)
    | Aborted

  /** What becomes of `CLOSE c; COMMIT` when the cursor is there to be closed. */
  datatype CloseChoice = Closes | CloseInterrupted | CommitRefused

  /** What becomes of `BEGIN; DECLARE c ...`: it works, or fails before or after BEGIN took effect. */
  datatype DeclareChoice = Declares | Refuses(syntaxError: bool, begun: bool)

  function CloseCommit(tx: Tx, id: CursorId, choice: CloseChoice): (r: (Tx, bool)) {
    match tx
    case NoTx => (NoTx, false)
    case Aborted => (Aborted, false)
    case InTx(cursors) =>
      if id !in cursors || choice == CloseInterrupted then (Aborted, false)
      else (NoTx, choice == Closes)
  }

  function Rollback(tx: Tx): Tx {
    NoTx
  }

  /** A user statement or script, a `prepare`, an edit, an introspection query. */
  function RunText(tx: Tx, succeeds: bool): (r: (Tx, bool)) {
    match tx
    case NoTx => (NoTx, succeeds)
    case Aborted => (Aborted, false)
    case InTx(_) => if succeeds then (tx, true) else (Aborted, false)
  }

  function BeginDeclare(tx: Tx, id: CursorId, rows: seq<Row>, choice: DeclareChoice): (r: (Tx, DeclareChoice)) {
    match tx
    case Aborted => (Aborted, Refuses(false, false))
    case NoTx =>
      if choice.Declares? then (InTx(map[id := OpenCursor(rows, 0)]), Declares)
      else (if choice.begun then Aborted else NoTx, choice)
    case InTx(cursors) =>
      if choice.Declares? && id !in cursors then (InTx(cursors[id := OpenCursor(rows, 0)]), Declares)
      else (Aborted, Refuses(false, true))
  }

  /** `FETCH FORWARD count`: the next `count` rows, or as many as there are. */
  function Fetch(tx: Tx, id: CursorId, count: nat, succeeds: bool): (r: (Tx, Option<seq<Row>>)) {
    match tx
    case NoTx => (NoTx, None)
    case Aborted => (Aborted, None)
    case InTx(cursors) =>
      if !succeeds || id !in cursors || |cursors[id].rows| < cursors[id].pos then (Aborted, None)
      else
        var c := cursors[id];
        var end := c.pos + Min(count, |c.rows| - c.pos);
        (InTx(cursors[id := c.(pos := end)]), Some(c.rows[c.pos..end]))
  }

  // ----- Reply streams -----

  datatype Message =
    | RowDescription(width: nat)
    | DataRow(row: Row)
    | CommandComplete(count: nat)

  /** The stream a FETCH that returned `rows` is answered with. */
  function FetchReply(rows: seq<Row>, width: nat): seq<Message> {
    [RowDescription(width)] + seq(|rows|, i requires 0 <= i < |rows| => DataRow(rows[i])) + [CommandComplete(|rows|)]
  }
}
