/**
 Whose rows a page holds, under every interleaving: the cursor checked under the operation
 lock is the cursor the FETCH reads, and its rows are those of the execute call that made it.
 */
module PoolBooks {
  import opened Wrappers
  import opened PoolState
  import opened PgServer
  import opened PgExec
  import opened PgCursor
  import opened PoolRuns
  import opened PoolCounts
  import opened PoolSafety

  // ----- One connection and the books -----

  /** A cursor on record has a book for this connection, and is where the book says, or is lost to an abort. */
  predicate OnBook(conn: Conn, c: ConnId, books: map<CursorId, Book>) {
    match conn.active
    case None => conn.session.tx == NoTx || conn.session.tx == PgServer.Aborted
    case Some(a) =>
      && a.cursorId in books
      && books[a.cursorId].conn == c
      && (conn.session.tx == PgServer.Aborted || OpenAt(conn, a.cursorId, books[a.cursorId].rows, |books[a.cursorId].delivered|))
  }

  /** What was handed out is a beginning of the result. */
  predicate Prefixes(books: map<CursorId, Book>) {
    forall id :: id in books ==> books[id].delivered <= books[id].rows
  }

  predicate Minted(books: map<CursorId, Book>, next: CursorId) {
    forall id :: id in books ==> id < next
  }

  lemma OnBookAgrees(conn: Conn, c: ConnId, books: map<CursorId, Book>)
    requires OnBook(conn, c, books)
    ensures Agrees(conn) || Stranded(conn)
  {
  }

  /** An execute window: a cursor returned starts its book, any other end leaves none on record. */
  lemma ExecuteOnBook(conn: Conn, c: ConnId, books: map<CursorId, Book>, next: CursorId, i: nat, op: Op, choice: Choice)
    requires OnBook(conn, c, books) && Prefixes(books) && Minted(books, next) && op.Execute?
    ensures var (conn', outcome) := Use(conn, op, next, choice);
            var books' := Booked(books, i, c, op, outcome, choice.env.rows);
            OnBook(conn', c, books') && Prefixes(books') && Minted(books', next + 1)
  {
    OnBookAgrees(conn, c, books);
    if Stranded(conn) {
      StrandedStays(conn, op.sql, op.pageSize, next, choice.env, 0, true, Closes);
    } else {
      ExecuteOpens(conn, op.sql, op.pageSize, next, choice.env);
      ExecuteAgreesIff(conn, op.sql, op.pageSize, next, choice.env);
    }
  }

  /** The cursor an execute returns has the number it was given. */
  lemma ExecuteMints(conn: Conn, books: map<CursorId, Book>, c: ConnId, next: CursorId, op: Op, choice: Choice)
    requires OnBook(conn, c, books) && op.Execute?
    ensures var reply := AfterExecute(conn, op.sql, op.pageSize, next, choice.env).1;
            reply.Returned? && reply.value.Ok? && reply.value.value.0.cursorId.Some? ==>
              reply.value.value.0.cursorId == Some(next)
  {
    OnBookAgrees(conn, c, books);
    if Stranded(conn) {
      StrandedStays(conn, op.sql, op.pageSize, next, choice.env, 0, true, Closes);
    } else {
      ExecuteOpens(conn, op.sql, op.pageSize, next, choice.env);
    }
  }

  lemma FetchOnBook(conn: Conn, c: ConnId, books: map<CursorId, Book>, next: CursorId, i: nat, op: Op, choice: Choice)
    requires OnBook(conn, c, books) && Prefixes(books) && op.FetchPage?
    ensures var (conn', outcome) := Use(conn, op, next, choice);
            var books' := Booked(books, i, c, op, outcome, choice.env.rows);
            OnBook(conn', c, books') && Prefixes(books') && books'.Keys == books.Keys
    ensures var page := AfterFetch(conn, op.id, op.count, choice.succeeds).1;
            page.Ok? ==>
              && op.id in books && books[op.id].conn == c
              && var b := books[op.id];
                 var end := Up(|b.delivered|, op.count, b.rows);
                 && page.value.rows == b.rows[|b.delivered|..end]
                 && page.value.hasMore == (|b.delivered| + op.count <= |b.rows|)
                 && b.delivered + page.value.rows == b.rows[..end]
  {
    if conn.active.Some? && conn.active.value.cursorId == op.id && conn.session.tx.InTx? && choice.succeeds {
      var b := books[op.id];
      FetchContinues(conn, op.id, b.rows, |b.delivered|, op.count);
      var end := Up(|b.delivered|, op.count, b.rows);
      assert b.delivered == b.rows[..|b.delivered|];
      assert b.rows[..|b.delivered|] + b.rows[|b.delivered|..end] == b.rows[..end];
    }
  }

  lemma OtherOnBook(conn: Conn, c: ConnId, books: map<CursorId, Book>, next: CursorId, i: nat, op: Op, choice: Choice)
    requires OnBook(conn, c, books) && (op.CloseQuery? || op.Edit?)
    ensures var (conn', outcome) := Use(conn, op, next, choice);
            OnBook(conn', c, books) && Booked(books, i, c, op, outcome, choice.env.rows) == books
  {
  }

  /** No other connection's books change. */
  predicate KeepsOthers(books: map<CursorId, Book>, books': map<CursorId, Book>, c: ConnId) {
    forall id :: id in books && books[id].conn != c ==> id in books' && books'[id] == books[id]
  }

  /** Whatever a window does to a connection, its cursor stays on the books. */
  lemma UseOnBook(conn: Conn, c: ConnId, books: map<CursorId, Book>, next: CursorId, i: nat, op: Op, choice: Choice)
    requires OnBook(conn, c, books) && Prefixes(books) && Minted(books, next)
    ensures var (conn', outcome) := Use(conn, op, next, choice);
            var books' := Booked(books, i, c, op, outcome, choice.env.rows);
            && OnBook(conn', c, books') && Prefixes(books')
            && Minted(books', if op.Execute? then next + 1 else next)
            && KeepsOthers(books, books', c)
  {
    if op.Execute? {
      ExecuteOnBook(conn, c, books, next, i, op, choice);
      ExecuteMints(conn, books, c, next, op, choice);
    } else if op.FetchPage? {
      FetchOnBook(conn, c, books, next, i, op, choice);
    } else {
      OtherOnBook(conn, c, books, next, i, op, choice);
    }
  }

  // ----- The whole pool -----

  /** What an execute call that returned a cursor returned with it. */
  function WithCursor(t: Task): Option<ExecutionOutcome> {
    if t.Done? && t.outcome.Executed? && t.outcome.reply.Returned? && t.outcome.reply.value.Ok?
       && t.outcome.reply.value.value.0.cursorId.Some?
    then Some(t.outcome.reply.value.value.0)
    else None
  }

  predicate ConnsOnBook(conns: seq<Conn>, books: map<CursorId, Book>) {
    forall c :: 0 <= c < |conns| ==> OnBook(conns[c], c, books)
  }

  /** A book is the book of the one execute call that returned its cursor. */
  predicate Titled(tasks: seq<Task>, id: CursorId, b: Book) {
    && b.task < |tasks|
    && WithCursor(tasks[b.task]).Some?
    && WithCursor(tasks[b.task]).value.cursorId == Some(id)
    && WithCursor(tasks[b.task]).value.rows <= b.delivered
  }

  predicate BooksTitled(tasks: seq<Task>, books: map<CursorId, Book>) {
    && (forall id :: id in books ==> Titled(tasks, id, books[id]))
    && (forall i :: 0 <= i < |tasks| && WithCursor(tasks[i]).Some? ==>
          WithCursor(tasks[i]).value.cursorId.value in books && books[WithCursor(tasks[i]).value.cursorId.value].task == i)
  }

  predicate Shelved(sys: System) {
    && ConnsOnBook(sys.conns, sys.books)
    && Prefixes(sys.books)
    && Minted(sys.books, sys.nextCursor)
    && BooksTitled(sys.tasks, sys.books)
  }

  lemma NextTitled(tasks: seq<Task>, books: map<CursorId, Book>, i: nat, t: Task)
    requires BooksTitled(tasks, books) && i < |tasks| && WithCursor(tasks[i]).None? && WithCursor(t).None?
    ensures BooksTitled(tasks[i := t], books)
  {
  }

  /** A window that leaves books and connections alone, but for opening one. */
  lemma NextShelved(sys: System, i: nat, t: Task, sys': System)
    requires Shelved(sys) && i < |sys.tasks| && WithCursor(sys.tasks[i]).None? && WithCursor(t).None?
    requires sys'.tasks == sys.tasks[i := t] && sys'.books == sys.books && sys'.nextCursor == sys.nextCursor
    requires sys'.conns == sys.conns || sys'.conns == sys.conns + [FRESH]
    ensures Shelved(sys')
  {
    NextTitled(sys.tasks, sys.books, i, t);
  }

  lemma AssignShelved(sys: System, i: nat, s: SessionId, op: Op, c: ConnId)
    requires Shelved(sys) && i < |sys.tasks| && sys.tasks[i] == Assigning(s, op, c)
    ensures Shelved(AssignWindow(sys, i, s, op, c))
  {
    NextShelved(sys, i, Using(s, op, c), AssignWindow(sys, i, s, op, c));
  }

  lemma DialShelved(sys: System, i: nat, t: Task, dials: bool)
    requires Shelved(sys) && i < |sys.tasks| && WithCursor(sys.tasks[i]).None? && WithCursor(t).None?
    ensures Shelved(DialWindow(sys, i, t, dials))
  {
    NextShelved(sys, i, if dials then t else RollingBack, DialWindow(sys, i, t, dials));
  }

  lemma LeasingShelved(sys: System, i: nat, t: Task, choice: Choice)
    requires Shelved(sys) && i < |sys.tasks| && sys.tasks[i] == t && Leasing(t)
    ensures Shelved(LeasingWindow(sys, i, t, choice))
  {
    if t.Assigning? {
      AssignShelved(sys, i, t.s, t.op, t.c);
    } else if t.Opening? {
      DialShelved(sys, i, Assigning(t.s, t.op, |sys.conns|), choice.dials);
    } else {
      var sys' := LeasingWindow(sys, i, t, choice);
      NextShelved(sys, i, sys'.tasks[i], sys');
    }
  }

  lemma SidingShelved(sys: System, i: nat, t: Task, choice: Choice)
    requires Shelved(sys) && i < |sys.tasks| && sys.tasks[i] == t && Siding(t)
    ensures Shelved(SidingWindow(sys, i, t, choice))
  {
    if t.OpeningFor? {
      DialShelved(sys, i, Inserting(t.db, |sys.conns|), choice.dials);
    } else {
      var sys' := SidingWindow(sys, i, t, choice);
      NextShelved(sys, i, sys'.tasks[i], sys');
    }
  }

  lemma SweepingShelved(sys: System, i: nat, t: Task)
    requires Shelved(sys) && i < |sys.tasks| && sys.tasks[i] == t && Sweeping(t)
    ensures Shelved(SweepingWindow(sys, i, t))
  {
    var sys' := SweepingWindow(sys, i, t);
    NextShelved(sys, i, sys'.tasks[i], sys');
  }

  /** A connection with its cursor closed, or with a statement run on it, keeps to the same book. */
  lemma SetShelved(sys: System, c: ConnId, conn: Conn)
    requires Shelved(sys) && (c < |sys.conns| ==> OnBook(conn, c, sys.books))
    ensures Shelved(SetConn(sys, c, conn))
  {
  }

  lemma ReleasingShelved(sys: System, i: nat, t: Task, choice: Choice)
    requires Shelved(sys) && i < |sys.tasks| && sys.tasks[i] == t && Releasing(t)
    ensures Shelved(ReleasingWindow(sys, i, t, choice))
  {
    var sys' := ReleasingWindow(sys, i, t, choice);
    if t.Cleaning? {
      SetShelved(sys, t.c, AfterCloseActive(ConnOf(sys, t.c), choice.close));
      NextShelved(SetConn(sys, t.c, AfterCloseActive(ConnOf(sys, t.c), choice.close)), i, sys'.tasks[i], sys');
    } else {
      NextShelved(sys, i, sys'.tasks[i], sys');
    }
  }

  lemma BrowseShelved(sys: System, i: nat, c: ConnId, choice: Choice)
    requires Shelved(sys) && i < |sys.tasks| && sys.tasks[i] == Browsing(c)
    ensures Shelved(BrowseWindow(sys, i, c, choice))
  {
    var conn := AfterStatement(ConnOf(sys, c), choice.succeeds).0;
    SetShelved(sys, c, conn);
    NextShelved(SetConn(sys, c, conn), i, Done(Finished), BrowseWindow(sys, i, c, choice));
  }

  lemma PrefixGrows(a: seq<Row>, b: seq<Row>, more: seq<Row>)
    requires a <= b
    ensures a <= b + more
  {
  }

  /** The titles after a window under the operation lock. */
  lemma UseTitled(sys: System, i: nat, op: Op, c: ConnId, choice: Choice)
    requires Shelved(sys) && i < |sys.tasks| && WithCursor(sys.tasks[i]).None?
    requires OnBook(ConnOf(sys, c), c, sys.books)
    ensures var outcome := Use(ConnOf(sys, c), op, sys.nextCursor, choice).1;
            BooksTitled(sys.tasks[i := Done(outcome)], Booked(sys.books, i, c, op, outcome, choice.env.rows))
  {
    var outcome := Use(ConnOf(sys, c), op, sys.nextCursor, choice).1;
    if op.Execute? {
      ExecuteMints(ConnOf(sys, c), sys.books, c, sys.nextCursor, op, choice);
      var t := Done(outcome);
      if WithCursor(t).None? {
        NextTitled(sys.tasks, sys.books, i, t);
      } else {
        assert sys.nextCursor !in sys.books;
      }
    } else {
      NextTitled(sys.tasks, sys.books, i, Done(outcome));
      if op.FetchPage? && outcome.page.Ok? && op.id in sys.books {
        var b := sys.books[op.id];
        PrefixGrows(WithCursor(sys.tasks[b.task]).value.rows, b.delivered, outcome.page.value.rows);
      }
    }
  }

  lemma UseShelved(sys: System, i: nat, op: Op, c: ConnId, choice: Choice)
    requires Shelved(sys) && i < |sys.tasks| && sys.tasks[i].Using? && c < |sys.conns|
    ensures Shelved(UseWindow(sys, i, op, c, choice))
  {
    var (conn, outcome) := Use(sys.conns[c], op, sys.nextCursor, choice);
    var books := Booked(sys.books, i, c, op, outcome, choice.env.rows);
    UseOnBook(sys.conns[c], c, sys.books, sys.nextCursor, i, op, choice);
    UseTitled(sys, i, op, c, choice);
    var conns := sys.conns[c := conn];
    forall d | 0 <= d < |conns| ensures OnBook(conns[d], d, books) {
      assert OnBook(sys.conns[d], d, sys.books);
    }
  }

  lemma WindowShelved(sys: System, i: nat, choice: Choice)
    requires Placed(sys) && Shelved(sys) && i < |sys.tasks|
    ensures Shelved(Window(sys, i, choice))
  {
    var t := sys.tasks[i];
    if Leasing(t) {
      LeasingShelved(sys, i, t, choice);
    } else if Siding(t) {
      SidingShelved(sys, i, t, choice);
    } else if Releasing(t) {
      ReleasingShelved(sys, i, t, choice);
    } else if Sweeping(t) {
      SweepingShelved(sys, i, t);
    } else if t.Using? {
      assert Borrowed(t) == Some(t.c);
      UseShelved(sys, i, t.op, t.c, choice);
    } else if t.Browsing? {
      BrowseShelved(sys, i, t.b, choice);
    } else if t.RollingBack? {
      NextShelved(sys, i, Done(ConnectFailed), RollBackWindow(sys, i));
    }
  }

  lemma BeginShelved(sys: System, call: Call)
    requires Shelved(sys)
    ensures Shelved(Apply(sys, Begin(call)))
  {
    var t := Entered(sys, call);
    assert WithCursor(t).None?;
    var tasks := sys.tasks + [t];
    assert forall i :: 0 <= i < |sys.tasks| ==> tasks[i] == sys.tasks[i];
  }

  lemma EventShelved(sys: System, ev: Event)
    requires Placed(sys) && Shelved(sys)
    ensures Shelved(Apply(sys, ev))
  {
    match ev
    case Begin(call) => BeginShelved(sys, call);
    case Step(i, choice) => if i < |sys.tasks| { WindowShelved(sys, i, choice); }
    case Tick(_) =>
  }

  lemma {:induction false} ReachShelved(cfg: Config, evs: seq<Event>)
    requires cfg.maxSize > 0
    ensures Shelved(Reach(cfg, evs))
  {
    if evs != [] {
      var front := evs[..|evs| - 1];
      ReachShelved(cfg, front);
      ReachSound(cfg, front);
      EventShelved(Reach(cfg, front), evs[|evs| - 1]);
    }
  }

  /** The page is the next stretch of the book's rows; "no more" means that all were handed out. */
  predicate Continues(b: Book, count: nat, page: PageResult, b': Book) {
    && b.delivered <= b.rows
    && page.rows == b.rows[|b.delivered|..Up(|b.delivered|, count, b.rows)]
    && b' == b.(delivered := b.delivered + page.rows)
    && b'.delivered <= b.rows
    && (!page.hasMore ==> b'.delivered == b.rows)
  }

  /** The page a fetch window is answered with, if it is, continues the book of its cursor. */
  ghost predicate PageFits(sys: System, i: nat, op: Op, c: ConnId, choice: Choice)
    requires i < |sys.tasks| && sys.tasks[i].Using? && op.FetchPage?
  {
    var sys' := UseWindow(sys, i, op, c, choice);
    var page := AfterFetch(ConnOf(sys, c), op.id, op.count, choice.succeeds).1;
    && sys'.tasks[i] == Done(Fetched(page))
    && (page.Ok? ==>
          && op.id in sys.books && op.id in sys'.books
          && sys.books[op.id].conn == c
          && Titled(sys.tasks, op.id, sys.books[op.id])
          && Continues(sys.books[op.id], op.count, page.value, sys'.books[op.id]))
  }

  lemma ShelvedPageFits(sys: System, i: nat, op: Op, c: ConnId, choice: Choice)
    requires Shelved(sys) && i < |sys.tasks| && sys.tasks[i].Using? && c < |sys.conns| && op.FetchPage?
    ensures PageFits(sys, i, op, c, choice)
  {
    FetchOnBook(sys.conns[c], c, sys.books, sys.nextCursor, i, op, choice);
  }

  /** Whatever fetch goes next and however the server answers, its page fits. */
  ghost predicate AllPagesFit(sys: System) {
    forall i, choice :: 0 <= i < |sys.tasks| && sys.tasks[i].Using? && sys.tasks[i].op.FetchPage? ==>
      PageFits(sys, i, sys.tasks[i].op, sys.tasks[i].c, choice)
  }

  /**
   Under all interleavings, releases and new leases included: when a fetch of cursor `id` is
   answered with a page, an execute call returned that cursor, on the same connection, and the
   page is the next stretch of that call's result after everything handed out before, first
   page first. "No more" then means that all of it has been handed out.
   */
  lemma PagesBelongToTheirQuery(cfg: Config, evs: seq<Event>)
    requires cfg.maxSize > 0
    ensures AllPagesFit(Reach(cfg, evs))
  {
    ReachShelved(cfg, evs);
    ReachSound(cfg, evs);
    var sys := Reach(cfg, evs);
    forall i, choice | 0 <= i < |sys.tasks| && sys.tasks[i].Using? && sys.tasks[i].op.FetchPage?
      ensures PageFits(sys, i, sys.tasks[i].op, sys.tasks[i].c, choice)
    {
      assert Borrowed(sys.tasks[i]) == Some(sys.tasks[i].c);
      ShelvedPageFits(sys, i, sys.tasks[i].op, sys.tasks[i].c, choice);
    }
  }

  predicate CursorsUnique(tasks: seq<Task>) {
    forall i, j :: 0 <= i < j < |tasks| && WithCursor(tasks[i]).Some? && WithCursor(tasks[j]).Some? ==>
      WithCursor(tasks[i]).value.cursorId != WithCursor(tasks[j]).value.cursorId
  }

  /** No two execute calls of a run return the same cursor. */
  lemma CursorsAreUnique(cfg: Config, evs: seq<Event>)
    requires cfg.maxSize > 0
    ensures CursorsUnique(Reach(cfg, evs).tasks)
  {
    ReachShelved(cfg, evs);
    var ts := Reach(cfg, evs).tasks;
    assert BooksTitled(ts, Reach(cfg, evs).books);
  }

  predicate AllAgreeOrStranded(conns: seq<Conn>) {
    forall c :: 0 <= c < |conns| ==> Agrees(conns[c]) || Stranded(conns[c])
  }

  /** On every run every connection's cursor and transaction agree, or the connection is stranded. */
  lemma EveryConnectionAgrees(cfg: Config, evs: seq<Event>)
    requires cfg.maxSize > 0
    ensures AllAgreeOrStranded(Reach(cfg, evs).conns)
  {
    ReachShelved(cfg, evs);
    var sys := Reach(cfg, evs);
    forall c | 0 <= c < |sys.conns| ensures Agrees(sys.conns[c]) || Stranded(sys.conns[c]) {
      OnBookAgrees(sys.conns[c], c, sys.books);
    }
  }
}
