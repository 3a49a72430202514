/**
 What becomes of an edit that was acknowledged.

 An edit runs on the session's connection. With a cursor open there, it runs inside the
 cursor's transaction, and lasts only if that transaction is committed. The ledger kept
 here beside a connection is the server's: which edits are committed, and which are in
 the open transaction. It goes by what the session records of the ends of transactions,
 and by nothing of what the client meant. Edits are named by their place in the run.
 */
module PgEdits {
  import opened Wrappers
  import opened Text
  import opened SqlLexer
  import opened SqlSplit
  import opened PgServer
  import opened PgExec
  import opened PgCursor

  datatype Action =
    | Executes(sql: Bytes, pageSize: nat, newId: CursorId, env: Env)
    | Fetches(id: CursorId, count: nat, succeeds: bool)
    | ClosesQuery(id: CursorId, close: CloseChoice)
    | Releases(close: CloseChoice)
    | Edits(succeeds: bool)

  function Act(c: Conn, a: Action): Conn {
    match a
    case Executes(sql, pageSize, id, env) => AfterExecute(c, sql, pageSize, id, env).0
    case Fetches(id, count, succeeds) => AfterFetch(c, id, count, succeeds).0
    case ClosesQuery(id, close) => AfterCloseQuery(c, id, close)
    case Releases(close) => AfterCloseActive(c, close)
    case Edits(succeeds) => AfterStatement(c, succeeds).0
  }

  /** The action closes the cursor on record, and with it the transaction. */
  predicate Settles(c: Conn, a: Action) {
    c.active.Some? && (a.Executes? || a.Releases? || (a.ClosesQuery? && a.id == c.active.value.cursorId))
  }

  /** What becomes of the `CLOSE; COMMIT` that comes with it. */
  function Closing(a: Action): CloseChoice {
    match a
    case Executes(_, _, _, env) => env.cleanup
    case ClosesQuery(_, close) => close
    case Releases(close) => close
    case _ => Closes
  }

  /** The ends of transactions recorded since. */
  function EndsSince(before: seq<End>, now: seq<End>): seq<End> {
    if |before| <= |now| then now[|before|..] else []
  }

  predicate Acknowledged(c: Conn, a: Action) {
    a.Edits? && AfterStatement(c, a.succeeds).1
  }

  datatype Ledger = Ledger(conn: Conn, pending: set<nat>, committed: set<nat>)

  function Book(l: Ledger, a: Action, n: nat): Ledger {
    var conn := Act(l.conn, a);
    var ends := EndsSince(l.conn.session.ended, conn.session.ended);
    if ends != [] then Ledger(conn, {}, if ends[0].Committed? then l.committed + l.pending else l.committed)
    else if Acknowledged(l.conn, a) then
      if l.conn.session.tx.InTx? then Ledger(conn, l.pending + {n}, l.committed)
      else Ledger(conn, l.pending, l.committed + {n})
    else Ledger(conn, l.pending, l.committed)
  }

  /** A run of one connection from its opening on. */
  function Served(acts: seq<Action>): Ledger {
    if acts == [] then Ledger(FRESH, {}, {})
    else Book(Served(acts[..|acts| - 1]), acts[|acts| - 1], |acts| - 1)
  }

  function At(acts: seq<Action>, k: nat): Conn
    requires k <= |acts|
  {
    Served(acts[..k]).conn
  }

  // ----- What runs keep -----

  /** No cursor stands behind the end of its rows. */
  predicate InRange(tx: Tx) {
    tx.InTx? ==> forall id :: id in tx.cursors ==> tx.cursors[id].pos <= |tx.cursors[id].rows|
  }

  predicate Sound(c: Conn) {
    (Agrees(c) || Stranded(c)) && InRange(c.session.tx)
  }

  lemma ExecuteIsSound(c: Conn, sql: Bytes, pageSize: nat, id: CursorId, env: Env)
    requires Sound(c)
    ensures Sound(AfterExecute(c, sql, pageSize, id, env).0)
  {
    if Agrees(c) {
      ExecuteAgreesIff(c, sql, pageSize, id, env);
      ExecuteOpens(c, sql, pageSize, id, env);
    } else {
      StrandedStays(c, sql, pageSize, id, env, 0, true, Closes);
    }
  }

  lemma ActIsSound(c: Conn, a: Action)
    requires Sound(c)
    ensures Sound(Act(c, a))
  {
    if a.Executes? {
      ExecuteIsSound(c, a.sql, a.pageSize, a.newId, a.env);
    }
  }

  /** Closing the cursor ends its transaction, committed exactly if it was open and the COMMIT goes through. */
  lemma SettlingEnds(c: Conn, a: Action)
    requires Sound(c) && Settles(c, a)
    ensures var ends := EndsSince(c.session.ended, Act(c, a).session.ended);
            ends != [] && ends[0] == if c.session.tx.InTx? && Closing(a) == Closes then Committed else RolledBack
  {
    if a.Executes? {
      ExecuteEnds(c, a.sql, a.pageSize, a.newId, a.env);
      CleanUpEnds(c, a.env.cleanup);
    } else {
      ClosingEnds(c, Closing(a));
    }
  }

  /** Nothing else ends a transaction that is open. */
  lemma OthersEndNone(c: Conn, a: Action)
    requires Sound(c) && !Settles(c, a) && c.active.Some?
    ensures Act(c, a).session.ended == c.session.ended
  {
  }

  /** Without a cursor on record no edit waits for a transaction. */
  predicate NoneWait(l: Ledger) {
    l.conn.active.None? ==> l.pending == {}
  }

  lemma BookIsSound(l: Ledger, a: Action, n: nat)
    requires Sound(l.conn) && NoneWait(l)
    ensures Sound(Book(l, a, n).conn) && NoneWait(Book(l, a, n))
  {
    ActIsSound(l.conn, a);
    if Settles(l.conn, a) {
      SettlingEnds(l.conn, a);
    }
  }

  lemma {:induction false} ServedIsSound(acts: seq<Action>)
    ensures Sound(Served(acts).conn) && NoneWait(Served(acts))
  {
    if acts != [] {
      var front := acts[..|acts| - 1];
      ServedIsSound(front);
      BookIsSound(Served(front), acts[|acts| - 1], |acts| - 1);
    }
  }

  lemma {:induction false} NamesAreEarlier(acts: seq<Action>)
    ensures forall n :: n in Served(acts).pending ==> n < |acts|
    ensures forall n :: n in Served(acts).committed ==> n < |acts|
  {
    if acts != [] {
      NamesAreEarlier(acts[..|acts| - 1]);
    }
  }

  // ----- When an acknowledged edit lasts -----

  /** With a cursor open: a fetch from it or an edit fails, and with it the transaction. */
  predicate Spoils(c: Conn, a: Action) {
    c.active.Some? && ((a.Fetches? && a.id == c.active.value.cursorId && !a.succeeds) || (a.Edits? && !a.succeeds))
  }

  /** From just after `i` to just before `j` the cursor stays, and nothing fails on it. */
  ghost predicate Quiet(acts: seq<Action>, i: nat, j: nat) {
    forall k :: i < k < j && k < |acts| ==> !Settles(At(acts, k), acts[k]) && !Spoils(At(acts, k), acts[k])
  }

  /** The next to close the cursor is the action at `j`, nothing failed before, and its COMMIT goes through. */
  ghost predicate ClosesWell(acts: seq<Action>, i: nat, j: nat) {
    i < j < |acts| && Settles(At(acts, j), acts[j]) && Closing(acts[j]) == Closes && Quiet(acts, i, j)
  }

  /** A transaction that was sound and agreed with goes on exactly if the action neither settles nor spoils it. */
  lemma GoesOnIff(c: Conn, a: Action)
    requires Sound(c) && c.session.tx.InTx? && !Settles(c, a)
    ensures Act(c, a).session.tx.InTx? <==> !Spoils(c, a)
  {
  }

  lemma AbortedStays(c: Conn, a: Action)
    requires Sound(c) && c.session.tx.Aborted? && !Settles(c, a)
    ensures Act(c, a).session.tx.Aborted? && !Acknowledged(c, a)
  {
    if a.Executes? {
      assert Stranded(c);
      StrandedStays(c, a.sql, a.pageSize, a.newId, a.env, 0, true, Closes);
    }
  }

  /** The edit is in the open transaction. */
  predicate Pending(l: Ledger, i: nat) {
    i in l.pending && l.conn.session.tx.InTx?
  }

  lemma {:induction false} AtFront(acts: seq<Action>, k: nat)
    requires acts != [] && k < |acts|
    ensures At(acts[..|acts| - 1], k) == At(acts, k)
  {
    assert acts[..|acts| - 1][..k] == acts[..k];
  }

  lemma {:induction false} QuietFront(acts: seq<Action>, i: nat)
    requires acts != []
    ensures Quiet(acts[..|acts| - 1], i, |acts| - 1) <==> Quiet(acts, i, |acts| - 1)
  {
    hide Settles, Spoils;
    var front, last := acts[..|acts| - 1], |acts| - 1;
    forall k | i < k < last
      ensures At(front, k) == At(acts, k) && front[k] == acts[k]
    {
      AtFront(acts, k);
    }
  }

  lemma {:induction false} QuietLast(acts: seq<Action>, i: nat)
    requires acts != [] && i < |acts| - 1
    ensures var last := |acts| - 1;
            Quiet(acts, i, |acts|) <==>
            Quiet(acts, i, last) && !Settles(At(acts, last), acts[last]) && !Spoils(At(acts, last), acts[last])
  {
    hide Settles, Spoils, At;
  }

  lemma {:induction false} ClosesWellEarlier(acts: seq<Action>, i: nat, j: nat)
    requires acts != [] && j < |acts| - 1
    ensures ClosesWell(acts[..|acts| - 1], i, j) <==> ClosesWell(acts, i, j)
  {
    var front := acts[..|acts| - 1];
    forall k | 0 <= k <= j
      ensures At(front, k) == At(acts, k) && front[k] == acts[k]
    {
      AtFront(acts, k);
    }
  }

  /** The edit itself: it is committed at once exactly if no cursor is open. */
  lemma {:induction false} EditIsBooked(l: Ledger, a: Action, n: nat)
    requires Sound(l.conn) && Acknowledged(l.conn, a) && n !in l.committed && n !in l.pending
    ensures n in Book(l, a, n).committed <==> l.conn.active.None?
    ensures Pending(Book(l, a, n), n) <==> l.conn.active.Some?
  {
  }

  lemma {:induction false} NewPending(l: Ledger, a: Action, n: nat, i: nat)
    requires Sound(l.conn) && i != n && NoneWait(l)
    ensures Pending(Book(l, a, n), i) <==> Pending(l, i) && !Settles(l.conn, a) && !Spoils(l.conn, a)
  {
    if Settles(l.conn, a) {
      SettlingEnds(l.conn, a);
    } else if i in l.pending {
      OthersEndNone(l.conn, a);
      if l.conn.session.tx.InTx? {
        GoesOnIff(l.conn, a);
      } else {
        AbortedStays(l.conn, a);
      }
    }
  }

  lemma {:induction false} PendingIff(acts: seq<Action>, i: nat)
    requires i < |acts| && Acknowledged(At(acts, i), acts[i])
    ensures Pending(Served(acts), i) <==> At(acts, i).active.Some? && Quiet(acts, i, |acts|)
    decreases |acts|
  {
    hide Book, Act, Settles, Spoils, Sound;
    var front, last := acts[..|acts| - 1], |acts| - 1;
    ServedIsSound(front);
    if i < last {
      AtFront(acts, i);
      PendingIff(front, i);
      QuietFront(acts, i);
      QuietLast(acts, i);
      NewPending(Served(front), acts[last], last, i);
    } else {
      NamesAreEarlier(front);
      EditIsBooked(Served(front), acts[last], last);
    }
  }

  /** The transaction the edit at `i` was made in is closed well. */
  ghost predicate EndsWell(acts: seq<Action>, i: nat) {
    exists j :: ClosesWell(acts, i, j)
  }

  lemma {:induction false} EndedBefore(acts: seq<Action>, i: nat)
    requires acts != [] && EndsWell(acts[..|acts| - 1], i)
    ensures EndsWell(acts, i)
  {
    var j: nat :| ClosesWell(acts[..|acts| - 1], i, j);
    ClosesWellEarlier(acts, i, j);
  }

  lemma {:induction false} EndsEarlier(acts: seq<Action>, i: nat, j: nat)
    requires acts != [] && j < |acts| - 1 && ClosesWell(acts, i, j)
    ensures EndsWell(acts[..|acts| - 1], i)
  {
    ClosesWellEarlier(acts, i, j);
  }

  lemma {:induction false} ClosedAt(acts: seq<Action>, i: nat) returns (j: nat)
    requires EndsWell(acts, i)
    ensures j < |acts| && ClosesWell(acts, i, j)
  {
    j :| ClosesWell(acts, i, j);
  }

  lemma {:induction false} ClosedBy(acts: seq<Action>, i: nat, j: nat)
    requires ClosesWell(acts, i, j)
    ensures EndsWell(acts, i)
  {
  }

  lemma {:induction false} EndsWellGrows(acts: seq<Action>, i: nat)
    requires acts != []
    ensures EndsWell(acts, i) <==> EndsWell(acts[..|acts| - 1], i) || ClosesWell(acts, i, |acts| - 1)
  {
    hide EndsWell, ClosesWell;
    if EndsWell(acts[..|acts| - 1], i) {
      EndedBefore(acts, i);
    } else if ClosesWell(acts, i, |acts| - 1) {
      ClosedBy(acts, i, |acts| - 1);
    } else if EndsWell(acts, i) {
      var j := ClosedAt(acts, i);
      EndsEarlier(acts, i, j);
    }
  }

  /** The last action is what closes the transaction of the edit, and closes it well. */
  lemma {:induction false} ClosesLast(acts: seq<Action>, i: nat)
    requires i < |acts| - 1 && Acknowledged(At(acts, i), acts[i])
    ensures var l, a := Served(acts[..|acts| - 1]), acts[|acts| - 1];
            Settles(l.conn, a) && Closing(a) == Closes && Pending(l, i) <==>
            At(acts, i).active.Some? && ClosesWell(acts, i, |acts| - 1)
  {
    AtFront(acts, i);
    PendingIff(acts[..|acts| - 1], i);
    QuietFront(acts, i);
  }

  lemma {:induction false} NewCommitted(l: Ledger, a: Action, n: nat, i: nat)
    requires Sound(l.conn) && i != n && NoneWait(l)
    ensures i in Book(l, a, n).committed <==>
            i in l.committed || (Settles(l.conn, a) && Closing(a) == Closes && Pending(l, i))
  {
    if Settles(l.conn, a) {
      SettlingEnds(l.conn, a);
    } else if l.conn.active.Some? {
      OthersEndNone(l.conn, a);
    }
  }

  /**
   An edit that was acknowledged is committed by the end of a run exactly if no cursor was open on the
   connection when it was made, or one was and the next to close it commits, with no fetch and no edit on
   the connection failing before.
   */
  lemma {:induction false} CommittedIff(acts: seq<Action>, i: nat)
    requires i < |acts| && Acknowledged(At(acts, i), acts[i])
    ensures i in Served(acts).committed <==> At(acts, i).active.None? || EndsWell(acts, i)
    decreases |acts|
  {
    hide Book, Act, Settles, Sound;
    var front, last := acts[..|acts| - 1], |acts| - 1;
    ServedIsSound(front);
    NamesAreEarlier(front);
    if i < last {
      AtFront(acts, i);
      CommittedIff(front, i);
      ClosesLast(acts, i);
      EndsWellGrows(acts, i);
      NewCommitted(Served(front), acts[last], last, i);
    } else {
      EditIsBooked(Served(front), acts[last], last);
    }
  }

  /** Two rows paged one at a time. */
  const PAGED: Env := Env(Closes, true, None, Some(1), None, Declares, [[Some("1")], [Some("2")]], true, Closes)
  const PAGING: Action := Executes("A", 1, 0, PAGED)

  lemma {:induction false} ServedMore(acts: seq<Action>, a: Action)
    ensures Served(acts + [a]) == Book(Served(acts), a, |acts|)
  {
    assert (acts + [a])[..|acts|] == acts;
  }

  lemma PagedOpens() returns (l: Ledger)
    ensures l == Served([PAGING]) && l.pending == {} && l.committed == {}
    ensures OpenAt(l.conn, 0, PAGED.rows, 1)
  {
    l := Served([PAGING]);
    PlainByte("A", 0);
    assert Semicolons("A") == [] && AsciiBodies("A");
    ExecuteOpens(FRESH, "A", 1, 0, PAGED);
    ServedMore([], PAGING);
    assert [] + [PAGING] == [PAGING];
  }

  /** An acknowledged edit that is not committed: a later edit fails, and the release rolls both back. */
  lemma EditIsLost()
    ensures var acts := [PAGING] + [Edits(true)] + [Edits(false)] + [Releases(Closes)];
            Acknowledged(At(acts, 1), acts[1]) && Served(acts).committed == {} && Served(acts).conn.session.tx == NoTx
  {
    hide Served;
    var l := PagedOpens();
    var acts := [PAGING] + [Edits(true)] + [Edits(false)] + [Releases(Closes)];
    assert acts[..1] == [PAGING];
    ServedMore([PAGING], Edits(true));
    var l1 := Served([PAGING] + [Edits(true)]);
    assert l1 == Ledger(l.conn, {1}, {});
    ServedMore([PAGING] + [Edits(true)], Edits(false));
    var l2 := Served([PAGING] + [Edits(true)] + [Edits(false)]);
    assert l2.pending == {1} && l2.committed == {} && l2.conn.session.tx.Aborted?;
    ServedMore([PAGING] + [Edits(true)] + [Edits(false)], Releases(Closes));
  }
}
