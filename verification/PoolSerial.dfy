/**
 When a lease is overwritten and when an idle connection has a cursor, exactly; and what
 callers get who run the calls of each session one after another: neither.
 */
module PoolSerial {
  import opened Wrappers
  import opened PoolState
  import P = PgPool
  import opened PgServer
  import opened PgExec
  import opened PgCursor
  import opened PoolRuns
  import opened PoolCounts
  import opened PoolSafety
  import opened PoolBooks

  /** The session whose call this is, while the call runs. */
  function SessionOf(t: Task): Option<SessionId> {
    match t
    case Lookup(s, _) => Some(s)
    case TakeIdle(s, _) => Some(s)
    case CheckRoom(s, _) => Some(s)
    case Reserving(s, _) => Some(s)
    case Opening(s, _) => Some(s)
    case Assigning(s, _, _) => Some(s)
    case LookupOnly(s, _) => Some(s)
    case Using(s, _, _) => Some(s)
    case Taking(s) => Some(s)
    case Cleaning(s, _) => Some(s)
    case Returning(s, _) => Some(s)
    case _ => None
  }

  predicate Busy(tasks: seq<Task>, s: SessionId) {
    exists i :: 0 <= i < |tasks| && SessionOf(tasks[i]) == Some(s)
  }

  /** The call begins when no other call of its session runs. */
  predicate InTurn(sys: System, ev: Event) {
    ev.Begin? ==>
      var t := Entered(sys, ev.call);
      SessionOf(t).Some? ==> !Busy(sys.tasks, SessionOf(t).value)
  }

  predicate SerialRun(cfg: Config, evs: seq<Event>) {
    evs == [] || (SerialRun(cfg, evs[..|evs| - 1]) && InTurn(Reach(cfg, evs[..|evs| - 1]), evs[|evs| - 1]))
  }

  // ----- The invariant -----

  predicate OneEach(tasks: seq<Task>) {
    forall i, j :: 0 <= i < j < |tasks| && SessionOf(tasks[i]).Some? ==> SessionOf(tasks[i]) != SessionOf(tasks[j])
  }

  /** On the way to a new lease. */
  predicate Seeking(t: Task) {
    t.TakeIdle? || t.CheckRoom? || t.Reserving? || t.Opening? || t.Assigning?
  }

  /** What a running call may rely on: nobody leased for its session, or its connection is still leased to it. */
  predicate Undisturbed(t: Task, p: Pool, home: seq<Home>) {
    && (Seeking(t) ==> SessionOf(t).value !in p.leased)
    && (t.Using? ==> At(home, t.c, AtLease(t.s)) || At(home, t.c, Closed))
  }

  predicate AllUndisturbed(tasks: seq<Task>, p: Pool, home: seq<Home>) {
    forall i :: 0 <= i < |tasks| ==> Undisturbed(tasks[i], p, home)
  }

  /** Only leased connections, those being cleaned and those closed may have a cursor on record. */
  predicate Tidy(tasks: seq<Task>, c: ConnId, h: Home, conn: Conn) {
    match h
    case AtIdle => conn.active.None?
    case AtBrowser(_) => conn.active.None?
    case AtTask(i) => conn.active.None? || (i < |tasks| && tasks[i].Cleaning? && tasks[i].c == c)
    case _ => true
  }

  predicate AllTidy(tasks: seq<Task>, home: seq<Home>, conns: seq<Conn>) {
    |home| == |conns| && forall c :: 0 <= c < |home| ==> Tidy(tasks, c, home[c], conns[c])
  }

  predicate Serial(sys: System) {
    && OneEach(sys.tasks)
    && sys.orphans == {}
    && AllUndisturbed(sys.tasks, sys.pool, sys.home)
    && AllTidy(sys.tasks, sys.home, sys.conns)
  }

  /** A task goes on for its session or ends: sessions stay distinct. */
  lemma NextOneEach(tasks: seq<Task>, i: nat, t: Task)
    requires OneEach(tasks) && i < |tasks| && (SessionOf(t) == SessionOf(tasks[i]) || SessionOf(t).None?)
    ensures OneEach(tasks[i := t])
  {
  }

  /** What one task does to the leases of its own session disturbs no other. */
  lemma NextUndisturbed(sys: System, i: nat, t: Task, p: Pool, home: seq<Home>)
    requires Serial(sys) && i < |sys.tasks| && |home| >= |sys.home|
    requires Undisturbed(t, p, home)
    requires forall s :: s in p.leased && s !in sys.pool.leased ==> SessionOf(sys.tasks[i]) == Some(s)
    requires forall c :: 0 <= c < |sys.home| && home[c] != sys.home[c] && sys.home[c].AtLease? ==>
               SessionOf(sys.tasks[i]) == Some(sys.home[c].s) || home[c].Closed?
    requires forall c :: 0 <= c < |sys.home| && sys.home[c].Closed? ==> home[c].Closed?
    ensures AllUndisturbed(sys.tasks[i := t], p, home)
  {
    var tasks := sys.tasks[i := t];
    forall j | 0 <= j < |tasks| ensures Undisturbed(tasks[j], p, home) {
      if j != i {
        assert Undisturbed(sys.tasks[j], sys.pool, sys.home);
        assert SessionOf(sys.tasks[j]).Some? ==> SessionOf(sys.tasks[i]) != SessionOf(sys.tasks[j]);
      }
    }
  }

  /** A window that moves no connection, adds no lease and changes no cursor out of turn. */
  lemma NextSerial(sys: System, i: nat, t: Task, sys': System)
    requires Serial(sys) && i < |sys.tasks| && !sys.tasks[i].Cleaning?
    requires SessionOf(t) == SessionOf(sys.tasks[i]) || SessionOf(t).None?
    requires Undisturbed(t, sys.pool, sys.home)
    requires sys'.tasks == sys.tasks[i := t] && sys'.home == sys.home && sys'.orphans == sys.orphans
    requires sys'.pool.leased == sys.pool.leased && sys'.conns == sys.conns
    ensures Serial(sys')
  {
    NextOneEach(sys.tasks, i, t);
    NextUndisturbed(sys, i, t, sys'.pool, sys.home);
    forall c | 0 <= c < |sys.home| ensures Tidy(sys.tasks[i := t], c, sys.home[c], sys.conns[c]) {
      assert Tidy(sys.tasks, c, sys.home[c], sys.conns[c]);
    }
  }

  lemma TakeIdleSerial(sys: System, i: nat, s: SessionId, op: Op)
    requires Placed(sys) && Serial(sys) && i < |sys.tasks| && sys.tasks[i] == TakeIdle(s, op)
    ensures Serial(TakeIdleWindow(sys, i, s, op))
  {
    var sys' := TakeIdleWindow(sys, i, s, op);
    assert Undisturbed(sys.tasks[i], sys.pool, sys.home);
    if sys.pool.idle == [] {
      NextSerial(sys, i, CheckRoom(s, op), sys');
    } else {
      var c := sys.pool.idle[|sys.pool.idle| - 1].conn;
      assert At(sys.home, c, AtIdle) && Tidy(sys.tasks, c, sys.home[c], sys.conns[c]);
      var t := Assigning(s, op, c);
      NextOneEach(sys.tasks, i, t);
      NextUndisturbed(sys, i, t, sys'.pool, sys'.home);
      forall d | 0 <= d < |sys.home| ensures Tidy(sys'.tasks, d, sys'.home[d], sys.conns[d]) {
        assert Tidy(sys.tasks, d, sys.home[d], sys.conns[d]);
      }
    }
  }

  lemma DialSerial(sys: System, i: nat, t: Task, dials: bool)
    requires Serial(sys) && i < |sys.tasks| && !sys.tasks[i].Cleaning?
    requires SessionOf(t) == SessionOf(sys.tasks[i]) && Undisturbed(t, sys.pool, sys.home) && !t.Using?
    ensures Serial(DialWindow(sys, i, t, dials))
  {
    var sys' := DialWindow(sys, i, t, dials);
    if dials {
      NextOneEach(sys.tasks, i, t);
      NextUndisturbed(sys, i, t, sys'.pool, sys'.home);
      forall c | 0 <= c < |sys'.home| ensures Tidy(sys'.tasks, c, sys'.home[c], sys'.conns[c]) {
        if c < |sys.home| {
          assert Tidy(sys.tasks, c, sys.home[c], sys.conns[c]);
        }
      }
    } else {
      NextSerial(sys, i, RollingBack, sys');
    }
  }

  lemma AssignSerial(sys: System, i: nat, s: SessionId, op: Op, c: ConnId)
    requires Placed(sys) && Serial(sys) && i < |sys.tasks| && sys.tasks[i] == Assigning(s, op, c)
    ensures Serial(AssignWindow(sys, i, s, op, c))
  {
    var sys' := AssignWindow(sys, i, s, op, c);
    assert Undisturbed(sys.tasks[i], sys.pool, sys.home);
    assert Carried(sys.tasks[i]) == Some(c);
    var t := Using(s, op, c);
    NextOneEach(sys.tasks, i, t);
    NextUndisturbed(sys, i, t, sys'.pool, sys'.home);
    forall d | 0 <= d < |sys.home| ensures Tidy(sys'.tasks, d, sys'.home[d], sys.conns[d]) {
      assert Tidy(sys.tasks, d, sys.home[d], sys.conns[d]);
    }
  }

  lemma TakeLeaseSerial(sys: System, i: nat, s: SessionId)
    requires Placed(sys) && Serial(sys) && i < |sys.tasks| && sys.tasks[i] == Taking(s)
    ensures Serial(TakeLeaseWindow(sys, i, s))
  {
    var sys' := TakeLeaseWindow(sys, i, s);
    if s in sys.pool.leased {
      var c := sys.pool.leased[s];
      assert At(sys.home, c, AtLease(s));
      NextOneEach(sys.tasks, i, Cleaning(s, c));
      NextUndisturbed(sys, i, Cleaning(s, c), sys'.pool, sys'.home);
      forall d | 0 <= d < |sys.home| ensures Tidy(sys'.tasks, d, sys'.home[d], sys.conns[d]) {
        assert Tidy(sys.tasks, d, sys.home[d], sys.conns[d]);
      }
    } else {
      NextSerial(sys, i, Done(Finished), sys');
    }
  }

  lemma CleanSerial(sys: System, i: nat, s: SessionId, c: ConnId, choice: Choice)
    requires Placed(sys) && Serial(sys) && i < |sys.tasks| && sys.tasks[i] == Cleaning(s, c)
    ensures Serial(ReleasingWindow(sys, i, Cleaning(s, c), choice))
  {
    var sys' := ReleasingWindow(sys, i, Cleaning(s, c), choice);
    assert Carried(sys.tasks[i]) == Some(c);
    NextOneEach(sys.tasks, i, Returning(s, c));
    NextUndisturbed(sys, i, Returning(s, c), sys.pool, sys.home);
    forall d | 0 <= d < |sys.home| ensures Tidy(sys'.tasks, d, sys.home[d], sys'.conns[d]) {
      assert Tidy(sys.tasks, d, sys.home[d], sys.conns[d]);
    }
  }

  lemma ReturnSerial(sys: System, i: nat, s: SessionId, c: ConnId)
    requires Placed(sys) && Serial(sys) && i < |sys.tasks| && sys.tasks[i] == Returning(s, c)
    ensures Serial(ReturnWindow(sys, i, c))
  {
    var sys' := ReturnWindow(sys, i, c);
    assert Carried(sys.tasks[i]) == Some(c);
    NextOneEach(sys.tasks, i, Done(Finished));
    NextUndisturbed(sys, i, Done(Finished), sys'.pool, sys'.home);
    forall d | 0 <= d < |sys.home| ensures Tidy(sys'.tasks, d, sys'.home[d], sys.conns[d]) {
      assert Tidy(sys.tasks, d, sys.home[d], sys.conns[d]);
    }
  }

  /** The connection a task carries may move on to the side table, or be closed. */
  lemma PutSerial(sys: System, i: nat, t: Task, c: ConnId, h: Home, sys': System)
    requires Placed(sys) && Serial(sys) && i < |sys.tasks| && (sys.tasks[i].Inserting? || sys.tasks[i].GivingBack?)
    requires Carried(sys.tasks[i]) == Some(c) && (h.AtBrowser? || h.Closed?)
    requires t.Browsing?
    requires sys'.tasks == sys.tasks[i := t] && sys'.home == Moved(sys.home, c, h) && sys'.orphans == sys.orphans
    requires sys'.pool.leased == sys.pool.leased && sys'.conns == sys.conns
    ensures Serial(sys')
  {
    NextOneEach(sys.tasks, i, t);
    NextUndisturbed(sys, i, t, sys'.pool, sys'.home);
    forall d | 0 <= d < |sys.home| ensures Tidy(sys'.tasks, d, sys'.home[d], sys.conns[d]) {
      assert Tidy(sys.tasks, d, sys.home[d], sys.conns[d]);
    }
  }

  /** Closing connections disturbs nobody. */
  lemma ShutSerial(sys: System, i: nat, t: Task, gone: set<ConnId>, sys': System)
    requires Serial(sys) && i < |sys.tasks| && Sweeping(sys.tasks[i]) && SessionOf(t).None?
    requires sys'.tasks == sys.tasks[i := t] && sys'.home == Shut(sys.home, gone) && sys'.orphans == sys.orphans
    requires sys'.pool.leased == sys.pool.leased || sys'.pool.leased == map[]
    requires sys'.conns == sys.conns
    ensures Serial(sys')
  {
    NextOneEach(sys.tasks, i, t);
    NextUndisturbed(sys, i, t, sys'.pool, sys'.home);
    forall d | 0 <= d < |sys.home| ensures Tidy(sys'.tasks, d, sys'.home[d], sys.conns[d]) {
      assert Tidy(sys.tasks, d, sys.home[d], sys.conns[d]);
    }
  }

  /** An operation's connection is leased or closed: what it leaves there is nobody else's. */
  lemma UseSerial(sys: System, i: nat, s: SessionId, op: Op, c: ConnId, choice: Choice)
    requires Serial(sys) && i < |sys.tasks| && sys.tasks[i] == Using(s, op, c)
    ensures Serial(UseWindow(sys, i, op, c, choice))
  {
    var sys' := UseWindow(sys, i, op, c, choice);
    assert Undisturbed(sys.tasks[i], sys.pool, sys.home);
    var t := sys'.tasks[i];
    NextOneEach(sys.tasks, i, t);
    NextUndisturbed(sys, i, t, sys.pool, sys.home);
    forall d | 0 <= d < |sys.home| ensures Tidy(sys'.tasks, d, sys.home[d], sys'.conns[d]) {
      assert Tidy(sys.tasks, d, sys.home[d], sys.conns[d]);
    }
  }

  lemma BrowseSerial(sys: System, i: nat, c: ConnId, choice: Choice)
    requires Serial(sys) && i < |sys.tasks| && sys.tasks[i] == Browsing(c)
    ensures Serial(BrowseWindow(sys, i, c, choice))
  {
    var sys' := BrowseWindow(sys, i, c, choice);
    NextOneEach(sys.tasks, i, Done(Finished));
    NextUndisturbed(sys, i, Done(Finished), sys.pool, sys.home);
    forall d | 0 <= d < |sys.home| ensures Tidy(sys'.tasks, d, sys.home[d], sys'.conns[d]) {
      assert Tidy(sys.tasks, d, sys.home[d], sys.conns[d]);
    }
  }

  lemma LookupSerial(sys: System, i: nat, s: SessionId, op: Op, otherwise: Task)
    requires Placed(sys) && Serial(sys) && i < |sys.tasks| && SessionOf(sys.tasks[i]) == Some(s) && !sys.tasks[i].Cleaning?
    requires SessionOf(otherwise) == Some(s) || SessionOf(otherwise).None?
    requires s !in sys.pool.leased ==> Undisturbed(otherwise, sys.pool, sys.home)
    ensures Serial(Next(sys, i, if s in sys.pool.leased then Using(s, op, sys.pool.leased[s]) else otherwise))
  {
    var t := if s in sys.pool.leased then Using(s, op, sys.pool.leased[s]) else otherwise;
    NextSerial(sys, i, t, Next(sys, i, t));
  }

  lemma RoomSerial(sys: System, i: nat, s: SessionId, op: Op)
    requires Serial(sys) && i < |sys.tasks| && sys.tasks[i] == CheckRoom(s, op)
    ensures Serial(Next(sys, i, if Full(sys.pool, sys.cfg) then Done(Exhausted) else Reserving(s, op)))
  {
    assert Undisturbed(sys.tasks[i], sys.pool, sys.home);
    var t := if Full(sys.pool, sys.cfg) then Done(Exhausted) else Reserving(s, op);
    NextSerial(sys, i, t, Next(sys, i, t));
  }

  lemma ReserveLeaseSerial(sys: System, i: nat, s: SessionId, op: Op)
    requires Serial(sys) && i < |sys.tasks| && sys.tasks[i] == Reserving(s, op)
    ensures Serial(ReserveWindow(sys, i, Opening(s, op)))
  {
    assert Undisturbed(sys.tasks[i], sys.pool, sys.home);
    var sys' := ReserveWindow(sys, i, Opening(s, op));
    NextSerial(sys, i, sys'.tasks[i], sys');
  }

  lemma LeasingSerial(sys: System, i: nat, t: Task, choice: Choice)
    requires Placed(sys) && Serial(sys) && i < |sys.tasks| && sys.tasks[i] == t && Leasing(t)
    ensures Serial(LeasingWindow(sys, i, t, choice))
  {
    assert Undisturbed(t, sys.pool, sys.home);
    if t.Lookup? {
      LookupSerial(sys, i, t.s, t.op, TakeIdle(t.s, t.op));
    } else if t.TakeIdle? {
      TakeIdleSerial(sys, i, t.s, t.op);
    } else if t.CheckRoom? {
      RoomSerial(sys, i, t.s, t.op);
    } else if t.Reserving? {
      ReserveLeaseSerial(sys, i, t.s, t.op);
    } else if t.Opening? {
      DialSerial(sys, i, Assigning(t.s, t.op, |sys.conns|), choice.dials);
    } else if t.Assigning? {
      AssignSerial(sys, i, t.s, t.op, t.c);
    } else {
      LookupSerial(sys, i, t.s, t.op, Done(NoSession));
    }
  }

  lemma FindSerial(sys: System, i: nat, db: Database)
    requires Serial(sys) && i < |sys.tasks| && sys.tasks[i] == Finding(db)
    ensures Serial(FindWindow(sys, i, db))
  {
    var sys' := FindWindow(sys, i, db);
    NextSerial(sys, i, sys'.tasks[i], sys');
  }

  lemma ReserveSerial(sys: System, i: nat, db: Database)
    requires Serial(sys) && i < |sys.tasks| && sys.tasks[i] == ReservingFor(db)
    ensures Serial(ReserveWindow(sys, i, OpeningFor(db)))
  {
    var sys' := ReserveWindow(sys, i, OpeningFor(db));
    NextSerial(sys, i, sys'.tasks[i], sys');
  }

  lemma InsertSerial(sys: System, i: nat, db: Database, c: ConnId)
    requires Placed(sys) && Serial(sys) && i < |sys.tasks| && sys.tasks[i] == Inserting(db, c)
    ensures Serial(InsertWindow(sys, i, db, c))
  {
    var sys' := InsertWindow(sys, i, db, c);
    if db in sys.pool.secondary {
      NextSerial(sys, i, sys'.tasks[i], sys');
    } else {
      PutSerial(sys, i, Browsing(c), c, AtBrowser(db), sys');
    }
  }

  lemma SidingSerial(sys: System, i: nat, t: Task, choice: Choice)
    requires Placed(sys) && Serial(sys) && i < |sys.tasks| && sys.tasks[i] == t && Siding(t)
    ensures Serial(SidingWindow(sys, i, t, choice))
  {
    if t.Finding? {
      FindSerial(sys, i, t.db);
    } else if t.ReservingFor? {
      ReserveSerial(sys, i, t.db);
    } else if t.OpeningFor? {
      DialSerial(sys, i, Inserting(t.db, |sys.conns|), choice.dials);
    } else if t.Inserting? {
      InsertSerial(sys, i, t.db, t.c);
    } else {
      PutSerial(sys, i, Browsing(t.existing), t.c, Closed, GiveBackWindow(sys, i, t.c, t.existing));
    }
  }

  lemma ReleasingSerial(sys: System, i: nat, t: Task, choice: Choice)
    requires Placed(sys) && Serial(sys) && i < |sys.tasks| && sys.tasks[i] == t && Releasing(t)
    ensures Serial(ReleasingWindow(sys, i, t, choice))
  {
    if t.Taking? {
      TakeLeaseSerial(sys, i, t.s);
    } else if t.Cleaning? {
      CleanSerial(sys, i, t.s, t.c, choice);
    } else {
      ReturnSerial(sys, i, t.s, t.c);
    }
  }

  lemma SweepingSerial(sys: System, i: nat, t: Task)
    requires Serial(sys) && i < |sys.tasks| && sys.tasks[i] == t && Sweeping(t)
    ensures Serial(SweepingWindow(sys, i, t))
  {
    var sys' := SweepingWindow(sys, i, t);
    if t.Evicting? {
      ShutSerial(sys, i, sys'.tasks[i], (set c | c in EvictIdle(sys.pool, t.now, sys.cfg).1), sys');
    } else if t.EvictingSecondary? {
      ShutSerial(sys, i, sys'.tasks[i], UnusedConns(sys, t.now), sys');
    } else if t.Settling? {
      NextSerial(sys, i, sys'.tasks[i], sys');
    } else if t.Draining? {
      ShutSerial(sys, i, sys'.tasks[i], Drained(sys.home), sys');
    } else {
      ShutSerial(sys, i, sys'.tasks[i], Sides(sys.home), sys');
    }
  }

  lemma WindowSerial(sys: System, i: nat, choice: Choice)
    requires Placed(sys) && Serial(sys) && i < |sys.tasks|
    ensures Serial(Window(sys, i, choice))
  {
    var t := sys.tasks[i];
    if Leasing(t) {
      LeasingSerial(sys, i, t, choice);
    } else if Siding(t) {
      SidingSerial(sys, i, t, choice);
    } else if Releasing(t) {
      ReleasingSerial(sys, i, t, choice);
    } else if Sweeping(t) {
      SweepingSerial(sys, i, t);
    } else if t.Using? {
      UseSerial(sys, i, t.s, t.op, t.c, choice);
    } else if t.Browsing? {
      BrowseSerial(sys, i, t.b, choice);
    } else if t.RollingBack? {
      NextSerial(sys, i, Done(ConnectFailed), RollBackWindow(sys, i));
    }
  }

  lemma NotBusy(tasks: seq<Task>, s: SessionId, i: nat)
    requires !Busy(tasks, s) && i < |tasks|
    ensures SessionOf(tasks[i]) != Some(s)
  {
  }

  lemma BeginSerial(sys: System, call: Call)
    requires Serial(sys) && InTurn(sys, Begin(call))
    ensures Serial(Apply(sys, Begin(call)))
  {
    var t := Entered(sys, call);
    var tasks := sys.tasks + [t];
    forall i, j | 0 <= i < j < |tasks| && SessionOf(tasks[i]).Some? ensures SessionOf(tasks[i]) != SessionOf(tasks[j]) {
      if SessionOf(t).Some? && i < |sys.tasks| {
        NotBusy(sys.tasks, SessionOf(t).value, i);
      }
    }
    forall c | 0 <= c < |sys.home| ensures Tidy(tasks, c, sys.home[c], sys.conns[c]) {
      assert Tidy(sys.tasks, c, sys.home[c], sys.conns[c]);
    }
  }

  lemma {:induction false} ReachSerial(cfg: Config, evs: seq<Event>)
    requires cfg.maxSize > 0 && SerialRun(cfg, evs)
    ensures Serial(Reach(cfg, evs))
  {
    if evs != [] {
      var front, ev := evs[..|evs| - 1], evs[|evs| - 1];
      var sys := Reach(cfg, front);
      ReachSerial(cfg, front);
      ReachSound(cfg, front);
      match ev
      case Begin(call) => BeginSerial(sys, call);
      case Step(i, choice) => if i < |sys.tasks| { WindowSerial(sys, i, choice); }
      case Tick(_) =>
    }
  }

  // ----- When a lease is overwritten -----

  /** The next event writes a lease over another. */
  predicate Overwrites(sys: System, ev: Event) {
    ev.Step? && ev.i < |sys.tasks| && sys.tasks[ev.i].Assigning? && sys.tasks[ev.i].s in sys.pool.leased
  }

  predicate NeverOverwrites(cfg: Config, evs: seq<Event>) {
    evs == [] || (NeverOverwrites(cfg, evs[..|evs| - 1]) && !Overwrites(Reach(cfg, evs[..|evs| - 1]), evs[|evs| - 1]))
  }

  lemma OrphansAfter(sys: System, ev: Event)
    ensures Apply(sys, ev).orphans == if Overwrites(sys, ev) then sys.orphans + {sys.pool.leased[sys.tasks[ev.i].s]} else sys.orphans
  {
    if ev.Step? && ev.i < |sys.tasks| {
      var t := sys.tasks[ev.i];
      if Leasing(t) {
        LeasingOrphans(sys, ev.i, t, ev.choice);
      } else if Siding(t) || Releasing(t) || Sweeping(t) {
        OthersOrphans(sys, ev.i, t, ev.choice);
      }
    }
  }

  lemma LeasingOrphans(sys: System, i: nat, t: Task, choice: Choice)
    requires Leasing(t)
    ensures LeasingWindow(sys, i, t, choice).orphans ==
            if t.Assigning? && t.s in sys.pool.leased then sys.orphans + {sys.pool.leased[t.s]} else sys.orphans
  {
  }

  lemma OthersOrphans(sys: System, i: nat, t: Task, choice: Choice)
    ensures Siding(t) ==> SidingWindow(sys, i, t, choice).orphans == sys.orphans
    ensures Releasing(t) ==> ReleasingWindow(sys, i, t, choice).orphans == sys.orphans
    ensures Sweeping(t) ==> SweepingWindow(sys, i, t).orphans == sys.orphans
  {
  }

  /** A connection is orphaned on a run exactly when some call wrote its lease over another. */
  lemma {:induction false} OrphansIffOverwritten(cfg: Config, evs: seq<Event>)
    ensures Reach(cfg, evs).orphans == {} <==> NeverOverwrites(cfg, evs)
  {
    if evs != [] {
      var front, ev := evs[..|evs| - 1], evs[|evs| - 1];
      OrphansIffOverwritten(cfg, front);
      OrphansAfter(Reach(cfg, front), ev);
    }
  }

  /** Calls of a session one after another are a way not to. */
  lemma {:induction false} SerialNeverOverwrites(cfg: Config, evs: seq<Event>)
    requires cfg.maxSize > 0 && SerialRun(cfg, evs)
    ensures NeverOverwrites(cfg, evs)
  {
    if evs != [] {
      var front, ev := evs[..|evs| - 1], evs[|evs| - 1];
      SerialNeverOverwrites(cfg, front);
      ReachSerial(cfg, front);
      var sys := Reach(cfg, front);
      if ev.Step? && ev.i < |sys.tasks| {
        assert Undisturbed(sys.tasks[ev.i], sys.pool, sys.home);
      }
    }
  }

  // ----- When an idle connection has a cursor -----

  predicate InIdle(p: Pool, c: ConnId) {
    exists k :: 0 <= k < |p.idle| && p.idle[k].conn == c
  }

  /** No idle connection has a cursor on record. */
  predicate IdleBare(idle: seq<Entry>, conns: seq<Conn>) {
    forall k :: 0 <= k < |idle| ==> idle[k].conn < |conns| && conns[idle[k].conn].active.None?
  }

  /** The window is an execute that ends with a cursor on an idle connection, or gives a connection with a cursor back. */
  predicate LeavesCursor(sys: System, i: nat, t: Task, choice: Choice) {
    match t
    case Using(_, Execute(sql, pageSize), c) =>
      InIdle(sys.pool, c) && AfterExecute(ConnOf(sys, c), sql, pageSize, sys.nextCursor, choice.env).0.active.Some?
    case Returning(_, c) => ConnOf(sys, c).active.Some?
    case _ => false
  }

  /** Entries stay or go, and no connection in the list gets a cursor. */
  lemma StaysBare(idle: seq<Entry>, conns: seq<Conn>, idle': seq<Entry>, conns': seq<Conn>)
    requires IdleBare(idle, conns) && |conns| <= |conns'|
    requires forall e :: e in idle' ==> e in idle
    requires forall c :: 0 <= c < |conns| && conns[c].active.None? ==> conns'[c].active.None?
    ensures IdleBare(idle', conns')
  {
    forall k | 0 <= k < |idle'| ensures idle'[k].conn < |conns'| && conns'[idle'[k].conn].active.None? {
      assert idle'[k] in idle;
    }
  }

  lemma LeasingBare(sys: System, i: nat, t: Task, choice: Choice)
    requires IdleBare(sys.pool.idle, sys.conns) && Leasing(t)
    ensures var sys' := LeasingWindow(sys, i, t, choice); IdleBare(sys'.pool.idle, sys'.conns)
  {
    var sys' := LeasingWindow(sys, i, t, choice);
    StaysBare(sys.pool.idle, sys.conns, sys'.pool.idle, sys'.conns);
  }

  lemma SidingBare(sys: System, i: nat, t: Task, choice: Choice)
    requires IdleBare(sys.pool.idle, sys.conns) && Siding(t)
    ensures var sys' := SidingWindow(sys, i, t, choice); IdleBare(sys'.pool.idle, sys'.conns)
  {
    var sys' := SidingWindow(sys, i, t, choice);
    StaysBare(sys.pool.idle, sys.conns, sys'.pool.idle, sys'.conns);
  }

  lemma SweepingBare(sys: System, i: nat, t: Task)
    requires Placed(sys) && IdleBare(sys.pool.idle, sys.conns) && Sweeping(t)
    ensures var sys' := SweepingWindow(sys, i, t); IdleBare(sys'.pool.idle, sys'.conns)
  {
    var sys' := SweepingWindow(sys, i, t);
    if t.Evicting? {
      EvictionDivides(sys.pool.idle, t.now, sys.cfg, 0);
    }
    StaysBare(sys.pool.idle, sys.conns, sys'.pool.idle, sys'.conns);
  }

  lemma ReleasingBareIff(sys: System, i: nat, t: Task, choice: Choice)
    requires Placed(sys) && IdleBare(sys.pool.idle, sys.conns) && i < |sys.tasks| && sys.tasks[i] == t && Releasing(t)
    ensures var sys' := ReleasingWindow(sys, i, t, choice);
            IdleBare(sys'.pool.idle, sys'.conns) <==> !LeavesCursor(sys, i, t, choice)
  {
    var sys' := ReleasingWindow(sys, i, t, choice);
    if t.Returning? {
      assert Carried(t) == Some(t.c);
      var n := |sys.pool.idle|;
      assert sys'.pool.idle[n] == Entry(sys.clock, t.c);
    } else {
      StaysBare(sys.pool.idle, sys.conns, sys'.pool.idle, sys'.conns);
    }
  }

  /** An operation other than an execute gives no connection a cursor. */
  lemma OnlyExecuteOpens(conn: Conn, op: Op, id: CursorId, choice: Choice)
    requires conn.active.None? && !op.Execute?
    ensures Use(conn, op, id, choice).0.active.None?
  {
  }

  lemma UsingBareIff(sys: System, i: nat, t: Task, choice: Choice)
    requires Placed(sys) && IdleBare(sys.pool.idle, sys.conns) && i < |sys.tasks| && sys.tasks[i] == t && t.Using?
    ensures var sys' := UseWindow(sys, i, t.op, t.c, choice);
            IdleBare(sys'.pool.idle, sys'.conns) <==> !LeavesCursor(sys, i, t, choice)
  {
    assert Borrowed(t) == Some(t.c);
    var conn := Use(ConnOf(sys, t.c), t.op, sys.nextCursor, choice).0;
    var sys' := UseWindow(sys, i, t.op, t.c, choice);
    assert sys'.conns == sys.conns[t.c := conn] && sys'.pool == sys.pool;
    if InIdle(sys.pool, t.c) {
      var k :| 0 <= k < |sys.pool.idle| && sys.pool.idle[k].conn == t.c;
      assert sys.conns[t.c].active.None?;
      if !t.op.Execute? {
        OnlyExecuteOpens(sys.conns[t.c], t.op, sys.nextCursor, choice);
      }
    } else {
      assert forall k :: 0 <= k < |sys.pool.idle| ==> sys.pool.idle[k].conn != t.c;
    }
  }

  /**
   From a state whose idle connections are bare: the next window keeps them so exactly when it
   neither leaves a cursor on a connection that is idle nor returns one with a cursor.
   */
  lemma WindowBareIff(sys: System, i: nat, choice: Choice)
    requires Placed(sys) && IdleBare(sys.pool.idle, sys.conns) && i < |sys.tasks|
    ensures var sys' := Window(sys, i, choice);
            IdleBare(sys'.pool.idle, sys'.conns) <==> !LeavesCursor(sys, i, sys.tasks[i], choice)
  {
    var t := sys.tasks[i];
    if Leasing(t) {
      LeasingBare(sys, i, t, choice);
    } else if Siding(t) {
      SidingBare(sys, i, t, choice);
    } else if Releasing(t) {
      ReleasingBareIff(sys, i, t, choice);
    } else if Sweeping(t) {
      SweepingBare(sys, i, t);
    } else if t.Using? {
      UsingBareIff(sys, i, t, choice);
    } else {
      var sys' := Window(sys, i, choice);
      StaysBare(sys.pool.idle, sys.conns, sys'.pool.idle, sys'.conns);
    }
  }

  predicate LeavesCursorAt(sys: System, ev: Event) {
    ev.Step? && ev.i < |sys.tasks| && LeavesCursor(sys, ev.i, sys.tasks[ev.i], ev.choice)
  }

  predicate NeverLeavesCursor(cfg: Config, evs: seq<Event>) {
    evs == [] || (NeverLeavesCursor(cfg, evs[..|evs| - 1]) && !LeavesCursorAt(Reach(cfg, evs[..|evs| - 1]), evs[|evs| - 1]))
  }

  predicate BareThroughout(cfg: Config, evs: seq<Event>) {
    && IdleBare(Reach(cfg, evs).pool.idle, Reach(cfg, evs).conns)
    && (evs == [] || BareThroughout(cfg, evs[..|evs| - 1]))
  }

  /** Idle connections are bare all along a run exactly when no window of it leaves them a cursor. */
  lemma {:induction false} BareThroughoutIff(cfg: Config, evs: seq<Event>)
    requires cfg.maxSize > 0
    ensures BareThroughout(cfg, evs) <==> NeverLeavesCursor(cfg, evs)
  {
    if evs != [] {
      var front, ev := evs[..|evs| - 1], evs[|evs| - 1];
      var sys := Reach(cfg, front);
      BareThroughoutIff(cfg, front);
      if NeverLeavesCursor(cfg, front) && ev.Step? && ev.i < |sys.tasks| {
        ReachSound(cfg, front);
        WindowBareIff(sys, ev.i, ev.choice);
      }
    }
  }

  lemma SerialLeavesNone(sys: System, i: nat, choice: Choice)
    requires Placed(sys) && Serial(sys) && i < |sys.tasks|
    ensures !LeavesCursor(sys, i, sys.tasks[i], choice)
  {
    var t := sys.tasks[i];
    assert Undisturbed(t, sys.pool, sys.home);
    if t.Using? {
      assert forall k :: 0 <= k < |sys.pool.idle| ==> At(sys.home, sys.pool.idle[k].conn, AtIdle);
    } else if t.Returning? {
      assert Carried(t) == Some(t.c);
      assert Tidy(sys.tasks, t.c, sys.home[t.c], sys.conns[t.c]);
    }
  }

  /** Calls of a session one after another are a way not to. */
  lemma {:induction false} SerialNeverLeavesCursor(cfg: Config, evs: seq<Event>)
    requires cfg.maxSize > 0 && SerialRun(cfg, evs)
    ensures NeverLeavesCursor(cfg, evs)
  {
    if evs != [] {
      var front, ev := evs[..|evs| - 1], evs[|evs| - 1];
      var sys := Reach(cfg, front);
      SerialNeverLeavesCursor(cfg, front);
      ReachSerial(cfg, front);
      ReachSound(cfg, front);
      if ev.Step? && ev.i < |sys.tasks| {
        SerialLeavesNone(sys, ev.i, ev.choice);
      }
    }
  }

  // ----- Results -----

  predicate NoneLost(sys: System) {
    sys.orphans == {} && (!sys.down && AllDone(sys) ==> sys.pool.total == Registered(sys.pool))
  }

  /** With one call of a session at a time no lease is overwritten, so no slot is ever lost. */
  lemma NoSlotIsLost(cfg: Config, evs: seq<Event>)
    requires cfg.maxSize > 0 && SerialRun(cfg, evs)
    ensures NoneLost(Reach(cfg, evs))
  {
    SerialNeverOverwrites(cfg, evs);
    OrphansIffOverwritten(cfg, evs);
    SlotsAreConserved(cfg, evs);
  }

  /** Idle connections have no cursor on record, and no transaction unless they are stranded. */
  predicate CleanIdle(sys: System) {
    forall k :: 0 <= k < |sys.pool.idle| ==>
      && sys.pool.idle[k].conn < |sys.conns|
      && sys.conns[sys.pool.idle[k].conn].active == None
      && (sys.conns[sys.pool.idle[k].conn].session.tx == NoTx || Stranded(sys.conns[sys.pool.idle[k].conn]))
  }

  /** With one call of a session at a time, what enters the idle list is clean. */
  lemma IdleIsClean(cfg: Config, evs: seq<Event>)
    requires cfg.maxSize > 0 && SerialRun(cfg, evs)
    ensures CleanIdle(Reach(cfg, evs))
  {
    SerialNeverLeavesCursor(cfg, evs);
    BareThroughoutIff(cfg, evs);
    EveryConnectionAgrees(cfg, evs);
    BareIsClean(Reach(cfg, evs));
  }

  lemma BareIsClean(sys: System)
    requires IdleBare(sys.pool.idle, sys.conns) && AllAgreeOrStranded(sys.conns)
    ensures CleanIdle(sys)
  {
    forall k | 0 <= k < |sys.pool.idle|
      ensures sys.conns[sys.pool.idle[k].conn].session.tx == NoTx || Stranded(sys.conns[sys.pool.idle[k].conn])
    {
      var conn := sys.conns[sys.pool.idle[k].conn];
      assert Agrees(conn) || Stranded(conn);
    }
  }

  // ----- When the close of a short first page is interrupted -----

  predicate AllAgree(conns: seq<Conn>) {
    forall c :: 0 <= c < |conns| ==> Agrees(conns[c])
  }

  /** The window is an execute that ends short and whose last CLOSE is interrupted. */
  predicate Strands(sys: System, i: nat, choice: Choice) {
    && i < |sys.tasks| && sys.tasks[i].Using? && sys.tasks[i].op.Execute?
    && EndsShort(sys.tasks[i].op.sql, sys.tasks[i].op.pageSize, choice.env)
    && choice.env.finalClose == CloseInterrupted
  }

  predicate StrandsAt(sys: System, ev: Event) {
    ev.Step? && Strands(sys, ev.i, ev.choice)
  }

  predicate NeverStrands(cfg: Config, evs: seq<Event>) {
    evs == [] || (NeverStrands(cfg, evs[..|evs| - 1]) && !StrandsAt(Reach(cfg, evs[..|evs| - 1]), evs[|evs| - 1]))
  }

  lemma UseAgreesIff(conn: Conn, op: Op, id: CursorId, choice: Choice)
    requires Agrees(conn)
    ensures var strands := op.Execute? && EndsShort(op.sql, op.pageSize, choice.env) && choice.env.finalClose == CloseInterrupted;
            Agrees(Use(conn, op, id, choice).0) <==> !strands
  {
    match op
    case Execute(sql, pageSize) => ExecuteAgreesIff(conn, sql, pageSize, id, choice.env);
    case FetchPage(cursor, count) => OthersAgree(conn, cursor, count, choice.succeeds, choice.close);
    case CloseQuery(cursor) => OthersAgree(conn, cursor, 0, true, choice.close);
    case Edit => OthersAgree(conn, 0, 0, choice.succeeds, choice.close);
  }

  lemma SetAgrees(sys: System, c: ConnId, conn: Conn)
    requires AllAgree(sys.conns) && Agrees(conn)
    ensures AllAgree(SetConn(sys, c, conn).conns)
  {
  }

  /** Only dialing, operating, browsing and cleaning touch connections. */
  lemma LeasingConns(sys: System, i: nat, t: Task, choice: Choice)
    requires Leasing(t)
    ensures var conns := LeasingWindow(sys, i, t, choice).conns; conns == sys.conns || conns == sys.conns + [FRESH]
  {
  }

  lemma SidingConns(sys: System, i: nat, t: Task, choice: Choice)
    requires Siding(t)
    ensures var conns := SidingWindow(sys, i, t, choice).conns; conns == sys.conns || conns == sys.conns + [FRESH]
  {
  }

  lemma OtherConns(sys: System, i: nat, t: Task, choice: Choice)
    ensures Releasing(t) && !t.Cleaning? ==> ReleasingWindow(sys, i, t, choice).conns == sys.conns
    ensures Sweeping(t) ==> SweepingWindow(sys, i, t).conns == sys.conns
  {
  }

  lemma WindowAgrees(sys: System, i: nat, choice: Choice)
    requires AllAgree(sys.conns) && i < |sys.tasks| && !Strands(sys, i, choice)
    ensures AllAgree(Window(sys, i, choice).conns)
  {
    var t := sys.tasks[i];
    if t.Using? {
      UseAgreesIff(ConnOf(sys, t.c), t.op, sys.nextCursor, choice);
      SetAgrees(sys, t.c, Use(ConnOf(sys, t.c), t.op, sys.nextCursor, choice).0);
    } else if t.Browsing? {
      OthersAgree(ConnOf(sys, t.b), 0, 0, choice.succeeds, choice.close);
      SetAgrees(sys, t.b, AfterStatement(ConnOf(sys, t.b), choice.succeeds).0);
    } else if t.Cleaning? {
      OthersAgree(ConnOf(sys, t.c), 0, 0, true, choice.close);
      SetAgrees(sys, t.c, AfterCloseActive(ConnOf(sys, t.c), choice.close));
    } else if Leasing(t) {
      LeasingConns(sys, i, t, choice);
    } else if Siding(t) {
      SidingConns(sys, i, t, choice);
    } else if Releasing(t) || Sweeping(t) {
      OtherConns(sys, i, t, choice);
    }
  }

  lemma {:induction false} NeverStrandsAgrees(cfg: Config, evs: seq<Event>)
    requires NeverStrands(cfg, evs)
    ensures AllAgree(Reach(cfg, evs).conns)
  {
    if evs != [] {
      var front, ev := evs[..|evs| - 1], evs[|evs| - 1];
      NeverStrandsAgrees(cfg, front);
      if ev.Step? && ev.i < |Reach(cfg, front).tasks| {
        WindowAgrees(Reach(cfg, front), ev.i, ev.choice);
      }
    }
  }

  /** The connection `c` is there and stranded. */
  predicate StrandedAt(conns: seq<Conn>, c: ConnId) {
    c < |conns| && Stranded(conns[c])
  }

  /** A window of a call that uses `c`, or another connection, does not repair `c`. */
  lemma SetKeepsStranded(sys: System, c: ConnId, conn: Conn, d: ConnId)
    requires StrandedAt(sys.conns, d) && (c == d ==> Stranded(conn))
    ensures StrandedAt(SetConn(sys, c, conn).conns, d)
  {
  }

  lemma UseStaysStranded(conn: Conn, op: Op, id: CursorId, choice: Choice)
    requires Stranded(conn)
    ensures Stranded(Use(conn, op, id, choice).0)
  {
    match op
    case Execute(sql, pageSize) =>
      StrandedStays(conn, sql, pageSize, id, choice.env, 0, choice.succeeds, choice.close);
    case FetchPage(cursor, count) =>
    case CloseQuery(cursor) =>
    case Edit =>
  }

  lemma WindowStaysStranded(sys: System, i: nat, choice: Choice, d: ConnId)
    requires StrandedAt(sys.conns, d) && i < |sys.tasks|
    ensures StrandedAt(Window(sys, i, choice).conns, d)
  {
    var t := sys.tasks[i];
    if t.Using? {
      if t.c == d { UseStaysStranded(sys.conns[d], t.op, sys.nextCursor, choice); }
      SetKeepsStranded(sys, t.c, Use(ConnOf(sys, t.c), t.op, sys.nextCursor, choice).0, d);
    } else if t.Browsing? {
      SetKeepsStranded(sys, t.b, AfterStatement(ConnOf(sys, t.b), choice.succeeds).0, d);
    } else if t.Cleaning? {
      SetKeepsStranded(sys, t.c, AfterCloseActive(ConnOf(sys, t.c), choice.close), d);
    } else if Leasing(t) {
      LeasingConns(sys, i, t, choice);
    } else if Siding(t) {
      SidingConns(sys, i, t, choice);
    } else if Releasing(t) || Sweeping(t) {
      OtherConns(sys, i, t, choice);
    }
  }

  lemma StrandingLeavesStranded(sys: System, i: nat, choice: Choice)
    requires Placed(sys) && AllAgree(sys.conns) && Strands(sys, i, choice)
    ensures StrandedAt(Window(sys, i, choice).conns, sys.tasks[i].c)
  {
    var t := sys.tasks[i];
    ExecuteAgreesIff(ConnOf(sys, t.c), t.op.sql, t.op.pageSize, sys.nextCursor, choice.env);
  }

  lemma {:induction false} StrandingRunStrands(cfg: Config, evs: seq<Event>) returns (c: ConnId)
    requires cfg.maxSize > 0 && !NeverStrands(cfg, evs)
    ensures StrandedAt(Reach(cfg, evs).conns, c)
  {
    var front, ev := evs[..|evs| - 1], evs[|evs| - 1];
    var sys := Reach(cfg, front);
    if NeverStrands(cfg, front) {
      NeverStrandsAgrees(cfg, front);
      ReachSound(cfg, front);
      StrandingLeavesStranded(sys, ev.i, ev.choice);
      c := sys.tasks[ev.i].c;
    } else {
      c := StrandingRunStrands(cfg, front);
      if ev.Step? && ev.i < |sys.tasks| {
        WindowStaysStranded(sys, ev.i, ev.choice, c);
      }
    }
  }

  /**
   Cursor and transaction of every connection agree after a run, so that a transaction that is open or
   aborted is that of the cursor on record, exactly if no execute of the run ended short with its CLOSE
   interrupted: such a connection is never repaired.
   */
  lemma RunsAgreeIff(cfg: Config, evs: seq<Event>)
    requires cfg.maxSize > 0
    ensures AllAgree(Reach(cfg, evs).conns) <==> NeverStrands(cfg, evs)
  {
    if NeverStrands(cfg, evs) {
      NeverStrandsAgrees(cfg, evs);
    } else {
      var c := StrandingRunStrands(cfg, evs);
      assert !Agrees(Reach(cfg, evs).conns[c]);
    }
  }

  /** No CLOSE after a first page is interrupted: a condition on the server's choices alone. */
  predicate Gentle(evs: seq<Event>) {
    forall k :: 0 <= k < |evs| ==> evs[k].Step? ==> evs[k].choice.env.finalClose != CloseInterrupted
  }

  lemma {:induction false} GentleNeverStrands(cfg: Config, evs: seq<Event>)
    requires Gentle(evs)
    ensures NeverStrands(cfg, evs)
  {
    if evs != [] {
      var front := evs[..|evs| - 1];
      assert Gentle(front);
      GentleNeverStrands(cfg, front);
      assert evs[|evs| - 1].Step? ==> evs[|evs| - 1].choice.env.finalClose != CloseInterrupted;
    }
  }

  lemma GentleRunsAgree(cfg: Config, evs: seq<Event>)
    requires Gentle(evs)
    ensures AllAgree(Reach(cfg, evs).conns)
  {
    GentleNeverStrands(cfg, evs);
    NeverStrandsAgrees(cfg, evs);
  }

  predicate UntouchedIdle(sys: System) {
    forall k :: 0 <= k < |sys.pool.idle| ==>
      && sys.pool.idle[k].conn < |sys.conns|
      && sys.conns[sys.pool.idle[k].conn].active == None
      && sys.conns[sys.pool.idle[k].conn].session.tx == NoTx
  }

  /** Then a connection in the idle list is as good as new. */
  lemma IdleIsIdle(cfg: Config, evs: seq<Event>)
    requires cfg.maxSize > 0 && SerialRun(cfg, evs) && NeverStrands(cfg, evs)
    ensures UntouchedIdle(Reach(cfg, evs))
  {
    IdleIsClean(cfg, evs);
    NeverStrandsAgrees(cfg, evs);
    AgreeingIdle(Reach(cfg, evs));
  }

  lemma AgreeingIdle(sys: System)
    requires CleanIdle(sys) && AllAgree(sys.conns)
    ensures UntouchedIdle(sys)
  {
    forall k | 0 <= k < |sys.pool.idle| ensures sys.conns[sys.pool.idle[k].conn].session.tx == NoTx {
      assert Agrees(sys.conns[sys.pool.idle[k].conn]);
    }
  }
}
