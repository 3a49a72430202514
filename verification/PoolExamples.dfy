/**
 Runs that show which properties the pool does not have, and a call run without
 interruption.
 */
module PoolExamples {
  import opened Wrappers
  import L = SqlLexer
  import opened SqlSplit
  import opened PoolState
  import P = PgPool
  import opened PgServer
  import opened PgExec
  import opened PgCursor
  import opened PoolRuns
  import opened PoolCounts
  import opened PoolSerial

  const QUIET: Env := Env(Closes, true, None, None, None, Declares, [], true, Closes)
  const SMOOTH: Choice := Choice(true, true, Closes, QUIET)

  lemma ReachStep(cfg: Config, evs: seq<Event>, ev: Event)
    ensures Reach(cfg, evs + [ev]) == Apply(Reach(cfg, evs), ev)
  {
    assert (evs + [ev])[..|evs|] == evs;
  }

  lemma ReachStart(cfg: Config)
    ensures Reach(cfg, []) == Init(cfg) && SerialRun(cfg, [])
  {
  }

  /** What a lease call sees and changes. */
  predicate Stage(sys: System, i: nat, cfg: Config, p: Pool, t: Task, conns: nat) {
    i < |sys.tasks| && sys.tasks[i] == t && sys.cfg == cfg && sys.pool == p && |sys.conns| == conns
  }

  lemma LookupStep(sys: System, i: nat, choice: Choice, s: SessionId, op: Op)
    requires i < |sys.tasks| && sys.tasks[i] == Lookup(s, op)
    ensures var t := if s in sys.pool.leased then Using(s, op, sys.pool.leased[s]) else TakeIdle(s, op);
            Stage(LeasingWindow(sys, i, sys.tasks[i], choice), i, sys.cfg, sys.pool, t, |sys.conns|)
  {
  }

  lemma TakeIdleStep(sys: System, i: nat, choice: Choice, s: SessionId, op: Op)
    requires i < |sys.tasks| && sys.tasks[i] == TakeIdle(s, op)
    ensures var (p, c) := PopIdle(sys.pool);
            var t := if c.Some? then Assigning(s, op, c.value) else CheckRoom(s, op);
            Stage(LeasingWindow(sys, i, sys.tasks[i], choice), i, sys.cfg, p, t, |sys.conns|)
  {
  }

  lemma RoomStep(sys: System, i: nat, choice: Choice, s: SessionId, op: Op)
    requires i < |sys.tasks| && sys.tasks[i] == CheckRoom(s, op)
    ensures var t := if Full(sys.pool, sys.cfg) then Done(Exhausted) else Reserving(s, op);
            Stage(LeasingWindow(sys, i, sys.tasks[i], choice), i, sys.cfg, sys.pool, t, |sys.conns|)
  {
  }

  lemma ReserveStep(sys: System, i: nat, choice: Choice, s: SessionId, op: Op)
    requires i < |sys.tasks| && sys.tasks[i] == Reserving(s, op) && !Full(sys.pool, sys.cfg)
    ensures Stage(LeasingWindow(sys, i, sys.tasks[i], choice), i, sys.cfg, Reserve(sys.pool, sys.cfg).value, Opening(s, op), |sys.conns|)
  {
  }

  lemma OpeningStep(sys: System, i: nat, choice: Choice, s: SessionId, op: Op)
    requires i < |sys.tasks| && sys.tasks[i] == Opening(s, op)
    ensures var sys' := LeasingWindow(sys, i, sys.tasks[i], choice);
            if choice.dials then Stage(sys', i, sys.cfg, sys.pool, Assigning(s, op, |sys.conns|), |sys.conns| + 1)
            else Stage(sys', i, sys.cfg, sys.pool, RollingBack, |sys.conns|)
  {
  }

  lemma AssignStep(sys: System, i: nat, choice: Choice, s: SessionId, op: Op, c: ConnId)
    requires i < |sys.tasks| && sys.tasks[i] == Assigning(s, op, c)
    ensures Stage(LeasingWindow(sys, i, sys.tasks[i], choice), i, sys.cfg, Assign(sys.pool, s, c), Using(s, op, c), |sys.conns|)
  {
    if s in sys.pool.leased {
      assert (sys.pool.leased - {s})[s := c] == sys.pool.leased[s := c];
    }
  }

  /** Where the windows of one task lead when nothing comes in between. */
  function Alone(sys: System, i: nat, choice: Choice, n: nat): System
    decreases n
  {
    if n == 0 || |sys.tasks| <= i then sys else Alone(Window(sys, i, choice), i, choice, n - 1)
  }

  /** How a lease call's task stands when leasing came to `r`. */
  function Landed(s: SessionId, op: Op, r: Result<ConnId, P.LeaseError>): Task {
    match r
    case Ok(c) => Using(s, op, c)
    case Err(Connect) => Done(ConnectFailed)
    case Err(PoolExhausted(_, _)) => Done(Exhausted)
  }

  predicate LandsAt(sys': System, i: nat, pool: Pool, t: Task) {
    i < |sys'.tasks| && sys'.pool == pool && sys'.tasks[i] == t
  }

  lemma OpenAlone(sys: System, i: nat, choice: Choice, s: SessionId, op: Op)
    requires i < |sys.tasks| && sys.tasks[i] == Opening(s, op)
    ensures var sys' := Alone(sys, i, choice, 2);
            && i < |sys'.tasks|
            && sys'.pool == (if choice.dials then Assign(sys.pool, s, |sys.conns|) else Unreserve(sys.pool))
            && sys'.tasks[i] == (if choice.dials then Using(s, op, |sys.conns|) else Done(ConnectFailed))
  {
    OpeningStep(sys, i, choice, s, op);
    var s1 := Window(sys, i, choice);
    if choice.dials {
      AssignStep(s1, i, choice, s, op, |sys.conns|);
    }
    assert Alone(s1, i, choice, 1) == Window(s1, i, choice);
  }

  /** What becomes of a lease call that has to open a connection. */
  function OpenResult(sys: System, s: SessionId, dials: bool): (Pool, Result<ConnId, P.LeaseError>) {
    if Full(sys.pool, sys.cfg) then (sys.pool, Err(P.PoolExhausted(sys.pool.total, sys.cfg.maxSize)))
    else if !dials then (sys.pool, Err(P.Connect))
    else (sys.pool.(total := sys.pool.total + 1, leased := sys.pool.leased[s := |sys.conns|]), Ok(|sys.conns|))
  }

  lemma ReserveAlone(sys: System, i: nat, choice: Choice, s: SessionId, op: Op)
    requires i < |sys.tasks| && sys.tasks[i] == Reserving(s, op) && !Full(sys.pool, sys.cfg)
    ensures var (pool, r) := OpenResult(sys, s, choice.dials);
            LandsAt(Alone(sys, i, choice, 3), i, pool, Landed(s, op, r))
  {
    ReserveStep(sys, i, choice, s, op);
    var s1 := Window(sys, i, choice);
    OpenAlone(s1, i, choice, s, op);
  }

  lemma RoomAlone(sys: System, i: nat, choice: Choice, s: SessionId, op: Op) returns (n: nat)
    requires i < |sys.tasks| && sys.tasks[i] == CheckRoom(s, op)
    ensures var (pool, r) := OpenResult(sys, s, choice.dials);
            LandsAt(Alone(sys, i, choice, n), i, pool, Landed(s, op, r))
  {
    RoomStep(sys, i, choice, s, op);
    var s1 := Window(sys, i, choice);
    if Full(sys.pool, sys.cfg) {
      assert Alone(s1, i, choice, 0) == s1;
      return 1;
    }
    ReserveAlone(s1, i, choice, s, op);
    return 4;
  }

  lemma TakeIdleAlone(sys: System, i: nat, choice: Choice, s: SessionId, op: Op) returns (n: nat)
    requires i < |sys.tasks| && sys.tasks[i] == TakeIdle(s, op) && sys.pool.idle != []
    ensures var sys' := Alone(sys, i, choice, n);
            var (p, c) := PopIdle(sys.pool);
            i < |sys'.tasks| && sys'.pool == Assign(p, s, c.value) && sys'.tasks[i] == Using(s, op, c.value)
  {
    TakeIdleStep(sys, i, choice, s, op);
    var s1 := Window(sys, i, choice);
    AssignStep(s1, i, choice, s, op, PopIdle(sys.pool).1.value);
    assert Alone(s1, i, choice, 1) == Window(s1, i, choice);
    return 2;
  }

  lemma NewAlone(sys: System, i: nat, choice: Choice, s: SessionId, op: Op) returns (n: nat)
    requires i < |sys.tasks| && sys.tasks[i] == TakeIdle(s, op) && sys.pool.idle == [] && s !in sys.pool.leased
    ensures var (pool, r) := P.LeaseAlone(sys.pool, sys.cfg, s, if choice.dials then Some(|sys.conns|) else None);
            LandsAt(Alone(sys, i, choice, n), i, pool, Landed(s, op, r))
  {
    TakeIdleStep(sys, i, choice, s, op);
    var s1 := Window(sys, i, choice);
    var m := RoomAlone(s1, i, choice, s, op);
    return m + 1;
  }

  /** A lease call whose windows nothing interrupts does what the pool object does. */
  lemma LeaseUninterrupted(sys: System, i: nat, s: SessionId, op: Op, choice: Choice) returns (n: nat)
    requires i < |sys.tasks| && sys.tasks[i] == Lookup(s, op)
    ensures var (pool, r) := P.LeaseAlone(sys.pool, sys.cfg, s, if choice.dials then Some(|sys.conns|) else None);
            LandsAt(Alone(sys, i, choice, n), i, pool, Landed(s, op, r))
  {
    LookupStep(sys, i, choice, s, op);
    var s1 := Window(sys, i, choice);
    if s in sys.pool.leased {
      assert Alone(s1, i, choice, 0) == s1;
      return 1;
    }
    var m: nat;
    if sys.pool.idle != [] {
      m := TakeIdleAlone(s1, i, choice, s, op);
    } else {
      m := NewAlone(s1, i, choice, s, op);
    }
    return m + 1;
  }

  // ----- The same for a side connection -----

  /** How a browse call's task stands when looking for its connection came to `r`. */
  function Shown(r: Result<ConnId, P.LeaseError>): Task {
    match r
    case Ok(c) => Browsing(c)
    case Err(Connect) => Done(ConnectFailed)
    case Err(PoolExhausted(_, _)) => Done(Exhausted)
  }

  /** Where a window of a browse call leads. */
  predicate SideStage(sys': System, i: nat, sys: System, p: Pool, t: Task, conns: nat) {
    && i < |sys'.tasks| && sys'.tasks[i] == t && sys'.pool == p && |sys'.conns| == conns
    && sys'.cfg == sys.cfg && sys'.clock == sys.clock
  }

  lemma FindStep(sys: System, i: nat, choice: Choice, db: Database)
    requires i < |sys.tasks| && sys.tasks[i] == Finding(db)
    ensures var t := if db in sys.pool.secondary then Browsing(sys.pool.secondary[db].conn) else ReservingFor(db);
            SideStage(Window(sys, i, choice), i, sys, TouchSecondary(sys.pool, db, sys.clock).0, t, |sys.conns|)
  {
  }

  lemma ReserveForStep(sys: System, i: nat, choice: Choice, db: Database)
    requires i < |sys.tasks| && sys.tasks[i] == ReservingFor(db)
    ensures if sys.pool.total >= sys.cfg.maxSize then SideStage(Window(sys, i, choice), i, sys, sys.pool, Done(Exhausted), |sys.conns|)
            else SideStage(Window(sys, i, choice), i, sys, sys.pool.(total := sys.pool.total + 1), OpeningFor(db), |sys.conns|)
  {
  }

  lemma OpenForStep(sys: System, i: nat, choice: Choice, db: Database)
    requires i < |sys.tasks| && sys.tasks[i] == OpeningFor(db)
    ensures if choice.dials then SideStage(Window(sys, i, choice), i, sys, sys.pool, Inserting(db, |sys.conns|), |sys.conns| + 1)
            else SideStage(Window(sys, i, choice), i, sys, sys.pool, RollingBack, |sys.conns|)
  {
  }

  lemma InsertStep(sys: System, i: nat, choice: Choice, db: Database, c: ConnId)
    requires i < |sys.tasks| && sys.tasks[i] == Inserting(db, c) && db !in sys.pool.secondary
    ensures SideStage(Window(sys, i, choice), i, sys, sys.pool.(secondary := sys.pool.secondary[db := Entry(sys.clock, c)]), Browsing(c), |sys.conns|)
  {
  }

  lemma RollBackStep(sys: System, i: nat, choice: Choice)
    requires i < |sys.tasks| && sys.tasks[i] == RollingBack
    ensures SideStage(Window(sys, i, choice), i, sys, Unreserve(sys.pool), Done(ConnectFailed), |sys.conns|)
  {
  }

  lemma AloneUnfold(sys: System, i: nat, choice: Choice, n: nat)
    requires i < |sys.tasks|
    ensures Alone(sys, i, choice, n + 1) == Alone(Window(sys, i, choice), i, choice, n)
    ensures Alone(sys, i, choice, 0) == sys
  {
  }

  lemma DialForAlone(sys: System, i: nat, choice: Choice, db: Database)
    requires i < |sys.tasks| && sys.tasks[i] == OpeningFor(db) && db !in sys.pool.secondary
    ensures LandsAt(Alone(sys, i, choice, 2), i,
                    if choice.dials then sys.pool.(secondary := sys.pool.secondary[db := Entry(sys.clock, |sys.conns|)])
                    else Unreserve(sys.pool),
                    if choice.dials then Browsing(|sys.conns|) else Done(ConnectFailed))
  {
    hide Window, Alone;
    OpenForStep(sys, i, choice, db);
    var s1 := Window(sys, i, choice);
    if choice.dials { InsertStep(s1, i, choice, db, |sys.conns|); } else { RollBackStep(s1, i, choice); }
    AloneUnfold(sys, i, choice, 1);
    AloneUnfold(s1, i, choice, 0);
    AloneUnfold(Window(s1, i, choice), i, choice, 0);
  }

  lemma ReserveForAlone(sys: System, i: nat, choice: Choice, db: Database) returns (n: nat)
    requires i < |sys.tasks| && sys.tasks[i] == ReservingFor(db) && db !in sys.pool.secondary && db != sys.cfg.database
    ensures var (pool, r) := P.BrowseAlone(sys.pool, sys.cfg, db, if choice.dials then Some(|sys.conns|) else None, sys.clock);
            LandsAt(Alone(sys, i, choice, n), i, pool, Shown(r))
  {
    hide Window, Alone;
    ReserveForStep(sys, i, choice, db);
    var s1 := Window(sys, i, choice);
    AloneUnfold(sys, i, choice, 0);
    AloneUnfold(s1, i, choice, 0);
    if sys.pool.total >= sys.cfg.maxSize {
      return 1;
    }
    DialForAlone(s1, i, choice, db);
    AloneUnfold(sys, i, choice, 2);
    return 3;
  }

  /** A browse call of another database whose windows nothing interrupts does what the pool object does. */
  lemma BrowseUninterrupted(sys: System, i: nat, db: Database, choice: Choice) returns (n: nat)
    requires i < |sys.tasks| && sys.tasks[i] == Finding(db) && db != sys.cfg.database
    ensures var (pool, r) := P.BrowseAlone(sys.pool, sys.cfg, db, if choice.dials then Some(|sys.conns|) else None, sys.clock);
            LandsAt(Alone(sys, i, choice, n), i, pool, Shown(r))
  {
    hide Window, Alone;
    FindStep(sys, i, choice, db);
    var s1 := Window(sys, i, choice);
    if db in sys.pool.secondary {
      AloneUnfold(sys, i, choice, 0);
      AloneUnfold(s1, i, choice, 0);
      return 1;
    }
    var m := ReserveForAlone(s1, i, choice, db);
    AloneUnfold(sys, i, choice, m);
    return m + 1;
  }

  /** Fetching and closing are done on the session's lease or not at all: they never open or take a connection. */
  lemma FetchNeedsALease(sys: System, s: SessionId, op: Op, choice: Choice)
    requires op.FetchPage? || op.CloseQuery?
    ensures var sys' := Apply(Apply(sys, Begin(OnSession(s, op))), Step(|sys.tasks|, choice));
            && sys'.pool == sys.pool && sys'.conns == sys.conns
            && sys'.tasks == sys.tasks + [if s in sys.pool.leased then Using(s, op, sys.pool.leased[s]) else Done(NoSession)]
  {
  }

  /** The step of a call on its connection `c`, which is `before`: it becomes `after`, the call is over, and nothing else changes. */
  predicate Uses(sys: System, i: nat, choice: Choice, before: Conn, after: Conn, outcome: Outcome) {
    && i < |sys.tasks| && sys.tasks[i].Using? && sys.tasks[i].c < |sys.conns| && sys.conns[sys.tasks[i].c] == before
    && var sys' := Apply(sys, Step(i, choice));
       && sys'.tasks == sys.tasks[i := Done(outcome)]
       && sys'.conns == sys.conns[sys.tasks[i].c := after]
       && sys'.pool == sys.pool && sys'.home == sys.home
  }

  /** A call made under a lease is the call on the connection: the window adds and loses nothing. */
  lemma UsingIsTheCall(sys: System, i: nat, choice: Choice)
    requires i < |sys.tasks| && sys.tasks[i].Using? && sys.tasks[i].c < |sys.conns|
    ensures var c, op := sys.conns[sys.tasks[i].c], sys.tasks[i].op;
            && (op.Execute? ==>
                  var (c', reply) := AfterExecute(c, op.sql, op.pageSize, sys.nextCursor, choice.env);
                  Uses(sys, i, choice, c, c', Executed(reply)))
            && (op.FetchPage? ==>
                  var (c', page) := AfterFetch(c, op.id, op.count, choice.succeeds);
                  Uses(sys, i, choice, c, c', Fetched(page)))
            && (op.CloseQuery? ==>
                  Uses(sys, i, choice, c, AfterCloseQuery(c, op.id, choice.close), Finished))
  {
  }

  /**
   An edit is acknowledged exactly if the server runs it, which it does in every transaction but an aborted one;
   a failing edit aborts the transaction it is in, and an edit never touches the cursor on record.
   */
  lemma EditAnswers(sys: System, i: nat, choice: Choice)
    requires i < |sys.tasks| && sys.tasks[i].Using? && sys.tasks[i].op.Edit? && sys.tasks[i].c < |sys.conns|
    ensures var c := sys.conns[sys.tasks[i].c];
            var tx := if c.session.tx.InTx? && !choice.succeeds then Aborted else c.session.tx;
            Uses(sys, i, choice, c, c.(session := c.session.(tx := tx)), Edited(choice.succeeds && !c.session.tx.Aborted?))
  {
  }

  // ----- Orphans -----

  /** Two calls, two connections at most. */
  function Race(cfg: Config, p: Pool, t: Task, u: Task, conns: seq<Conn>, home: seq<Home>, orphans: set<ConnId>): System {
    System(cfg, p, [t, u], conns, home, orphans, map[], 0, 0, false)
  }

  function Edits(idle: seq<Entry>, leased: map<SessionId, ConnId>, total: nat): Pool {
    Pool(idle, leased, total, map[])
  }

  const FIRST: Event := Step(0, SMOOTH)
  const SECOND: Event := Step(1, SMOOTH)
  const THIRD: Event := Step(2, SMOOTH)

  /** Both look for a lease and find none. */
  lemma RaceBegins(cfg: Config) returns (evs: seq<Event>)
    ensures Reach(cfg, evs) == Race(cfg, Init(cfg).pool, TakeIdle("a", Edit), TakeIdle("a", Edit), [FRESH], [AtIdle], {})
  {
    hide Reach;
    ReachStart(cfg);
    var begin := Begin(OnSession("a", Edit));
    ReachStep(cfg, [], begin);
    ReachStep(cfg, [] + [begin], begin);
    evs := [] + [begin] + [begin];
    assert Reach(cfg, evs) == Race(cfg, Init(cfg).pool, Lookup("a", Edit), Lookup("a", Edit), [FRESH], [AtIdle], {});
    ReachStep(cfg, evs, FIRST);
    evs := evs + [FIRST];
    assert Reach(cfg, evs) == Race(cfg, Init(cfg).pool, TakeIdle("a", Edit), Lookup("a", Edit), [FRESH], [AtIdle], {});
    ReachStep(cfg, evs, SECOND);
    evs := evs + [SECOND];
  }

  /** The first takes the idle connection; the second finds nothing idle, and room. */
  lemma RaceParts(cfg: Config) returns (evs: seq<Event>)
    requires cfg.maxSize > 1
    ensures Reach(cfg, evs) == Race(cfg, Edits([], map[], 2), Assigning("a", Edit, 0), Opening("a", Edit), [FRESH], [AtTask(0)], {})
  {
    hide Reach;
    evs := RaceBegins(cfg);
    ReachStep(cfg, evs, FIRST);
    evs := evs + [FIRST];
    var p := Edits([], map[], 1);
    assert Reach(cfg, evs) == Race(cfg, p, Assigning("a", Edit, 0), TakeIdle("a", Edit), [FRESH], [AtTask(0)], {});
    ReachStep(cfg, evs, SECOND);
    evs := evs + [SECOND];
    assert Reach(cfg, evs) == Race(cfg, p, Assigning("a", Edit, 0), CheckRoom("a", Edit), [FRESH], [AtTask(0)], {});
    ReachStep(cfg, evs, SECOND);
    evs := evs + [SECOND];
    assert Reach(cfg, evs) == Race(cfg, p, Assigning("a", Edit, 0), Reserving("a", Edit), [FRESH], [AtTask(0)], {});
    ReachStep(cfg, evs, SECOND);
    evs := evs + [SECOND];
  }

  /** Both write a lease for the session, one over the other. */
  lemma RaceCollides(cfg: Config) returns (evs: seq<Event>)
    requires cfg.maxSize > 1
    ensures Reach(cfg, evs) == Race(cfg, Edits([], map["a" := 1], 2), Using("a", Edit, 0), Using("a", Edit, 1),
                                    [FRESH, FRESH], [Orphaned, AtLease("a")], {0})
  {
    hide Reach;
    evs := RaceParts(cfg);
    ReachStep(cfg, evs, SECOND);
    evs := evs + [SECOND];
    assert Reach(cfg, evs) == Race(cfg, Edits([], map[], 2), Assigning("a", Edit, 0), Assigning("a", Edit, 1),
                                   [FRESH, FRESH], [AtTask(0), AtTask(1)], {});
    ReachStep(cfg, evs, FIRST);
    evs := evs + [FIRST];
    assert Reach(cfg, evs) == Race(cfg, Edits([], map["a" := 0], 2), Using("a", Edit, 0), Assigning("a", Edit, 1),
                                   [FRESH, FRESH], [AtLease("a"), AtTask(1)], {});
    ReachStep(cfg, evs, SECOND);
    evs := evs + [SECOND];
    assert (map["a" := 0] - {"a"})["a" := 1] == map["a" := 1];
  }

  /**
   Two calls on one new session can each lease for it. When both have ended the pool counts two
   slots and has one connection: the other is lost to it for good.
   */
  lemma LeasesCanCollide(cfg: Config) returns (evs: seq<Event>)
    requires cfg.maxSize > 1
    ensures var sys := Reach(cfg, evs);
            && (forall i :: 0 <= i < |sys.tasks| ==> sys.tasks[i] == Done(Edited(true)))
            && sys.pool.total == 2 && Registered(sys.pool) == 1 && sys.orphans == {0}
  {
    hide Reach;
    evs := RaceCollides(cfg);
    ReachStep(cfg, evs, FIRST);
    evs := evs + [FIRST];
    assert Reach(cfg, evs) == Race(cfg, Edits([], map["a" := 1], 2), Done(Edited(true)), Using("a", Edit, 1),
                                   [FRESH, FRESH], [Orphaned, AtLease("a")], {0});
    ReachStep(cfg, evs, SECOND);
    evs := evs + [SECOND];
  }

  // ----- Shutdown -----

  lemma SerialBegin(cfg: Config, evs: seq<Event>, call: Call)
    requires SerialRun(cfg, evs) && forall i :: 0 <= i < |Reach(cfg, evs).tasks| ==> Reach(cfg, evs).tasks[i].Done?
    ensures SerialRun(cfg, evs + [Begin(call)])
    ensures Reach(cfg, evs + [Begin(call)]) == Apply(Reach(cfg, evs), Begin(call))
  {
    assert (evs + [Begin(call)])[..|evs|] == evs;
  }

  lemma SerialStep(cfg: Config, evs: seq<Event>, i: nat, choice: Choice)
    requires SerialRun(cfg, evs)
    ensures SerialRun(cfg, evs + [Step(i, choice)])
    ensures Reach(cfg, evs + [Step(i, choice)]) == Apply(Reach(cfg, evs), Step(i, choice))
  {
    assert (evs + [Step(i, choice)])[..|evs|] == evs;
  }

  /** One connection, whoever has it. */
  function Solo(cfg: Config, p: Pool, tasks: seq<Task>, home: Home, down: bool): System {
    System(cfg, p, tasks, [FRESH], [home], {}, map[], 0, 0, down)
  }

  const EDITED: Task := Done(Edited(true))

  lemma SessionBegins(cfg: Config) returns (evs: seq<Event>)
    ensures SerialRun(cfg, evs)
    ensures Reach(cfg, evs) == Solo(cfg, Init(cfg).pool, [TakeIdle("a", Edit)], AtIdle, false)
  {
    hide Reach, SerialRun;
    ReachStart(cfg);
    var call := OnSession("a", Edit);
    SerialBegin(cfg, [], call);
    evs := [] + [Begin(call)];
    assert Reach(cfg, evs) == Solo(cfg, Init(cfg).pool, [Lookup("a", Edit)], AtIdle, false);
    SerialStep(cfg, evs, 0, SMOOTH);
    evs := evs + [FIRST];
  }

  lemma SessionRuns(cfg: Config) returns (evs: seq<Event>)
    ensures SerialRun(cfg, evs)
    ensures Reach(cfg, evs) == Solo(cfg, Edits([], map["a" := 0], 1), [EDITED], AtLease("a"), false)
  {
    hide Reach, SerialRun;
    evs := SessionBegins(cfg);
    SerialStep(cfg, evs, 0, SMOOTH);
    evs := evs + [FIRST];
    assert Reach(cfg, evs) == Solo(cfg, Edits([], map[], 1), [Assigning("a", Edit, 0)], AtTask(0), false);
    SerialStep(cfg, evs, 0, SMOOTH);
    evs := evs + [FIRST];
    assert Reach(cfg, evs) == Solo(cfg, Edits([], map["a" := 0], 1), [Using("a", Edit, 0)], AtLease("a"), false);
    SerialStep(cfg, evs, 0, SMOOTH);
    evs := evs + [FIRST];
  }

  /** A release has taken its connection, and shutdown empties the tables. */
  lemma ReleaseMeetsShutdown(cfg: Config) returns (evs: seq<Event>)
    ensures Reach(cfg, evs) == Solo(cfg, Edits([], map[], 0), [EDITED, Cleaning("a", 0), DrainingSecondary], AtTask(1), true)
  {
    hide Reach;
    evs := SessionRuns(cfg);
    ReachStep(cfg, evs, Begin(Release("a")));
    evs := evs + [Begin(Release("a"))];
    assert Reach(cfg, evs) == Solo(cfg, Edits([], map["a" := 0], 1), [EDITED, Taking("a")], AtLease("a"), false);
    ReachStep(cfg, evs, SECOND);
    evs := evs + [SECOND];
    assert Reach(cfg, evs) == Solo(cfg, Edits([], map[], 1), [EDITED, Cleaning("a", 0)], AtTask(1), false);
    ReachStep(cfg, evs, Begin(Shutdown));
    evs := evs + [Begin(Shutdown)];
    assert Reach(cfg, evs) == Solo(cfg, Edits([], map[], 1), [EDITED, Cleaning("a", 0), Draining], AtTask(1), false);
    ReachStep(cfg, evs, THIRD);
    evs := evs + [THIRD];
  }

  lemma ShutdownEnds(cfg: Config) returns (evs: seq<Event>)
    ensures Reach(cfg, evs) == Solo(cfg, Edits([], map[], 0), [EDITED, Returning("a", 0), Done(Finished)], AtTask(1), true)
  {
    hide Reach;
    evs := ReleaseMeetsShutdown(cfg);
    ReachStep(cfg, evs, THIRD);
    evs := evs + [THIRD];
    assert Reach(cfg, evs) == Solo(cfg, Edits([], map[], 0), [EDITED, Cleaning("a", 0), Done(Finished)], AtTask(1), true);
    ReachStep(cfg, evs, SECOND);
    evs := evs + [SECOND];
  }

  /** A connection on its way back when shutdown zeroes the counter is put in the idle list uncounted. */
  lemma ShutdownUndercounts(cfg: Config) returns (evs: seq<Event>)
    ensures var sys := Reach(cfg, evs);
            && (forall i :: 0 <= i < |sys.tasks| ==> sys.tasks[i].Done?)
            && sys.pool.total == 0 && Registered(sys.pool) == 1
  {
    hide Reach;
    evs := ShutdownEnds(cfg);
    ReachStep(cfg, evs, SECOND);
    evs := evs + [SECOND];
  }

  /** The one connection of a pool shut down, and what a call to browse another database makes of it. */
  function Sided(cfg: Config, p: Pool, browsing: Task, conns: seq<Conn>, home: seq<Home>): System {
    System(cfg, p, [DrainingSecondary, browsing], conns, home, {}, map[], 0, 0, true)
  }

  lemma BrowseMeetsShutdown(cfg: Config, db: Database) returns (evs: seq<Event>)
    requires db != cfg.database
    ensures Reach(cfg, evs) == Sided(cfg, Edits([], map[], 0), Finding(db), [FRESH], [Closed])
  {
    hide Reach;
    ReachStart(cfg);
    ReachStep(cfg, [], Begin(Shutdown));
    evs := [] + [Begin(Shutdown)];
    assert Reach(cfg, evs) == Solo(cfg, Init(cfg).pool, [Draining], AtIdle, false);
    ReachStep(cfg, evs, FIRST);
    evs := evs + [FIRST];
    assert Reach(cfg, evs) == Solo(cfg, Edits([], map[], 0), [DrainingSecondary], Closed, true);
    ReachStep(cfg, evs, Begin(Browse(db)));
    evs := evs + [Begin(Browse(db))];
  }

  lemma BrowseDials(cfg: Config, db: Database) returns (evs: seq<Event>)
    requires db != cfg.database && cfg.maxSize > 0
    ensures Reach(cfg, evs) == Sided(cfg, Edits([], map[], 1), Inserting(db, 1), [FRESH, FRESH], [Closed, AtTask(1)])
  {
    hide Reach;
    evs := BrowseMeetsShutdown(cfg, db);
    ReachStep(cfg, evs, SECOND);
    evs := evs + [SECOND];
    assert Reach(cfg, evs) == Sided(cfg, Edits([], map[], 0), ReservingFor(db), [FRESH], [Closed]);
    ReachStep(cfg, evs, SECOND);
    evs := evs + [SECOND];
    assert Reach(cfg, evs) == Sided(cfg, Edits([], map[], 1), OpeningFor(db), [FRESH], [Closed]);
    ReachStep(cfg, evs, SECOND);
    evs := evs + [SECOND];
  }

  lemma BrowseEnds(cfg: Config, db: Database) returns (evs: seq<Event>)
    requires db != cfg.database && cfg.maxSize > 0
    ensures Reach(cfg, evs) ==
            Sided(cfg, Pool([], map[], 1, map[db := Entry(0, 1)]), Done(Finished), [FRESH, FRESH], [Closed, AtBrowser(db)])
  {
    hide Reach;
    evs := BrowseDials(cfg, db);
    ReachStep(cfg, evs, SECOND);
    evs := evs + [SECOND];
    assert Reach(cfg, evs) ==
           Sided(cfg, Pool([], map[], 1, map[db := Entry(0, 1)]), Browsing(1), [FRESH, FRESH], [Closed, AtBrowser(db)]);
    ReachStep(cfg, evs, SECOND);
    evs := evs + [SECOND];
  }

  /** A side connection inserted between the windows of shutdown leaves the table uncounted: its slot stays. */
  lemma ShutdownOvercounts(cfg: Config, db: Database) returns (evs: seq<Event>)
    requires db != cfg.database && cfg.maxSize > 0
    ensures var sys := Reach(cfg, evs);
            && (forall i :: 0 <= i < |sys.tasks| ==> sys.tasks[i].Done?)
            && sys.pool.total == 1 && Registered(sys.pool) == 0 && sys.orphans == {}
  {
    hide Reach;
    evs := BrowseEnds(cfg, db);
    ReachStep(cfg, evs, FIRST);
    evs := evs + [FIRST];
  }

  // ----- Which entries eviction keeps -----

  /** Two aged connections and a floor of one: the one that stays is the one released first. */
  lemma EvictionPinsTheOldest(cfg: Config, p: Pool, first: ConnId, second: ConnId)
    requires cfg.minIdle == 1 && cfg.idleTimeout == 1 && p.idle == [Entry(0, first), Entry(5, second)] && p.total == 2
    ensures EvictIdle(p, 10, cfg) == (p.(idle := [Entry(0, first)], total := 1), [second])
  {
    assert Sorted(p.idle);
    var a := EvictionPolicy(p, 10, cfg);
    assert Aged(p.idle[0], 10, 1) && Aged(p.idle[1], 10, 1);
    assert a == 2;
    assert p.idle[..1] + p.idle[2..] == [Entry(0, first)];
    assert p.idle[1..2] == [Entry(5, second)];
    assert Conns([Entry(5, second)]) == [second];
  }

  // ----- What else idle connections can be -----

  /** Two rows asked for one at a time leave a cursor; one row asked for two at a time, and a cancel request, strand. */
  const PAGING: Env := Env(Closes, true, None, Some(1), None, Declares, [[Some("1")], [Some("2")]], true, Closes)
  const STRANDING: Env := Env(Closes, true, None, Some(1), None, Declares, [[Some("1")]], true, CloseInterrupted)

  lemma PagingOpens()
    ensures AfterExecute(FRESH, "A", 1, 0, PAGING).0.active.Some?
  {
    PlainByte("A", 0);
    assert L.Semicolons("A") == [];
    assert L.AsciiBodies("A");
    OpenSingleEnds(FRESH.session, "A", 1, 0, PAGING);
  }

  function Served(cfg: Config, p: Pool, tasks: seq<Task>, home: Home, conn: Conn, next: CursorId): System {
    System(cfg, p, tasks, [conn], [home], {}, map[], next, 0, false)
  }

  const PAGE_OP: Op := Execute("A", 1)

  lemma LeaseFound(cfg: Config, op: Op) returns (evs: seq<Event>)
    requires op.Execute?
    ensures SerialRun(cfg, evs)
    ensures Reach(cfg, evs) == Solo(cfg, Edits([], map["a" := 0], 1), [EDITED, Using("a", op, 0)], AtLease("a"), false)
  {
    hide Reach, SerialRun;
    evs := SessionRuns(cfg);
    SerialBegin(cfg, evs, OnSession("a", op));
    evs := evs + [Begin(OnSession("a", op))];
    assert Reach(cfg, evs) == Solo(cfg, Edits([], map["a" := 0], 1), [EDITED, Lookup("a", op)], AtLease("a"), false);
    SerialStep(cfg, evs, 1, SMOOTH);
    evs := evs + [SECOND];
  }

  /** An execute call has found its lease when another call of the session takes it. */
  lemma ReleaseOvertakes(cfg: Config, op: Op) returns (evs: seq<Event>)
    requires op.Execute?
    ensures Reach(cfg, evs) == Solo(cfg, Edits([Entry(0, 0)], map[], 1), [EDITED, Using("a", op, 0), Done(Finished)], AtIdle, false)
  {
    hide Reach, Use;
    evs := LeaseFound(cfg, op);
    ReachStep(cfg, evs, Begin(Release("a")));
    evs := evs + [Begin(Release("a"))];
    assert Reach(cfg, evs) == Solo(cfg, Edits([], map["a" := 0], 1), [EDITED, Using("a", op, 0), Taking("a")], AtLease("a"), false);
    ReachStep(cfg, evs, THIRD);
    evs := evs + [THIRD];
    assert Reach(cfg, evs) == Solo(cfg, Edits([], map[], 1), [EDITED, Using("a", op, 0), Cleaning("a", 0)], AtTask(2), false);
    ReachStep(cfg, evs, THIRD);
    evs := evs + [THIRD];
    assert Reach(cfg, evs) == Solo(cfg, Edits([], map[], 1), [EDITED, Using("a", op, 0), Returning("a", 0)], AtTask(2), false);
    ReachStep(cfg, evs, THIRD);
    evs := evs + [THIRD];
  }

  /** Calls of one session side by side can put a connection with an open cursor in the idle list. */
  lemma IdleWithCursor(cfg: Config) returns (evs: seq<Event>)
    ensures var sys := Reach(cfg, evs);
            sys.pool.idle == [Entry(0, 0)] && |sys.conns| == 1 && sys.conns[0].active.Some?
  {
    hide Reach;
    evs := ReleaseOvertakes(cfg, PAGE_OP);
    var last := Step(1, Choice(true, true, Closes, PAGING));
    ReachStep(cfg, evs, last);
    evs := evs + [last];
    PagingOpens();
  }

  lemma StrandingStrands() returns (conn: Conn, reply: Reply)
    ensures (conn, reply) == AfterExecute(FRESH, "A", 2, 0, STRANDING)
    ensures Stranded(conn) && reply.Returned? && reply.value.Ok? && reply.value.value.0.cursorId == None
  {
    PlainByte("A", 0);
    assert L.Semicolons("A") == [];
    assert L.AsciiBodies("A");
    OpenSingleEnds(FRESH.session, "A", 2, 0, STRANDING);
    conn, reply := AfterExecute(FRESH, "A", 2, 0, STRANDING).0, AfterExecute(FRESH, "A", 2, 0, STRANDING).1;
  }

  lemma StrandingWindow(cfg: Config, p: Pool) returns (conn: Conn, done: Task)
    ensures Stranded(conn) && done.Done?
    ensures Apply(Solo(cfg, p, [EDITED, Using("a", Execute("A", 2), 0)], AtLease("a"), false),
                  Step(1, Choice(true, true, Closes, STRANDING))) ==
            Served(cfg, p, [EDITED, done], AtLease("a"), conn, 1)
  {
    var reply;
    conn, reply := StrandingStrands();
    done := Done(Executed(reply));
  }

  lemma StrandedLease(cfg: Config) returns (evs: seq<Event>, conn: Conn, done: Task)
    ensures SerialRun(cfg, evs) && Stranded(conn) && done.Done?
    ensures Reach(cfg, evs) == Served(cfg, Edits([], map["a" := 0], 1), [EDITED, done], AtLease("a"), conn, 1)
  {
    hide Reach, SerialRun;
    evs := LeaseFound(cfg, Execute("A", 2));
    conn, done := StrandingWindow(cfg, Edits([], map["a" := 0], 1));
    var stranding := Choice(true, true, Closes, STRANDING);
    SerialStep(cfg, evs, 1, stranding);
    evs := evs + [Step(1, stranding)];
  }

  /** The session is released: the connection is taken, and there is no cursor to close. */
  lemma StrandedTaken(cfg: Config) returns (evs: seq<Event>, conn: Conn, done: Task)
    ensures SerialRun(cfg, evs) && Stranded(conn) && done.Done?
    ensures Reach(cfg, evs) == Served(cfg, Edits([], map[], 1), [EDITED, done, Cleaning("a", 0)], AtTask(2), conn, 1)
  {
    hide Reach, SerialRun;
    evs, conn, done := StrandedLease(cfg);
    SerialBegin(cfg, evs, Release("a"));
    evs := evs + [Begin(Release("a"))];
    assert Reach(cfg, evs) == Served(cfg, Edits([], map["a" := 0], 1), [EDITED, done, Taking("a")], AtLease("a"), conn, 1);
    SerialStep(cfg, evs, 2, SMOOTH);
    evs := evs + [THIRD];
  }

  /** Serial or not, a connection stranded by an interrupted CLOSE goes back to idle stranded. */
  lemma IdleStranded(cfg: Config) returns (evs: seq<Event>)
    ensures SerialRun(cfg, evs)
    ensures var sys := Reach(cfg, evs);
            sys.pool.idle == [Entry(0, 0)] && |sys.conns| == 1 && Stranded(sys.conns[0])
  {
    hide Reach, SerialRun;
    var conn, done;
    evs, conn, done := StrandedTaken(cfg);
    SerialStep(cfg, evs, 2, SMOOTH);
    evs := evs + [THIRD];
    assert Reach(cfg, evs) == Served(cfg, Edits([], map[], 1), [EDITED, done, Returning("a", 0)], AtTask(2), conn, 1);
    SerialStep(cfg, evs, 2, SMOOTH);
    evs := evs + [THIRD];
  }
}
