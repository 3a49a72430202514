/**
 The pool under concurrency: every call is a task that stops between its windows, and a
 run takes the windows of all tasks in any order.

 `home` says where each connection is, `orphans` are the connections whose lease another
 task overwrote, and `books` records what each cursor handed out so far; the code keeps
 none of the three.
 */
module PoolRuns {
  import opened Wrappers
  import opened Text
  import opened PoolState
  import P = PgPool
  import opened PgServer
  import opened PgExec
  import opened PgCursor

  // ----- Tasks -----

  /** What a caller wants of the connection it leases. */
  datatype Op =
    | Execute(sql: Bytes, pageSize: nat)
    | FetchPage(id: CursorId, count: nat)
    | CloseQuery(id: CursorId)
    | Edit

  datatype Outcome =
    | Exhausted
    | ConnectFailed
    | NoSession
    | Executed(reply: Reply)
    | Fetched(page: Result<PageResult, PgError>)
    | Edited(ok: bool)
    | Finished

  /** A call, named by the window it will run next. */
  datatype Task =
    | Lookup(s: SessionId, op: Op)
    | TakeIdle(s: SessionId, op: Op)
    | CheckRoom(s: SessionId, op: Op)
    | Reserving(s: SessionId, op: Op)
    | Opening(s: SessionId, op: Op)
    | Assigning(s: SessionId, op: Op, c: ConnId)
    | LookupOnly(s: SessionId, op: Op)
    | Using(s: SessionId, op: Op, c: ConnId)
    | RollingBack
    | Taking(s: SessionId)
    | Cleaning(s: SessionId, c: ConnId)
    | Returning(s: SessionId, c: ConnId)
    | Finding(db: Database)
    | ReservingFor(db: Database)
    | OpeningFor(db: Database)
    | Inserting(db: Database, c: ConnId)
    | GivingBack(c: ConnId, existing: ConnId)
    | Browsing(b: ConnId)
    | Evicting(now: nat)
    | EvictingSecondary(now: nat)
    | Settling(n: nat)
    | Draining
    | DrainingSecondary
    | Done(outcome: Outcome)

  /** The connection only this task has: taken out of one place, not yet in another. */
  function Carried(t: Task): Option<ConnId> {
    match t
    case Assigning(_, _, c) => Some(c)
    case Cleaning(_, c) => Some(c)
    case Returning(_, c) => Some(c)
    case Inserting(_, c) => Some(c)
    case GivingBack(c, _) => Some(c)
    case _ => None
  }

  /** The registered connection this task holds a reference to. */
  function Borrowed(t: Task): Option<ConnId> {
    match t
    case Using(_, _, c) => Some(c)
    case GivingBack(_, existing) => Some(existing)
    case Browsing(b) => Some(b)
    case _ => None
  }

  /** Pool slots this task accounts for. */
  function Slots(t: Task): nat {
    match t
    case Opening(_, _) => 1
    case OpeningFor(_) => 1
    case RollingBack => 1
    case Settling(n) => n
    case _ => if Carried(t).Some? then 1 else 0
  }

  function InFlight(ts: seq<Task>): nat {
    if ts == [] then 0 else InFlight(ts[..|ts| - 1]) + Slots(ts[|ts| - 1])
  }

  /** Side connections with a reference outside the table. */
  function Held(ts: seq<Task>): set<ConnId> {
    set i | 0 <= i < |ts| && (ts[i].Browsing? || ts[i].GivingBack?) :: Borrowed(ts[i]).value
  }

  // ----- The system -----

  datatype Home =
    | AtIdle
    | AtLease(s: SessionId)
    | AtBrowser(db: Database)
    | AtTask(i: nat)
    | Orphaned
    | Closed

  /** What is known about a cursor: the execute call that made it, its result, and the rows handed out. */
  datatype Book = Book(task: nat, conn: ConnId, rows: seq<Row>, delivered: seq<Row>)

  datatype System = System(
    cfg: Config,
    pool: Pool,
    tasks: seq<Task>,
    conns: seq<Conn>,
    home: seq<Home>,
    orphans: set<ConnId>,
    books: map<CursorId, Book>,
    nextCursor: CursorId,
    clock: nat,
    down: bool)

  /** A pool just connected: one idle connection. */
  function Init(cfg: Config): System {
    System(cfg, Pool([Entry(0, 0)], map[], 1, map[]), [], [FRESH], [AtIdle], {}, map[], 0, 0, false)
  }

  datatype Call =
    | OnSession(s: SessionId, op: Op)
    | Release(s: SessionId)
    | Browse(db: Database)
    | Evict
    | Shutdown

  /** The choices of the network and the server in one window. */
  datatype Choice = Choice(dials: bool, succeeds: bool, close: CloseChoice, env: Env)

  datatype Event = Begin(call: Call) | Step(i: nat, choice: Choice) | Tick(time: nat)

  function Entered(sys: System, call: Call): Task {
    match call
    case OnSession(s, op) => if op.FetchPage? || op.CloseQuery? then LookupOnly(s, op) else Lookup(s, op)
    case Release(s) => Taking(s)
    case Browse(db) => if db == sys.cfg.database then Lookup(P.BROWSER_SESSION_ID, Edit) else Finding(db)
    case Evict => Evicting(sys.clock)
    case Shutdown => Draining
  }

  // ----- Windows -----

  function Moved(home: seq<Home>, c: ConnId, h: Home): (r: seq<Home>)
    ensures |r| == |home|
    ensures forall d :: 0 <= d < |home| ==> r[d] == if d == c then h else home[d]
  {
    if c < |home| then home[c := h] else home
  }

  /** `home` with the connections in `gone` closed. */
  function Shut(home: seq<Home>, gone: set<ConnId>): (r: seq<Home>)
    ensures |r| == |home|
    ensures forall d :: 0 <= d < |home| ==> r[d] == if d in gone then Closed else home[d]
  {
    seq(|home|, d requires 0 <= d < |home| => if d in gone then Closed else home[d])
  }

  function Next(sys: System, i: nat, t: Task): System {
    sys.(tasks := if i < |sys.tasks| then sys.tasks[i := t] else sys.tasks)
  }

  function ConnOf(sys: System, c: ConnId): Conn {
    if c < |sys.conns| then sys.conns[c] else FRESH
  }

  function SetConn(sys: System, c: ConnId, conn: Conn): System {
    sys.(conns := if c < |sys.conns| then sys.conns[c := conn] else sys.conns)
  }

  function TakeIdleWindow(sys: System, i: nat, s: SessionId, op: Op): System {
    var (pool, c) := PopIdle(sys.pool);
    match c
    case None => Next(sys, i, CheckRoom(s, op))
    case Some(c) => Next(sys.(pool := pool, home := Moved(sys.home, c, AtTask(i))), i, Assigning(s, op, c))
  }

  function ReserveWindow(sys: System, i: nat, t: Task): System {
    match Reserve(sys.pool, sys.cfg)
    case None => Next(sys, i, Done(Exhausted))
    case Some(pool) => Next(sys.(pool := pool), i, t)
  }

  /** A connection that opens is numbered, and carried by the call. */
  function DialWindow(sys: System, i: nat, t: Task, dials: bool): System {
    if dials then Next(sys.(conns := sys.conns + [FRESH], home := sys.home + [AtTask(i)]), i, t)
    else Next(sys, i, RollingBack)
  }

  /** A lease about to be overwritten is lost: its connection stays counted and no table has it. */
  function Displaced(sys: System, s: SessionId): System {
    if s in sys.pool.leased then
      var c := sys.pool.leased[s];
      sys.(pool := sys.pool.(leased := sys.pool.leased - {s}),
           home := Moved(sys.home, c, Orphaned),
           orphans := sys.orphans + {c})
    else sys
  }

  /** Another task may have leased for the same new session meanwhile; its lease is overwritten. */
  function AssignWindow(sys: System, i: nat, s: SessionId, op: Op, c: ConnId): System {
    var sys' := Displaced(sys, s);
    Next(sys'.(pool := Assign(sys'.pool, s, c), home := Moved(sys'.home, c, AtLease(s))), i, Using(s, op, c))
  }

  function TakeLeaseWindow(sys: System, i: nat, s: SessionId): System {
    var (pool, c) := TakeLease(sys.pool, s);
    match c
    case None => Next(sys, i, Done(Finished))
    case Some(c) => Next(sys.(pool := pool, home := Moved(sys.home, c, AtTask(i))), i, Cleaning(s, c))
  }

  function ReturnWindow(sys: System, i: nat, c: ConnId): System {
    Next(sys.(pool := PushIdle(sys.pool, c, sys.clock), home := Moved(sys.home, c, AtIdle)), i, Done(Finished))
  }

  function FindWindow(sys: System, i: nat, db: Database): System {
    var (pool, c) := TouchSecondary(sys.pool, db, sys.clock);
    match c
    case None => Next(sys, i, ReservingFor(db))
    case Some(c) => Next(sys.(pool := pool), i, Browsing(c))
  }

  function InsertWindow(sys: System, i: nat, db: Database, c: ConnId): System {
    var (pool, existing) := InsertSecondary(sys.pool, db, c, sys.clock);
    match existing
    case None => Next(sys.(pool := pool, home := Moved(sys.home, c, AtBrowser(db))), i, Browsing(c))
    case Some(e) => Next(sys.(pool := pool), i, GivingBack(c, e))
  }

  function GiveBackWindow(sys: System, i: nat, c: ConnId, existing: ConnId): System {
    Next(sys.(pool := Unreserve(sys.pool), home := Moved(sys.home, c, Closed)), i, Browsing(existing))
  }

  function EvictWindow(sys: System, i: nat, now: nat): System {
    var (pool, dropped) := EvictIdle(sys.pool, now, sys.cfg);
    Next(sys.(pool := pool, home := Shut(sys.home, set c | c in dropped)), i, EvictingSecondary(now))
  }

  function UnusedConns(sys: System, now: nat): set<ConnId> {
    var keys := Unused(sys.pool, now, sys.cfg, Held(sys.tasks));
    set db | db in keys && db in sys.pool.secondary :: sys.pool.secondary[db].conn
  }

  function EvictSecondaryWindow(sys: System, i: nat, now: nat): System {
    var keys := Unused(sys.pool, now, sys.cfg, Held(sys.tasks));
    var pool := EvictSecondary(sys.pool, now, sys.cfg, Held(sys.tasks));
    Next(sys.(pool := pool, home := Shut(sys.home, UnusedConns(sys, now))), i,
         if |keys| == 0 then Done(Finished) else Settling(|keys|))
  }

  function Drained(home: seq<Home>): set<ConnId> {
    set c: ConnId | 0 <= c < |home| && (home[c].AtIdle? || home[c].AtLease?)
  }

  function DrainWindow(sys: System, i: nat): System {
    Next(sys.(pool := DrainLeases(sys.pool), home := Shut(sys.home, Drained(sys.home)), down := true), i, DrainingSecondary)
  }

  function Sides(home: seq<Home>): set<ConnId> {
    set c: ConnId | 0 <= c < |home| && home[c].AtBrowser?
  }

  function DrainSecondaryWindow(sys: System, i: nat): System {
    Next(sys.(pool := DrainSecondary(sys.pool), home := Shut(sys.home, Sides(sys.home)), down := true), i, Done(Finished))
  }

  /** What one operation does to the connection under its operation lock, and what the caller gets. */
  function Use(conn: Conn, op: Op, id: CursorId, choice: Choice): (r: (Conn, Outcome)) {
    match op
    case Execute(sql, pageSize) =>
      var (conn', reply) := AfterExecute(conn, sql, pageSize, id, choice.env);
      (conn', Executed(reply))
    case FetchPage(cursor, count) =>
      var (conn', page) := AfterFetch(conn, cursor, count, choice.succeeds);
      (conn', Fetched(page))
    case CloseQuery(cursor) => (AfterCloseQuery(conn, cursor, choice.close), Finished)
    case Edit =>
      var (conn', ok) := AfterStatement(conn, choice.succeeds);
      (conn', Edited(ok))
  }

  /** A cursor's book is opened with its first page and grows with every page fetched. */
  function Booked(books: map<CursorId, Book>, i: nat, c: ConnId, op: Op, outcome: Outcome, rows: seq<Row>): map<CursorId, Book> {
    if outcome.Executed? && op.Execute? && outcome.reply.Returned? && outcome.reply.value.Ok? then
      var first := outcome.reply.value.value.0;
      if first.cursorId.None? then books
      else books[first.cursorId.value := Book(i, c, rows, first.rows)]
    else if outcome.Fetched? && op.FetchPage? && outcome.page.Ok? && op.id in books then
      books[op.id := books[op.id].(delivered := books[op.id].delivered + outcome.page.value.rows)]
    else books
  }

  /** An introspection query on a side connection. */
  function BrowseWindow(sys: System, i: nat, c: ConnId, choice: Choice): System {
    Next(SetConn(sys, c, AfterStatement(ConnOf(sys, c), choice.succeeds).0), i, Done(Finished))
  }

  function RollBackWindow(sys: System, i: nat): System {
    Next(sys.(pool := Unreserve(sys.pool)), i, Done(ConnectFailed))
  }

  /** The window under a connection's operation lock. */
  function UseWindow(sys: System, i: nat, op: Op, c: ConnId, choice: Choice): System
    requires i < |sys.tasks| && sys.tasks[i].Using?
  {
    var (conn, outcome) := Use(ConnOf(sys, c), op, sys.nextCursor, choice);
    Next(SetConn(sys, c, conn), i, Done(outcome))
      .(books := Booked(sys.books, i, c, op, outcome, choice.env.rows),
        nextCursor := if op.Execute? then sys.nextCursor + 1 else sys.nextCursor)
  }

  /** Tasks that look for a lease, up to having it. */
  predicate Leasing(t: Task) {
    t.Lookup? || t.TakeIdle? || t.CheckRoom? || t.Reserving? || t.Opening? || t.Assigning? || t.LookupOnly?
  }

  function LeasingWindow(sys: System, i: nat, t: Task, choice: Choice): System
    requires Leasing(t)
  {
    match t
    case Lookup(s, op) => Next(sys, i, if s in sys.pool.leased then Using(s, op, sys.pool.leased[s]) else TakeIdle(s, op))
    case TakeIdle(s, op) => TakeIdleWindow(sys, i, s, op)
    case CheckRoom(s, op) => Next(sys, i, if Full(sys.pool, sys.cfg) then Done(Exhausted) else Reserving(s, op))
    case Reserving(s, op) => ReserveWindow(sys, i, Opening(s, op))
    case Opening(s, op) => DialWindow(sys, i, Assigning(s, op, |sys.conns|), choice.dials)
    case Assigning(s, op, c) => AssignWindow(sys, i, s, op, c)
    case LookupOnly(s, op) => Next(sys, i, if s in sys.pool.leased then Using(s, op, sys.pool.leased[s]) else Done(NoSession))
  }

  /** Tasks that browse another database, up to having its side connection. */
  predicate Siding(t: Task) {
    t.Finding? || t.ReservingFor? || t.OpeningFor? || t.Inserting? || t.GivingBack?
  }

  function SidingWindow(sys: System, i: nat, t: Task, choice: Choice): System
    requires Siding(t)
  {
    match t
    case Finding(db) => FindWindow(sys, i, db)
    case ReservingFor(db) => ReserveWindow(sys, i, OpeningFor(db))
    case OpeningFor(db) => DialWindow(sys, i, Inserting(db, |sys.conns|), choice.dials)
    case Inserting(db, c) => InsertWindow(sys, i, db, c)
    case GivingBack(c, existing) => GiveBackWindow(sys, i, c, existing)
  }

  /** Tasks that give a lease back. */
  predicate Releasing(t: Task) {
    t.Taking? || t.Cleaning? || t.Returning?
  }

  function ReleasingWindow(sys: System, i: nat, t: Task, choice: Choice): System
    requires Releasing(t)
  {
    match t
    case Taking(s) => TakeLeaseWindow(sys, i, s)
    case Cleaning(s, c) => Next(SetConn(sys, c, AfterCloseActive(ConnOf(sys, c), choice.close)), i, Returning(s, c))
    case Returning(s, c) => ReturnWindow(sys, i, c)
  }

  /** Tasks that evict or shut down. */
  predicate Sweeping(t: Task) {
    t.Evicting? || t.EvictingSecondary? || t.Settling? || t.Draining? || t.DrainingSecondary?
  }

  function SweepingWindow(sys: System, i: nat, t: Task): System
    requires Sweeping(t)
  {
    match t
    case Evicting(now) => EvictWindow(sys, i, now)
    case EvictingSecondary(now) => EvictSecondaryWindow(sys, i, now)
    case Settling(n) => Next(sys.(pool := Settle(sys.pool, n)), i, Done(Finished))
    case Draining => DrainWindow(sys, i)
    case DrainingSecondary => DrainSecondaryWindow(sys, i)
  }

  function Window(sys: System, i: nat, choice: Choice): System
    requires i < |sys.tasks|
  {
    var t := sys.tasks[i];
    if Leasing(t) then LeasingWindow(sys, i, t, choice)
    else if Siding(t) then SidingWindow(sys, i, t, choice)
    else if Releasing(t) then ReleasingWindow(sys, i, t, choice)
    else if Sweeping(t) then SweepingWindow(sys, i, t)
    else
      match t
      case Using(_, op, c) => UseWindow(sys, i, op, c, choice)
      case Browsing(c) => BrowseWindow(sys, i, c, choice)
      case RollingBack => RollBackWindow(sys, i)
      case _ => sys
  }

  function Apply(sys: System, ev: Event): System {
    match ev
    case Begin(call) => sys.(tasks := sys.tasks + [Entered(sys, call)])
    case Step(i, choice) => if i < |sys.tasks| then Window(sys, i, choice) else sys
    case Tick(time) => sys.(clock := sys.clock + time)
  }

  /** The state a run reaches: any calls, their windows in any order, any choices of network and server. */
  function Reach(cfg: Config, evs: seq<Event>): System {
    if evs == [] then Init(cfg) else Apply(Reach(cfg, evs[..|evs| - 1]), evs[|evs| - 1])
  }

  // ----- Where connections are -----

  predicate At(home: seq<Home>, c: ConnId, h: Home) {
    c < |home| && home[c] == h
  }

  predicate IdlePlaced(idle: seq<Entry>, home: seq<Home>) {
    && (forall k :: 0 <= k < |idle| ==> At(home, idle[k].conn, AtIdle))
    && (forall k, m :: 0 <= k < m < |idle| ==> idle[k].conn != idle[m].conn)
  }

  predicate LeasesPlaced(leased: map<SessionId, ConnId>, home: seq<Home>) {
    forall s :: s in leased ==> At(home, leased[s], AtLease(s))
  }

  predicate SecondaryPlaced(secondary: map<Database, Entry>, home: seq<Home>) {
    forall db :: db in secondary ==> At(home, secondary[db].conn, AtBrowser(db))
  }

  predicate TasksPlaced(tasks: seq<Task>, home: seq<Home>) {
    forall i :: 0 <= i < |tasks| ==>
      && (Carried(tasks[i]).Some? ==> At(home, Carried(tasks[i]).value, AtTask(i)))
      && (Borrowed(tasks[i]).Some? ==> Borrowed(tasks[i]).value < |home|)
  }

  predicate OrphansPlaced(orphans: set<ConnId>, home: seq<Home>) {
    forall c :: c in orphans ==> At(home, c, Orphaned)
  }

  /** Each connection is in one place, and the registries and tasks say which. */
  predicate Placed(sys: System) {
    && |sys.home| == |sys.conns|
    && IdlePlaced(sys.pool.idle, sys.home)
    && LeasesPlaced(sys.pool.leased, sys.home)
    && SecondaryPlaced(sys.pool.secondary, sys.home)
    && TasksPlaced(sys.tasks, sys.home)
    && OrphansPlaced(sys.orphans, sys.home)
  }

  /** Moving a connection leaves alone every registry it was not in. */
  lemma MoveKeeps(sys: System, c: ConnId, h: Home)
    requires Placed(sys) && c < |sys.home|
    ensures var home := Moved(sys.home, c, h);
            && (!sys.home[c].AtIdle? ==> IdlePlaced(sys.pool.idle, home))
            && (!sys.home[c].AtLease? ==> LeasesPlaced(sys.pool.leased, home))
            && (!sys.home[c].AtBrowser? ==> SecondaryPlaced(sys.pool.secondary, home))
            && (!sys.home[c].AtTask? ==> TasksPlaced(sys.tasks, home))
            && (!sys.home[c].Orphaned? ==> OrphansPlaced(sys.orphans, home))
  {
  }

  /** A task that lets go of what it carried may see it moved; the others carry something else. */
  lemma MoveFromTask(sys: System, i: nat, t: Task, c: ConnId, h: Home)
    requires Placed(sys) && i < |sys.tasks| && At(sys.home, c, AtTask(i))
    requires Carried(t).None? && (Borrowed(t).Some? ==> Borrowed(t).value < |sys.home|)
    ensures TasksPlaced(sys.tasks[i := t], Moved(sys.home, c, h))
  {
  }

  /** A task may pick up what was in no task's hands. */
  lemma MoveToTask(sys: System, i: nat, t: Task, c: ConnId)
    requires Placed(sys) && i < |sys.tasks| && c < |sys.home| && !sys.home[c].AtTask?
    requires Carried(t) == Some(c) && Borrowed(t).None?
    ensures TasksPlaced(sys.tasks[i := t], Moved(sys.home, c, AtTask(i)))
  {
  }

  lemma NextPlaced(sys: System, i: nat, t: Task)
    requires Placed(sys) && i < |sys.tasks|
    requires Carried(t).Some? ==> At(sys.home, Carried(t).value, AtTask(i))
    requires Borrowed(t).Some? ==> Borrowed(t).value < |sys.home|
    ensures Placed(Next(sys, i, t))
  {
  }

  lemma TakeIdlePlaced(sys: System, i: nat, s: SessionId, op: Op)
    requires Placed(sys) && i < |sys.tasks|
    ensures Placed(TakeIdleWindow(sys, i, s, op))
  {
    if sys.pool.idle == [] {
      NextPlaced(sys, i, CheckRoom(s, op));
    } else {
      var c := sys.pool.idle[|sys.pool.idle| - 1].conn;
      assert At(sys.home, c, AtIdle);
      MoveKeeps(sys, c, AtTask(i));
      MoveToTask(sys, i, Assigning(s, op, c), c);
      var idle' := sys.pool.idle[..|sys.pool.idle| - 1];
      assert IdlePlaced(idle', Moved(sys.home, c, AtTask(i)));
    }
  }

  lemma DialPlaced(sys: System, i: nat, t: Task, dials: bool)
    requires Placed(sys) && i < |sys.tasks| && Carried(t) == Some(|sys.conns|) && Borrowed(t).None?
    ensures Placed(DialWindow(sys, i, t, dials))
  {
  }

  lemma DisplacedPlaced(sys: System, s: SessionId)
    requires Placed(sys)
    ensures Placed(Displaced(sys, s)) && s !in Displaced(sys, s).pool.leased
  {
    if s in sys.pool.leased {
      var c := sys.pool.leased[s];
      assert At(sys.home, c, AtLease(s));
      MoveKeeps(sys, c, Orphaned);
      assert LeasesPlaced(sys.pool.leased - {s}, Moved(sys.home, c, Orphaned));
    }
  }

  lemma AssignPlaced(sys: System, i: nat, s: SessionId, op: Op, c: ConnId)
    requires Placed(sys) && i < |sys.tasks| && sys.tasks[i] == Assigning(s, op, c)
    ensures Placed(AssignWindow(sys, i, s, op, c))
  {
    DisplacedPlaced(sys, s);
    var mid := Displaced(sys, s);
    assert Carried(mid.tasks[i]) == Some(c);
    MoveKeeps(mid, c, AtLease(s));
    MoveFromTask(mid, i, Using(s, op, c), c, AtLease(s));
    assert LeasesPlaced(mid.pool.leased[s := c], Moved(mid.home, c, AtLease(s)));
  }

  lemma TakeLeasePlaced(sys: System, i: nat, s: SessionId)
    requires Placed(sys) && i < |sys.tasks|
    ensures Placed(TakeLeaseWindow(sys, i, s))
  {
    if s in sys.pool.leased {
      var c := sys.pool.leased[s];
      assert At(sys.home, c, AtLease(s));
      MoveKeeps(sys, c, AtTask(i));
      MoveToTask(sys, i, Cleaning(s, c), c);
      assert LeasesPlaced(sys.pool.leased - {s}, Moved(sys.home, c, AtTask(i)));
    } else {
      NextPlaced(sys, i, Done(Finished));
    }
  }

  lemma ReturnPlaced(sys: System, i: nat, s: SessionId, c: ConnId)
    requires Placed(sys) && i < |sys.tasks| && sys.tasks[i] == Returning(s, c)
    ensures Placed(ReturnWindow(sys, i, c))
  {
    assert Carried(sys.tasks[i]) == Some(c);
    MoveKeeps(sys, c, AtIdle);
    MoveFromTask(sys, i, Done(Finished), c, AtIdle);
    assert IdlePlaced(sys.pool.idle + [Entry(sys.clock, c)], Moved(sys.home, c, AtIdle));
  }

  lemma FindPlaced(sys: System, i: nat, db: Database)
    requires Placed(sys) && i < |sys.tasks|
    ensures Placed(FindWindow(sys, i, db))
  {
    var (pool, c) := TouchSecondary(sys.pool, db, sys.clock);
    if c.Some? {
      assert At(sys.home, c.value, AtBrowser(db));
      assert SecondaryPlaced(pool.secondary, sys.home);
      NextPlaced(sys.(pool := pool), i, Browsing(c.value));
    } else {
      NextPlaced(sys, i, ReservingFor(db));
    }
  }

  lemma RegisterPlaced(sys: System, i: nat, db: Database, c: ConnId)
    requires Placed(sys) && i < |sys.tasks| && sys.tasks[i] == Inserting(db, c)
    requires InsertSecondary(sys.pool, db, c, sys.clock).1.None?
    ensures Placed(InsertWindow(sys, i, db, c))
  {
    assert Carried(sys.tasks[i]) == Some(c);
    MoveKeeps(sys, c, AtBrowser(db));
    MoveFromTask(sys, i, Browsing(c), c, AtBrowser(db));
    assert SecondaryPlaced(InsertSecondary(sys.pool, db, c, sys.clock).0.secondary, Moved(sys.home, c, AtBrowser(db)));
  }

  lemma InsertPlaced(sys: System, i: nat, db: Database, c: ConnId)
    requires Placed(sys) && i < |sys.tasks| && sys.tasks[i] == Inserting(db, c)
    ensures Placed(InsertWindow(sys, i, db, c))
  {
    assert Carried(sys.tasks[i]) == Some(c);
    var (pool, existing) := InsertSecondary(sys.pool, db, c, sys.clock);
    if existing.Some? {
      assert At(sys.home, existing.value, AtBrowser(db));
      assert SecondaryPlaced(pool.secondary, sys.home);
      NextPlaced(sys.(pool := pool), i, GivingBack(c, existing.value));
    } else {
      RegisterPlaced(sys, i, db, c);
    }
  }

  lemma GiveBackPlaced(sys: System, i: nat, c: ConnId, existing: ConnId)
    requires Placed(sys) && i < |sys.tasks| && sys.tasks[i] == GivingBack(c, existing)
    ensures Placed(GiveBackWindow(sys, i, c, existing))
  {
    assert Carried(sys.tasks[i]) == Some(c) && Borrowed(sys.tasks[i]) == Some(existing);
    MoveKeeps(sys, c, Closed);
    MoveFromTask(sys, i, Browsing(existing), c, Closed);
  }

  /** Closing connections leaves alone every registry and task they are not in. */
  lemma ShutKeeps(sys: System, gone: set<ConnId>)
    requires Placed(sys) && forall c :: c in gone && c < |sys.home| ==> !sys.home[c].AtTask? && !sys.home[c].Orphaned?
    ensures var home := Shut(sys.home, gone);
            && TasksPlaced(sys.tasks, home)
            && OrphansPlaced(sys.orphans, home)
            && ((forall c :: c in gone && c < |sys.home| ==> !sys.home[c].AtLease?) ==> LeasesPlaced(sys.pool.leased, home))
            && ((forall c :: c in gone && c < |sys.home| ==> !sys.home[c].AtBrowser?) ==> SecondaryPlaced(sys.pool.secondary, home))
            && ((forall c :: c in gone && c < |sys.home| ==> !sys.home[c].AtIdle?) ==> IdlePlaced(sys.pool.idle, home))
  {
  }

  /** Eviction divides the idle list: what is kept is not dropped. */
  lemma {:induction false} EvictionDivides(es: seq<Entry>, now: nat, cfg: Config, kept: nat)
    requires forall k, m :: 0 <= k < m < |es| ==> es[k].conn != es[m].conn
    ensures var keep, drop := Kept(es, now, cfg, kept), Evicted(es, now, cfg, kept);
            && (forall e :: e in keep ==> e in es && e.conn !in drop)
            && (forall c :: c in drop ==> exists e :: e in es && e.conn == c)
            && (forall k, m :: 0 <= k < m < |keep| ==> keep[k].conn != keep[m].conn)
            && |keep| + |drop| == |es|
  {
    if es != [] {
      var t := es[1..];
      assert forall k :: 0 <= k < |t| ==> t[k] == es[k + 1];
      EvictionDivides(t, now, cfg, if !Aged(es[0], now, cfg.idleTimeout) || kept < cfg.minIdle then kept + 1 else kept);
      assert es[0] in es && forall e :: e in t ==> e in es && e.conn != es[0].conn;
    }
  }

  lemma EvictPlaced(sys: System, i: nat, now: nat)
    requires Placed(sys) && i < |sys.tasks|
    ensures Placed(EvictWindow(sys, i, now))
  {
    var (pool, dropped) := EvictIdle(sys.pool, now, sys.cfg);
    var gone := set c | c in dropped;
    EvictionDivides(sys.pool.idle, now, sys.cfg, 0);
    assert forall e :: e in sys.pool.idle ==> At(sys.home, e.conn, AtIdle);
    ShutKeeps(sys, gone);
    var home := Shut(sys.home, gone);
    forall k | 0 <= k < |pool.idle| ensures At(home, pool.idle[k].conn, AtIdle) {
      assert pool.idle[k] in pool.idle;
    }
    NextPlaced(sys.(pool := pool, home := home), i, EvictingSecondary(now));
  }

  /** A database whose side connection is evicted had it unused: no other database shares it. */
  lemma EvictedIsUnused(sys: System, now: nat, db: Database)
    requires Placed(sys) && db in sys.pool.secondary
    ensures sys.pool.secondary[db].conn in UnusedConns(sys, now) ==>
              db in Unused(sys.pool, now, sys.cfg, Held(sys.tasks))
  {
    var keys := Unused(sys.pool, now, sys.cfg, Held(sys.tasks));
    var c := sys.pool.secondary[db].conn;
    if c in UnusedConns(sys, now) {
      var other :| other in keys && other in sys.pool.secondary && sys.pool.secondary[other].conn == c;
      assert At(sys.home, c, AtBrowser(other)) && At(sys.home, c, AtBrowser(db));
    }
  }

  lemma EvictSecondaryPlaced(sys: System, i: nat, now: nat)
    requires Placed(sys) && i < |sys.tasks|
    ensures Placed(EvictSecondaryWindow(sys, i, now))
  {
    var gone := UnusedConns(sys, now);
    var pool := EvictSecondary(sys.pool, now, sys.cfg, Held(sys.tasks));
    assert forall c :: c in gone ==> c < |sys.home| && sys.home[c].AtBrowser?;
    ShutKeeps(sys, gone);
    var home := Shut(sys.home, gone);
    forall db | db in pool.secondary ensures At(home, pool.secondary[db].conn, AtBrowser(db)) {
      EvictedIsUnused(sys, now, db);
      assert At(sys.home, pool.secondary[db].conn, AtBrowser(db));
    }
    var keys := Unused(sys.pool, now, sys.cfg, Held(sys.tasks));
    NextPlaced(sys.(pool := pool, home := home), i, if |keys| == 0 then Done(Finished) else Settling(|keys|));
  }

  lemma DrainPlaced(sys: System, i: nat)
    requires Placed(sys) && i < |sys.tasks|
    ensures Placed(DrainWindow(sys, i)) && Placed(DrainSecondaryWindow(sys, i))
  {
    var gone, gone' := Drained(sys.home), Sides(sys.home);
    ShutKeeps(sys, gone);
    NextPlaced(sys.(pool := DrainLeases(sys.pool), home := Shut(sys.home, gone), down := true), i, DrainingSecondary);
    ShutKeeps(sys, gone');
    NextPlaced(sys.(pool := DrainSecondary(sys.pool), home := Shut(sys.home, gone'), down := true), i, Done(Finished));
  }

  lemma UsePlaced(sys: System, i: nat, op: Op, c: ConnId, choice: Choice)
    requires Placed(sys) && i < |sys.tasks| && sys.tasks[i].Using?
    ensures Placed(UseWindow(sys, i, op, c, choice))
  {
    var (conn, outcome) := Use(ConnOf(sys, c), op, sys.nextCursor, choice);
    NextPlaced(SetConn(sys, c, conn), i, Done(outcome));
  }

  lemma ReservePlaced(sys: System, i: nat, t: Task)
    requires Placed(sys) && i < |sys.tasks| && Carried(t).None? && Borrowed(t).None?
    ensures Placed(ReserveWindow(sys, i, t))
  {
    NextPlaced(sys, i, Done(Exhausted));
    NextPlaced(sys.(pool := sys.pool.(total := sys.pool.total + 1)), i, t);
  }

  lemma LookupPlaced(sys: System, i: nat, s: SessionId, op: Op, otherwise: Task)
    requires Placed(sys) && i < |sys.tasks| && Carried(otherwise).None? && Borrowed(otherwise).None?
    ensures Placed(Next(sys, i, if s in sys.pool.leased then Using(s, op, sys.pool.leased[s]) else otherwise))
  {
    NextPlaced(sys, i, if s in sys.pool.leased then Using(s, op, sys.pool.leased[s]) else otherwise);
  }

  lemma LeasingPlaced(sys: System, i: nat, t: Task, choice: Choice)
    requires Placed(sys) && i < |sys.tasks| && sys.tasks[i] == t && Leasing(t)
    ensures Placed(LeasingWindow(sys, i, t, choice))
  {
    if t.Lookup? {
      LookupPlaced(sys, i, t.s, t.op, TakeIdle(t.s, t.op));
    } else if t.TakeIdle? {
      TakeIdlePlaced(sys, i, t.s, t.op);
    } else if t.CheckRoom? {
      NextPlaced(sys, i, if Full(sys.pool, sys.cfg) then Done(Exhausted) else Reserving(t.s, t.op));
    } else if t.Reserving? {
      ReservePlaced(sys, i, Opening(t.s, t.op));
    } else if t.Opening? {
      DialPlaced(sys, i, Assigning(t.s, t.op, |sys.conns|), choice.dials);
    } else if t.Assigning? {
      AssignPlaced(sys, i, t.s, t.op, t.c);
    } else {
      LookupPlaced(sys, i, t.s, t.op, Done(NoSession));
    }
  }

  lemma SidingPlaced(sys: System, i: nat, t: Task, choice: Choice)
    requires Placed(sys) && i < |sys.tasks| && sys.tasks[i] == t && Siding(t)
    ensures Placed(SidingWindow(sys, i, t, choice))
  {
    if t.Finding? {
      FindPlaced(sys, i, t.db);
    } else if t.ReservingFor? {
      ReservePlaced(sys, i, OpeningFor(t.db));
    } else if t.OpeningFor? {
      DialPlaced(sys, i, Inserting(t.db, |sys.conns|), choice.dials);
    } else if t.Inserting? {
      InsertPlaced(sys, i, t.db, t.c);
    } else if t.GivingBack? {
      GiveBackPlaced(sys, i, t.c, t.existing);
    }
  }

  lemma SweepingPlaced(sys: System, i: nat, t: Task)
    requires Placed(sys) && i < |sys.tasks| && sys.tasks[i] == t && Sweeping(t)
    ensures Placed(SweepingWindow(sys, i, t))
  {
    if t.Evicting? {
      EvictPlaced(sys, i, t.now);
    } else if t.EvictingSecondary? {
      EvictSecondaryPlaced(sys, i, t.now);
    } else if t.Settling? {
      NextPlaced(sys.(pool := Settle(sys.pool, t.n)), i, Done(Finished));
    } else {
      DrainPlaced(sys, i);
    }
  }

  lemma ReleasingPlaced(sys: System, i: nat, t: Task, choice: Choice)
    requires Placed(sys) && i < |sys.tasks| && sys.tasks[i] == t && Releasing(t)
    ensures Placed(ReleasingWindow(sys, i, t, choice))
  {
    if t.Taking? {
      TakeLeasePlaced(sys, i, t.s);
    } else if t.Cleaning? {
      assert Carried(t) == Some(t.c);
      NextPlaced(SetConn(sys, t.c, AfterCloseActive(ConnOf(sys, t.c), choice.close)), i, Returning(t.s, t.c));
    } else {
      ReturnPlaced(sys, i, t.s, t.c);
    }
  }

  lemma WindowPlaced(sys: System, i: nat, choice: Choice)
    requires Placed(sys) && i < |sys.tasks|
    ensures Placed(Window(sys, i, choice))
  {
    var t := sys.tasks[i];
    if Leasing(t) {
      LeasingPlaced(sys, i, t, choice);
    } else if Siding(t) {
      SidingPlaced(sys, i, t, choice);
    } else if Sweeping(t) {
      SweepingPlaced(sys, i, t);
    } else if t.Browsing? {
      NextPlaced(SetConn(sys, t.b, AfterStatement(ConnOf(sys, t.b), choice.succeeds).0), i, Done(Finished));
    } else if t.Using? {
      UsePlaced(sys, i, t.op, t.c, choice);
    } else if t.RollingBack? {
      NextPlaced(sys.(pool := Unreserve(sys.pool)), i, Done(ConnectFailed));
    } else if Releasing(t) {
      ReleasingPlaced(sys, i, t, choice);
    }
  }
}
