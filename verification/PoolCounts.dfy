/**
 Slot accounting. The drift is how far the pool's counter is from the connections it has
 somewhere plus the slots of calls in flight. Proved here: what each window of each call
 does to the drift, which is nothing but for saturating subtractions and the two windows of
 shutdown, and that the counter stays within its maximum.
 */
module PoolCounts {
  import opened Wrappers
  import opened PoolState
  import opened PgServer
  import opened PgExec
  import opened PgCursor
  import opened PoolRuns

  // ----- Sums over tasks -----

  lemma {:induction false} InFlightUpdate(ts: seq<Task>, i: nat, t: Task)
    requires i < |ts|
    ensures InFlight(ts[i := t]) + Slots(ts[i]) == InFlight(ts) + Slots(t)
  {
    var last := |ts| - 1;
    if i == last {
      assert ts[i := t][..last] == ts[..last];
    } else {
      InFlightUpdate(ts[..last], i, t);
      assert ts[i := t][..last] == ts[..last][i := t];
    }
  }

  lemma InFlightAppend(ts: seq<Task>, t: Task)
    ensures InFlight(ts + [t]) == InFlight(ts) + Slots(t)
  {
    assert (ts + [t])[..|ts|] == ts;
  }

  lemma {:induction false} InFlightHas(ts: seq<Task>, i: nat)
    requires i < |ts|
    ensures Slots(ts[i]) <= InFlight(ts)
  {
    if i < |ts| - 1 {
      InFlightHas(ts[..|ts| - 1], i);
    }
  }

  lemma {:induction false} NoneInFlight(ts: seq<Task>)
    requires forall i :: 0 <= i < |ts| ==> ts[i].Done?
    ensures InFlight(ts) == 0
  {
    if ts != [] {
      NoneInFlight(ts[..|ts| - 1]);
    }
  }

  lemma KeysRemoved<K, V>(m: map<K, V>, keys: set<K>)
    requires keys <= m.Keys
    ensures |m - keys| == |m| - |keys|
  {
    assert (m - keys).Keys == m.Keys - keys;
  }

  lemma KeyAdded<K, V>(m: map<K, V>, k: K, v: V)
    ensures |m[k := v]| == if k in m then |m| else |m| + 1
  {
    assert m[k := v].Keys == m.Keys + {k};
  }

  // ----- Drift -----

  /** Connections registered in one of the pool's three tables. */
  function Registered(p: Pool): nat {
    |p.idle| + |p.leased| + |p.secondary|
  }

  function Accounted(sys: System): nat {
    Registered(sys.pool) + InFlight(sys.tasks) + |sys.orphans|
  }

  function Drift(sys: System): int {
    sys.pool.total - Accounted(sys)
  }

  predicate Conserved(sys: System) {
    sys.pool.total == Accounted(sys)
  }

  /** What the next window of a task subtracts from the counter. */
  function Subtracts(sys: System, t: Task): nat {
    match t
    case RollingBack => 1
    case GivingBack(_, _) => 1
    case Settling(n) => n
    case Evicting(now) => |Evicted(sys.pool.idle, now, sys.cfg, 0)|
    case _ => 0
  }

  /** What a subtraction of `n` loses by stopping at zero. */
  function Excess(total: nat, n: nat): nat {
    if total < n then n - total else 0
  }

  /** What the next window of a task does to the drift. */
  function Shift(sys: System, t: Task): int {
    match t
    case Draining => |sys.pool.idle| + |sys.pool.leased| - sys.pool.total
    case DrainingSecondary => |sys.pool.secondary|
    case _ => Excess(sys.pool.total, Subtracts(sys, t))
  }

  /** A task that steps without touching the tables, keeping the slots it had. */
  lemma NextDrift(sys: System, i: nat, t: Task)
    requires i < |sys.tasks| && Slots(t) == Slots(sys.tasks[i])
    ensures Drift(Next(sys, i, t)) == Drift(sys)
  {
    InFlightUpdate(sys.tasks, i, t);
  }

  /** What is moved between tables, counter and tasks is counted once. */
  lemma MoveDrift(sys: System, i: nat, t: Task, p: Pool, home: seq<Home>, shift: int)
    requires i < |sys.tasks|
    requires p.total - Registered(p) - Slots(t) == sys.pool.total - Registered(sys.pool) - Slots(sys.tasks[i]) + shift
    ensures Drift(Next(sys.(pool := p, home := home), i, t)) == Drift(sys) + shift
  {
    InFlightUpdate(sys.tasks, i, t);
  }

  lemma TakeIdleDrift(sys: System, i: nat, s: SessionId, op: Op)
    requires i < |sys.tasks| && sys.tasks[i] == TakeIdle(s, op)
    ensures Drift(TakeIdleWindow(sys, i, s, op)) == Drift(sys)
  {
    if sys.pool.idle == [] {
      NextDrift(sys, i, CheckRoom(s, op));
    } else {
      var (p, c) := PopIdle(sys.pool);
      MoveDrift(sys, i, Assigning(s, op, c.value), p, Moved(sys.home, c.value, AtTask(i)), 0);
    }
  }

  lemma ReserveDrift(sys: System, i: nat, t: Task)
    requires i < |sys.tasks| && Slots(sys.tasks[i]) == 0 && Slots(t) == 1
    ensures Drift(ReserveWindow(sys, i, t)) == Drift(sys)
  {
    InFlightUpdate(sys.tasks, i, t);
    InFlightUpdate(sys.tasks, i, Done(Exhausted));
  }

  lemma DialDrift(sys: System, i: nat, t: Task, dials: bool)
    requires i < |sys.tasks| && Slots(sys.tasks[i]) == Slots(t) == 1
    ensures Drift(DialWindow(sys, i, t, dials)) == Drift(sys)
  {
    InFlightUpdate(sys.tasks, i, t);
    InFlightUpdate(sys.tasks, i, RollingBack);
  }

  lemma OrphanAdded(orphans: set<ConnId>, c: ConnId)
    requires c !in orphans
    ensures |orphans + {c}| == |orphans| + 1
  {
  }

  /** An overwritten lease turns into an orphan: nothing is given back. */
  lemma DisplacedDrift(sys: System, s: SessionId)
    requires Placed(sys)
    ensures Drift(Displaced(sys, s)) == Drift(sys) && s !in Displaced(sys, s).pool.leased
  {
    if s in sys.pool.leased {
      var c := sys.pool.leased[s];
      assert c !in sys.orphans by { assert At(sys.home, c, AtLease(s)); }
      OrphanAdded(sys.orphans, c);
      KeysRemoved(sys.pool.leased, {s});
    }
  }

  lemma AssignCounts(p: Pool, s: SessionId, c: ConnId)
    requires s !in p.leased
    ensures Registered(Assign(p, s, c)) == Registered(p) + 1 && Assign(p, s, c).total == p.total
  {
    KeyAdded(p.leased, s, c);
  }

  lemma AssignDrift(sys: System, i: nat, s: SessionId, op: Op, c: ConnId)
    requires Placed(sys) && i < |sys.tasks| && sys.tasks[i] == Assigning(s, op, c)
    ensures Drift(AssignWindow(sys, i, s, op, c)) == Drift(sys)
  {
    DisplacedDrift(sys, s);
    var mid := Displaced(sys, s);
    AssignCounts(mid.pool, s, c);
    MoveDrift(mid, i, Using(s, op, c), Assign(mid.pool, s, c), Moved(mid.home, c, AtLease(s)), 0);
  }

  lemma TakeLeaseCounts(p: Pool, s: SessionId)
    requires s in p.leased
    ensures Registered(TakeLease(p, s).0) + 1 == Registered(p) && TakeLease(p, s).0.total == p.total
  {
    KeysRemoved(p.leased, {s});
  }

  lemma TakeLeaseDrift(sys: System, i: nat, s: SessionId)
    requires i < |sys.tasks| && sys.tasks[i] == Taking(s)
    ensures Drift(TakeLeaseWindow(sys, i, s)) == Drift(sys)
  {
    if s in sys.pool.leased {
      var c := sys.pool.leased[s];
      TakeLeaseCounts(sys.pool, s);
      MoveDrift(sys, i, Cleaning(s, c), TakeLease(sys.pool, s).0, Moved(sys.home, c, AtTask(i)), 0);
    } else {
      NextDrift(sys, i, Done(Finished));
    }
  }

  lemma ReturnDrift(sys: System, i: nat, s: SessionId, c: ConnId)
    requires i < |sys.tasks| && sys.tasks[i] == Returning(s, c)
    ensures Drift(ReturnWindow(sys, i, c)) == Drift(sys)
  {
    MoveDrift(sys, i, Done(Finished), PushIdle(sys.pool, c, sys.clock), Moved(sys.home, c, AtIdle), 0);
  }

  lemma TouchCounts(p: Pool, db: Database, now: nat)
    ensures var q := TouchSecondary(p, db, now).0; Registered(q) == Registered(p) && q.total == p.total
  {
    if db in p.secondary {
      KeyAdded(p.secondary, db, p.secondary[db].(since := now));
    }
  }

  lemma FindDrift(sys: System, i: nat, db: Database)
    requires i < |sys.tasks| && sys.tasks[i] == Finding(db)
    ensures Drift(FindWindow(sys, i, db)) == Drift(sys)
  {
    var (pool, c) := TouchSecondary(sys.pool, db, sys.clock);
    TouchCounts(sys.pool, db, sys.clock);
    MoveDrift(sys, i, if c.Some? then Browsing(c.value) else ReservingFor(db), pool, sys.home, 0);
  }

  lemma InsertCounts(p: Pool, db: Database, c: ConnId, now: nat)
    ensures var (q, existing) := InsertSecondary(p, db, c, now);
            q.total == p.total && Registered(q) + (if existing.None? then 0 else 1) == Registered(p) + 1
  {
    TouchCounts(p, db, now);
    KeyAdded(p.secondary, db, Entry(now, c));
  }

  lemma InsertDrift(sys: System, i: nat, db: Database, c: ConnId)
    requires i < |sys.tasks| && sys.tasks[i] == Inserting(db, c)
    ensures Drift(InsertWindow(sys, i, db, c)) == Drift(sys)
  {
    var (pool, existing) := InsertSecondary(sys.pool, db, c, sys.clock);
    InsertCounts(sys.pool, db, c, sys.clock);
    if existing.Some? {
      MoveDrift(sys, i, GivingBack(c, existing.value), pool, sys.home, 0);
    } else {
      MoveDrift(sys, i, Browsing(c), pool, Moved(sys.home, c, AtBrowser(db)), 0);
    }
  }

  lemma GiveBackDrift(sys: System, i: nat, c: ConnId, existing: ConnId)
    requires i < |sys.tasks| && sys.tasks[i] == GivingBack(c, existing)
    ensures Drift(GiveBackWindow(sys, i, c, existing)) == Drift(sys) + Excess(sys.pool.total, 1)
  {
    MoveDrift(sys, i, Browsing(existing), Unreserve(sys.pool), Moved(sys.home, c, Closed), Excess(sys.pool.total, 1));
  }

  lemma RollBackDrift(sys: System, i: nat)
    requires i < |sys.tasks| && sys.tasks[i] == RollingBack
    ensures Drift(RollBackWindow(sys, i)) == Drift(sys) + Excess(sys.pool.total, 1)
  {
    MoveDrift(sys, i, Done(ConnectFailed), Unreserve(sys.pool), sys.home, Excess(sys.pool.total, 1));
  }

  lemma SettleDrift(sys: System, i: nat, n: nat)
    requires i < |sys.tasks| && sys.tasks[i] == Settling(n)
    ensures Drift(Next(sys.(pool := Settle(sys.pool, n)), i, Done(Finished))) == Drift(sys) + Excess(sys.pool.total, n)
  {
    MoveDrift(sys, i, Done(Finished), Settle(sys.pool, n), sys.home, Excess(sys.pool.total, n));
  }

  lemma {:induction false} EvictionCounts(es: seq<Entry>, now: nat, cfg: Config, kept: nat)
    ensures |Kept(es, now, cfg, kept)| + |Evicted(es, now, cfg, kept)| == |es|
  {
    if es != [] {
      EvictionCounts(es[1..], now, cfg, if !Aged(es[0], now, cfg.idleTimeout) || kept < cfg.minIdle then kept + 1 else kept);
    }
  }

  lemma EvictDrift(sys: System, i: nat, now: nat)
    requires i < |sys.tasks| && sys.tasks[i] == Evicting(now)
    ensures Drift(EvictWindow(sys, i, now)) == Drift(sys) + Shift(sys, Evicting(now))
  {
    EvictionCounts(sys.pool.idle, now, sys.cfg, 0);
    var (pool, dropped) := EvictIdle(sys.pool, now, sys.cfg);
    MoveDrift(sys, i, EvictingSecondary(now), pool, Shut(sys.home, set c | c in dropped), Excess(sys.pool.total, |dropped|));
  }

  lemma EvictSecondaryShrinks(p: Pool, now: nat, cfg: Config, held: set<ConnId>)
    ensures var q := EvictSecondary(p, now, cfg, held);
            Registered(q) + |Unused(p, now, cfg, held)| == Registered(p) && q.total == p.total
  {
    KeysRemoved(p.secondary, Unused(p, now, cfg, held));
  }

  /** What leaves the table is still counted, until the call settles it. */
  lemma UnsettledDrift(sys: System, i: nat, p: Pool, n: nat, home: seq<Home>)
    requires i < |sys.tasks| && sys.tasks[i].EvictingSecondary?
    requires Registered(p) + n == Registered(sys.pool) && p.total == sys.pool.total
    ensures Drift(Next(sys.(pool := p, home := home), i, if n == 0 then Done(Finished) else Settling(n))) == Drift(sys)
  {
    MoveDrift(sys, i, if n == 0 then Done(Finished) else Settling(n), p, home, 0);
  }

  lemma EvictSecondaryDrift(sys: System, i: nat, now: nat)
    requires i < |sys.tasks| && sys.tasks[i] == EvictingSecondary(now)
    ensures Drift(EvictSecondaryWindow(sys, i, now)) == Drift(sys)
  {
    var held := Held(sys.tasks);
    var n := |Unused(sys.pool, now, sys.cfg, held)|;
    EvictSecondaryShrinks(sys.pool, now, sys.cfg, held);
    UnsettledDrift(sys, i, EvictSecondary(sys.pool, now, sys.cfg, held), n, Shut(sys.home, UnusedConns(sys, now)));
  }

  lemma DrainDrift(sys: System, i: nat)
    requires i < |sys.tasks| && sys.tasks[i] == Draining
    ensures Drift(DrainWindow(sys, i)) == Drift(sys) + Shift(sys, Draining)
  {
    InFlightUpdate(sys.tasks, i, DrainingSecondary);
  }

  lemma DrainSecondaryDrift(sys: System, i: nat)
    requires i < |sys.tasks| && sys.tasks[i] == DrainingSecondary
    ensures Drift(DrainSecondaryWindow(sys, i)) == Drift(sys) + |sys.pool.secondary|
  {
    InFlightUpdate(sys.tasks, i, Done(Finished));
  }

  lemma LeasingDrift(sys: System, i: nat, t: Task, choice: Choice)
    requires Placed(sys) && i < |sys.tasks| && sys.tasks[i] == t && Leasing(t)
    ensures Drift(LeasingWindow(sys, i, t, choice)) == Drift(sys)
  {
    if t.Lookup? {
      NextDrift(sys, i, if t.s in sys.pool.leased then Using(t.s, t.op, sys.pool.leased[t.s]) else TakeIdle(t.s, t.op));
    } else if t.TakeIdle? {
      TakeIdleDrift(sys, i, t.s, t.op);
    } else if t.CheckRoom? {
      NextDrift(sys, i, if Full(sys.pool, sys.cfg) then Done(Exhausted) else Reserving(t.s, t.op));
    } else if t.Reserving? {
      ReserveDrift(sys, i, Opening(t.s, t.op));
    } else if t.Opening? {
      DialDrift(sys, i, Assigning(t.s, t.op, |sys.conns|), choice.dials);
    } else if t.Assigning? {
      AssignDrift(sys, i, t.s, t.op, t.c);
    } else {
      NextDrift(sys, i, if t.s in sys.pool.leased then Using(t.s, t.op, sys.pool.leased[t.s]) else Done(NoSession));
    }
  }

  lemma SidingDrift(sys: System, i: nat, t: Task, choice: Choice)
    requires i < |sys.tasks| && sys.tasks[i] == t && Siding(t)
    ensures Drift(SidingWindow(sys, i, t, choice)) == Drift(sys) + Shift(sys, t)
  {
    if t.Finding? {
      FindDrift(sys, i, t.db);
    } else if t.ReservingFor? {
      ReserveDrift(sys, i, OpeningFor(t.db));
    } else if t.OpeningFor? {
      DialDrift(sys, i, Inserting(t.db, |sys.conns|), choice.dials);
    } else if t.Inserting? {
      InsertDrift(sys, i, t.db, t.c);
    } else {
      GiveBackDrift(sys, i, t.c, t.existing);
    }
  }

  lemma ReleasingDrift(sys: System, i: nat, t: Task, choice: Choice)
    requires i < |sys.tasks| && sys.tasks[i] == t && Releasing(t)
    ensures Drift(ReleasingWindow(sys, i, t, choice)) == Drift(sys)
  {
    if t.Taking? {
      TakeLeaseDrift(sys, i, t.s);
    } else if t.Cleaning? {
      NextDrift(SetConn(sys, t.c, AfterCloseActive(ConnOf(sys, t.c), choice.close)), i, Returning(t.s, t.c));
    } else {
      ReturnDrift(sys, i, t.s, t.c);
    }
  }

  lemma SweepingDrift(sys: System, i: nat, t: Task)
    requires i < |sys.tasks| && sys.tasks[i] == t && Sweeping(t)
    ensures Drift(SweepingWindow(sys, i, t)) == Drift(sys) + Shift(sys, t)
  {
    if t.Evicting? {
      EvictDrift(sys, i, t.now);
    } else if t.EvictingSecondary? {
      EvictSecondaryDrift(sys, i, t.now);
    } else if t.Settling? {
      SettleDrift(sys, i, t.n);
    } else if t.Draining? {
      DrainDrift(sys, i);
    } else {
      DrainSecondaryDrift(sys, i);
    }
  }

  /** The exact account of every window of every call, shutdown's and those after it included. */
  lemma WindowDrift(sys: System, i: nat, choice: Choice)
    requires Placed(sys) && i < |sys.tasks|
    ensures Drift(Window(sys, i, choice)) == Drift(sys) + Shift(sys, sys.tasks[i])
  {
    var t := sys.tasks[i];
    if Leasing(t) {
      LeasingDrift(sys, i, t, choice);
    } else if Siding(t) {
      SidingDrift(sys, i, t, choice);
    } else if Sweeping(t) {
      SweepingDrift(sys, i, t);
    } else if Releasing(t) {
      ReleasingDrift(sys, i, t, choice);
    } else if t.Browsing? {
      NextDrift(SetConn(sys, t.b, AfterStatement(ConnOf(sys, t.b), choice.succeeds).0), i, Done(Finished));
    } else if t.Using? {
      var (conn, outcome) := Use(ConnOf(sys, t.c), t.op, sys.nextCursor, choice);
      NextDrift(SetConn(sys, t.c, conn), i, Done(outcome));
    } else if t.RollingBack? {
      RollBackDrift(sys, i);
    }
  }

  // ----- The limit -----

  predicate Within(sys: System) {
    sys.pool.total <= sys.cfg.maxSize
  }

  lemma LeasingWithin(sys: System, i: nat, t: Task, choice: Choice)
    requires Within(sys) && Leasing(t)
    ensures Within(LeasingWindow(sys, i, t, choice))
  {
  }

  lemma SidingWithin(sys: System, i: nat, t: Task, choice: Choice)
    requires Within(sys) && Siding(t)
    ensures Within(SidingWindow(sys, i, t, choice))
  {
  }

  lemma ReleasingWithin(sys: System, i: nat, t: Task, choice: Choice)
    requires Within(sys) && Releasing(t)
    ensures Within(ReleasingWindow(sys, i, t, choice))
  {
  }

  lemma SweepingWithin(sys: System, i: nat, t: Task)
    requires Within(sys) && Sweeping(t)
    ensures Within(SweepingWindow(sys, i, t))
  {
  }

  lemma WindowWithin(sys: System, i: nat, choice: Choice)
    requires Within(sys) && i < |sys.tasks|
    ensures Within(Window(sys, i, choice))
  {
    var t := sys.tasks[i];
    if Leasing(t) {
      LeasingWithin(sys, i, t, choice);
    } else if Siding(t) {
      SidingWithin(sys, i, t, choice);
    } else if Sweeping(t) {
      SweepingWithin(sys, i, t);
    } else if Releasing(t) {
      ReleasingWithin(sys, i, t, choice);
    }
  }

  // ----- When the counter is right -----

  /** While the counter is right, no subtraction goes below zero. */
  lemma ConservedCovers(sys: System, i: nat)
    requires Conserved(sys) && i < |sys.tasks|
    ensures Subtracts(sys, sys.tasks[i]) <= sys.pool.total
  {
    InFlightHas(sys.tasks, i);
    if sys.tasks[i].Evicting? {
      EvictionCounts(sys.pool.idle, sys.tasks[i].now, sys.cfg, 0);
    }
  }

  /** A window of shutdown that puts the counter wrong, or would leave it so. */
  predicate Miscounts(sys: System, t: Task) {
    || (t.Draining? && !(InFlight(sys.tasks) == 0 && sys.orphans == {} && sys.pool.secondary == map[]))
    || (t.DrainingSecondary? && sys.pool.secondary != map[])
  }

  lemma EmptyMap<K, V>(m: map<K, V>)
    ensures |m| == 0 <==> m == map[]
  {
  }

  lemma NoOrphans(orphans: set<ConnId>)
    ensures |orphans| == 0 <==> orphans == {}
  {
  }

  /** From a right counter, only what miscounts shifts it. */
  lemma ShiftsIff(sys: System, i: nat)
    requires Conserved(sys) && i < |sys.tasks|
    ensures Shift(sys, sys.tasks[i]) == 0 <==> !Miscounts(sys, sys.tasks[i])
  {
    ConservedCovers(sys, i);
    EmptyMap(sys.pool.secondary);
    NoOrphans(sys.orphans);
  }

  lemma ConservedIsNoDrift(sys: System)
    ensures Conserved(sys) <==> Drift(sys) == 0
  {
  }

  /**
   From a state with the right counter: the next window keeps it right exactly when it is not
   one of shutdown's, or is the first and nothing is in flight, lost or in the side table, or is
   the second and nothing is in the side table. This holds after shutdown as before it.
   */
  lemma KeepsConservedIff(sys: System, i: nat, choice: Choice)
    requires Placed(sys) && Conserved(sys) && i < |sys.tasks|
    ensures Conserved(Window(sys, i, choice)) <==> !Miscounts(sys, sys.tasks[i])
  {
    WindowDrift(sys, i, choice);
    ShiftsIff(sys, i);
    ConservedIsNoDrift(sys);
    ConservedIsNoDrift(Window(sys, i, choice));
  }

  /** The first window of shutdown, wherever the counter was. */
  lemma DrainConservesIff(sys: System, i: nat)
    requires i < |sys.tasks| && sys.tasks[i] == Draining
    ensures Conserved(DrainWindow(sys, i)) <==> !Miscounts(sys, Draining)
  {
    DrainDrift(sys, i);
    EmptyMap(sys.pool.secondary);
  }

  /** Both windows of shutdown with nothing in between: the side table does not matter then. */
  lemma ShutdownConservesIff(sys: System, i: nat)
    requires i < |sys.tasks| && sys.tasks[i] == Draining
    ensures Conserved(DrainSecondaryWindow(DrainWindow(sys, i), i)) <==> InFlight(sys.tasks) == 0 && sys.orphans == {}
  {
    DrainDrift(sys, i);
    var mid := DrainWindow(sys, i);
    assert mid.tasks[i] == DrainingSecondary;
    DrainSecondaryDrift(mid, i);
  }

  predicate Counted(sys: System) {
    Within(sys) && (!sys.down ==> Conserved(sys))
  }

  /** Only the windows of shutdown set the mark of shutdown. */
  lemma DownOnlyByDrain(sys: System, i: nat, choice: Choice)
    requires i < |sys.tasks| && !Window(sys, i, choice).down
    ensures !sys.down && !sys.tasks[i].Draining? && !sys.tasks[i].DrainingSecondary?
  {
  }

  lemma WindowCounted(sys: System, i: nat, choice: Choice)
    requires Placed(sys) && Counted(sys) && i < |sys.tasks|
    ensures Counted(Window(sys, i, choice))
  {
    WindowWithin(sys, i, choice);
    if !Window(sys, i, choice).down {
      DownOnlyByDrain(sys, i, choice);
      KeepsConservedIff(sys, i, choice);
    }
  }
}
