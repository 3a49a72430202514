/**
 What holds of the pool in every state of every run.
 */
module PoolSafety {
  import opened Basics
  import opened Wrappers
  import opened PoolState
  import opened PgServer
  import opened PgExec
  import opened PgCursor
  import opened PoolRuns
  import opened PoolCounts

  // ----- The idle list is in order of release -----

  predicate Timed(sys: System) {
    && Sorted(sys.pool.idle)
    && (forall k :: 0 <= k < |sys.pool.idle| ==> sys.pool.idle[k].since <= sys.clock)
  }

  lemma StretchesAreSorted(es: seq<Entry>, m: nat, a: nat)
    requires Sorted(es) && m <= a <= |es|
    ensures Sorted(es[..m] + es[a..])
  {
    var keep := es[..m] + es[a..];
    assert forall k :: 0 <= k < |keep| ==> keep[k] == if k < m then es[k] else es[k - m + a];
  }

  lemma StretchesAreFrom(es: seq<Entry>, m: nat, a: nat)
    requires m <= a <= |es|
    ensures forall e :: e in es[..m] + es[a..] ==> e in es
  {
  }

  /** Eviction keeps the order: the entries left are two stretches of the list. */
  lemma KeptIsSorted(es: seq<Entry>, now: nat, cfg: Config)
    requires Sorted(es)
    ensures Sorted(Kept(es, now, cfg, 0))
    ensures forall e :: e in Kept(es, now, cfg, 0) ==> e in es
  {
    var a := SortedHasAgedFront(es, now, cfg);
    var m := Min(a, cfg.minIdle);
    KeptForm(es, now, cfg, 0, a, m);
    StretchesAreSorted(es, m, a);
    StretchesAreFrom(es, m, a);
  }

  lemma EvictTimed(sys: System, i: nat, now: nat)
    requires Timed(sys)
    ensures Timed(EvictWindow(sys, i, now))
  {
    KeptIsSorted(sys.pool.idle, now, sys.cfg);
    var keep := Kept(sys.pool.idle, now, sys.cfg, 0);
    forall k | 0 <= k < |keep| ensures keep[k].since <= sys.clock {
      assert keep[k] in sys.pool.idle;
    }
  }

  lemma LeasingTimed(sys: System, i: nat, t: Task, choice: Choice)
    requires Timed(sys) && Leasing(t)
    ensures Timed(LeasingWindow(sys, i, t, choice))
  {
  }

  lemma SidingTimed(sys: System, i: nat, t: Task, choice: Choice)
    requires Timed(sys) && Siding(t)
    ensures Timed(SidingWindow(sys, i, t, choice))
  {
  }

  lemma ReleasingTimed(sys: System, i: nat, t: Task, choice: Choice)
    requires Timed(sys) && Releasing(t)
    ensures Timed(ReleasingWindow(sys, i, t, choice))
  {
  }

  lemma SweepingTimed(sys: System, i: nat, t: Task)
    requires Timed(sys) && Sweeping(t)
    ensures Timed(SweepingWindow(sys, i, t))
  {
    if t.Evicting? {
      EvictTimed(sys, i, t.now);
    }
  }

  lemma WindowTimed(sys: System, i: nat, choice: Choice)
    requires Timed(sys) && i < |sys.tasks|
    ensures Timed(Window(sys, i, choice))
  {
    var t := sys.tasks[i];
    if Leasing(t) {
      LeasingTimed(sys, i, t, choice);
    } else if Siding(t) {
      SidingTimed(sys, i, t, choice);
    } else if Releasing(t) {
      ReleasingTimed(sys, i, t, choice);
    } else if Sweeping(t) {
      SweepingTimed(sys, i, t);
    }
  }

  // ----- A side connection in use stays -----

  predicate UsesSide(t: Task) {
    t.Browsing? || t.GivingBack?
  }

  ghost predicate InTable(p: Pool, c: ConnId) {
    exists db :: db in p.secondary && p.secondary[db].conn == c
  }

  /** A browser operation that holds a side connection finds it in the table until shutdown. */
  ghost predicate SidesStay(sys: System) {
    !sys.down ==> forall i :: 0 <= i < |sys.tasks| && UsesSide(sys.tasks[i]) ==> InTable(sys.pool, Borrowed(sys.tasks[i]).value)
  }

  /** The side connections in use are still in the table. */
  ghost predicate UsedStay(sys: System, p: Pool) {
    forall c :: c in Held(sys.tasks) && InTable(sys.pool, c) ==> InTable(p, c)
  }

  lemma NextStays(sys: System, i: nat, t: Task, sys': System)
    requires SidesStay(sys) && i < |sys.tasks| && sys'.tasks == sys.tasks[i := t] && sys'.down == sys.down
    requires UsedStay(sys, sys'.pool)
    requires UsesSide(t) && !sys.down ==> InTable(sys'.pool, Borrowed(t).value)
    ensures SidesStay(sys')
  {
    if !sys.down {
      forall j | 0 <= j < |sys'.tasks| && UsesSide(sys'.tasks[j]) ensures InTable(sys'.pool, Borrowed(sys'.tasks[j]).value) {
        if j != i {
          assert Borrowed(sys.tasks[j]).value in Held(sys.tasks);
        }
      }
    }
  }

  lemma TableKept(sys: System, p: Pool)
    requires p.secondary == sys.pool.secondary
    ensures UsedStay(sys, p)
  {
    forall c | InTable(sys.pool, c) ensures InTable(p, c) {
      var db :| db in sys.pool.secondary && sys.pool.secondary[db].conn == c;
      assert db in p.secondary && p.secondary[db].conn == c;
    }
  }

  lemma LeasingStays(sys: System, i: nat, t: Task, choice: Choice)
    requires SidesStay(sys) && i < |sys.tasks| && Leasing(t)
    ensures SidesStay(LeasingWindow(sys, i, t, choice))
  {
    var sys' := LeasingWindow(sys, i, t, choice);
    TableKept(sys, sys'.pool);
    NextStays(sys, i, sys'.tasks[i], sys');
  }

  lemma TouchStays(sys: System, db: Database, p: Pool)
    requires p == TouchSecondary(sys.pool, db, sys.clock).0
    ensures UsedStay(sys, p)
    ensures db in sys.pool.secondary ==> InTable(p, sys.pool.secondary[db].conn)
  {
    forall c | InTable(sys.pool, c) ensures InTable(p, c) {
      var other :| other in sys.pool.secondary && sys.pool.secondary[other].conn == c;
      assert other in p.secondary && p.secondary[other].conn == c;
    }
    assert db in sys.pool.secondary ==> p.secondary[db].conn == sys.pool.secondary[db].conn;
  }

  lemma InsertStays(sys: System, db: Database, c: ConnId, p: Pool)
    requires p == InsertSecondary(sys.pool, db, c, sys.clock).0
    ensures UsedStay(sys, p)
    ensures InTable(p, if db in sys.pool.secondary then sys.pool.secondary[db].conn else c)
  {
    if db in sys.pool.secondary {
      TouchStays(sys, db, p);
    } else {
      forall d | InTable(sys.pool, d) ensures InTable(p, d) {
        var other :| other in sys.pool.secondary && sys.pool.secondary[other].conn == d;
        assert other in p.secondary && p.secondary[other].conn == d;
      }
      assert p.secondary[db].conn == c;
    }
  }

  lemma SidingStays(sys: System, i: nat, t: Task, choice: Choice)
    requires SidesStay(sys) && i < |sys.tasks| && sys.tasks[i] == t && Siding(t)
    ensures SidesStay(SidingWindow(sys, i, t, choice))
  {
    var sys' := SidingWindow(sys, i, t, choice);
    if t.Finding? {
      TouchStays(sys, t.db, sys'.pool);
    } else if t.Inserting? {
      InsertStays(sys, t.db, t.c, sys'.pool);
    } else {
      TableKept(sys, sys'.pool);
    }
    NextStays(sys, i, sys'.tasks[i], sys');
  }

  lemma ReleasingStays(sys: System, i: nat, t: Task, choice: Choice)
    requires SidesStay(sys) && i < |sys.tasks| && Releasing(t)
    ensures SidesStay(ReleasingWindow(sys, i, t, choice))
  {
    var sys' := ReleasingWindow(sys, i, t, choice);
    TableKept(sys, sys'.pool);
    NextStays(sys, i, sys'.tasks[i], sys');
  }

  lemma EvictSecondaryStays(sys: System, i: nat, now: nat)
    requires SidesStay(sys) && i < |sys.tasks|
    ensures SidesStay(EvictSecondaryWindow(sys, i, now))
  {
    var sys' := EvictSecondaryWindow(sys, i, now);
    forall c | c in Held(sys.tasks) && InTable(sys.pool, c) ensures InTable(sys'.pool, c) {
      var db :| db in sys.pool.secondary && sys.pool.secondary[db].conn == c;
      assert db in sys'.pool.secondary && sys'.pool.secondary[db].conn == c;
    }
    NextStays(sys, i, sys'.tasks[i], sys');
  }

  lemma SweepingStays(sys: System, i: nat, t: Task)
    requires SidesStay(sys) && i < |sys.tasks| && Sweeping(t)
    ensures SidesStay(SweepingWindow(sys, i, t))
  {
    if t.EvictingSecondary? {
      EvictSecondaryStays(sys, i, t.now);
    } else if t.Evicting? || t.Settling? {
      var sys' := SweepingWindow(sys, i, t);
      TableKept(sys, sys'.pool);
      NextStays(sys, i, sys'.tasks[i], sys');
    }
  }

  lemma WindowStays(sys: System, i: nat, choice: Choice)
    requires SidesStay(sys) && i < |sys.tasks|
    ensures SidesStay(Window(sys, i, choice))
  {
    var t := sys.tasks[i];
    if Leasing(t) {
      LeasingStays(sys, i, t, choice);
    } else if Siding(t) {
      SidingStays(sys, i, t, choice);
    } else if Releasing(t) {
      ReleasingStays(sys, i, t, choice);
    } else if Sweeping(t) {
      SweepingStays(sys, i, t);
    } else {
      var sys' := Window(sys, i, choice);
      TableKept(sys, sys'.pool);
      assert sys'.tasks[i].Done?;
      NextStays(sys, i, sys'.tasks[i], sys');
    }
  }

  // ----- Every run -----

  ghost predicate Sound(sys: System) {
    Placed(sys) && Counted(sys) && Timed(sys) && SidesStay(sys)
  }

  lemma BeginSound(sys: System, call: Call)
    requires Sound(sys)
    ensures Sound(Apply(sys, Begin(call)))
  {
    var t := Entered(sys, call);
    assert Slots(t) == 0 && Borrowed(t).None?;
    InFlightAppend(sys.tasks, t);
  }

  lemma StepSound(sys: System, i: nat, choice: Choice)
    requires Sound(sys) && i < |sys.tasks|
    ensures Sound(Window(sys, i, choice))
  {
    WindowPlaced(sys, i, choice);
    WindowCounted(sys, i, choice);
    WindowTimed(sys, i, choice);
    WindowStays(sys, i, choice);
  }

  lemma {:induction false} ReachSound(cfg: Config, evs: seq<Event>)
    requires cfg.maxSize > 0
    ensures Sound(Reach(cfg, evs)) && Reach(cfg, evs).cfg == cfg
  {
    if evs == [] {
      assert InFlight([]) == 0;
    } else {
      var sys, ev := Reach(cfg, evs[..|evs| - 1]), evs[|evs| - 1];
      ReachSound(cfg, evs[..|evs| - 1]);
      ConfigStays(sys, ev);
      match ev
      case Begin(call) => BeginSound(sys, call);
      case Step(i, choice) => if i < |sys.tasks| { StepSound(sys, i, choice); }
      case Tick(_) =>
    }
  }

  lemma ConfigStays(sys: System, ev: Event)
    ensures Apply(sys, ev).cfg == sys.cfg
  {
  }

  predicate AllDone(sys: System) {
    forall i :: 0 <= i < |sys.tasks| ==> sys.tasks[i].Done?
  }

  /**
   Before shutdown every slot the pool counts is a connection in one of its tables, a slot some
   call in flight accounts for, or a connection lost to an overwritten lease; once all calls have
   ended only the first and the last are left.
   */
  predicate SlotsConserved(sys: System) {
    !sys.down ==>
      && sys.pool.total == Registered(sys.pool) + InFlight(sys.tasks) + |sys.orphans|
      && (AllDone(sys) ==> sys.pool.total == Registered(sys.pool) + |sys.orphans|)
  }

  /** Slot conservation under every interleaving. */
  lemma SlotsAreConserved(cfg: Config, evs: seq<Event>)
    requires cfg.maxSize > 0
    ensures SlotsConserved(Reach(cfg, evs))
  {
    ReachSound(cfg, evs);
    var sys := Reach(cfg, evs);
    if AllDone(sys) {
      NoneInFlight(sys.tasks);
    }
  }

  /** The counter is within the maximum, shutdown or not, and before shutdown so are the tables. */
  predicate WithinLimit(sys: System) {
    sys.pool.total <= sys.cfg.maxSize && (!sys.down ==> Registered(sys.pool) <= sys.cfg.maxSize)
  }

  lemma NeverTooMany(cfg: Config, evs: seq<Event>)
    requires cfg.maxSize > 0
    ensures Reach(cfg, evs).cfg == cfg && WithinLimit(Reach(cfg, evs))
  {
    ReachSound(cfg, evs);
  }

  predicate NoneSaturates(sys: System) {
    !sys.down ==> forall i :: 0 <= i < |sys.tasks| ==> Subtracts(sys, sys.tasks[i]) <= sys.pool.total
  }

  /** Before shutdown no saturating subtraction saturates, whichever call goes next. */
  lemma NothingSaturates(cfg: Config, evs: seq<Event>)
    requires cfg.maxSize > 0
    ensures NoneSaturates(Reach(cfg, evs))
  {
    ReachSound(cfg, evs);
    var sys := Reach(cfg, evs);
    if !sys.down {
      forall i | 0 <= i < |sys.tasks| ensures Subtracts(sys, sys.tasks[i]) <= sys.pool.total {
        ConservedCovers(sys, i);
      }
    }
  }

  // ----- The counter across shutdown -----

  /** What an event does to the drift of the counter. */
  function ShiftOf(sys: System, ev: Event): int {
    if ev.Step? && ev.i < |sys.tasks| then Shift(sys, sys.tasks[ev.i]) else 0
  }

  function TotalShift(cfg: Config, evs: seq<Event>): int {
    if evs == [] then 0
    else
      var front := evs[..|evs| - 1];
      TotalShift(cfg, front) + ShiftOf(Reach(cfg, front), evs[|evs| - 1])
  }

  lemma EnteredHasNoSlots(sys: System, call: Call)
    ensures Slots(Entered(sys, call)) == 0 && Borrowed(Entered(sys, call)).None?
  {
  }

  lemma AppendDrift(sys: System, t: Task)
    requires Slots(t) == 0
    ensures Drift(sys.(tasks := sys.tasks + [t])) == Drift(sys)
  {
    InFlightAppend(sys.tasks, t);
  }

  lemma BeginDrift(sys: System, call: Call)
    ensures Drift(Apply(sys, Begin(call))) == Drift(sys)
  {
    EnteredHasNoSlots(sys, call);
    AppendDrift(sys, Entered(sys, call));
  }

  /**
   The counter of any state of any run, shut down or not, is off by what its windows made it:
   nothing but the windows of shutdown and subtractions that stopped at zero.
   */
  lemma {:induction false} DriftIsTotalShift(cfg: Config, evs: seq<Event>)
    requires cfg.maxSize > 0
    ensures Drift(Reach(cfg, evs)) == TotalShift(cfg, evs)
  {
    if evs == [] {
      assert InFlight([]) == 0;
    } else {
      var front, ev := evs[..|evs| - 1], evs[|evs| - 1];
      var sys := Reach(cfg, front);
      DriftIsTotalShift(cfg, front);
      ReachSound(cfg, front);
      match ev
      case Begin(call) => BeginDrift(sys, call);
      case Step(i, choice) => if i < |sys.tasks| { WindowDrift(sys, i, choice); }
      case Tick(_) =>
    }
  }

  /** The event is a window of shutdown that meets something it does not count. */
  predicate MiscountsAt(sys: System, ev: Event) {
    ev.Step? && ev.i < |sys.tasks| && Miscounts(sys, sys.tasks[ev.i])
  }

  predicate NeverMiscounts(cfg: Config, evs: seq<Event>) {
    evs == [] || (NeverMiscounts(cfg, evs[..|evs| - 1]) && !MiscountsAt(Reach(cfg, evs[..|evs| - 1]), evs[|evs| - 1]))
  }

  predicate ConservedThroughout(cfg: Config, evs: seq<Event>) {
    Conserved(Reach(cfg, evs)) && (evs == [] || ConservedThroughout(cfg, evs[..|evs| - 1]))
  }

  lemma EventConservesIff(sys: System, ev: Event)
    requires Placed(sys) && Conserved(sys)
    ensures Conserved(Apply(sys, ev)) <==> !MiscountsAt(sys, ev)
  {
    match ev
    case Begin(call) => BeginDrift(sys, call);
    case Step(i, choice) => if i < |sys.tasks| { KeepsConservedIff(sys, i, choice); }
    case Tick(_) =>
  }

  /**
   The counter is right all along a run exactly when no window of shutdown meets a slot in
   flight, an orphan or a side connection. Before shutdown and after it every other window of
   every call keeps it right.
   */
  lemma {:induction false} ConservedThroughoutIff(cfg: Config, evs: seq<Event>)
    requires cfg.maxSize > 0
    ensures ConservedThroughout(cfg, evs) <==> NeverMiscounts(cfg, evs)
  {
    if evs == [] {
      assert InFlight([]) == 0;
    } else {
      var front, ev := evs[..|evs| - 1], evs[|evs| - 1];
      ConservedThroughoutIff(cfg, front);
      if NeverMiscounts(cfg, front) {
        ReachSound(cfg, front);
        EventConservesIff(Reach(cfg, front), ev);
      }
    }
  }

  lemma ShutdownWindows(sys: System, i: nat, first: Choice, second: Choice)
    requires i < |sys.tasks| && sys.tasks[i] == Draining
    ensures Apply(Apply(sys, Step(i, first)), Step(i, second)) == DrainSecondaryWindow(DrainWindow(sys, i), i)
  {
    var mid := DrainWindow(sys, i);
    assert Window(sys, i, first) == mid && mid.tasks[i] == DrainingSecondary;
  }

  lemma ReachTwo(cfg: Config, evs: seq<Event>, ev: Event, ev': Event)
    ensures Reach(cfg, evs + [ev] + [ev']) == Apply(Apply(Reach(cfg, evs), ev), ev')
  {
    var one := evs + [ev];
    assert one[..|evs|] == evs && (one + [ev'])[..|one|] == one;
  }

  /**
   Shutdown with no other call between its two windows, at the end of any run: the counter is
   right afterwards exactly when no slot was in flight and none was lost.
   */
  lemma ShutdownAtOnceIff(cfg: Config, evs: seq<Event>, i: nat, first: Choice, second: Choice)
    requires i < |Reach(cfg, evs).tasks| && Reach(cfg, evs).tasks[i] == Draining
    ensures Conserved(Reach(cfg, evs + [Step(i, first)] + [Step(i, second)])) <==>
            InFlight(Reach(cfg, evs).tasks) == 0 && Reach(cfg, evs).orphans == {}
  {
    ReachTwo(cfg, evs, Step(i, first), Step(i, second));
    ShutdownWindows(Reach(cfg, evs), i, first, second);
    ShutdownConservesIff(Reach(cfg, evs), i);
  }

  /** A place where the pool, or a call that is moving it, has a connection. */
  datatype Place = InIdle(k: nat) | InLease(s: SessionId) | InSecondary(db: Database) | InTask(i: nat) | InOrphans(c: ConnId)

  function ConnAt(sys: System, p: Place): Option<ConnId> {
    match p
    case InIdle(k) => if k < |sys.pool.idle| then Some(sys.pool.idle[k].conn) else None
    case InLease(s) => if s in sys.pool.leased then Some(sys.pool.leased[s]) else None
    case InSecondary(db) => if db in sys.pool.secondary then Some(sys.pool.secondary[db].conn) else None
    case InTask(i) => if i < |sys.tasks| then Carried(sys.tasks[i]) else None
    case InOrphans(c) => if c in sys.orphans then Some(c) else None
  }

  function HomeOf(p: Place): Home {
    match p
    case InIdle(_) => AtIdle
    case InLease(s) => AtLease(s)
    case InSecondary(db) => AtBrowser(db)
    case InTask(i) => AtTask(i)
    case InOrphans(_) => Orphaned
  }

  lemma PlaceIsHome(sys: System, p: Place)
    requires Placed(sys) && ConnAt(sys, p).Some?
    ensures At(sys.home, ConnAt(sys, p).value, HomeOf(p))
  {
  }

  /** In every state no connection has two owners: different places have different connections. */
  lemma OneOwner(cfg: Config, evs: seq<Event>, p: Place, q: Place)
    requires cfg.maxSize > 0 && p != q
    ensures var sys := Reach(cfg, evs); ConnAt(sys, p).Some? ==> ConnAt(sys, p) != ConnAt(sys, q)
  {
    ReachSound(cfg, evs);
    var sys := Reach(cfg, evs);
    if ConnAt(sys, p).Some? && ConnAt(sys, q).Some? {
      PlaceIsHome(sys, p);
      PlaceIsHome(sys, q);
    }
  }

  /** Leasing takes the last entry, and none was released later. */
  predicate TakesYoungest(p: Pool) {
    p.idle != [] ==>
      && PopIdle(p).1 == Some(p.idle[|p.idle| - 1].conn)
      && forall k :: 0 <= k < |p.idle| ==> p.idle[k].since <= p.idle[|p.idle| - 1].since
  }

  lemma YoungestIsLast(p: Pool)
    requires Sorted(p.idle)
    ensures TakesYoungest(p)
  {
  }

  /** On every run the idle list is in order of release, so leasing takes the connection released last. */
  lemma LeaseTakesYoungest(cfg: Config, evs: seq<Event>)
    requires cfg.maxSize > 0
    ensures Sorted(Reach(cfg, evs).pool.idle) && TakesYoungest(Reach(cfg, evs).pool)
  {
    ReachSound(cfg, evs);
    YoungestIsLast(Reach(cfg, evs).pool);
  }

  /** Eviction of `p` leaves `q`: `a` entries are aged, the floor of them and the young stay, slots go with the rest, and once is enough. */
  predicate EvictsTo(p: Pool, now: nat, cfg: Config, a: nat, q: Pool) {
    && AgedFront(p.idle, now, cfg, a)
    && q.idle == p.idle[..Min(a, cfg.minIdle)] + p.idle[a..]
    && |q.idle| >= Min(|p.idle|, cfg.minIdle)
    && q.total + |p.idle| == p.total + |q.idle|
    && EvictIdle(q, now, cfg) == (q, [])
  }

  /** Eviction, at any point of any run before shutdown. */
  lemma EvictionOnRuns(cfg: Config, evs: seq<Event>, now: nat) returns (a: nat)
    requires cfg.maxSize > 0
    ensures !Reach(cfg, evs).down ==>
              EvictsTo(Reach(cfg, evs).pool, now, cfg, a, EvictIdle(Reach(cfg, evs).pool, now, cfg).0)
  {
    ReachSound(cfg, evs);
    var sys := Reach(cfg, evs);
    a := 0;
    if !sys.down {
      a := EvictionPolicy(sys.pool, now, cfg);
      EvictionIsIdempotent(sys.pool, now, cfg);
    }
  }

  /** Until shutdown, a browser operation never sees its side connection evicted. */
  lemma SideInUseStays(cfg: Config, evs: seq<Event>)
    requires cfg.maxSize > 0
    ensures SidesStay(Reach(cfg, evs))
  {
    ReachSound(cfg, evs);
  }
}
