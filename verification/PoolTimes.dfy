/**
 How long connections stay: no eviction takes an idle connection before its timeout has passed
 since it was last released, or a side connection since it was last used, on any run.

 When a connection was released, and when a database was browsed, is read off the run itself,
 not off the entries of the pool.
 */
module PoolTimes {
  import opened Basics
  import opened Wrappers
  import opened PoolState
  import opened PoolRuns
  import opened PoolCounts
  import opened PoolSafety

  // ----- Releases and uses, read off the run -----

  /** The event puts connection `c` back into the idle list. */
  predicate Returns(sys: System, ev: Event, c: ConnId) {
    ev.Step? && ev.i < |sys.tasks| && sys.tasks[ev.i].Returning? && sys.tasks[ev.i].c == c
  }

  /** The event finds the side connection of `db`, or puts one there. */
  predicate Uses(sys: System, ev: Event, db: Database) {
    && ev.Step? && ev.i < |sys.tasks|
    && match sys.tasks[ev.i]
       case Finding(other) => other == db && db in sys.pool.secondary
       case Inserting(other, _) => other == db
       case _ => false
  }

  /** When `c` was last released; the first connection counts as released when the pool was made. */
  function ReleasedAt(cfg: Config, evs: seq<Event>, c: ConnId): Option<nat> {
    if evs == [] then if c == 0 then Some(0) else None
    else
      var front, ev := evs[..|evs| - 1], evs[|evs| - 1];
      if Returns(Reach(cfg, front), ev, c) then Some(Reach(cfg, front).clock) else ReleasedAt(cfg, front, c)
  }

  /** When the side connection of `db` was last asked for. */
  function UsedAt(cfg: Config, evs: seq<Event>, db: Database): Option<nat> {
    if evs == [] then None
    else
      var front, ev := evs[..|evs| - 1], evs[|evs| - 1];
      if Uses(Reach(cfg, front), ev, db) then Some(Reach(cfg, front).clock) else UsedAt(cfg, front, db)
  }

  // ----- What a window does to the times on record -----

  /** Every idle entry was there before, or has just been put there. */
  predicate IdleFrom(sys: System, ev: Event, idle: seq<Entry>) {
    forall e :: e in idle ==> e in sys.pool.idle || (Returns(sys, ev, e.conn) && e.since == sys.clock)
  }

  /** A side entry is as it was, or has just been used. */
  predicate SidesFrom(sys: System, ev: Event, secondary: map<Database, Entry>) {
    forall db :: db in secondary ==>
      if Uses(sys, ev, db) then secondary[db].since == sys.clock
      else db in sys.pool.secondary && secondary[db] == sys.pool.secondary[db]
  }

  lemma LeasingFrom(sys: System, i: nat, t: Task, choice: Choice)
    requires i < |sys.tasks| && sys.tasks[i] == t && Leasing(t)
    ensures var p := LeasingWindow(sys, i, t, choice).pool;
            IdleFrom(sys, Step(i, choice), p.idle) && SidesFrom(sys, Step(i, choice), p.secondary)
  {
  }

  lemma SidingFrom(sys: System, i: nat, t: Task, choice: Choice)
    requires i < |sys.tasks| && sys.tasks[i] == t && Siding(t)
    ensures var p := SidingWindow(sys, i, t, choice).pool;
            IdleFrom(sys, Step(i, choice), p.idle) && SidesFrom(sys, Step(i, choice), p.secondary)
  {
  }

  lemma ReleasingFrom(sys: System, i: nat, t: Task, choice: Choice)
    requires i < |sys.tasks| && sys.tasks[i] == t && Releasing(t)
    ensures var p := ReleasingWindow(sys, i, t, choice).pool;
            IdleFrom(sys, Step(i, choice), p.idle) && SidesFrom(sys, Step(i, choice), p.secondary)
  {
  }

  lemma SweepingFrom(sys: System, i: nat, t: Task, choice: Choice)
    requires i < |sys.tasks| && sys.tasks[i] == t && Sweeping(t) && Timed(sys)
    ensures var p := SweepingWindow(sys, i, t).pool;
            IdleFrom(sys, Step(i, choice), p.idle) && SidesFrom(sys, Step(i, choice), p.secondary)
  {
    if t.Evicting? {
      KeptIsSorted(sys.pool.idle, t.now, sys.cfg);
    }
  }

  lemma WindowFrom(sys: System, i: nat, choice: Choice)
    requires i < |sys.tasks| && Timed(sys)
    ensures var p := Window(sys, i, choice).pool;
            IdleFrom(sys, Step(i, choice), p.idle) && SidesFrom(sys, Step(i, choice), p.secondary)
  {
    var t := sys.tasks[i];
    if Leasing(t) {
      LeasingFrom(sys, i, t, choice);
    } else if Siding(t) {
      SidingFrom(sys, i, t, choice);
    } else if Releasing(t) {
      ReleasingFrom(sys, i, t, choice);
    } else if Sweeping(t) {
      SweepingFrom(sys, i, t, choice);
    }
  }

  lemma ApplyFrom(sys: System, ev: Event)
    requires Timed(sys)
    ensures var p := Apply(sys, ev).pool; IdleFrom(sys, ev, p.idle) && SidesFrom(sys, ev, p.secondary)
  {
    if ev.Step? && ev.i < |sys.tasks| {
      WindowFrom(sys, ev.i, ev.choice);
    }
  }

  /** No eviction looks into the future. */
  predicate SweepsInTime(sys: System) {
    forall i :: 0 <= i < |sys.tasks| ==>
      && (sys.tasks[i].Evicting? ==> sys.tasks[i].now <= sys.clock)
      && (sys.tasks[i].EvictingSecondary? ==> sys.tasks[i].now <= sys.clock)
  }

  /** A window moves its own task on; only an eviction of idle connections goes on to one of side connections. */
  predicate MovesOn(sys: System, i: nat, sys': System)
    requires i < |sys.tasks|
  {
    && sys'.clock == sys.clock && |sys'.tasks| == |sys.tasks|
    && (forall j :: 0 <= j < |sys.tasks| && j != i ==> sys'.tasks[j] == sys.tasks[j])
    && !sys'.tasks[i].Evicting?
    && (sys'.tasks[i].EvictingSecondary? ==> sys.tasks[i].Evicting? && sys'.tasks[i].now == sys.tasks[i].now)
  }

  lemma LeasingMovesOn(sys: System, i: nat, t: Task, choice: Choice)
    requires i < |sys.tasks| && sys.tasks[i] == t && Leasing(t)
    ensures MovesOn(sys, i, LeasingWindow(sys, i, t, choice))
  {
  }

  lemma SidingMovesOn(sys: System, i: nat, t: Task, choice: Choice)
    requires i < |sys.tasks| && sys.tasks[i] == t && Siding(t)
    ensures MovesOn(sys, i, SidingWindow(sys, i, t, choice))
  {
  }

  lemma OthersMoveOn(sys: System, i: nat, t: Task, choice: Choice)
    requires i < |sys.tasks| && sys.tasks[i] == t
    ensures Releasing(t) ==> MovesOn(sys, i, ReleasingWindow(sys, i, t, choice))
    ensures Sweeping(t) ==> MovesOn(sys, i, SweepingWindow(sys, i, t))
  {
  }

  lemma WindowMovesOn(sys: System, i: nat, choice: Choice)
    requires i < |sys.tasks| && SweepsInTime(sys)
    ensures MovesOn(sys, i, Window(sys, i, choice)) || Window(sys, i, choice) == sys
  {
    var t := sys.tasks[i];
    if Leasing(t) {
      LeasingMovesOn(sys, i, t, choice);
    } else if Siding(t) {
      SidingMovesOn(sys, i, t, choice);
    } else if Releasing(t) || Sweeping(t) {
      OthersMoveOn(sys, i, t, choice);
    }
  }

  lemma ApplySweepsInTime(sys: System, ev: Event)
    requires SweepsInTime(sys)
    ensures SweepsInTime(Apply(sys, ev))
  {
    if ev.Step? && ev.i < |sys.tasks| {
      WindowMovesOn(sys, ev.i, ev.choice);
    }
  }

  // ----- Runs -----

  /** The times in the pool are those of the run. */
  ghost predicate OnRecord(cfg: Config, evs: seq<Event>, sys: System) {
    && (forall e :: e in sys.pool.idle ==> ReleasedAt(cfg, evs, e.conn) == Some(e.since))
    && (forall db :: db in sys.pool.secondary ==> UsedAt(cfg, evs, db) == Some(sys.pool.secondary[db].since))
  }

  /** An idle connection is not the one a call is putting back. */
  lemma IdleIsNotCarried(sys: System, ev: Event, e: Entry)
    requires Placed(sys) && e in sys.pool.idle
    ensures !Returns(sys, ev, e.conn)
  {
    var k :| 0 <= k < |sys.pool.idle| && sys.pool.idle[k] == e;
    assert At(sys.home, sys.pool.idle[k].conn, AtIdle);
    assert forall i :: 0 <= i < |sys.tasks| && sys.tasks[i].Returning? ==> Carried(sys.tasks[i]) == Some(sys.tasks[i].c);
  }

  lemma ReachLast(cfg: Config, evs: seq<Event>)
    requires evs != []
    ensures Reach(cfg, evs) == Apply(Reach(cfg, evs[..|evs| - 1]), evs[|evs| - 1])
  {
  }

  lemma {:induction false} StaysOnRecord(cfg: Config, evs: seq<Event>, sys: System, sys': System)
    requires evs != [] && sys == Reach(cfg, evs[..|evs| - 1]) && Placed(sys)
    requires OnRecord(cfg, evs[..|evs| - 1], sys)
    requires IdleFrom(sys, evs[|evs| - 1], sys'.pool.idle) && SidesFrom(sys, evs[|evs| - 1], sys'.pool.secondary)
    ensures OnRecord(cfg, evs, sys')
  {
    hide Reach, Placed;
    forall e | e in sys'.pool.idle ensures ReleasedAt(cfg, evs, e.conn) == Some(e.since) {
      if e in sys.pool.idle {
        IdleIsNotCarried(sys, evs[|evs| - 1], e);
      }
    }
  }

  lemma {:induction false} TimesAreOnRecord(cfg: Config, evs: seq<Event>)
    requires cfg.maxSize > 0
    ensures OnRecord(cfg, evs, Reach(cfg, evs)) && SweepsInTime(Reach(cfg, evs))
  {
    if evs != [] {
      hide Reach, Apply, OnRecord, SweepsInTime, Sound, IdleFrom, SidesFrom;
      var front, ev := evs[..|evs| - 1], evs[|evs| - 1];
      var sys := Reach(cfg, front);
      TimesAreOnRecord(cfg, front);
      ReachLast(cfg, evs);
      IsPlacedAndTimed(cfg, front);
      ApplyFrom(sys, ev);
      StaysOnRecord(cfg, evs, sys, Apply(sys, ev));
      ApplySweepsInTime(sys, ev);
    }
  }

  lemma IsPlacedAndTimed(cfg: Config, evs: seq<Event>)
    requires cfg.maxSize > 0
    ensures Placed(Reach(cfg, evs)) && Timed(Reach(cfg, evs)) && Reach(cfg, evs).cfg == cfg
  {
    ReachSound(cfg, evs);
  }

  predicate HasConn(idle: seq<Entry>, c: ConnId) {
    exists e :: e in idle && e.conn == c
  }

  /** In a list without repetition, cutting out a stretch takes just the connections in it. */
  lemma CutOut(idle: seq<Entry>, m: nat, a: nat, k: nat)
    requires m <= a <= |idle| && k < |idle|
    requires forall i, j :: 0 <= i < j < |idle| ==> idle[i].conn != idle[j].conn
    ensures HasConn(idle[..m] + idle[a..], idle[k].conn) <==> !(m <= k < a)
  {
    var rest := idle[..m] + idle[a..];
    if m <= k < a {
      forall e | e in rest ensures e.conn != idle[k].conn {
        var j :| 0 <= j < |rest| && rest[j] == e;
        assert rest[j] == if j < m then idle[j] else idle[j - m + a];
      }
    } else {
      assert rest[if k < m then k else k - a + m] == idle[k];
      assert idle[k] in rest;
    }
  }

  /**
   An eviction takes the connection at place `k` of the idle list exactly if, when the eviction began, that
   connection had been released the idle timeout ago or longer, and the floor's number of connections stand
   before it. So none goes before its time.
   */
  lemma IdleWaits(cfg: Config, evs: seq<Event>, i: nat, choice: Choice, k: nat) returns (t: nat)
    requires cfg.maxSize > 0 && i < |Reach(cfg, evs).tasks| && Reach(cfg, evs).tasks[i].Evicting?
    requires k < |Reach(cfg, evs).pool.idle|
    ensures var sys := Reach(cfg, evs);
            var c := sys.pool.idle[k].conn;
            var gone := !HasConn(Apply(sys, Step(i, choice)).pool.idle, c);
            && ReleasedAt(cfg, evs, c) == Some(t)
            && (gone <==> LongAgo(t, sys.tasks[i].now, cfg.idleTimeout) && k >= cfg.minIdle)
            && (gone ==> LongAgo(t, sys.clock, cfg.idleTimeout))
  {
    hide Reach, ReleasedAt;
    var sys := Reach(cfg, evs);
    IsPlacedAndTimed(cfg, evs);
    TimesAreOnRecord(cfg, evs);
    t := sys.pool.idle[k].since;
    assert sys.pool.idle[k] in sys.pool.idle;
    EvictStep(sys, i, choice, k);
  }

  lemma EvictStep(sys: System, i: nat, choice: Choice, k: nat)
    requires Placed(sys) && Timed(sys) && i < |sys.tasks| && sys.tasks[i].Evicting? && k < |sys.pool.idle|
    ensures var e := sys.pool.idle[k];
            !HasConn(Apply(sys, Step(i, choice)).pool.idle, e.conn) <==>
            LongAgo(e.since, sys.tasks[i].now, sys.cfg.idleTimeout) && k >= sys.cfg.minIdle
  {
    var m, a := EvictionInNumbers(sys.pool, sys.tasks[i].now, sys.cfg);
    CutOut(sys.pool.idle, m, a, k);
  }

  /** The same for a side connection: it goes exactly if its database was last browsed that long ago and no call holds it. */
  lemma SideWaits(cfg: Config, evs: seq<Event>, i: nat, choice: Choice, db: Database) returns (t: nat)
    requires cfg.maxSize > 0 && i < |Reach(cfg, evs).tasks| && Reach(cfg, evs).tasks[i].EvictingSecondary?
    requires db in Reach(cfg, evs).pool.secondary
    ensures var sys := Reach(cfg, evs);
            var gone := db !in Apply(sys, Step(i, choice)).pool.secondary;
            && UsedAt(cfg, evs, db) == Some(t)
            && (gone <==> LongAgo(t, sys.tasks[i].now, cfg.idleTimeout) && sys.pool.secondary[db].conn !in Held(sys.tasks))
            && (gone ==> LongAgo(t, sys.clock, cfg.idleTimeout))
  {
    hide Reach, UsedAt;
    var sys := Reach(cfg, evs);
    IsPlacedAndTimed(cfg, evs);
    TimesAreOnRecord(cfg, evs);
    t := sys.pool.secondary[db].since;
    SideStep(sys, i, choice, db);
  }

  lemma SideStep(sys: System, i: nat, choice: Choice, db: Database)
    requires i < |sys.tasks| && sys.tasks[i].EvictingSecondary? && db in sys.pool.secondary
    ensures var e := sys.pool.secondary[db];
            db !in Apply(sys, Step(i, choice)).pool.secondary <==>
            LongAgo(e.since, sys.tasks[i].now, sys.cfg.idleTimeout) && e.conn !in Held(sys.tasks)
  {
    SideEvictionInNumbers(sys.pool, sys.tasks[i].now, sys.cfg, Held(sys.tasks), db);
  }
}
