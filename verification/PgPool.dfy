/**
 The connection pool as an object: the source's fields, its windows, and its calls run
 without interruption. Opening a connection is an argument: the connection, or nothing
 when the attempt fails.
 */
module PgPool {
  import opened Basics
  import opened Wrappers
  import opened PoolState

  const BROWSER_SESSION_ID: SessionId := "_browser"

  const DEFAULT_MAX_POOL_SIZE: nat := 5
  const DEFAULT_IDLE_TIMEOUT: nat := 300
  const DEFAULT_MIN_IDLE_CONNECTIONS: nat := 1

  /** The profile's overrides on top of the defaults; a maximum of zero counts as none given. */
  function Configure(maxPoolSize: Option<nat>, idleTimeout: Option<nat>, minIdle: Option<nat>, database: Database): (cfg: Config)
    ensures cfg.maxSize > 0
  {
    Config(
      if maxPoolSize.Some? && maxPoolSize.value > 0 then maxPoolSize.value else DEFAULT_MAX_POOL_SIZE,
      if idleTimeout.Some? then idleTimeout.value else DEFAULT_IDLE_TIMEOUT,
      if minIdle.Some? then minIdle.value else DEFAULT_MIN_IDLE_CONNECTIONS,
      database)
  }

  datatype LeaseError = Connect | PoolExhausted(total: nat, maxSize: nat)

  /** What leasing comes to when no other call runs in between. */
  function LeaseAlone(p: Pool, cfg: Config, s: SessionId, dialed: Option<ConnId>): (r: (Pool, Result<ConnId, LeaseError>)) {
    if s in p.leased then (p, Ok(p.leased[s]))
    else if p.idle != [] then
      var last := |p.idle| - 1;
      (p.(idle := p.idle[..last], leased := p.leased[s := p.idle[last].conn]), Ok(p.idle[last].conn))
    else if Full(p, cfg) then (p, Err(PoolExhausted(p.total, cfg.maxSize)))
    else
      match dialed
      case None => (p, Err(Connect))
      case Some(c) => (p.(total := p.total + 1, leased := p.leased[s := c]), Ok(c))
  }

  /** The same for a side connection. */
  function BrowseAlone(p: Pool, cfg: Config, db: Database, dialed: Option<ConnId>, now: nat): (r: (Pool, Result<ConnId, LeaseError>)) {
    if db == cfg.database then LeaseAlone(p, cfg, BROWSER_SESSION_ID, dialed)
    else if db in p.secondary then
      (p.(secondary := p.secondary[db := Entry(now, p.secondary[db].conn)]), Ok(p.secondary[db].conn))
    else if Full(p, cfg) then (p, Err(PoolExhausted(p.total, cfg.maxSize)))
    else
      match dialed
      case None => (p, Err(Connect))
      case Some(c) => (p.(total := p.total + 1, secondary := p.secondary[db := Entry(now, c)]), Ok(c))
  }

  /** An override given is what the pool goes by; the defaults are five connections, five minutes and one idle connection. */
  lemma OverridesCount(maxPoolSize: Option<nat>, idleTimeout: Option<nat>, minIdle: Option<nat>, database: Database)
    ensures var cfg := Configure(maxPoolSize, idleTimeout, minIdle, database);
            && (forall n: nat :: maxPoolSize == Some(n) && n > 0 ==> cfg.maxSize == n)
            && (maxPoolSize == None || maxPoolSize == Some(0) ==> cfg.maxSize == 5)
            && (forall n :: idleTimeout == Some(n) ==> cfg.idleTimeout == n) && (idleTimeout == None ==> cfg.idleTimeout == 300)
            && (forall n :: minIdle == Some(n) ==> cfg.minIdle == n) && (minIdle == None ==> cfg.minIdle == 1)
            && cfg.database == database
  {
  }

  /** Leasing fails exactly if it has to open a connection, and the maximum is reached or the connection does not open. */
  lemma LeaseFailsIff(p: Pool, cfg: Config, s: SessionId, dialed: Option<ConnId>)
    ensures var (q, r) := LeaseAlone(p, cfg, s, dialed);
            var opens := s !in p.leased && p.idle == [];
            && (r.Err? <==> opens && (p.total >= cfg.maxSize || dialed.None?))
            && (r.Err? ==> q == p && r.error == if p.total >= cfg.maxSize then PoolExhausted(p.total, cfg.maxSize) else Connect)
            && (r.Ok? ==> s in q.leased && q.leased[s] == r.value && (opens ==> dialed == Some(r.value) && q.total == p.total + 1))
            && (r.Ok? && !opens ==> q.total == p.total)
            && q.secondary == p.secondary
  {
  }

  /** The same of another database; its connection is in the table then, and its time there is now. */
  lemma BrowseFailsIff(p: Pool, cfg: Config, db: Database, dialed: Option<ConnId>, now: nat)
    requires db != cfg.database
    ensures var (q, r) := BrowseAlone(p, cfg, db, dialed, now);
            var opens := db !in p.secondary;
            && (r.Err? <==> opens && (p.total >= cfg.maxSize || dialed.None?))
            && (r.Err? ==> q == p && r.error == if p.total >= cfg.maxSize then PoolExhausted(p.total, cfg.maxSize) else Connect)
            && (r.Ok? ==> db in q.secondary && q.secondary[db] == Entry(now, r.value))
            && (r.Ok? ==> r.value == if opens then dialed.value else p.secondary[db].conn)
            && (r.Ok? ==> q.total == if opens then p.total + 1 else p.total)
            && q.idle == p.idle && q.leased == p.leased
  {
  }

  class PgPool {
    const cfg: Config
    var idle: seq<Entry>
    var leased: map<SessionId, ConnId>
    var total: nat
    var secondary: map<Database, Entry>

    /** `connect`, after its eager first connection. */
    constructor (
      maxPoolSize: Option<nat>, idleTimeout: Option<nat>, minIdle: Option<nat>, database: Database, first: ConnId, now: nat)
      ensures cfg == Configure(maxPoolSize, idleTimeout, minIdle, database) && cfg.maxSize > 0
      ensures State() == Pool([Entry(now, first)], map[], 1, map[])
    {
      cfg := Configure(maxPoolSize, idleTimeout, minIdle, database);
      idle := [Entry(now, first)];
      leased := map[];
      total := 1;
      secondary := map[];
    }

    function State(): Pool
      reads this
    {
      Pool(idle, leased, total, secondary)
    }

    // ----- Windows -----

    method LeasedOnly(s: SessionId) returns (c: Option<ConnId>)
      ensures c == if s in leased then Some(leased[s]) else None
    {
      c := if s in leased then Some(leased[s]) else None;
    }

    method TakeIdle() returns (c: Option<ConnId>)
      modifies this`idle
      ensures (State(), c) == PopIdle(old(State()))
    {
      if idle == [] {
        return None;
      }
      c := Some(idle[|idle| - 1].conn);
      idle := idle[..|idle| - 1];
    }

    method ReserveConnectionSlot() returns (r: Result<(), LeaseError>)
      modifies this`total
      ensures r == if Full(old(State()), cfg) then Err(PoolExhausted(old(total), cfg.maxSize)) else Ok(())
      ensures State() == if r.Ok? then Reserve(old(State()), cfg).value else old(State())
    {
      if total >= cfg.maxSize {
        return Err(PoolExhausted(total, cfg.maxSize));
      }
      total := total + 1;
      return Ok(());
    }

    method ReleaseConnectionSlot()
      modifies this`total
      ensures State() == Unreserve(old(State()))
    {
      total := Less(total);
    }

    method AssignLease(s: SessionId, c: ConnId)
      modifies this`leased
      ensures State() == Assign(old(State()), s, c)
    {
      leased := leased[s := c];
    }

    method RemoveLease(s: SessionId) returns (c: Option<ConnId>)
      modifies this`leased
      ensures (State(), c) == TakeLease(old(State()), s)
    {
      if s in leased {
        c := Some(leased[s]);
        leased := leased - {s};
      } else {
        c := None;
      }
    }

    method ReturnToIdle(c: ConnId, now: nat)
      modifies this`idle
      ensures State() == PushIdle(old(State()), c, now)
    {
      idle := idle + [Entry(now, c)];
    }

    method CachedSecondary(db: Database, now: nat) returns (c: Option<ConnId>)
      modifies this`secondary
      ensures (State(), c) == TouchSecondary(old(State()), db, now)
    {
      if db in secondary {
        c := Some(secondary[db].conn);
        secondary := secondary[db := secondary[db].(since := now)];
      } else {
        c := None;
      }
    }

    /** Another call may have inserted a connection first; then that one is the answer. */
    method AddSecondary(db: Database, c: ConnId, now: nat) returns (existing: Option<ConnId>)
      modifies this`secondary
      ensures (State(), existing) == InsertSecondary(old(State()), db, c, now)
    {
      existing := CachedSecondary(db, now);
      if existing.None? {
        secondary := secondary[db := Entry(now, c)];
      }
    }

    /** The keep-or-drop loop of the eviction, under the metadata lock. */
    method EvictIdleEntries(now: nat) returns (dropped: seq<ConnId>)
      modifies this`idle, this`total
      ensures (State(), dropped) == EvictIdle(old(State()), now, cfg)
    {
      var snapshot := idle;
      var keep: seq<Entry> := [];
      dropped := [];
      var i := 0;
      ghost var allKept, allDropped := Kept(snapshot, now, cfg, 0), Evicted(snapshot, now, cfg, 0);
      assert snapshot[0..] == snapshot;
      while i < |snapshot|
        invariant i <= |snapshot|
        invariant allKept == keep + Kept(snapshot[i..], now, cfg, |keep|)
        invariant allDropped == dropped + Evicted(snapshot[i..], now, cfg, |keep|)
        invariant total == LessBy(old(total), |dropped|)
      {
        var entry := snapshot[i];
        var aged := Aged(entry, now, cfg.idleTimeout);
        assert snapshot[i..] == [entry] + snapshot[i + 1..];
        if !aged || |keep| < cfg.minIdle {
          keep := keep + [entry];
        } else {
          dropped := dropped + [entry.conn];
          total := Less(total);
        }
        i := i + 1;
      }
      assert snapshot[i..] == [];
      assert keep == allKept && dropped == allDropped;
      idle := keep;
    }

    /** Takes the side connections out of the table that are old and have no other owner, and returns one for each database. */
    method TakeUnusedSecondary(now: nat, held: set<ConnId>) returns (dropped: seq<ConnId>)
      modifies this`secondary
      ensures State() == EvictSecondary(old(State()), now, cfg, held)
      ensures |dropped| == |Unused(old(State()), now, cfg, held)|
      ensures forall c :: c in dropped <==>
                exists db :: db in Unused(old(State()), now, cfg, held) && old(secondary)[db].conn == c
    {
      var dropKeys := Unused(State(), now, cfg, held);
      dropped := [];
      ghost var all := dropKeys;
      while dropKeys != {}
        invariant dropKeys <= all <= old(secondary).Keys
        invariant secondary == old(secondary) - (all - dropKeys)
        invariant |dropped| + |dropKeys| == |all|
        invariant forall c :: c in dropped <==> exists db :: db in all - dropKeys && old(secondary)[db].conn == c
        decreases |dropKeys|
      {
        var db :| db in dropKeys;
        assert db in secondary;
        dropped := dropped + [secondary[db].conn];
        assert all - (dropKeys - {db}) == (all - dropKeys) + {db};
        secondary := secondary - {db};
        dropKeys := dropKeys - {db};
      }
      assert all - {} == all;
    }

    method GiveBackSlots(n: nat)
      modifies this`total
      ensures State() == Settle(old(State()), n)
    {
      for i := 0 to n
        invariant total == LessBy(old(total), i)
      {
        total := Less(total);
      }
    }

    // ----- Calls, without interruption -----

    method LeaseForSession(s: SessionId, dialed: Option<ConnId>) returns (r: Result<ConnId, LeaseError>)
      modifies this
      ensures (State(), r) == LeaseAlone(old(State()), cfg, s, dialed)
    {
      var existing := LeasedOnly(s);
      if existing.Some? {
        return Ok(existing.value);
      }
      var fromIdle := TakeIdle();
      if fromIdle.Some? {
        AssignLease(s, fromIdle.value);
        return Ok(fromIdle.value);
      }
      if total >= cfg.maxSize {
        return Err(PoolExhausted(total, cfg.maxSize));
      }
      var reserved := ReserveConnectionSlot();
      if reserved.Err? {
        return Err(reserved.error);
      }
      if dialed.None? {
        ReleaseConnectionSlot();
        return Err(Connect);
      }
      AssignLease(s, dialed.value);
      return Ok(dialed.value);
    }

    method BrowserConnectionFor(database: Option<Database>, dialed: Option<ConnId>, now: nat)
      returns (r: Result<ConnId, LeaseError>)
      modifies this
      ensures (State(), r) ==
              BrowseAlone(old(State()), cfg, if database.Some? then database.value else cfg.database, dialed, now)
    {
      var target := if database.Some? then database.value else cfg.database;
      if target == cfg.database {
        r := LeaseForSession(BROWSER_SESSION_ID, dialed);
        return;
      }
      var cached := CachedSecondary(target, now);
      if cached.Some? {
        return Ok(cached.value);
      }
      var reserved := ReserveConnectionSlot();
      if reserved.Err? {
        return Err(reserved.error);
      }
      if dialed.None? {
        ReleaseConnectionSlot();
        return Err(Connect);
      }
      var existing := AddSecondary(target, dialed.value, now);
      // Without interruption nobody got there first; `PoolRuns` has the case where somebody did.
      assert existing.None?;
      return Ok(dialed.value);
    }

    /** Releasing puts the session's connection back on top of the idle list. */
    method ReleaseSession(s: SessionId, now: nat)
      modifies this
      ensures State() ==
              var (p, c) := TakeLease(old(State()), s);
              if c.Some? then PushIdle(p, c.value, now) else p
    {
      var conn := RemoveLease(s);
      if conn.Some? {
        ReturnToIdle(conn.value, now);
      }
    }

    method Evict(now: nat, held: set<ConnId>)
      modifies this
      ensures var p := EvictIdle(old(State()), now, cfg).0;
              State() == Settle(EvictSecondary(p, now, cfg, held), |Unused(p, now, cfg, held)|)
    {
      var _ := EvictIdleEntries(now);
      var dropped := TakeUnusedSecondary(now, held);
      if dropped == [] {
        return;
      }
      GiveBackSlots(|dropped|);
    }

    method Shutdown() returns (closed: set<ConnId>)
      modifies this
      ensures State() == Pool([], map[], 0, map[])
      ensures closed == (set e | e in old(idle) :: e.conn) + old(leased).Values
                        + (set db | db in old(secondary) :: old(secondary)[db].conn)
    {
      closed := (set e | e in idle :: e.conn) + leased.Values;
      idle, leased, total := [], map[], 0;
      closed := closed + (set db | db in secondary :: secondary[db].conn);
      secondary := map[];
    }
  }

  // ----- Leases are last in, first out -----

  /** Sessions released one after another. */
  function ReleasedAll(p: Pool, ss: seq<SessionId>, now: nat): Pool
    decreases |ss|
  {
    if ss == [] then p
    else
      var (q, c) := TakeLease(p, ss[0]);
      ReleasedAll(if c.Some? then PushIdle(q, c.value, now) else q, ss[1..], now)
  }

  /** Sessions leasing one after another, with nothing to dial: the pool, and what each got. */
  function LeasedAll(p: Pool, cfg: Config, ts: seq<SessionId>): (r: (Pool, seq<Result<ConnId, LeaseError>>))
    decreases |ts|
  {
    if ts == [] then (p, [])
    else
      var (q, r) := LeaseAlone(p, cfg, ts[0], None);
      var (q', rs) := LeasedAll(q, cfg, ts[1..]);
      (q', [r] + rs)
  }

  predicate Distinct(ss: seq<SessionId>) {
    forall i, j :: 0 <= i < j < |ss| ==> ss[i] != ss[j]
  }

  /** The entries the leases of `ss` turn into. */
  function Entries(leased: map<SessionId, ConnId>, ss: seq<SessionId>, now: nat): (es: seq<Entry>)
    requires forall s :: s in ss ==> s in leased
    ensures |es| == |ss|
    ensures forall k :: 0 <= k < |ss| ==> es[k] == Entry(now, leased[ss[k]])
  {
    seq(|ss|, k requires 0 <= k < |ss| => Entry(now, leased[ss[k]]))
  }

  lemma EntriesUnfold(leased: map<SessionId, ConnId>, leased': map<SessionId, ConnId>, ss: seq<SessionId>, now: nat)
    requires ss != [] && forall s :: s in ss ==> s in leased
    requires forall s :: s in ss[1..] ==> s in leased' && leased'[s] == leased[s]
    ensures Entries(leased, ss, now) == [Entry(now, leased[ss[0]])] + Entries(leased', ss[1..], now)
  {
  }

  lemma {:induction false} ReleasedAllForm(p: Pool, ss: seq<SessionId>, now: nat)
    requires Distinct(ss) && forall s :: s in ss ==> s in p.leased
    ensures var q := ReleasedAll(p, ss, now);
            && q.idle == p.idle + Entries(p.leased, ss, now)
            && (forall s :: s in q.leased <==> s in p.leased && s !in ss)
    decreases |ss|
  {
    if ss == [] {
      assert p.idle + Entries(p.leased, [], now) == p.idle;
    } else {
      var s, rest := ss[0], ss[1..];
      assert ss == [s] + rest;
      var q := PushIdle(TakeLease(p, s).0, p.leased[s], now);
      assert forall x :: x in rest ==> x in q.leased && q.leased[x] == p.leased[x];
      ReleasedAllForm(q, rest, now);
      EntriesUnfold(p.leased, q.leased, ss, now);
      Regroup(p.idle, [Entry(now, p.leased[s])], Entries(q.leased, rest, now));
    }
  }

  /** The last `n` connections of a list, from the last one back. */
  function Backwards(es: seq<Entry>, n: nat): (rs: seq<Result<ConnId, LeaseError>>)
    requires n <= |es|
    ensures |rs| == n
  {
    if n == 0 then [] else [Ok(es[|es| - 1].conn)] + Backwards(es[..|es| - 1], n - 1)
  }

  lemma {:induction false} BackwardsAt(es: seq<Entry>, n: nat, k: nat)
    requires k < n <= |es|
    ensures Backwards(es, n)[k] == Ok(es[|es| - 1 - k].conn)
    decreases n
  {
    if k > 0 {
      BackwardsAt(es[..|es| - 1], n - 1, k - 1);
    }
  }

  lemma LeaseFromIdle(p: Pool, cfg: Config, t: SessionId)
    requires t !in p.leased && p.idle != []
    ensures var (q, r) := LeaseAlone(p, cfg, t, None);
            q.idle == p.idle[..|p.idle| - 1] && r == Ok(p.idle[|p.idle| - 1].conn)
            && (forall s :: s in q.leased <==> s in p.leased || s == t)
  {
  }

  /** New sessions are given the entries at the end of the idle list, from the last one back. */
  lemma {:induction false} LeasedAllForm(p: Pool, cfg: Config, ts: seq<SessionId>)
    requires Distinct(ts) && |ts| <= |p.idle| && forall t :: t in ts ==> t !in p.leased
    ensures LeasedAll(p, cfg, ts).0.idle == p.idle[..|p.idle| - |ts|]
    ensures LeasedAll(p, cfg, ts).1 == Backwards(p.idle, |ts|)
    decreases |ts|
  {
    if ts == [] {
      assert p.idle[..|p.idle|] == p.idle;
    } else {
      var rest := ts[1..];
      assert ts == [ts[0]] + rest;
      LeaseFromIdle(p, cfg, ts[0]);
      var q := LeaseAlone(p, cfg, ts[0], None).0;
      LeasedAllForm(q, cfg, rest);
      assert q.idle[..|q.idle| - |rest|] == p.idle[..|p.idle| - |ts|];
    }
  }

  /** What the leases of `ss` turn into, read backwards. */
  predicate LastFirst(rs: seq<Result<ConnId, LeaseError>>, leased: map<SessionId, ConnId>, ss: seq<SessionId>) {
    && |rs| == |ss|
    && forall k :: 0 <= k < |ss| ==> ss[|ss| - 1 - k] in leased && rs[k] == Ok(leased[ss[|ss| - 1 - k]])
  }

  lemma ReleasedEntry(idle: seq<Entry>, leased: map<SessionId, ConnId>, ss: seq<SessionId>, now: nat, k: nat)
    requires k < |ss| && forall s :: s in ss ==> s in leased
    ensures var es := idle + Entries(leased, ss, now); es[|es| - 1 - k] == Entry(now, leased[ss[|ss| - 1 - k]])
  {
  }

  lemma EntriesBackwards(idle: seq<Entry>, leased: map<SessionId, ConnId>, ss: seq<SessionId>, now: nat)
    requires forall s :: s in ss ==> s in leased
    ensures LastFirst(Backwards(idle + Entries(leased, ss, now), |ss|), leased, ss)
  {
    var es := idle + Entries(leased, ss, now);
    forall k | 0 <= k < |ss| ensures Backwards(es, |ss|)[k] == Ok(leased[ss[|ss| - 1 - k]]) {
      BackwardsAt(es, |ss|, k);
      ReleasedEntry(idle, leased, ss, now, k);
    }
  }

  /**
   Sessions that release their leases and as many new ones that lease then: the new ones get the
   released connections, the one released last first, and the idle list is as it was.
   */
  lemma ReleasedAreReused(p: Pool, cfg: Config, ss: seq<SessionId>, ts: seq<SessionId>, now: nat)
    requires Distinct(ss) && Distinct(ts) && |ss| == |ts|
    requires (forall s :: s in ss ==> s in p.leased) && (forall t :: t in ts ==> t !in p.leased || t in ss)
    ensures LeasedAll(ReleasedAll(p, ss, now), cfg, ts).0.idle == p.idle
    ensures LastFirst(LeasedAll(ReleasedAll(p, ss, now), cfg, ts).1, p.leased, ss)
  {
    ReleasedAllForm(p, ss, now);
    EntriesBackwards(p.idle, p.leased, ss, now);
    var es := p.idle + Entries(p.leased, ss, now);
    LeasedAllForm(ReleasedAll(p, ss, now), cfg, ts);
    assert es[..|p.idle|] == p.idle;
  }
}
