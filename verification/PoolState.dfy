/**
 The pool's shared state, and what each window under its locks does to it.

 A window is the code between taking the metadata lock and letting it go; between two
 windows of a call any other call may run. `PgPool` has the windows as methods on the
 fields of the source and `PoolRuns` composes them into runs.
 */
module PoolState {
  import opened Basics
  import opened Wrappers

  type SessionId = string
  type Database = string

  /** Connections are numbered in the order they were opened. */
  type ConnId = nat

  /** An entry of the idle list, or of the table of side connections. */
  datatype Entry = Entry(since: nat, conn: ConnId)

  datatype Config = Config(maxSize: nat, idleTimeout: nat, minIdle: nat, database: Database)

  datatype Pool = Pool(
    idle: seq<Entry>,
    leased: map<SessionId, ConnId>,
    total: nat,
    secondary: map<Database, Entry>)

  /** `saturating_sub(1)`. */
  function Less(n: nat): nat {
    if n == 0 then 0 else n - 1
  }

  /** `duration_since` does not go below zero. */
  predicate Aged(e: Entry, now: nat, timeout: nat) {
    (if now < e.since then 0 else now - e.since) >= timeout
  }

  predicate Full(p: Pool, cfg: Config) {
    p.total >= cfg.maxSize
  }

  // ----- Windows of a lease -----

  function PopIdle(p: Pool): (r: (Pool, Option<ConnId>)) {
    if p.idle == [] then (p, None)
    else (p.(idle := p.idle[..|p.idle| - 1]), Some(p.idle[|p.idle| - 1].conn))
  }

  function Reserve(p: Pool, cfg: Config): (r: Option<Pool>) {
    if Full(p, cfg) then None else Some(p.(total := p.total + 1))
  }

  function Unreserve(p: Pool): Pool {
    p.(total := Less(p.total))
  }

  function Assign(p: Pool, s: SessionId, c: ConnId): Pool {
    p.(leased := p.leased[s := c])
  }

  function TakeLease(p: Pool, s: SessionId): (r: (Pool, Option<ConnId>)) {
    if s in p.leased then (p.(leased := p.leased - {s}), Some(p.leased[s])) else (p, None)
  }

  function PushIdle(p: Pool, c: ConnId, now: nat): Pool {
    p.(idle := p.idle + [Entry(now, c)])
  }

  // ----- Windows of the side connections -----

  function TouchSecondary(p: Pool, db: Database, now: nat): (r: (Pool, Option<ConnId>)) {
    if db in p.secondary then
      (p.(secondary := p.secondary[db := p.secondary[db].(since := now)]), Some(p.secondary[db].conn))
    else (p, None)
  }

  /** Inserts the connection unless the database has one by now, which is then the answer. */
  function InsertSecondary(p: Pool, db: Database, c: ConnId, now: nat): (r: (Pool, Option<ConnId>)) {
    if db in p.secondary then TouchSecondary(p, db, now)
    else (p.(secondary := p.secondary[db := Entry(now, c)]), None)
  }

  // ----- Eviction -----

  /** The entries eviction keeps when it has kept `kept` already. */
  function Kept(es: seq<Entry>, now: nat, cfg: Config, kept: nat): (r: seq<Entry>) {
    if es == [] then []
    else if !Aged(es[0], now, cfg.idleTimeout) || kept < cfg.minIdle then [es[0]] + Kept(es[1..], now, cfg, kept + 1)
    else Kept(es[1..], now, cfg, kept)
  }

  function Evicted(es: seq<Entry>, now: nat, cfg: Config, kept: nat): (r: seq<ConnId>) {
    if es == [] then []
    else if !Aged(es[0], now, cfg.idleTimeout) || kept < cfg.minIdle then Evicted(es[1..], now, cfg, kept + 1)
    else [es[0].conn] + Evicted(es[1..], now, cfg, kept)
  }

  /** `n` times `saturating_sub(1)`. */
  function LessBy(total: nat, n: nat): nat {
    if total < n then 0 else total - n
  }

  function EvictIdle(p: Pool, now: nat, cfg: Config): (r: (Pool, seq<ConnId>)) {
    var dropped := Evicted(p.idle, now, cfg, 0);
    (p.(idle := Kept(p.idle, now, cfg, 0), total := LessBy(p.total, |dropped|)), dropped)
  }

  /** Databases whose side connection is old and used by nobody but the table. */
  function Unused(p: Pool, now: nat, cfg: Config, held: set<ConnId>): set<Database> {
    set db | db in p.secondary && Aged(p.secondary[db], now, cfg.idleTimeout) && p.secondary[db].conn !in held
  }

  function EvictSecondary(p: Pool, now: nat, cfg: Config, held: set<ConnId>): (r: Pool) {
    p.(secondary := p.secondary - Unused(p, now, cfg, held))
  }

  function Settle(p: Pool, n: nat): Pool {
    p.(total := LessBy(p.total, n))
  }

  // ----- Shutdown -----

  function DrainLeases(p: Pool): Pool {
    p.(idle := [], leased := map[], total := 0)
  }

  function DrainSecondary(p: Pool): Pool {
    p.(secondary := map[])
  }

  // ----- What eviction keeps -----

  predicate Sorted(es: seq<Entry>) {
    forall i, j :: 0 <= i < j < |es| ==> es[i].since <= es[j].since
  }

  /** The aged entries are the first `a`. */
  predicate AgedFront(es: seq<Entry>, now: nat, cfg: Config, a: nat) {
    a <= |es| && forall i :: 0 <= i < |es| ==> (Aged(es[i], now, cfg.idleTimeout) <==> i < a)
  }

  /** In a list sorted by release time the aged entries come first. */
  lemma {:induction false} SortedHasAgedFront(es: seq<Entry>, now: nat, cfg: Config) returns (a: nat)
    requires Sorted(es)
    ensures AgedFront(es, now, cfg, a)
  {
    if es == [] || !Aged(es[0], now, cfg.idleTimeout) {
      a := 0;
    } else {
      var b := SortedHasAgedFront(es[1..], now, cfg);
      a := b + 1;
      forall i | 0 <= i < |es| ensures Aged(es[i], now, cfg.idleTimeout) <==> i < a {
        if i > 0 {
          assert es[i] == es[1..][i - 1];
        }
      }
    }
  }

  lemma FrontShrinks(es: seq<Entry>, now: nat, cfg: Config, a: nat)
    requires es != [] && AgedFront(es, now, cfg, a)
    ensures AgedFront(es[1..], now, cfg, if a == 0 then 0 else a - 1)
    ensures Aged(es[0], now, cfg.idleTimeout) <==> a > 0
  {
    var t := es[1..];
    assert forall i :: 0 <= i < |t| ==> t[i] == es[i + 1];
  }

  function Conns(es: seq<Entry>): (r: seq<ConnId>)
    ensures |r| == |es|
    ensures forall i :: 0 <= i < |es| ==> r[i] == es[i].conn
  {
    if es == [] then [] else [es[0].conn] + Conns(es[1..])
  }

  lemma KeepsAll(es: seq<Entry>)
    requires es != []
    ensures es[..0] + es[0..] == [es[0]] + (es[1..][..0] + es[1..][0..])
  {
  }

  lemma KeepsHead(es: seq<Entry>, m: nat, a: nat)
    requires 0 < m <= a <= |es|
    ensures es[..m] + es[a..] == [es[0]] + (es[1..][..m - 1] + es[1..][a - 1..])
  {
  }

  lemma DropsHead(es: seq<Entry>, a: nat)
    requires 0 < a <= |es|
    ensures es[..0] + es[a..] == es[1..][..0] + es[1..][a - 1..]
  {
  }

  lemma {:induction false} KeptForm(es: seq<Entry>, now: nat, cfg: Config, kept: nat, a: nat, m: nat)
    requires AgedFront(es, now, cfg, a) && m == Min(a, LessBy(cfg.minIdle, kept))
    ensures Kept(es, now, cfg, kept) == es[..m] + es[a..]
  {
    if es != [] {
      FrontShrinks(es, now, cfg, a);
      var t := es[1..];
      if a == 0 {
        KeptForm(t, now, cfg, kept + 1, 0, 0);
        KeepsAll(es);
      } else if kept < cfg.minIdle {
        KeptForm(t, now, cfg, kept + 1, a - 1, m - 1);
        KeepsHead(es, m, a);
      } else {
        KeptForm(t, now, cfg, kept, a - 1, m);
        DropsHead(es, a);
      }
    }
  }

  lemma SliceOfTail(es: seq<Entry>, m: nat, a: nat)
    requires 0 < m <= a <= |es|
    ensures es[1..][m - 1..a - 1] == es[m..a]
  {
  }

  lemma ConnsUnfold(es: seq<Entry>, m: nat, a: nat)
    requires m < a <= |es|
    ensures Conns(es[m..a]) == [es[m].conn] + Conns(es[m + 1..a])
  {
    assert es[m..a][0] == es[m] && es[m..a][1..] == es[m + 1..a];
  }

  lemma {:induction false} EvictedForm(es: seq<Entry>, now: nat, cfg: Config, kept: nat, a: nat, m: nat)
    requires AgedFront(es, now, cfg, a) && m == Min(a, LessBy(cfg.minIdle, kept))
    ensures Evicted(es, now, cfg, kept) == Conns(es[m..a])
  {
    if es != [] {
      FrontShrinks(es, now, cfg, a);
      var t := es[1..];
      if a == 0 {
        EvictedForm(t, now, cfg, kept + 1, 0, 0);
        assert es[0..0] == [] && t[0..0] == [];
      } else if kept < cfg.minIdle {
        EvictedForm(t, now, cfg, kept + 1, a - 1, m - 1);
        SliceOfTail(es, m, a);
      } else {
        EvictedForm(t, now, cfg, kept, a - 1, 0);
        ConnsUnfold(es, 0, a);
        SliceOfTail(es, 1, a);
      }
    }
  }

  /**
   One eviction on a sorted idle list: of the `a` aged entries, which come first, it keeps the
   first ones, up to the floor, and it keeps every young one; a slot is given back for each
   entry that goes.
   */
  lemma EvictionPolicy(p: Pool, now: nat, cfg: Config) returns (a: nat)
    requires Sorted(p.idle) && |p.idle| <= p.total
    ensures AgedFront(p.idle, now, cfg, a)
    ensures var (q, dropped) := EvictIdle(p, now, cfg);
            && q.idle == p.idle[..Min(a, cfg.minIdle)] + p.idle[a..]
            && dropped == Conns(p.idle[Min(a, cfg.minIdle)..a])
            && |q.idle| >= Min(|p.idle|, cfg.minIdle)
            && |q.idle| + |dropped| == |p.idle|
            && q.total == p.total - |dropped|
  {
    a := SortedHasAgedFront(p.idle, now, cfg);
    KeptForm(p.idle, now, cfg, 0, a, Min(a, cfg.minIdle));
    EvictedForm(p.idle, now, cfg, 0, a, Min(a, cfg.minIdle));
  }

  /** `since` is as long ago as the timeout says, seen from `now`; with no timeout everything is. */
  predicate LongAgo(since: nat, now: nat, timeout: nat) {
    timeout == 0 || now >= since + timeout
  }

  /**
   Eviction in numbers: it drops the entries that were released a timeout ago or longer and have the floor's
   number of entries or more before them, and keeps the others, in order.
   */
  lemma EvictionInNumbers(p: Pool, now: nat, cfg: Config) returns (m: nat, a: nat)
    requires Sorted(p.idle)
    ensures m <= a <= |p.idle|
    ensures forall i :: 0 <= i < |p.idle| ==>
              (m <= i < a <==> LongAgo(p.idle[i].since, now, cfg.idleTimeout) && i >= cfg.minIdle)
    ensures var (q, dropped) := EvictIdle(p, now, cfg);
            q.idle == p.idle[..m] + p.idle[a..] && dropped == Conns(p.idle[m..a])
  {
    a := SortedHasAgedFront(p.idle, now, cfg);
    m := Min(a, cfg.minIdle);
    KeptForm(p.idle, now, cfg, 0, a, m);
    EvictedForm(p.idle, now, cfg, 0, a, m);
    assert forall i :: 0 <= i < |p.idle| ==>
             (LongAgo(p.idle[i].since, now, cfg.idleTimeout) <==> Aged(p.idle[i], now, cfg.idleTimeout));
  }

  /** A side connection leaves the table exactly if it was last used that long ago and nobody holds it. */
  lemma SideEvictionInNumbers(p: Pool, now: nat, cfg: Config, held: set<ConnId>, db: Database)
    requires db in p.secondary
    ensures var q := EvictSecondary(p, now, cfg, held);
            && (db !in q.secondary <==> LongAgo(p.secondary[db].since, now, cfg.idleTimeout) && p.secondary[db].conn !in held)
            && (db in q.secondary ==> q.secondary[db] == p.secondary[db])
            && (db in Unused(p, now, cfg, held) <==> db !in q.secondary)
            && q.idle == p.idle && q.leased == p.leased && q.total == p.total
  {
  }

  /** A second eviction at the same moment finds nothing more to do. */
  lemma EvictionIsIdempotent(p: Pool, now: nat, cfg: Config)
    requires Sorted(p.idle) && |p.idle| <= p.total
    ensures var q := EvictIdle(p, now, cfg).0; EvictIdle(q, now, cfg) == (q, [])
  {
    var a := EvictionPolicy(p, now, cfg);
    var q := EvictIdle(p, now, cfg).0;
    var m := Min(a, cfg.minIdle);
    forall i | 0 <= i < |q.idle| ensures Aged(q.idle[i], now, cfg.idleTimeout) <==> i < m {
      assert q.idle[i] == if i < m then p.idle[i] else p.idle[i - m + a];
    }
    KeptForm(q.idle, now, cfg, 0, m, m);
    EvictedForm(q.idle, now, cfg, 0, m, m);
    assert q.idle[..m] + q.idle[m..] == q.idle;
  }
}
