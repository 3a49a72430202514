/**
 Whole runs of the connection manager, one call at a time.

 `births` records for every PTY session the connection it was started on, how often that
 connection's registry entry had been purged by then, and its generation; `purges` counts
 the purges. The code keeps neither.
 */
module ManagerRuns {
  import opened Wrappers
  import opened PtyRegistry
  import opened ConnectionManager

  datatype Birth = Birth(id: ConnectionId, epoch: nat, generation: nat)

  datatype System = System(m: Manager, births: seq<Birth>, purges: map<ConnectionId, nat>)

  const START: System := System(NEW, [], map[])

  datatype Call =
    | Create(id: ConnectionId, kind: Kind, connects: bool, fails: bool)
    | CloseOf(id: ConnectionId, kind: Kind, fails: bool)
    | Start(id: ConnectionId, creates: bool)
    | CloseOfPty(id: ConnectionId, expected: Option<nat>)

  function EpochOf(purges: map<ConnectionId, nat>, id: ConnectionId): nat {
    if id in purges then purges[id] else 0
  }

  /** The connection a call disconnects. */
  function Disconnecting(m: Manager, call: Call): Option<Kind> {
    match call
    case Create(id, _, connects, _) => if connects && id in m.connections then Some(m.connections[id]) else None
    case CloseOf(id, kind, _) => if id in m.connections && m.connections[id] == kind then Some(kind) else None
    case _ => None
  }

  /** The disconnect the call makes reports an error. */
  predicate DisconnectBreaks(m: Manager, call: Call) {
    Disconnecting(m, call).Some? && Breaks(Disconnecting(m, call).value, call.fails)
  }

  function Called(m: Manager, call: Call, next: Pty): Manager {
    match call
    case Create(id, kind, connects, fails) => if connects then ReplaceManaged(m, id, kind, fails).0 else m
    case CloseOf(id, kind, fails) => Close(m, id, kind, fails).0
    case Start(id, creates) => StartPty(m, id, if creates then Some(next) else None).0
    case CloseOfPty(id, expected) => ClosePty(m, id, expected)
  }

  /** A session was started for the call. */
  predicate Births(m: Manager, call: Call) {
    call.Start? && call.creates && call.id in m.connections && m.connections[call.id] == KindSsh
  }

  function Step(sys: System, call: Call): System {
    System(
      Called(sys.m, call, |sys.births|),
      if Births(sys.m, call) then sys.births + [Birth(call.id, EpochOf(sys.purges, call.id), Generation(sys.m.ptys, call.id) + 1)]
      else sys.births,
      if Disconnecting(sys.m, call) == Some(KindSsh) then sys.purges[call.id := EpochOf(sys.purges, call.id) + 1]
      else sys.purges)
  }

  function Run(calls: seq<Call>): System {
    if calls == [] then START else Step(Run(calls[..|calls| - 1]), calls[|calls| - 1])
  }

  // ----- Events -----

  /** The statuses published for a connection. */
  function Published(events: seq<StatusEvent>, id: ConnectionId): seq<Status> {
    if events == [] then []
    else
      var e := events[|events| - 1];
      var front := Published(events[..|events| - 1], id);
      if e.id == id then front + [e.status] else front
  }

  lemma PublishedMore(events: seq<StatusEvent>, e: StatusEvent, id: ConnectionId)
    ensures Published(events + [e], id) == if e.id == id then Published(events, id) + [e.status] else Published(events, id)
  {
    assert (events + [e])[..|events|] == events;
  }

  /** Connected first, then by turns. */
  predicate Alternates(ss: seq<Status>) {
    forall k :: 0 <= k < |ss| ==> ss[k] == if k % 2 == 0 then Connected else Disconnected
  }

  function Last(ss: seq<Status>): Status {
    if ss == [] then Disconnected else ss[|ss| - 1]
  }

  /** A subscriber's view: statuses alternate, and the last one says whether the connection is registered. */
  predicate FaithfulFor(m: Manager, id: ConnectionId) {
    var ss := Published(m.events, id);
    Alternates(ss) && (id in m.connections <==> Last(ss) == Connected)
  }

  ghost predicate Faithful(m: Manager) {
    forall id :: FaithfulFor(m, id)
  }

  /** The events a call publishes. */
  function News(m: Manager, call: Call): seq<StatusEvent> {
    var disconnects := if Disconnecting(m, call).Some? && !DisconnectBreaks(m, call) then [StatusEvent(call.id, Disconnected)] else [];
    if call.Create? && call.connects && !DisconnectBreaks(m, call) then disconnects + [StatusEvent(call.id, Connected)]
    else disconnects
  }

  predicate RegisteredAfter(m: Manager, call: Call, id: ConnectionId) {
    if id != call.id then id in m.connections
    else if call.Create? && call.connects then !DisconnectBreaks(m, call)
    else id in m.connections && Disconnecting(m, call).None?
  }

  lemma CallEffect(m: Manager, call: Call, next: Pty)
    ensures Called(m, call, next).events == m.events + News(m, call)
    ensures forall id :: id in Called(m, call, next).connections <==> RegisteredAfter(m, call, id)
  {
  }

  lemma PublishedTwice(events: seq<StatusEvent>, e: StatusEvent, f: StatusEvent, id: ConnectionId)
    requires e.id == f.id
    ensures Published(events + [e, f], id) == if e.id == id then Published(events, id) + [e.status, f.status] else Published(events, id)
  {
    PublishedMore(events, e, id);
    PublishedMore(events + [e], f, id);
    assert events + [e, f] == (events + [e]) + [f];
    assert Published(events, id) + [e.status, f.status] == (Published(events, id) + [e.status]) + [f.status];
  }

  /** The statuses a call publishes for its connection. */
  function Turn(m: Manager, call: Call): seq<Status> {
    if DisconnectBreaks(m, call) then []
    else if call.Create? && call.connects then
      if Disconnecting(m, call).Some? then [Disconnected, Connected] else [Connected]
    else if Disconnecting(m, call).Some? then [Disconnected]
    else []
  }

  lemma NewsFor(m: Manager, call: Call, id: ConnectionId)
    ensures Published(m.events + News(m, call), id) ==
            if id != call.id then Published(m.events, id) else Published(m.events, id) + Turn(m, call)
  {
    var off, on := StatusEvent(call.id, Disconnected), StatusEvent(call.id, Connected);
    var turn := Turn(m, call);
    if turn == [Disconnected, Connected] {
      assert News(m, call) == [off, on];
      PublishedTwice(m.events, off, on, id);
    } else if turn == [Connected] {
      assert News(m, call) == [on];
      PublishedMore(m.events, on, id);
    } else if turn == [Disconnected] {
      assert News(m, call) == [off];
      PublishedMore(m.events, off, id);
    } else {
      assert News(m, call) == [] && m.events + [] == m.events;
      assert Published(m.events, id) + [] == Published(m.events, id);
    }
  }

  lemma OtherStaysFaithful(m: Manager, call: Call, next: Pty, id: ConnectionId)
    requires FaithfulFor(m, id) && id != call.id
    ensures FaithfulFor(Called(m, call, next), id)
  {
    CallEffect(m, call, next);
    NewsFor(m, call, id);
  }

  lemma AlternatesMore(ss: seq<Status>, status: Status)
    requires Alternates(ss) && status != Last(ss)
    ensures Alternates(ss + [status]) && Last(ss + [status]) == status
  {
  }

  lemma OwnStaysFaithfulIff(m: Manager, call: Call, next: Pty)
    requires FaithfulFor(m, call.id)
    ensures FaithfulFor(Called(m, call, next), call.id) <==> !DisconnectBreaks(m, call)
  {
    CallEffect(m, call, next);
    NewsFor(m, call, call.id);
    var ss := Published(m.events, call.id);
    var turn := Turn(m, call);
    if turn == [Disconnected, Connected] {
      AlternatesMore(ss, Disconnected);
      AlternatesMore(ss + [Disconnected], Connected);
      assert ss + [Disconnected] + [Connected] == ss + turn;
    } else if turn == [Disconnected] {
      AlternatesMore(ss, Disconnected);
    } else if turn == [Connected] {
      AlternatesMore(ss, Connected);
    } else {
      assert ss + [] == ss;
    }
  }

  /**
   A call keeps the events faithful to the registry exactly when the disconnect it makes, if it
   makes one, does not report an error: then the connection is gone and nothing was published.
   */
  lemma FaithfulIff(m: Manager, call: Call, next: Pty)
    requires Faithful(m)
    ensures Faithful(Called(m, call, next)) <==> !DisconnectBreaks(m, call)
  {
    OwnStaysFaithfulIff(m, call, next);
    forall id | id != call.id ensures FaithfulFor(Called(m, call, next), id) {
      OtherStaysFaithful(m, call, next, id);
    }
  }

  /** No disconnect of the run reports an error. */
  predicate Smooth(calls: seq<Call>) {
    calls == [] || (Smooth(calls[..|calls| - 1]) && !DisconnectBreaks(Run(calls[..|calls| - 1]).m, calls[|calls| - 1]))
  }

  /** On every run without failing disconnects, each connection's events alternate and tell whether it is registered. */
  lemma {:induction false} SmoothRunsAreFaithful(calls: seq<Call>)
    requires Smooth(calls)
    ensures Faithful(Run(calls).m)
  {
    if calls == [] {
      assert Published([], "") == [];
    } else {
      var before := Run(calls[..|calls| - 1]);
      SmoothRunsAreFaithful(calls[..|calls| - 1]);
      FaithfulIff(before.m, calls[|calls| - 1], |before.births|);
    }
  }

  /** What a subscriber heard is past repair: two statuses in a row are the same, or the id is gone and was last Connected. */
  predicate Broken(m: Manager, id: ConnectionId) {
    var ss := Published(m.events, id);
    !Alternates(ss) || (id !in m.connections && Last(ss) == Connected)
  }

  lemma AlternatesBefore(ss: seq<Status>, more: seq<Status>)
    ensures !Alternates(ss) ==> !Alternates(ss + more)
    ensures Alternates(ss) && Last(ss) == Connected && more != [] && more[0] == Connected ==> !Alternates(ss + more)
  {
    if !Alternates(ss) {
      var k :| 0 <= k < |ss| && ss[k] != if k % 2 == 0 then Connected else Disconnected;
      assert (ss + more)[k] == ss[k];
    } else if Last(ss) == Connected && more != [] && more[0] == Connected && ss != [] {
      assert (ss + more)[|ss|] == Connected && ss[|ss| - 1] == Connected;
    }
  }

  /** No call mends it: the next Connected is one too many. */
  lemma BrokenStays(m: Manager, call: Call, next: Pty, id: ConnectionId)
    requires Broken(m, id)
    ensures Broken(Called(m, call, next), id)
  {
    CallEffect(m, call, next);
    NewsFor(m, call, id);
    if id == call.id {
      var ss := Published(m.events, id);
      AlternatesBefore(ss, Turn(m, call));
      assert Turn(m, call) == [] ==> ss + Turn(m, call) == ss;
    }
  }

  lemma BreakingBreaks(m: Manager, call: Call, next: Pty)
    requires FaithfulFor(m, call.id) && DisconnectBreaks(m, call)
    ensures Broken(Called(m, call, next), call.id)
  {
    CallEffect(m, call, next);
    NewsFor(m, call, call.id);
    assert Published(m.events, call.id) + [] == Published(m.events, call.id);
  }

  lemma {:induction false} RoughRunsBreak(calls: seq<Call>) returns (id: ConnectionId)
    requires !Smooth(calls)
    ensures Broken(Run(calls).m, id)
  {
    var front, call := calls[..|calls| - 1], calls[|calls| - 1];
    var before := Run(front);
    if Smooth(front) {
      SmoothRunsAreFaithful(front);
      id := call.id;
      assert FaithfulFor(before.m, id);
      BreakingBreaks(before.m, call, |before.births|);
    } else {
      id := RoughRunsBreak(front);
      BrokenStays(before.m, call, |before.births|, id);
    }
  }

  /** On a run each connection's events alternate and tell whether it is registered exactly if no disconnect reported an error. */
  lemma RunsAreFaithfulIff(calls: seq<Call>)
    ensures Faithful(Run(calls).m) <==> Smooth(calls)
  {
    if Smooth(calls) {
      SmoothRunsAreFaithful(calls);
    } else {
      var id := RoughRunsBreak(calls);
      assert !FaithfulFor(Run(calls).m, id);
    }
  }

  lemma RunStep(calls: seq<Call>, call: Call)
    ensures Run(calls + [call]) == Step(Run(calls), call)
  {
    assert (calls + [call])[..|calls|] == calls;
  }

  /** A close whose disconnect reports an error: the id is gone, and the last a subscriber heard is Connected. */
  lemma FailedDisconnectMisleads() returns (calls: seq<Call>)
    ensures var m := Run(calls).m; "c" !in m.connections && Published(m.events, "c") == [Connected]
  {
    var connect, close := Create("c", KindDesktop, true, false), CloseOf("c", KindDesktop, true);
    RunStep([], connect);
    calls := [] + [connect];
    assert Run(calls).m.events == [] + [StatusEvent("c", Connected)];
    RunStep(calls, close);
    calls := calls + [close];
    PublishedMore([], StatusEvent("c", Connected), "c");
  }

  // ----- What calls register, and what they answer -----

  /** A kind is registered by creating a connection of it, and goes only by a close of that kind or a later create. */
  lemma CallRegisters(m: Manager, call: Call, next: Pty)
    ensures Called(m, call, next).connections ==
            if call.Create? && call.connects then
              if DisconnectBreaks(m, call) then m.connections - {call.id} else m.connections[call.id := call.kind]
            else if call.CloseOf? && call.id in m.connections && m.connections[call.id] == call.kind then m.connections - {call.id}
            else m.connections
  {
    if call.Create? && call.id in m.connections {
      assert (m.connections - {call.id})[call.id := call.kind] == m.connections[call.id := call.kind];
    } else if call.Create? {
      assert m.connections - {call.id} == m.connections;
    }
  }

  /** A close of the wrong kind is refused, and of an unknown id a success; neither does anything. Only a client other than Postgres can fail to disconnect. */
  lemma CloseAnswers(m: Manager, id: ConnectionId, kind: Kind, fails: bool)
    ensures var (m', r) := Close(m, id, kind, fails);
            && (r == Err(WrongKind) <==> id in m.connections && m.connections[id] != kind)
            && (r == Err(DisconnectFailed) <==> id in m.connections && m.connections[id] == kind && fails && kind != KindPostgres)
            && (r.Err? ==> r.error == WrongKind || r.error == DisconnectFailed)
            && (id !in m.connections || r == Err(WrongKind) ==> m' == m)
  {
  }

  /**
   Starting a session answers with the generation that closes it: a close with that generation takes this session
   down, and one with any other does nothing.
   */
  lemma StartedIsClosedByItsGeneration(m: Manager, id: ConnectionId, p: Pty, generation: nat)
    requires id in m.connections && m.connections[id] == KindSsh && p !in m.ptys.cancelled
    requires id in m.ptys.sessions ==> m.ptys.sessions[id] != p
    ensures var (m', r) := StartPty(m, id, Some(p));
            var closed := ClosePty(m', id, Some(generation));
            && r.Ok? && id in m'.ptys.sessions && m'.ptys.sessions[id] == p && p !in m'.ptys.cancelled
            && (generation == r.value ==> id !in closed.ptys.sessions && p in closed.ptys.cancelled)
            && (generation != r.value ==> closed == m')
  {
  }

  /** A session is started only on SSH; a shell that cannot be had costs the previous session. */
  lemma StartAnswers(m: Manager, id: ConnectionId, pty: Option<Pty>)
    ensures var (m', r) := StartPty(m, id, pty);
            var onSsh := id in m.connections && m.connections[id] == KindSsh;
            && (r.Ok? <==> onSsh && pty.Some?)
            && (r == Err(NotFound) <==> !onSsh) && (r == Err(PtyFailed) <==> onSsh && pty.None?)
            && (!onSsh ==> m' == m)
            && (onSsh && id in m.ptys.sessions ==> m.ptys.sessions[id] in m'.ptys.cancelled)
            && (onSsh && pty.None? ==> id !in m'.ptys.sessions)
  {
  }

  // ----- PTY sessions -----

  /** The session in the table is live, and of the connection's current generation. */
  predicate Current(r: Registry, births: seq<Birth>, purges: map<ConnectionId, nat>, id: ConnectionId, p: Pty) {
    p < |births| && p !in r.cancelled && births[p] == Birth(id, EpochOf(purges, id), Generation(r, id))
  }

  /** Generations of the present epoch have been counted; those of earlier ones are over. */
  predicate Past(r: Registry, purges: map<ConnectionId, nat>, b: Birth) {
    b.epoch < EpochOf(purges, b.id) || (b.epoch == EpochOf(purges, b.id) && b.generation <= Generation(r, b.id))
  }

  predicate OnlySsh(connections: map<ConnectionId, Kind>, r: Registry) {
    forall id :: id in r.sessions ==> id in connections && connections[id] == KindSsh
  }

  predicate AllCurrent(r: Registry, births: seq<Birth>, purges: map<ConnectionId, nat>) {
    forall id :: id in r.sessions ==> Current(r, births, purges, id, r.sessions[id])
  }

  /** Every session ever started is in the table or cancelled, and its generation counted. */
  predicate AllAccounted(r: Registry, births: seq<Birth>, purges: map<ConnectionId, nat>) {
    forall p :: 0 <= p < |births| ==>
      && Past(r, purges, births[p])
      && (p in r.cancelled || (births[p].id in r.sessions && r.sessions[births[p].id] == p))
  }

  predicate Distinct(births: seq<Birth>) {
    forall p, q :: 0 <= p < q < |births| ==> births[p] != births[q]
  }

  predicate CancelledExist(r: Registry, births: seq<Birth>) {
    forall p :: p in r.cancelled ==> p < |births|
  }

  predicate Sane(connections: map<ConnectionId, Kind>, r: Registry, births: seq<Birth>, purges: map<ConnectionId, nat>) {
    && OnlySsh(connections, r)
    && AllCurrent(r, births, purges)
    && AllAccounted(r, births, purges)
    && Distinct(births)
    && CancelledExist(r, births)
  }

  predicate SaneSystem(sys: System) {
    Sane(sys.m.connections, sys.m.ptys, sys.births, sys.purges)
  }

  lemma CancelSane(connections: map<ConnectionId, Kind>, r: Registry, births: seq<Birth>, purges: map<ConnectionId, nat>, id: ConnectionId)
    requires Sane(connections, r, births, purges)
    ensures Sane(connections, CancelExisting(r, id), births, purges)
  {
    if id in r.sessions {
      var r' := CancelExisting(r, id);
      var p := r.sessions[id];
      assert Current(r, births, purges, id, p);
      forall other | other in r'.sessions ensures Current(r', births, purges, other, r'.sessions[other]) {
        assert Current(r, births, purges, other, r.sessions[other]);
      }
    }
  }

  lemma InsertSane(connections: map<ConnectionId, Kind>, r: Registry, births: seq<Birth>, purges: map<ConnectionId, nat>, id: ConnectionId)
    requires Sane(connections, r, births, purges)
    requires id !in r.sessions && id in connections && connections[id] == KindSsh
    ensures var b := Birth(id, EpochOf(purges, id), Generation(r, id) + 1);
            Sane(connections, Inserted(r, id, |births|), births + [b], purges)
  {
    var b := Birth(id, EpochOf(purges, id), Generation(r, id) + 1);
    var r', births' := Inserted(r, id, |births|), births + [b];
    forall other | other in r'.sessions ensures Current(r', births', purges, other, r'.sessions[other]) {
      if other != id {
        assert Current(r, births, purges, other, r.sessions[other]);
      }
    }
    forall p | 0 <= p < |births'|
      ensures Past(r', purges, births'[p]) && (p in r'.cancelled || (births'[p].id in r'.sessions && r'.sessions[births'[p].id] == p))
    {
      if p < |births| {
        assert Past(r, purges, births[p]);
      }
    }
    assert forall p :: 0 <= p < |births| ==> Past(r, purges, births[p]) && births[p] != b;
  }

  lemma PurgeSane(connections: map<ConnectionId, Kind>, connections': map<ConnectionId, Kind>, r: Registry, births: seq<Birth>,
                  purges: map<ConnectionId, nat>, id: ConnectionId)
    requires Sane(connections, r, births, purges)
    requires forall other :: other in connections && other != id ==> other in connections' && connections'[other] == connections[other]
    ensures Sane(connections', Purged(r, id), births, purges[id := EpochOf(purges, id) + 1])
  {
    CancelSane(connections, r, births, purges, id);
    var mid, r', purges' := CancelExisting(r, id), Purged(r, id), purges[id := EpochOf(purges, id) + 1];
    forall other | other in r'.sessions ensures Current(r', births, purges', other, r'.sessions[other]) {
      assert Current(mid, births, purges, other, mid.sessions[other]);
    }
    forall p | 0 <= p < |births| ensures Past(r', purges', births[p]) {
      assert Past(mid, purges, births[p]);
    }
  }

  /** What creating and closing connections does to the tables. */
  lemma ConnectionCallEffect(m: Manager, call: Call, next: Pty)
    requires call.Create? || call.CloseOf?
    ensures var m' := Called(m, call, next);
            && m'.ptys == (if Disconnecting(m, call) == Some(KindSsh) then Purged(m.ptys, call.id) else m.ptys)
            && (forall other :: other in m.connections && other != call.id ==>
                  other in m'.connections && m'.connections[other] == m.connections[other])
            && (Disconnecting(m, call) != Some(KindSsh) && call.id in m.connections && m.connections[call.id] == KindSsh ==>
                  m'.connections == m.connections)
  {
  }

  lemma ConnectionCallSane(sys: System, call: Call)
    requires SaneSystem(sys) && (call.Create? || call.CloseOf?)
    ensures SaneSystem(Step(sys, call))
  {
    var m' := Called(sys.m, call, |sys.births|);
    ConnectionCallEffect(sys.m, call, |sys.births|);
    if Disconnecting(sys.m, call) == Some(KindSsh) {
      PurgeSane(sys.m.connections, m'.connections, sys.m.ptys, sys.births, sys.purges, call.id);
    } else {
      assert OnlySsh(m'.connections, sys.m.ptys);
    }
  }

  lemma StartSane(sys: System, call: Call)
    requires SaneSystem(sys) && call.Start?
    ensures SaneSystem(Step(sys, call))
  {
    var m := sys.m;
    if call.id in m.connections && m.connections[call.id] == KindSsh {
      CancelSane(m.connections, m.ptys, sys.births, sys.purges, call.id);
      if call.creates {
        InsertSane(m.connections, CancelExisting(m.ptys, call.id), sys.births, sys.purges, call.id);
      }
    }
  }

  lemma StepSane(sys: System, call: Call)
    requires SaneSystem(sys)
    ensures SaneSystem(Step(sys, call))
  {
    if call.Start? {
      StartSane(sys, call);
    } else if call.CloseOfPty? {
      CancelSane(sys.m.connections, sys.m.ptys, sys.births, sys.purges, call.id);
    } else {
      ConnectionCallSane(sys, call);
    }
  }

  lemma {:induction false} RunsAreSane(calls: seq<Call>)
    ensures SaneSystem(Run(calls))
  {
    if calls != [] {
      RunsAreSane(calls[..|calls| - 1]);
      StepSane(Run(calls[..|calls| - 1]), calls[|calls| - 1]);
    }
  }

  /** A connection with a PTY session is registered, as SSH. */
  lemma {:induction false} PtysAreOnSsh(calls: seq<Call>, id: ConnectionId)
    requires id in Run(calls).m.ptys.sessions
    ensures var m := Run(calls).m; id in m.connections && m.connections[id] == KindSsh
  {
    RunsAreSane(calls);
  }

  /** Of all the sessions ever started, those in the table are live and all others are cancelled. */
  lemma SupersededAreCancelled(calls: seq<Call>, p: Pty)
    requires p < |Run(calls).births|
    ensures var sys := Run(calls);
            p in sys.m.ptys.cancelled <==> !(exists id :: id in sys.m.ptys.sessions && sys.m.ptys.sessions[id] == p)
  {
    RunsAreSane(calls);
    var sys := Run(calls);
    forall id | id in sys.m.ptys.sessions && sys.m.ptys.sessions[id] == p ensures p !in sys.m.ptys.cancelled {
      assert Current(sys.m.ptys, sys.births, sys.purges, id, p);
    }
    assert AllAccounted(sys.m.ptys, sys.births, sys.purges);
  }

  /** The close takes session `q` down. */
  predicate TakesDown(r: Registry, id: ConnectionId, expected: nat, q: Pty) {
    q !in r.cancelled && q in Removed(r, id, Some(expected)).cancelled
  }

  /**
   A close carries the generation its session was started with. If it takes a session down, that
   is its own exactly when the connection's entry was not purged since.
   */
  lemma CloseHitsItsOwnIff(calls: seq<Call>, p: Pty, q: Pty)
    requires p < |Run(calls).births|
    requires var sys := Run(calls); TakesDown(sys.m.ptys, sys.births[p].id, sys.births[p].generation, q)
    ensures var sys := Run(calls);
            q == p <==> sys.births[p].epoch == EpochOf(sys.purges, sys.births[p].id)
  {
    RunsAreSane(calls);
    var sys := Run(calls);
    var b := sys.births[p];
    assert q == sys.m.ptys.sessions[b.id];
    assert Current(sys.m.ptys, sys.births, sys.purges, b.id, q);
    assert sys.births[q] == Birth(b.id, EpochOf(sys.purges, b.id), b.generation);
  }

  const CONNECT: Call := Create("c", KindSsh, true, false)
  const OPEN: Call := Start("c", true)

  /** A session is opened and its connection closed. */
  lemma SessionPurged() returns (calls: seq<Call>)
    ensures var sys := Run(calls);
            && sys.births == [Birth("c", 0, 1)] && sys.purges == map["c" := 1]
            && sys.m.connections == map[] && sys.m.ptys == Registry(map[], map[], {0})
  {
    RunStep([], CONNECT);
    calls := [] + [CONNECT];
    RunStep(calls, OPEN);
    calls := calls + [OPEN];
    RunStep(calls, CloseOf("c", KindSsh, false));
    calls := calls + [CloseOf("c", KindSsh, false)];
  }

  /**
   Across a purge generations start over: the session of a reconnected client has the number an
   old one had, and a late close of the old one takes it down.
   */
  lemma LateCloseHitsAnother() returns (calls: seq<Call>)
    ensures var sys := Run(calls);
            && sys.births == [Birth("c", 0, 1), Birth("c", 1, 1)]
            && sys.m.ptys.sessions == map["c" := 1]
            && TakesDown(sys.m.ptys, "c", sys.births[0].generation, 1)
  {
    calls := SessionPurged();
    RunStep(calls, CONNECT);
    calls := calls + [CONNECT];
    RunStep(calls, OPEN);
    calls := calls + [OPEN];
  }
}
