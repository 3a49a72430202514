/**
 The connection manager: what is registered, which status events are published and what
 becomes of PTY sessions, over calls made one after another.
 */
module ConnectionManager {
  import opened Wrappers
  import opened PtyRegistry

  datatype Kind = KindSsh | KindSftp | KindFtp | KindDesktop | KindPostgres

  datatype Status = Connected | Disconnected

  datatype StatusEvent = StatusEvent(id: ConnectionId, status: Status)

  datatype Manager = Manager(connections: map<ConnectionId, Kind>, ptys: Registry, events: seq<StatusEvent>)

  datatype Failure = ConnectFailed | DisconnectFailed | WrongKind | NotFound | PtyFailed

  const NEW: Manager := Manager(map[], Registry(map[], map[], {}), [])

  function Publish(m: Manager, id: ConnectionId, status: Status): Manager {
    m.(events := m.events + [StatusEvent(id, status)])
  }

  /** Shutting a pool down cannot fail; a client's disconnect can. */
  predicate Breaks(kind: Kind, fails: bool) {
    fails && !kind.KindPostgres?
  }

  /** The connection is out of the map already. An error keeps the event from being published. */
  function DisconnectManaged(m: Manager, id: ConnectionId, kind: Kind, fails: bool): (r: (Manager, Result<(), Failure>)) {
    var m' := if kind.KindSsh? then m.(ptys := Purged(m.ptys, id)) else m;
    if Breaks(kind, fails) then (m', Err(DisconnectFailed)) else (Publish(m', id, Disconnected), Ok(()))
  }

  function ReplaceManaged(m: Manager, id: ConnectionId, kind: Kind, fails: bool): (r: (Manager, Result<(), Failure>)) {
    var (m', r) :=
      if id in m.connections then DisconnectManaged(m.(connections := m.connections - {id}), id, m.connections[id], fails)
      else (m, Ok(()));
    if r.Err? then (m', r)
    else (Publish(m'.(connections := m'.connections[id := kind]), id, Connected), Ok(()))
  }

  function Close(m: Manager, id: ConnectionId, expected: Kind, fails: bool): (r: (Manager, Result<(), Failure>)) {
    if id !in m.connections then (m, Ok(()))
    else if m.connections[id] != expected then (m, Err(WrongKind))
    else DisconnectManaged(m.(connections := m.connections - {id}), id, expected, fails)
  }

  /** `pty` is the session created, if it is. */
  function StartPty(m: Manager, id: ConnectionId, pty: Option<Pty>): (r: (Manager, Result<nat, Failure>)) {
    if id !in m.connections || m.connections[id] != KindSsh then (m, Err(NotFound))
    else
      var ptys := CancelExisting(m.ptys, id);
      if pty.None? then (m.(ptys := ptys), Err(PtyFailed))
      else (m.(ptys := Inserted(ptys, id, pty.value)), Ok(Generation(ptys, id) + 1))
  }

  function ClosePty(m: Manager, id: ConnectionId, expected: Option<nat>): Manager {
    m.(ptys := Removed(m.ptys, id, expected))
  }

  class Connections {
    var connections: map<ConnectionId, Kind>
    const ptys: Ptys
    var events: seq<StatusEvent>

    constructor ()
      ensures State() == NEW && fresh(ptys)
    {
      connections := map[];
      ptys := new Ptys();
      events := [];
    }

    function State(): Manager
      reads this, ptys
    {
      Manager(connections, ptys.State(), events)
    }

    method PublishStatus(id: ConnectionId, status: Status)
      modifies this`events
      ensures events == old(events) + [StatusEvent(id, status)]
    {
      events := events + [StatusEvent(id, status)];
    }

    method DisconnectManagedConnection(id: ConnectionId, kind: Kind, fails: bool) returns (r: Result<(), Failure>)
      modifies this`events, ptys
      ensures (State(), r) == DisconnectManaged(old(State()), id, kind, fails)
    {
      match kind {
        case KindSsh =>
          ptys.Purge(id);
          if fails {
            return Err(DisconnectFailed);
          }
        case KindSftp =>
          if fails {
            return Err(DisconnectFailed);
          }
        case KindFtp =>
          if fails {
            return Err(DisconnectFailed);
          }
        case KindDesktop =>
          if fails {
            return Err(DisconnectFailed);
          }
        case KindPostgres =>
      }
      PublishStatus(id, Disconnected);
      return Ok(());
    }

    method ReplaceManagedConnection(id: ConnectionId, replacement: Kind, fails: bool) returns (r: Result<(), Failure>)
      modifies this, ptys
      ensures (State(), r) == ReplaceManaged(old(State()), id, replacement, fails)
    {
      var previous := if id in connections then Some(connections[id]) else None;
      connections := connections - {id};
      assert previous.None? ==> connections == old(connections);
      if previous.Some? {
        r := DisconnectManagedConnection(id, previous.value, fails);
        if r.Err? {
          return;
        }
      }
      connections := connections[id := replacement];
      PublishStatus(id, Connected);
      return Ok(());
    }

    method TakeConnectionIfKind(id: ConnectionId, expected: Kind) returns (r: Result<Option<Kind>, Failure>)
      modifies this`connections
      ensures r == if id !in old(connections) then Ok(None)
                   else if old(connections)[id] != expected then Err(WrongKind)
                   else Ok(Some(expected))
      ensures connections == if r == Ok(Some(expected)) then old(connections) - {id} else old(connections)
    {
      if id !in connections {
        return Ok(None);
      }
      var current := connections[id];
      if current != expected {
        return Err(WrongKind);
      }
      connections := connections - {id};
      return Ok(Some(current));
    }

    /** `close_connection` and its counterparts for the other kinds. */
    method CloseConnection(id: ConnectionId, expected: Kind, fails: bool) returns (r: Result<(), Failure>)
      modifies this, ptys
      ensures (State(), r) == Close(old(State()), id, expected, fails)
    {
      var taken := TakeConnectionIfKind(id, expected);
      if taken.Err? {
        return Err(taken.error);
      }
      if taken.value.Some? {
        r := DisconnectManagedConnection(id, taken.value.value, fails);
        return;
      }
      return Ok(());
    }

    method StartPtyConnection(id: ConnectionId, pty: Option<Pty>) returns (r: Result<nat, Failure>)
      modifies ptys
      ensures (State(), r) == StartPty(old(State()), id, pty)
    {
      if id !in connections || connections[id] != KindSsh {
        return Err(NotFound);
      }
      ptys.DropExisting(id);
      if pty.None? {
        return Err(PtyFailed);
      }
      var generation := ptys.Insert(id, pty.value);
      return Ok(generation);
    }

    method ClosePtyConnection(id: ConnectionId, expected: Option<nat>)
      modifies ptys
      ensures State() == ClosePty(old(State()), id, expected)
    {
      ptys.Remove(id, expected);
    }
  }
}
