/**
 The registry of live PTY sessions and its generation counters. Sessions are numbered; a
 session is cancelled when its token is.
 */
module PtyRegistry {
  import opened Wrappers

  type ConnectionId = string
  type Pty = nat

  datatype Registry = Registry(sessions: map<ConnectionId, Pty>, generations: map<ConnectionId, nat>, cancelled: set<Pty>)

  /** A counter that is not there counts as zero. */
  function Generation(r: Registry, id: ConnectionId): nat {
    if id in r.generations then r.generations[id] else 0
  }

  function CancelExisting(r: Registry, id: ConnectionId): Registry {
    if id in r.sessions then r.(sessions := r.sessions - {id}, cancelled := r.cancelled + {r.sessions[id]}) else r
  }

  function Inserted(r: Registry, id: ConnectionId, pty: Pty): Registry {
    r.(generations := r.generations[id := Generation(r, id) + 1], sessions := r.sessions[id := pty])
  }

  /** A close for another generation than the current one is stale, and ignored. */
  function Removed(r: Registry, id: ConnectionId, expected: Option<nat>): Registry {
    if expected.Some? && expected.value != Generation(r, id) then r else CancelExisting(r, id)
  }

  function Purged(r: Registry, id: ConnectionId): Registry {
    var r' := CancelExisting(r, id);
    r'.(generations := r'.generations - {id})
  }

  class Ptys {
    var sessions: map<ConnectionId, Pty>
    var generations: map<ConnectionId, nat>
    var cancelled: set<Pty>

    constructor ()
      ensures State() == Registry(map[], map[], {})
    {
      sessions, generations, cancelled := map[], map[], {};
    }

    function State(): Registry
      reads this
    {
      Registry(sessions, generations, cancelled)
    }

    method Cancel(pty: Pty)
      modifies this`cancelled
      ensures cancelled == old(cancelled) + {pty}
    {
      cancelled := cancelled + {pty};
    }

    method DropExisting(id: ConnectionId)
      modifies this
      ensures State() == CancelExisting(old(State()), id)
    {
      if id in sessions {
        var previous := sessions[id];
        sessions := sessions - {id};
        Cancel(previous);
      }
    }

    method Insert(id: ConnectionId, pty: Pty) returns (generation: nat)
      modifies this
      ensures State() == Inserted(old(State()), id, pty)
      ensures generation == Generation(old(State()), id) + 1
    {
      if id !in generations {
        generations := generations[id := 0];
      }
      generations := generations[id := generations[id] + 1];
      generation := generations[id];
      sessions := sessions[id := pty];
    }

    method Remove(id: ConnectionId, expected: Option<nat>)
      modifies this
      ensures State() == Removed(old(State()), id, expected)
    {
      if expected.Some? {
        var current := if id in generations then generations[id] else 0;
        if current != expected.value {
          return;
        }
      }
      if id in sessions {
        var session := sessions[id];
        sessions := sessions - {id};
        Cancel(session);
      }
    }

    method Purge(id: ConnectionId)
      modifies this
      ensures State() == Purged(old(State()), id)
    {
      DropExisting(id);
      generations := generations - {id};
    }
  }
}
