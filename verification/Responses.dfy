/** The table of request handles waiting for a response (spored/internal/bus/responses.go). */
module Responses {

  /** responseHandleTimeout, in milliseconds. */
  const TIMEOUT: nat := 10_000

  datatype Result = Result(nodeid: string, expiresAt: nat)

  /** `held`: a response without a handle returned without giving the lock back. */
  datatype State = State(table: map<string, Result>, nodes: set<string>, held: bool)

  const BEFORE := State(map[], {}, false)

  /**
   The locked sections. A request reads the clock twice: `now` for the check and
   `stamp` for the new expiry.
   */
  datatype Op =
    | Request(handle: string, actor: string, now: nat, stamp: nat)
    | Cancel(handle: string)
    | Response(handle: string)
    | Register(id: string)
    | Unregister(id: string)

  datatype Told =
    | Blocked                // waits for the lock for ever
    | Accepted | HandleInUse
    | Done
    | NoHandle | NotMapped | NodeNotFound
    | Delivered(to: string)

  function Do(s: State, op: Op): (State, Told) {
    if s.held then (s, Blocked)
    else
      match op
      case Request(handle, actor, now, stamp) =>
        if handle in s.table && now < s.table[handle].expiresAt then (s, HandleInUse)
        else (s.(table := s.table[handle := Result(actor, stamp + TIMEOUT)]), Accepted)
      case Cancel(handle) => (s.(table := s.table - {handle}), Done)
      case Response(handle) =>
        if handle == "n/a" then (s.(held := true), NoHandle)
        else if handle !in s.table then (s, NotMapped)
        else
          var nodeid := s.table[handle].nodeid;
          (s.(table := s.table - {handle}), if nodeid in s.nodes then Delivered(nodeid) else NodeNotFound)
      case Register(id) => (s.(nodes := s.nodes + {id}), Done)
      case Unregister(id) => (s.(nodes := s.nodes - {id}), Done)
  }

  /** The table itself; each method is one locked section, so its caller must be able to take the lock. */
  class Responses {
    var table: map<string, Result>
    var nodes: set<string>
    var held: bool

    function Value(): State
      reads this
    {
      State(table, nodes, held)
    }

    constructor ()
      ensures Value() == BEFORE
    {
      table, nodes, held := map[], {}, false;
    }

    method Register(id: string)
      requires !held
      modifies this
      ensures Value() == Do(old(Value()), Op.Register(id)).0
    {
      nodes := nodes + {id};
    }

    method Unregister(id: string)
      requires !held
      modifies this
      ensures Value() == Do(old(Value()), Op.Unregister(id)).0
    {
      nodes := nodes - {id};
    }

    method Request(handle: string, actor: string, now: nat, stamp: nat) returns (ok: bool)
      requires !held
      modifies this
      ensures Value() == Do(old(Value()), Op.Request(handle, actor, now, stamp)).0
      ensures ok <==> Do(old(Value()), Op.Request(handle, actor, now, stamp)).1 == Accepted
    {
      if handle in table {
        var res := table[handle];
        if now < res.expiresAt {
          return false;
        }
      }
      table := table[handle := Result(actor, stamp + TIMEOUT)];
      return true;
    }

    method Cancel(handle: string)
      requires !held
      modifies this
      ensures Value() == Do(old(Value()), Op.Cancel(handle)).0
    {
      table := table - {handle};
    }

    method Response(handle: string) returns (r: Told)
      requires !held
      modifies this
      ensures (Value(), r) == Do(old(Value()), Op.Response(handle))
      ensures held <==> handle == "n/a"
    {
      held := true;
      if handle == "n/a" {
        return NoHandle;
      }
      if handle !in table {
        held := false;
        return NotMapped;
      }
      var nodeid := table[handle].nodeid;
      table := table - {handle};
      held := false;
      if nodeid !in nodes {
        return NodeNotFound;
      }
      return Delivered(nodeid);
    }
  }
}
