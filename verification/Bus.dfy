/** Requests through the whole bus: reserve the handle, route, give the handle back on failure (bus/bus.go). */
module Bus {
  import opened Responses
  import opened Api
  import opened Wrappers
  import Broadcast
  import Permissions

  datatype Answer = InUse | Unrouted(reason: Refusal) | Sent(node: Node)

  /**
   A request as one step on the handle table `s`, the command tables `t` and the permission
   manager `p`. The clock readings `now` and `stamp` are those of the handle table.
   */
  function Requested(s: State, t: Tables, p: Option<Permissions.State>, m: Message, now: nat, stamp: nat, o: Outside)
    : (State, Option<Permissions.State>, Answer)
  {
    var (s1, r) := Do(s, Op.Request(m.handle, m.actor, now, stamp));
    if r != Accepted then (s1, p, InUse)
    else
      var (p', outcome) := Routed(t, p, m, o);
      match outcome
      case Received(node) => (s1, p', Sent(node))
      case Refused(reason) => (Do(s1, Cancel(m.handle)).0, p', Unrouted(reason))
  }

  class Bus {
    const responses: Responses
    const api: Api
    const broadcast: Broadcast.Broadcast

    constructor ()
      ensures fresh(responses) && fresh(api) && fresh(api.abbrevs) && fresh(broadcast) && fresh(broadcast.topics)
      ensures broadcast.topics != api.abbrevs && broadcast.Value() == Broadcast.SILENCE
      ensures responses.Value() == Do(BEFORE, Op.Register("SPORE.pipe")).0
      ensures api.Value() == NO_TABLES && api.permissions == null
    {
      responses := new Responses();
      api := new Api();
      broadcast := new Broadcast.Broadcast();
      new;
      responses.Register("SPORE.pipe");
    }

    method Register(n: Node)
      requires !responses.held && api.abbrevs != broadcast.topics
      modifies responses, api, api.abbrevs, broadcast, broadcast.topics
      ensures api.Value() == old(api.Value()).Register(n)
      ensures broadcast.Value() == Broadcast.Do(old(broadcast.Value()), Broadcast.Op.Register(n)).0
      ensures responses.Value() == Do(old(responses.Value()), Op.Register(n.id)).0
    {
      api.Register(n);
      broadcast.Register(n);
      responses.Register(n.id);
    }

    method Unregister(n: Node)
      requires !responses.held && api.abbrevs != broadcast.topics
      modifies responses, api, api.abbrevs, broadcast, broadcast.topics
      ensures api.Value() == old(api.Value()).Unregister(n)
      ensures broadcast.Value() == Broadcast.Do(old(broadcast.Value()), Broadcast.Op.Unregister(n)).0
      ensures responses.Value() == Do(old(responses.Value()), Op.Unregister(n.id)).0
    {
      api.Unregister(n);
      broadcast.Unregister(n);
      responses.Unregister(n.id);
    }

    method SetPermissions(manager: Permissions.Manager)
      modifies api`permissions
      ensures api.permissions == manager
    {
      api.SetPermissions(manager);
    }

    method Request(m: Message, now: nat, stamp: nat, o: Outside) returns (a: Answer)
      requires !responses.held
      modifies responses, api.permissions
      ensures (responses.Value(), api.Permits(), a) ==
              Requested(old(responses.Value()), old(api.Value()), old(api.Permits()), m, now, stamp, o)
      ensures api.Value() == old(api.Value())
    {
      var ok := responses.Request(m.handle, m.actor, now, stamp);
      if !ok {
        return InUse;
      }
      var r := api.Request(m, o);
      match r {
        case Refused(reason) =>
          responses.Cancel(m.handle);
          return Unrouted(reason);
        case Received(node) =>
          return Sent(node);
      }
    }

    method Response(handle: string) returns (r: Told)
      requires !responses.held
      modifies responses
      ensures (responses.Value(), r) == Do(old(responses.Value()), Op.Response(handle))
    {
      r := responses.Response(handle);
    }
  }
}
