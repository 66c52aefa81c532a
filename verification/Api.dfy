/** The command tables (spored/internal/bus/api.go). */
module Api {
  import opened Abbreviations
  import opened Manifests
  import opened Wrappers
  import Permissions

  datatype Node = Node(id: string, manifest: Option<Manifest>) {
    /** The commands this node registers and unregisters. */
    function Commands(): seq<string> {
      match manifest
      case None => []
      case Some(m) => FqNames(id, m.api)
    }

    /** The topics this node announces. */
    function Topics(): seq<string> {
      match manifest
      case None => []
      case Some(m) => FqTopics(id, m.topics)
    }
  }

  /** What the api tables answer to a command before permissions are asked. */
  datatype Lookup =
    | Collision(candidates: seq<string>)
    | CommandMissing
    | NodeMissing
    | Target(fqname: string, node: Node)

  datatype Tables = Tables(nodes: map<string, Node>, commands: map<string, string>, abbrevs: Index) {

    function WithCommands(id: string, fqnames: seq<string>): Tables {
      if fqnames == [] then this
      else
        var t := WithCommands(id, fqnames[..|fqnames| - 1]);
        var f := fqnames[|fqnames| - 1];
        Tables(t.nodes, t.commands[f := id], t.abbrevs.Add(f))
    }

    function WithoutCommands(fqnames: seq<string>): Tables {
      if fqnames == [] then this
      else
        var t := WithoutCommands(fqnames[..|fqnames| - 1]);
        var f := fqnames[|fqnames| - 1];
        Tables(t.nodes, t.commands - {f}, t.abbrevs.Remove(f))
    }

    function Register(n: Node): Tables {
      this.(nodes := nodes[n.id := n]).WithCommands(n.id, n.Commands())
    }

    function Unregister(n: Node): Tables {
      this.(nodes := nodes - {n.id}).WithoutCommands(n.Commands())
    }

    function FullName(command: string): string {
      var r := abbrevs.Resolve(command);
      if r.Found? then r.fqname else command
    }

    function Find(key: string): Lookup {
      match abbrevs.Resolve(key)
      case Ambiguous(candidates) => if candidates == [] then CommandMissing else Collision(candidates)
      case Missing => CommandMissing
      case Found(fqname) =>
        if fqname !in commands then CommandMissing
        else if commands[fqname] !in nodes then NodeMissing
        else Target(fqname, nodes[commands[fqname]])
    }
  }

  const NO_TABLES := Tables(map[], map[], EMPTY)

  /** What routing reads of a message. */
  datatype Message = Message(handle: string, actor: string, origin: string, capability: string, token: Option<string>)

  /** What comes from outside: Hyphae's answer if it is there, the clock, and whether the node takes the message. */
  datatype Outside = Outside(hyphae: Option<Permissions.Confirmation>, now: nat, received: bool)

  /** What the permission manager is asked about a message whose command resolved to `fqname`. */
  function Question(m: Message, fqname: string, o: Outside): Permissions.Call {
    Permissions.Call(m.actor, m.origin, fqname, m.token, o.hyphae, o.now)
  }

  datatype Outcome = Refused(reason: Refusal) | Received(node: Node)

  datatype Refusal =
    | AmbiguousCommand(candidates: seq<string>)
    | CommandNotFound
    | NodeNotFound
    | NoPermissionManager
    | PermissionFailed
    | NotPermitted
    | ReceiveFailed

  class Api {
    var nodes: map<string, Node>
    var commands: map<string, string>
    const abbrevs: AbbreviationIndex
    var permissions: Permissions.Manager?

    function Value(): Tables
      reads this, abbrevs
    {
      Tables(nodes, commands, abbrevs.Value())
    }

    /** The state of the permission manager, if one is set. */
    function Permits(): Option<Permissions.State>
      reads this, permissions
    {
      if permissions == null then None else Some(permissions.Value())
    }

    constructor ()
      ensures Value() == NO_TABLES && permissions == null && fresh(abbrevs)
    {
      nodes, commands, permissions := map[], map[], null;
      abbrevs := new AbbreviationIndex();
    }

    method SetPermissions(manager: Permissions.Manager)
      modifies this`permissions
      ensures permissions == manager
    {
      permissions := manager;
    }

    method Register(n: Node)
      modifies this`nodes, this`commands, abbrevs
      ensures Value() == old(Value()).Register(n)
    {
      nodes := nodes[n.id := n];
      ghost var before := Value();
      if n.manifest.Some? {
        var api := n.manifest.value.api;
        ghost var names := FqNames(n.id, api);
        for i := 0 to |api|
          invariant Value() == before.WithCommands(n.id, names[..i])
        {
          var fqname := n.id + "." + api[i].name;
          assert names[..i + 1][..i] == names[..i];
          commands := commands[fqname := n.id];
          abbrevs.Add(fqname);
        }
        assert names[..|api|] == names;
      }
    }

    method Unregister(n: Node)
      modifies this`nodes, this`commands, abbrevs
      ensures Value() == old(Value()).Unregister(n)
    {
      nodes := nodes - {n.id};
      ghost var before := Value();
      if n.manifest.Some? {
        var api := n.manifest.value.api;
        ghost var names := FqNames(n.id, api);
        for i := 0 to |api|
          invariant Value() == before.WithoutCommands(names[..i])
        {
          var fqname := n.id + "." + api[i].name;
          assert names[..i + 1][..i] == names[..i];
          commands := commands - {fqname};
          abbrevs.Remove(fqname);
        }
        assert names[..|api|] == names;
      }
    }

    /** A command resolves to its full name; one that does not resolve is left as it is. */
    method FullyQualifiedRequest(command: string) returns (name: string)
      ensures name == Value().FullName(command)
    {
      var r := abbrevs.Resolve(command);
      return if r.Found? then r.fqname else command;
    }

    method Request(m: Message, o: Outside) returns (r: Outcome)
      modifies permissions
      ensures Value() == old(Value())
      ensures (Permits(), r) == Routed(Value(), old(Permits()), m, o)
    {
      var found := abbrevs.Resolve(m.capability);
      if !found.Found? {
        if found.Ambiguous? && |found.candidates| > 0 {
          return Refused(AmbiguousCommand(found.candidates));
        }
        return Refused(CommandNotFound);
      }
      if found.fqname !in commands {
        return Refused(CommandNotFound);
      }
      var nodeid := commands[found.fqname];
      if nodeid !in nodes {
        return Refused(NodeNotFound);
      }
      var node := nodes[nodeid];
      if permissions == null {
        return Refused(NoPermissionManager);
      }
      var told := permissions.Can(Question(m, found.fqname, o));
      if told.Failed? {
        return Refused(PermissionFailed);
      }
      if told.Denied? {
        return Refused(NotPermitted);
      }
      if !o.received {
        return Refused(ReceiveFailed);
      }
      return Received(node);
    }
  }

  /** Asking may spend a permit, whatever becomes of the request then; only a command that is found, permitted and taken is received. */
  function Routed(t: Tables, p: Option<Permissions.State>, m: Message, o: Outside): (Option<Permissions.State>, Outcome) {
    match t.Find(m.capability)
    case Collision(candidates) => (p, Refused(AmbiguousCommand(candidates)))
    case CommandMissing => (p, Refused(CommandNotFound))
    case NodeMissing => (p, Refused(NodeNotFound))
    case Target(fqname, node) =>
      if p.None? then (p, Refused(NoPermissionManager))
      else
        var (p', told) := Permissions.Decided(p.value, Question(m, fqname, o));
        (Some(p'), if told.Failed? then Refused(PermissionFailed)
                   else if told.Denied? then Refused(NotPermitted)
                   else if !o.received then Refused(ReceiveFailed)
                   else Received(node))
  }
}
