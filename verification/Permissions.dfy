/** The permission manager (spored/internal/permissions/manager.go). */
module Permissions {
  import opened Names
  import opened Lists
  import opened Manifests
  import opened Wrappers

  const PROTECTED_CALLER := "hyphae-in-spore"
  const HASH_CAPABILITY := "dev.sporeos.HYPHAE.binary.hash"
  const HYPHAE_CONFIRM_CAPABILITY := "dev.sporeos.HYPHAE.confirm"
  const PERMISSION_CALLER := "permission-in-spore"
  const SHELL_CONFIRM_CAPABILITY := "dev.sporeos.shell.confirm"
  const INSTALL_CAPABILITY := "dev.sporeos.SPORE.node.install"
  const REINSTALL_CAPABILITY := "dev.sporeos.SPORE.node.reinstall"

  /** permissionTokenLifetime, in milliseconds. */
  const LIFETIME: nat := 30_000

  datatype Permit = Permit(origin: string, capability: string, expiresAt: nat)

  datatype State = State(
    allowances: map<string, seq<string>>,
    permits: map<string, Permit>,
    sysNodes: seq<string>,
    benignCommands: seq<string>,
    benignTopics: seq<string>,
    adminCommands: seq<string>,
    protectedCommands: seq<string>
  )

  const NO_PERMISSIONS := State(map[], map[], [], [], [], [], [])

  /** How asking the user, or Hyphae, comes out. */
  datatype Confirmation = ConfirmationFailed | Answered(granted: bool)

  datatype Op =
    | RegisterNode(man: Option<Manifest>)
    | Grant(nodeid: string, command: string)
    | Revoke(nodeid: string, command: string)
    | RemoveNode(nodeid: string)
    | IssuePermit(nodeid: string, capability: string, minted: string, now: nat, stamp: nat)
    | Spend(origin: string, capability: string, token: string, now: nat)

  /** A call to be ruled on: who asks for what, the permit it comes with, Hyphae's answer if it is there, and the clock. */
  datatype Call = Call(
    actor: string,
    origin: string,
    capability: string,
    token: Option<string>,
    hyphae: Option<Confirmation>,
    now: nat
  )

  datatype Told =
    | Done
    | NotPermitted | Failed | Declined | Issued(token: string)
    | Allowed | AllowedByPermit(spent: string) | Denied

  /** The names of the commands at a given risk, in manifest order. */
  function CommandsAt(id: string, api: seq<Command>, risk: Risk): seq<string> {
    if api == [] then []
    else
      var c := api[|api| - 1];
      CommandsAt(id, api[..|api| - 1], risk) + if c.risk == risk then [id + "." + c.name] else []
  }

  lemma CommandsAtNext(id: string, api: seq<Command>, i: nat)
    requires i < |api|
    ensures forall risk :: CommandsAt(id, api[..i + 1], risk) ==
              CommandsAt(id, api[..i], risk) + if api[i].risk == risk then [id + "." + api[i].name] else []
  {
    assert api[..i + 1][..i] == api[..i];
  }

  function BenignTopics(topics: seq<Topic>): seq<string> {
    if topics == [] then []
    else
      var t := topics[|topics| - 1];
      BenignTopics(topics[..|topics| - 1]) + if t.risk == Benign then [t.name] else []
  }

  function Registered(s: State, m: Manifest): State {
    s.(sysNodes := s.sysNodes + if m.trust == System then [m.id] else [],
       benignCommands := s.benignCommands + CommandsAt(m.id, m.api, Benign),
       adminCommands := s.adminCommands + CommandsAt(m.id, m.api, Admin),
       protectedCommands := s.protectedCommands + CommandsAt(m.id, m.api, Protected),
       benignTopics := s.benignTopics + BenignTopics(m.topics))
  }

  function AllowancesOf(s: State, nodeid: string): seq<string> {
    if nodeid in s.allowances then s.allowances[nodeid] else []
  }

  /** Some allowance is the capability or one of its dotted suffixes. */
  predicate Allows(allowances: seq<string>, capability: string) {
    exists a :: a in allowances && Owns(capability, a)
  }

  /** What the tables say, before any permit is looked at. */
  datatype Ruling = Allow | Deny | AskHyphae | NeedPermit

  /** What is read of the tables for a call. */
  datatype Marks = Marks(isProtected: bool, isAdmin: bool, allowed: bool)

  function MarksOf(s: State, origin: string, capability: string): Marks {
    Marks(capability in s.protectedCommands,
          capability in s.adminCommands,
          origin in s.sysNodes || capability in s.benignCommands || capability in s.benignTopics
          || Allows(AllowancesOf(s, origin), capability))
  }

  function RuleOf(k: Marks, actor: string, origin: string, capability: string): Ruling {
    if k.isProtected then (if actor == PROTECTED_CALLER then Allow else Deny)
    else if origin == PERMISSION_CALLER && capability == SHELL_CONFIRM_CAPABILITY then Allow
    else if origin == PROTECTED_CALLER && (capability == HYPHAE_CONFIRM_CAPABILITY || capability == HASH_CAPABILITY) then Allow
    else if capability == INSTALL_CAPABILITY || capability == REINSTALL_CAPABILITY then Allow
    else if k.isAdmin then (if k.allowed then AskHyphae else Deny)
    else if k.allowed then Allow
    else NeedPermit
  }

  function Rule(s: State, actor: string, origin: string, capability: string): Ruling {
    RuleOf(MarksOf(s, origin, capability), actor, origin, capability)
  }

  predicate Usable(s: State, token: string, origin: string, capability: string, now: nat) {
    token in s.permits && s.permits[token].origin == origin && s.permits[token].capability == capability
    && now < s.permits[token].expiresAt
  }

  function Do(s: State, op: Op): (State, Told) {
    match op
    case RegisterNode(man) =>
      (match man case None => s case Some(m) => Registered(s, m), Done)
    case Grant(nodeid, command) =>
      var held := AllowancesOf(s, nodeid);
      (if command in held then s else s.(allowances := s.allowances[nodeid := held + [command]]), Done)
    case Revoke(nodeid, command) =>
      var held := AllowancesOf(s, nodeid);
      (if command in held then s.(allowances := s.allowances[nodeid := WithoutFirst(held, command)]) else s, Done)
    case RemoveNode(nodeid) =>
      (s.(allowances := s.allowances - {nodeid}), Done)
    case IssuePermit(nodeid, capability, token, now, stamp) =>
      (s.(permits := Unexpired(s.permits, now)[token := Permit(nodeid, capability, stamp + LIFETIME)]), Issued(token))
    case Spend(origin, capability, token, now) =>
      if Usable(s, token, origin, capability, now) then
        (s.(permits := s.permits - {token}), AllowedByPermit(token))
      else (s, Denied)
  }

  function SpendOf(c: Call): Op
    requires c.token.Some?
  {
    Spend(c.origin, c.capability, c.token.value, c.now)
  }

  /**
   The answer to a call whose tables were read in state `read` and whose permit, if it came
   to that, was looked at in state `later`: two locked sections with anything in between.
   */
  function Answer(read: State, later: State, c: Call): Told {
    match Rule(read, c.actor, c.origin, c.capability)
    case Allow => Allowed
    case Deny => Denied
    case AskHyphae =>
      if c.hyphae.None? || c.hyphae.value.ConfirmationFailed? then Failed
      else if c.hyphae.value.granted then Allowed else Denied
    case NeedPermit => if c.token.None? then Denied else Do(later, SpendOf(c)).1
  }

  /** A call with nothing in between. */
  function Decided(s: State, c: Call): (State, Told) {
    (if Rule(s, c.actor, c.origin, c.capability) == NeedPermit && c.token.Some? then Do(s, SpendOf(c)).0 else s,
     Answer(s, s, c))
  }

  /** No permit is to be asked for what is admin or protected by now. */
  predicate MayAsk(s: State, capability: string) {
    capability !in s.adminCommands && capability !in s.protectedCommands
  }

  function Unexpired(permits: map<string, Permit>, now: nat): map<string, Permit> {
    map t | t in permits && now < permits[t].expiresAt :: permits[t]
  }

  class Manager {
    var allowances: map<string, seq<string>>
    var permits: map<string, Permit>
    var sysNodes: seq<string>
    var benignCommands: seq<string>
    var benignTopics: seq<string>
    var adminCommands: seq<string>
    var protectedCommands: seq<string>

    function Value(): State
      reads this
    {
      State(allowances, permits, sysNodes, benignCommands, benignTopics, adminCommands, protectedCommands)
    }

    constructor ()
      ensures Value() == NO_PERMISSIONS
    {
      allowances, permits := map[], map[];
      sysNodes, benignCommands, benignTopics, adminCommands, protectedCommands := [], [], [], [], [];
    }

    method RegisterNode(man: Option<Manifest>)
      modifies this
      ensures Value() == Do(old(Value()), Op.RegisterNode(man)).0
    {
      if man.None? {
        return;
      }
      var m := man.value;
      if m.trust == System {
        sysNodes := sysNodes + [m.id];
      }
      RegisterCommands(m);
      RegisterTopics(m);
    }

    method RegisterCommands(m: Manifest)
      modifies this`benignCommands, this`adminCommands, this`protectedCommands
      ensures benignCommands == old(benignCommands) + CommandsAt(m.id, m.api, Benign)
      ensures adminCommands == old(adminCommands) + CommandsAt(m.id, m.api, Admin)
      ensures protectedCommands == old(protectedCommands) + CommandsAt(m.id, m.api, Protected)
    {
      for i := 0 to |m.api|
        invariant benignCommands == old(benignCommands) + CommandsAt(m.id, m.api[..i], Benign)
        invariant adminCommands == old(adminCommands) + CommandsAt(m.id, m.api[..i], Admin)
        invariant protectedCommands == old(protectedCommands) + CommandsAt(m.id, m.api[..i], Protected)
      {
        CommandsAtNext(m.id, m.api, i);
        var command := m.api[i];
        var capability := m.id + "." + command.name;
        if command.risk == Benign {
          benignCommands := benignCommands + [capability];
        }
        if command.risk == Admin {
          adminCommands := adminCommands + [capability];
        }
        if command.risk == Protected {
          protectedCommands := protectedCommands + [capability];
        }
      }
      assert m.api[..|m.api|] == m.api;
    }

    method RegisterTopics(m: Manifest)
      modifies this`benignTopics
      ensures benignTopics == old(benignTopics) + BenignTopics(m.topics)
    {
      for i := 0 to |m.topics|
        invariant benignTopics == old(benignTopics) + BenignTopics(m.topics[..i])
      {
        assert m.topics[..i + 1][..i] == m.topics[..i];
        if m.topics[i].risk == Benign {
          benignTopics := benignTopics + [m.topics[i].name];
        }
      }
      assert m.topics[..|m.topics|] == m.topics;
    }

    method Grant(nodeid: string, command: string)
      modifies this`allowances
      ensures Value() == Do(old(Value()), Op.Grant(nodeid, command)).0
    {
      var held := if nodeid in allowances then allowances[nodeid] else [];
      if command in held {
        return;
      }
      allowances := allowances[nodeid := held + [command]];
    }

    method Revoke(nodeid: string, command: string)
      modifies this`allowances
      ensures Value() == Do(old(Value()), Op.Revoke(nodeid, command)).0
    {
      var commands := if nodeid in allowances then allowances[nodeid] else [];
      for i := 0 to |commands|
        invariant Value() == old(Value()) && command !in commands[..i]
      {
        if commands[i] == command {
          WithoutFirstAt(commands, i, command);
          allowances := allowances[nodeid := commands[..i] + commands[i + 1..]];
          return;
        }
      }
    }

    method RemoveNode(nodeid: string)
      modifies this`allowances
      ensures Value() == Do(old(Value()), Op.RemoveNode(nodeid)).0
    {
      allowances := allowances - {nodeid};
    }

    /**
     Two locked sections with the confirmation in between; it and the new token come from
     outside, and `now` and `stamp` are clock readings.
     */
    method RequestPermit(nodeid: string, capability: string, asked: Confirmation, minted: Option<string>,
                         now: nat, stamp: nat) returns (r: Told)
      modifies this`permits
      ensures if MayAsk(old(Value()), capability) && asked == Answered(true) && minted.Some? then
                (Value(), r) == Do(old(Value()), Op.IssuePermit(nodeid, capability, minted.value, now, stamp))
              else
                && Value() == old(Value())
                && r == if !MayAsk(old(Value()), capability) then NotPermitted
                        else if asked == Answered(false) then Declined else Failed
    {
      var ok := MayRequestPermit(capability);
      if !ok {
        return NotPermitted;
      }
      if asked.ConfirmationFailed? {
        return Failed;
      }
      if !asked.granted {
        return Declined;
      }
      if minted.None? {
        return Failed;
      }
      IssuePermit(nodeid, capability, minted.value, now, stamp);
      return Issued(minted.value);
    }

    method MayRequestPermit(capability: string) returns (ok: bool)
      ensures ok <==> MayAsk(Value(), capability)
    {
      var isAdmin := capability in adminCommands;
      var isProtected := capability in protectedCommands;
      return !isAdmin && !isProtected;
    }

    method IssuePermit(nodeid: string, capability: string, token: string, now: nat, stamp: nat)
      modifies this`permits
      ensures Value() == Do(old(Value()), Op.IssuePermit(nodeid, capability, token, now, stamp)).0
    {
      Purge(now);
      permits := permits[token := Permit(nodeid, capability, stamp + LIFETIME)];
    }

    method Purge(now: nat)
      modifies this`permits
      ensures permits == Unexpired(old(permits), now)
    {
      var tokens := permits.Keys;
      while tokens != {}
        invariant tokens <= permits.Keys <= old(permits).Keys
        invariant forall t :: t in permits ==> permits[t] == old(permits)[t]
        invariant forall t :: t in old(permits) && t !in tokens ==> (t in permits <==> now < old(permits)[t].expiresAt)
        decreases tokens
      {
        var t :| t in tokens;
        if !(now < permits[t].expiresAt) {
          permits := permits - {t};
        }
        tokens := tokens - {t};
      }
    }

    /** Two locked sections: the tables are read in the first, and the permit is spent in the second. */
    method Can(c: Call) returns (r: Told)
      modifies this`permits
      ensures (Value(), r) == Decided(old(Value()), c)
    {
      var marks := ReadTables(c.origin, c.capability);
      if marks.isProtected {
        return if c.actor == PROTECTED_CALLER then Allowed else Denied;
      }
      if c.origin == PERMISSION_CALLER && c.capability == SHELL_CONFIRM_CAPABILITY {
        return Allowed;
      }
      if c.origin == PROTECTED_CALLER && c.capability == HYPHAE_CONFIRM_CAPABILITY {
        return Allowed;
      }
      if c.origin == PROTECTED_CALLER && c.capability == HASH_CAPABILITY {
        return Allowed;
      }
      if c.capability == INSTALL_CAPABILITY || c.capability == REINSTALL_CAPABILITY {
        return Allowed;
      }
      if marks.allowed {
        if !marks.isAdmin {
          return Allowed;
        }
        if c.hyphae.None? || c.hyphae.value.ConfirmationFailed? {
          return Failed;
        }
        return if c.hyphae.value.granted then Allowed else Denied;
      }
      if marks.isAdmin {
        return Denied;
      }
      if c.token.None? {
        return Denied;
      }
      var spent := ConsumePermit(c.origin, c.capability, c.token.value, c.now);
      return if spent then AllowedByPermit(c.token.value) else Denied;
    }

    method ReadTables(origin: string, capability: string) returns (marks: Marks)
      ensures marks == MarksOf(Value(), origin, capability)
    {
      var isProtected := capability in protectedCommands;
      var isAdmin := capability in adminCommands;
      var mine := if origin in allowances then allowances[origin] else [];
      var byAllowance := AnyAllows(mine, capability);
      var allowed := origin in sysNodes || capability in benignCommands || capability in benignTopics || byAllowance;
      return Marks(isProtected, isAdmin, allowed);
    }

    method ConsumePermit(origin: string, capability: string, token: string, now: nat) returns (ok: bool)
      modifies this`permits
      ensures Value() == Do(old(Value()), Spend(origin, capability, token, now)).0
      ensures ok <==> Usable(old(Value()), token, origin, capability, now)
    {
      if token !in permits {
        return false;
      }
      var permit := permits[token];
      if permit.origin != origin || permit.capability != capability || !(now < permit.expiresAt) {
        return false;
      }
      permits := permits - {token};
      return true;
    }
  }

  method AnyAllows(allowances: seq<string>, capability: string) returns (ok: bool)
    ensures ok <==> exists a :: a in allowances && a in Suffixes(capability)
    ensures ok <==> Allows(allowances, capability)
  {
    SuffixesAreOwned(capability);
    for i := 0 to |allowances|
      invariant !Allows(allowances[..i], capability)
    {
      if Owns(capability, allowances[i]) {
        return true;
      }
    }
    assert allowances[..|allowances|] == allowances;
    return false;
  }
}
