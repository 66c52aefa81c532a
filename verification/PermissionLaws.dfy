/** Who may call what, from the history of the manager alone. */
module PermissionLaws {
  import opened Names
  import opened Lists
  import opened Manifests
  import opened Wrappers
  import opened Permissions

  /** The manager starts with the allowances it loaded. */
  function After(loaded: map<string, seq<string>>, ops: seq<Op>): State {
    if ops == [] then NO_PERMISSIONS.(allowances := loaded)
    else Do(After(loaded, ops[..|ops| - 1]), ops[|ops| - 1]).0
  }

  /** What each caller was told. */
  function Tolds(loaded: map<string, seq<string>>, ops: seq<Op>): (ts: seq<Told>)
    ensures |ts| == |ops|
  {
    if ops == [] then []
    else
      var n := |ops| - 1;
      Tolds(loaded, ops[..n]) + [Do(After(loaded, ops[..n]), ops[n]).1]
  }

  lemma {:induction false} ToldsBefore(loaded: map<string, seq<string>>, ops: seq<Op>, n: nat)
    requires n <= |ops|
    ensures Tolds(loaded, ops[..n]) == Tolds(loaded, ops)[..n]
    ensures n < |ops| ==> Tolds(loaded, ops)[n] == Do(After(loaded, ops[..n]), ops[n]).1
    decreases |ops|
  {
    var m := |ops| - 1;
    if n == |ops| {
      assert ops[..n] == ops;
      assert Tolds(loaded, ops)[..n] == Tolds(loaded, ops);
    } else {
      if n < m {
        assert ops[..m][..n] == ops[..n];
        ToldsBefore(loaded, ops[..m], n);
      }
      FirstsOf(Tolds(loaded, ops[..m]), Do(After(loaded, ops[..m]), ops[m]).1, n);
    }
  }

  lemma FirstsOf(told: seq<Told>, t: Told, n: nat)
    requires n <= |told|
    ensures (told + [t])[..n] == told[..n]
    ensures (told + [t])[n] == if n < |told| then told[n] else t
  {
  }

  // Permits.

  function PermitOf(op: Op): Permit
    requires op.IssuePermit?
  {
    Permit(op.nodeid, op.capability, op.stamp + LIFETIME)
  }

  /** The token was issued at `k`, and neither spent nor issued again since. */
  ghost predicate Carries(told: seq<Told>, k: nat, token: string) {
    && k < |told| && told[k] == Issued(token)
    && forall j :: k < j < |told| ==> told[j] != Issued(token) && told[j] != AllowedByPermit(token)
  }

  /** `ops[k]` issued the token to `origin` for `capability`; it was not spent since, and is not expired at `now`. */
  ghost predicate Standing(loaded: map<string, seq<string>>, ops: seq<Op>, k: nat, token: string,
                           origin: string, capability: string, now: nat) {
    && Carries(Tolds(loaded, ops), k, token) && ops[k].IssuePermit?
    && ops[k].nodeid == origin && ops[k].capability == capability && now < ops[k].stamp + LIFETIME
  }

  lemma CarriesSnoc(told: seq<Told>, t: Told, k: nat, token: string)
    ensures Carries(told + [t], k, token) <==>
            if t == Issued(token) then k == |told|
            else t != AllowedByPermit(token) && Carries(told, k, token)
  {
    assert (told + [t])[|told|] == t;
    if k < |told| && Carries(told + [t], k, token) {
      assert forall j :: k < j < |told| ==> told[j] == (told + [t])[j];
    }
  }

  /** One step seen from a token: it is issued, spent, left alone, or purged once expired. */
  lemma StepToken(s: State, op: Op, token: string)
    ensures var (s', r) := Do(s, op);
            if r == Issued(token) then op.IssuePermit? && token in s'.permits && s'.permits[token] == PermitOf(op)
            else if r == AllowedByPermit(token) then token !in s'.permits
            else
              && (token in s'.permits ==> token in s.permits && s'.permits[token] == s.permits[token])
              && (token in s.permits && token !in s'.permits ==> op.IssuePermit? && s.permits[token].expiresAt <= op.now)
  {
  }

  /** A permit in the table comes from an issue, as issued, and was not spent since. */
  lemma {:induction false} PermitsFromHistory(loaded: map<string, seq<string>>, ops: seq<Op>, token: string) returns (k: nat)
    ensures token in After(loaded, ops).permits ==>
              && Carries(Tolds(loaded, ops), k, token) && ops[k].IssuePermit?
              && After(loaded, ops).permits[token] == PermitOf(ops[k])
    decreases |ops|
  {
    k := 0;
    if ops != [] {
      var n := |ops| - 1;
      k := PermitsFromHistory(loaded, ops[..n], token);
      var s := After(loaded, ops[..n]);
      StepToken(s, ops[n], token);
      if Do(s, ops[n]).1 == Issued(token) {
        k := n;
      }
      CarriesSnoc(Tolds(loaded, ops[..n]), Do(s, ops[n]).1, k, token);
    }
  }

  /** The clock readings of an operation come before `now`. */
  predicate NoLaterThan(op: Op, now: nat) {
    (op.IssuePermit? ==> op.now <= now && op.now <= op.stamp) && (op.Spend? ==> op.now <= now)
  }

  /** A permit that is neither spent nor expired is still in the table: purging drops expired ones only. */
  lemma {:induction false} PermitsStay(loaded: map<string, seq<string>>, ops: seq<Op>, k: nat, token: string, now: nat)
    requires Carries(Tolds(loaded, ops), k, token) && ops[k].IssuePermit? && now < ops[k].stamp + LIFETIME
    requires forall i :: 0 <= i < |ops| ==> NoLaterThan(ops[i], now)
    ensures token in After(loaded, ops).permits && After(loaded, ops).permits[token] == PermitOf(ops[k])
    decreases |ops|
  {
    var n := |ops| - 1;
    var s := After(loaded, ops[..n]);
    CarriesSnoc(Tolds(loaded, ops[..n]), Do(s, ops[n]).1, k, token);
    StepToken(s, ops[n], token);
    if k < n {
      PermitsStay(loaded, ops[..n], k, token, now);
    }
  }

  /**
   With a clock that does not run backwards, a token can be used just when it was issued
   to that node for that capability, has not been spent since, and has not expired.
   */
  lemma UsableByHistory(loaded: map<string, seq<string>>, ops: seq<Op>, token: string, origin: string, capability: string, now: nat)
    requires forall i :: 0 <= i < |ops| ==> NoLaterThan(ops[i], now)
    ensures Usable(After(loaded, ops), token, origin, capability, now) <==>
            exists k: nat :: Standing(loaded, ops, k, token, origin, capability, now)
  {
    if Usable(After(loaded, ops), token, origin, capability, now) {
      var k := PermitsFromHistory(loaded, ops, token);
      assert Standing(loaded, ops, k, token, origin, capability, now);
    }
    if k: nat :| Standing(loaded, ops, k, token, origin, capability, now) {
      PermitsStay(loaded, ops, k, token, now);
    }
  }

  /** The permit issued at `k` was not yet purged: no permit was issued since it expired. */
  predicate Unpurged(ops: seq<Op>, k: nat)
    requires k < |ops| && ops[k].IssuePermit?
  {
    forall j :: k < j < |ops| && ops[j].IssuePermit? ==> ops[j].now < ops[k].stamp + LIFETIME
  }

  /** The token was issued at `k`, not spent and not issued again since, and not purged. */
  ghost predicate Kept(loaded: map<string, seq<string>>, ops: seq<Op>, k: nat, token: string) {
    Carries(Tolds(loaded, ops), k, token) && ops[k].IssuePermit? && Unpurged(ops, k)
  }

  /**
   The table of permits is exactly what was issued, not spent and not issued again since,
   and not purged: each issue throws out all permits that have expired by then.
   */
  lemma {:induction false} PermitsExact(loaded: map<string, seq<string>>, ops: seq<Op>, token: string)
    ensures token in After(loaded, ops).permits <==>
            exists k: nat :: Kept(loaded, ops, k, token)
    decreases |ops|
  {
    if ops != [] {
      var n := |ops| - 1;
      var s := After(loaded, ops[..n]);
      PermitsExact(loaded, ops[..n], token);
      var r := PermitsFromHistory(loaded, ops[..n], token);
      StepToken(s, ops[n], token);
      forall k: nat
        ensures Kept(loaded, ops, k, token) <==>
                if Do(s, ops[n]).1 == Issued(token) then k == n
                else
                  && Do(s, ops[n]).1 != AllowedByPermit(token)
                  && Kept(loaded, ops[..n], k, token)
                  && (ops[n].IssuePermit? ==> ops[n].now < ops[k].stamp + LIFETIME)
      {
        CarriedUnpurged(loaded, ops, k, token);
      }
    }
  }

  lemma CarriedUnpurged(loaded: map<string, seq<string>>, ops: seq<Op>, k: nat, token: string)
    requires ops != []
    ensures var n := |ops| - 1;
            var s := After(loaded, ops[..n]);
            Kept(loaded, ops, k, token) <==>
            if Do(s, ops[n]).1 == Issued(token) then k == n
            else
              && Do(s, ops[n]).1 != AllowedByPermit(token)
              && Kept(loaded, ops[..n], k, token)
              && (ops[n].IssuePermit? ==> ops[n].now < ops[k].stamp + LIFETIME)
  {
    var n := |ops| - 1;
    CarriesSnoc(Tolds(loaded, ops[..n]), Do(After(loaded, ops[..n]), ops[n]).1, k, token);
    if k < n && ops[k].IssuePermit? {
      UnpurgedSnoc(ops, k);
    }
  }

  lemma UnpurgedSnoc(ops: seq<Op>, k: nat)
    requires k + 1 < |ops| && ops[k].IssuePermit?
    ensures var n := |ops| - 1;
            Unpurged(ops, k) <==>
            Unpurged(ops[..n], k) && (ops[n].IssuePermit? ==> ops[n].now < ops[k].stamp + LIFETIME)
  {
    var n := |ops| - 1;
    assert forall j :: 0 <= j < n ==> ops[..n][j] == ops[j];
  }

  /** Every token is issued once. */
  predicate FreshTokens(told: seq<Told>) {
    forall i, j :: 0 <= i < j < |told| && told[i].Issued? && told[j].Issued? ==> told[i] != told[j]
  }

  /** A spent token was issued before to the spender, for the capability called, and had not expired. */
  lemma SpentAsIssued(loaded: map<string, seq<string>>, ops: seq<Op>, i: nat, token: string) returns (k: nat)
    requires i < |ops| && Tolds(loaded, ops)[i] == AllowedByPermit(token)
    ensures k < i && ops[i].Spend?
    ensures Standing(loaded, ops[..i], k, token, ops[i].origin, ops[i].capability, ops[i].now)
    ensures Tolds(loaded, ops)[k] == Issued(token)
  {
    ToldsBefore(loaded, ops, i);
    k := PermitsFromHistory(loaded, ops[..i], token);
  }

  /** A token authorises at most one call. */
  lemma SpentOnce(loaded: map<string, seq<string>>, ops: seq<Op>, i: nat, j: nat, token: string)
    requires FreshTokens(Tolds(loaded, ops)) && i < j < |ops|
    requires Tolds(loaded, ops)[i] == AllowedByPermit(token)
    ensures Tolds(loaded, ops)[j] != AllowedByPermit(token)
  {
    var told := Tolds(loaded, ops);
    if told[j] == AllowedByPermit(token) {
      var k := SpentAsIssued(loaded, ops, i, token);
      var l := SpentAsIssued(loaded, ops, j, token);
      SameIssue(told, k, l, token);
      ToldsBefore(loaded, ops, j);
      NotSpentWhileCarried(told[..j], l, i, token);
    }
  }

  lemma SameIssue(told: seq<Told>, k: nat, l: nat, token: string)
    requires FreshTokens(told) && k < |told| && l < |told|
    requires told[k] == Issued(token) && told[l] == Issued(token)
    ensures k == l
  {
  }

  lemma NotSpentWhileCarried(told: seq<Told>, k: nat, i: nat, token: string)
    requires k < i < |told| && Carries(told, k, token)
    ensures told[i] != AllowedByPermit(token)
  {
  }

  /**
   What holds when a permit is spent. As the tables were read, the call would have been
   denied without it, and the capability was neither protected nor admin; when it is
   spent, it is good, and then it is gone. Any other call spends nothing.
   */
  lemma SpentWhenNeeded(read: State, later: State, c: Call)
    ensures var r := Answer(read, later, c);
            if r.AllowedByPermit? then
              && Answer(read, later, c.(token := None)) == Denied
              && c.capability !in read.protectedCommands && c.capability !in read.adminCommands
              && !Allows(AllowancesOf(read, c.origin), c.capability)
              && c.token == Some(r.spent) && Usable(later, r.spent, c.origin, c.capability, c.now)
              && Do(later, SpendOf(c)) == (later.(permits := later.permits - {r.spent}), r)
            else
              Rule(read, c.actor, c.origin, c.capability) == NeedPermit && c.token.Some? ==>
                r == Denied && Do(later, SpendOf(c)).0 == later
  {
  }

  // The tables.

  /** A registered manifest declares the capability at the risk. */
  ghost predicate Declared(ops: seq<Op>, capability: string, risk: Risk) {
    exists i :: 0 <= i < |ops| && DeclaredBy(ops[i], capability, risk)
  }

  predicate DeclaredBy(op: Op, capability: string, risk: Risk) {
    && op.RegisterNode? && op.man.Some?
    && exists j :: 0 <= j < |op.man.value.api| && op.man.value.api[j].risk == risk
                   && capability == op.man.value.id + "." + op.man.value.api[j].name
  }

  predicate SystemBy(op: Op, id: string) {
    op.RegisterNode? && op.man.Some? && op.man.value.trust == System && op.man.value.id == id
  }

  predicate TopicBy(op: Op, name: string) {
    && op.RegisterNode? && op.man.Some?
    && exists j :: 0 <= j < |op.man.value.topics| && op.man.value.topics[j] == Topic(name, Benign)
  }

  ghost predicate SystemNode(ops: seq<Op>, id: string) {
    exists i :: 0 <= i < |ops| && SystemBy(ops[i], id)
  }

  ghost predicate BenignTopic(ops: seq<Op>, name: string) {
    exists i :: 0 <= i < |ops| && TopicBy(ops[i], name)
  }

  lemma {:induction false} CommandsAtMembers(id: string, api: seq<Command>, risk: Risk, capability: string)
    ensures capability in CommandsAt(id, api, risk) <==>
            exists j :: 0 <= j < |api| && api[j].risk == risk && capability == id + "." + api[j].name
    decreases |api|
  {
    if api != [] {
      var n := |api| - 1;
      CommandsAtMembers(id, api[..n], risk, capability);
      assert forall j :: 0 <= j < n ==> api[..n][j] == api[j];
      if j :| 0 <= j < n && api[j].risk == risk && capability == id + "." + api[j].name {
        assert api[..n][j] == api[j];
      }
    }
  }

  lemma {:induction false} BenignTopicsMembers(topics: seq<Topic>, name: string)
    ensures name in BenignTopics(topics) <==> exists j :: 0 <= j < |topics| && topics[j] == Topic(name, Benign)
    decreases |topics|
  {
    if topics != [] {
      BenignTopicsMembers(topics[..|topics| - 1], name);
    }
  }

  function AtRisk(s: State, risk: Risk): seq<string> {
    match risk
    case Benign => s.benignCommands
    case Admin => s.adminCommands
    case Protected => s.protectedCommands
    case _ => []
  }

  /** What one step adds to the tables of declarations. */
  lemma StepDeclares(s: State, op: Op, x: string, risk: Risk)
    requires risk in {Benign, Admin, Protected}
    ensures x in AtRisk(Do(s, op).0, risk) <==> x in AtRisk(s, risk) || DeclaredBy(op, x, risk)
  {
    if op.RegisterNode? && op.man.Some? {
      var m := op.man.value;
      CommandsAtMembers(m.id, m.api, risk, x);
      assert AtRisk(Registered(s, m), risk) == AtRisk(s, risk) + CommandsAt(m.id, m.api, risk);
    }
  }

  lemma StepRegisters(s: State, op: Op, x: string)
    ensures var t := Do(s, op).0;
            && (x in t.sysNodes <==> x in s.sysNodes || SystemBy(op, x))
            && (x in t.benignTopics <==> x in s.benignTopics || TopicBy(op, x))
  {
    if op.RegisterNode? && op.man.Some? {
      BenignTopicsMembers(op.man.value.topics, x);
    }
  }

  lemma SnocDeclared(ops: seq<Op>, x: string, risk: Risk)
    requires ops != []
    ensures var n := |ops| - 1; Declared(ops, x, risk) <==> Declared(ops[..n], x, risk) || DeclaredBy(ops[n], x, risk)
  {
  }

  lemma SnocNodes(ops: seq<Op>, x: string)
    requires ops != []
    ensures var n := |ops| - 1; SystemNode(ops, x) <==> SystemNode(ops[..n], x) || SystemBy(ops[n], x)
    ensures var n := |ops| - 1; BenignTopic(ops, x) <==> BenignTopic(ops[..n], x) || TopicBy(ops[n], x)
  {
  }

  lemma {:induction false} DeclaredFromHistory(loaded: map<string, seq<string>>, ops: seq<Op>, x: string, risk: Risk)
    requires risk in {Benign, Admin, Protected}
    ensures x in AtRisk(After(loaded, ops), risk) <==> Declared(ops, x, risk)
    decreases |ops|
  {
    if ops != [] {
      var n := |ops| - 1;
      DeclaredFromHistory(loaded, ops[..n], x, risk);
      StepDeclares(After(loaded, ops[..n]), ops[n], x, risk);
      SnocDeclared(ops, x, risk);
    }
  }

  /** A permit may be asked for exactly while no registered manifest declares the capability admin or protected. */
  lemma AskedByHistory(loaded: map<string, seq<string>>, ops: seq<Op>, capability: string)
    ensures MayAsk(After(loaded, ops), capability) <==>
            !Declared(ops, capability, Admin) && !Declared(ops, capability, Protected)
  {
    DeclaredFromHistory(loaded, ops, capability, Admin);
    DeclaredFromHistory(loaded, ops, capability, Protected);
  }

  lemma {:induction false} NodesFromHistory(loaded: map<string, seq<string>>, ops: seq<Op>, x: string)
    ensures var s := After(loaded, ops);
            && (x in s.sysNodes <==> SystemNode(ops, x))
            && (x in s.benignTopics <==> BenignTopic(ops, x))
    decreases |ops|
  {
    if ops != [] {
      var n := |ops| - 1;
      NodesFromHistory(loaded, ops[..n], x);
      StepRegisters(After(loaded, ops[..n]), ops[n], x);
      SnocNodes(ops, x);
    }
  }

  // Allowances.

  /** No node was loaded with an allowance twice. */
  ghost predicate NoRepeats(allowances: map<string, seq<string>>) {
    forall n :: n in allowances ==> Distinct(allowances[n])
  }

  predicate Withdraws(op: Op, nodeid: string, command: string) {
    op == Revoke(nodeid, command) || op == RemoveNode(nodeid)
  }

  /** Granted, or loaded, and not withdrawn since. */
  ghost predicate Granted(loaded: map<string, seq<string>>, ops: seq<Op>, nodeid: string, command: string) {
    || (exists i :: GrantedAt(ops, i, nodeid, command))
    || (nodeid in loaded && command in loaded[nodeid] && NotWithdrawn(ops, 0, nodeid, command))
  }

  predicate GrantedAt(ops: seq<Op>, i: int, nodeid: string, command: string) {
    0 <= i < |ops| && ops[i] == Grant(nodeid, command) && NotWithdrawn(ops, i + 1, nodeid, command)
  }

  predicate NotWithdrawn(ops: seq<Op>, from: nat, nodeid: string, command: string) {
    forall j :: from <= j < |ops| ==> !Withdraws(ops[j], nodeid, command)
  }

  lemma StepAllowance(s: State, op: Op, nodeid: string, command: string)
    requires NoRepeats(s.allowances)
    ensures var t := Do(s, op).0;
            && NoRepeats(t.allowances)
            && (command in AllowancesOf(t, nodeid) <==>
                op == Grant(nodeid, command) || (command in AllowancesOf(s, nodeid) && !Withdraws(op, nodeid, command)))
  {
    if op.Revoke? {
      WithoutFirstMembers(AllowancesOf(s, op.nodeid), op.command);
    }
  }

  lemma SnocGranted(loaded: map<string, seq<string>>, ops: seq<Op>, nodeid: string, command: string)
    requires ops != []
    ensures var n := |ops| - 1;
            Granted(loaded, ops, nodeid, command) <==>
            ops[n] == Grant(nodeid, command) ||
            (Granted(loaded, ops[..n], nodeid, command) && !Withdraws(ops[n], nodeid, command))
  {
    var n := |ops| - 1;
    SnocNotWithdrawn(ops, 0, nodeid, command);
    forall i | 0 <= i < n
      ensures GrantedAt(ops, i, nodeid, command) <==>
              GrantedAt(ops[..n], i, nodeid, command) && !Withdraws(ops[n], nodeid, command)
    {
      SnocNotWithdrawn(ops, i + 1, nodeid, command);
    }
    assert GrantedAt(ops, n, nodeid, command) <==> ops[n] == Grant(nodeid, command);
    if i :| GrantedAt(ops[..n], i, nodeid, command) {
      assert GrantedAt(ops, i, nodeid, command) <==> !Withdraws(ops[n], nodeid, command);
    }
  }

  lemma SnocNotWithdrawn(ops: seq<Op>, from: nat, nodeid: string, command: string)
    requires from < |ops|
    ensures var n := |ops| - 1;
            NotWithdrawn(ops, from, nodeid, command) <==>
            NotWithdrawn(ops[..n], from, nodeid, command) && !Withdraws(ops[n], nodeid, command)
  {
    var n := |ops| - 1;
    assert forall j :: from <= j < n ==> ops[..n][j] == ops[j];
  }

  /** A node has an allowance just when it was granted or loaded and not withdrawn since. */
  lemma {:induction false} AllowancesFromHistory(loaded: map<string, seq<string>>, ops: seq<Op>, nodeid: string, command: string)
    requires NoRepeats(loaded)
    ensures NoRepeats(After(loaded, ops).allowances)
    ensures command in AllowancesOf(After(loaded, ops), nodeid) <==> Granted(loaded, ops, nodeid, command)
    decreases |ops|
  {
    if ops != [] {
      var n := |ops| - 1;
      AllowancesFromHistory(loaded, ops[..n], nodeid, command);
      StepAllowance(After(loaded, ops[..n]), ops[n], nodeid, command);
      SnocGranted(loaded, ops, nodeid, command);
    }
  }

  // The decision.

  /** Some dotted suffix of the capability is granted to the node. */
  ghost predicate GrantedSuffix(loaded: map<string, seq<string>>, ops: seq<Op>, nodeid: string, capability: string) {
    exists a :: a in Suffixes(capability) && Granted(loaded, ops, nodeid, a)
  }

  /** The ruling on a call, from the history. */
  ghost function RuleByHistory(loaded: map<string, seq<string>>, ops: seq<Op>, actor: string, origin: string, capability: string): Ruling {
    var allowed := SystemNode(ops, origin) || Declared(ops, capability, Benign) || BenignTopic(ops, capability)
                   || GrantedSuffix(loaded, ops, origin, capability);
    if Declared(ops, capability, Protected) then (if actor == PROTECTED_CALLER then Allow else Deny)
    else if (origin == PERMISSION_CALLER && capability == SHELL_CONFIRM_CAPABILITY)
         || (origin == PROTECTED_CALLER && capability in {HYPHAE_CONFIRM_CAPABILITY, HASH_CAPABILITY})
         || capability in {INSTALL_CAPABILITY, REINSTALL_CAPABILITY} then Allow
    else if Declared(ops, capability, Admin) then (if allowed then AskHyphae else Deny)
    else if allowed then Allow
    else NeedPermit
  }

  /** The tables rule on every call just as the history of registrations and grants does. */
  lemma RulingFromHistory(loaded: map<string, seq<string>>, ops: seq<Op>, actor: string, origin: string, capability: string)
    requires NoRepeats(loaded)
    ensures Rule(After(loaded, ops), actor, origin, capability) == RuleByHistory(loaded, ops, actor, origin, capability)
  {
    var s := After(loaded, ops);
    DeclaredFromHistory(loaded, ops, capability, Benign);
    DeclaredFromHistory(loaded, ops, capability, Admin);
    DeclaredFromHistory(loaded, ops, capability, Protected);
    NodesFromHistory(loaded, ops, capability);
    NodesFromHistory(loaded, ops, origin);
    SuffixesAreOwned(capability);
    forall a
      ensures a in AllowancesOf(s, origin) <==> Granted(loaded, ops, origin, a)
    {
      AllowancesFromHistory(loaded, ops, origin, a);
    }
    assert Allows(AllowancesOf(s, origin), capability) <==> GrantedSuffix(loaded, ops, origin, capability);
  }

  /**
   The whole decision, with `ops` before the tables were read and `more` before the permit
   was looked at: a call goes through outright just when the history up to the reading
   rules so, or Hyphae confirms where it has to; and by permit just when that history
   needs one and, by the longer one, the token was issued for this node and capability,
   not spent, and not expired.
   */
  lemma CanByHistory(loaded: map<string, seq<string>>, ops: seq<Op>, more: seq<Op>, c: Call)
    requires NoRepeats(loaded) && ops <= more
    requires forall i :: 0 <= i < |more| ==> NoLaterThan(more[i], c.now)
    ensures var r := Answer(After(loaded, ops), After(loaded, more), c);
            var rule := RuleByHistory(loaded, ops, c.actor, c.origin, c.capability);
            && (r == Allowed <==> rule == Allow || (rule == AskHyphae && c.hyphae == Some(Answered(true))))
            && (r.AllowedByPermit? <==>
                rule == NeedPermit && c.token.Some? &&
                exists k: nat :: Standing(loaded, more, k, c.token.value, c.origin, c.capability, c.now))
  {
    RulingFromHistory(loaded, ops, c.actor, c.origin, c.capability);
    AnswerByRuling(After(loaded, ops), After(loaded, more), c);
    if c.token.Some? {
      UsableByHistory(loaded, more, c.token.value, c.origin, c.capability, c.now);
    }
  }

  lemma AnswerByRuling(read: State, later: State, c: Call)
    ensures var r, rule := Answer(read, later, c), Rule(read, c.actor, c.origin, c.capability);
            && (r == Allowed <==> rule == Allow || (rule == AskHyphae && c.hyphae == Some(Answered(true))))
            && (r.AllowedByPermit? <==>
                rule == NeedPermit && c.token.Some? && Usable(later, c.token.value, c.origin, c.capability, c.now))
  {
  }

  /** A manifest registered from operation `from` on declares the capability at the risk. */
  ghost predicate DeclaredSince(ops: seq<Op>, from: nat, capability: string, risk: Risk) {
    exists k :: from <= k < |ops| && DeclaredBy(ops[k], capability, risk)
  }

  /**
   A permit may be spent on a capability that is protected or admin by then: exactly when
   a node registered in between declares it so.
   */
  lemma SpentOnGuarded(loaded: map<string, seq<string>>, ops: seq<Op>, more: seq<Op>, c: Call)
    requires ops <= more && Answer(After(loaded, ops), After(loaded, more), c).AllowedByPermit?
    ensures !MayAsk(After(loaded, more), c.capability) <==>
            DeclaredSince(more, |ops|, c.capability, Admin) || DeclaredSince(more, |ops|, c.capability, Protected)
  {
    NeedsUnguarded(After(loaded, ops), After(loaded, more), c);
    AskedByHistory(loaded, more, c.capability);
    AskedByHistory(loaded, ops, c.capability);
    DeclaredMeanwhile(ops, more, c.capability, Admin);
    DeclaredMeanwhile(ops, more, c.capability, Protected);
  }

  lemma NeedsUnguarded(read: State, later: State, c: Call)
    requires Answer(read, later, c).AllowedByPermit?
    ensures MayAsk(read, c.capability)
  {
  }

  lemma DeclaredMeanwhile(ops: seq<Op>, more: seq<Op>, capability: string, risk: Risk)
    requires ops <= more && !Declared(ops, capability, risk)
    ensures Declared(more, capability, risk) <==> DeclaredSince(more, |ops|, capability, risk)
  {
    assert forall k :: 0 <= k < |ops| ==> more[k] == ops[k];
  }

  /** Such a run: the capability is protected between the reading and the spending, where the call would be denied. */
  lemma GuardedTooLate(m: Manifest, cmd: Command, c: Call, token: string)
    requires m.api == [cmd] && cmd.risk == Protected && c.capability == m.id + "." + cmd.name
    requires c.token == Some(token) && c.now < LIFETIME
    requires c.actor != PROTECTED_CALLER && c.origin != PROTECTED_CALLER && c.origin != PERMISSION_CALLER
    requires c.capability != INSTALL_CAPABILITY && c.capability != REINSTALL_CAPABILITY
    ensures var ops := [IssuePermit(c.origin, c.capability, token, 0, 0)];
            var read, later := After(map[], ops), After(map[], ops + [RegisterNode(Some(m))]);
            && Answer(read, later, c) == AllowedByPermit(token)
            && Answer(later, later, c) == Denied
  {
    var ops := [IssuePermit(c.origin, c.capability, token, 0, 0)];
    var more := ops + [RegisterNode(Some(m))];
    assert ops[..0] == [] && more[..1] == ops;
    assert After(map[], []) == NO_PERMISSIONS;
    assert After(map[], ops) == Do(NO_PERMISSIONS, ops[0]).0;
    assert After(map[], more) == Do(After(map[], ops), RegisterNode(Some(m))).0;
    CommandsAtMembers(m.id, m.api, Protected, c.capability);
    assert m.api[0] == cmd;
  }

  /** Revoking takes one listing away: the allowance is gone exactly when the node was not loaded with it twice. */
  lemma RevokeTakesOne(s: State, nodeid: string, command: string)
    ensures command in AllowancesOf(Do(s, Revoke(nodeid, command)).0, nodeid) <==>
            multiset(AllowancesOf(s, nodeid))[command] > 1
  {
    var held := AllowancesOf(s, nodeid);
    WithoutFirstCount(held, command);
    assert command in WithoutFirst(held, command) <==> multiset(WithoutFirst(held, command))[command] > 0;
  }

  /** Loaded twice, an allowance outlives a revoke. */
  lemma RepeatedAllowanceSurvives(nodeid: string, command: string)
    ensures command in AllowancesOf(After(map[nodeid := [command, command]], [Revoke(nodeid, command)]), nodeid)
  {
    var ops := [Revoke(nodeid, command)];
    assert ops[..0] == [];
    var s := After(map[nodeid := [command, command]], []);
    assert AllowancesOf(s, nodeid) == [command, command];
    assert WithoutFirst([command, command], command) == [command];
    assert After(map[nodeid := [command, command]], ops) == Do(s, ops[0]).0;
  }

  /** A grant that is revoked again leaves the node with the allowances it had, in order. */
  lemma RevokeUndoesGrant(s: State, nodeid: string, command: string)
    requires command !in AllowancesOf(s, nodeid)
    ensures var t := Do(Do(s, Grant(nodeid, command)).0, Revoke(nodeid, command)).0;
            && AllowancesOf(t, nodeid) == AllowancesOf(s, nodeid)
            && t == s.(allowances := t.allowances)
            && forall n :: n != nodeid ==> (n in t.allowances <==> n in s.allowances) && AllowancesOf(t, n) == AllowancesOf(s, n)
  {
    var held := AllowancesOf(s, nodeid);
    WithoutFirstAt(held + [command], |held|, command);
    assert (held + [command])[..|held|] + (held + [command])[|held| + 1..] == held;
  }
}
