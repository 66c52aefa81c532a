/** Requests through the bus: what one may change, when a late cancellation errs, and when a request is sent at all. */
module RequestLaws {
  import opened Wrappers
  import opened Api
  import opened ApiLaws
  import opened Bus
  import opened Responses
  import opened ResponseLaws
  import AbbreviationLaws
  import Permissions
  import PermissionLaws

  /** The entry under a handle, if it has not expired. */
  predicate Live(s: State, handle: string, now: nat) {
    handle in s.table && now < s.table[handle].expiresAt
  }

  /**
   A request that fails, taken as one step, touches no entry that is still live: a
   handle in use stays with its holder, and a request that could not be routed leaves
   nothing behind.
   */
  lemma FailedRequest(s: State, t: Tables, p: Option<Permissions.State>, m: Message, now: nat, stamp: nat, o: Outside)
    requires !s.held && !Requested(s, t, p, m, now, stamp, o).2.Sent?
    ensures var (s', p', a) := Requested(s, t, p, m, now, stamp, o);
            && (a == InUse <==> Live(s, m.handle, now))
            && (forall h :: Live(s, h, now) ==> h in s'.table && s'.table[h] == s.table[h])
            && s' == (if Live(s, m.handle, now) then s else s.(table := s.table - {m.handle}))
            && (a == InUse ==> p' == p)
  {
  }

  /** A request that is sent reaches the node its command resolves to, is permitted, and reserves its handle for its actor. */
  lemma SentRequest(s: State, t: Tables, p: Option<Permissions.State>, m: Message, now: nat, stamp: nat, o: Outside)
    requires !s.held
    ensures var (s', _, a) := Requested(s, t, p, m, now, stamp, o);
            var found := t.Find(m.capability);
            && (a.Sent? <==> !Live(s, m.handle, now) && found.Target? && p.Some? && o.received
                             && LetsThrough(Permissions.Decided(p.value, Question(m, found.fqname, o)).1))
            && (a.Sent? ==> a.node == found.node &&
                            s' == s.(table := s.table[m.handle := Result(m.actor, stamp + TIMEOUT)]))
  {
  }

  predicate LetsThrough(told: Permissions.Told) {
    told == Permissions.Allowed || told.AllowedByPermit?
  }

  // The step is not atomic in the hub: other operations may run between reserving and cancelling.

  /** Everything accepted under the handle after `ops[i]` has been answered or cancelled. */
  ghost predicate LaterOnesReleased(ops: seq<Op>, i: nat, handle: string) {
    forall j :: i < j < |ops| && Accepts(ops, j, handle) ==> exists l :: j < l < |ops| && Releases(ops, l, handle)
  }

  /** The last operation from `j` on that was accepted under the handle. */
  lemma {:induction false} LastAccepted(ops: seq<Op>, j: nat, handle: string) returns (k: nat)
    requires j < |ops| && Accepts(ops, j, handle)
    ensures j <= k < |ops| && Accepts(ops, k, handle)
    ensures forall l :: k < l < |ops| ==> !Accepts(ops, l, handle)
    decreases |ops| - j
  {
    if l :| j < l < |ops| && Accepts(ops, l, handle) {
      k := LastAccepted(ops, l, handle);
    } else {
      k := j;
    }
  }

  /**
   With other operations since a request `i` was accepted, nobody but that request can be
   holding its handle exactly when every later holder was answered or cancelled; just then
   its late cancellation takes no other request's entry.
   */
  lemma CancelTakesOwn(ops: seq<Op>, i: nat, handle: string)
    requires i < |ops| && Accepts(ops, i, handle)
    ensures (forall k: nat :: Holds(ops, k, handle) ==> k == i) <==> LaterOnesReleased(ops, i, handle)
    ensures !After(ops).held ==>
              (SparesOthers(ops, i, handle) <==> LaterOnesReleased(ops, i, handle))
    ensures LaterOnesReleased(ops, i, handle) && handle in After(ops).table ==>
              After(ops).table[handle] == Entry(ops[i])
  {
    TableFollowsHistory(ops, handle);
    if (forall k: nat :: Holds(ops, k, handle) ==> k == i) && !LaterOnesReleased(ops, i, handle) {
      var j :| i < j < |ops| && Accepts(ops, j, handle) && forall l :: j < l < |ops| ==> !Releases(ops, l, handle);
      var k := LastAccepted(ops, j, handle);
      assert Holds(ops, k, handle);
    }
    if !After(ops).held {
      CancelEndsHolding(ops, i, handle);
    }
  }

  /** Cancelling the handle of request `i` leaves every other request that holds a handle holding it. */
  ghost predicate SparesOthers(ops: seq<Op>, i: nat, handle: string) {
    forall k: nat, h :: k != i && Holds(ops, k, h) ==> Holds(ops + [Cancel(handle)], k, h)
  }

  lemma CancelEndsHolding(ops: seq<Op>, i: nat, handle: string)
    requires i < |ops| && Accepts(ops, i, handle) && !After(ops).held
    ensures SparesOthers(ops, i, handle) <==> forall k: nat :: Holds(ops, k, handle) ==> k == i
  {
    var more := ops + [Cancel(handle)];
    assert more[..|ops|] == ops;
    assert Releases(more, |ops|, handle);
    forall k: nat, h
      ensures Holds(more, k, h) <==> h != handle && Holds(ops, k, h)
    {
      HoldsSnoc(more, h, k);
    }
  }

  /**
   A request whose routing takes as long as the timeout can cancel another's: once its
   own entry expired and a second request took over the handle, its cancellation removes
   the second entry although that one is live.
   */
  lemma LateCancelTakesAnother(handle: string, a: string, b: string, t: nat)
    ensures var ops := [Op.Request(handle, a, t, t)] + [Op.Request(handle, b, t + TIMEOUT, t + TIMEOUT)];
            && Accepts(ops, 1, handle) && Live(After(ops), handle, t + TIMEOUT)
            && After(ops).table[handle].nodeid == b
            && handle !in After(ops + [Cancel(handle)]).table
  {
    var o1 := [Op.Request(handle, a, t, t)];
    var o2 := o1 + [Op.Request(handle, b, t + TIMEOUT, t + TIMEOUT)];
    assert o1[..0] == [] && o2[..1] == o1 && (o2 + [Cancel(handle)])[..2] == o2;
    assert After(o1) == Do(BEFORE, o1[0]).0;
    assert After(o2) == Do(After(o1), o2[1]).0;
  }

  // Across all tables, from their histories alone.

  /** What happened so far to the handle table, the command tables and the permission manager. */
  datatype Past = Past(
    requests: seq<Op>,
    registrations: seq<Event>,
    loaded: map<string, seq<string>>,
    permissions: seq<Permissions.Op>
  )

  /**
   The handle table did not lose its lock, nodes that unregistered listed their commands,
   no allowance was loaded twice, and clocks ran forward.
   */
  ghost predicate Regular(past: Past, o: Outside) {
    && !After(past.requests).held
    && Thorough(past.registrations)
    && PermissionLaws.NoRepeats(past.loaded)
    && forall i :: 0 <= i < |past.permissions| ==> PermissionLaws.NoLaterThan(past.permissions[i], o.now)
  }

  function Tabled(past: Past): Tables {
    AfterEvents(past.registrations)
  }

  /** The outcome of a request as one step after that past. */
  function AnswerTo(past: Past, m: Message, now: nat, stamp: nat, o: Outside): Answer {
    Requested(After(past.requests), Tabled(past),
              Some(PermissionLaws.After(past.loaded, past.permissions)), m, now, stamp, o).2
  }

  /** An accepted request that is neither answered, cancelled nor expired holds the handle. */
  ghost predicate HeldAt(past: Past, handle: string, now: nat) {
    exists i: nat :: Holds(past.requests, i, handle) && now < past.requests[i].stamp + TIMEOUT
  }

  /** The name means one registered command: the only one that owns it, and not doubled there. */
  ghost predicate Means(past: Past, name: string, f: string) {
    SoleAt(past.registrations, name, f)
  }

  lemma ResolvesByHistory(past: Past, name: string)
    ensures var r := Tabled(past).abbrevs.Resolve(name);
            && (r.Found? <==> exists f :: Means(past, name, f))
            && forall f :: Means(past, name, f) ==> r.Found? && r.fqname == f
  {
    var changes := ChangesOf(past.registrations);
    IndexFollows(past.registrations);
    AbbreviationLaws.ResolveExact(changes, name);
    forall f | Means(past, name, f)
      ensures var r := Tabled(past).abbrevs.Resolve(name); r.Found? && r.fqname == f
    {
      assert AbbreviationLaws.Owners(AbbreviationLaws.Registered(changes), name) == {f};
    }
    var r := Tabled(past).abbrevs.Resolve(name);
    if r.Found? {
      assert Means(past, name, r.fqname);
    }
  }

  /** By the history of registrations, grants and permits the origin may call `fqname`. */
  ghost predicate PermittedTo(past: Past, m: Message, fqname: string, o: Outside) {
    match PermissionLaws.RuleByHistory(past.loaded, past.permissions, m.actor, m.origin, fqname)
    case Allow => true
    case Deny => false
    case AskHyphae => o.hyphae == Some(Permissions.Answered(true))
    case NeedPermit =>
      m.token.Some? && exists k: nat ::
        PermissionLaws.Standing(past.loaded, past.permissions, k, m.token.value, m.origin, fqname, o.now)
  }

  lemma HeldIsLive(past: Past, handle: string, now: nat)
    ensures Live(After(past.requests), handle, now) <==> HeldAt(past, handle, now)
  {
    TableFollowsHistory(past.requests, handle);
    if Live(After(past.requests), handle, now) {
      var i: nat :| Holds(past.requests, i, handle);
    }
  }

  lemma LetThroughByHistory(past: Past, m: Message, fqname: string, o: Outside)
    requires Regular(past, o)
    ensures LetsThrough(Permissions.Decided(PermissionLaws.After(past.loaded, past.permissions), Question(m, fqname, o)).1)
            <==> PermittedTo(past, m, fqname, o)
  {
    PermissionLaws.CanByHistory(past.loaded, past.permissions, past.permissions, Question(m, fqname, o));
  }

  /**
   A request is sent if and only if nobody holds its handle, its command means one
   registered command, the history permits that very command to its origin, and the node
   takes it. It goes to the node at which that command is homed.
   */
  lemma SentByHistory(past: Past, m: Message, now: nat, stamp: nat, o: Outside)
    requires Regular(past, o)
    ensures var t, a := Tabled(past), AnswerTo(past, m, now, stamp, o);
            && (a.Sent? <==> !HeldAt(past, m.handle, now) && o.received
                             && exists f :: Means(past, m.capability, f) && PermittedTo(past, m, f, o))
            && (a.Sent? ==> forall f :: Means(past, m.capability, f) ==>
                  f in t.commands && t.commands[f] in t.nodes && a.node == t.nodes[t.commands[f]])
  {
    var s, t, p := After(past.requests), Tabled(past), PermissionLaws.After(past.loaded, past.permissions);
    HeldIsLive(past, m.handle, now);
    ResolvedReachesNode(past.registrations, m.capability);
    ResolvesByHistory(past, m.capability);
    SentRequest(s, t, Some(p), m, now, stamp, o);
    var r := t.abbrevs.Resolve(m.capability);
    if r.Found? {
      LetThroughByHistory(past, m, r.fqname, o);
    }
  }

  /** Hyphae has to be asked about `fqname` and gives no answer. */
  ghost predicate HyphaeFails(past: Past, m: Message, fqname: string, o: Outside) {
    && PermissionLaws.RuleByHistory(past.loaded, past.permissions, m.actor, m.origin, fqname) == Permissions.AskHyphae
    && (o.hyphae == None || o.hyphae == Some(Permissions.ConfirmationFailed))
  }

  lemma FailsByHistory(past: Past, m: Message, fqname: string, o: Outside)
    requires Regular(past, o)
    ensures Permissions.Decided(PermissionLaws.After(past.loaded, past.permissions), Question(m, fqname, o)).1.Failed?
            <==> HyphaeFails(past, m, fqname, o)
  {
    PermissionLaws.RulingFromHistory(past.loaded, past.permissions, m.actor, m.origin, fqname);
  }

  /** What becomes of a request whose command was found. */
  lemma FoundAnswer(s: State, t: Tables, p: Permissions.State, m: Message, now: nat, stamp: nat, o: Outside)
    requires !s.held && !Live(s, m.handle, now) && t.Find(m.capability).Target?
    ensures var found, a := t.Find(m.capability), Requested(s, t, Some(p), m, now, stamp, o).2;
            var told := Permissions.Decided(p, Question(m, found.fqname, o)).1;
            a == if told.Failed? then Unrouted(PermissionFailed)
                 else if !LetsThrough(told) then Unrouted(NotPermitted)
                 else if !o.received then Unrouted(ReceiveFailed)
                 else Sent(found.node)
  {
  }

  lemma LostAnswer(s: State, t: Tables, p: Permissions.State, m: Message, now: nat, stamp: nat, o: Outside)
    requires !s.held && !Live(s, m.handle, now) && !t.Find(m.capability).Target?
    ensures Requested(s, t, Some(p), m, now, stamp, o).2 ==
            Unrouted(match t.Find(m.capability)
                     case Collision(candidates) => AmbiguousCommand(candidates)
                     case CommandMissing => CommandNotFound
                     case _ => Refusal.NodeNotFound)
  {
  }

  /**
   Why a request is refused, from the histories alone: its handle is held; no command, or
   more than one, owns its name, and these are the candidates; Hyphae gives no answer; the
   history does not permit the command; or the node does not take it. The first of these
   that is so decides, and there is no other reason.
   */
  lemma RefusedByHistory(past: Past, m: Message, now: nat, stamp: nat, o: Outside)
    requires Regular(past, o)
    ensures var a, changes := AnswerTo(past, m, now, stamp, o), ChangesOf(past.registrations);
            var owners := AbbreviationLaws.Owners(AbbreviationLaws.Registered(changes), m.capability);
            if HeldAt(past, m.handle, now) then a == InUse
            else if owners == {} then a == Unrouted(CommandNotFound)
            else if forall f :: !Means(past, m.capability, f) then
              a.Unrouted? && a.reason.AmbiguousCommand? && owners == set f | f in a.reason.candidates
            else
              forall f :: Means(past, m.capability, f) ==>
                if HyphaeFails(past, m, f, o) then a == Unrouted(PermissionFailed)
                else if !PermittedTo(past, m, f, o) then a == Unrouted(NotPermitted)
                else if !o.received then a == Unrouted(ReceiveFailed)
                else a.Sent?
  {
    var s, t, p := After(past.requests), Tabled(past), PermissionLaws.After(past.loaded, past.permissions);
    HeldIsLive(past, m.handle, now);
    ResolvedReachesNode(past.registrations, m.capability);
    ResolvesByHistory(past, m.capability);
    FindExact(past.registrations, m.capability);
    if !HeldAt(past, m.handle, now) {
      if t.Find(m.capability).Target? {
        FoundAnswer(s, t, p, m, now, stamp, o);
        LetThroughByHistory(past, m, t.Find(m.capability).fqname, o);
        FailsByHistory(past, m, t.Find(m.capability).fqname, o);
      } else {
        LostAnswer(s, t, p, m, now, stamp, o);
      }
    }
  }

  /** The permit is all that lets the origin call `fqname`. */
  ghost predicate ByPermit(past: Past, m: Message, fqname: string, o: Outside) {
    && PermissionLaws.RuleByHistory(past.loaded, past.permissions, m.actor, m.origin, fqname) == Permissions.NeedPermit
    && PermittedTo(past, m, fqname, o)
  }

  /** A permit is spent on a request exactly when it is what lets the request through, even if the node then does not take it. */
  lemma PermitSpentOnRequest(past: Past, m: Message, now: nat, stamp: nat, o: Outside, token: string)
    requires Regular(past, o)
    ensures var p := PermissionLaws.After(past.loaded, past.permissions);
            var p' := Requested(After(past.requests), Tabled(past), Some(p), m, now, stamp, o).1;
            && p'.Some?
            && (token in p.permits && token !in p'.value.permits <==>
                && !HeldAt(past, m.handle, now) && m.token == Some(token)
                && exists f :: Means(past, m.capability, f) && ByPermit(past, m, f, o))
  {
    HeldIsLive(past, m.handle, now);
    ResolvedReachesNode(past.registrations, m.capability);
    ResolvesByHistory(past, m.capability);
    var t, p := Tabled(past), PermissionLaws.After(past.loaded, past.permissions);
    var r := t.abbrevs.Resolve(m.capability);
    PermitsAfter(After(past.requests), t, p, m, now, stamp, o);
    if r.Found? {
      SpentByHistory(past, m, r.fqname, o, token);
    }
  }

  lemma SpentByHistory(past: Past, m: Message, fqname: string, o: Outside, token: string)
    requires Regular(past, o)
    ensures var p := PermissionLaws.After(past.loaded, past.permissions);
            var p' := Permissions.Decided(p, Question(m, fqname, o)).0;
            token in p.permits && token !in p'.permits <==> m.token == Some(token) && ByPermit(past, m, fqname, o)
  {
    LetThroughByHistory(past, m, fqname, o);
    PermissionLaws.RulingFromHistory(past.loaded, past.permissions, m.actor, m.origin, fqname);
    Spends(PermissionLaws.After(past.loaded, past.permissions), Question(m, fqname, o), token);
  }

  lemma PermitsAfter(s: State, t: Tables, p: Permissions.State, m: Message, now: nat, stamp: nat, o: Outside)
    requires !s.held
    ensures var found := t.Find(m.capability);
            Requested(s, t, Some(p), m, now, stamp, o).1 ==
            Some(if Live(s, m.handle, now) || !found.Target? then p
                 else Permissions.Decided(p, Question(m, found.fqname, o)).0)
  {
  }

  lemma Spends(p: Permissions.State, call: Permissions.Call, token: string)
    ensures var (p', told) := Permissions.Decided(p, call);
            token in p.permits && token !in p'.permits <==>
            && call.token == Some(token) && LetsThrough(told)
            && Permissions.Rule(p, call.actor, call.origin, call.capability) == Permissions.NeedPermit
  {
  }
}
