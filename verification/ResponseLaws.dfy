/** Routing of responses over every run of the handle table. */
module ResponseLaws {
  import opened Responses

  function After(ops: seq<Op>): State {
    if ops == [] then BEFORE else Do(After(ops[..|ops| - 1]), ops[|ops| - 1]).0
  }

  /** What the caller of `ops[i]` was told. */
  function OutcomeAt(ops: seq<Op>, i: nat): Told
    requires i < |ops|
  {
    Do(After(ops[..i]), ops[i]).1
  }

  // The history alone says who holds a handle.

  /** `ops[i]` is an accepted request for the handle. */
  predicate Accepts(ops: seq<Op>, i: nat, handle: string)
    requires i < |ops|
  {
    ops[i].Request? && ops[i].handle == handle && OutcomeAt(ops, i) == Accepted
  }

  /** `ops[i]` takes the handle out of the table. */
  predicate Releases(ops: seq<Op>, i: nat, handle: string)
    requires i < |ops|
  {
    || (ops[i].Cancel? && ops[i].handle == handle && OutcomeAt(ops, i) == Done)
    || (ops[i].Response? && ops[i].handle == handle && (OutcomeAt(ops, i).Delivered? || OutcomeAt(ops, i) == NodeNotFound))
  }

  /** `ops[i]` is the latest accepted request for the handle, and nothing released it since. */
  ghost predicate Holds(ops: seq<Op>, i: nat, handle: string) {
    && i < |ops| && Accepts(ops, i, handle)
    && forall j :: i < j < |ops| ==> !Accepts(ops, j, handle) && !Releases(ops, j, handle)
  }

  ghost predicate Unheld(ops: seq<Op>, handle: string) {
    forall i :: !Holds(ops, i, handle)
  }

  lemma OutcomeBefore(ops: seq<Op>, n: nat, i: nat)
    requires i < n <= |ops|
    ensures OutcomeAt(ops[..n], i) == OutcomeAt(ops, i)
  {
    assert ops[..n][..i] == ops[..i];
  }

  lemma SameBefore(ops: seq<Op>, handle: string)
    requires ops != []
    ensures var n := |ops| - 1;
            forall i: nat :: i < n ==>
              (Accepts(ops[..n], i, handle) <==> Accepts(ops, i, handle)) &&
              (Releases(ops[..n], i, handle) <==> Releases(ops, i, handle))
  {
    var n := |ops| - 1;
    forall i: nat | i < n
      ensures Accepts(ops[..n], i, handle) <==> Accepts(ops, i, handle)
      ensures Releases(ops[..n], i, handle) <==> Releases(ops, i, handle)
    {
      OutcomeBefore(ops, n, i);
    }
  }

  /** How one more operation moves the holder of a handle. */
  lemma HoldsSnoc(ops: seq<Op>, handle: string, i: nat)
    requires ops != []
    ensures var n := |ops| - 1;
            Holds(ops, i, handle) <==>
            if Accepts(ops, n, handle) then i == n
            else !Releases(ops, n, handle) && Holds(ops[..n], i, handle)
  {
    SameBefore(ops, handle);
    var n := |ops| - 1;
    if i < n {
      assert Holds(ops[..n], i, handle) ==> forall j :: i < j < n ==> !Accepts(ops, j, handle) && !Releases(ops, j, handle);
      if Holds(ops, i, handle) {
        assert forall j :: i < j < n ==> !Accepts(ops[..n], j, handle) && !Releases(ops[..n], j, handle);
      }
    }
  }

  /** The entry a holding request left in the table. */
  function Entry(op: Op): Result
    requires op.Request?
  {
    Result(op.actor, op.stamp + TIMEOUT)
  }

  /** How one more operation moves the entry of a handle. */
  ghost predicate EntryMoves(ops: seq<Op>, n: nat, handle: string)
    requires n < |ops|
  {
    var s, s' := After(ops[..n]), Do(After(ops[..n]), ops[n]).0;
    if Accepts(ops, n, handle) then handle in s'.table && s'.table[handle] == Entry(ops[n])
    else if Releases(ops, n, handle) then handle !in s'.table
    else (handle in s'.table <==> handle in s.table) &&
         (handle in s.table ==> s'.table[handle] == s.table[handle])
  }

  lemma RequestMoves(ops: seq<Op>, n: nat, handle: string)
    requires n < |ops| && ops[n].Request?
    ensures EntryMoves(ops, n, handle)
  {
  }

  lemma CancelMoves(ops: seq<Op>, n: nat, handle: string)
    requires n < |ops| && ops[n].Cancel?
    ensures EntryMoves(ops, n, handle)
  {
  }

  lemma ResponseMoves(ops: seq<Op>, n: nat, handle: string)
    requires n < |ops| && ops[n].Response?
    ensures EntryMoves(ops, n, handle)
  {
  }

  lemma NodeMoves(ops: seq<Op>, n: nat, handle: string)
    requires n < |ops| && (ops[n].Register? || ops[n].Unregister?)
    ensures EntryMoves(ops, n, handle)
  {
  }

  lemma TableStep(ops: seq<Op>, n: nat, handle: string)
    requires n + 1 == |ops|
    ensures After(ops) == Do(After(ops[..n]), ops[n]).0 && EntryMoves(ops, n, handle)
  {
    match ops[n] {
      case Request(_, _, _, _) => RequestMoves(ops, n, handle);
      case Cancel(_) => CancelMoves(ops, n, handle);
      case Response(_) => ResponseMoves(ops, n, handle);
      case Register(_) => NodeMoves(ops, n, handle);
      case Unregister(_) => NodeMoves(ops, n, handle);
    }
  }

  /** A handle is in the table just while an accepted request holds it, with that request's actor and expiry. */
  lemma {:induction false} TableFollowsHistory(ops: seq<Op>, handle: string)
    ensures handle in After(ops).table <==> !Unheld(ops, handle)
    ensures forall i: nat :: Holds(ops, i, handle) ==>
              handle in After(ops).table && After(ops).table[handle] == Entry(ops[i])
    decreases |ops|
  {
    if ops != [] {
      var n := |ops| - 1;
      TableFollowsHistory(ops[..n], handle);
      TableStep(ops, n, handle);
      forall i: nat
        ensures Holds(ops, i, handle) <==>
                if Accepts(ops, n, handle) then i == n
                else !Releases(ops, n, handle) && Holds(ops[..n], i, handle)
      {
        HoldsSnoc(ops, handle, i);
      }
      if Accepts(ops, n, handle) {
        assert Holds(ops, n, handle);
      } else if !Releases(ops, n, handle) && !Unheld(ops[..n], handle) {
        var i :| Holds(ops[..n], i, handle);
        assert Holds(ops, i, handle);
      }
    }
  }

  /** With the lock free, a request is refused exactly while a request that is not yet expired holds its handle. */
  lemma RefusedWhileHeld(ops: seq<Op>, handle: string, actor: string, now: nat, stamp: nat)
    requires !After(ops).held
    ensures var r := Do(After(ops), Request(handle, actor, now, stamp)).1;
            && (r == Accepted || r == HandleInUse)
            && (r == HandleInUse <==>
                exists i: nat :: Holds(ops, i, handle) && now < ops[i].stamp + TIMEOUT)
  {
    TableFollowsHistory(ops, handle);
    if handle in After(ops).table {
      var i :| Holds(ops, i, handle);
    }
  }

  /** Operation `i` registers the node, and none unregisters it since. */
  predicate RegisteredSince(ops: seq<Op>, i: int, id: string) {
    0 <= i < |ops| && ops[i] == Register(id) && forall j :: i < j < |ops| ==> ops[j] != Unregister(id)
  }

  ghost predicate OnTheBus(ops: seq<Op>, id: string) {
    exists i :: RegisteredSince(ops, i, id)
  }

  lemma OnTheBusSnoc(ops: seq<Op>, id: string)
    requires ops != []
    ensures var n := |ops| - 1;
            OnTheBus(ops, id) <==> ops[n] == Register(id) || (ops[n] != Unregister(id) && OnTheBus(ops[..n], id))
  {
    var n := |ops| - 1;
    var before := ops[..n];
    assert forall j :: 0 <= j < n ==> before[j] == ops[j];
    if ops[n] == Register(id) {
      assert RegisteredSince(ops, n, id);
    } else if ops[n] != Unregister(id) && OnTheBus(before, id) {
      var i :| RegisteredSince(before, i, id);
      assert RegisteredSince(ops, i, id);
    }
    if i :| RegisteredSince(ops, i, id) && i < n {
      assert RegisteredSince(before, i, id);
    }
  }

  lemma HeldLater(s: State, op: Op)
    ensures s.held ==> Do(s, op).0.held
  {
  }

  /** While the lock is not lost, the nodes are those registered and not unregistered since. */
  lemma {:induction false} NodesByHistory(ops: seq<Op>, id: string)
    requires !After(ops).held
    ensures id in After(ops).nodes <==> OnTheBus(ops, id)
    decreases |ops|
  {
    if ops != [] {
      var n := |ops| - 1;
      HeldLater(After(ops[..n]), ops[n]);
      NodesByHistory(ops[..n], id);
      OnTheBusSnoc(ops, id);
    }
  }

  /**
   A response is handed to the actor of the request holding its handle, provided that
   node is registered by then; a handle nobody holds is refused.
   */
  lemma DeliveredToHolder(ops: seq<Op>, handle: string)
    requires !After(ops).held && handle != "n/a"
    ensures var r := Do(After(ops), Response(handle)).1;
            && (r == NotMapped <==> Unheld(ops, handle))
            && forall i: nat :: Holds(ops, i, handle) ==>
                 r == if OnTheBus(ops, ops[i].actor) then Delivered(ops[i].actor) else NodeNotFound
  {
    TableFollowsHistory(ops, handle);
    forall i: nat | Holds(ops, i, handle)
      ensures ops[i].actor in After(ops).nodes <==> OnTheBus(ops, ops[i].actor)
    {
      NodesByHistory(ops, ops[i].actor);
    }
  }

  /** No accepted request is answered twice. */
  lemma AnsweredOnce(ops: seq<Op>, j: nat, k: nat, i: nat, h: string, g: string)
    requires j < k < |ops|
    requires Releases(ops, j, h) && Holds(ops[..j], i, h)
    requires Releases(ops, k, g)
    ensures !Holds(ops[..k], i, g)
  {
    if Holds(ops[..k], i, g) {
      OutcomeBefore(ops, j, i);
      OutcomeBefore(ops, k, i);
      OutcomeBefore(ops, k, j);
      assert Releases(ops[..k], j, h);
    }
  }

  // Conservation.

  datatype Counts = Counts(accepted: nat, consumed: nat, cancelled: nat, overwritten: nat)

  function One(b: bool): nat {
    if b then 1 else 0
  }

  /**
   What one operation adds: an accepted request; an entry taken out by a response,
   delivered or not; an entry taken out by a cancellation; an expired entry overwritten.
   */
  function Tally(c: Counts, s: State, op: Op): Counts {
    var r := Do(s, op).1;
    Counts(c.accepted + One(r == Accepted),
           c.consumed + One(r.Delivered? || r == NodeNotFound),
           c.cancelled + One(op.Cancel? && r == Done && op.handle in s.table),
           c.overwritten + One(r == Accepted && op.handle in s.table))
  }

  function Total(ops: seq<Op>): Counts {
    if ops == [] then Counts(0, 0, 0, 0)
    else Tally(Total(ops[..|ops| - 1]), After(ops[..|ops| - 1]), ops[|ops| - 1])
  }

  predicate Balanced(c: Counts, s: State) {
    c.accepted == |s.table| + c.consumed + c.cancelled + c.overwritten
  }

  lemma RequestBalanced(c: Counts, s: State, op: Op)
    requires Balanced(c, s) && op.Request?
    ensures Balanced(Tally(c, s, op), Do(s, op).0)
  {
  }

  lemma CancelBalanced(c: Counts, s: State, op: Op)
    requires Balanced(c, s) && op.Cancel?
    ensures Balanced(Tally(c, s, op), Do(s, op).0)
  {
  }

  lemma ResponseBalanced(c: Counts, s: State, op: Op)
    requires Balanced(c, s) && op.Response?
    ensures Balanced(Tally(c, s, op), Do(s, op).0)
  {
  }

  lemma TallyBalanced(c: Counts, s: State, op: Op)
    requires Balanced(c, s)
    ensures Balanced(Tally(c, s, op), Do(s, op).0)
  {
    if op.Request? {
      RequestBalanced(c, s, op);
    } else if op.Cancel? {
      CancelBalanced(c, s, op);
    } else if op.Response? {
      ResponseBalanced(c, s, op);
    } else {
      assert Do(s, op).0.table == s.table;
    }
  }

  /** Every accepted request is live, answered, cancelled, or was overwritten after it expired. */
  lemma {:induction false} RequestsConserved(ops: seq<Op>)
    ensures var c := Total(ops);
            c.accepted == |After(ops).table| + c.consumed + c.cancelled + c.overwritten
    decreases |ops|
  {
    if ops != [] {
      var n := |ops| - 1;
      RequestsConserved(ops[..n]);
      TallyBalanced(Total(ops[..n]), After(ops[..n]), ops[n]);
    }
  }

  // The lock.

  /** A response without a handle is told so, and nothing else is. */
  lemma NoHandleTold(ops: seq<Op>, i: nat)
    requires i < |ops|
    ensures OutcomeAt(ops, i) == NoHandle <==> ops[i] == Response("n/a") && !After(ops[..i]).held
  {
  }

  /** The lock is lost exactly when a response without a handle came in; from then on every operation blocks. */
  lemma {:induction false} LockLost(ops: seq<Op>)
    ensures After(ops).held <==> exists i :: 0 <= i < |ops| && ops[i] == Response("n/a")
    ensures forall i, j :: 0 <= i < j < |ops| && ops[i] == Response("n/a") ==> OutcomeAt(ops, j) == Blocked
    decreases |ops|
  {
    if ops != [] {
      var n := |ops| - 1;
      var before := ops[..n];
      LockLost(before);
      forall i, j | 0 <= i < j < |ops| && ops[i] == Response("n/a")
        ensures OutcomeAt(ops, j) == Blocked
      {
        assert before[i] == ops[i];
        if j < n {
          OutcomeBefore(ops, n, j);
        }
      }
      if After(before).held {
        var i :| 0 <= i < |before| && before[i] == Response("n/a");
        assert ops[i] == Response("n/a");
      }
      if i :| 0 <= i < n && ops[i] == Response("n/a") {
        assert before[i] == Response("n/a");
      }
    }
  }
}
