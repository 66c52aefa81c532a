/** Runs of the whole bus: who is answered, from what nodes and callers did (spored/internal/bus/bus.go). */
module BusRuns {
  import opened Wrappers
  import opened Api
  import opened Bus
  import opened Responses
  import Permissions

  /**
   Nodes come and go, requests are made and answered. The permission manager's state at a
   request is given with it, for it changes outside the bus too.
   */
  datatype Event =
    | Joined(node: Node)
    | Left(node: Node)
    | Asked(m: Message, now: nat, stamp: nat, o: Outside, p: Option<Permissions.State>)
    | Replied(handle: string)

  datatype Hub = Hub(responses: State, tables: Tables)

  const NEW := Hub(Do(BEFORE, Op.Register("SPORE.pipe")).0, NO_TABLES)

  /** What each of the bus's methods does to the handle table and the command tables. */
  function Next(h: Hub, e: Event): Hub {
    match e
    case Joined(n) => Hub(Do(h.responses, Op.Register(n.id)).0, h.tables.Register(n))
    case Left(n) => Hub(Do(h.responses, Op.Unregister(n.id)).0, h.tables.Unregister(n))
    case Asked(m, now, stamp, o, p) => h.(responses := Requested(h.responses, h.tables, p, m, now, stamp, o).0)
    case Replied(handle) => h.(responses := Do(h.responses, Op.Response(handle)).0)
  }

  function After(es: seq<Event>): Hub {
    if es == [] then NEW else Next(After(es[..|es| - 1]), es[|es| - 1])
  }

  /** The methods of the bus take the steps of `Next`. */
  method Step(bus: Bus, e: Event) returns (a: Option<Answer>, r: Option<Told>)
    requires !bus.responses.held && bus.api.abbrevs != bus.broadcast.topics
    requires e.Asked? ==> bus.api.Permits() == e.p
    modifies bus.responses, bus.api, bus.api.abbrevs, bus.broadcast, bus.broadcast.topics, bus.api.permissions
    ensures Hub(bus.responses.Value(), bus.api.Value()) ==
            Next(Hub(old(bus.responses.Value()), old(bus.api.Value())), e)
    ensures a == if e.Asked? then Some(AnswerTo(Hub(old(bus.responses.Value()), old(bus.api.Value())), e)) else None
    ensures r == if e.Replied? then Some(Do(old(bus.responses.Value()), Op.Response(e.handle)).1) else None
  {
    a, r := None, None;
    match e {
      case Joined(n) => bus.Register(n);
      case Left(n) => bus.Unregister(n);
      case Asked(m, now, stamp, o, p) =>
        var answer := bus.Request(m, now, stamp, o);
        a := Some(answer);
      case Replied(handle) =>
        var told := bus.Response(handle);
        r := Some(told);
    }
  }

  function AnswerTo(h: Hub, e: Event): Answer
    requires e.Asked?
  {
    Requested(h.responses, h.tables, e.p, e.m, e.now, e.stamp, e.o).2
  }

  // Told from what happened.

  /** Request `i` was sent. */
  predicate SentAt(es: seq<Event>, i: nat, handle: string)
    requires i < |es|
  {
    es[i].Asked? && es[i].m.handle == handle && AnswerTo(After(es[..i]), es[i]).Sent?
  }

  /** Event `i` takes the handle from whoever has it: a reply, or a request that is not refused as in use. */
  predicate Takes(es: seq<Event>, i: nat, handle: string)
    requires i < |es|
  {
    || es[i] == Replied(handle)
    || (es[i].Asked? && es[i].m.handle == handle && AnswerTo(After(es[..i]), es[i]) != InUse)
  }

  /** Request `i` was sent and still waits for its reply. */
  ghost predicate Waits(es: seq<Event>, i: nat, handle: string) {
    i < |es| && SentAt(es, i, handle) && forall j :: i < j < |es| ==> !Takes(es, j, handle)
  }

  /** The pipe, or a node that joined, and that did not leave since. */
  ghost predicate Connected(es: seq<Event>, id: string) {
    || (id == "SPORE.pipe" && StaysFrom(es, 0, id))
    || exists i: nat :: JoinsAt(es, i, id) && StaysFrom(es, i + 1, id)
  }

  predicate JoinsAt(es: seq<Event>, i: nat, id: string) {
    i < |es| && es[i].Joined? && es[i].node.id == id
  }

  predicate StaysFrom(es: seq<Event>, i: nat, id: string) {
    forall j :: i <= j < |es| ==> !(es[j].Left? && es[j].node.id == id)
  }

  predicate NoLostLock(es: seq<Event>) {
    Replied("n/a") !in es
  }

  lemma {:induction false} NeverHeld(es: seq<Event>)
    requires NoLostLock(es)
    ensures !After(es).responses.held
    decreases |es|
  {
    if es != [] {
      var n := |es| - 1;
      NeverHeld(es[..n]);
      assert es[n] in es;
      OnlyRepliesHold(After(es[..n]), es[n]);
    }
  }

  lemma OnlyRepliesHold(h: Hub, e: Event)
    requires !h.responses.held && e != Replied("n/a")
    ensures !Next(h, e).responses.held
  {
  }

  lemma StaysSnoc(es: seq<Event>, i: nat, id: string)
    requires i < |es|
    ensures var n := |es| - 1;
            StaysFrom(es, i, id) <==> StaysFrom(es[..n], i, id) && !(es[n].Left? && es[n].node.id == id)
  {
    var n := |es| - 1;
    assert forall j :: 0 <= j < n ==> es[..n][j] == es[j];
  }

  lemma ConnectedSnoc(es: seq<Event>, id: string)
    requires es != []
    ensures var n := |es| - 1;
            Connected(es, id) <==>
            JoinsAt(es, n, id) || (!(es[n].Left? && es[n].node.id == id) && Connected(es[..n], id))
  {
    var n := |es| - 1;
    StaysSnoc(es, 0, id);
    forall i: nat | i < n
      ensures JoinsAt(es, i, id) && StaysFrom(es, i + 1, id) <==>
              JoinsAt(es[..n], i, id) && StaysFrom(es[..n], i + 1, id) && !(es[n].Left? && es[n].node.id == id)
    {
      assert es[..n][i] == es[i];
      StaysSnoc(es, i + 1, id);
    }
    assert StaysFrom(es, n + 1, id);
    if i: nat :| JoinsAt(es[..n], i, id) && StaysFrom(es[..n], i + 1, id) {
      assert i < n;
    }
  }

  lemma NodesStep(h: Hub, e: Event, id: string)
    requires !h.responses.held
    ensures id in Next(h, e).responses.nodes <==>
            (e.Joined? && e.node.id == id) || (!(e.Left? && e.node.id == id) && id in h.responses.nodes)
  {
  }

  lemma {:induction false} NodesConnected(es: seq<Event>, id: string)
    requires NoLostLock(es)
    ensures id in After(es).responses.nodes <==> Connected(es, id)
    decreases |es|
  {
    if es == [] {
      assert StaysFrom(es, 0, id);
    } else {
      var n := |es| - 1;
      assert forall x :: x in es[..n] ==> x in es;
      NodesConnected(es[..n], id);
      NeverHeld(es[..n]);
      NodesStep(After(es[..n]), es[n], id);
      ConnectedSnoc(es, id);
    }
  }

  lemma TakesBefore(es: seq<Event>, n: nat, i: nat, handle: string)
    requires i < n <= |es|
    ensures Takes(es[..n], i, handle) <==> Takes(es, i, handle)
    ensures SentAt(es[..n], i, handle) <==> SentAt(es, i, handle)
  {
    assert es[..n][..i] == es[..i];
  }

  /** Which events take the handle. */
  function Taking(es: seq<Event>, handle: string): (bs: seq<bool>)
    ensures |bs| == |es|
    ensures forall i :: 0 <= i < |es| ==> bs[i] == Takes(es, i, handle)
  {
    seq(|es|, i requires 0 <= i < |es| => Takes(es, i, handle))
  }

  predicate NoneAfter(bs: seq<bool>, i: nat) {
    forall j :: i < j < |bs| ==> !bs[j]
  }

  lemma WaitsTaking(es: seq<Event>, i: nat, handle: string)
    ensures Waits(es, i, handle) <==> i < |es| && SentAt(es, i, handle) && NoneAfter(Taking(es, handle), i)
  {
    var bs := Taking(es, handle);
    assert i < |es| ==> ((forall j :: i < j < |es| ==> !Takes(es, j, handle)) <==> NoneAfter(bs, i));
  }

  lemma TakingSnoc(es: seq<Event>, handle: string)
    requires es != []
    ensures Taking(es, handle) == Taking(es[..|es| - 1], handle) + [Takes(es, |es| - 1, handle)]
  {
    var n := |es| - 1;
    forall j | 0 <= j < n
      ensures Takes(es[..n], j, handle) == Takes(es, j, handle)
    {
      TakesBefore(es, n, j, handle);
    }
  }

  lemma NoneAfterSnoc(bs: seq<bool>, b: bool, i: nat)
    requires i < |bs|
    ensures NoneAfter(bs + [b], i) <==> NoneAfter(bs, i) && !b
  {
    assert (bs + [b])[|bs|] == b;
    assert forall j :: 0 <= j < |bs| ==> (bs + [b])[j] == bs[j];
  }

  lemma WaitsSnoc(es: seq<Event>, i: nat, handle: string)
    requires es != []
    ensures var n := |es| - 1;
            Waits(es, i, handle) <==>
            if SentAt(es, n, handle) then i == n else !Takes(es, n, handle) && Waits(es[..n], i, handle)
  {
    var n := |es| - 1;
    WaitsTaking(es, i, handle);
    WaitsTaking(es[..n], i, handle);
    TakingSnoc(es, handle);
    SentTakes(es, n, handle);
    if i < n {
      TakesBefore(es, n, i, handle);
      NoneAfterSnoc(Taking(es[..n], handle), Takes(es, n, handle), i);
    }
  }

  lemma SentTakes(es: seq<Event>, i: nat, handle: string)
    requires i < |es|
    ensures SentAt(es, i, handle) ==> Takes(es, i, handle)
  {
  }

  function EntryOf(e: Event): Result
    requires e.Asked?
  {
    Result(e.m.actor, e.stamp + TIMEOUT)
  }

  lemma AskedStep(h: Hub, e: Event, handle: string)
    requires !h.responses.held && e.Asked?
    ensures var t, t', a := h.responses.table, Next(h, e).responses.table, AnswerTo(h, e);
            if e.m.handle != handle || a == InUse then
              (handle in t' <==> handle in t) && (handle in t ==> t'[handle] == t[handle])
            else if a.Sent? then handle in t' && t'[handle] == EntryOf(e)
            else handle !in t'
  {
  }

  lemma OtherStep(h: Hub, e: Event, handle: string)
    requires !h.responses.held && !e.Asked?
    ensures var t, t' := h.responses.table, Next(h, e).responses.table;
            if e == Replied(handle) && handle != "n/a" then handle !in t'
            else (handle in t' <==> handle in t) && (handle in t ==> t'[handle] == t[handle])
  {
  }

  /** The table holds exactly the requests that wait. */
  lemma {:induction false} TableWaits(es: seq<Event>, handle: string)
    requires NoLostLock(es)
    ensures handle in After(es).responses.table <==> exists i: nat :: Waits(es, i, handle)
    ensures forall i: nat :: Waits(es, i, handle) ==>
              handle in After(es).responses.table && After(es).responses.table[handle] == EntryOf(es[i])
    decreases |es|
  {
    if es != [] {
      var n := |es| - 1;
      var before := es[..n];
      assert forall x :: x in before ==> x in es;
      assert es[n] in es;
      TableWaits(before, handle);
      NeverHeld(before);
      forall i: nat
        ensures Waits(es, i, handle) <==>
                if SentAt(es, n, handle) then i == n else !Takes(es, n, handle) && Waits(before, i, handle)
      {
        WaitsSnoc(es, i, handle);
      }
      if es[n].Asked? {
        AskedStep(After(before), es[n], handle);
      } else {
        OtherStep(After(before), es[n], handle);
      }
      if SentAt(es, n, handle) {
        assert Waits(es, n, handle);
      } else if !Takes(es, n, handle) && handle in After(before).responses.table {
        var i: nat :| Waits(before, i, handle);
        assert Waits(es, i, handle);
      }
    }
  }

  /**
   A reply is handed to the node that asked with its handle, if that node joined and did
   not leave since; a handle that nobody waits with is refused.
   */
  lemma ReplyReaches(es: seq<Event>, handle: string)
    requires NoLostLock(es) && handle != "n/a"
    ensures var r := Do(After(es).responses, Op.Response(handle)).1;
            && (r == NotMapped <==> forall i: nat :: !Waits(es, i, handle))
            && forall i: nat :: Waits(es, i, handle) ==>
                 r == if Connected(es, es[i].m.actor) then Delivered(es[i].m.actor) else Told.NodeNotFound
  {
    NeverHeld(es);
    TableWaits(es, handle);
    forall i: nat | Waits(es, i, handle)
      ensures es[i].m.actor in After(es).responses.nodes <==> Connected(es, es[i].m.actor)
    {
      NodesConnected(es, es[i].m.actor);
    }
  }
}
